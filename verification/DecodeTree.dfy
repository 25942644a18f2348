/** Decode blocks as decision trees: formats and defaults resolved once, before any field value is known. */
module DecodeTree {
  import opened Options
  import opened DecodeLanguage

  /** An instruction, or a test of a field for a value. */
  datatype Tree = Leaf(d: Defn) | Test(field: string, value: nat, yes: Tree, no: Tree)

  /** Walk down the tree. */
  function Chosen(t: Tree, env: Env): Defn {
    match t
    case Leaf(d) => d
    case Test(field, value, yes, no) => if env(field) == value then Chosen(yes, env) else Chosen(no, env)
  }

  /** Test a field for each value in turn. */
  function Tests(field: string, cases: seq<(nat, Tree)>, other: Tree): Tree {
    if cases == [] then other else Test(field, cases[0].0, cases[0].1, Tests(field, cases[1..], other))
  }

  /** What a list of statements contributes to a choice. */
  datatype Arms = Arms(cases: seq<(nat, Tree)>, defaults: seq<Tree>)

  function Labelled(lab: Label, t: Tree): Arms {
    match lab
    case Constants(values) => Arms(seq(|values|, k requires 0 <= k < |values| => (values[k], t)), [])
    case DefaultLabel => Arms([], [t])
  }

  /** An instruction's own format comes first, then that of the innermost format block around it; either has to be
      known. */
  function InstTree(i: Inst, formats: FormatMap, enclosing: seq<string>): Option<Tree> {
    match i.fmt
    case Some(own) => if own in formats then Some(Leaf(Defn(own, i.mnemonic, i.args))) else None
    case None =>
      if enclosing != [] && enclosing[0] in formats then Some(Leaf(Defn(enclosing[0], i.mnemonic, i.args))) else None
  }

  /** The tree of a block inside the format blocks `enclosing` and the default clauses `outer`, innermost first.
      There is none if a format is unknown, if the block has two defaults, or if it has none and no clause is in
      force. */
  function BlockTree(b: Block, formats: FormatMap, enclosing: seq<string>, outer: seq<Tree>): Option<Tree>
    decreases b, 1
  {
    var own := if b.dflt.Some? then InstTree(b.dflt.value, formats, enclosing) else None;
    if b.dflt.Some? && own.None? then None
    else
      var clauses := if own.Some? then [own.value] + outer else outer;
      var arms := ListArms(b.stmts, formats, enclosing, clauses);
      if arms.None? || |arms.value.defaults| > 1 then None
      else
        var others := arms.value.defaults + clauses;
        if others == [] then None else Some(Tests(b.field, arms.value.cases, others[0]))
  }

  function ListArms(l: StmtList, formats: FormatMap, enclosing: seq<string>, clauses: seq<Tree>): Option<Arms>
    decreases l, 1
  {
    var first := StmtArms(l.stmt, formats, enclosing, clauses);
    match l
    case Last(_) => first
    case Cons(_, rest) =>
      var later := ListArms(rest, formats, enclosing, clauses);
      if first.None? || later.None? then None
      else Some(Arms(first.value.cases + later.value.cases, first.value.defaults + later.value.defaults))
  }

  function StmtArms(s: Stmt, formats: FormatMap, enclosing: seq<string>, clauses: seq<Tree>): Option<Arms>
    decreases s, 1
  {
    match s
    case InstStmt(lab, i) =>
      var t := InstTree(i, formats, enclosing);
      if t.None? then None else Some(Labelled(lab, t.value))
    case DecodeStmt(lab, b) =>
      var t := BlockTree(b, formats, enclosing, clauses);
      if t.None? then None else Some(Labelled(lab, t.value))
    case FormatStmt(f, body) => if f in formats then ListArms(body, formats, [f] + enclosing, clauses) else None
  }

  // ----- The tree is what the block means -----

  function Pick(cases: seq<(nat, Tree)>, v: nat): Option<Tree> {
    if cases == [] then None else if cases[0].0 == v then Some(cases[0].1) else Pick(cases[1..], v)
  }

  lemma {:induction false} TestsPick(field: string, cases: seq<(nat, Tree)>, other: Tree, env: Env)
    ensures Chosen(Tests(field, cases, other), env) ==
      var t := Pick(cases, env(field)); Chosen(if t.Some? then t.value else other, env)
    decreases |cases|
  {
    if cases != [] {
      TestsPick(field, cases[1..], other, env);
    }
  }

  lemma {:induction false} PickConcat(a: seq<(nat, Tree)>, b: seq<(nat, Tree)>, v: nat)
    ensures Pick(a + b, v) == if Pick(a, v).Some? then Pick(a, v) else Pick(b, v)
    decreases |a|
  {
    if a == [] {
      assert a + b == b;
    } else {
      assert (a + b)[1..] == a[1..] + b;
      PickConcat(a[1..], b, v);
    }
  }

  lemma {:induction false} PickLabelled(values: seq<nat>, t: Tree, v: nat)
    ensures Pick(Labelled(Constants(values), t).cases, v) == if v in values then Some(t) else None
    decreases |values|
  {
    if values != [] {
      PickLabelled(values[1..], t, v);
      assert Labelled(Constants(values), t).cases[1..] == Labelled(Constants(values[1..]), t).cases;
    }
  }

  /** The format in force is that of the innermost block, and the default clause in force the innermost one. */
  predicate InForce(fmt: Option<string>, enclosing: seq<string>, d: Option<Defn>, clauses: seq<Tree>) {
    && fmt == (if enclosing == [] then None else Some(enclosing[0]))
    && (d.Some? <==> clauses != []) && (d.Some? ==> clauses[0] == Leaf(d.value))
  }

  lemma {:induction false} InstAgrees(i: Inst, formats: FormatMap, fmt: Option<string>, enclosing: seq<string>)
    requires fmt == if enclosing == [] then None else Some(enclosing[0])
    ensures Known(i, fmt, formats) <==> InstTree(i, formats, enclosing).Some?
    ensures Known(i, fmt, formats) ==> InstTree(i, formats, enclosing) == Some(Leaf(Define(i, fmt)))
  {
  }

  /** A statement's label and what it leads to. */
  lemma {:induction false} LabelledAgrees(lab: Label, t: Tree, v: nat)
    ensures Pick(Labelled(lab, t).cases, v) == if Selects(lab, v) then Some(t) else None
    ensures Labelled(lab, t).defaults == if lab.DefaultLabel? then [t] else []
  {
    if lab.Constants? { PickLabelled(lab.values, t, v); }
  }

  /** The translator accepts a block exactly when it has a tree, and the tree chooses what the block means. */
  lemma {:induction false} BlockAgrees(b: Block, env: Env, formats: FormatMap, fmt: Option<string>,
                                       enclosing: seq<string>, d: Option<Defn>, outer: seq<Tree>)
    requires InForce(fmt, enclosing, d, outer)
    ensures GoodBlock(b, formats, fmt, d.Some?) <==> BlockTree(b, formats, enclosing, outer).Some?
    ensures GoodBlock(b, formats, fmt, d.Some?) ==>
      BlockMeaning(b, env, formats, fmt, d) == Chosen(BlockTree(b, formats, enclosing, outer).value, env)
    decreases b, 1
  {
    if b.dflt.Some? { InstAgrees(b.dflt.value, formats, fmt, enclosing); }
    if b.dflt.None? || Known(b.dflt.value, fmt, formats) {
      hide InstTree, ListArms, GoodList;
      var own := if b.dflt.Some? then InstTree(b.dflt.value, formats, enclosing) else None;
      var clauses := if own.Some? then [own.value] + outer else outer;
      var d' := if b.dflt.Some? then Some(Define(b.dflt.value, fmt)) else d;
      ListAgrees(b.stmts, env(b.field), env, formats, fmt, enclosing, d', clauses);
      var arms := ListArms(b.stmts, formats, enclosing, clauses);
      if arms.Some? {
        var others := arms.value.defaults + clauses;
        if others != [] {
          TestsPick(b.field, arms.value.cases, others[0], env);
        }
      }
    }
  }

  lemma {:induction false} ListAgrees(l: StmtList, v: nat, env: Env, formats: FormatMap, fmt: Option<string>,
                                      enclosing: seq<string>, d: Option<Defn>, clauses: seq<Tree>)
    requires InForce(fmt, enclosing, d, clauses)
    ensures var arms := ListArms(l, formats, enclosing, clauses);
      && (GoodList(l, formats, fmt, d.Some?) <==> arms.Some?)
      && (arms.Some? ==>
        && |arms.value.defaults| == DefaultCount(l) && (HasCase(l, v) <==> Pick(arms.value.cases, v).Some?)
        && (HasCase(l, v) ==>
              CaseMeaning(l, v, env, formats, fmt, d) == Chosen(Pick(arms.value.cases, v).value, env))
        && (DefaultCount(l) > 0 ==>
              DefaultMeaning(l, env, formats, fmt, d) == Chosen(arms.value.defaults[0], env)))
    decreases l, 1
  {
    hide StmtArms, Pick, StmtHasCase, StmtDefaultCount;
    StmtAgrees(l.stmt, v, env, formats, fmt, enclosing, d, clauses);
    if l.Cons? {
      ListAgrees(l.rest, v, env, formats, fmt, enclosing, d, clauses);
      var first, later := StmtArms(l.stmt, formats, enclosing, clauses), ListArms(l.rest, formats, enclosing, clauses);
      if first.Some? && later.Some? {
        PickConcat(first.value.cases, later.value.cases, v);
      }
    }
  }

  lemma {:induction false} StmtAgrees(s: Stmt, v: nat, env: Env, formats: FormatMap, fmt: Option<string>,
                                      enclosing: seq<string>, d: Option<Defn>, clauses: seq<Tree>)
    requires InForce(fmt, enclosing, d, clauses)
    ensures var arms := StmtArms(s, formats, enclosing, clauses);
      && (GoodStmt(s, formats, fmt, d.Some?) <==> arms.Some?)
      && (arms.Some? ==>
        && |arms.value.defaults| == StmtDefaultCount(s) && (StmtHasCase(s, v) <==> Pick(arms.value.cases, v).Some?)
        && (StmtHasCase(s, v) ==>
              StmtCaseMeaning(s, v, env, formats, fmt, d) == Chosen(Pick(arms.value.cases, v).value, env))
        && (StmtDefaultCount(s) > 0 ==>
              StmtDefaultMeaning(s, env, formats, fmt, d) == Chosen(arms.value.defaults[0], env)))
    decreases s, 1
  {
    hide Pick, Labelled, InstTree, BlockTree, Selects;
    match s
    case InstStmt(lab, i) =>
      InstAgrees(i, formats, fmt, enclosing);
      var t := InstTree(i, formats, enclosing);
      if t.Some? { LabelledAgrees(lab, t.value, v); }
    case DecodeStmt(lab, b) =>
      BlockAgrees(b, env, formats, fmt, enclosing, d, clauses);
      var t := BlockTree(b, formats, enclosing, clauses);
      if t.Some? { LabelledAgrees(lab, t.value, v); }
    case FormatStmt(f, body) =>
      if f in formats {
        assert ([f] + enclosing)[0] == f;
        ListAgrees(body, v, env, formats, Some(f), [f] + enclosing, d, clauses);
      }
  }

  /** A whole decode block: accepted exactly when it has a tree, and then it decodes as the tree says. */
  lemma {:induction false} TreeDecides(b: Block, env: Env, formats: FormatMap)
    ensures GoodBlock(b, formats, None, false) <==> BlockTree(b, formats, [], []).Some?
    ensures GoodBlock(b, formats, None, false) ==>
      BlockMeaning(b, env, formats, None, None) == Chosen(BlockTree(b, formats, [], []).value, env)
  {
    BlockAgrees(b, env, formats, None, [], None, []);
  }
}
