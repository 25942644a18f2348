/** The code the translator emits, as a function of the source, and why it decodes correctly. */
module DecodeCodegen {
  import opened Sequences
  import opened Options
  import opened DecodeLanguage

  // ----- Emitted code -----

  function Marks(values: seq<nat>): seq<CStmt> {
    if values == [] then [] else [CaseMark(values[0])] + Marks(values[1..])
  }

  function LabelCode(lab: Label): seq<CStmt> {
    if lab.DefaultLabel? then [DefaultMark] else Marks(lab.values)
  }

  function InstCode(i: Inst, formats: FormatMap, fmt: Option<string>): seq<CStmt>
    requires Known(i, fmt, formats)
  {
    [Body(Define(i, fmt), formats[FormatOf(i, fmt).value].terminal)]
  }

  /** A `default` clause as it is kept for the blocks that fall back on it. */
  function ClauseCode(i: Inst, formats: FormatMap, fmt: Option<string>): seq<CStmt>
    requires Known(i, fmt, formats)
  {
    [DefaultMark] + InstCode(i, formats, fmt) + [Break]
  }

  /** `inh` is the code of the innermost enclosing `default` clause, or empty. */
  function BlockCode(b: Block, formats: FormatMap, fmt: Option<string>, inherited: bool, inh: seq<CStmt>): seq<CStmt>
    requires GoodBlock(b, formats, fmt, inherited)
    decreases b, 1
  {
    [Switch(b.field, SwitchBody(b, formats, fmt, inherited, inh))]
  }

  function SwitchBody(b: Block, formats: FormatMap, fmt: Option<string>, inherited: bool, inh: seq<CStmt>): seq<CStmt>
    requires GoodBlock(b, formats, fmt, inherited)
    decreases b, 0
  {
    var d := if b.dflt.Some? then ClauseCode(b.dflt.value, formats, fmt) else inh;
    ListCode(b.stmts, formats, fmt, inherited || b.dflt.Some?, d)
    + if DefaultCount(b.stmts) == 0 then d else []
  }

  function ListCode(l: StmtList, formats: FormatMap, fmt: Option<string>, inherited: bool, inh: seq<CStmt>): seq<CStmt>
    requires GoodList(l, formats, fmt, inherited)
    decreases l
  {
    match l
    case Last(s) => StmtCode(s, formats, fmt, inherited, inh)
    case Cons(s, rest) =>
      StmtCode(s, formats, fmt, inherited, inh) + ListCode(rest, formats, fmt, inherited, inh)
  }

  function StmtCode(s: Stmt, formats: FormatMap, fmt: Option<string>, inherited: bool, inh: seq<CStmt>): seq<CStmt>
    requires GoodStmt(s, formats, fmt, inherited)
    decreases s
  {
    match s
    case InstStmt(lab, i) => LabelCode(lab) + InstCode(i, formats, fmt) + [Break]
    case DecodeStmt(lab, b) => LabelCode(lab) + BlockCode(b, formats, fmt, inherited, inh)
    case FormatStmt(f, body) => ListCode(body, formats, Some(f), inherited, inh)
  }

  // ----- Jumping and running across concatenation -----

  lemma {:induction false} FromCaseConcat(a: seq<CStmt>, b: seq<CStmt>, v: nat)
    ensures FromCase(a + b, v) ==
            if FromCase(a, v).Some? then Some(FromCase(a, v).value + b) else FromCase(b, v)
  {
    if a == [] {
      assert a + b == b;
    } else {
      assert (a + b)[1..] == a[1..] + b;
      FromCaseConcat(a[1..], b, v);
    }
  }

  lemma {:induction false} FromDefaultConcat(a: seq<CStmt>, b: seq<CStmt>)
    ensures FromDefault(a + b) ==
            if FromDefault(a).Some? then Some(FromDefault(a).value + b) else FromDefault(b)
  {
    if a == [] {
      assert a + b == b;
    } else {
      assert (a + b)[1..] == a[1..] + b;
      FromDefaultConcat(a[1..], b);
    }
  }

  /** Code that follows runs exactly when control falls off the end of the code before it. */
  lemma {:induction false} ExecConcat(a: seq<CStmt>, b: seq<CStmt>, env: Env)
    ensures Exec(a + b, env) == Then(Exec(a, env), Exec(b, env))
    decreases |a|
  {
    hide ExecSwitch, Then;
    if a == [] {
      assert a + b == b;
      ThenLaws(Exec(b, env), Exec(b, env), Exec(b, env));
    } else {
      assert (a + b)[1..] == a[1..] + b;
      assert (a + b)[0] == a[0];
      ExecConcat(a[1..], b, env);
      var rest, after := Exec(a[1..], env), Exec(b, env);
      match a[0]
      case CaseMark(_) =>
      case DefaultMark =>
      case Break => ThenLaws(Run([], Broke), after, after);
      case Body(d, terminal) =>
        ThenLaws(Run([d], Returned), after, after);
        ThenLaws(Run([d], Fell), rest, after);
      case Switch(f, body) => ThenLaws(ExecSwitch(body, env(f), env), rest, after);
    }
  }

  lemma {:induction false} ThenLaws(p: Run, q: Run, r: Run)
    ensures Then(Then(p, q), r) == Then(p, Then(q, r))
    ensures p.outcome != Fell ==> Then(p, q) == p
    ensures Then(Run([], Fell), p) == p
  {
    assert p.trace + (q.trace + r.trace) == p.trace + q.trace + r.trace;
    assert [] + p.trace == p.trace;
  }

  /** Reaching a label does nothing: control falls through it. */
  lemma {:induction false} LabelsFallThrough(values: seq<nat>, code: seq<CStmt>, env: Env)
    ensures Exec(Marks(values) + code, env) == Exec(code, env)
  {
    if values == [] {
      assert Marks(values) + code == code;
    } else {
      var all := Marks(values) + code;
      assert all[1..] == Marks(values[1..]) + code;
      LabelsFallThrough(values[1..], code, env);
    }
  }

  /** A jump to a value in a label list lands on a suffix of that list. */
  lemma {:induction false} FromCaseMarks(values: seq<nat>, v: nat)
    ensures FromDefault(Marks(values)).None?
    ensures v !in values ==> FromCase(Marks(values), v).None?
    ensures v in values ==> exists k :: 0 <= k < |values| && FromCase(Marks(values), v) == Some(Marks(values[k..]))
  {
    if values != [] {
      var m := Marks(values);
      assert m[1..] == Marks(values[1..]);
      FromCaseMarks(values[1..], v);
      if v == values[0] {
        assert values[0..] == values;
        assert FromCase(m, v) == Some(Marks(values[0..]));
      } else if v in values[1..] {
        var k :| 0 <= k < |values[1..]| && FromCase(Marks(values[1..]), v) == Some(Marks(values[1..][k..]));
        assert values[1..][k..] == values[k + 1..];
        assert FromCase(m, v) == Some(Marks(values[k + 1..]));
      }
    }
  }

  /** An instruction's body followed by `break`: the instruction runs and nothing after it. */
  lemma {:induction false} BodyRuns(d: Defn, terminal: bool, after: seq<CStmt>, env: Env)
    ensures Exec([Body(d, terminal)] + [Break] + after, env) == Run([d], if terminal then Returned else Broke)
  {
    var c := [Body(d, terminal)] + [Break] + after;
    assert c[1..] == [Break] + after;
    assert Exec(c[1..], env) == Run([], Broke);
    assert [d] + [] == [d];
  }

  lemma {:induction false} NoLabels(d: Defn, terminal: bool, v: nat)
    ensures FromCase([Body(d, terminal)] + [Break], v).None?
    ensures FromDefault([Body(d, terminal)] + [Break]).None?
  {
    var c := [Body(d, terminal)] + [Break];
    assert c[1..] == [Break];
    assert [Break][1..] == [];
    assert FromCase([Break], v) == FromCase([], v);
    assert FromDefault([Break]) == FromDefault([]);
  }

  /** Leaving a switch by `break` or off its end falls out of it. */
  lemma {:induction false} SwitchRuns(f: string, body: seq<CStmt>, entry: seq<CStmt>, env: Env)
    requires Some(entry) == if FromCase(body, env(f)).Some? then FromCase(body, env(f)) else FromDefault(body)
    ensures Exec([Switch(f, body)], env) ==
            if Exec(entry, env).outcome == Returned then Exec(entry, env) else Run(Exec(entry, env).trace, Fell)
  {
    SwitchInto(body, entry, env(f), env);
    hide ExecSwitch, FromCase, FromDefault;
    var c := [Switch(f, body)];
    assert c[1..] == [];
    assert Exec(c, env) == Then(ExecSwitch(body, env(f), env), Exec([], env));
  }

  lemma {:induction false} SwitchInto(body: seq<CStmt>, entry: seq<CStmt>, v: nat, env: Env)
    requires Some(entry) == if FromCase(body, v).Some? then FromCase(body, v) else FromDefault(body)
    ensures ExecSwitch(body, v, env) ==
            if Exec(entry, env).outcome == Returned then Exec(entry, env) else Run(Exec(entry, env).trace, Fell)
  {
    hide FromCase, FromDefault;
  }

  lemma {:induction false} EmptyCode(v: nat)
    ensures FromCase([], v).None? && FromDefault([]).None?
  {
  }

  /** Where a switch over `code` followed by the inherited default `tail` is entered. */
  function Entry(code: seq<CStmt>, tail: seq<CStmt>, v: nat): seq<CStmt> {
    if FromCase(code, v).Some? then FromCase(code, v).value + tail
    else if FromDefault(code).Some? then FromDefault(code).value + tail
    else tail
  }

  lemma {:induction false} EntryIs(code: seq<CStmt>, tail: seq<CStmt>, v: nat)
    requires FromCase(tail, v).None?
    requires FromCase(code, v).Some? || FromDefault(code).Some? || FromDefault(tail) == Some(tail)
    ensures Some(Entry(code, tail, v)) ==
            if FromCase(code + tail, v).Some? then FromCase(code + tail, v) else FromDefault(code + tail)
  {
    FromCaseConcat(code, tail, v);
    FromDefaultConcat(code, tail);
  }

  lemma {:induction false} CaseEntry(s: seq<CStmt>, r: seq<CStmt>, tail: seq<CStmt>, v: nat)
    ensures FromCase(s, v).None? ==> FromCase(s + r, v) == FromCase(r, v)
    ensures FromCase(s, v).Some? ==>
              FromCase(s + r, v).Some? && FromCase(s + r, v).value + tail == FromCase(s, v).value + (r + tail)
  {
    FromCaseConcat(s, r, v);
    if FromCase(s, v).Some? {
      assert FromCase(s, v).value + r + tail == FromCase(s, v).value + (r + tail);
    }
  }

  lemma {:induction false} DefaultEntry(s: seq<CStmt>, r: seq<CStmt>, tail: seq<CStmt>)
    ensures FromDefault(s).None? ==> FromDefault(s + r) == FromDefault(r)
    ensures FromDefault(s).Some? ==>
              FromDefault(s + r).Some? && FromDefault(s + r).value + tail == FromDefault(s).value + (r + tail)
  {
    FromDefaultConcat(s, r);
    if FromDefault(s).Some? {
      assert FromDefault(s).value + r + tail == FromDefault(s).value + (r + tail);
    }
  }

  /** A case-labelled statement whose own code carries no label at its top level. */
  lemma {:induction false} ConstantsRun(values: seq<nat>, code: seq<CStmt>, tail: seq<CStmt>, v: nat, env: Env)
    requires FromCase(code, v).None? && FromDefault(code).None?
    ensures FromDefault(Marks(values) + code).None?
    ensures FromCase(Marks(values) + code, v).Some? <==> v in values
    ensures v in values ==> Exec(FromCase(Marks(values) + code, v).value + tail, env) == Exec(code + tail, env)
  {
    hide Exec, FromCase, FromDefault, Marks;
    FromCaseConcat(Marks(values), code, v);
    FromDefaultConcat(Marks(values), code);
    FromCaseMarks(values, v);
    if v in values {
      var k :| 0 <= k < |values| && FromCase(Marks(values), v) == Some(Marks(values[k..]));
      LabelsFallThrough(values[k..], code + tail, env);
      assert Marks(values[k..]) + code + tail == Marks(values[k..]) + (code + tail);
    }
  }

  lemma {:induction false} DefaultRuns(code: seq<CStmt>, tail: seq<CStmt>, v: nat, env: Env)
    requires FromCase(code, v).None?
    ensures FromCase([DefaultMark] + code, v).None?
    ensures FromDefault([DefaultMark] + code) == Some([DefaultMark] + code)
    ensures Exec([DefaultMark] + code + tail, env) == Exec(code + tail, env)
  {
    assert ([DefaultMark] + code)[1..] == code;
    assert ([DefaultMark] + code + tail)[1..] == code + tail;
  }

  /** The labels of the emitted code are the labels of the source statements. */
  lemma {:induction false} ListLabels(l: StmtList, v: nat, formats: FormatMap, fmt: Option<string>,
                                      inherited: bool, inh: seq<CStmt>)
    requires GoodList(l, formats, fmt, inherited)
    ensures FromCase(ListCode(l, formats, fmt, inherited, inh), v).Some? <==> HasCase(l, v)
    ensures FromDefault(ListCode(l, formats, fmt, inherited, inh)).Some? <==> DefaultCount(l) > 0
    decreases l
  {
    StmtLabels(l.stmt, v, formats, fmt, inherited, inh);
    if l.Cons? {
      var s := StmtCode(l.stmt, formats, fmt, inherited, inh);
      var r := ListCode(l.rest, formats, fmt, inherited, inh);
      ListLabels(l.rest, v, formats, fmt, inherited, inh);
      FromCaseConcat(s, r, v);
      FromDefaultConcat(s, r);
    }
  }

  lemma {:induction false} StmtLabels(s: Stmt, v: nat, formats: FormatMap, fmt: Option<string>,
                                      inherited: bool, inh: seq<CStmt>)
    requires GoodStmt(s, formats, fmt, inherited)
    ensures FromCase(StmtCode(s, formats, fmt, inherited, inh), v).Some? <==> StmtHasCase(s, v)
    ensures FromDefault(StmtCode(s, formats, fmt, inherited, inh)).Some? <==> StmtDefaultCount(s) > 0
    decreases s
  {
    match s
    case InstStmt(lab, i) =>
      var m := Define(i, fmt);
      var code := InstCode(i, formats, fmt) + [Break];
      assert StmtCode(s, formats, fmt, inherited, inh) == LabelCode(lab) + code;
      NoLabels(m, formats[m.fmt].terminal, v);
      LabelOnly(lab, code, v);
    case DecodeStmt(lab, b) =>
      SwitchHasNoLabels(b.field, SwitchBody(b, formats, fmt, inherited, inh), v);
      LabelOnly(lab, BlockCode(b, formats, fmt, inherited, inh), v);
    case FormatStmt(f, body) =>
      ListLabels(body, v, formats, Some(f), inherited, inh);
  }

  lemma {:induction false} LabelOnly(lab: Label, code: seq<CStmt>, v: nat)
    requires FromCase(code, v).None? && FromDefault(code).None?
    ensures FromCase(LabelCode(lab) + code, v).Some? <==> Selects(lab, v)
    ensures FromDefault(LabelCode(lab) + code).Some? <==> lab.DefaultLabel?
  {
    if lab.Constants? {
      MarksOnly(lab.values, code, v);
    } else {
      assert ([DefaultMark] + code)[1..] == code;
    }
  }

  lemma {:induction false} MarksOnly(values: seq<nat>, code: seq<CStmt>, v: nat)
    requires FromCase(code, v).None? && FromDefault(code).None?
    ensures FromCase(Marks(values) + code, v).Some? <==> v in values
    ensures FromDefault(Marks(values) + code).None?
  {
    hide FromCase, FromDefault, Marks;
    FromCaseConcat(Marks(values), code, v);
    FromDefaultConcat(Marks(values), code);
    FromCaseMarks(values, v);
  }

  lemma {:induction false} SwitchHasNoLabels(f: string, body: seq<CStmt>, v: nat)
    ensures FromCase([Switch(f, body)], v).None? && FromDefault([Switch(f, body)]).None?
  {
    assert [Switch(f, body)][1..] == [];
  }

  // ----- Semantic preservation -----

  predicate Returns(d: Defn, formats: FormatMap) {
    d.fmt in formats && formats[d.fmt].terminal
  }

  /** The code kept for the default clause in scope, given the instruction it defines. */
  predicate ClauseFor(inh: seq<CStmt>, d: Option<Defn>, formats: FormatMap) {
    if d.Some? then
      && d.value.fmt in formats
      && inh == [DefaultMark] + [Body(d.value, formats[d.value.fmt].terminal)] + [Break]
    else inh == []
  }

  /** Running a clause's code executes its instruction. */
  lemma {:induction false} ClauseRuns(d: Defn, terminal: bool, v: nat, env: Env)
    ensures var c := [DefaultMark] + [Body(d, terminal)] + [Break];
            && FromCase(c, v).None? && FromDefault(c) == Some(c)
            && Decodes(Exec(c, env), d, terminal, true) && Runnable(c, env)
  {
    var code := [Body(d, terminal)] + [Break];
    BodyRuns(d, terminal, [], env);
    NoLabels(d, terminal, v);
    DefaultRuns(code, [], v, env);
    assert code + [] == code;
    assert [DefaultMark] + code + [] == [DefaultMark] + [Body(d, terminal)] + [Break];
  }

  /** The decode path for `env` never leaves a nested block with more code behind it in the enclosing
      switch: every nested block taken is the last statement of a block that has its own default. */
  predicate ExitsCleanly(b: Block, env: Env) {
    var v := env(b.field);
    if HasCase(b.stmts, v) then CaseExits(b.stmts, v, env, DefaultCount(b.stmts) == 0)
    else if DefaultCount(b.stmts) > 0 then DefaultExits(b.stmts, env, false)
    else true
  }

  /** `followed`: more code of the same switch comes after `l`. */
  predicate CaseExits(l: StmtList, v: nat, env: Env, followed: bool) {
    if StmtHasCase(l.stmt, v) then StmtCaseExits(l.stmt, v, env, followed || l.Cons?)
    else l.Cons? && CaseExits(l.rest, v, env, followed)
  }

  predicate StmtCaseExits(s: Stmt, v: nat, env: Env, followed: bool) {
    match s
    case InstStmt(_, _) => true
    case DecodeStmt(_, b) => !followed && ExitsCleanly(b, env)
    case FormatStmt(_, body) => CaseExits(body, v, env, followed)
  }

  predicate DefaultExits(l: StmtList, env: Env, followed: bool) {
    if StmtDefaultCount(l.stmt) > 0 then StmtDefaultExits(l.stmt, env, followed || l.Cons?)
    else l.Cons? && DefaultExits(l.rest, env, followed)
  }

  predicate StmtDefaultExits(s: Stmt, env: Env, followed: bool) {
    match s
    case InstStmt(_, _) => true
    case DecodeStmt(_, b) => !followed && ExitsCleanly(b, env)
    case FormatStmt(_, body) => DefaultExits(body, env, followed)
  }

  /** A run that starts with the intended instruction `m`, and runs nothing else exactly when `m`
      returns or nothing follows it. */
  predicate Decodes(r: Run, m: Defn, returning: bool, clean: bool) {
    && |r.trace| > 0 && r.trace[0] == m
    && (returning ==> r == Run([m], Returned))
    && (!returning ==> (r.trace == [m] <==> clean))
    && (!returning && clean ==> r.outcome != Returned)
  }

  /** Nothing, or code that runs at least one instruction when fallen into. */
  predicate Runnable(tail: seq<CStmt>, env: Env) {
    tail == [] || Exec(tail, env).trace != []
  }

  /** Falling out of a nested block into `tail`. */
  lemma {:induction false} NestedRuns(code: seq<CStmt>, tail: seq<CStmt>, env: Env, m: Defn, returning: bool,
                                      clean: bool)
    requires Decodes(Exec(code, env), m, returning, clean) && Exec(code, env).outcome != Broke
    requires Runnable(tail, env)
    ensures Decodes(Exec(code + tail, env), m, returning, clean && tail == [])
  {
    ExecConcat(code, tail, env);
    var r := Exec(code, env);
    if tail == [] {
      assert code + tail == code;
    } else if r.outcome == Fell {
      assert |r.trace + Exec(tail, env).trace| > |r.trace| >= 1;
    }
  }

  /** Leaving a switch turns a `break` into falling out of it. */
  lemma {:induction false} DecodesOutside(r: Run, m: Defn, returning: bool, clean: bool)
    requires Decodes(r, m, returning, clean)
    ensures Decodes(if r.outcome == Returned then r else Run(r.trace, Fell), m, returning, clean)
  {
  }

  lemma {:induction false} BlockRuns(b: Block, env: Env, formats: FormatMap, fmt: Option<string>,
                                     d: Option<Defn>, inh: seq<CStmt>)
    requires GoodBlock(b, formats, fmt, d.Some?) && ClauseFor(inh, d, formats)
    ensures var m := BlockMeaning(b, env, formats, fmt, d);
            Decodes(Exec(BlockCode(b, formats, fmt, d.Some?, inh), env), m, Returns(m, formats), ExitsCleanly(b, env))
    ensures Exec(BlockCode(b, formats, fmt, d.Some?, inh), env).outcome != Broke
    decreases b, 2
  {
    hide Exec, FromCase, FromDefault, ListCode, BlockMeaning, ExitsCleanly, Decodes, Entry, HasCase, DefaultCount;
    var v := env(b.field);
    var d' := if b.dflt.Some? then Some(Define(b.dflt.value, fmt)) else d;
    var inh' := if b.dflt.Some? then ClauseCode(b.dflt.value, formats, fmt) else inh;
    var code := ListCode(b.stmts, formats, fmt, d'.Some?, inh');
    var tail := if DefaultCount(b.stmts) == 0 then inh' else [];
    assert SwitchBody(b, formats, fmt, d.Some?, inh) == code + tail;
    var m := BlockMeaning(b, env, formats, fmt, d);
    EntryRuns(b, env, formats, fmt, d, d', inh', code, tail);
    SwitchRuns(b.field, code + tail, Entry(code, tail, v), env);
    DecodesOutside(Exec(Entry(code, tail, v), env), m, Returns(m, formats), ExitsCleanly(b, env));
  }

  /** The body of a block's switch, entered for the value of its field. */
  lemma {:induction false} EntryRuns(b: Block, env: Env, formats: FormatMap, fmt: Option<string>, d: Option<Defn>,
                                     d': Option<Defn>, inh': seq<CStmt>, code: seq<CStmt>, tail: seq<CStmt>)
    requires GoodBlock(b, formats, fmt, d.Some?)
    requires d' == if b.dflt.Some? then Some(Define(b.dflt.value, fmt)) else d
    requires ClauseFor(inh', d', formats)
    requires code == ListCode(b.stmts, formats, fmt, d'.Some?, inh')
    requires tail == if DefaultCount(b.stmts) == 0 then inh' else []
    ensures var v, m := env(b.field), BlockMeaning(b, env, formats, fmt, d);
            && Some(Entry(code, tail, v)) ==
               (if FromCase(code + tail, v).Some? then FromCase(code + tail, v) else FromDefault(code + tail))
            && Decodes(Exec(Entry(code, tail, v), env), m, Returns(m, formats), ExitsCleanly(b, env))
    decreases b, 1
  {
    hide Exec, FromCase, FromDefault, ListCode, CaseMeaning, DefaultMeaning, CaseExits, DefaultExits, HasCase,
         DefaultCount, Decodes;
    var v := env(b.field);
    EmptyCode(v);
    if tail != [] { ClauseRuns(d'.value, Returns(d'.value, formats), v, env); }
    ListLabels(b.stmts, v, formats, fmt, d'.Some?, inh');
    EntryIs(code, tail, v);
    if HasCase(b.stmts, v) {
      CaseRuns(b.stmts, v, env, formats, fmt, d', inh', tail);
    } else if DefaultCount(b.stmts) > 0 {
      DefaultCaseRuns(b.stmts, v, env, formats, fmt, d', inh', tail);
    }
  }

  /** Entering a statement list at the case for `v`, with `tail` after the list. */
  lemma {:induction false} CaseRuns(l: StmtList, v: nat, env: Env, formats: FormatMap, fmt: Option<string>,
                                    d: Option<Defn>, inh: seq<CStmt>, tail: seq<CStmt>)
    requires GoodList(l, formats, fmt, d.Some?) && ClauseFor(inh, d, formats) && Runnable(tail, env)
    requires HasCase(l, v)
    ensures var c := ListCode(l, formats, fmt, d.Some?, inh);
            var m := CaseMeaning(l, v, env, formats, fmt, d);
            FromCase(c, v).Some? &&
            Decodes(Exec(FromCase(c, v).value + tail, env), m, Returns(m, formats), CaseExits(l, v, env, tail != []))
    decreases l, 1
  {
    var s := StmtCode(l.stmt, formats, fmt, d.Some?, inh);
    if l.Last? {
      StmtCaseRuns(l.stmt, v, env, formats, fmt, d, inh, tail);
    } else {
      var r := ListCode(l.rest, formats, fmt, d.Some?, inh);
      CaseEntry(s, r, tail, v);
      if StmtHasCase(l.stmt, v) {
        RunsSomething(l.rest, env, formats, fmt, d, inh, tail);
        StmtCaseRuns(l.stmt, v, env, formats, fmt, d, inh, r + tail);
      } else {
        StmtLabels(l.stmt, v, formats, fmt, d.Some?, inh);
        CaseRuns(l.rest, v, env, formats, fmt, d, inh, tail);
      }
    }
  }

  /** An instruction statement's code after its label. */
  lemma {:induction false} InstRuns(i: Inst, v: nat, env: Env, formats: FormatMap, fmt: Option<string>,
                                    tail: seq<CStmt>)
    requires Known(i, fmt, formats)
    ensures var code, m := InstCode(i, formats, fmt) + [Break], Define(i, fmt);
            && FromCase(code, v).None? && FromDefault(code).None?
            && Decodes(Exec(code + tail, env), m, Returns(m, formats), true)
  {
    hide Exec, FromCase, FromDefault;
    var m := Define(i, fmt);
    NoLabels(m, Returns(m, formats), v);
    BodyRuns(m, Returns(m, formats), tail, env);
  }

  /** A nested block's code after its label: it carries no `break`, so it falls into `tail`. */
  lemma {:induction false} NestedBlockRuns(b: Block, v: nat, env: Env, formats: FormatMap, fmt: Option<string>,
                                           d: Option<Defn>, inh: seq<CStmt>, tail: seq<CStmt>)
    requires GoodBlock(b, formats, fmt, d.Some?) && ClauseFor(inh, d, formats) && Runnable(tail, env)
    ensures var code, m := BlockCode(b, formats, fmt, d.Some?, inh), BlockMeaning(b, env, formats, fmt, d);
            && FromCase(code, v).None? && FromDefault(code).None?
            && Decodes(Exec(code + tail, env), m, Returns(m, formats), tail == [] && ExitsCleanly(b, env))
    decreases b, 3
  {
    hide Exec, FromCase, FromDefault, BlockMeaning, ExitsCleanly, Decodes;
    BlockRuns(b, env, formats, fmt, d, inh);
    SwitchHasNoLabels(b.field, SwitchBody(b, formats, fmt, d.Some?, inh), v);
    var m := BlockMeaning(b, env, formats, fmt, d);
    NestedRuns(BlockCode(b, formats, fmt, d.Some?, inh), tail, env, m, Returns(m, formats), ExitsCleanly(b, env));
  }

  lemma {:induction false} StmtCaseRuns(s: Stmt, v: nat, env: Env, formats: FormatMap, fmt: Option<string>,
                                        d: Option<Defn>, inh: seq<CStmt>, tail: seq<CStmt>)
    requires GoodStmt(s, formats, fmt, d.Some?) && ClauseFor(inh, d, formats) && Runnable(tail, env)
    requires StmtHasCase(s, v)
    ensures var c := StmtCode(s, formats, fmt, d.Some?, inh);
            var m := StmtCaseMeaning(s, v, env, formats, fmt, d);
            FromCase(c, v).Some? &&
            Decodes(Exec(FromCase(c, v).value + tail, env), m, Returns(m, formats),
                    StmtCaseExits(s, v, env, tail != []))
    decreases s, 1
  {
    hide Exec, FromCase, FromDefault, Decodes;
    match s
    case InstStmt(lab, i) =>
      var code := InstCode(i, formats, fmt) + [Break];
      assert LabelCode(lab) + InstCode(i, formats, fmt) + [Break] == LabelCode(lab) + code;
      InstRuns(i, v, env, formats, fmt, tail);
      ConstantsRun(lab.values, code, tail, v, env);
    case DecodeStmt(lab, b) =>
      var code := BlockCode(b, formats, fmt, d.Some?, inh);
      NestedBlockRuns(b, v, env, formats, fmt, d, inh, tail);
      ConstantsRun(lab.values, code, tail, v, env);
    case FormatStmt(f, body) =>
      CaseRuns(body, v, env, formats, Some(f), d, inh, tail);
  }

  /** Entering a statement list at its `default:`, with `tail` after the list. */
  lemma {:induction false} DefaultCaseRuns(l: StmtList, v: nat, env: Env, formats: FormatMap, fmt: Option<string>,
                                           d: Option<Defn>, inh: seq<CStmt>, tail: seq<CStmt>)
    requires GoodList(l, formats, fmt, d.Some?) && ClauseFor(inh, d, formats) && Runnable(tail, env)
    requires DefaultCount(l) > 0
    ensures var c := ListCode(l, formats, fmt, d.Some?, inh);
            var m := DefaultMeaning(l, env, formats, fmt, d);
            FromDefault(c).Some? &&
            Decodes(Exec(FromDefault(c).value + tail, env), m, Returns(m, formats), DefaultExits(l, env, tail != []))
    decreases l, 1
  {
    var s := StmtCode(l.stmt, formats, fmt, d.Some?, inh);
    if l.Last? {
      StmtDefaultRuns(l.stmt, v, env, formats, fmt, d, inh, tail);
    } else {
      var r := ListCode(l.rest, formats, fmt, d.Some?, inh);
      DefaultEntry(s, r, tail);
      if StmtDefaultCount(l.stmt) > 0 {
        RunsSomething(l.rest, env, formats, fmt, d, inh, tail);
        StmtDefaultRuns(l.stmt, v, env, formats, fmt, d, inh, r + tail);
      } else {
        StmtLabels(l.stmt, v, formats, fmt, d.Some?, inh);
        DefaultCaseRuns(l.rest, v, env, formats, fmt, d, inh, tail);
      }
    }
  }

  lemma {:induction false} StmtDefaultRuns(s: Stmt, v: nat, env: Env, formats: FormatMap, fmt: Option<string>,
                                           d: Option<Defn>, inh: seq<CStmt>, tail: seq<CStmt>)
    requires GoodStmt(s, formats, fmt, d.Some?) && ClauseFor(inh, d, formats) && Runnable(tail, env)
    requires StmtDefaultCount(s) > 0
    ensures var c := StmtCode(s, formats, fmt, d.Some?, inh);
            var m := StmtDefaultMeaning(s, env, formats, fmt, d);
            FromDefault(c).Some? &&
            Decodes(Exec(FromDefault(c).value + tail, env), m, Returns(m, formats),
                    StmtDefaultExits(s, env, tail != []))
    decreases s, 1
  {
    hide Exec, FromCase, FromDefault, Decodes;
    match s
    case InstStmt(lab, i) =>
      var code := InstCode(i, formats, fmt) + [Break];
      assert LabelCode(lab) + InstCode(i, formats, fmt) + [Break] == LabelCode(lab) + code;
      InstRuns(i, v, env, formats, fmt, tail);
      DefaultRuns(code, tail, v, env);
    case DecodeStmt(lab, b) =>
      var code := BlockCode(b, formats, fmt, d.Some?, inh);
      NestedBlockRuns(b, v, env, formats, fmt, d, inh, tail);
      DefaultRuns(code, tail, v, env);
    case FormatStmt(f, body) =>
      DefaultCaseRuns(body, v, env, formats, Some(f), d, inh, tail);
  }

  /** Code fallen into always runs an instruction. */
  lemma {:induction false} RunsSomething(l: StmtList, env: Env, formats: FormatMap, fmt: Option<string>,
                                         d: Option<Defn>, inh: seq<CStmt>, tail: seq<CStmt>)
    requires GoodList(l, formats, fmt, d.Some?) && ClauseFor(inh, d, formats)
    ensures Exec(ListCode(l, formats, fmt, d.Some?, inh) + tail, env).trace != []
    decreases l, 0
  {
    var s := StmtCode(l.stmt, formats, fmt, d.Some?, inh);
    if l.Last? {
      StmtRunsSomething(l.stmt, env, formats, fmt, d, inh, tail);
    } else {
      var r := ListCode(l.rest, formats, fmt, d.Some?, inh);
      StmtRunsSomething(l.stmt, env, formats, fmt, d, inh, r + tail);
      assert s + r + tail == s + (r + tail);
    }
  }

  lemma {:induction false} StmtRunsSomething(s: Stmt, env: Env, formats: FormatMap, fmt: Option<string>,
                                             d: Option<Defn>, inh: seq<CStmt>, tail: seq<CStmt>)
    requires GoodStmt(s, formats, fmt, d.Some?) && ClauseFor(inh, d, formats)
    ensures Exec(StmtCode(s, formats, fmt, d.Some?, inh) + tail, env).trace != []
    decreases s, 0
  {
    hide Exec;
    match s
    case InstStmt(lab, i) =>
      var m := Define(i, fmt);
      var code := [Body(m, Returns(m, formats))] + [Break] + tail;
      assert StmtCode(s, formats, fmt, d.Some?, inh) + tail == LabelCode(lab) + code;
      BodyRuns(m, Returns(m, formats), tail, env);
      LabelFallsThrough(lab, code, env);
    case DecodeStmt(lab, b) =>
      var code := BlockCode(b, formats, fmt, d.Some?, inh);
      BlockRuns(b, env, formats, fmt, d, inh);
      ExecConcat(code, tail, env);
      assert LabelCode(lab) + code + tail == LabelCode(lab) + (code + tail);
      LabelFallsThrough(lab, code + tail, env);
    case FormatStmt(f, body) =>
      RunsSomething(body, env, formats, Some(f), d, inh, tail);
  }

  lemma {:induction false} LabelFallsThrough(lab: Label, code: seq<CStmt>, env: Env)
    ensures Exec(LabelCode(lab) + code, env) == Exec(code, env)
  {
    if lab.Constants? {
      LabelsFallThrough(lab.values, code, env);
    } else {
      assert (LabelCode(lab) + code)[1..] == code;
    }
  }

  // ----- Main theorems -----

  /** Every format's decode code ends in a `return`. */
  predicate AllReturn(formats: FormatMap) {
    forall f :: f in formats ==> formats[f].terminal
  }

  /** The generated nested switch returns exactly the instruction the decode block means, for every
      assignment of field values, although nested switches carry no `break`. */
  lemma DecodeCorrect(b: Block, env: Env, formats: FormatMap)
    requires AllReturn(formats) && GoodBlock(b, formats, None, false)
    ensures Exec(BlockCode(b, formats, None, false, []), env)
            == Run([BlockMeaning(b, env, formats, None, None)], Returned)
  {
    MeaningIsKnown(b, env, formats, None, None);
    BlockRuns(b, env, formats, None, None, []);
  }

  /** Without that assumption on formats: the intended instruction's code always runs first, and it is
      the only code run exactly when it returns or the decode path exits cleanly. */
  lemma DecodeExactlyOnce(b: Block, env: Env, formats: FormatMap)
    requires GoodBlock(b, formats, None, false)
    ensures var r := Exec(BlockCode(b, formats, None, false, []), env);
            var m := BlockMeaning(b, env, formats, None, None);
            && r.trace != [] && r.trace[0] == m
            && (r.trace == [m] <==> Returns(m, formats) || ExitsCleanly(b, env))
  {
    MeaningIsKnown(b, env, formats, None, None);
    BlockRuns(b, env, formats, None, None, []);
  }

  /** A nested block followed by another case, both using format `f`. */
  function FallThroughBlock(f: string, outer: string, inner: string): Block {
    var first := InstStmt(DefaultLabel, Inst(Some(f), "first", []));
    var second := InstStmt(DefaultLabel, Inst(Some(f), "second", []));
    Block(outer, None, Cons(DecodeStmt(Constants([0]), Block(inner, None, Last(first))), Last(second)))
  }

  lemma FallThroughIsGood(f: string, outer: string, inner: string, formats: FormatMap)
    requires f in formats
    ensures GoodBlock(FallThroughBlock(f, outer, inner), formats, None, false)
  {
    var l := FallThroughBlock(f, outer, inner).stmts;
    var b := l.stmt.block;
    assert GoodStmt(b.stmts.stmt, formats, None, false) && GoodStmt(l.rest.stmt, formats, None, false);
    assert GoodList(b.stmts, formats, None, false) && GoodList(l.rest, formats, None, false);
    assert DefaultCount(b.stmts) == 1 && DefaultCount(l.rest) == 1;
    assert GoodBlock(b, formats, None, false);
    assert GoodStmt(l.stmt, formats, None, false);
    assert DefaultCount(l) == 1 && GoodList(l, formats, None, false);
  }

  lemma FallThroughIsUnclean(f: string, outer: string, inner: string, env: Env)
    requires env(outer) == 0
    ensures !ExitsCleanly(FallThroughBlock(f, outer, inner), env)
  {
    var l := FallThroughBlock(f, outer, inner).stmts;
    assert StmtHasCase(l.stmt, 0);
    assert HasCase(l, 0);
    assert !StmtCaseExits(l.stmt, 0, env, true);
    assert DefaultCount(l.rest) == 1;
    assert DefaultCount(l) == 1;
    assert !CaseExits(l, 0, env, false);
  }

  lemma {:induction false} FallThroughMeans(f: string, outer: string, inner: string, formats: FormatMap, env: Env)
    requires f in formats && env(outer) == 0
    requires GoodBlock(FallThroughBlock(f, outer, inner), formats, None, false)
    ensures BlockMeaning(FallThroughBlock(f, outer, inner), env, formats, None, None).fmt == f
  {
    var l := FallThroughBlock(f, outer, inner).stmts;
    var b := l.stmt.block;
    var v := env(outer);
    assert GoodList(l, formats, None, false);
    assert GoodStmt(l.stmt, formats, None, false);
    assert GoodList(b.stmts, formats, None, false);
    assert DefaultCount(b.stmts) == 1;
    assert !HasCase(b.stmts, env(inner));
    assert StmtHasCase(l.stmt, v) && HasCase(l, v);
    assert DefaultMeaning(b.stmts, env, formats, None, None).fmt == f;
    assert BlockMeaning(b, env, formats, None, None).fmt == f;
    assert CaseMeaning(l, v, env, formats, None, None).fmt == f;
  }

  /** For any format whose code does not return, the missing `break` is observable: the code of the
      next case runs too. */
  lemma FallThroughHappens(f: string, outer: string, inner: string, formats: FormatMap, env: Env)
    requires f in formats && !formats[f].terminal && env(outer) == 0
    ensures GoodBlock(FallThroughBlock(f, outer, inner), formats, None, false)
    ensures var b := FallThroughBlock(f, outer, inner);
            Exec(BlockCode(b, formats, None, false, []), env).trace != [BlockMeaning(b, env, formats, None, None)]
  {
    hide Exec, BlockCode, BlockMeaning, ExitsCleanly, GoodBlock, FallThroughBlock;
    FallThroughIsGood(f, outer, inner, formats);
    FallThroughIsUnclean(f, outer, inner, env);
    FallThroughMeans(f, outer, inner, formats, env);
    DecodeExactlyOnce(FallThroughBlock(f, outer, inner), env, formats);
  }

  lemma {:induction false} MeaningIsKnown(b: Block, env: Env, formats: FormatMap, fmt: Option<string>, d: Option<Defn>)
    requires GoodBlock(b, formats, fmt, d.Some?) && (d.Some? ==> d.value.fmt in formats)
    ensures BlockMeaning(b, env, formats, fmt, d).fmt in formats
    decreases b, 1
  {
    var d' := if b.dflt.Some? then Some(Define(b.dflt.value, fmt)) else d;
    var v := env(b.field);
    if HasCase(b.stmts, v) {
      CaseIsKnown(b.stmts, v, env, formats, fmt, d');
    } else if DefaultCount(b.stmts) > 0 {
      DefaultIsKnown(b.stmts, env, formats, fmt, d');
    }
  }

  lemma {:induction false} CaseIsKnown(l: StmtList, v: nat, env: Env, formats: FormatMap, fmt: Option<string>,
                                       d: Option<Defn>)
    requires GoodList(l, formats, fmt, d.Some?) && HasCase(l, v) && (d.Some? ==> d.value.fmt in formats)
    ensures CaseMeaning(l, v, env, formats, fmt, d).fmt in formats
    decreases l, 1
  {
    if !StmtHasCase(l.stmt, v) {
      CaseIsKnown(l.rest, v, env, formats, fmt, d);
    } else {
      match l.stmt
      case InstStmt(_, _) =>
      case DecodeStmt(_, b) => MeaningIsKnown(b, env, formats, fmt, d);
      case FormatStmt(f, body) => CaseIsKnown(body, v, env, formats, Some(f), d);
    }
  }

  lemma {:induction false} DefaultIsKnown(l: StmtList, env: Env, formats: FormatMap, fmt: Option<string>,
                                          d: Option<Defn>)
    requires GoodList(l, formats, fmt, d.Some?) && DefaultCount(l) > 0 && (d.Some? ==> d.value.fmt in formats)
    ensures DefaultMeaning(l, env, formats, fmt, d).fmt in formats
    decreases l, 1
  {
    if StmtDefaultCount(l.stmt) == 0 {
      DefaultIsKnown(l.rest, env, formats, fmt, d);
    } else {
      match l.stmt
      case InstStmt(_, _) =>
      case DecodeStmt(_, b) => MeaningIsKnown(b, env, formats, fmt, d);
      case FormatStmt(f, body) => DefaultIsKnown(body, env, formats, Some(f), d);
    }
  }

  // ----- C well-formedness -----

  /** Labels a switch with this body owns; those of nested switches are not its own. */
  function OwnCases(code: seq<CStmt>): seq<nat> {
    if code == [] then []
    else (if code[0].CaseMark? then [code[0].value] else []) + OwnCases(code[1..])
  }

  function OwnDefaults(code: seq<CStmt>): nat {
    if code == [] then 0 else (if code[0].DefaultMark? then 1 else 0) + OwnDefaults(code[1..])
  }

  /** A C compiler accepts the labels: in every switch, no case value twice and at most one default. */
  predicate Compiles(code: seq<CStmt>)
    decreases code
  {
    code == [] ||
    (&& (code[0].Switch? ==>
           && Distinct(OwnCases(code[0].body))
           && OwnDefaults(code[0].body) <= 1
           && Compiles(code[0].body))
     && Compiles(code[1..]))
  }

  function ListValues(l: StmtList): seq<nat> {
    match l
    case Last(s) => StmtValues(s)
    case Cons(s, rest) => StmtValues(s) + ListValues(rest)
  }

  function StmtValues(s: Stmt): seq<nat> {
    match s
    case InstStmt(lab, _) => if lab.Constants? then lab.values else []
    case DecodeStmt(lab, _) => if lab.Constants? then lab.values else []
    case FormatStmt(_, body) => ListValues(body)
  }

  /** No constant labels two statements of the same block, at any nesting depth. */
  predicate DistinctLabels(b: Block) {
    Distinct(ListValues(b.stmts)) && DistinctInList(b.stmts)
  }

  predicate DistinctInList(l: StmtList) {
    match l
    case Last(s) => DistinctInStmt(s)
    case Cons(s, rest) => DistinctInStmt(s) && DistinctInList(rest)
  }

  predicate DistinctInStmt(s: Stmt) {
    match s
    case InstStmt(_, _) => true
    case DecodeStmt(_, b) => DistinctLabels(b)
    case FormatStmt(_, body) => DistinctInList(body)
  }

  lemma {:induction false} OwnConcat(a: seq<CStmt>, b: seq<CStmt>)
    ensures OwnCases(a + b) == OwnCases(a) + OwnCases(b)
    ensures OwnDefaults(a + b) == OwnDefaults(a) + OwnDefaults(b)
    ensures Compiles(a + b) <==> Compiles(a) && Compiles(b)
  {
    OwnCasesConcat(a, b);
    CompilesConcat(a, b);
  }

  lemma {:induction false} OwnCasesConcat(a: seq<CStmt>, b: seq<CStmt>)
    ensures OwnCases(a + b) == OwnCases(a) + OwnCases(b)
    ensures OwnDefaults(a + b) == OwnDefaults(a) + OwnDefaults(b)
  {
    if a == [] {
      assert a + b == b;
    } else {
      assert (a + b)[0] == a[0] && (a + b)[1..] == a[1..] + b;
      OwnCasesConcat(a[1..], b);
      var h := if a[0].CaseMark? then [a[0].value] else [];
      var t := OwnCases(a[1..]);
      assert OwnCases(a) == h + t;
      assert OwnCases(a + b) == h + OwnCases(a[1..] + b);
      assert h + (t + OwnCases(b)) == h + t + OwnCases(b);
    }
  }

  lemma {:induction false} CompilesConcat(a: seq<CStmt>, b: seq<CStmt>)
    ensures Compiles(a + b) <==> Compiles(a) && Compiles(b)
  {
    hide OwnCases, OwnDefaults, Distinct;
    if a == [] {
      assert a + b == b;
    } else {
      assert (a + b)[1..] == a[1..] + b;
      CompilesConcat(a[1..], b);
    }
  }

  lemma {:induction false} MarksOwn(values: seq<nat>)
    ensures OwnCases(Marks(values)) == values && OwnDefaults(Marks(values)) == 0 && Compiles(Marks(values))
  {
    if values != [] {
      assert Marks(values)[1..] == Marks(values[1..]);
      MarksOwn(values[1..]);
    }
  }

  lemma {:induction false} LabelOwn(lab: Label, code: seq<CStmt>)
    requires OwnCases(code) == [] && OwnDefaults(code) == 0
    ensures OwnCases(LabelCode(lab) + code) == if lab.Constants? then lab.values else []
    ensures OwnDefaults(LabelCode(lab) + code) == if lab.DefaultLabel? then 1 else 0
    ensures Compiles(LabelCode(lab) + code) <==> Compiles(code)
  {
    OwnConcat(LabelCode(lab), code);
    if lab.Constants? {
      MarksOwn(lab.values);
    } else {
      assert [DefaultMark][1..] == [];
    }
  }

  lemma {:induction false} LeafOwn(d: Defn, terminal: bool)
    ensures var c := [Body(d, terminal)] + [Break]; OwnCases(c) == [] && OwnDefaults(c) == 0 && Compiles(c)
  {
    OwnConcat([Body(d, terminal)], [Break]);
    assert [Body(d, terminal)][1..] == [] && [Break][1..] == [];
  }

  predicate IsClause(inh: seq<CStmt>) {
    inh == [] || (|inh| == 3 && inh[0] == DefaultMark && inh[1].Body? && inh[2] == Break)
  }

  lemma {:induction false} ClauseOwn(inh: seq<CStmt>)
    requires IsClause(inh)
    ensures OwnCases(inh) == [] && OwnDefaults(inh) <= 1 && Compiles(inh)
    ensures inh == [] ==> OwnDefaults(inh) == 0
  {
    if inh != [] {
      var d, t := inh[1].defn, inh[1].terminal;
      LeafOwn(d, t);
      LabelOwn(DefaultLabel, [Body(d, t)] + [Break]);
      assert inh == LabelCode(DefaultLabel) + ([Body(d, t)] + [Break]);
    }
  }

  /** The generated switches are well-formed C exactly when no block repeats a constant. */
  lemma {:induction false} BlockCompiles(b: Block, formats: FormatMap, fmt: Option<string>, inherited: bool,
                                         inh: seq<CStmt>)
    requires GoodBlock(b, formats, fmt, inherited) && IsClause(inh)
    ensures Compiles(BlockCode(b, formats, fmt, inherited, inh)) <==> DistinctLabels(b)
    ensures OwnCases(BlockCode(b, formats, fmt, inherited, inh)) == []
    ensures OwnDefaults(BlockCode(b, formats, fmt, inherited, inh)) == 0
    decreases b, 1
  {
    hide OwnCases, OwnDefaults, Compiles, ListCode, ListValues, DistinctInList, DefaultCount;
    var inh' := if b.dflt.Some? then ClauseCode(b.dflt.value, formats, fmt) else inh;
    var code := ListCode(b.stmts, formats, fmt, inherited || b.dflt.Some?, inh');
    var tail := if DefaultCount(b.stmts) == 0 then inh' else [];
    ListCompiles(b.stmts, formats, fmt, inherited || b.dflt.Some?, inh');
    ClauseOwn(tail);
    OwnConcat(code, tail);
    assert OwnCases(code + tail) == ListValues(b.stmts);
    assert SwitchBody(b, formats, fmt, inherited, inh) == code + tail;
    SwitchCompiles(b.field, code + tail);
  }

  lemma {:induction false} SwitchCompiles(f: string, body: seq<CStmt>)
    ensures Compiles([Switch(f, body)]) <==> Distinct(OwnCases(body)) && OwnDefaults(body) <= 1 && Compiles(body)
    ensures OwnCases([Switch(f, body)]) == [] && OwnDefaults([Switch(f, body)]) == 0
  {
    assert [Switch(f, body)][1..] == [];
  }

  lemma {:induction false} ListCompiles(l: StmtList, formats: FormatMap, fmt: Option<string>, inherited: bool,
                                        inh: seq<CStmt>)
    requires GoodList(l, formats, fmt, inherited) && IsClause(inh)
    ensures var c := ListCode(l, formats, fmt, inherited, inh);
            && OwnCases(c) == ListValues(l) && OwnDefaults(c) == DefaultCount(l)
            && (Compiles(c) <==> DistinctInList(l))
    decreases l, 1
  {
    StmtCompiles(l.stmt, formats, fmt, inherited, inh);
    if l.Cons? {
      ListCompiles(l.rest, formats, fmt, inherited, inh);
      OwnConcat(StmtCode(l.stmt, formats, fmt, inherited, inh), ListCode(l.rest, formats, fmt, inherited, inh));
    }
  }

  lemma {:induction false} InstStmtCode(lab: Label, i: Inst, formats: FormatMap, fmt: Option<string>, inherited: bool,
                                        inh: seq<CStmt>)
    requires GoodStmt(InstStmt(lab, i), formats, fmt, inherited)
    ensures StmtCode(InstStmt(lab, i), formats, fmt, inherited, inh)
         == LabelCode(lab) + (InstCode(i, formats, fmt) + [Break])
  {
    hide LabelCode, InstCode;
    var l, c := LabelCode(lab), InstCode(i, formats, fmt);
    assert l + c + [Break] == l + (c + [Break]);
  }

  lemma {:induction false} StmtCompiles(s: Stmt, formats: FormatMap, fmt: Option<string>, inherited: bool,
                                        inh: seq<CStmt>)
    requires GoodStmt(s, formats, fmt, inherited) && IsClause(inh)
    ensures var c := StmtCode(s, formats, fmt, inherited, inh);
            && OwnCases(c) == StmtValues(s) && OwnDefaults(c) == StmtDefaultCount(s)
            && (Compiles(c) <==> DistinctInStmt(s))
    decreases s, 1
  {
    match s
    case InstStmt(lab, i) =>
      var m := Define(i, fmt);
      LeafOwn(m, formats[m.fmt].terminal);
      InstStmtCode(lab, i, formats, fmt, inherited, inh);
      hide OwnCases, OwnDefaults, Compiles, LabelCode;
      LabelOwn(lab, InstCode(i, formats, fmt) + [Break]);
    case DecodeStmt(lab, b) =>
      BlockCompiles(b, formats, fmt, inherited, inh);
      LabelOwn(lab, BlockCode(b, formats, fmt, inherited, inh));
    case FormatStmt(f, body) =>
      ListCompiles(body, formats, Some(f), inherited, inh);
  }
}
