/** The decode-block part of an ISA description, the C code generated for it, and what each means. */
module DecodeLanguage {
  import opened Options

  // ----- Source: the decode sub-language -----
  //
  // A `decode` block chooses among its statements by the value of one bitfield of the machine instruction.

  /** `mnemonic(args)` or, with an explicit format, `fmt::mnemonic(args)`. */
  datatype Inst = Inst(fmt: Option<string>, mnemonic: string, args: seq<string>)

  /** A non-empty list of constants, or `default`. */
  datatype Label = Constants(values: seq<nat>) | DefaultLabel

  datatype Stmt =
    | InstStmt(lab: Label, inst: Inst)
    | DecodeStmt(lab: Label, block: Block)
    | FormatStmt(fmt: string, body: StmtList)

  /** The grammar's right-recursive, non-empty statement list. */
  datatype StmtList = Last(stmt: Stmt) | Cons(stmt: Stmt, rest: StmtList)

  /** `decode field [default inst] { stmts }` */
  datatype Block = Block(field: string, dflt: Option<Inst>, stmts: StmtList)

  /** An instruction as defined by a particular format. */
  datatype Defn = Defn(fmt: string, mnemonic: string, args: seq<string>)

  /** A format; `terminal` says whether the decode code it produces always executes a `return`. */
  datatype Format = Format(terminal: bool)

  type FormatMap = map<string, Format>
  type Env = string -> nat

  // ----- Lexical scoping of formats and defaults -----

  /** The format that defines `i` where `fmt` is the innermost enclosing format block, if any. */
  function FormatOf(i: Inst, fmt: Option<string>): Option<string> {
    if i.fmt.Some? then i.fmt else fmt
  }

  predicate Known(i: Inst, fmt: Option<string>, formats: FormatMap) {
    FormatOf(i, fmt).Some? && FormatOf(i, fmt).value in formats
  }

  function Define(i: Inst, fmt: Option<string>): Defn
    requires FormatOf(i, fmt).Some?
  {
    Defn(FormatOf(i, fmt).value, i.mnemonic, i.args)
  }

  /** Number of `default` statements of a block, looking through format blocks. */
  function DefaultCount(l: StmtList): nat {
    match l
    case Last(s) => StmtDefaultCount(s)
    case Cons(s, rest) => StmtDefaultCount(s) + DefaultCount(rest)
  }

  function StmtDefaultCount(s: Stmt): nat {
    match s
    case InstStmt(lab, _) => if lab.DefaultLabel? then 1 else 0
    case DecodeStmt(lab, _) => if lab.DefaultLabel? then 1 else 0
    case FormatStmt(_, body) => DefaultCount(body)
  }

  /** A block the translator must accept. `inherited` says whether a default is already in scope. */
  predicate GoodBlock(b: Block, formats: FormatMap, fmt: Option<string>, inherited: bool) {
    && (b.dflt.Some? ==> Known(b.dflt.value, fmt, formats))
    && GoodList(b.stmts, formats, fmt, inherited || b.dflt.Some?)
    && DefaultCount(b.stmts) <= 1
    && (DefaultCount(b.stmts) == 1 || inherited || b.dflt.Some?)
  }

  predicate GoodList(l: StmtList, formats: FormatMap, fmt: Option<string>, inherited: bool) {
    match l
    case Last(s) => GoodStmt(s, formats, fmt, inherited)
    case Cons(s, rest) => GoodStmt(s, formats, fmt, inherited) && GoodList(rest, formats, fmt, inherited)
  }

  predicate GoodStmt(s: Stmt, formats: FormatMap, fmt: Option<string>, inherited: bool) {
    match s
    case InstStmt(_, i) => Known(i, fmt, formats)
    case DecodeStmt(_, b) => GoodBlock(b, formats, fmt, inherited)
    case FormatStmt(f, body) => f in formats && GoodList(body, formats, Some(f), inherited)
  }

  // ----- Source meaning -----

  predicate Selects(lab: Label, v: nat) {
    lab.Constants? && v in lab.values
  }

  predicate HasCase(l: StmtList, v: nat) {
    match l
    case Last(s) => StmtHasCase(s, v)
    case Cons(s, rest) => StmtHasCase(s, v) || HasCase(rest, v)
  }

  predicate StmtHasCase(s: Stmt, v: nat) {
    match s
    case InstStmt(lab, _) => Selects(lab, v)
    case DecodeStmt(lab, _) => Selects(lab, v)
    case FormatStmt(_, body) => HasCase(body, v)
  }

  /** The instruction a block decodes to: the matching case, else the explicit default statement,
      else the innermost enclosing `default` clause `inh`. */
  function BlockMeaning(b: Block, env: Env, formats: FormatMap, fmt: Option<string>, inh: Option<Defn>): Defn
    requires GoodBlock(b, formats, fmt, inh.Some?)
    decreases b, 0
  {
    var d := if b.dflt.Some? then Some(Define(b.dflt.value, fmt)) else inh;
    var v := env(b.field);
    if HasCase(b.stmts, v) then
      CaseMeaning(b.stmts, v, env, formats, fmt, d)
    else if DefaultCount(b.stmts) > 0 then
      DefaultMeaning(b.stmts, env, formats, fmt, d)
    else
      d.value
  }

  /** Meaning of the first statement selected by `v`. */
  function CaseMeaning(l: StmtList, v: nat, env: Env, formats: FormatMap, fmt: Option<string>, d: Option<Defn>): Defn
    requires GoodList(l, formats, fmt, d.Some?) && HasCase(l, v)
    decreases l, 0
  {
    if l.Last? || StmtHasCase(l.stmt, v) then
      StmtCaseMeaning(l.stmt, v, env, formats, fmt, d)
    else
      CaseMeaning(l.rest, v, env, formats, fmt, d)
  }

  function StmtCaseMeaning(s: Stmt, v: nat, env: Env, formats: FormatMap, fmt: Option<string>, d: Option<Defn>): Defn
    requires GoodStmt(s, formats, fmt, d.Some?) && StmtHasCase(s, v)
    decreases s, 0
  {
    match s
    case InstStmt(_, i) => Define(i, fmt)
    case DecodeStmt(_, b) => BlockMeaning(b, env, formats, fmt, d)
    case FormatStmt(f, body) => CaseMeaning(body, v, env, formats, Some(f), d)
  }

  /** Meaning of the first `default` statement. */
  function DefaultMeaning(l: StmtList, env: Env, formats: FormatMap, fmt: Option<string>, d: Option<Defn>): Defn
    requires GoodList(l, formats, fmt, d.Some?) && DefaultCount(l) > 0
    decreases l, 0
  {
    if l.Last? || StmtDefaultCount(l.stmt) > 0 then
      StmtDefaultMeaning(l.stmt, env, formats, fmt, d)
    else
      DefaultMeaning(l.rest, env, formats, fmt, d)
  }

  function StmtDefaultMeaning(s: Stmt, env: Env, formats: FormatMap, fmt: Option<string>, d: Option<Defn>): Defn
    requires GoodStmt(s, formats, fmt, d.Some?) && StmtDefaultCount(s) > 0
    decreases s, 0
  {
    match s
    case InstStmt(_, i) => Define(i, fmt)
    case DecodeStmt(_, b) => BlockMeaning(b, env, formats, fmt, d)
    case FormatStmt(f, body) => DefaultMeaning(body, env, formats, Some(f), d)
  }

  // ----- Target: the body of a C decode function -----

  datatype CStmt =
    | CaseMark(value: nat)                      // case 0x..:
    | DefaultMark                               // default:
    | Break
    | Body(defn: Defn, terminal: bool)           // decode code of one instruction
    | Switch(field: string, body: seq<CStmt>)

  datatype Outcome = Fell | Broke | Returned

  /** Instructions whose code ran, in order, and how control left the code. */
  datatype Run = Run(trace: seq<Defn>, outcome: Outcome)

  /** The code from the first `case v:` on. */
  function FromCase(code: seq<CStmt>, v: nat): (r: Option<seq<CStmt>>)
    ensures r.Some? ==> |r.value| <= |code| && r.value == code[|code| - |r.value|..]
  {
    if code == [] then None
    else if code[0] == CaseMark(v) then Some(code)
    else FromCase(code[1..], v)
  }

  /** The code from the first `default:` on. */
  function FromDefault(code: seq<CStmt>): (r: Option<seq<CStmt>>)
    ensures r.Some? ==> |r.value| <= |code| && r.value == code[|code| - |r.value|..]
  {
    if code == [] then None
    else if code[0] == DefaultMark then Some(code)
    else FromDefault(code[1..])
  }

  /** C semantics: labels do nothing when reached, so control falls through them; a `switch` jumps to
      the matching label, and a `break` leaves only the innermost switch. */
  function Exec(code: seq<CStmt>, env: Env): Run
    decreases code, 0
  {
    if code == [] then Run([], Fell)
    else match code[0]
      case CaseMark(_) => Exec(code[1..], env)
      case DefaultMark => Exec(code[1..], env)
      case Break => Run([], Broke)
      case Body(d, terminal) => if terminal then Run([d], Returned) else Then(Run([d], Fell), Exec(code[1..], env))
      case Switch(f, body) => Then(ExecSwitch(body, env(f), env), Exec(code[1..], env))
  }

  /** Run a switch body for the value `v`; a `break` in it stops here. */
  function ExecSwitch(body: seq<CStmt>, v: nat, env: Env): Run
    decreases body, 1
  {
    var hit := FromCase(body, v);
    var entry := if hit.Some? then hit else FromDefault(body);
    var r := if entry.Some? then Exec(entry.value, env) else Run([], Fell);
    if r.outcome == Returned then r else Run(r.trace, Fell)
  }

  /** One run after another: the second happens only if control falls off the end of the first. */
  function Then(r: Run, after: Run): Run {
    if r.outcome == Fell then Run(r.trace + after.trace, after.outcome) else r
  }
}
