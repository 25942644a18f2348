/** What the annotation engine does, call by call, on plain values. */
module CpaModel {
  import opened CpaRecords
  import opened CpaTables
  import opened CpaQueues
  import opened Cpa

  /** Numbers are positions in lists of names, a queue is a stream of bytes tagged with the record that put them there,
      and the log is a list of entries. `queues` and `awaited` refer to records by their position in `log`. Lists
      without an entry are empty. */
  datatype Model = Model(
    systems: seq<System>, smMap: IdMap, qMap: IdMap, kinds: seq<string>, states: map<string, seq<string>>,
    stacks: map<StackId, seq<nat>>, links: map<nat, nat>, expl: map<StackId, bool>, last: map<nat, nat>,
    log: seq<Entry>, awaited: map<(nat, Id), nat>, queues: map<nat, seq<nat>>)

  /** Nothing has been called yet. */
  const EMPTY: Model := Model([], [], [], [], map[], map[], map[], map[], map[], [], map[], map[])

  /** How a call ended: nothing to do, a failed assertion or reported fatal error, or done. */
  datatype Outcome = Ignored | Stopped | Done

  /** The model is meaningless once the simulation has stopped. */
  datatype Effect = Effect(how: Outcome, m: Model)

  // ----- Numbers -----

  /** The position of `x`, counting from 1, or 0. */
  function Find<T(==)>(s: seq<T>, x: T): nat {
    if s == [] then 0
    else if s[|s| - 1] == x then |s|
    else Find(s[..|s| - 1], x)
  }

  lemma {:induction false} FindIs<T>(s: seq<T>, x: T)
    ensures Find(s, x) <= |s|
    ensures Find(s, x) != 0 <==> x in s
    ensures Find(s, x) != 0 ==> s[Find(s, x) - 1] == x
  {
    if s != [] {
      FindIs(s[..|s| - 1], x);
      assert s == s[..|s| - 1] + [s[|s| - 1]];
    }
  }

  lemma {:induction false} FindAt<T>(s: seq<T>, k: nat)
    requires k < |s| && forall i :: k < i < |s| ==> s[i] != s[k]
    ensures Find(s, s[k]) == k + 1
  {
    if k < |s| - 1 {
      FindAt(s[..|s| - 1], k);
    }
  }

  function WithSystem(m: Model, s: System): Model {
    m.(systems := Known(m.systems, s))
  }

  predicate MachinesFull(m: Model, key: (nat, Id)) {
    key !in m.smMap && |m.smMap| + 1 >= ID_LIMIT
  }

  function WithMachine(m: Model, key: (nat, Id)): Model {
    m.(smMap := Known(m.smMap, key))
  }

  predicate QueuesFull(m: Model, key: (nat, Id)) {
    key !in m.qMap && |m.qMap| + 1 >= ID_LIMIT
  }

  function WithQueue(m: Model, key: (nat, Id)): Model {
    m.(qMap := Known(m.qMap, key))
  }

  /** The names of a kind's states, in the order of their numbers. */
  function StatesOf(states: map<string, seq<string>>, kind: string): seq<string> {
    if kind in states then states[kind] else []
  }

  function WithState(m: Model, kind: string, st: string): Model {
    m.(kinds := Known(m.kinds, kind), states := m.states[kind := Known(StatesOf(m.states, kind), st)])
  }

  function StateNumber(m: Model, kind: string, st: string): nat {
    Find(StatesOf(m.states, kind), st)
  }

  // ----- Single changes -----

  function Logs(m: Model, e: Entry): Model {
    m.(log := m.log + [e])
  }

  /** Reset the explicit-state mode of a frame. */
  function Automatic(expl: map<StackId, bool>, sid: StackId): map<StackId, bool> {
    if sid in expl && expl[sid] then expl[sid := false] else expl
  }

  /** The name of a machine, by its number. */
  function NameOf(table: IdMap, smi: nat): string {
    if 1 <= smi <= |table| then table[smi - 1].1.0 else ""
  }

  function LastOf(stack: seq<nat>): nat
    requires stack != []
  {
    stack[|stack| - 1]
  }

  /** The machine that called for a link, or 0. */
  function Caller(stack: seq<nat>, flags: nat): nat {
    if Flag(flags, FL_LINK) && stack != [] then LastOf(stack) else 0
  }

  /** Link machine `smi` back to `prev`, if there is one, and log the link. */
  function LinksBack(m: Model, prev: nat, smi: nat, cpu: nat, tick: nat): Model {
    if prev == 0 then m
    else Logs(m.(links := m.links[smi := prev]), EntryOf(tick, 0, prev, smi, OP_LINK, FL_NONE, cpu))
  }

  function Pushes(m: Model, sid: StackId, smi: nat): Model {
    m.(stacks := m.stacks[sid := StackOf(m.stacks, sid) + [smi]], expl := Automatic(m.expl, sid))
  }

  /** The machine waiting for `key`, as its held record says. */
  function Waiting(m: Model, key: (nat, Id)): nat {
    if key in m.awaited && m.awaited[key] < |m.log| then m.log[m.awaited[key]].sm else 0
  }

  function Completed(log: seq<Entry>, i: nat, smi: nat): seq<Entry> {
    if i < |log| then log[i := log[i].(stq := smi % 0x1_0000)] else log
  }

  /** If a held link waits for `key`, complete it and link `smi` back to the machine that waited. */
  function Arrives(m: Model, key: (nat, Id), smi: nat): Model {
    if key in m.awaited then
      m.(log := Completed(m.log, m.awaited[key], smi), awaited := m.awaited - {key},
         links := m.links[smi := Waiting(m, key)])
    else m
  }

  /** Enter a state, if one is named. */
  function EntersState(m: Model, smi: nat, kind: string, st: string, cpu: nat, tick: nat): Model {
    if st == "" then m
    else
      var m := WithState(m, kind, st);
      var sti := StateNumber(m, kind, st);
      Logs(m.(last := m.last[smi := sti]), EntryOf(tick, 0, smi, sti, OP_BEGIN, FL_NONE, cpu))
  }

  // ----- Machines -----

  /** Starting `smi` trips an assertion: it would be linked back twice. */
  predicate Clash(links: map<nat, nat>, awaited: bool, smi: nat, prev: nat) {
    || ((prev != 0 || awaited) && At(links, smi) != 0)
    || (prev != 0 && awaited)
  }

  function Places(m: Model, sid: StackId, smi: nat, prev: nat, sm: string, cpu: nat, tick: nat): Effect {
    var key := (sid.0, (sm, sid.1));
    if Clash(m.links, key in m.awaited, smi, prev) then Effect(Stopped, m)
    else Effect(Done, Arrives(Pushes(LinksBack(m, prev, smi, cpu, tick), sid, smi), key, smi))
  }

  function Begins(m: Model, s: System, frame: nat, cpu: nat, tick: nat,
                  sm: string, id: nat, flags: nat, st: string): Effect {
    var m := WithSystem(m, s);
    var sid := (Find(m.systems, s), frame);
    var key := (sid.0, (sm, id));
    if MachinesFull(m, key) then Effect(Stopped, m)
    else
      var m := WithMachine(m, key);
      var smi := Find(m.smMap, key);
      var placed := Places(m, sid, smi, Caller(StackOf(m.stacks, sid), flags), sm, cpu, tick);
      if placed.how.Stopped? then placed
      else Effect(Done, EntersState(placed.m, smi, sm, st, cpu, tick))
  }

  /** Drop machine `smi`'s link and log where it led. */
  function Unlinks(m: Model, smi: nat, cpu: nat, tick: nat): Model {
    var m' := m.(links := m.links - {smi});
    if At(m.links, smi) == 0 then m'
    else Logs(m', EntryOf(tick, 0, smi, At(m.links, smi), OP_LINK, FL_NONE, cpu))
  }

  function Pops(m: Model, sid: StackId, cpu: nat, tick: nat): Model
    requires StackOf(m.stacks, sid) != []
  {
    var stack := StackOf(m.stacks, sid);
    var smi, rest := LastOf(stack), stack[..|stack| - 1];
    var m := Unlinks(m.(stacks := m.stacks[sid := rest]), smi, cpu, tick);
    if rest == [] then m
    else Logs(m, EntryOf(tick, 0, smi, At(m.last, smi), OP_BEGIN, FL_NONE, cpu))
  }

  function Ends(m: Model, s: System, frame: nat, cpu: nat, tick: nat, sm: string): Effect {
    var m := WithSystem(m, s);
    var sid := (Find(m.systems, s), frame);
    var m := m.(expl := Automatic(m.expl, sid));
    var stack := StackOf(m.stacks, sid);
    if stack == [] then Effect(Stopped, m)
    else if NameOf(m.smMap, LastOf(stack)) != sm then Effect(Ignored, m)
    else Effect(Done, Pops(m, sid, cpu, tick))
  }

  function ChangesState(m: Model, smi: nat, st: string, cpu: nat, flags: nat, tick: nat): Model {
    var kind := NameOf(m.smMap, smi);
    var m := WithState(m, kind, st);
    var sti := StateNumber(m, kind, st);
    if At(m.last, smi) == sti then m
    else Logs(m.(last := m.last[smi := sti]), EntryOf(tick, 0, smi, sti, OP_BEGIN, flags, cpu))
  }

  /** Symbols whose states are to be ignored. */
  const IGNORED: seq<string> := [
    "m5a_", "ret_from_sys_call", "ret_from_reschedule", "_spin_", "local_bh_", "restore_all", "Call_Pal_",
    "pal_post_interrupt", "rti_to_", "sys_int_2", "sys_interrupt", "normal_int", "TRAP_INTERRUPT_10_", "Trap_Interrupt",
    "do_entInt", "__do_softirq", "_end", "entInt", "entSys"]

  /** What is compared with a symbol: the macro makes a string of a string, so the quotes belong to it, and its length
      counts the terminating character. */
  function Quoted(symbol: string): string {
    "\"" + symbol + "\"" + "\0"
  }

  predicate Skipped(st: string) {
    exists i :: 0 <= i < |IGNORED| && Quoted(IGNORED[i]) <= st
  }

  /** No name without a terminating character inside is ever ignored. */
  lemma {:induction false} NeverSkipped(st: string)
    requires '\0' !in st
    ensures !Skipped(st)
  {
    forall i | 0 <= i < |IGNORED| ensures !(Quoted(IGNORED[i]) <= st) {
      var q := Quoted(IGNORED[i]);
      assert q[|q| - 1] == '\0';
    }
  }

  function BeginsState(m: Model, s: System, frame: nat, cpu: nat, tick: nat, st: string, explicit: bool, flags: nat)
    : Effect
  {
    if Skipped(st) then Effect(Ignored, m)
    else
      var m := WithSystem(m, s);
      var sid := (Find(m.systems, s), frame);
      var stack := StackOf(m.stacks, sid);
      if stack == [] || (!explicit && sid in m.expl && m.expl[sid]) then Effect(Ignored, m)
      else
        var m := if explicit then m.(expl := m.expl[sid := true]) else m;
        Effect(Done, ChangesState(m, LastOf(stack), st, cpu, flags, tick))
  }

  /** Leave explicit-state mode and enter the state named, if there is one. */
  function EndsState(m: Model, s: System, frame: nat, cpu: nat, tick: nat, st: string): Effect {
    var m := WithSystem(m, s);
    var sid := (Find(m.systems, s), frame);
    var stack := StackOf(m.stacks, sid);
    if stack == [] then Effect(Ignored, m)
    else
      var smi := LastOf(stack);
      Effect(Done, EntersState(m.(expl := m.expl[sid := false]), smi, NameOf(m.smMap, smi), st, cpu, tick))
  }

  function LinksTo(m: Model, s: System, frame: nat, cpu: nat, tick: nat, lsm: string, id: nat): Effect {
    var m := WithSystem(m, s);
    var sid := (Find(m.systems, s), frame);
    var stack := StackOf(m.stacks, sid);
    var key := (sid.0, (lsm, id));
    if stack == [] then Effect(Ignored, m)
    else if MachinesFull(m, key) then Effect(Stopped, m)
    else
      var m := WithMachine(m, key);
      var lsmi := Find(m.smMap, key);
      if At(m.links, lsmi) != 0 then Effect(Stopped, m)
      else Effect(Done, LinksBack(m, LastOf(stack), lsmi, cpu, tick))
  }

  function LinksSyscall(m: Model, s: System, frame: nat, cpu: nat, tick: nat, lsm: string): Effect {
    var m := WithSystem(m, s);
    var sid := (Find(m.systems, s), frame);
    var stack := StackOf(m.stacks, sid);
    var key := (sid.0, (lsm, frame));
    if stack == [] then Effect(Ignored, m)
    else if key in m.awaited then Effect(Stopped, m)
    else Effect(Done, Holds(m, key, EntryOf(tick, 0, LastOf(stack), UNKNOWN, OP_LINK, FL_NONE, cpu)))
  }

  function Holds(m: Model, key: (nat, Id), e: Entry): Model {
    Logs(m.(awaited := m.awaited[key := |m.log|]), e)
  }

  // ----- Queues -----

  function BytesOf(queues: map<nat, seq<nat>>, qi: nat): seq<nat> {
    if qi in queues then queues[qi] else []
  }

  function Puts(m: Model, qi: nat, bytes: seq<nat>): Model {
    m.(queues := m.queues[qi := bytes])
  }

  function Tagged(i: nat, count: nat): seq<nat> {
    seq(count, _ => i)
  }

  /** `count` bytes of a new record, at the back or, for a queue used as a stack, at the front. */
  function Enqueued(m: Model, flags: nat, cpu: nat, smi: nat, qi: nat, count: nat, tick: nat): Effect {
    var added, had := Tagged(|m.log|, count), BytesOf(m.queues, qi);
    if |had| + count > INT32_MAX then Effect(Stopped, m)
    else
      Effect(Done, Puts(Logs(m, EntryOf(tick, count, smi, qi, OP_QUEUE, flags, cpu)), qi,
                        if Flag(flags, FL_QOPP) then added + had else had + added))
  }

  /** The first `count` bytes leave the queue, or all of them for -1. */
  function Dequeued(m: Model, flags: nat, cpu: nat, smi: nat, qi: nat, count: int, tick: nat): Effect {
    var bytes := BytesOf(m.queues, qi);
    var e := EntryOf(tick, count, smi, qi, OP_DEQUEUE, flags, cpu);
    if count == -1 then Effect(Done, Puts(Logs(m, e), qi, []))
    else if count <= 0 || count > |bytes| then Effect(Stopped, m)
    else Effect(Done, Puts(Logs(m, e), qi, bytes[count..]))
  }

  function Emptied(m: Model, flags: nat, cpu: nat, smi: nat, qi: nat, tick: nat): Model {
    if Flag(flags, FL_RESET)
    then Puts(Logs(m, EntryOf(tick, 0, smi, qi, OP_SIZE_QUEUE, FL_NONE, cpu)), qi, [])
    else m
  }

  /** The queue is left with exactly `size` bytes, or none. */
  function Fitted(m: Model, cpu: nat, smi: nat, qi: nat, size: int, tick: nat): Model {
    var bytes := BytesOf(m.queues, qi);
    if |bytes| < size then
      Puts(Logs(m, EntryOf(tick, size - |bytes|, smi, qi, OP_QUEUE, FL_NONE, cpu)), qi,
           bytes + Tagged(|m.log|, size - |bytes|))
    else if |bytes| > size then
      Puts(Logs(m, EntryOf(tick, size, smi, qi, OP_SIZE_QUEUE, FL_NONE, cpu)), qi,
           if size <= 0 then [] else bytes[..size])
    else m
  }

  function Resized(m: Model, flags: nat, cpu: nat, smi: nat, qi: nat, size: int, tick: nat): Effect {
    if size > INT32_MAX then Effect(Stopped, m)
    else Effect(Done, Fitted(Emptied(m, flags, cpu, smi, qi, tick), cpu, smi, qi, size, tick))
  }

  // ----- Calls -----

  datatype QueueOp = Enqueue(count: nat) | Dequeue(removed: int) | Resize(size: int, reset: nat)

  /** A call by the running machine of a frame, or by a hardware machine named in the call. */
  datatype Call =
    | SmBegin(sm: string, id: nat, flags: nat, st: string)
    | SmEnd(sm: string)
    | StateBegin(st: string, explicit: bool, flags: nat)
    | StateEnd(st: string)
    | Link(lsm: string, id: nat)
    | SyscallLink(lsm: string)
    | SwQueue(q: string, id: nat, op: QueueOp)
    | HwQueue(sm: string, q: string, id: nat, owner: System, op: QueueOp, flags: nat)

  datatype Command = Command(s: System, frame: nat, cpu: nat, tick: nat, call: Call)

  function OnQueue(m: Model, op: QueueOp, flags: nat, cpu: nat, smi: nat, qi: nat, tick: nat): Effect {
    match op
    case Enqueue(count) => Enqueued(m, flags, cpu, smi, qi, count, tick)
    case Dequeue(removed) => Dequeued(m, flags, cpu, smi, qi, removed, tick)
    case Resize(size, reset) => Resized(m, reset, cpu, smi, qi, size, tick)
  }

  /** Queue calls leave explicit-state mode, except resizing. Enqueuing nothing is ignored. */
  function SwQueues(m: Model, s: System, frame: nat, cpu: nat, tick: nat, q: string, id: nat, op: QueueOp): Effect {
    var m := WithSystem(m, s);
    var sid := (Find(m.systems, s), frame);
    var stack := StackOf(m.stacks, sid);
    var key := (sid.0, (q, id));
    if stack == [] then Effect(Ignored, m)
    else
      var m := if op.Resize? then m else m.(expl := Automatic(m.expl, sid));
      if QueuesFull(m, key) then Effect(Stopped, m)
      else
        var m := WithQueue(m, key);
        if op == Enqueue(0) then Effect(Ignored, m)
        else OnQueue(m, op, FL_NONE, cpu, LastOf(stack), Find(m.qMap, key), tick)
  }

  /** Hardware names its machine, and the queue may belong to another system. Hardware does not resize. */
  function HwQueues(m: Model, s: System, frame: nat, tick: nat, sm: string, q: string, id: nat, owner: System,
                    op: QueueOp, flags: nat): Effect {
    var m := WithSystem(WithSystem(m, s), owner);
    var key, mine := (Find(m.systems, owner), (q, id)), (Find(m.systems, s), (sm, frame));
    if op.Resize? then Effect(Ignored, m)
    else if QueuesFull(m, key) then Effect(Stopped, m)
    else
      var m := WithQueue(m, key);
      if MachinesFull(m, mine) then Effect(Stopped, m)
      else
        var m := WithMachine(m, mine);
        OnQueue(m, op, Hardware(flags), 0, Find(m.smMap, mine), Find(m.qMap, key), tick)
  }

  /** The hardware flag added to others. */
  function Hardware(flags: nat): nat {
    if flags % 2 == 1 then flags else flags + 1
  }

  function Next(m: Model, cmd: Command): Effect {
    var Command(s, frame, cpu, tick, call) := cmd;
    match call
    case SmBegin(sm, id, flags, st) => Begins(m, s, frame, cpu, tick, sm, id, flags, st)
    case SmEnd(sm) => Ends(m, s, frame, cpu, tick, sm)
    case StateBegin(st, explicit, flags) => BeginsState(m, s, frame, cpu, tick, st, explicit, flags)
    case StateEnd(st) => EndsState(m, s, frame, cpu, tick, st)
    case Link(lsm, id) => LinksTo(m, s, frame, cpu, tick, lsm, id)
    case SyscallLink(lsm) => LinksSyscall(m, s, frame, cpu, tick, lsm)
    case SwQueue(q, id, op) => SwQueues(m, s, frame, cpu, tick, q, id, op)
    case HwQueue(sm, q, id, owner, op, flags) => HwQueues(m, s, frame, tick, sm, q, id, owner, op, flags)
  }

  /** The state after a sequence of calls, or up to the first that stops the simulation. */
  datatype Trace = Trace(ran: nat, m: Model)

  function Runs(m: Model, cmds: seq<Command>): Trace
    decreases |cmds|
  {
    if cmds == [] then Trace(0, m)
    else
      var e := Next(m, cmds[0]);
      if e.how.Stopped? then Trace(0, m)
      else
        var rest := Runs(e.m, cmds[1..]);
        Trace(1 + rest.ran, rest.m)
  }
}
