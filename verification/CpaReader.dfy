/** What a reader of the log alone can tell: the state each machine is in and how much each queue holds. */
module CpaReader {
  import opened Sequences
  import opened CpaRecords
  import opened CpaTables
  import opened CpaQueues
  import opened Cpa
  import opened CpaModel
  import opened CpaLaws
  import opened CpaShows
  import opened CpaRuns

  /** The state named by the last begin record of a machine, or 0. */
  function LastBegun(log: seq<Entry>, smi: nat): nat {
    if log == [] then 0
    else
      var e := log[|log| - 1];
      if e.op == OP_BEGIN && e.sm == smi then e.stq else LastBegun(log[..|log| - 1], smi)
  }

  /** The bytes in a queue after one more record; counts are signed 32-bit numbers, and -1 removes everything. */
  function HeldAfter(held: int, e: Entry): int {
    var count := if e.data < 0x8000_0000 then e.data else e.data - 0x1_0000_0000;
    if e.op == OP_QUEUE then held + count
    else if e.op == OP_DEQUEUE then if count == -1 then 0 else held - count
    else if e.op == OP_SIZE_QUEUE then if count < 0 then 0 else count
    else held
  }

  /** The bytes in a queue according to the records about it. */
  function Held(log: seq<Entry>, qi: nat): int {
    if log == [] then 0
    else
      var e := log[|log| - 1];
      if IsQueueOp(e.op) && e.stq == qi then HeldAfter(Held(log[..|log| - 1], qi), e) else Held(log[..|log| - 1], qi)
  }

  predicate IsQueueOp(op: nat) {
    op == OP_QUEUE || op == OP_DEQUEUE || op == OP_SIZE_QUEUE
  }

  ghost predicate TellsStates(log: seq<Entry>, last: map<nat, nat>) {
    forall smi: nat :: smi < ID_LIMIT ==> LastBegun(log, smi) == At(last, smi) % 0x1_0000
  }

  ghost predicate TellsQueues(log: seq<Entry>, queues: map<nat, seq<nat>>) {
    forall qi: nat :: qi < ID_LIMIT ==> Held(log, qi) == |BytesOf(queues, qi)| <= INT32_MAX
  }

  /** The log tells every machine's last state and every queue's length. */
  ghost predicate Tells(m: Model) {
    TellsStates(m.log, m.last) && TellsQueues(m.log, m.queues)
  }

  // ----- One more record -----

  lemma {:induction false} OneMore(log: seq<Entry>, e: Entry, n: nat)
    ensures LastBegun(log + [e], n) == if e.op == OP_BEGIN && e.sm == n then e.stq else LastBegun(log, n)
    ensures Held(log + [e], n) == if IsQueueOp(e.op) && e.stq == n then HeldAfter(Held(log, n), e) else Held(log, n)
  {
    assert (log + [e])[..|log|] == log;
  }

  /** Completing a link changes neither. */
  lemma {:induction false} LinkChanged(log: seq<Entry>, i: nat, e: Entry, n: nat)
    requires i < |log| && log[i].op == OP_LINK && e.op == OP_LINK
    ensures LastBegun(log[i := e], n) == LastBegun(log, n) && Held(log[i := e], n) == Held(log, n)
    decreases |log|
  {
    var k := |log| - 1;
    if i < k {
      assert log[i := e][..k] == log[..k][i := e];
      LinkChanged(log[..k], i, e, n);
    } else {
      assert log[i := e][..k] == log[..k];
    }
  }

  lemma {:induction false} LinkTells(log: seq<Entry>, last: map<nat, nat>, queues: map<nat, seq<nat>>, e: Entry)
    requires TellsStates(log, last) && TellsQueues(log, queues) && e.op == OP_LINK
    ensures TellsStates(log + [e], last) && TellsQueues(log + [e], queues)
  {
    forall n: nat | n < ID_LIMIT
      ensures LastBegun(log + [e], n) == At(last, n) % 0x1_0000
      ensures Held(log + [e], n) == |BytesOf(queues, n)| <= INT32_MAX
    {
      OneMore(log, e, n);
    }
  }

  lemma {:induction false} BeginTells(log: seq<Entry>, last: map<nat, nat>, queues: map<nat, seq<nat>>, e: Entry,
                                      smi: nat, sti: nat)
    requires TellsStates(log, last) && TellsQueues(log, queues)
    requires e.op == OP_BEGIN && e.sm == smi && e.stq == sti % 0x1_0000
    ensures TellsStates(log + [e], last[smi := sti]) && TellsQueues(log + [e], queues)
    ensures At(last, smi) == sti ==> TellsStates(log + [e], last)
  {
    forall n: nat | n < ID_LIMIT
      ensures LastBegun(log + [e], n) == At(last[smi := sti], n) % 0x1_0000
      ensures Held(log + [e], n) == |BytesOf(queues, n)| <= INT32_MAX
      ensures At(last, smi) == sti ==> LastBegun(log + [e], n) == At(last, n) % 0x1_0000
    {
      OneMore(log, e, n);
    }
  }

  lemma {:induction false} QueueTells(log: seq<Entry>, last: map<nat, nat>, queues: map<nat, seq<nat>>, e: Entry,
                                      qi: nat, bytes: seq<nat>)
    requires TellsStates(log, last) && TellsQueues(log, queues) && qi < ID_LIMIT
    requires IsQueueOp(e.op) && e.stq == qi
    requires HeldAfter(|BytesOf(queues, qi)|, e) == |bytes| <= INT32_MAX
    ensures TellsStates(log + [e], last) && TellsQueues(log + [e], queues[qi := bytes])
  {
    hide HeldAfter;
    forall n: nat | n < ID_LIMIT
      ensures LastBegun(log + [e], n) == At(last, n) % 0x1_0000
      ensures Held(log + [e], n) == |BytesOf(queues[qi := bytes], n)| <= INT32_MAX
    {
      OneMore(log, e, n);
    }
  }

  // ----- Machines -----

  lemma {:induction false} LinksBackTells(m: Model, prev: nat, smi: nat, cpu: nat, tick: nat)
    requires Tells(m)
    ensures Tells(LinksBack(m, prev, smi, cpu, tick))
  {
    hide TellsStates, TellsQueues;
    if prev != 0 {
      LinkTells(m.log, m.last, m.queues, EntryOf(tick, 0, prev, smi, OP_LINK, FL_NONE, cpu));
    }
  }

  lemma {:induction false} ArrivesTells(m: Model, key: (nat, Id), smi: nat)
    requires Tells(m) && AwaitedOk(m.smMap, m.log, m.awaited)
    ensures Tells(Arrives(m, key, smi))
  {
    if key in m.awaited {
      var i := m.awaited[key];
      var e := m.log[i].(stq := smi % 0x1_0000);
      forall n: nat | n < ID_LIMIT
        ensures LastBegun(m.log[i := e], n) == At(m.last, n) % 0x1_0000
        ensures Held(m.log[i := e], n) == |BytesOf(m.queues, n)| <= INT32_MAX
      {
        LinkChanged(m.log, i, e, n);
      }
    }
  }

  lemma {:induction false} EntersTells(m: Model, smi: nat, kind: string, st: string, cpu: nat, tick: nat)
    requires Tells(m) && smi < ID_LIMIT
    ensures Tells(EntersState(m, smi, kind, st, cpu, tick))
  {
    hide TellsStates, TellsQueues, Find;
    var sti := StateNumber(WithState(m, kind, st), kind, st);
    BeginTells(m.log, m.last, m.queues, EntryOf(tick, 0, smi, sti, OP_BEGIN, FL_NONE, cpu), smi, sti);
  }

  lemma {:induction false} ChangesTells(m: Model, smi: nat, st: string, cpu: nat, flags: nat, tick: nat)
    requires Tells(m) && smi < ID_LIMIT
    ensures Tells(ChangesState(m, smi, st, cpu, flags, tick))
  {
    hide TellsStates, TellsQueues, Find;
    var kind := NameOf(m.smMap, smi);
    var sti := StateNumber(WithState(m, kind, st), kind, st);
    BeginTells(m.log, m.last, m.queues, EntryOf(tick, 0, smi, sti, OP_BEGIN, flags, cpu), smi, sti);
  }

  lemma {:induction false} UnlinksTells(m: Model, smi: nat, cpu: nat, tick: nat)
    requires Tells(m)
    ensures Tells(Unlinks(m, smi, cpu, tick)) && Unlinks(m, smi, cpu, tick).last == m.last
  {
    hide TellsStates, TellsQueues;
    LinkTells(m.log, m.last, m.queues, EntryOf(tick, 0, smi, At(m.links, smi), OP_LINK, FL_NONE, cpu));
  }

  lemma {:induction false} PopsTells(m: Model, sid: StackId, cpu: nat, tick: nat)
    requires Tells(m) && StackOf(m.stacks, sid) != [] && LastOf(StackOf(m.stacks, sid)) < ID_LIMIT
    ensures Tells(Pops(m, sid, cpu, tick))
  {
    hide TellsStates, TellsQueues, Unlinks;
    var stack := StackOf(m.stacks, sid);
    var smi := LastOf(stack);
    var m1 := m.(stacks := m.stacks[sid := stack[..|stack| - 1]]);
    UnlinksTells(m1, smi, cpu, tick);
    var m2 := Unlinks(m1, smi, cpu, tick);
    BeginTells(m2.log, m2.last, m2.queues, EntryOf(tick, 0, smi, At(m.last, smi), OP_BEGIN, FL_NONE, cpu), smi,
               At(m.last, smi));
  }

  lemma {:induction false} BeginsTells(m: Model, s: System, frame: nat, cpu: nat, tick: nat,
                                       sm: string, id: nat, flags: nat, st: string)
    requires Tells(m) && ModelOk(m) && !Begins(m, s, frame, cpu, tick, sm, id, flags, st).how.Stopped?
    ensures Tells(Begins(m, s, frame, cpu, tick, sm, id, flags, st).m)
  {
    var m1 := WithSystem(m, s);
    var sid := (Find(m1.systems, s), frame);
    var key := (sid.0, (sm, id));
    SystemOk(m, s);
    WithMachineOk(m1, key);
    var m2 := WithMachine(m1, key);
    var smi := Find(m2.smMap, key);
    assert smi < ID_LIMIT;
    hide Find, MachinesFull, LinksBack, Clash, Caller, Pushes, Arrives, EntersState, ModelOk, TellsStates, TellsQueues;
    var prev := Caller(StackOf(m2.stacks, sid), flags);
    LinksBackTells(m2, prev, smi, cpu, tick);
    LinksBackOk(m2, prev, smi, cpu, tick);
    var m3 := LinksBack(m2, prev, smi, cpu, tick);
    SameTable(m2, prev, smi, cpu, tick, sid);
    PushesOk(m3, sid, smi);
    PushesTells(m3, sid, smi);
    OkAwaited(Pushes(m3, sid, smi));
    ArrivesTells(Pushes(m3, sid, smi), (sid.0, (sm, frame)), smi);
    EntersTells(Arrives(Pushes(m3, sid, smi), (sid.0, (sm, frame)), smi), smi, sm, st, cpu, tick);
  }

  lemma {:induction false} PushesTells(m: Model, sid: StackId, smi: nat)
    requires Tells(m)
    ensures Tells(Pushes(m, sid, smi))
  {
  }

  lemma {:induction false} OkAwaited(m: Model)
    requires ModelOk(m)
    ensures AwaitedOk(m.smMap, m.log, m.awaited)
  {
  }

  // ----- Queues -----

  lemma {:induction false} EnqueuedTells(m: Model, flags: nat, cpu: nat, smi: nat, qi: nat, count: nat, tick: nat)
    requires Tells(m) && qi < ID_LIMIT && !Enqueued(m, flags, cpu, smi, qi, count, tick).how.Stopped?
    ensures Tells(Enqueued(m, flags, cpu, smi, qi, count, tick).m)
  {
    var had, added := BytesOf(m.queues, qi), Tagged(|m.log|, count);
    hide TellsStates, TellsQueues;
    QueueTells(m.log, m.last, m.queues, EntryOf(tick, count, smi, qi, OP_QUEUE, flags, cpu), qi,
               if Flag(flags, FL_QOPP) then added + had else had + added);
  }

  lemma {:induction false} DequeuedTells(m: Model, flags: nat, cpu: nat, smi: nat, qi: nat, count: int, tick: nat)
    requires Tells(m) && qi < ID_LIMIT && !Dequeued(m, flags, cpu, smi, qi, count, tick).how.Stopped?
    ensures Tells(Dequeued(m, flags, cpu, smi, qi, count, tick).m)
  {
    var bytes := BytesOf(m.queues, qi);
    assert |bytes| <= INT32_MAX;
    hide TellsStates, TellsQueues;
    QueueTells(m.log, m.last, m.queues, EntryOf(tick, count, smi, qi, OP_DEQUEUE, flags, cpu), qi,
               if count == -1 then [] else bytes[count..]);
  }

  lemma {:induction false} EmptiedTells(m: Model, flags: nat, cpu: nat, smi: nat, qi: nat, tick: nat)
    requires Tells(m) && qi < ID_LIMIT
    ensures Tells(Emptied(m, flags, cpu, smi, qi, tick))
  {
    hide TellsStates, TellsQueues;
    QueueTells(m.log, m.last, m.queues, EntryOf(tick, 0, smi, qi, OP_SIZE_QUEUE, FL_NONE, cpu), qi, []);
  }

  lemma {:induction false} FittedTells(m: Model, cpu: nat, smi: nat, qi: nat, size: int, tick: nat)
    requires Tells(m) && qi < ID_LIMIT && -0x8000_0000 <= size <= INT32_MAX
    ensures Tells(Fitted(m, cpu, smi, qi, size, tick))
  {
    var bytes := BytesOf(m.queues, qi);
    assert |bytes| <= INT32_MAX;
    hide Tells, HeldAfter, EntryOf, Puts, Logs, BytesOf;
    if |bytes| < size {
      EntryHeld(|bytes|, tick, size - |bytes|, smi, qi, OP_QUEUE, FL_NONE, cpu);
      PutsTells(m, EntryOf(tick, size - |bytes|, smi, qi, OP_QUEUE, FL_NONE, cpu), qi,
                bytes + Tagged(|m.log|, size - |bytes|));
    } else if |bytes| > size {
      EntryHeld(|bytes|, tick, size, smi, qi, OP_SIZE_QUEUE, FL_NONE, cpu);
      PutsTells(m, EntryOf(tick, size, smi, qi, OP_SIZE_QUEUE, FL_NONE, cpu), qi,
                if size <= 0 then [] else bytes[..size]);
    }
  }

  lemma {:induction false} PutsTells(m: Model, e: Entry, qi: nat, bytes: seq<nat>)
    requires Tells(m) && qi < ID_LIMIT && IsQueueOp(e.op) && e.stq == qi
    requires HeldAfter(|BytesOf(m.queues, qi)|, e) == |bytes| <= INT32_MAX
    ensures Tells(Puts(Logs(m, e), qi, bytes))
  {
    hide TellsStates, TellsQueues, HeldAfter;
    QueueTells(m.log, m.last, m.queues, e, qi, bytes);
  }

  lemma {:induction false} EntryHeld(held: int, tick: nat, data: int, smi: nat, qi: nat, op: nat, flags: nat, cpu: nat)
    requires qi < ID_LIMIT && IsQueueOp(op) && -0x8000_0000 <= data <= INT32_MAX
    ensures var e := EntryOf(tick, data, smi, qi, op, flags, cpu);
      && IsQueueOp(e.op) && e.stq == qi
      && (op == OP_QUEUE ==> HeldAfter(held, e) == held + data)
      && (op == OP_SIZE_QUEUE ==> HeldAfter(held, e) == if data < 0 then 0 else data)
  {
  }

  lemma {:induction false} OnQueueTells(m: Model, op: QueueOp, flags: nat, cpu: nat, smi: nat, qi: nat, tick: nat)
    requires Tells(m) && qi < ID_LIMIT && (op.Resize? ==> op.size >= -0x8000_0000)
    requires !OnQueue(m, op, flags, cpu, smi, qi, tick).how.Stopped?
    ensures Tells(OnQueue(m, op, flags, cpu, smi, qi, tick).m)
  {
    hide Tells, Enqueued, Dequeued, Emptied, Fitted;
    match op {
      case Enqueue(count) => EnqueuedTells(m, flags, cpu, smi, qi, count, tick);
      case Dequeue(removed) => DequeuedTells(m, flags, cpu, smi, qi, removed, tick);
      case Resize(size, reset) =>
        EmptiedTells(m, reset, cpu, smi, qi, tick);
        FittedTells(Emptied(m, reset, cpu, smi, qi, tick), cpu, smi, qi, size, tick);
    }
  }

  // ----- Calls -----

  /** Queue sizes are 32-bit numbers. */
  predicate Typed(cmd: Command) {
    match cmd.call
    case SwQueue(_, _, Resize(size, _)) => size >= -0x8000_0000
    case _ => true
  }

  lemma {:induction false} SmallQueue(m: Model, key: (nat, Id))
    requires |m.qMap| < ID_LIMIT && !QueuesFull(m, key)
    ensures |WithQueue(m, key).qMap| < ID_LIMIT && Find(WithQueue(m, key).qMap, key) < ID_LIMIT
  {
    FindIs(WithQueue(m, key).qMap, key);
  }

  lemma {:induction false} SameQueues(m: Model, op: QueueOp, flags: nat, cpu: nat, smi: nat, qi: nat, tick: nat)
    ensures OnQueue(m, op, flags, cpu, smi, qi, tick).m.qMap == m.qMap
  {
    hide Puts, Logs;
    PutsTable(m);
    if op.Resize? {
      PutsTable(Emptied(m, op.reset, cpu, smi, qi, tick));
    }
  }

  lemma {:induction false} PutsTable(m: Model)
    ensures forall e, qi, bytes :: Puts(Logs(m, e), qi, bytes).qMap == m.qMap
  {
  }

  lemma {:induction false} SwQueuesTells(m: Model, s: System, frame: nat, cpu: nat, tick: nat, q: string, id: nat,
                                         op: QueueOp)
    requires Tells(m) && |m.qMap| < ID_LIMIT && (op.Resize? ==> op.size >= -0x8000_0000)
    requires !SwQueues(m, s, frame, cpu, tick, q, id, op).how.Stopped?
    ensures var m' := SwQueues(m, s, frame, cpu, tick, q, id, op).m; Tells(m') && |m'.qMap| < ID_LIMIT
  {
    hide Find, OnQueue, TellsStates, TellsQueues, QueuesFull, Automatic;
    var m1 := WithSystem(m, s);
    var sid := (Find(m1.systems, s), frame);
    var key, stack := (sid.0, (q, id)), StackOf(m1.stacks, sid);
    if stack != [] {
      var m2 := if op.Resize? then m1 else m1.(expl := Automatic(m1.expl, sid));
      SmallQueue(m2, key);
      var m3 := WithQueue(m2, key);
      if op != Enqueue(0) {
        SameQueues(m3, op, FL_NONE, cpu, LastOf(stack), Find(m3.qMap, key), tick);
        OnQueueTells(m3, op, FL_NONE, cpu, LastOf(stack), Find(m3.qMap, key), tick);
      }
    }
  }

  lemma {:induction false} HwQueuesTells(m: Model, s: System, frame: nat, tick: nat, sm: string, q: string, id: nat,
                                         owner: System, op: QueueOp, flags: nat)
    requires Tells(m) && |m.qMap| < ID_LIMIT && !HwQueues(m, s, frame, tick, sm, q, id, owner, op, flags).how.Stopped?
    ensures var m' := HwQueues(m, s, frame, tick, sm, q, id, owner, op, flags).m; Tells(m') && |m'.qMap| < ID_LIMIT
  {
    hide Find, OnQueue, TellsStates, TellsQueues, QueuesFull, MachinesFull, Hardware;
    var m1 := WithSystem(WithSystem(m, s), owner);
    var key, mine := (Find(m1.systems, owner), (q, id)), (Find(m1.systems, s), (sm, frame));
    if !op.Resize? {
      SmallQueue(m1, key);
      var m2 := WithMachine(WithQueue(m1, key), mine);
      SameQueues(m2, op, Hardware(flags), 0, Find(m2.smMap, mine), Find(m2.qMap, key), tick);
      OnQueueTells(m2, op, Hardware(flags), 0, Find(m2.smMap, mine), Find(m2.qMap, key), tick);
    }
  }

  lemma {:induction false} EndsTells(m: Model, s: System, frame: nat, cpu: nat, tick: nat, sm: string)
    requires Tells(m) && ModelOk(m)
    ensures Tells(Ends(m, s, frame, cpu, tick, sm).m)
  {
    hide Find, Pops, TellsStates, TellsQueues, Automatic;
    var m1 := WithSystem(m, s);
    var sid := (Find(m1.systems, s), frame);
    if StackOf(m1.stacks, sid) != [] {
      OnStacks(m, sid);
      PopsTells(m1.(expl := Automatic(m1.expl, sid)), sid, cpu, tick);
    }
  }

  lemma {:induction false} StatesTell(m: Model, s: System, frame: nat, cpu: nat, tick: nat, st: string,
                                      explicit: bool, flags: nat)
    requires Tells(m) && ModelOk(m)
    ensures Tells(BeginsState(m, s, frame, cpu, tick, st, explicit, flags).m)
    ensures Tells(EndsState(m, s, frame, cpu, tick, st).m)
  {
    hide Find, ChangesState, EntersState, TellsStates, TellsQueues, Skipped;
    var m1 := WithSystem(m, s);
    var sid := (Find(m1.systems, s), frame);
    if StackOf(m1.stacks, sid) != [] {
      OnStacks(m, sid);
      var smi := LastOf(StackOf(m1.stacks, sid));
      ChangesTells(if explicit then m1.(expl := m1.expl[sid := true]) else m1, smi, st, cpu, flags, tick);
      EntersTells(m1.(expl := m1.expl[sid := false]), smi, NameOf(m1.smMap, smi), st, cpu, tick);
    }
  }

  lemma {:induction false} LinksTell(m: Model, s: System, frame: nat, cpu: nat, tick: nat, lsm: string, id: nat)
    requires Tells(m)
    ensures Tells(LinksTo(m, s, frame, cpu, tick, lsm, id).m) && Tells(LinksSyscall(m, s, frame, cpu, tick, lsm).m)
  {
    hide Find, LinksBack, TellsStates, TellsQueues, MachinesFull;
    var m1 := WithSystem(m, s);
    var sid := (Find(m1.systems, s), frame);
    var key, stack := (sid.0, (lsm, id)), StackOf(m1.stacks, sid);
    if stack != [] {
      var m2 := WithMachine(m1, key);
      LinksBackTells(m2, LastOf(stack), Find(m2.smMap, key), cpu, tick);
      LinkTells(m.log, m.last, m.queues, EntryOf(tick, 0, LastOf(stack), UNKNOWN, OP_LINK, FL_NONE, cpu));
    }
  }

  lemma {:induction false} SameQueueTable(m: Model, cmd: Command)
    requires !cmd.call.SwQueue? && !cmd.call.HwQueue?
    ensures Next(m, cmd).m.qMap == m.qMap
  {
    var Command(s, frame, cpu, tick, call) := cmd;
    hide Begins, Ends, BeginsState, EndsState, LinksTo, LinksSyscall;
    match call {
      case SmBegin(sm, id, flags, st) => BeginsTable(m, s, frame, cpu, tick, sm, id, flags, st);
      case SmEnd(sm) => EndsTable(m, s, frame, cpu, tick, sm);
      case StateBegin(st, explicit, flags) => StatesTable(m, s, frame, cpu, tick, st, explicit, flags);
      case StateEnd(st) => StatesTable(m, s, frame, cpu, tick, st, true, 0);
      case Link(lsm, id) => LinksTable(m, s, frame, cpu, tick, lsm, id);
      case SyscallLink(lsm) => LinksTable(m, s, frame, cpu, tick, lsm, 0);
    }
  }

  lemma {:induction false} BeginsTable(m: Model, s: System, frame: nat, cpu: nat, tick: nat,
                                       sm: string, id: nat, flags: nat, st: string)
    ensures Begins(m, s, frame, cpu, tick, sm, id, flags, st).m.qMap == m.qMap
  {
    hide Find, MachinesFull, Caller, Places, EntersState;
    var m1 := WithSystem(m, s);
    var sid := (Find(m1.systems, s), frame);
    var m2 := WithMachine(m1, (sid.0, (sm, id)));
    var smi, prev := Find(m2.smMap, (sid.0, (sm, id))), Caller(StackOf(m2.stacks, sid), flags);
    PlacesTable(m2, sid, smi, prev, sm, cpu, tick);
    EntersTable(Places(m2, sid, smi, prev, sm, cpu, tick).m, smi, sm, st, cpu, tick);
  }

  lemma {:induction false} PlacesTable(m: Model, sid: StackId, smi: nat, prev: nat, sm: string, cpu: nat, tick: nat)
    ensures Places(m, sid, smi, prev, sm, cpu, tick).m.qMap == m.qMap
  {
    hide EntryOf, Automatic, Clash, Completed, Waiting, StackOf;
  }

  lemma {:induction false} EntersTable(m: Model, smi: nat, kind: string, st: string, cpu: nat, tick: nat)
    ensures EntersState(m, smi, kind, st, cpu, tick).qMap == m.qMap
  {
    hide EntryOf, Find;
  }

  lemma {:induction false} EndsTable(m: Model, s: System, frame: nat, cpu: nat, tick: nat, sm: string)
    ensures Ends(m, s, frame, cpu, tick, sm).m.qMap == m.qMap
  {
    hide Find, EntryOf, Automatic;
  }

  lemma {:induction false} StatesTable(m: Model, s: System, frame: nat, cpu: nat, tick: nat, st: string,
                                       explicit: bool, flags: nat)
    ensures BeginsState(m, s, frame, cpu, tick, st, explicit, flags).m.qMap == m.qMap
    ensures EndsState(m, s, frame, cpu, tick, st).m.qMap == m.qMap
  {
    hide Find, EntryOf, Skipped;
  }

  lemma {:induction false} LinksTable(m: Model, s: System, frame: nat, cpu: nat, tick: nat, lsm: string, id: nat)
    ensures LinksTo(m, s, frame, cpu, tick, lsm, id).m.qMap == m.qMap
    ensures LinksSyscall(m, s, frame, cpu, tick, lsm).m.qMap == m.qMap
  {
    hide Find, EntryOf, MachinesFull;
  }

  /** Every call keeps the log telling. */
  lemma {:induction false} NextTells(m: Model, cmd: Command)
    requires Tells(m) && ModelOk(m) && |m.qMap| < ID_LIMIT && Typed(cmd) && !Next(m, cmd).how.Stopped?
    ensures var m' := Next(m, cmd).m; Tells(m') && ModelOk(m') && |m'.qMap| < ID_LIMIT
  {
    NextOk(m, cmd);
    var Command(s, frame, cpu, tick, call) := cmd;
    if !call.SwQueue? && !call.HwQueue? { SameQueueTable(m, cmd); }
    hide ModelOk, Tells, Begins, Ends, BeginsState, EndsState, LinksTo, LinksSyscall, SwQueues, HwQueues;
    match call {
      case SmBegin(sm, id, flags, st) => BeginsTells(m, s, frame, cpu, tick, sm, id, flags, st);
      case SmEnd(sm) => EndsTells(m, s, frame, cpu, tick, sm);
      case StateBegin(st, explicit, flags) => StatesTell(m, s, frame, cpu, tick, st, explicit, flags);
      case StateEnd(st) => StatesTell(m, s, frame, cpu, tick, st, true, 0);
      case Link(lsm, id) => LinksTell(m, s, frame, cpu, tick, lsm, id);
      case SyscallLink(lsm) => LinksTell(m, s, frame, cpu, tick, lsm, 0);
      case SwQueue(q, id, op) => SwQueuesTells(m, s, frame, cpu, tick, q, id, op);
      case HwQueue(sm, q, id, owner, op, flags) => HwQueuesTells(m, s, frame, tick, sm, q, id, owner, op, flags);
    }
  }

  lemma {:induction false} RunsTell(m: Model, cmds: seq<Command>)
    requires Tells(m) && ModelOk(m) && |m.qMap| < ID_LIMIT && forall i :: 0 <= i < |cmds| ==> Typed(cmds[i])
    ensures Tells(Runs(m, cmds).m)
    decreases |cmds|
  {
    hide Tells, ModelOk, Next, Typed;
    if cmds != [] && !Next(m, cmds[0]).how.Stopped? {
      NextTells(m, cmds[0]);
      RunsTell(Next(m, cmds[0]).m, cmds[1..]);
    }
  }

  /** In every run the log alone tells which state each machine is in and how many bytes each queue holds. */
  lemma {:induction false} LogTells(cmds: seq<Command>)
    requires forall i :: 0 <= i < |cmds| ==> Typed(cmds[i])
    ensures var m := Runs(EMPTY, cmds).m;
      && (forall smi: nat :: smi < ID_LIMIT ==> LastBegun(m.log, smi) == At(m.last, smi) % 0x1_0000)
      && (forall qi: nat :: qi < ID_LIMIT ==> Held(m.log, qi) == |BytesOf(m.queues, qi)|)
  {
    EmptyOk();
    assert Tells(EMPTY);
    RunsTell(EMPTY, cmds);
  }

  /** And so for the engine: its byte counts and last states are what its records tell. */
  lemma {:induction false} EngineTells(c: Cpa, cmds: seq<Command>)
    requires forall i :: 0 <= i < |cmds| ==> Typed(cmds[i])
    requires c.Valid() && Shows(c, Runs(EMPTY, cmds).m)
    ensures var log := Runs(EMPTY, cmds).m.log;
      && |c.history| == |log| && (forall k :: 0 <= k < |log| ==> c.history[k].AsEntry() == log[k])
      && (forall smi: nat :: smi < ID_LIMIT ==> LastBegun(log, smi) == At(c.lastState, smi) % 0x1_0000)
      && (forall qi: nat :: 1 <= qi <= |c.qData| && qi < ID_LIMIT ==>
            qi <= |c.qBytes| && Held(log, qi) == c.qBytes[qi - 1])
  {
    LogTells(cmds);
    var m := Runs(EMPTY, cmds).m;
    Split(c, m);
    hide Runs, Held, LastBegun, Cpa.Valid, Shows, ShowsFields, ShowsStates, ShowsAwaited, ShowsQueues;
    forall qi: nat | 1 <= qi <= |c.qData| && qi < ID_LIMIT
      ensures qi <= |c.qBytes| && Held(m.log, qi) == c.qBytes[qi - 1]
    {
      QueueBytes(c, qi, m);
    }
  }
}
