/** What every model state satisfies, and laws of single calls. */
module CpaLaws {
  import opened Sequences
  import opened CpaRecords
  import opened CpaTables
  import opened CpaQueues
  import opened Cpa
  import opened CpaModel

  // ----- Well-formed models -----

  ghost predicate BytesOk(log: seq<Entry>, queues: map<nat, seq<nat>>) {
    forall qi, i :: qi in queues && 0 <= i < |queues[qi]| ==> queues[qi][i] < |log| && log[queues[qi][i]].op == OP_QUEUE
  }

  /** A machine of a system. */
  predicate Belongs(smMap: IdMap, smi: nat, sysi: nat) {
    1 <= smi <= |smMap| && smMap[smi - 1].0 == sysi
  }

  /** Held links are records of machines of the system that waits. */
  ghost predicate AwaitedOk(smMap: IdMap, log: seq<Entry>, awaited: map<(nat, Id), nat>) {
    forall k :: k in awaited ==>
      awaited[k] < |log| && log[awaited[k]].op == OP_LINK && Belongs(smMap, log[awaited[k]].sm, k.0)
  }

  ghost predicate NumbersOk(smMap: IdMap, stacks: map<StackId, seq<nat>>, links: map<nat, nat>) {
    && |smMap| < ID_LIMIT && (forall k :: k in links ==> 1 <= k <= |smMap|)
    && (forall sid, i :: sid in stacks && 0 <= i < |stacks[sid]| ==> Belongs(smMap, stacks[sid][i], sid.0))
  }

  /** Links are awaited by machines of known systems. */
  ghost predicate KeysOk(systems: seq<System>, awaited: map<(nat, Id), nat>) {
    Distinct(systems) && forall k :: k in awaited ==> 1 <= k.0 <= |systems|
  }

  ghost predicate ModelOk(m: Model) {
    && BytesOk(m.log, m.queues) && AwaitedOk(m.smMap, m.log, m.awaited) && KeysOk(m.systems, m.awaited)
    && NumbersOk(m.smMap, m.stacks, m.links)
  }

  lemma {:induction false} LogsOk(smMap: IdMap, log: seq<Entry>, e: Entry, awaited: map<(nat, Id), nat>,
                                  queues: map<nat, seq<nat>>)
    requires BytesOk(log, queues) && AwaitedOk(smMap, log, awaited)
    ensures BytesOk(log + [e], queues) && AwaitedOk(smMap, log + [e], awaited)
  {
  }

  lemma {:induction false} WithMachineOk(m: Model, key: (nat, Id))
    requires ModelOk(m) && !MachinesFull(m, key)
    ensures ModelOk(WithMachine(m, key))
    ensures Belongs(WithMachine(m, key).smMap, Find(WithMachine(m, key).smMap, key), key.0)
  {
    hide BytesOk;
    FindIs(WithMachine(m, key).smMap, key);
  }

  lemma {:induction false} LinksBackOk(m: Model, prev: nat, smi: nat, cpu: nat, tick: nat)
    requires ModelOk(m) && 1 <= smi <= |m.smMap|
    ensures ModelOk(LinksBack(m, prev, smi, cpu, tick))
  {
    hide BytesOk, AwaitedOk, EntryOf;
    LogsOk(m.smMap, m.log, EntryOf(tick, 0, prev, smi, OP_LINK, FL_NONE, cpu), m.awaited, m.queues);
  }

  lemma {:induction false} PushesOk(m: Model, sid: StackId, smi: nat)
    requires ModelOk(m) && Belongs(m.smMap, smi, sid.0)
    ensures ModelOk(Pushes(m, sid, smi))
  {
    hide BytesOk, AwaitedOk;
  }

  lemma {:induction false} ArrivesOk(m: Model, key: (nat, Id), smi: nat)
    requires ModelOk(m) && 1 <= smi <= |m.smMap|
    ensures ModelOk(Arrives(m, key, smi))
  {
    if key in m.awaited {
      var log := Completed(m.log, m.awaited[key], smi);
      assert |log| == |m.log| && forall i :: 0 <= i < |log| ==> log[i].op == m.log[i].op && log[i].sm == m.log[i].sm;
    }
  }

  lemma {:induction false} EntersStateOk(m: Model, smi: nat, kind: string, st: string, cpu: nat, tick: nat)
    requires ModelOk(m)
    ensures ModelOk(EntersState(m, smi, kind, st, cpu, tick))
  {
    hide BytesOk, AwaitedOk, NumbersOk, EntryOf;
    if st != "" {
      var sti := StateNumber(WithState(m, kind, st), kind, st);
      LogsOk(m.smMap, m.log, EntryOf(tick, 0, smi, sti, OP_BEGIN, FL_NONE, cpu), m.awaited, m.queues);
    }
  }

  lemma {:induction false} BeginsOk(m: Model, s: System, frame: nat, cpu: nat, tick: nat,
                                    sm: string, id: nat, flags: nat, st: string)
    requires ModelOk(m) && !Begins(m, s, frame, cpu, tick, sm, id, flags, st).how.Stopped?
    ensures ModelOk(Begins(m, s, frame, cpu, tick, sm, id, flags, st).m)
  {
    hide ModelOk, LinksBack, Pushes, Arrives, EntersState, WithMachine, Find, Clash, MachinesFull, Caller;
    var m1 := WithSystem(m, s);
    var sid := (Find(m1.systems, s), frame);
    var key := (sid.0, (sm, id));
    SystemOk(m, s);
    WithMachineOk(m1, key);
    var m2 := WithMachine(m1, key);
    var smi := Find(m2.smMap, key);
    var prev := Caller(StackOf(m2.stacks, sid), flags);
    LinksBackOk(m2, prev, smi, cpu, tick);
    var m3 := LinksBack(m2, prev, smi, cpu, tick);
    SameTable(m2, prev, smi, cpu, tick, sid);
    PushesOk(m3, sid, smi);
    ArrivesOk(Pushes(m3, sid, smi), (sid.0, (sm, frame)), smi);
    EntersStateOk(Arrives(Pushes(m3, sid, smi), (sid.0, (sm, frame)), smi), smi, sm, st, cpu, tick);
  }

  lemma {:induction false} SystemOk(m: Model, s: System)
    requires ModelOk(m)
    ensures ModelOk(WithSystem(m, s))
  {
  }

  lemma {:induction false} SameTable(m: Model, prev: nat, smi: nat, cpu: nat, tick: nat, sid: StackId)
    ensures LinksBack(m, prev, smi, cpu, tick).smMap == m.smMap
    ensures Pushes(LinksBack(m, prev, smi, cpu, tick), sid, smi).smMap == m.smMap
  {
  }

  lemma {:induction false} UnlinksOk(m: Model, smi: nat, cpu: nat, tick: nat)
    requires ModelOk(m)
    ensures ModelOk(Unlinks(m, smi, cpu, tick))
  {
    hide BytesOk, AwaitedOk, EntryOf;
    LogsOk(m.smMap, m.log, EntryOf(tick, 0, smi, At(m.links, smi), OP_LINK, FL_NONE, cpu), m.awaited, m.queues);
  }

  lemma {:induction false} PopsOk(m: Model, sid: StackId, cpu: nat, tick: nat)
    requires ModelOk(m) && StackOf(m.stacks, sid) != []
    ensures ModelOk(Pops(m, sid, cpu, tick))
  {
    hide BytesOk, AwaitedOk, EntryOf, Unlinks;
    var stack := StackOf(m.stacks, sid);
    var smi := LastOf(stack);
    var m1 := m.(stacks := m.stacks[sid := stack[..|stack| - 1]]);
    assert NumbersOk(m1.smMap, m1.stacks, m1.links);
    hide NumbersOk;
    UnlinksOk(m1, smi, cpu, tick);
    var m2 := Unlinks(m1, smi, cpu, tick);
    LogsOk(m2.smMap, m2.log, EntryOf(tick, 0, smi, At(m2.last, smi), OP_BEGIN, FL_NONE, cpu), m2.awaited, m2.queues);
  }

  lemma {:induction false} EndsOk(m: Model, s: System, frame: nat, cpu: nat, tick: nat, sm: string)
    requires ModelOk(m)
    ensures ModelOk(Ends(m, s, frame, cpu, tick, sm).m)
  {
    hide BytesOk, AwaitedOk, NumbersOk, Find, NameOf, Pops, Automatic;
    var m1 := WithSystem(m, s);
    var sid := (Find(m1.systems, s), frame);
    var m2 := m1.(expl := Automatic(m1.expl, sid));
    if StackOf(m2.stacks, sid) != [] {
      PopsOk(m2, sid, cpu, tick);
    }
  }

  lemma {:induction false} ChangesStateOk(m: Model, smi: nat, st: string, cpu: nat, flags: nat, tick: nat)
    requires ModelOk(m)
    ensures ModelOk(ChangesState(m, smi, st, cpu, flags, tick))
  {
    hide BytesOk, AwaitedOk, NumbersOk, EntryOf;
    var kind := NameOf(m.smMap, smi);
    var sti := StateNumber(WithState(m, kind, st), kind, st);
    LogsOk(m.smMap, m.log, EntryOf(tick, 0, smi, sti, OP_BEGIN, flags, cpu), m.awaited, m.queues);
  }

  lemma {:induction false} LinksToOk(m: Model, s: System, frame: nat, cpu: nat, tick: nat, lsm: string, id: nat)
    requires ModelOk(m)
    ensures !LinksTo(m, s, frame, cpu, tick, lsm, id).how.Stopped? ==>
      ModelOk(LinksTo(m, s, frame, cpu, tick, lsm, id).m)
  {
    hide ModelOk, LinksBack, WithMachine, Find, MachinesFull;
    var m1 := WithSystem(m, s);
    SystemOk(m, s);
    var sid := (Find(m1.systems, s), frame);
    var key := (sid.0, (lsm, id));
    if StackOf(m1.stacks, sid) != [] && !MachinesFull(m1, key) {
      WithMachineOk(m1, key);
      var m2 := WithMachine(m1, key);
      LinksBackOk(m2, LastOf(StackOf(m1.stacks, sid)), Find(m2.smMap, key), cpu, tick);
    }
  }

  lemma {:induction false} LinksSyscallOk(m: Model, s: System, frame: nat, cpu: nat, tick: nat, lsm: string)
    requires ModelOk(m)
    ensures ModelOk(LinksSyscall(m, s, frame, cpu, tick, lsm).m)
  {
    var m1 := WithSystem(m, s);
    var sid := (Find(m1.systems, s), frame);
    var stack := StackOf(m1.stacks, sid);
    hide Find, NumbersOk;
    SystemOk(m, s);
    FindIs(m1.systems, s);
    if stack != [] && (sid.0, (lsm, frame)) !in m1.awaited {
      OnStacks(m1, sid);
      LogsOk(m.smMap, m.log, EntryOf(tick, 0, LastOf(stack), UNKNOWN, OP_LINK, FL_NONE, cpu), m.awaited, m.queues);
    }
  }

  lemma {:induction false} OnStacks(m: Model, sid: StackId)
    requires NumbersOk(m.smMap, m.stacks, m.links) && StackOf(m.stacks, sid) != []
    ensures Belongs(m.smMap, LastOf(StackOf(m.stacks, sid)), sid.0) && LastOf(StackOf(m.stacks, sid)) < ID_LIMIT
  {
  }

  lemma {:induction false} PutsOk(m: Model, e: Entry, qi: nat, bytes: seq<nat>)
    requires ModelOk(m)
    requires forall i :: 0 <= i < |bytes| ==>
      bytes[i] in BytesOf(m.queues, qi) || (bytes[i] == |m.log| && e.op == OP_QUEUE)
    ensures ModelOk(Puts(Logs(m, e), qi, bytes))
  {
    hide NumbersOk;
    LogsOk(m.smMap, m.log, e, m.awaited, m.queues);
  }

  lemma {:induction false} OnQueueOk(m: Model, op: QueueOp, flags: nat, cpu: nat, smi: nat, qi: nat, tick: nat)
    requires ModelOk(m)
    ensures !OnQueue(m, op, flags, cpu, smi, qi, tick).how.Stopped? ==>
      ModelOk(OnQueue(m, op, flags, cpu, smi, qi, tick).m)
  {
    hide ModelOk, Puts, Logs, Flag;
    var bytes := BytesOf(m.queues, qi);
    match op {
      case Enqueue(count) =>
        var e := EntryOf(tick, count, smi, qi, OP_QUEUE, flags, cpu);
        PutsOk(m, e, qi, Tagged(|m.log|, count) + bytes);
        PutsOk(m, e, qi, bytes + Tagged(|m.log|, count));
      case Dequeue(removed) =>
        var e := EntryOf(tick, removed, smi, qi, OP_DEQUEUE, flags, cpu);
        PutsOk(m, e, qi, []);
        if 0 < removed <= |bytes| {
          PutsOk(m, e, qi, bytes[removed..]);
        }
      case Resize(size, reset) =>
        PutsOk(m, EntryOf(tick, 0, smi, qi, OP_SIZE_QUEUE, FL_NONE, cpu), qi, []);
        FittedOk(Emptied(m, reset, cpu, smi, qi, tick), cpu, smi, qi, size, tick);
    }
  }

  lemma {:induction false} FittedOk(m: Model, cpu: nat, smi: nat, qi: nat, size: int, tick: nat)
    requires ModelOk(m)
    ensures ModelOk(Fitted(m, cpu, smi, qi, size, tick))
  {
    hide ModelOk, Puts, Logs;
    var bytes := BytesOf(m.queues, qi);
    if |bytes| < size {
      PutsOk(m, EntryOf(tick, size - |bytes|, smi, qi, OP_QUEUE, FL_NONE, cpu), qi,
             bytes + Tagged(|m.log|, size - |bytes|));
    } else if |bytes| > size {
      PutsOk(m, EntryOf(tick, size, smi, qi, OP_SIZE_QUEUE, FL_NONE, cpu), qi, if size <= 0 then [] else bytes[..size]);
    }
  }

  /** Every call keeps a model well-formed. */
  lemma {:induction false} NextOk(m: Model, cmd: Command)
    requires ModelOk(m) && !Next(m, cmd).how.Stopped?
    ensures ModelOk(Next(m, cmd).m)
  {
    hide ModelOk, Begins, Ends, LinksTo, LinksSyscall, OnQueue, ChangesState, EntersState, Skipped, WithMachine,
         MachinesFull, Find;
    var Command(s, frame, cpu, tick, call) := cmd;
    SystemOk(m, s);
    var m1 := WithSystem(m, s);
    var sid := (Find(m1.systems, s), frame);
    match call {
      case SmBegin(sm, id, flags, st) => BeginsOk(m, s, frame, cpu, tick, sm, id, flags, st);
      case SmEnd(sm) => EndsOk(m, s, frame, cpu, tick, sm);
      case StateBegin(st, explicit, flags) =>
        if StackOf(m1.stacks, sid) != [] {
          var m2 := if explicit then m1.(expl := m1.expl[sid := true]) else m1;
          ModeOk(m1, m1.expl[sid := true]);
          ChangesStateOk(m2, LastOf(StackOf(m1.stacks, sid)), st, cpu, flags, tick);
        }
      case StateEnd(st) =>
        if StackOf(m1.stacks, sid) != [] {
          var smi := LastOf(StackOf(m1.stacks, sid));
          ModeOk(m1, m1.expl[sid := false]);
          EntersStateOk(m1.(expl := m1.expl[sid := false]), smi, NameOf(m1.smMap, smi), st, cpu, tick);
        }
      case Link(lsm, id) => LinksToOk(m, s, frame, cpu, tick, lsm, id);
      case SyscallLink(lsm) => LinksSyscallOk(m, s, frame, cpu, tick, lsm);
      case SwQueue(q, id, op) =>
        if StackOf(m1.stacks, sid) != [] {
          var m2 := if op.Resize? then m1 else m1.(expl := Automatic(m1.expl, sid));
          ModeOk(m1, Automatic(m1.expl, sid));
          var key := (sid.0, (q, id));
          WithQueueOk(m2, key);
          var m3 := WithQueue(m2, key);
          OnQueueOk(m3, op, FL_NONE, cpu, LastOf(StackOf(m1.stacks, sid)), Find(m3.qMap, key), tick);
        }
      case HwQueue(sm, q, id, owner, op, flags) =>
        SystemOk(m1, owner);
        var m2 := WithSystem(m1, owner);
        var key, mine := (Find(m2.systems, owner), (q, id)), (Find(m2.systems, s), (sm, frame));
        WithQueueOk(m2, key);
        var m3 := WithQueue(m2, key);
        if !MachinesFull(m3, mine) {
          WithMachineOk(m3, mine);
          var m4 := WithMachine(m3, mine);
          OnQueueOk(m4, op, Hardware(flags), 0, Find(m4.smMap, mine), Find(m4.qMap, key), tick);
        }
    }
  }

  lemma {:induction false} ModeOk(m: Model, expl: map<StackId, bool>)
    requires ModelOk(m)
    ensures ModelOk(m.(expl := expl))
  {
  }

  lemma {:induction false} WithQueueOk(m: Model, key: (nat, Id))
    requires ModelOk(m)
    ensures ModelOk(WithQueue(m, key))
  {
  }

  /** Every state a run can reach is well-formed. */
  lemma {:induction false} RunsOk(m: Model, cmds: seq<Command>)
    requires ModelOk(m)
    ensures ModelOk(Runs(m, cmds).m)
    decreases |cmds|
  {
    hide ModelOk, Next;
    if cmds != [] && !Next(m, cmds[0]).how.Stopped? {
      NextOk(m, cmds[0]);
      RunsOk(Next(m, cmds[0]).m, cmds[1..]);
    }
  }

  lemma {:induction false} EmptyOk()
    ensures ModelOk(EMPTY)
  {
  }

  // ----- Which queues a call changes -----

  /** The queue a call is about, if it is about one. */
  function QueueOf(m: Model, cmd: Command): nat {
    var Command(s, frame, _, _, call) := cmd;
    match call
    case SwQueue(q, id, _) =>
      var m := WithSystem(m, s);
      var key := (Find(m.systems, s), (q, id));
      Find(WithQueue(m, key).qMap, key)
    case HwQueue(_, q, id, owner, _, _) =>
      var m := WithSystem(WithSystem(m, s), owner);
      var key := (Find(m.systems, owner), (q, id));
      Find(WithQueue(m, key).qMap, key)
    case _ => 0
  }

  lemma {:induction false} PutsKeeps(m: Model, e: Entry, qi: nat, bytes: seq<nat>, x: nat)
    ensures x != qi ==> BytesOf(Puts(Logs(m, e), qi, bytes).queues, x) == BytesOf(m.queues, x)
    ensures BytesOf(Puts(Logs(m, e), qi, bytes).queues, qi) == bytes
  {
  }

  lemma {:induction false} FittedKeeps(m: Model, cpu: nat, smi: nat, qi: nat, size: int, tick: nat, x: nat)
    requires x != qi
    ensures BytesOf(Fitted(m, cpu, smi, qi, size, tick).queues, x) == BytesOf(m.queues, x)
  {
    hide BytesOf, Puts, Logs, EntryOf;
    var bytes := BytesOf(m.queues, qi);
    if |bytes| < size {
      PutsKeeps(m, EntryOf(tick, size - |bytes|, smi, qi, OP_QUEUE, FL_NONE, cpu), qi,
                bytes + Tagged(|m.log|, size - |bytes|), x);
    } else if |bytes| > size {
      PutsKeeps(m, EntryOf(tick, size, smi, qi, OP_SIZE_QUEUE, FL_NONE, cpu), qi,
                if size <= 0 then [] else bytes[..size], x);
    }
  }

  lemma {:induction false} OnQueueKeeps(m: Model, op: QueueOp, flags: nat, cpu: nat, smi: nat, qi: nat, tick: nat,
                                        x: nat)
    requires x != qi
    ensures BytesOf(OnQueue(m, op, flags, cpu, smi, qi, tick).m.queues, x) == BytesOf(m.queues, x)
  {
    hide BytesOf, Puts, Logs, EntryOf, Fitted, Flag;
    var bytes := BytesOf(m.queues, qi);
    match op {
      case Enqueue(count) =>
        var e := EntryOf(tick, count, smi, qi, OP_QUEUE, flags, cpu);
        PutsKeeps(m, e, qi, Tagged(|m.log|, count) + bytes, x);
        PutsKeeps(m, e, qi, bytes + Tagged(|m.log|, count), x);
      case Dequeue(removed) =>
        var e := EntryOf(tick, removed, smi, qi, OP_DEQUEUE, flags, cpu);
        PutsKeeps(m, e, qi, [], x);
        if 0 < removed <= |bytes| {
          PutsKeeps(m, e, qi, bytes[removed..], x);
        }
      case Resize(size, reset) =>
        PutsKeeps(m, EntryOf(tick, 0, smi, qi, OP_SIZE_QUEUE, FL_NONE, cpu), qi, [], x);
        FittedKeeps(Emptied(m, reset, cpu, smi, qi, tick), cpu, smi, qi, size, tick, x);
    }
  }

  lemma {:induction false} BeginsKeeps(m: Model, s: System, frame: nat, cpu: nat, tick: nat,
                                       sm: string, id: nat, flags: nat, st: string)
    ensures Begins(m, s, frame, cpu, tick, sm, id, flags, st).m.queues == m.queues
  {
    hide Find, MachinesFull, Places, EntersState, Caller, StackOf;
    var m1 := WithSystem(m, s);
    var sid := (Find(m1.systems, s), frame);
    var m2 := WithMachine(m1, (sid.0, (sm, id)));
    var smi := Find(m2.smMap, (sid.0, (sm, id)));
    var prev := Caller(StackOf(m2.stacks, sid), flags);
    PlacesKeeps(m2, sid, smi, prev, sm, cpu, tick);
    EntersStateKeeps(Places(m2, sid, smi, prev, sm, cpu, tick).m, smi, sm, st, cpu, tick);
  }

  lemma {:induction false} PlacesKeeps(m: Model, sid: StackId, smi: nat, prev: nat, sm: string, cpu: nat, tick: nat)
    ensures Places(m, sid, smi, prev, sm, cpu, tick).m.queues == m.queues
  {
    hide LinksBack, Pushes, Arrives, Clash;
    var linked := LinksBack(m, prev, smi, cpu, tick);
    PlacedParts(m, sid, smi, prev, cpu, tick);
    PlacedParts(linked, sid, smi, prev, cpu, tick);
    ArrivedParts(Pushes(linked, sid, smi), (sid.0, (sm, sid.1)), smi);
  }

  lemma {:induction false} PlacedParts(m: Model, sid: StackId, smi: nat, prev: nat, cpu: nat, tick: nat)
    ensures LinksBack(m, prev, smi, cpu, tick).queues == Pushes(m, sid, smi).queues == m.queues
    ensures LinksBack(m, prev, smi, cpu, tick).smMap == Pushes(m, sid, smi).smMap == m.smMap
    ensures LinksBack(m, prev, smi, cpu, tick).systems == Pushes(m, sid, smi).systems == m.systems
    ensures LinksBack(m, prev, smi, cpu, tick).stacks == m.stacks && Pushes(m, sid, smi).links == m.links
    ensures LinksBack(m, prev, smi, cpu, tick).links - {smi} == m.links - {smi}
    ensures Pushes(m, sid, smi).stacks == m.stacks[sid := StackOf(m.stacks, sid) + [smi]]
  {
    hide EntryOf, Automatic, StackOf;
  }

  lemma {:induction false} ArrivedParts(m: Model, key: (nat, Id), smi: nat)
    ensures var m' := Arrives(m, key, smi);
      && m'.queues == m.queues && m'.smMap == m.smMap && m'.systems == m.systems && m'.stacks == m.stacks
      && m'.links - {smi} == m.links - {smi}
  {
    hide Completed, Waiting;
  }

  lemma {:induction false} EntersStateKeeps(m: Model, smi: nat, kind: string, st: string, cpu: nat, tick: nat)
    ensures EntersState(m, smi, kind, st, cpu, tick).queues == m.queues
  {
    hide EntryOf;
  }

  lemma {:induction false} PopsKeeps(m: Model, sid: StackId, cpu: nat, tick: nat)
    requires StackOf(m.stacks, sid) != []
    ensures var stack, m' := StackOf(m.stacks, sid), Pops(m, sid, cpu, tick);
      && m'.queues == m.queues && m'.links == m.links - {LastOf(stack)}
      && m'.stacks == m.stacks[sid := stack[..|stack| - 1]]
  {
    hide EntryOf, StackOf, Unlinks;
    var stack := StackOf(m.stacks, sid);
    UnlinksKeeps(m.(stacks := m.stacks[sid := stack[..|stack| - 1]]), LastOf(stack), cpu, tick);
  }

  lemma {:induction false} UnlinksKeeps(m: Model, smi: nat, cpu: nat, tick: nat)
    ensures var m' := Unlinks(m, smi, cpu, tick);
      m'.queues == m.queues && m'.links == m.links - {smi} && m'.stacks == m.stacks
  {
    hide EntryOf;
  }

  lemma {:induction false} EndsKeeps(m: Model, s: System, frame: nat, cpu: nat, tick: nat, sm: string)
    ensures Ends(m, s, frame, cpu, tick, sm).m.queues == m.queues
  {
    hide Find, NameOf, Automatic, StackOf, Pops;
    var m1 := WithSystem(m, s);
    var sid := (Find(m1.systems, s), frame);
    if StackOf(m1.stacks, sid) != [] {
      PopsKeeps(m1.(expl := Automatic(m1.expl, sid)), sid, cpu, tick);
    }
  }

  lemma {:induction false} BeginsStateKeeps(m: Model, s: System, frame: nat, cpu: nat, tick: nat,
                                            st: string, explicit: bool, flags: nat)
    ensures BeginsState(m, s, frame, cpu, tick, st, explicit, flags).m.queues == m.queues
    ensures EndsState(m, s, frame, cpu, tick, st).m.queues == m.queues
  {
    hide Find, EntryOf, NameOf, StackOf, Skipped;
  }

  lemma {:induction false} LinksKeep(m: Model, s: System, frame: nat, cpu: nat, tick: nat, lsm: string, id: nat)
    ensures LinksTo(m, s, frame, cpu, tick, lsm, id).m.queues == m.queues
    ensures LinksSyscall(m, s, frame, cpu, tick, lsm).m.queues == m.queues
  {
    hide Find, EntryOf, StackOf;
  }

  lemma {:induction false} SwQueuesKeeps(m: Model, s: System, frame: nat, cpu: nat, tick: nat,
                                         q: string, id: nat, op: QueueOp, x: nat)
    requires var m1 := WithSystem(m, s); var key := (Find(m1.systems, s), (q, id));
      x != Find(WithQueue(m1, key).qMap, key)
    ensures BytesOf(SwQueues(m, s, frame, cpu, tick, q, id, op).m.queues, x) == BytesOf(m.queues, x)
  {
    hide Find, OnQueue, BytesOf, StackOf, Automatic;
    var m1 := WithSystem(m, s);
    var sid := (Find(m1.systems, s), frame);
    var m2 := if op.Resize? then m1 else m1.(expl := Automatic(m1.expl, sid));
    var key := (sid.0, (q, id));
    var m3 := WithQueue(m2, key);
    if StackOf(m1.stacks, sid) != [] {
      OnQueueKeeps(m3, op, FL_NONE, cpu, LastOf(StackOf(m1.stacks, sid)), Find(m3.qMap, key), tick, x);
    }
  }

  lemma {:induction false} HwQueuesKeeps(m: Model, s: System, frame: nat, tick: nat, sm: string, q: string, id: nat,
                                         owner: System, op: QueueOp, flags: nat, x: nat)
    requires var m1 := WithSystem(WithSystem(m, s), owner); var key := (Find(m1.systems, owner), (q, id));
      x != Find(WithQueue(m1, key).qMap, key)
    ensures BytesOf(HwQueues(m, s, frame, tick, sm, q, id, owner, op, flags).m.queues, x) == BytesOf(m.queues, x)
  {
    hide Find, OnQueue, BytesOf;
    var m1 := WithSystem(WithSystem(m, s), owner);
    var key, mine := (Find(m1.systems, owner), (q, id)), (Find(m1.systems, s), (sm, frame));
    var m2 := WithMachine(WithQueue(m1, key), mine);
    OnQueueKeeps(m2, op, Hardware(flags), 0, Find(m2.smMap, mine), Find(m2.qMap, key), tick, x);
  }

  /** A call changes the bytes of no queue but the one it names. Calls that name none change no queue. */
  lemma {:induction false} OthersKeep(m: Model, cmd: Command, x: nat)
    requires x != QueueOf(m, cmd)
    ensures BytesOf(Next(m, cmd).m.queues, x) == BytesOf(m.queues, x)
    ensures !cmd.call.SwQueue? && !cmd.call.HwQueue? ==> Next(m, cmd).m.queues == m.queues
  {
    hide Find, Begins, Ends, BeginsState, EndsState, LinksTo, LinksSyscall, SwQueues, HwQueues, BytesOf, WithSystem,
         WithQueue;
    var Command(s, frame, cpu, tick, call) := cmd;
    match call {
      case SmBegin(sm, id, flags, st) => BeginsKeeps(m, s, frame, cpu, tick, sm, id, flags, st);
      case SmEnd(sm) => EndsKeeps(m, s, frame, cpu, tick, sm);
      case StateBegin(st, explicit, flags) => BeginsStateKeeps(m, s, frame, cpu, tick, st, explicit, flags);
      case StateEnd(st) => BeginsStateKeeps(m, s, frame, cpu, tick, st, false, 0);
      case Link(lsm, id) => LinksKeep(m, s, frame, cpu, tick, lsm, id);
      case SyscallLink(lsm) => LinksKeep(m, s, frame, cpu, tick, lsm, 0);
      case SwQueue(q, id, op) => SwQueuesKeeps(m, s, frame, cpu, tick, q, id, op, x);
      case HwQueue(sm, q, id, owner, op, flags) => HwQueuesKeeps(m, s, frame, tick, sm, q, id, owner, op, flags, x);
    }
  }

  // ----- Ending what was begun -----

  lemma {:induction false} BegunParts(m: Model, s: System, frame: nat, cpu: nat, tick: nat,
                                      sm: string, id: nat, flags: nat, st: string)
    requires Begins(m, s, frame, cpu, tick, sm, id, flags, st).how.Done?
    ensures var m1 := WithSystem(m, s); var sid := (Find(m1.systems, s), frame); var key := (sid.0, (sm, id));
      var smi, m' := Find(Known(m.smMap, key), key), Begins(m, s, frame, cpu, tick, sm, id, flags, st).m;
      && m'.systems == m1.systems && m'.smMap == Known(m.smMap, key) && m'.links - {smi} == m.links - {smi}
      && m'.stacks == m.stacks[sid := StackOf(m.stacks, sid) + [smi]]
  {
    hide Find, MachinesFull, LinksBack, Pushes, Arrives, Clash, EntersState, Caller, StackOf;
    var m1 := WithSystem(m, s);
    var sid := (Find(m1.systems, s), frame);
    var m2 := WithMachine(m1, (sid.0, (sm, id)));
    var smi := Find(m2.smMap, (sid.0, (sm, id)));
    var prev := Caller(StackOf(m2.stacks, sid), flags);
    var linked := LinksBack(m2, prev, smi, cpu, tick);
    PlacedParts(m2, sid, smi, prev, cpu, tick);
    PlacedParts(linked, sid, smi, prev, cpu, tick);
    var pushed, arrives := Pushes(linked, sid, smi), (sid.0, (sm, frame));
    ArrivedParts(pushed, arrives, smi);
    EnteredParts(Arrives(pushed, arrives, smi), smi, sm, st, cpu, tick);
  }

  lemma {:induction false} EnteredParts(m: Model, smi: nat, kind: string, st: string, cpu: nat, tick: nat)
    ensures var m' := EntersState(m, smi, kind, st, cpu, tick);
      m'.smMap == m.smMap && m'.systems == m.systems && m'.stacks == m.stacks && m'.links == m.links
  {
    hide EntryOf;
  }

  /** A machine that was begun can be ended by its name, at once. The stacks are then as before, no queue has
      changed, and links are as before except the ended machine's, which has none. */
  lemma {:induction false} EndUndoesBegin(m: Model, s: System, frame: nat, cpu: nat, tick: nat,
                                          sm: string, id: nat, flags: nat, st: string, later: nat)
    requires Begins(m, s, frame, cpu, tick, sm, id, flags, st).how.Done?
    ensures var begun := Begins(m, s, frame, cpu, tick, sm, id, flags, st).m;
      var ended := Ends(begun, s, frame, cpu, later, sm);
      && ended.how.Done? && ended.m.queues == m.queues
      && (forall x :: StackOf(ended.m.stacks, x) == StackOf(m.stacks, x))
      && ended.m.links == m.links - {Find(begun.smMap, (Find(begun.systems, s), (sm, id)))}
  {
    hide Find, Begins, Automatic, Pops;
    var begun := Begins(m, s, frame, cpu, tick, sm, id, flags, st).m;
    BegunParts(m, s, frame, cpu, tick, sm, id, flags, st);
    BeginsKeeps(m, s, frame, cpu, tick, sm, id, flags, st);
    var sid := (Find(begun.systems, s), frame);
    var key := (sid.0, (sm, id));
    FindIs(begun.smMap, key);
    assert WithSystem(begun, s).systems == begun.systems;
    PopsKeeps(WithSystem(begun, s).(expl := Automatic(begun.expl, sid)), sid, cpu, later);
  }
}
