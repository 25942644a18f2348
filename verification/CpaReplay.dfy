/** The same calls on two engines in agreement: when nobody can tell them apart, and how to tell them otherwise. */
module CpaReplay {
  import opened Sequences
  import opened CpaRecords
  import opened CpaTables
  import opened CpaQueues
  import opened Cpa
  import opened CpaModel
  import opened CpaLaws
  import opened CpaAgree

  // ----- Steps -----

  /** The call starts a machine, or waits again for one, that only the first engine waits for. */
  predicate Touches(m: Model, cmd: Command, lost: Keys) {
    var sysi := Find(WithSystem(m, cmd.s).systems, cmd.s);
    match cmd.call
    case SmBegin(sm, _, _, _) => (sysi, (sm, cmd.frame)) in lost
    case SyscallLink(lsm) => (sysi, (lsm, cmd.frame)) in lost
    case _ => false
  }

  /** The call reaches a lost link: a machine can be started under it, or the running one waits for it again. */
  predicate Reaches(m: Model, cmd: Command, lost: Keys) {
    var m := WithSystem(m, cmd.s);
    var sysi := Find(m.systems, cmd.s);
    var stack := StackOf(m.stacks, (sysi, cmd.frame));
    match cmd.call
    case SmBegin(sm, id, flags, _) =>
      var key := (sysi, (sm, id));
      && (sysi, (sm, cmd.frame)) in lost && !MachinesFull(m, key)
      && (Caller(stack, flags) == 0 || At(m.links, Find(WithMachine(m, key).smMap, key)) == 0)
    case SyscallLink(lsm) => (sysi, (lsm, cmd.frame)) in lost && stack != []
    case _ => false
  }

  /** On an engine that does not wait for the lost links these are the calls about them that go through. */
  lemma {:induction false} ReachesIs(m: Model, cmd: Command, lost: Keys)
    requires forall k :: k in lost ==> k !in m.awaited
    ensures Reaches(m, cmd, lost) <==> Touches(m, cmd, lost) && Next(m, cmd).how.Done?
  {
    hide Find, LinksBack, Pushes, Arrives, EntersState, MachinesFull, StackOf, Caller, Holds, SwQueues, HwQueues, Ends,
         BeginsState, EndsState, LinksTo;
  }

  lemma {:induction false} NotAwaited(a: Model, b: Model, lost: Keys, na: nat, nb: nat)
    requires Agree(a, b, lost, na, nb)
    ensures forall k :: k in lost ==> k !in b.awaited
  {
    hide SameFields, SameLog, SameQueues, ModelOk;
  }

  /** A call that reaches no lost link ends alike on both engines and keeps them in agreement. */
  lemma {:induction false} StepAgrees(a: Model, b: Model, lost: Keys, na: nat, nb: nat, cmd: Command)
    requires Agree(a, b, lost, na, nb) && !Reaches(b, cmd, lost)
    ensures Next(a, cmd).how == Next(b, cmd).how
    ensures !Next(a, cmd).how.Stopped? ==> Agree(Next(a, cmd).m, Next(b, cmd).m, lost, na, nb)
  {
    hide Agree, Begins, Ends, BeginsState, EndsState, LinksTo, LinksSyscall, SwQueues, HwQueues, WithSystem, Find,
         Reaches;
    NotAwaited(a, b, lost, na, nb);
    ReachesIs(b, cmd, lost);
    var Command(s, frame, cpu, tick, call) := cmd;
    match call {
      case SmBegin(sm, id, flags, st) =>
        BeginsHow(b, s, frame, cpu, tick, sm, id, flags, st);
        AgreeBegins(a, b, lost, na, nb, s, frame, cpu, tick, sm, id, flags, st);
        BeginsHow(a, s, frame, cpu, tick, sm, id, flags, st);
      case SmEnd(sm) => AgreeEnds(a, b, lost, na, nb, s, frame, cpu, tick, sm);
      case StateBegin(st, explicit, flags) =>
        AgreeBeginsState(a, b, lost, na, nb, s, frame, cpu, tick, st, explicit, flags);
      case StateEnd(st) => AgreeEndsState(a, b, lost, na, nb, s, frame, cpu, tick, st);
      case Link(lsm, id) => AgreeLinksTo(a, b, lost, na, nb, s, frame, cpu, tick, lsm, id);
      case SyscallLink(lsm) => AgreeLinksSyscall(a, b, lost, na, nb, s, frame, cpu, tick, lsm);
      case SwQueue(q, id, op) => AgreeSwQueues(a, b, lost, na, nb, s, frame, cpu, tick, q, id, op);
      case HwQueue(sm, q, id, owner, op, flags) =>
        AgreeHwQueues(a, b, lost, na, nb, s, frame, tick, sm, q, id, owner, op, flags);
    }
  }

  lemma {:induction false} BeginsHow(m: Model, s: System, frame: nat, cpu: nat, tick: nat,
                                     sm: string, id: nat, flags: nat, st: string)
    ensures Begins(m, s, frame, cpu, tick, sm, id, flags, st).how in {Stopped, Done}
  {
  }

  /** A call that reaches a lost link stops the first engine, or leaves it with a link the second does not have. */
  lemma {:induction false} StepDiffers(a: Model, b: Model, lost: Keys, na: nat, nb: nat, cmd: Command)
    requires Agree(a, b, lost, na, nb) && Reaches(b, cmd, lost)
    ensures Next(a, cmd).how.Stopped? || (Next(a, cmd).how.Done? && Next(a, cmd).m.links != Next(b, cmd).m.links)
  {
    hide Agree, Begins, LinksSyscall, WithSystem, Find, Reaches;
    NotAwaited(a, b, lost, na, nb);
    ReachesIs(b, cmd, lost);
    var Command(s, frame, cpu, tick, call) := cmd;
    match call {
      case SmBegin(sm, id, flags, st) =>
        BeginsDiffers(a, b, lost, na, nb, s, frame, cpu, tick, sm, id, flags, st);
        BeginsHow(a, s, frame, cpu, tick, sm, id, flags, st);
      case SyscallLink(lsm) => LinksSyscallDiffers(a, b, lost, na, nb, s, frame, cpu, tick, lsm);
      case _ =>
    }
  }

  lemma {:induction false} LinksSyscallDiffers(a: Model, b: Model, lost: Keys, na: nat, nb: nat, s: System, frame: nat,
                                               cpu: nat, tick: nat, lsm: string)
    requires Agree(a, b, lost, na, nb)
    requires (Find(WithSystem(b, s).systems, s), (lsm, frame)) in lost
    requires LinksSyscall(b, s, frame, cpu, tick, lsm).how.Done?
    ensures LinksSyscall(a, s, frame, cpu, tick, lsm).how.Stopped?
  {
    var a1, b1, sid := AgreeFrame(a, b, lost, na, nb, s, frame);
    SameKeys(a1, b1, lost, na, nb, (sid.0, (lsm, frame)));
    hide Agree, WithSystem, Find, StackOf, EntryOf, Holds;
  }

  lemma {:induction false} PlacesDiffers(a: Model, b: Model, lost: Keys, na: nat, nb: nat, sid: StackId, smi: nat,
                                         prev: nat, sm: string, cpu: nat, tick: nat)
    requires Agree(a, b, lost, na, nb) && (sid.0, (sm, sid.1)) in lost
    requires Places(b, sid, smi, prev, sm, cpu, tick).how.Done?
    ensures Places(a, sid, smi, prev, sm, cpu, tick).how.Done? ==>
      Places(a, sid, smi, prev, sm, cpu, tick).m.links != Places(b, sid, smi, prev, sm, cpu, tick).m.links
  {
    var key := (sid.0, (sm, sid.1));
    SameKeys(a, b, lost, na, nb, key);
    SameLast(a, b, lost, na, nb);
    BothOk(a, b, lost, na, nb);
    hide Agree, BytesOk, KeysOk, NumbersOk;
    if !Clash(a.links, true, smi, prev) {
      assert prev == 0 && At(a.links, smi) == 0 && Waiting(a, key) > 0;
      assert At(Places(a, sid, smi, prev, sm, cpu, tick).m.links, smi) == Waiting(a, key);
      assert At(Places(b, sid, smi, prev, sm, cpu, tick).m.links, smi) == 0;
    }
  }

  lemma {:induction false} BeginsDiffers(a: Model, b: Model, lost: Keys, na: nat, nb: nat, s: System, frame: nat,
                                         cpu: nat, tick: nat,
                                         sm: string, id: nat, flags: nat, st: string)
    requires Agree(a, b, lost, na, nb)
    requires (Find(WithSystem(b, s).systems, s), (sm, frame)) in lost
    requires Begins(b, s, frame, cpu, tick, sm, id, flags, st).how.Done?
    ensures var begun := Begins(a, s, frame, cpu, tick, sm, id, flags, st);
      begun.how.Done? ==> begun.m.links != Begins(b, s, frame, cpu, tick, sm, id, flags, st).m.links
  {
    hide Agree, WithSystem, WithMachine, Find, MachinesFull, Places, Caller, StackOf, EntersState;
    var a1, b1, sid := AgreeFrame(a, b, lost, na, nb, s, frame);
    var key := (sid.0, (sm, id));
    AgreeMachine(a1, b1, lost, na, nb, key);
    var a2, b2 := WithMachine(a1, key), WithMachine(b1, key);
    var smi := Find(b2.smMap, key);
    if !MachinesFull(a1, key) {
      StackBounds(a2, b2, lost, na, nb, sid);
      var prev := Caller(StackOf(a2.stacks, sid), flags);
      PlacesHow(a2, sid, smi, prev, sm, cpu, tick);
      PlacesHow(b2, sid, smi, prev, sm, cpu, tick);
      PlacesDiffers(a2, b2, lost, na, nb, sid, smi, prev, sm, cpu, tick);
      EntersStateLinks(Places(a2, sid, smi, prev, sm, cpu, tick).m, smi, sm, st, cpu, tick);
      EntersStateLinks(Places(b2, sid, smi, prev, sm, cpu, tick).m, smi, sm, st, cpu, tick);
    }
  }

  lemma {:induction false} PlacesHow(m: Model, sid: StackId, smi: nat, prev: nat, sm: string, cpu: nat, tick: nat)
    ensures Places(m, sid, smi, prev, sm, cpu, tick).how in {Stopped, Done}
  {
    hide LinksBack, Pushes, Arrives, Clash;
  }

  lemma {:induction false} EntersStateLinks(m: Model, smi: nat, kind: string, st: string, cpu: nat, tick: nat)
    ensures EntersState(m, smi, kind, st, cpu, tick).links == m.links
    ensures EntersState(m, smi, kind, st, cpu, tick).stacks == m.stacks
    ensures EntersState(m, smi, kind, st, cpu, tick).smMap == m.smMap
  {
  }

  // ----- Runs -----

  /** No call of the run reaches a lost link. */
  predicate Clear(m: Model, cmds: seq<Command>, lost: Keys)
    decreases |cmds|
  {
    cmds == [] ||
    (!Reaches(m, cmds[0], lost) && (Next(m, cmds[0]).how.Stopped? || Clear(Next(m, cmds[0]).m, cmds[1..], lost)))
  }

  /** Every call of the run ends the same way on both engines and leaves them with the same links. */
  predicate Alike(a: Model, b: Model, cmds: seq<Command>)
    decreases |cmds|
  {
    cmds == [] ||
    (var na, nb := Next(a, cmds[0]), Next(b, cmds[0]);
    && na.how == nb.how
    && (na.how.Stopped? || (na.m.links == nb.m.links && Alike(na.m, nb.m, cmds[1..]))))
  }

  /** What a caller sees: every call ends the same way on both engines, and the records logged after each are the
      same. */
  ghost predicate Seen(a: Model, b: Model, cmds: seq<Command>, na: nat, nb: nat)
    decreases |cmds|
  {
    cmds == [] ||
    (var ea, eb := Next(a, cmds[0]), Next(b, cmds[0]);
    && ea.how == eb.how
    && (ea.how.Stopped? || (SameLog(ea.m.log, eb.m.log, na, nb) && Seen(ea.m, eb.m, cmds[1..], na, nb))))
  }

  /** Engines in agreement stay alike over a run exactly when no call reaches a lost link, and then they end in
      agreement: the same numbers, stacks, links and queue bytes, and the same records logged. */
  lemma {:induction false} RunsAgree(a: Model, b: Model, lost: Keys, na: nat, nb: nat, cmds: seq<Command>)
    requires Agree(a, b, lost, na, nb)
    ensures Alike(a, b, cmds) <==> Clear(b, cmds, lost)
    ensures Clear(b, cmds, lost) ==> Seen(a, b, cmds, na, nb) && Runs(a, cmds).ran == Runs(b, cmds).ran
    ensures Clear(b, cmds, lost) ==> Agree(Runs(a, cmds).m, Runs(b, cmds).m, lost, na, nb)
    decreases |cmds|
  {
    hide Agree, Next, Reaches, SameLog;
    if cmds != [] {
      if Reaches(b, cmds[0], lost) {
        StepDiffers(a, b, lost, na, nb, cmds[0]);
        NotAwaited(a, b, lost, na, nb);
        ReachesIs(b, cmds[0], lost);
      } else {
        StepAgrees(a, b, lost, na, nb, cmds[0]);
        if !Next(a, cmds[0]).how.Stopped? {
          SameLast(Next(a, cmds[0]).m, Next(b, cmds[0]).m, lost, na, nb);
          AgreeLog(Next(a, cmds[0]).m, Next(b, cmds[0]).m, lost, na, nb);
          RunsAgree(Next(a, cmds[0]).m, Next(b, cmds[0]).m, lost, na, nb, cmds[1..]);
        }
      }
    }
  }

  lemma {:induction false} AgreeLog(a: Model, b: Model, lost: Keys, na: nat, nb: nat)
    requires Agree(a, b, lost, na, nb)
    ensures SameLog(a.log, b.log, na, nb)
  {
    hide SameFields, SameAwaited, SameQueues, ModelOk, SameLog;
  }

  lemma {:induction false} NothingLostClear(m: Model, cmds: seq<Command>)
    ensures Clear(m, cmds, {})
    decreases |cmds|
  {
    hide Next;
    if cmds != [] && !Next(m, cmds[0]).how.Stopped? {
      NothingLostClear(Next(m, cmds[0]).m, cmds[1..]);
    }
  }

  // ----- Lost links can be told -----

  /** Starting a known machine that is not asked to link back. */
  lemma {:induction false} StartsKnown(m: Model, s: System, frame: nat, sm: string, id: nat)
    requires s in m.systems && (Find(m.systems, s), (sm, id)) in m.smMap
    ensures var sysi := Find(m.systems, s); var smi := Find(m.smMap, (sysi, (sm, id)));
      var key, e := (sysi, (sm, frame)), Begins(m, s, frame, 0, 0, sm, id, FL_NONE, "");
      && (e.how.Done? <==> !(key in m.awaited && At(m.links, smi) != 0))
      && (e.how.Done? ==>
        && e.m.systems == m.systems && e.m.smMap == m.smMap && e.m.awaited == m.awaited - {key} && |e.m.log| == |m.log|
        && StackOf(e.m.stacks, (sysi, frame)) == StackOf(m.stacks, (sysi, frame)) + [smi]
        && At(e.m.links, smi) == if key in m.awaited then Waiting(m, key) else At(m.links, smi))
  {
    assert !Flag(FL_NONE, FL_LINK);
    hide Find, Flag, Places, StackOf, Waiting;
    var sysi := Find(m.systems, s);
    assert WithSystem(m, s) == m && WithMachine(m, (sysi, (sm, id))) == m;
    PlacedAlone(m, (sysi, frame), Find(m.smMap, (sysi, (sm, id))), sm);
  }

  lemma {:induction false} PlacedAlone(m: Model, sid: StackId, smi: nat, sm: string)
    ensures var key, e := (sid.0, (sm, sid.1)), Places(m, sid, smi, 0, sm, 0, 0);
      && e.how == (if key in m.awaited && At(m.links, smi) != 0 then Stopped else Done)
      && (e.how.Done? ==>
        && e.m.systems == m.systems && e.m.smMap == m.smMap && e.m.awaited == m.awaited - {key} && |e.m.log| == |m.log|
        && StackOf(e.m.stacks, sid) == StackOf(m.stacks, sid) + [smi]
        && At(e.m.links, smi) == if key in m.awaited then Waiting(m, key) else At(m.links, smi))
  {
    hide Automatic;
  }

  lemma {:induction false} EndsTop(m: Model, s: System, frame: nat, sm: string)
    requires s in m.systems
    requires var stack := StackOf(m.stacks, (Find(m.systems, s), frame));
      stack != [] && NameOf(m.smMap, LastOf(stack)) == sm
    ensures var stack := StackOf(m.stacks, (Find(m.systems, s), frame));
      var e := Ends(m, s, frame, 0, 0, sm);
      && e.how.Done?
      && |e.m.log| == |m.log| + (if At(m.links, LastOf(stack)) == 0 then 0 else 1) + (if |stack| == 1 then 0 else 1)
  {
    hide EntryOf, Find;
  }

  /** The machine that waits for `key`. */
  lemma {:induction false} Waits(m: Model, key: (nat, Id))
    requires ModelOk(m) && key in m.awaited
    ensures 1 <= key.0 <= |m.systems| && m.awaited[key] < |m.log| && Waiting(m, key) > 0
    ensures Belongs(m.smMap, m.log[m.awaited[key]].sm, key.0)
  {
    hide BytesOk, NumbersOk;
  }

  lemma {:induction false} SystemIs(m: Model, sysi: nat)
    requires ModelOk(m) && 1 <= sysi <= |m.systems|
    ensures Find(m.systems, m.systems[sysi - 1]) == sysi
  {
    hide BytesOk, NumbersOk, AwaitedOk;
    FindAt(m.systems, sysi - 1);
  }

  /** Start the machine that waits for `key` once more in the frame it waited in. If a lost link waits for that one, end
      it again; otherwise let it wait for `key` again. */
  function Probing(m: Model, key: (nat, Id), lost: Keys): seq<Command>
    requires 1 <= key.0 <= |m.systems| && key in m.awaited && m.awaited[key] < |m.log|
    requires 1 <= m.log[m.awaited[key]].sm <= |m.smMap|
  {
    var s, frame, machine := m.systems[key.0 - 1], key.1.1, m.smMap[m.log[m.awaited[key]].sm - 1].1;
    [Command(s, frame, 0, 0, SmBegin(machine.0, machine.1, FL_NONE, "")),
     Command(s, frame, 0, 0, if (key.0, (machine.0, frame)) in lost then SmEnd(machine.0) else SyscallLink(key.1.0))]
  }

  /** A run of two calls is seen to differ if the first or the second is. */
  lemma {:induction false} SeenTwo(a: Model, b: Model, first: Command, second: Command, na: nat, nb: nat)
    requires Seen(a, b, [first, second], na, nb)
    ensures Next(a, first).how == Next(b, first).how
    ensures !Next(a, first).how.Stopped? ==>
      var ea, eb := Next(Next(a, first).m, second), Next(Next(b, first).m, second);
      ea.how == eb.how && (!ea.how.Stopped? ==> SameLog(ea.m.log, eb.m.log, na, nb))
  {
    hide Next, SameLog;
    assert [first, second][1..] == [second];
    assert !Next(a, first).how.Stopped? ==> Seen(Next(a, first).m, Next(b, first).m, [second], na, nb);
  }

  /** The machine itself is awaited by a lost link: starting and ending it logs one record more on the first engine. */
  lemma {:induction false} SeenByEnding(a: Model, b: Model, lost: Keys, na: nat, nb: nat, s: System, frame: nat,
                                        sm: string, id: nat)
    requires Agree(a, b, lost, na, nb) && s in a.systems && (Find(a.systems, s), (sm, id)) in a.smMap
    requires (Find(a.systems, s), (sm, frame)) in lost
    ensures !Seen(a, b, [Command(s, frame, 0, 0, SmBegin(sm, id, FL_NONE, "")), Command(s, frame, 0, 0, SmEnd(sm))],
                  na, nb)
  {
    hide Agree, Begins, Ends, StackOf, Find, Seen, Waiting, NameOf, ModelOk, SameLog, Next;
    var sysi := Find(a.systems, s);
    var key, machine := (sysi, (sm, frame)), (sysi, (sm, id));
    var first, second := Command(s, frame, 0, 0, SmBegin(sm, id, FL_NONE, "")), Command(s, frame, 0, 0, SmEnd(sm));
    SameKeys(a, b, lost, na, nb, key);
    SameLast(a, b, lost, na, nb);
    BothOk(a, b, lost, na, nb);
    StackBounds(a, b, lost, na, nb, (sysi, frame));
    SameLengths(a, b, lost, na, nb);
    Waits(a, key);
    StartsKnown(a, s, frame, sm, id);
    StartsKnown(b, s, frame, sm, id);
    NextIs(a, s, frame, sm, id);
    NextIs(b, s, frame, sm, id);
    var a1, b1 := Next(a, first).m, Next(b, first).m;
    if Seen(a, b, [first, second], na, nb) {
      SeenTwo(a, b, first, second, na, nb);
      NameFound(a.smMap, machine);
      EndsTop(a1, s, frame, sm);
      EndsTop(b1, s, frame, sm);
      NextIs(a1, s, frame, sm, id);
      NextIs(b1, s, frame, sm, id);
      SameLogLengths(Next(a1, second).m.log, Next(b1, second).m.log, na, nb);
      assert false;
    }
  }

  lemma {:induction false} NextIs(m: Model, s: System, frame: nat, sm: string, id: nat)
    ensures Next(m, Command(s, frame, 0, 0, SmBegin(sm, id, FL_NONE, ""))) ==
      Begins(m, s, frame, 0, 0, sm, id, FL_NONE, "")
    ensures Next(m, Command(s, frame, 0, 0, SmEnd(sm))) == Ends(m, s, frame, 0, 0, sm)
    ensures Next(m, Command(s, frame, 0, 0, SyscallLink(sm))) == LinksSyscall(m, s, frame, 0, 0, sm)
  {
    hide Begins, Ends, LinksSyscall;
  }

  lemma {:induction false} NameFound(table: IdMap, key: (nat, Id))
    requires key in table
    ensures NameOf(table, Find(table, key)) == key.1.0
  {
    FindIs(table, key);
  }

  /** The machine is not: it starts alike on both engines, and then waiting for the lost link again stops the first. */
  lemma {:induction false} SeenByWaiting(a: Model, b: Model, lost: Keys, na: nat, nb: nat, s: System, frame: nat,
                                         sm: string, id: nat, lsm: string)
    requires Agree(a, b, lost, na, nb) && b.awaited == map[]
    requires s in a.systems && (Find(a.systems, s), (sm, id)) in a.smMap
    requires (Find(a.systems, s), (sm, frame)) !in lost && (Find(a.systems, s), (lsm, frame)) in lost
    ensures !Seen(a, b, [Command(s, frame, 0, 0, SmBegin(sm, id, FL_NONE, "")),
                         Command(s, frame, 0, 0, SyscallLink(lsm))], na, nb)
  {
    var first := Command(s, frame, 0, 0, SmBegin(sm, id, FL_NONE, ""));
    var second := Command(s, frame, 0, 0, SyscallLink(lsm));
    var sysi := Find(a.systems, s);
    SameLast(a, b, lost, na, nb);
    assert !Touches(b, first, lost);
    hide Agree, Begins, LinksSyscall, StackOf, Find, Seen, Next, Touches;
    NotAwaited(a, b, lost, na, nb);
    ReachesIs(b, first, lost);
    hide Reaches;
    StepAgrees(a, b, lost, na, nb, first);
    StartsKnown(b, s, frame, sm, id);
    NextIs(b, s, frame, sm, id);
    var a1, b1 := Next(a, first).m, Next(b, first).m;
    NextIs(a1, s, frame, lsm, id);
    NextIs(b1, s, frame, lsm, id);
    StillWaits(a1, b1, lost, na, nb, s, frame, lsm);
    if Seen(a, b, [first, second], na, nb) {
      SeenTwo(a, b, first, second, na, nb);
    }
  }

  lemma {:induction false} StillWaits(a: Model, b: Model, lost: Keys, na: nat, nb: nat, s: System, frame: nat,
                                      lsm: string)
    requires Agree(a, b, lost, na, nb) && s in b.systems
    requires StackOf(b.stacks, (Find(b.systems, s), frame)) != [] && (Find(b.systems, s), (lsm, frame)) in lost
    ensures LinksSyscall(a, s, frame, 0, 0, lsm).how == Stopped && LinksSyscall(b, s, frame, 0, 0, lsm).how == Done
  {
    var key := (Find(b.systems, s), (lsm, frame));
    SameKeys(a, b, lost, na, nb, key);
    SameLast(a, b, lost, na, nb);
    StackBounds(a, b, lost, na, nb, (Find(b.systems, s), frame));
    hide Agree, Find, EntryOf, StackOf;
  }

  lemma {:induction false} SameLogLengths(a: seq<Entry>, b: seq<Entry>, na: nat, nb: nat)
    requires SameLog(a, b, na, nb)
    ensures |a| - na == |b| - nb
  {
    assert |a[na..]| == |b[nb..]|;
  }

  lemma {:induction false} SameLengths(a: Model, b: Model, lost: Keys, na: nat, nb: nat)
    requires Agree(a, b, lost, na, nb)
    ensures |a.log| - na == |b.log| - nb
  {
    hide SameFields, SameAwaited, SameQueues, ModelOk, SameLog;
    SameLogLengths(a.log, b.log, na, nb);
  }

  /** For every lost link there is a run on which a caller sees the difference. */
  lemma {:induction false} LostLinkShows(a: Model, b: Model, lost: Keys, na: nat, nb: nat, key: (nat, Id))
    requires Agree(a, b, lost, na, nb) && b.awaited == map[] && key in lost
    ensures key in a.awaited && 1 <= key.0 <= |a.systems| && a.awaited[key] < |a.log|
    ensures 1 <= a.log[a.awaited[key]].sm <= |a.smMap|
    ensures !Seen(a, b, Probing(a, key, lost), na, nb)
  {
    hide Agree, ModelOk, Seen;
    SameKeys(a, b, lost, na, nb, key);
    BothOk(a, b, lost, na, nb);
    Waits(a, key);
    SystemIs(a, key.0);
    var s, frame, machine := a.systems[key.0 - 1], key.1.1, a.smMap[a.log[a.awaited[key]].sm - 1];
    assert machine == (key.0, (machine.1.0, machine.1.1));
    if (key.0, (machine.1.0, frame)) in lost {
      SeenByEnding(a, b, lost, na, nb, s, frame, machine.1.0, machine.1.1);
    } else {
      SeenByWaiting(a, b, lost, na, nb, s, frame, machine.1.0, machine.1.1, key.1.0);
    }
  }

  /** Engines in agreement, the second one waiting for nothing, cannot be told apart by any run exactly when no link was
      lost, and then they have the same links as well. */
  lemma {:induction false} AlikeWhenNothingLost(a: Model, b: Model, lost: Keys, na: nat, nb: nat)
    requires Agree(a, b, lost, na, nb) && b.awaited == map[]
    ensures (forall cmds :: Seen(a, b, cmds, na, nb)) <==> lost == {}
    ensures (forall cmds :: Alike(a, b, cmds)) <==> lost == {}
  {
    hide Agree, Alike, Clear, Runs, Next, Seen, Probing;
    forall cmds ensures lost == {} ==> Alike(a, b, cmds) && Seen(a, b, cmds, na, nb) {
      RunsAgree(a, b, lost, na, nb, cmds);
      NothingLostClear(b, cmds);
    }
    if lost != {} {
      var key :| key in lost;
      LostLinkShows(a, b, lost, na, nb, key);
      RunsAgree(a, b, lost, na, nb, Probing(a, key, lost));
      assert !Seen(a, b, Probing(a, key, lost), na, nb) && !Alike(a, b, Probing(a, key, lost));
    }
  }

  // ----- Engines that wait -----

  /** Two calls on a new engine after which it waits for a link. */
  lemma {:induction false} WaitingIsReached(s: System, frame: nat)
    ensures var r := Runs(EMPTY, [Command(s, frame, 0, 0, SmBegin("a", 0, FL_NONE, "")),
                                  Command(s, frame, 0, 0, SyscallLink("b"))]);
      r.ran == 2 && r.m.awaited == map[(1, ("b", frame)) := 0]
  {
    var first := Command(s, frame, 0, 0, SmBegin("a", 0, FL_NONE, ""));
    var second := Command(s, frame, 0, 0, SyscallLink("b"));
    FirstStarts(s, frame);
    NextIs(EMPTY, s, frame, "a", 0);
    hide Next, Begins, Runs;
    var m := Next(EMPTY, first).m;
    FirstWaits(m, s, frame);
    RunsTwo(EMPTY, first, second);
  }

  lemma {:induction false} FirstStarts(s: System, frame: nat)
    ensures var e := Begins(EMPTY, s, frame, 0, 0, "a", 0, FL_NONE, "");
      && e.how.Done? && e.m.systems == [s] && e.m.awaited == map[] && e.m.log == []
      && StackOf(e.m.stacks, (1, frame)) == [1]
  {
    assert !Flag(FL_NONE, FL_LINK);
    assert [s][..0] == [] && Find([s], s) == 1;
    assert Find([(1, ("a", 0))], (1, ("a", 0))) == 1;
    hide Find, Flag;
  }

  lemma {:induction false} FirstWaits(m: Model, s: System, frame: nat)
    requires m.systems == [s] && m.awaited == map[] && m.log == [] && StackOf(m.stacks, (1, frame)) == [1]
    ensures var e := Next(m, Command(s, frame, 0, 0, SyscallLink("b")));
      e.how.Done? && e.m.awaited == map[(1, ("b", frame)) := 0]
  {
    assert Find([s], s) == 1;
    hide Find, EntryOf;
  }

  lemma {:induction false} RunsTwo(m: Model, first: Command, second: Command)
    requires Next(m, first).how.Done? && Next(Next(m, first).m, second).how.Done?
    ensures Runs(m, [first, second]) == Trace(2, Next(Next(m, first).m, second).m)
  {
    hide Next;
    var m' := Next(m, first).m;
    assert [first, second][1..] == [second] && [second][1..] == [];
    assert Runs(m', [second]) == Trace(1, Next(m', second).m);
  }
}
