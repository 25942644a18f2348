/** What the records of a call say, and what a reader of the log can tell from it alone. */
module CpaLog {
  import opened Sequences
  import opened CpaRecords
  import opened CpaTables
  import opened CpaQueues
  import opened Cpa
  import opened CpaModel
  import opened CpaLaws

  /** A record, by the fields that name things. */
  predicate Says(e: Entry, op: nat, sm: nat, stq: nat) {
    e.op == op && e.sm == sm && e.stq == stq
  }

  lemma {:induction false} EntrySays(tick: nat, data: int, sm: nat, stq: nat, op: nat, flag: nat, cpu: nat)
    requires sm < ID_LIMIT && op < 0x100
    ensures Says(EntryOf(tick, data, sm, stq, op, flag, cpu), op, sm, stq % 0x1_0000)
    ensures var e := EntryOf(tick, data, sm, stq, op, flag, cpu);
      && (0 <= data < 0x1_0000_0000 ==> e.data == data) && (-0x8000_0000 <= data < 0 ==> e.data == data + 0x1_0000_0000)
      && (flag < 0x100 ==> e.flag == flag) && (cpu < 0x100 ==> e.cpu == cpu)
      && (tick < 0x1_0000_0000_0000_0000 ==> e.time == tick)
  {
  }

  // ----- Links -----

  /** A machine begun with the link flag is linked back to the machine on top of the stack, and the log says so. */
  lemma {:induction false} BegunLink(m: Model, s: System, frame: nat, cpu: nat, tick: nat,
                                     sm: string, id: nat, flags: nat, st: string, sid: StackId)
    requires ModelOk(m) && Begins(m, s, frame, cpu, tick, sm, id, flags, st).how.Done?
    requires flags / 0x10 % 2 == 1 && sid == (Find(WithSystem(m, s).systems, s), frame) && StackOf(m.stacks, sid) != []
    ensures var m' := Begins(m, s, frame, cpu, tick, sm, id, flags, st).m;
      var stack, smi := StackOf(m.stacks, sid), Find(m'.smMap, (sid.0, (sm, id)));
      var top := stack[|stack| - 1];
      && At(m'.links, smi) == top && m.log <= m'.log
      && |m'.log| > |m.log| && Says(m'.log[|m.log|], OP_LINK, top, smi)
  {
    OnStacks(m, sid);
    BegunParts(m, s, frame, cpu, tick, sm, id, flags, st);
    BeginsOk(m, s, frame, cpu, tick, sm, id, flags, st);
    hide Find, MachinesFull, ModelOk, Places, EntersState, LinksBack, Says;
    var m1 := WithSystem(m, s);
    var key := (sid.0, (sm, id));
    var m2 := WithMachine(m1, key);
    var smi, top := Find(m2.smMap, key), LastOf(StackOf(m.stacks, sid));
    SmallNumber(m, s, frame, cpu, tick, sm, id, flags, st, key);
    LinksBackLog(m2, top, smi, cpu, tick);
    PlacedLinking(m2, sid, smi, top, sm, cpu, tick);
    EntersMore(Places(m2, sid, smi, top, sm, cpu, tick).m, smi, sm, st, cpu, tick);
  }

  lemma {:induction false} PlacedLinking(m: Model, sid: StackId, smi: nat, prev: nat, sm: string, cpu: nat, tick: nat)
    requires prev != 0
    ensures var e, m1 := Places(m, sid, smi, prev, sm, cpu, tick), LinksBack(m, prev, smi, cpu, tick);
      !e.how.Stopped? ==> e.m.log == m1.log && e.m.links == m1.links
  {
    hide EntryOf, Automatic, StackOf, At;
  }

  lemma {:induction false} SmallNumber(m: Model, s: System, frame: nat, cpu: nat, tick: nat,
                                       sm: string, id: nat, flags: nat, st: string, key: (nat, Id))
    requires ModelOk(m) && Begins(m, s, frame, cpu, tick, sm, id, flags, st).how.Done?
    ensures Find(Begins(m, s, frame, cpu, tick, sm, id, flags, st).m.smMap, key) < ID_LIMIT
  {
    hide Begins;
    BeginsOk(m, s, frame, cpu, tick, sm, id, flags, st);
    FindIs(Begins(m, s, frame, cpu, tick, sm, id, flags, st).m.smMap, key);
  }

  lemma {:induction false} EntersMore(m: Model, smi: nat, kind: string, st: string, cpu: nat, tick: nat)
    ensures var m' := EntersState(m, smi, kind, st, cpu, tick); m.log <= m'.log && m'.links == m.links
  {
    hide EntryOf;
  }

  /** Beginning `a` and then, on the same frame and with the link flag, `b` links `b` back to `a`. */
  lemma {:induction false} LinkedToCaller(m: Model, s: System, frame: nat, cpu: nat, tick: nat, later: nat,
                                          a: string, ida: nat, fa: nat, sta: string,
                                          b: string, idb: nat, fb: nat, stb: string)
    requires ModelOk(m) && fb / 0x10 % 2 == 1
    requires Begins(m, s, frame, cpu, tick, a, ida, fa, sta).how.Done?
    requires Begins(Begins(m, s, frame, cpu, tick, a, ida, fa, sta).m, s, frame, cpu, later, b, idb, fb, stb).how.Done?
    ensures var m1 := Begins(m, s, frame, cpu, tick, a, ida, fa, sta).m;
      var m2 := Begins(m1, s, frame, cpu, later, b, idb, fb, stb).m;
      var sysi := Find(m1.systems, s);
      var na, nb := Find(m1.smMap, (sysi, (a, ida))), Find(m2.smMap, (sysi, (b, idb)));
      && na != 0 && nb != 0 && At(m2.links, nb) == na
      && |m2.log| > |m1.log| && Says(m2.log[|m1.log|], OP_LINK, na, nb)
  {
    hide Begins, Find, ModelOk;
    BeginsOk(m, s, frame, cpu, tick, a, ida, fa, sta);
    BegunParts(m, s, frame, cpu, tick, a, ida, fa, sta);
    var m1 := Begins(m, s, frame, cpu, tick, a, ida, fa, sta).m;
    var m2 := Begins(m1, s, frame, cpu, later, b, idb, fb, stb).m;
    var sid := (Find(m1.systems, s), frame);
    assert WithSystem(m1, s).systems == m1.systems;
    BegunParts(m1, s, frame, cpu, later, b, idb, fb, stb);
    BegunLink(m1, s, frame, cpu, later, b, idb, fb, stb, sid);
    FindIs(m1.smMap, (sid.0, (a, ida)));
    FindIs(m2.smMap, (sid.0, (b, idb)));
  }

  /** A link called for leads back to the machine on top of the stack. */
  lemma {:induction false} LinkedLog(m: Model, s: System, frame: nat, cpu: nat, tick: nat, lsm: string, id: nat,
                                     sid: StackId)
    requires ModelOk(m) && LinksTo(m, s, frame, cpu, tick, lsm, id).how.Done?
    requires sid == (Find(WithSystem(m, s).systems, s), frame)
    ensures var m' := LinksTo(m, s, frame, cpu, tick, lsm, id).m;
      var stack, smi := StackOf(m.stacks, sid), Find(m'.smMap, (sid.0, (lsm, id)));
      && stack != [] && smi != 0 && At(m.links, smi) == 0
      && var top := stack[|stack| - 1];
         && m'.links == m.links[smi := top] && |m'.log| == |m.log| + 1 && m.log <= m'.log
         && Says(m'.log[|m.log|], OP_LINK, top, smi)
  {
    OnStacks(m, sid);
    SystemOk(m, s);
    var m1, key := WithSystem(m, s), (sid.0, (lsm, id));
    var m2 := WithMachine(m1, key);
    WithMachineOk(m1, key);
    FindIs(m2.smMap, key);
    assert |m2.smMap| < ID_LIMIT;
    hide Find, MachinesFull, ModelOk, Says, LinksBack;
    LinksBackLog(m2, LastOf(StackOf(m.stacks, sid)), Find(m2.smMap, key), cpu, tick);
  }

  lemma {:induction false} LinksBackLog(m: Model, prev: nat, smi: nat, cpu: nat, tick: nat)
    requires 0 < prev < ID_LIMIT && smi < ID_LIMIT
    ensures var m' := LinksBack(m, prev, smi, cpu, tick);
      && m'.links == m.links[smi := prev] && |m'.log| == |m.log| + 1 && m.log <= m'.log
      && Says(m'.log[|m.log|], OP_LINK, prev, smi) && m'.smMap == m.smMap
  {
    hide EntryOf, Says;
    EntrySays(tick, 0, prev, smi, OP_LINK, FL_NONE, cpu);
  }

  /** A link to a machine not known yet is logged without its target and held under the machine's name and frame. */
  lemma {:induction false} HeldLog(m: Model, s: System, frame: nat, cpu: nat, tick: nat, lsm: string, sid: StackId)
    requires ModelOk(m) && LinksSyscall(m, s, frame, cpu, tick, lsm).how.Done?
    requires sid == (Find(WithSystem(m, s).systems, s), frame)
    ensures var m', key := LinksSyscall(m, s, frame, cpu, tick, lsm).m, (sid.0, (lsm, frame));
      var stack := StackOf(m.stacks, sid);
      && stack != [] && key !in m.awaited && m'.awaited == m.awaited[key := |m.log|] && m'.links == m.links
      && |m'.log| == |m.log| + 1 && m.log <= m'.log
      && Says(m'.log[|m.log|], OP_LINK, stack[|stack| - 1], UNKNOWN)
  {
    OnStacks(m, sid);
    hide Find, EntryOf;
    EntrySays(tick, 0, LastOf(StackOf(m.stacks, sid)), UNKNOWN, OP_LINK, FL_NONE, cpu);
  }

  /** When the machine it waits for is begun, a held link is completed in place: it then leads to that machine, which is
      linked back to the one that waited. */
  lemma {:induction false} HeldLinkArrives(m: Model, s: System, frame: nat, cpu: nat, tick: nat,
                                           sm: string, id: nat, flags: nat, st: string, sysi: nat)
    requires ModelOk(m) && Begins(m, s, frame, cpu, tick, sm, id, flags, st).how.Done?
    requires sysi == Find(WithSystem(m, s).systems, s) && (sysi, (sm, frame)) in m.awaited
    ensures var m', key := Begins(m, s, frame, cpu, tick, sm, id, flags, st).m, (sysi, (sm, frame));
      var smi, i := Find(m'.smMap, (sysi, (sm, id))), m.awaited[key];
      && key !in m'.awaited && i < |m.log| <= |m'.log| && At(m'.links, smi) == m.log[i].sm
      && Says(m'.log[i], OP_LINK, m.log[i].sm, smi)
      && (forall k :: 0 <= k < |m.log| && k != i ==> m'.log[k] == m.log[k])
  {
    SmallNumber(m, s, frame, cpu, tick, sm, id, flags, st, (sysi, (sm, id)));
    BegunParts(m, s, frame, cpu, tick, sm, id, flags, st);
    hide Find, EntryOf, MachinesFull, Caller, Pushes, Arrives, Places, EntersState, LinksBack, Clash, Says;
    var m2 := WithMachine(WithSystem(m, s), (sysi, (sm, id)));
    var smi, sid, key := Find(m2.smMap, (sysi, (sm, id))), (sysi, frame), (sysi, (sm, frame));
    var prev := Caller(StackOf(m2.stacks, sid), flags);
    PlacedWaiting(m2, sid, smi, prev, sm, cpu, tick);
    ArrivedLog(Pushes(m2, sid, smi), key, smi);
    EntersMore(Arrives(Pushes(m2, sid, smi), key, smi), smi, sm, st, cpu, tick);
    EntersSame(Arrives(Pushes(m2, sid, smi), key, smi), smi, sm, st, cpu, tick);
  }

  lemma {:induction false} PlacedWaiting(m: Model, sid: StackId, smi: nat, prev: nat, sm: string, cpu: nat, tick: nat)
    requires (sid.0, (sm, sid.1)) in m.awaited && Places(m, sid, smi, prev, sm, cpu, tick).how.Done?
    ensures Places(m, sid, smi, prev, sm, cpu, tick).m == Arrives(Pushes(m, sid, smi), (sid.0, (sm, sid.1)), smi)
    ensures Pushes(m, sid, smi).log == m.log && Pushes(m, sid, smi).awaited == m.awaited
  {
    hide Arrives, EntryOf;
  }

  lemma {:induction false} ArrivedLog(m: Model, key: (nat, Id), smi: nat)
    requires key in m.awaited && m.awaited[key] < |m.log| && smi < ID_LIMIT && m.log[m.awaited[key]].op == OP_LINK
    ensures var m', i := Arrives(m, key, smi), m.awaited[key];
      && key !in m'.awaited && |m'.log| == |m.log| && At(m'.links, smi) == m.log[i].sm
      && Says(m'.log[i], OP_LINK, m.log[i].sm, smi)
      && (forall k :: 0 <= k < |m.log| && k != i ==> m'.log[k] == m.log[k])
  {
  }

  lemma {:induction false} EntersSame(m: Model, smi: nat, kind: string, st: string, cpu: nat, tick: nat)
    ensures var m' := EntersState(m, smi, kind, st, cpu, tick); m'.awaited == m.awaited && m'.expl == m.expl
  {
    hide EntryOf;
  }

  // ----- Ending machines -----

  /** The end of a machine logs where its link led, if it had one, and its last state, if others are on the stack. */
  lemma {:induction false} EndedLog(m: Model, s: System, frame: nat, cpu: nat, tick: nat, sm: string, sid: StackId)
    requires ModelOk(m) && Ends(m, s, frame, cpu, tick, sm).how.Done?
    requires sid == (Find(WithSystem(m, s).systems, s), frame)
    ensures var m', stack := Ends(m, s, frame, cpu, tick, sm).m, StackOf(m.stacks, sid);
      && stack != [] && m.log <= m'.log
      && var smi := stack[|stack| - 1];
         var linked, others := At(m.links, smi) != 0, |stack| > 1;
         && NameOf(m.smMap, smi) == sm && StackOf(m'.stacks, sid) == stack[..|stack| - 1] && At(m'.links, smi) == 0
         && |m'.log| == |m.log| + (if linked then 1 else 0) + (if others then 1 else 0)
         && (linked ==> Says(m'.log[|m.log|], OP_LINK, smi, At(m.links, smi) % 0x1_0000))
         && (others ==> Says(m'.log[|m'.log| - 1], OP_BEGIN, smi, At(m.last, smi) % 0x1_0000))
  {
    OnStacks(m, sid);
    hide Find, Automatic, Pops, Says, ModelOk, NameOf;
    PopsLog(WithSystem(m, s).(expl := Automatic(m.expl, sid)), sid, cpu, tick);
  }

  lemma {:induction false} PopsLog(m: Model, sid: StackId, cpu: nat, tick: nat)
    requires StackOf(m.stacks, sid) != [] && LastOf(StackOf(m.stacks, sid)) < ID_LIMIT
    ensures var m', stack := Pops(m, sid, cpu, tick), StackOf(m.stacks, sid);
      var smi := stack[|stack| - 1];
      var linked, others := At(m.links, smi) != 0, |stack| > 1;
      && m.log <= m'.log && StackOf(m'.stacks, sid) == stack[..|stack| - 1] && At(m'.links, smi) == 0
      && |m'.log| == |m.log| + (if linked then 1 else 0) + (if others then 1 else 0)
      && (linked ==> Says(m'.log[|m.log|], OP_LINK, smi, At(m.links, smi) % 0x1_0000))
      && (others ==> Says(m'.log[|m'.log| - 1], OP_BEGIN, smi, At(m.last, smi) % 0x1_0000))
  {
    hide EntryOf, Says, Unlinks;
    var stack := StackOf(m.stacks, sid);
    var smi := LastOf(stack);
    UnlinksLog(m.(stacks := m.stacks[sid := stack[..|stack| - 1]]), smi, cpu, tick);
    EntrySays(tick, 0, smi, At(m.last, smi), OP_BEGIN, FL_NONE, cpu);
  }

  lemma {:induction false} UnlinksLog(m: Model, smi: nat, cpu: nat, tick: nat)
    requires smi < ID_LIMIT
    ensures var m' := Unlinks(m, smi, cpu, tick);
      && m'.stacks == m.stacks && m'.last == m.last && At(m'.links, smi) == 0 && m.log <= m'.log
      && |m'.log| == |m.log| + (if At(m.links, smi) != 0 then 1 else 0)
      && (At(m.links, smi) != 0 ==> Says(m'.log[|m.log|], OP_LINK, smi, At(m.links, smi) % 0x1_0000))
  {
    hide EntryOf, Says;
    EntrySays(tick, 0, smi, At(m.links, smi), OP_LINK, FL_NONE, cpu);
  }

  // ----- States -----

  /** Entering a state is logged with the running machine and the number of the state, unless that was its last state;
      the number stands for the name. */
  lemma {:induction false} StateLog(m: Model, s: System, frame: nat, cpu: nat, tick: nat, st: string, explicit: bool,
                                    flags: nat, sid: StackId)
    requires ModelOk(m) && BeginsState(m, s, frame, cpu, tick, st, explicit, flags).how.Done?
    requires sid == (Find(WithSystem(m, s).systems, s), frame)
    ensures var m', stack := BeginsState(m, s, frame, cpu, tick, st, explicit, flags).m, StackOf(m.stacks, sid);
      && stack != []
      && var smi := stack[|stack| - 1];
         var names, sti := StatesOf(m'.states, NameOf(m.smMap, smi)), At(m'.last, smi);
         && 1 <= sti <= |names| && names[sti - 1] == st
         && (At(m.last, smi) == sti ==> m'.log == m.log)
         && (At(m.last, smi) != sti ==>
               && |m'.log| == |m.log| + 1 && m.log <= m'.log
               && Says(m'.log[|m.log|], OP_BEGIN, smi, sti % 0x1_0000)
               && (flags < 0x100 ==> m'.log[|m.log|].flag == flags))
  {
    OnStacks(m, sid);
    var smi := LastOf(StackOf(m.stacks, sid));
    var m1 := WithState(m, NameOf(m.smMap, smi), st);
    FindIs(StatesOf(m1.states, NameOf(m.smMap, smi)), st);
    hide Find, EntryOf, Skipped;
    EntrySays(tick, 0, smi, StateNumber(m1, NameOf(m.smMap, smi), st), OP_BEGIN, flags, cpu);
  }

  /** Leaving explicit states for a named one logs that one, also when it was the last; without a name nothing. */
  lemma {:induction false} StateEndLog(m: Model, s: System, frame: nat, cpu: nat, tick: nat, st: string, sid: StackId)
    requires ModelOk(m) && EndsState(m, s, frame, cpu, tick, st).how.Done?
    requires sid == (Find(WithSystem(m, s).systems, s), frame)
    ensures var m', stack := EndsState(m, s, frame, cpu, tick, st).m, StackOf(m.stacks, sid);
      && stack != [] && (st == "" ==> m'.log == m.log && m'.last == m.last)
      && var smi := stack[|stack| - 1];
         var names, sti := StatesOf(m'.states, NameOf(m.smMap, smi)), At(m'.last, smi);
         st != "" ==>
           && 1 <= sti <= |names| && names[sti - 1] == st && |m'.log| == |m.log| + 1 && m.log <= m'.log
           && Says(m'.log[|m.log|], OP_BEGIN, smi, sti % 0x1_0000)
  {
    OnStacks(m, sid);
    var smi := LastOf(StackOf(m.stacks, sid));
    var m1 := WithState(m, NameOf(m.smMap, smi), st);
    FindIs(StatesOf(m1.states, NameOf(m.smMap, smi)), st);
    hide Find, EntryOf;
    EntrySays(tick, 0, smi, StateNumber(m1, NameOf(m.smMap, smi), st), OP_BEGIN, FL_NONE, cpu);
  }

  /** Exactly which states are entered: those of a frame with a running machine that are named explicitly or come while
      no explicit one is in force. */
  lemma {:induction false} StateEntered(m: Model, s: System, frame: nat, cpu: nat, tick: nat, st: string,
                                        explicit: bool, flags: nat, sid: StackId)
    requires '\0' !in st && sid == (Find(WithSystem(m, s).systems, s), frame)
    ensures var e := BeginsState(m, s, frame, cpu, tick, st, explicit, flags);
      && (e.how.Done? <==> StackOf(m.stacks, sid) != [] && (explicit || sid !in m.expl || !m.expl[sid]))
      && (!e.how.Done? ==> e.how.Ignored? && e.m == WithSystem(m, s))
      && (e.how.Done? && explicit ==> sid in e.m.expl && e.m.expl[sid])
      && (e.how.Done? && !explicit ==> e.m.expl == m.expl)
  {
    NeverSkipped(st);
    hide Find, Skipped, ChangesState;
    if StackOf(m.stacks, sid) != [] {
      var m1 := WithSystem(m, s);
      SameMode(m1.(expl := m.expl[sid := true]), LastOf(StackOf(m.stacks, sid)), st, cpu, flags, tick);
      SameMode(m1, LastOf(StackOf(m.stacks, sid)), st, cpu, flags, tick);
    }
  }

  lemma {:induction false} SameMode(m: Model, smi: nat, st: string, cpu: nat, flags: nat, tick: nat)
    ensures ChangesState(m, smi, st, cpu, flags, tick).expl == m.expl
  {
    hide EntryOf, Find;
  }

  /** An explicit state keeps automatic ones out, until it is left. */
  lemma {:induction false} ExplicitKeepsOut(m: Model, s: System, frame: nat, cpu: nat, tick: nat, later: nat,
                                            st: string, auto: string, back: string, flags: nat, more: nat)
    requires '\0' !in st && '\0' !in auto && BeginsState(m, s, frame, cpu, tick, st, true, flags).how.Done?
    ensures var m1 := BeginsState(m, s, frame, cpu, tick, st, true, flags).m;
      && BeginsState(m1, s, frame, cpu, later, auto, false, more) == Effect(Ignored, m1)
      && EndsState(m1, s, frame, cpu, later, back).how.Done?
      && BeginsState(EndsState(m1, s, frame, cpu, later, back).m, s, frame, cpu, later, auto, false, more).how.Done?
  {
    var sid := (Find(WithSystem(m, s).systems, s), frame);
    var m1 := BeginsState(m, s, frame, cpu, tick, st, true, flags).m;
    StateEntered(m, s, frame, cpu, tick, st, true, flags, sid);
    StateKeeps(m, s, frame, cpu, tick, st, flags);
    StateEntered(m1, s, frame, cpu, later, auto, false, more, sid);
    LeavesExplicit(m1, s, frame, cpu, later, back, sid);
    StateEntered(EndsState(m1, s, frame, cpu, later, back).m, s, frame, cpu, later, auto, false, more, sid);
    hide Find, EntryOf, Skipped;
    assert WithSystem(m1, s) == m1;
  }

  lemma {:induction false} StateKeeps(m: Model, s: System, frame: nat, cpu: nat, tick: nat, st: string, flags: nat)
    ensures var m' := BeginsState(m, s, frame, cpu, tick, st, true, flags).m;
      && m'.stacks == m.stacks && (!Skipped(st) ==> m'.systems == WithSystem(m, s).systems)
  {
    hide EntryOf, Find, Skipped;
  }

  lemma {:induction false} LeavesExplicit(m: Model, s: System, frame: nat, cpu: nat, tick: nat, back: string,
                                          sid: StackId)
    requires s in m.systems && sid == (Find(m.systems, s), frame) && StackOf(m.stacks, sid) != []
    ensures var e := EndsState(m, s, frame, cpu, tick, back);
      e.how.Done? && e.m.systems == m.systems && e.m.stacks == m.stacks && sid in e.m.expl && !e.m.expl[sid]
  {
    hide EntryOf, Find;
  }

  // ----- When a call stops the simulation -----

  /** A machine cannot be begun exactly when there is no number left for it, or it would be linked back twice. */
  lemma {:induction false} BeginStops(m: Model, s: System, frame: nat, cpu: nat, tick: nat,
                                      sm: string, id: nat, flags: nat, st: string, sysi: nat)
    requires ModelOk(m) && sysi == Find(WithSystem(m, s).systems, s)
    ensures var how, key := Begins(m, s, frame, cpu, tick, sm, id, flags, st).how, (sysi, (sm, id));
      var smi := Find(Known(m.smMap, key), key);
      var links := flags / 0x10 % 2 == 1 && StackOf(m.stacks, (sysi, frame)) != [];
      var awaited := (sysi, (sm, frame)) in m.awaited;
      var twice := (links && awaited) || ((links || awaited) && At(m.links, smi) != 0);
      if (key !in m.smMap && |m.smMap| + 1 >= 65535) || twice then how.Stopped? else how.Done?
  {
    if StackOf(m.stacks, (sysi, frame)) != [] { OnStacks(m, (sysi, frame)); }
    hide Find, ModelOk, LinksBack, Pushes, Arrives, EntersState, StackOf, At;
  }

  /** Ending, and linking by name or by system call: what is needed, what is ignored and what stops the simulation. */
  lemma {:induction false} OtherStops(m: Model, s: System, frame: nat, cpu: nat, tick: nat, sm: string, id: nat,
                                      sid: StackId)
    requires sid == (Find(WithSystem(m, s).systems, s), frame)
    ensures var how, stack := Ends(m, s, frame, cpu, tick, sm).how, StackOf(m.stacks, sid);
      && (how.Stopped? <==> stack == []) && (how.Done? <==> stack != [] && NameOf(m.smMap, stack[|stack| - 1]) == sm)
    ensures var how, key := LinksTo(m, s, frame, cpu, tick, sm, id).how, (sid.0, (sm, id));
      && (how.Ignored? <==> StackOf(m.stacks, sid) == [])
      && (how.Done? <==> && StackOf(m.stacks, sid) != [] && (key in m.smMap || |m.smMap| + 1 < 65535)
                         && At(m.links, Find(Known(m.smMap, key), key)) == 0)
    ensures var how := LinksSyscall(m, s, frame, cpu, tick, sm).how;
      && (how.Ignored? <==> StackOf(m.stacks, sid) == [])
      && (how.Done? <==> StackOf(m.stacks, sid) != [] && (sid.0, (sm, frame)) !in m.awaited)
  {
    hide Find, EntryOf, Pops, LinksBack, Holds, Automatic, NameOf;
  }

  // ----- Queues -----

  /** The records of a queue operation are about that machine and that queue. */
  predicate About(log: seq<Entry>, from: nat, smi: nat, qi: nat) {
    forall k :: from <= k < |log| ==>
      log[k].sm == smi && log[k].stq == qi && log[k].op in {OP_QUEUE, OP_DEQUEUE, OP_SIZE_QUEUE}
  }

  lemma {:induction false} AboutOne(log: seq<Entry>, from: nat, e: Entry, smi: nat, qi: nat)
    requires from <= |log| && About(log, from, smi, qi) && e.sm == smi && e.stq == qi
    requires e.op in {OP_QUEUE, OP_DEQUEUE, OP_SIZE_QUEUE}
    ensures About(log + [e], from, smi, qi)
  {
  }

  lemma {:induction false} OnQueueLog(m: Model, op: QueueOp, flags: nat, cpu: nat, smi: nat, qi: nat, tick: nat)
    requires smi < ID_LIMIT && qi < ID_LIMIT
    ensures var m' := OnQueue(m, op, flags, cpu, smi, qi, tick).m; m.log <= m'.log && About(m'.log, |m.log|, smi, qi)
  {
    hide About, EntryOf, Puts, Logs, Resized;
    Nothing(m.log, smi, qi);
    match op {
      case Enqueue(count) => PutsLog(m, |m.log|, tick, count, smi, qi, OP_QUEUE, flags, cpu);
      case Dequeue(removed) => PutsLog(m, |m.log|, tick, removed, smi, qi, OP_DEQUEUE, flags, cpu);
      case Resize(size, reset) => ResizedLog(m, reset, cpu, smi, qi, size, tick);
    }
  }

  /** One more record about a queue, whatever becomes of the queue. */
  lemma {:induction false} PutsLog(m: Model, from: nat, tick: nat, data: int, smi: nat, qi: nat, op: nat, flags: nat,
                                   cpu: nat)
    requires smi < ID_LIMIT && qi < ID_LIMIT && op in {OP_QUEUE, OP_DEQUEUE, OP_SIZE_QUEUE}
    requires from <= |m.log| && About(m.log, from, smi, qi)
    ensures var e := EntryOf(tick, data, smi, qi, op, flags, cpu);
      forall bytes :: var m' := Puts(Logs(m, e), qi, bytes);
        && m'.log == m.log + [e] && About(m'.log, from, smi, qi)
        && m'.systems == m.systems && m'.smMap == m.smMap && m'.qMap == m.qMap
  {
    hide About;
    AboutOne(m.log, from, EntryOf(tick, data, smi, qi, op, flags, cpu), smi, qi);
  }

  lemma {:induction false} Nothing(log: seq<Entry>, smi: nat, qi: nat)
    ensures About(log, |log|, smi, qi)
  {
  }

  lemma {:induction false} ResizedLog(m: Model, flags: nat, cpu: nat, smi: nat, qi: nat, size: int, tick: nat)
    requires smi < ID_LIMIT && qi < ID_LIMIT
    ensures var m' := Resized(m, flags, cpu, smi, qi, size, tick).m; m.log <= m'.log && About(m'.log, |m.log|, smi, qi)
  {
    hide About, Fitted, Emptied;
    Nothing(m.log, smi, qi);
    EmptiedLog(m, flags, cpu, smi, qi, tick);
    FittedLog(Emptied(m, flags, cpu, smi, qi, tick), |m.log|, cpu, smi, qi, size, tick);
  }

  lemma {:induction false} EmptiedLog(m: Model, flags: nat, cpu: nat, smi: nat, qi: nat, tick: nat)
    requires smi < ID_LIMIT && qi < ID_LIMIT
    ensures var m' := Emptied(m, flags, cpu, smi, qi, tick); m.log <= m'.log && About(m'.log, |m.log|, smi, qi)
  {
    hide About, EntryOf, Puts, Logs;
    Nothing(m.log, smi, qi);
    PutsLog(m, |m.log|, tick, 0, smi, qi, OP_SIZE_QUEUE, FL_NONE, cpu);
  }

  lemma {:induction false} FittedLog(m: Model, from: nat, cpu: nat, smi: nat, qi: nat, size: int, tick: nat)
    requires smi < ID_LIMIT && qi < ID_LIMIT && from <= |m.log| && About(m.log, from, smi, qi)
    ensures var m' := Fitted(m, cpu, smi, qi, size, tick); m.log <= m'.log && About(m'.log, from, smi, qi)
  {
    hide About, EntryOf, Puts, Logs;
    PutsLog(m, from, tick, size - |BytesOf(m.queues, qi)|, smi, qi, OP_QUEUE, FL_NONE, cpu);
    PutsLog(m, from, tick, size, smi, qi, OP_SIZE_QUEUE, FL_NONE, cpu);
  }

  /** A queue operation by software is logged for the machine on top of the stack and the queue named. */
  lemma {:induction false} SwQueueLog(m: Model, s: System, frame: nat, cpu: nat, tick: nat, q: string, id: nat,
                                      op: QueueOp, sid: StackId)
    requires ModelOk(m) && |m.qMap| < ID_LIMIT && sid == (Find(WithSystem(m, s).systems, s), frame)
    ensures var e, stack := SwQueues(m, s, frame, cpu, tick, q, id, op), StackOf(m.stacks, sid);
      && m.log <= e.m.log && (e.how.Done? ==> stack != [] && (op.Resize? || |m.log| < |e.m.log|))
      && (stack != [] ==>
            About(e.m.log, |m.log|, stack[|stack| - 1], Find(Known(m.qMap, (sid.0, (q, id))), (sid.0, (q, id)))))
  {
    var stack, key := StackOf(m.stacks, sid), (sid.0, (q, id));
    if stack != [] {
      OnStacks(m, sid);
      FindIs(Known(m.qMap, key), key);
      var m1 := WithSystem(m, s);
      var m2 := if op.Resize? then m1 else m1.(expl := Automatic(m1.expl, sid));
      Nothing(m.log, LastOf(stack), Find(Known(m.qMap, key), key));
      hide Find, About, OnQueue, Automatic, ModelOk, QueuesFull;
      if !QueuesFull(m2, key) {
        QueueFits(m2, key);
        OnQueueLog(WithQueue(m2, key), op, FL_NONE, cpu, LastOf(stack), Find(Known(m.qMap, key), key), tick);
        if !op.Resize? {
          OnQueueLogs(WithQueue(m2, key), op, FL_NONE, cpu, LastOf(stack), Find(Known(m.qMap, key), key), tick);
        }
      }
    }
  }

  lemma {:induction false} QueueFits(m: Model, key: (nat, Id))
    requires |m.qMap| < ID_LIMIT && !QueuesFull(m, key)
    ensures Find(Known(m.qMap, key), key) < ID_LIMIT
  {
    FindIs(Known(m.qMap, key), key);
  }

  lemma {:induction false} OnQueueLogs(m: Model, op: QueueOp, flags: nat, cpu: nat, smi: nat, qi: nat, tick: nat)
    requires !op.Resize? && smi < ID_LIMIT && qi < ID_LIMIT
    ensures var e := OnQueue(m, op, flags, cpu, smi, qi, tick); e.how.Done? ==> |m.log| < |e.m.log|
  {
    hide About, EntryOf, Puts, Logs;
    Nothing(m.log, smi, qi);
    match op {
      case Enqueue(count) => PutsLog(m, |m.log|, tick, count, smi, qi, OP_QUEUE, flags, cpu);
      case Dequeue(removed) => PutsLog(m, |m.log|, tick, removed, smi, qi, OP_DEQUEUE, flags, cpu);
    }
  }

  /** Hardware is logged for the machine it names. */
  lemma {:induction false} HwQueueLog(m: Model, s: System, frame: nat, tick: nat, sm: string, q: string, id: nat,
                                      owner: System, op: QueueOp, flags: nat)
    requires ModelOk(m) && |m.qMap| < ID_LIMIT
    requires HwQueues(m, s, frame, tick, sm, q, id, owner, op, flags).how.Done?
    ensures var m' := HwQueues(m, s, frame, tick, sm, q, id, owner, op, flags).m;
      var mine, key := (Find(m'.systems, s), (sm, frame)), (Find(m'.systems, owner), (q, id));
      && m.log <= m'.log && |m.log| < |m'.log| && mine in m'.smMap && key in m'.qMap
      && About(m'.log, |m.log|, Find(m'.smMap, mine), Find(m'.qMap, key))
  {
    var m1 := WithSystem(WithSystem(m, s), owner);
    var key, mine := (Find(m1.systems, owner), (q, id)), (Find(m1.systems, s), (sm, frame));
    SystemOk(m, s);
    SystemOk(WithSystem(m, s), owner);
    WithQueueOk(m1, key);
    var m2 := WithQueue(m1, key);
    WithMachineOk(m2, mine);
    var m3 := WithMachine(m2, mine);
    assert |m3.smMap| < ID_LIMIT;
    FindIs(m3.smMap, mine);
    QueueFits(m1, key);
    hide Find, About, OnQueue, ModelOk, QueuesFull, MachinesFull, Hardware;
    OnQueueLog(m3, op, Hardware(flags), 0, Find(m3.smMap, mine), Find(m3.qMap, key), tick);
    OnQueueLogs(m3, op, Hardware(flags), 0, Find(m3.smMap, mine), Find(m3.qMap, key), tick);
    OnQueueTables(m3, op, Hardware(flags), 0, Find(m3.smMap, mine), Find(m3.qMap, key), tick);
  }

  lemma {:induction false} OnQueueTables(m: Model, op: QueueOp, flags: nat, cpu: nat, smi: nat, qi: nat, tick: nat)
    requires !op.Resize? && smi < ID_LIMIT && qi < ID_LIMIT
    ensures var m' := OnQueue(m, op, flags, cpu, smi, qi, tick).m;
      m'.systems == m.systems && m'.smMap == m.smMap && m'.qMap == m.qMap
  {
    hide About, EntryOf, Puts, Logs;
    Nothing(m.log, smi, qi);
    match op {
      case Enqueue(count) => PutsLog(m, |m.log|, tick, count, smi, qi, OP_QUEUE, flags, cpu);
      case Dequeue(removed) => PutsLog(m, |m.log|, tick, removed, smi, qi, OP_DEQUEUE, flags, cpu);
    }
  }

  /** The hardware flag is added and no other flag is touched. */
  lemma {:induction false} HardwareAdds(flags: nat)
    ensures Hardware(flags) % 2 == 1 && Hardware(flags) / 2 == flags / 2
  {
  }

  /** A queue is first in, first out: once the bytes it held are removed, those put in last are left, tagged with their
      record. */
  lemma {:induction false} FirstInFirstOut(m: Model, flags: nat, cpu: nat, smi: nat, qi: nat, count: nat, tick: nat,
                                           later: nat)
    requires flags / 4 % 2 == 0 && Enqueued(m, flags, cpu, smi, qi, count, tick).how.Done?
    requires BytesOf(m.queues, qi) != []
    ensures var m1 := Enqueued(m, flags, cpu, smi, qi, count, tick).m;
      var e := Dequeued(m1, flags, cpu, smi, qi, |BytesOf(m.queues, qi)|, later);
      e.how.Done? && BytesOf(e.m.queues, qi) == Tagged(|m.log|, count) && m1.log[|m.log|].op == OP_QUEUE
  {
  }

  /** With the stack flag it is last in, first out: removing what was put in last restores the queue. */
  lemma {:induction false} LastInFirstOut(m: Model, flags: nat, cpu: nat, smi: nat, qi: nat, count: nat, tick: nat,
                                          later: nat)
    requires flags / 4 % 2 == 1 && count > 0 && Enqueued(m, flags, cpu, smi, qi, count, tick).how.Done?
    ensures var m1 := Enqueued(m, flags, cpu, smi, qi, count, tick).m;
      var e := Dequeued(m1, flags, cpu, smi, qi, count, later);
      e.how.Done? && BytesOf(e.m.queues, qi) == BytesOf(m.queues, qi)
  {
    var added, had := Tagged(|m.log|, count), BytesOf(m.queues, qi);
    hide EntryOf, Tagged;
    assert (added + had)[count..] == had;
  }

  /** Resizing a queue to what it held before undoes an ordinary enqueue. */
  lemma {:induction false} ResizeUndoes(m: Model, flags: nat, cpu: nat, smi: nat, qi: nat, count: nat, tick: nat,
                                        later: nat)
    requires flags / 4 % 2 == 0 && Enqueued(m, flags, cpu, smi, qi, count, tick).how.Done?
    ensures var m1, had := Enqueued(m, flags, cpu, smi, qi, count, tick).m, BytesOf(m.queues, qi);
      var e := Resized(m1, FL_NONE, cpu, smi, qi, |had|, later);
      e.how.Done? && BytesOf(e.m.queues, qi) == had
  {
    var added, had := Tagged(|m.log|, count), BytesOf(m.queues, qi);
    assert (had + added)[..|had|] == had;
    PutsKeeps(m, EntryOf(tick, count, smi, qi, OP_QUEUE, flags, cpu), qi, had + added, qi);
    var m1 := Enqueued(m, flags, cpu, smi, qi, count, tick).m;
    PutsKeeps(m1, EntryOf(later, |had|, smi, qi, OP_SIZE_QUEUE, FL_NONE, cpu), qi, had, qi);
    assert !Flag(FL_NONE, FL_RESET);
    hide EntryOf, Tagged, Puts, Logs, BytesOf;
    if count == 0 {
      assert had + added == had;
    }
  }

  /** Resizing with the reset flag puts only new bytes into the queue. */
  lemma {:induction false} ResetRefills(m: Model, flags: nat, cpu: nat, smi: nat, qi: nat, size: nat, tick: nat)
    requires flags / 0x20 % 2 == 1 && size <= INT32_MAX
    ensures var e := Resized(m, flags, cpu, smi, qi, size, tick);
      e.how.Done? && BytesOf(e.m.queues, qi) == Tagged(|m.log| + 1, size)
  {
    var m1 := Emptied(m, flags, cpu, smi, qi, tick);
    PutsKeeps(m, EntryOf(tick, 0, smi, qi, OP_SIZE_QUEUE, FL_NONE, cpu), qi, [], qi);
    PutsKeeps(m1, EntryOf(tick, size, smi, qi, OP_QUEUE, FL_NONE, cpu), qi, [] + Tagged(|m1.log|, size), qi);
    assert |m1.log| == |m.log| + 1 && [] + Tagged(|m1.log|, size) == Tagged(|m1.log|, size);
    assert size == 0 ==> Tagged(|m1.log|, size) == [];
    hide EntryOf, Puts, Logs, BytesOf, Tagged;
  }

  /** The records byte by byte, for machine 2 with machine 3, state 3 or queue 3. */
  lemma {:induction false} KnownRecords(m: Model, st: string)
    requires st != "" && StateNumber(WithState(m, "", st), "", st) == 3
    ensures LinksBack(m, 2, 3, 1, 9).log == m.log + [Entry(9, 0, 2, 3, 0x0A, 0, 1)]
    ensures EntersState(m, 2, "", st, 1, 9).log == m.log + [Entry(9, 0, 2, 3, 0x01, 0, 1)]
    ensures BytesOf(m.queues, 3) == [0, 0, 0, 0, 0] ==>
      && Enqueued(m, 4, 1, 2, 3, 6, 9).m.log == m.log + [Entry(9, 6, 2, 3, 0x04, 4, 1)]
      && Dequeued(m, 4, 1, 2, 3, -1, 9).m.log == m.log + [Entry(9, 0xFFFF_FFFF, 2, 3, 0x05, 4, 1)]
      && Fitted(m, 1, 2, 3, 4, 9).log == m.log + [Entry(9, 4, 2, 3, 0x08, 0, 1)]
  {
    hide Find, Tagged;
  }

  // ----- Modes -----

  ghost predicate Automatically(m: Model, sid: StackId) {
    sid in m.expl ==> !m.expl[sid]
  }

  /** Beginning or ending a machine, and putting into or taking out of a queue, leaves explicit-state mode. */
  lemma {:induction false} BackToAutomatic(m: Model, s: System, frame: nat, cpu: nat, tick: nat, sm: string, id: nat,
                                           flags: nat, st: string, sid: StackId)
    requires sid == (Find(WithSystem(m, s).systems, s), frame)
    ensures var e := Begins(m, s, frame, cpu, tick, sm, id, flags, st); e.how.Done? ==> Automatically(e.m, sid)
    ensures Automatically(Ends(m, s, frame, cpu, tick, sm).m, sid)
  {
    BegunMode(m, s, frame, cpu, tick, sm, id, flags, st, sid);
    EndedMode(m, s, frame, cpu, tick, sm, sid);
  }

  lemma {:induction false} BegunMode(m: Model, s: System, frame: nat, cpu: nat, tick: nat, sm: string, id: nat,
                                     flags: nat, st: string, sid: StackId)
    requires sid == (Find(WithSystem(m, s).systems, s), frame)
    ensures var e := Begins(m, s, frame, cpu, tick, sm, id, flags, st); e.how.Done? ==> Automatically(e.m, sid)
  {
    hide Find, MachinesFull, Caller, Places, EntersState, Automatically;
    var m2 := WithMachine(WithSystem(m, s), (sid.0, (sm, id)));
    var smi, prev := Find(m2.smMap, (sid.0, (sm, id))), Caller(StackOf(m2.stacks, sid), flags);
    PlacedMode(m2, sid, smi, prev, sm, cpu, tick);
    var m3 := Places(m2, sid, smi, prev, sm, cpu, tick).m;
    EntersSame(m3, smi, sm, st, cpu, tick);
    SameAutomatic(m3, EntersState(m3, smi, sm, st, cpu, tick), sid);
  }

  lemma {:induction false} PlacedMode(m: Model, sid: StackId, smi: nat, prev: nat, sm: string, cpu: nat, tick: nat)
    ensures var e := Places(m, sid, smi, prev, sm, cpu, tick); !e.how.Stopped? ==> Automatically(e.m, sid)
  {
    hide EntryOf, Completed, Waiting, Clash, StackOf;
  }

  lemma {:induction false} SameAutomatic(m: Model, m': Model, sid: StackId)
    requires m'.expl == m.expl
    ensures Automatically(m', sid) == Automatically(m, sid)
  {
  }

  lemma {:induction false} EndedMode(m: Model, s: System, frame: nat, cpu: nat, tick: nat, sm: string, sid: StackId)
    requires sid == (Find(WithSystem(m, s).systems, s), frame)
    ensures Automatically(Ends(m, s, frame, cpu, tick, sm).m, sid)
  {
    hide Find, EntryOf, NameOf;
  }

  /** The same for queue calls of software, except that resizing keeps the mode. */
  lemma {:induction false} QueueMode(m: Model, s: System, frame: nat, cpu: nat, tick: nat, q: string, id: nat,
                                     op: QueueOp, sid: StackId)
    requires sid == (Find(WithSystem(m, s).systems, s), frame) && StackOf(m.stacks, sid) != []
    ensures var m' := SwQueues(m, s, frame, cpu, tick, q, id, op).m;
      && (op.Resize? ==> m'.expl == m.expl) && (!op.Resize? ==> Automatically(m', sid))
  {
    hide Find, OnQueue, QueuesFull;
    var stack, key, m1 := StackOf(m.stacks, sid), (sid.0, (q, id)), WithSystem(m, s);
    var m2 := if op.Resize? then m1 else m1.(expl := Automatic(m1.expl, sid));
    var m3 := WithQueue(m2, key);
    OnQueueMode(m3, op, FL_NONE, cpu, LastOf(stack), Find(m3.qMap, key), tick);
  }

  lemma {:induction false} OnQueueMode(m: Model, op: QueueOp, flags: nat, cpu: nat, smi: nat, qi: nat, tick: nat)
    ensures OnQueue(m, op, flags, cpu, smi, qi, tick).m.expl == m.expl
  {
    hide Puts, Logs;
    PutsMode(m);
    if op.Resize? {
      PutsMode(Emptied(m, op.reset, cpu, smi, qi, tick));
    }
  }

  lemma {:induction false} PutsMode(m: Model)
    ensures forall e, qi, bytes :: Puts(Logs(m, e), qi, bytes).expl == m.expl
  {
  }
}
