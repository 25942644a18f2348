/** The annotation calls made by simulated software, each a step of the engine. */
module CpaSteps {
  import opened Sequences
  import opened CpaRecords
  import opened CpaTables
  import opened CpaQueues
  import opened Cpa
  import opened CpaModel
  import opened CpaShows
  import CpaLaws
  import CpaLog

  lemma {:induction false} StacksGrow(stacks: map<StackId, seq<nat>>, table: IdMap, table': IdMap)
    requires Stacks(stacks, table) && table <= table'
    ensures Stacks(stacks, table')
  {
  }

  lemma {:induction false} StacksPush(stacks: map<StackId, seq<nat>>, table: IdMap, sid: StackId, smi: nat)
    requires Stacks(stacks, table) && OnStack(smi, sid.0, table)
    ensures Stacks(stacks[sid := StackOf(stacks, sid) + [smi]], table)
  {
  }

  lemma {:induction false} StacksPop(stacks: map<StackId, seq<nat>>, table: IdMap, sid: StackId)
    requires Stacks(stacks, table) && StackOf(stacks, sid) != []
    ensures var stack := stacks[sid]; Stacks(stacks[sid := stack[..|stack| - 1]], table)
    ensures var stack := stacks[sid]; OnStack(stack[|stack| - 1], sid.0, table)
  {
  }

  /** A machine found on a stack of system `sysi` is looked up again under the same number, so the engine's
      own assertion on ending a machine holds. */
  lemma {:induction false} TopIsInterned(stacks: map<StackId, seq<nat>>, numSys: nat, numSm: nat, cache: IdCache,
                                         table: IdMap, sid: StackId)
    requires Stacks(stacks, table) && SmTable(numSys, numSm, cache, table) && StackOf(stacks, sid) != []
    ensures var stack := stacks[sid]; var top := stack[|stack| - 1];
      && 1 <= top <= |table| && table[top - 1].0 == sid.0 && 1 <= sid.0 <= |cache| == numSys
      && table[top - 1].1 in cache[sid.0 - 1] && cache[sid.0 - 1][table[top - 1].1] == top
  {
    hide Interned;
    StacksPop(stacks, table, sid);
    var stack := stacks[sid];
    LooksUp(cache, table, stack[|stack| - 1]);
  }

  // ----- Numbers -----

  lemma {:induction false} NumbersBelow(c: Cpa)
    requires c.Valid()
    ensures c.numSm == |c.smMap| < ID_LIMIT && c.numQs == |c.qMap| == |c.qData| == |c.qBytes| < ID_LIMIT
  {
    hide QueueOk, Interned, Dense;
  }

  /** The frame's stack identifier. */
  method Lookup(c: Cpa, s: System, frame: nat, ghost m: Model) returns (sid: StackId)
    requires c.Valid() && Shows(c, m)
    modifies c`nameCache, c`numSys, c`systems, c`numQ, c`qCache, c`smCache
    ensures c.Valid() && Shows(c, WithSystem(m, s)) && sid == (Find(WithSystem(m, s).systems, s), frame)
    ensures 1 <= sid.0 <= c.numSys == |c.smCache| == |c.qCache| && old(c.numSys) <= c.numSys
  {
    hide *;
    c.Parts();
    Split(c, m);
    SystemShown(c, s);
    TableChanges(m, s, (0, ("", 0)));
    var sysi := c.GetSys(s);
    SystemShown(c, s);
    sid := (sysi, frame);
    c.Whole();
    Join(c, WithSystem(m, s));
  }

  /** The number of a machine, or a failed assertion when no number is left. */
  method Machine(c: Cpa, sysi: nat, sm: string, id: nat, ghost m: Model) returns (smi: nat, ok: bool)
    requires c.Valid() && Shows(c, m) && 1 <= sysi <= c.numSys == |c.smCache|
    modifies c`smCache, c`numSm, c`smMap
    ensures c.Valid() && (ok <==> !MachinesFull(m, (sysi, (sm, id)))) && |c.smCache| == c.numSys
    ensures Shows(c, if ok then WithMachine(m, (sysi, (sm, id))) else m)
    ensures ok ==> smi == Find(c.smMap, (sysi, (sm, id))) && 1 <= smi < ID_LIMIT && OnStack(smi, sysi, c.smMap)
  {
    hide *;
    c.Parts();
    Split(c, m);
    NumbersBelow(c);
    MachineShown(c, sysi, (sm, id));
    TableChanges(m, System(""), (sysi, (sm, id)));
    smi, ok := c.GetSm(sysi, sm, id);
    MachineShown(c, sysi, (sm, id));
    StacksGrow(c.smStack, old(c.smMap), c.smMap);
    c.Whole();
    NumbersBelow(c);
    Join(c, if ok then WithMachine(m, (sysi, (sm, id))) else m);
    if ok {
      InTable(smi, sysi, c.smMap);
    }
  }

  /** The number of a queue, or a failed assertion when no number is left. */
  method Queue(c: Cpa, sysi: nat, q: string, id: nat, ghost m: Model) returns (qi: nat, ok: bool)
    requires c.Valid() && Shows(c, m) && 1 <= sysi <= c.numSys == |c.qCache|
    modifies c`qCache, c`numQs, c`numQ, c`qMap, c`qSize, c`qBytes, c`qData
    ensures c.Valid() && (ok <==> !QueuesFull(m, (sysi, (q, id))))
    ensures Shows(c, if ok then WithQueue(m, (sysi, (q, id))) else m)
    ensures ok ==> qi == Find(c.qMap, (sysi, (q, id))) && 1 <= qi <= |c.qData|
  {
    hide *;
    c.Parts();
    Split(c, m);
    NumbersBelow(c);
    QueueShown(c, sysi, (q, id));
    TableChanges(m, System(""), (sysi, (q, id)));
    NewIsEmpty(c.qData, c.history, m.queues);
    qi, ok := c.GetQ(sysi, q, id);
    c.Whole();
    NumbersBelow(c);
    Join(c, if ok then WithQueue(m, (sysi, (q, id))) else m);
    if ok {
      QueueNumber(c, qi);
    }
  }

  lemma {:induction false} QueueNumber(c: Cpa, qi: nat)
    requires c.TablesOk() && 1 <= qi <= |c.qMap|
    ensures Find(c.qMap, c.qMap[qi - 1]) == qi
  {
    hide SmTable, StTable, SysTable;
    InternedUnique(c.qCache, c.qMap);
    FindAt(c.qMap, qi - 1);
  }

  lemma {:induction false} InTable(smi: nat, sysi: nat, table: IdMap)
    requires 1 <= smi <= |table| && table[smi - 1].0 == sysi
    ensures OnStack(smi, sysi, table)
  {
  }

  /** A queue that does not exist yet has no bytes. */
  lemma {:induction false} NewIsEmpty(qs: seq<seq<AnnotateData>>, h: seq<AnnotateData>, queues: map<nat, seq<nat>>)
    requires ShowsQueues(qs, h, queues)
    ensures ShowsQueues(qs + [[]], h, queues)
  {
  }

  /** The number of a state. */
  method State(c: Cpa, kind: string, st: string, ghost m: Model) returns (sti: nat)
    requires c.Valid() && Shows(c, m)
    modifies c`smtCache, c`numSmt, c`stCache, c`numSt, c`smtNames, c`stNames
    ensures c.Valid() && Shows(c, WithState(m, kind, st))
    ensures sti == StateNumber(WithState(m, kind, st), kind, st) && sti > 0
  {
    hide *;
    c.Parts();
    Split(c, m);
    StatesNow(c, m);
    KindShown(c, kind);
    ghost var cache, kinds, names := c.smtCache, c.smtNames, c.stNames;
    sti := c.GetSt(kind, st);
    KindShown(c, kind);
    StateShown(c, c.smtCache[kind] - 1, sti);
    LookedUp(c, cache, kinds, names, kind, st);
    StatesLooked(m.states, kinds, names, c.smtNames, c.stNames, c.smtCache[kind] - 1, kind, st);
    c.Whole();
    StateShows(c, m, kind, st, c.smtCache[kind] - 1, sti);
  }

  lemma {:induction false} StatesNow(c: Cpa, m: Model)
    requires ShowsStates(c, m.kinds, m.states)
    ensures m.kinds == c.smtNames && SameStates(m.states, c.smtNames, c.stNames)
  {
  }

  lemma {:induction false} LookedUp(c: Cpa, cache: map<string, nat>, kinds: seq<string>, names: seq<seq<string>>,
                                    kind: string, st: string)
    requires c.KnownStates(cache, names, kind, st) && |kinds| == |names| && (kind in cache <==> kind in kinds)
    requires kind in cache ==> 1 <= cache[kind] <= |kinds| && kinds[cache[kind] - 1] == kind
    requires kind in c.smtCache && 1 <= c.smtCache[kind] <= |c.smtNames| && c.smtNames[c.smtCache[kind] - 1] == kind
    requires c.smtNames == if kind in cache then kinds else kinds + [kind]
    requires kind in cache ==> c.smtCache[kind] == cache[kind]
    ensures Looked(kinds, names, c.smtNames, c.stNames, c.smtCache[kind] - 1, kind, st)
  {
    if kind !in cache {
      assert c.smtNames[c.smtCache[kind] - 1] == kind;
    }
  }

  // ----- The log and the links -----

  /** Log one more record. */
  method Note(c: Cpa, e: Entry, ghost m: Model)
    requires c.Valid() && Shows(c, m) && !Unresolved(e)
    modifies c`data, c`history, c`osbin, c`numRecs, c`annotateIdx, c`written
    ensures c.Valid() && Shows(c, Logs(m, e))
    ensures old(c.written) <= c.written
    ensures forall r :: r in c.history ==> r in old(c.history) || fresh(r)
  {
    hide *;
    c.Parts();
    Split(c, m);
    var an := c.Add(e);
    MoreHistory(old(c.history), an, m.log, c.scLinks, m.awaited, c.qData, m.queues);
    c.Whole();
    LogChanges(m, (0, ("", 0)), e);
    Join(c, Logs(m, e));
  }

  method SetLink(c: Cpa, smi: nat, prev: nat, ghost m: Model)
    requires c.Valid() && Shows(c, m) && prev < ID_LIMIT
    modifies c`lnMap
    ensures c.Valid() && Shows(c, m.(links := m.links[smi := prev]))
  {
    hide *;
    c.Parts();
    Split(c, m);
    LinksSet(c.lnMap, smi, prev);
    c.lnMap := c.lnMap[smi := prev];
    c.Whole();
    Join(c, m.(links := m.links[smi := prev]));
  }

  lemma {:induction false} LinksSet(links: map<nat, nat>, smi: nat, prev: nat)
    requires Links(links)
    ensures prev < ID_LIMIT ==> Links(links[smi := prev])
    ensures Links(links - {smi}) && At(links, smi) < ID_LIMIT
  {
  }

  /** Link machine `smi` back to `prev`, if there is one. */
  method LinkBack(c: Cpa, prev: nat, smi: nat, cpu: nat, tick: nat, ghost m: Model)
    requires c.Valid() && Shows(c, m) && prev < ID_LIMIT && smi < ID_LIMIT
    modifies c`lnMap, c`data, c`history, c`osbin, c`numRecs, c`annotateIdx, c`written
    ensures c.Valid() && Shows(c, LinksBack(m, prev, smi, cpu, tick))
    ensures old(c.written) <= c.written
    ensures forall r :: r in c.history ==> r in old(c.history) || fresh(r)
  {
    hide Cpa.Valid, Shows;
    if prev != 0 {
      SetLink(c, smi, prev, m);
      Note(c, EntryOf(tick, 0, prev, smi, OP_LINK, FL_NONE, cpu), m.(links := m.links[smi := prev]));
    }
  }

  method Push(c: Cpa, sid: StackId, smi: nat, ghost m: Model)
    requires c.Valid() && Shows(c, m) && OnStack(smi, sid.0, c.smMap)
    modifies c`smStack, c`swExpl
    ensures c.Valid() && Shows(c, Pushes(m, sid, smi))
  {
    hide *;
    c.Parts();
    Split(c, m);
    StacksPush(c.smStack, c.smMap, sid, smi);
    c.smStack := c.smStack[sid := StackOf(c.smStack, sid) + [smi]];
    c.swExpl := Automatic(c.swExpl, sid);
    c.Whole();
    PushIs(m, sid, smi);
    Join(c, Pushes(m, sid, smi));
  }

  lemma {:induction false} PushIs(m: Model, sid: StackId, smi: nat)
    ensures Pushes(m, sid, smi) ==
            m.(stacks := m.stacks[sid := StackOf(m.stacks, sid) + [smi]], expl := Automatic(m.expl, sid))
  {
  }

  /** Hold back a link whose target is not known yet. */
  method HoldLink(c: Cpa, key: (nat, Id), e: Entry, ghost m: Model)
    requires c.Valid() && Shows(c, m) && key !in c.scLinks && Unresolved(e) && e.sm < ID_LIMIT
    modifies c`data, c`history, c`osbin, c`numRecs, c`annotateIdx, c`written, c`scLinks
    ensures c.Valid() && Shows(c, Holds(m, key, e))
    ensures old(c.written) <= c.written
    ensures forall r :: r in c.history ==> r in old(c.history) || fresh(r)
  {
    hide *;
    c.Parts();
    Split(c, m);
    ghost var h := c.history;
    c.Hold(key, e);
    OneMore(c, h, e);
    MoreHistory(h, c.history[|h|], m.log, old(c.scLinks), m.awaited, c.qData, m.queues);
    c.Whole();
    LogChanges(m, key, e);
    LogEntries(h, m.log);
    Join(c, Holds(m, key, e));
  }

  lemma {:induction false} OneMore(c: Cpa, h: seq<AnnotateData>, e: Entry)
    requires c.Logged(h, [e])
    ensures |c.history| == |h| + 1 && c.history == h + [c.history[|h|]] && c.history[|h|].AsEntry() == e
  {
    assert c.history[|h| + 0].AsEntry() == [e][0];
  }

  /** The record waiting for a machine, if any. */
  ghost function Awaited(links: map<(nat, Id), AnnotateData>, key: (nat, Id)): set<AnnotateData> {
    if key in links then {links[key]} else {}
  }

  /** Complete the record waiting for a machine. */
  method ResolveLink(c: Cpa, key: (nat, Id), smi: nat, ghost m: Model)
    requires c.Valid() && Shows(c, m) && smi < ID_LIMIT && key in c.scLinks
    modifies c`scLinks, {c.scLinks[key]}`stq, {c.scLinks[key]}`dump
    ensures c.Valid() && key in m.awaited
    ensures Shows(c, m.(log := Completed(m.log, m.awaited[key], smi), awaited := m.awaited - {key}))
  {
    hide *;
    c.Parts();
    Split(c, m);
    AwaitedAt(c, key, m);
    ghost var an := c.scLinks[key];
    LogEntries(c.history, m.log);
    EntryIs(an);
    c.Resolve(key, smi);
    EntryIs(an);
    c.Whole();
    LogCompleted(c.history, m.log, m.awaited[key], an, smi);
    LinkGone(old(c.scLinks), c.history, m.awaited, key);
    Join(c, m.(log := Completed(m.log, m.awaited[key], smi), awaited := m.awaited - {key}));
  }

  lemma {:induction false} AwaitedAt(c: Cpa, key: (nat, Id), m: Model)
    requires ShowsAwaited(c.scLinks, c.history, m.awaited) && key in c.scLinks && c.LogOk()
    ensures key in m.awaited && m.awaited[key] < |c.history| && c.history[m.awaited[key]] == c.scLinks[key]
    ensures Distinct(c.history)
  {
  }

  lemma {:induction false} LinkGone(links: map<(nat, Id), AnnotateData>, h: seq<AnnotateData>,
                                    awaited: map<(nat, Id), nat>, key: (nat, Id))
    requires ShowsAwaited(links, h, awaited)
    ensures ShowsAwaited(links - {key}, h, awaited - {key})
  {
    assert (links - {key}).Keys == links.Keys - {key} && (awaited - {key}).Keys == awaited.Keys - {key};
  }

  lemma {:induction false} EntryIs(r: AnnotateData)
    ensures r.AsEntry() == Entry(r.time, r.origData, r.sm, r.stq, r.op, r.flag, r.cpu)
  {
  }

  lemma {:induction false} LogEntries(h: seq<AnnotateData>, log: seq<Entry>)
    requires ShowsLog(h, log)
    ensures |h| == |log| && forall k :: 0 <= k < |h| ==> log[k] == h[k].AsEntry()
  {
  }

  /** Completing one record changes one entry. */
  lemma {:induction false} LogCompleted(h: seq<AnnotateData>, log: seq<Entry>, i: nat, an: AnnotateData, smi: nat)
    requires |h| == |log| && i < |h| && h[i] == an && Distinct(h) && smi < ID_LIMIT
    requires log[i].(stq := smi) == an.AsEntry()
    requires forall k :: 0 <= k < |h| && h[k] != an ==> log[k] == h[k].AsEntry()
    ensures ShowsLog(h, Completed(log, i, smi))
  {
  }

  /** Complete the link of a machine that was waiting for this one. */
  method Arrive(c: Cpa, key: (nat, Id), smi: nat, ghost m: Model)
    requires c.Valid() && Shows(c, m) && smi < ID_LIMIT
    modifies c`scLinks, c`lnMap, Awaited(c.scLinks, key)`stq, Awaited(c.scLinks, key)`dump
    ensures c.Valid() && Shows(c, Arrives(m, key, smi))
  {
    hide Cpa.Valid, Shows;
    AwaitedShown(c, key, m);
    if key in c.scLinks {
      var waiting := c.scLinks[key].sm;
      ResolveLink(c, key, smi, m);
      SetLink(c, smi, waiting, m.(log := Completed(m.log, m.awaited[key], smi), awaited := m.awaited - {key}));
    }
  }

  lemma {:induction false} AwaitedShown(c: Cpa, key: (nat, Id), m: Model)
    requires c.Valid() && Shows(c, m)
    ensures key in c.scLinks <==> key in m.awaited
    ensures key in c.scLinks ==>
      c.scLinks[key] in c.history && c.scLinks[key].sm == Waiting(m, key) && c.scLinks[key].sm < ID_LIMIT
  {
    hide Cpa.TablesOk, Cpa.LogOk, Cpa.QueuesOk, ShowsQueues, ShowsStates;
  }

  // ----- Machines -----

  lemma {:induction false} TopBelow(c: Cpa, sid: StackId)
    requires c.Valid() && StackOf(c.smStack, sid) != []
    ensures 1 <= LastOf(StackOf(c.smStack, sid)) < ID_LIMIT && LastOf(StackOf(c.smStack, sid)) <= |c.smMap|
  {
    hide Cpa.TablesOk, Cpa.LogOk, Cpa.HeldOk, Cpa.QueuesOk;
    NumbersBelow(c);
    StacksPop(c.smStack, c.smMap, sid);
  }

  lemma {:induction false} CallerBelow(c: Cpa, sid: StackId, flags: nat)
    requires c.Valid()
    ensures Caller(StackOf(c.smStack, sid), flags) < ID_LIMIT
  {
    hide Cpa.Valid;
    if StackOf(c.smStack, sid) != [] {
      TopBelow(c, sid);
    }
  }

  /** Enter a state of machine `smi`, if one is named. */
  method EnterState(c: Cpa, smi: nat, kind: string, st: string, cpu: nat, tick: nat, ghost m: Model)
    requires c.Valid() && Shows(c, m)
    modifies c`smtCache, c`numSmt, c`stCache, c`numSt, c`smtNames, c`stNames, c`lastState, c`data, c`history, c`osbin,
             c`numRecs, c`annotateIdx, c`written
    ensures c.Valid() && Shows(c, EntersState(m, smi, kind, st, cpu, tick))
    ensures old(c.written) <= c.written
    ensures forall r :: r in c.history ==> r in old(c.history) || fresh(r)
  {
    hide Cpa.Valid, Shows, WithState, StateNumber;
    if st != "" {
      var sti := State(c, kind, st, m);
      ghost var m' := WithState(m, kind, st);
      SetLast(c, smi, sti, m');
      Note(c, EntryOf(tick, 0, smi, sti, OP_BEGIN, FL_NONE, cpu), m'.(last := m'.last[smi := sti]));
    }
  }

  method SetLast(c: Cpa, smi: nat, sti: nat, ghost m: Model)
    requires c.Valid() && Shows(c, m)
    modifies c`lastState
    ensures c.Valid() && Shows(c, m.(last := m.last[smi := sti]))
  {
    hide *;
    Split(c, m);
    c.lastState := c.lastState[smi := sti];
    Join(c, m.(last := m.last[smi := sti]));
  }

  method SetMode(c: Cpa, expl: map<StackId, bool>, ghost m: Model)
    requires c.Valid() && Shows(c, m)
    modifies c`swExpl
    ensures c.Valid() && Shows(c, m.(expl := expl)) && c.swExpl == expl
  {
    hide *;
    Split(c, m);
    c.swExpl := expl;
    Join(c, m.(expl := expl));
  }

  /** Put a machine on its frame's stack and join its links; `ok` is false when a link assertion fails. */
  method Place(c: Cpa, sid: StackId, smi: nat, prev: nat, sm: string, cpu: nat, tick: nat, ghost m: Model)
    returns (ok: bool)
    requires c.Valid() && Shows(c, m) && OnStack(smi, sid.0, c.smMap) && prev < ID_LIMIT && smi < ID_LIMIT
    modifies c`smStack, c`swExpl, c`lnMap, c`data, c`history, c`osbin, c`numRecs, c`annotateIdx, c`written, c`scLinks,
             c.history`stq, c.history`dump
    ensures Places(m, sid, smi, prev, sm, cpu, tick).how == if ok then Done else Stopped
    ensures ok ==> c.Valid() && Shows(c, Places(m, sid, smi, prev, sm, cpu, tick).m)
    ensures old(c.written) <= c.written
    ensures forall r :: r in c.history ==> r in old(c.history) || fresh(r)
  {
    hide Cpa.Valid, Shows, ShowsFields, ShowsStates, ShowsLog, ShowsAwaited, ShowsQueues, LinksBack, Pushes, Arrives,
         OnStack, At;
    var key := (sid.0, (sm, sid.1));
    AwaitedShown(c, key, m);
    Split(c, m);
    LinksKept(m, prev, smi, cpu, tick, sid);
    if prev != 0 && At(c.lnMap, smi) != 0 {
      return false;
    }
    LinkBack(c, prev, smi, cpu, tick, m);
    ghost var m1 := LinksBack(m, prev, smi, cpu, tick);
    Push(c, sid, smi, m1);
    Split(c, Pushes(m1, sid, smi));
    if key in c.scLinks && At(c.lnMap, smi) != 0 {
      return false;
    }
    Arrive(c, key, smi, Pushes(m1, sid, smi));
    ok := true;
  }

  lemma {:induction false} LinksKept(m: Model, prev: nat, smi: nat, cpu: nat, tick: nat, sid: StackId)
    ensures var m' := Pushes(LinksBack(m, prev, smi, cpu, tick), sid, smi);
      m'.awaited == m.awaited && At(m'.links, smi) == if prev == 0 then At(m.links, smi) else prev
  {
  }

  /** Start a machine in a frame: it goes on the frame's stack, is linked back to the machine that called for
      it or that was waiting for it, and its first state is logged. */
  method SwSmBegin(c: Cpa, s: System, frame: nat, cpu: nat, tick: nat, sm: string, id: nat, flags: nat, st: string,
                   ghost m: Model) returns (how: Outcome)
    requires c.Valid() && Shows(c, m)
    modifies c`nameCache, c`numSys, c`systems, c`numQ, c`qCache, c`smCache, c`numSm, c`smMap, c`smStack, c`swExpl,
             c`lnMap,
             c`data, c`history, c`osbin, c`numRecs, c`annotateIdx, c`written, c`scLinks,
             c`smtCache, c`numSmt, c`stCache, c`numSt, c`smtNames, c`stNames, c`lastState, c.history`stq, c.history`dump
    ensures how == Begins(m, s, frame, cpu, tick, sm, id, flags, st).how
    ensures !how.Stopped? ==> c.Valid() && Shows(c, Begins(m, s, frame, cpu, tick, sm, id, flags, st).m)
    ensures how.Done? && CpaLaws.ModelOk(m) && flags / 0x10 % 2 == 1 ==>
      var sysi := Find(c.systems, s); LedBack(c, (sysi, (sm, id)), StackOf(m.stacks, (sysi, frame)))
    ensures old(c.written) <= c.written
    ensures forall r :: r in c.history ==> r in old(c.history) || fresh(r)
  {
    hide Cpa.Valid, Shows, ShowsFields, ShowsStates, ShowsLog, ShowsAwaited, ShowsQueues, WithSystem, WithMachine,
         MachinesFull, Places, EntersState, Find, OnStack, Caller;
    var sid := Lookup(c, s, frame, m);
    ghost var m1 := WithSystem(m, s);
    var smi, ok := Machine(c, sid.0, sm, id, m1);
    if !ok {
      return Stopped;
    }
    ghost var m2 := WithMachine(m1, (sid.0, (sm, id)));
    Split(c, m2);
    var prev := Caller(StackOf(c.smStack, sid), flags);
    CallerBelow(c, sid, flags);
    ok := Place(c, sid, smi, prev, sm, cpu, tick, m2);
    if !ok {
      return Stopped;
    }
    EnterState(c, smi, sm, st, cpu, tick, Places(m2, sid, smi, prev, sm, cpu, tick).m);
    how := Done;
    if CpaLaws.ModelOk(m) && flags / 0x10 % 2 == 1 {
      LinkFound(c, s, frame, cpu, tick, sm, id, flags, st, m);
    }
  }

  /** The machine with this key leads back to the one on top of the stack. */
  ghost predicate LedBack(c: Cpa, key: (nat, Id), stack: seq<nat>)
    reads c`smMap, c`lnMap
  {
    stack != [] ==> At(c.lnMap, Find(c.smMap, key)) == stack[|stack| - 1]
  }

  lemma {:induction false} LinkFound(c: Cpa, s: System, frame: nat, cpu: nat, tick: nat, sm: string, id: nat,
                                     flags: nat, st: string, m: Model)
    requires CpaLaws.ModelOk(m) && flags / 0x10 % 2 == 1
    requires Begins(m, s, frame, cpu, tick, sm, id, flags, st).how.Done?
    requires Shows(c, Begins(m, s, frame, cpu, tick, sm, id, flags, st).m)
    ensures var sysi := Find(c.systems, s); LedBack(c, (sysi, (sm, id)), StackOf(m.stacks, (sysi, frame)))
  {
    hide Begins, Shows, Find, CpaLaws.ModelOk, ShowsFields, ShowsStates, ShowsLog, ShowsAwaited, ShowsQueues;
    Split(c, Begins(m, s, frame, cpu, tick, sm, id, flags, st).m);
    CpaLaws.BegunParts(m, s, frame, cpu, tick, sm, id, flags, st);
    var sid := (Find(WithSystem(m, s).systems, s), frame);
    if StackOf(m.stacks, sid) != [] {
      CpaLog.BegunLink(m, s, frame, cpu, tick, sm, id, flags, st, sid);
    }
  }

  /** Drop a machine's link and log where it led. */
  method Unlink(c: Cpa, smi: nat, cpu: nat, tick: nat, ghost m: Model)
    requires c.Valid() && Shows(c, m)
    modifies c`lnMap, c`data, c`history, c`osbin, c`numRecs, c`annotateIdx, c`written
    ensures c.Valid() && Shows(c, Unlinks(m, smi, cpu, tick))
    ensures old(c.written) <= c.written
    ensures forall r :: r in c.history ==> r in old(c.history) || fresh(r)
  {
    hide Cpa.Valid, Shows, ShowsFields, ShowsStates, ShowsLog, ShowsAwaited, ShowsQueues;
    Split(c, m);
    var link := At(c.lnMap, smi);
    DropLink(c, smi, m);
    if link != 0 {
      Note(c, EntryOf(tick, 0, smi, link, OP_LINK, FL_NONE, cpu), m.(links := m.links - {smi}));
    }
  }

  method DropLink(c: Cpa, smi: nat, ghost m: Model)
    requires c.Valid() && Shows(c, m)
    modifies c`lnMap
    ensures c.Valid() && Shows(c, m.(links := m.links - {smi})) && At(m.links, smi) < ID_LIMIT
  {
    hide *;
    c.Parts();
    Split(c, m);
    LinksSet(c.lnMap, smi, 0);
    c.lnMap := c.lnMap - {smi};
    c.Whole();
    Join(c, m.(links := m.links - {smi}));
  }

  method SetStack(c: Cpa, sid: StackId, ghost m: Model)
    requires c.Valid() && Shows(c, m) && StackOf(c.smStack, sid) != []
    modifies c`smStack
    ensures c.Valid()
    ensures var stack := StackOf(m.stacks, sid);
      stack != [] && Shows(c, m.(stacks := m.stacks[sid := stack[..|stack| - 1]]))
  {
    hide Cpa.Valid, Cpa.TablesOk, Cpa.LogOk, Cpa.HeldOk, Cpa.QueuesOk, Stacks, Links, Shows;
    c.Parts();
    Split(c, m);
    hide ShowsFields, ShowsStates, ShowsLog, ShowsAwaited, ShowsQueues;
    StacksPop(c.smStack, c.smMap, sid);
    var stack := c.smStack[sid];
    c.smStack := c.smStack[sid := stack[..|stack| - 1]];
    c.Whole();
    Join(c, m.(stacks := m.stacks[sid := stack[..|stack| - 1]]));
  }

  method Pop(c: Cpa, sid: StackId, cpu: nat, tick: nat, ghost m: Model)
    requires c.Valid() && Shows(c, m) && StackOf(m.stacks, sid) != []
    modifies c`smStack, c`lnMap, c`data, c`history, c`osbin, c`numRecs, c`annotateIdx, c`written
    ensures c.Valid() && Shows(c, Pops(m, sid, cpu, tick))
    ensures old(c.written) <= c.written
    ensures forall r :: r in c.history ==> r in old(c.history) || fresh(r)
  {
    hide Cpa.Valid, Shows, ShowsFields, ShowsStates, ShowsLog, ShowsAwaited, ShowsQueues, Unlinks;
    Split(c, m);
    var stack := StackOf(c.smStack, sid);
    var smi, n := LastOf(stack), |stack| - 1;
    SetStack(c, sid, m);
    ghost var m1 := m.(stacks := m.stacks[sid := stack[..n]]);
    Unlink(c, smi, cpu, tick, m1);
    ghost var m2 := Unlinks(m1, smi, cpu, tick);
    Split(c, m2);
    if n > 0 {
      Note(c, EntryOf(tick, 0, smi, At(c.lastState, smi), OP_BEGIN, FL_NONE, cpu), m2);
    }
  }

  /** Whether the top machine has this name. The assertion that looks the machine up again always holds. */
  method CheckTop(c: Cpa, sid: StackId, sm: string, ghost m: Model) returns (found: bool)
    requires c.Valid() && Shows(c, m) && StackOf(c.smStack, sid) != []
    modifies c`smCache, c`numSm, c`smMap
    ensures c.Valid() && Shows(c, m) && (found <==> NameOf(m.smMap, LastOf(StackOf(m.stacks, sid))) == sm)
  {
    hide Cpa.Valid, SmTable, QTable, StTable, SysTable, Stacks, Links, Cpa.LogOk, Cpa.HeldOk, Cpa.QueuesOk, Shows;
    Split(c, m);
    hide ShowsFields, ShowsStates, ShowsLog, ShowsAwaited, ShowsQueues;
    var stack := c.smStack[sid];
    var top := stack[|stack| - 1];
    c.Parts();
    TopIsInterned(c.smStack, c.numSys, c.numSm, c.smCache, c.smMap, sid);
    found := c.smMap[top - 1].1.0 == sm;
    if found {
      var again, ok := c.GetSm(sid.0, sm, c.smMap[top - 1].1.1);
      assert ok && again == top;
    }
    c.Whole();
    Join(c, m);
  }

  /** End the machine on top of a frame's stack. Reading the top of an empty stack is undefined in the
      source; the model stops there. */
  method DoSwSmEnd(c: Cpa, s: System, frame: nat, cpu: nat, tick: nat, sm: string, ghost m: Model)
    returns (how: Outcome)
    requires c.Valid() && Shows(c, m)
    modifies c`nameCache, c`numSys, c`systems, c`numQ, c`qCache, c`smCache, c`numSm, c`smMap, c`swExpl, c`smStack,
             c`lnMap,
             c`data, c`history, c`osbin, c`numRecs, c`annotateIdx, c`written
    ensures c.Valid() && how == Ends(m, s, frame, cpu, tick, sm).how
    ensures Shows(c, Ends(m, s, frame, cpu, tick, sm).m)
    ensures old(c.written) <= c.written
    ensures forall r :: r in c.history ==> r in old(c.history) || fresh(r)
  {
    hide Cpa.Valid, Shows, ShowsFields, ShowsStates, ShowsLog, ShowsAwaited, ShowsQueues, WithSystem, Find, Automatic,
         StackOf, NameOf, LastOf, Pops;
    var sid := Lookup(c, s, frame, m);
    ghost var m1 := WithSystem(m, s);
    Split(c, m1);
    SetMode(c, Automatic(c.swExpl, sid), m1);
    ghost var m2 := m1.(expl := Automatic(m1.expl, sid));
    Split(c, m2);
    if StackOf(c.smStack, sid) == [] {
      return Stopped;
    }
    var found := CheckTop(c, sid, sm, m2);
    if !found {
      return Ignored;
    }
    Pop(c, sid, cpu, tick, m2);
    how := Done;
  }

  // ----- States and links -----

  method ChangeState(c: Cpa, smi: nat, st: string, cpu: nat, flags: nat, tick: nat, ghost m: Model)
    requires c.Valid() && Shows(c, m) && 1 <= smi <= |c.smMap|
    modifies c`smtCache, c`numSmt, c`stCache, c`numSt, c`smtNames, c`stNames, c`lastState, c`data, c`history, c`osbin,
             c`numRecs, c`annotateIdx, c`written
    ensures c.Valid() && Shows(c, ChangesState(m, smi, st, cpu, flags, tick))
    ensures old(c.written) <= c.written
    ensures forall r :: r in c.history ==> r in old(c.history) || fresh(r)
  {
    hide Cpa.Valid, Shows, ShowsFields, ShowsStates, ShowsLog, ShowsAwaited, ShowsQueues, WithState, StateNumber;
    Split(c, m);
    var kind := c.smMap[smi - 1].1.0;
    var sti := State(c, kind, st, m);
    ghost var m' := WithState(m, kind, st);
    Split(c, m');
    if At(c.lastState, smi) != sti {
      SetLast(c, smi, sti, m');
      Note(c, EntryOf(tick, 0, smi, sti, OP_BEGIN, flags, cpu), m'.(last := m'.last[smi := sti]));
    }
  }

  /** The loop over the symbols to be ignored. */
  method SkipsSymbol(st: string) returns (skip: bool)
    ensures skip == Skipped(st)
  {
    var x := 0;
    while x < |IGNORED|
      invariant 0 <= x <= |IGNORED|
      invariant forall i :: 0 <= i < x ==> !(Quoted(IGNORED[i]) <= st)
    {
      if Quoted(IGNORED[x]) <= st {
        return true;
      }
      x := x + 1;
    }
    return false;
  }

  /** Enter a state of the running machine. States found automatically are ignored in explicit-state mode, and
      entering the current state again logs nothing. */
  method SwBegin(c: Cpa, s: System, frame: nat, cpu: nat, tick: nat, st: string, explicit: bool, flags: nat,
                 ghost m: Model) returns (how: Outcome)
    requires c.Valid() && Shows(c, m)
    modifies c`nameCache, c`numSys, c`systems, c`numQ, c`qCache, c`smCache, c`swExpl,
             c`smtCache, c`numSmt, c`stCache, c`numSt, c`smtNames, c`stNames, c`lastState,
             c`data, c`history, c`osbin, c`numRecs, c`annotateIdx, c`written
    ensures c.Valid() && how == BeginsState(m, s, frame, cpu, tick, st, explicit, flags).how
    ensures Shows(c, BeginsState(m, s, frame, cpu, tick, st, explicit, flags).m)
    ensures old(c.written) <= c.written
    ensures forall r :: r in c.history ==> r in old(c.history) || fresh(r)
  {
    hide Cpa.Valid, Shows, ShowsFields, ShowsStates, ShowsLog, ShowsAwaited, ShowsQueues, WithSystem, Find, StackOf,
         LastOf, ChangesState,
         Skipped;
    var skip := SkipsSymbol(st);
    if skip {
      return Ignored;
    }
    var sid := Lookup(c, s, frame, m);
    ghost var m1 := WithSystem(m, s);
    Split(c, m1);
    if StackOf(c.smStack, sid) == [] || (!explicit && sid in c.swExpl && c.swExpl[sid]) {
      return Ignored;
    }
    ghost var m2 := m1;
    if explicit {
      SetMode(c, c.swExpl[sid := true], m1);
      m2 := m1.(expl := m1.expl[sid := true]);
    }
    TopBelow(c, sid);
    ChangeState(c, LastOf(StackOf(c.smStack, sid)), st, cpu, flags, tick, m2);
    how := Done;
  }

  method SwEnd(c: Cpa, s: System, frame: nat, cpu: nat, tick: nat, st: string, ghost m: Model) returns (how: Outcome)
    requires c.Valid() && Shows(c, m)
    modifies c`nameCache, c`numSys, c`systems, c`numQ, c`qCache, c`smCache, c`swExpl,
             c`smtCache, c`numSmt, c`stCache, c`numSt, c`smtNames, c`stNames, c`lastState,
             c`data, c`history, c`osbin, c`numRecs, c`annotateIdx, c`written
    ensures c.Valid() && how == EndsState(m, s, frame, cpu, tick, st).how
    ensures Shows(c, EndsState(m, s, frame, cpu, tick, st).m)
    ensures old(c.written) <= c.written
    ensures forall r :: r in c.history ==> r in old(c.history) || fresh(r)
  {
    hide Cpa.Valid, Shows, ShowsFields, ShowsStates, ShowsLog, ShowsAwaited, ShowsQueues, WithSystem, Find, StackOf,
         LastOf, EntersState;
    var sid := Lookup(c, s, frame, m);
    ghost var m1 := WithSystem(m, s);
    Split(c, m1);
    if StackOf(c.smStack, sid) == [] {
      return Ignored;
    }
    TopBelow(c, sid);
    var smi := LastOf(StackOf(c.smStack, sid));
    var kind := c.smMap[smi - 1].1.0;
    SetMode(c, c.swExpl[sid := false], m1);
    EnterState(c, smi, kind, st, cpu, tick, m1.(expl := m1.expl[sid := false]));
    how := Done;
  }

  /** Link the running machine to another one by name. */
  method SwLink(c: Cpa, s: System, frame: nat, cpu: nat, tick: nat, lsm: string, id: nat, ghost m: Model)
    returns (how: Outcome)
    requires c.Valid() && Shows(c, m)
    modifies c`nameCache, c`numSys, c`systems, c`numQ, c`qCache, c`smCache, c`numSm, c`smMap, c`lnMap,
             c`data, c`history, c`osbin, c`numRecs, c`annotateIdx, c`written
    ensures c.Valid() && how == LinksTo(m, s, frame, cpu, tick, lsm, id).how
    ensures Shows(c, LinksTo(m, s, frame, cpu, tick, lsm, id).m)
    ensures old(c.written) <= c.written
    ensures forall r :: r in c.history ==> r in old(c.history) || fresh(r)
  {
    hide Cpa.Valid, Shows, ShowsFields, ShowsStates, ShowsLog, ShowsAwaited, ShowsQueues, WithSystem, WithMachine,
         MachinesFull, Find, StackOf, LastOf, LinksBack, OnStack;
    var sid := Lookup(c, s, frame, m);
    ghost var m1 := WithSystem(m, s);
    Split(c, m1);
    if StackOf(c.smStack, sid) == [] {
      return Ignored;
    }
    var lsmi, ok := Machine(c, sid.0, lsm, id, m1);
    if !ok {
      return Stopped;
    }
    ghost var m2 := WithMachine(m1, (sid.0, (lsm, id)));
    Split(c, m2);
    if At(c.lnMap, lsmi) != 0 {
      return Stopped;
    }
    TopBelow(c, sid);
    LinkBack(c, LastOf(StackOf(c.smStack, sid)), lsmi, cpu, tick, m2);
    how := Done;
  }

  /** Link the running machine to one that the next system call will start in this frame. The record is held
      until then. */
  method SwSyscallLink(c: Cpa, s: System, frame: nat, cpu: nat, tick: nat, lsm: string, ghost m: Model)
    returns (how: Outcome)
    requires c.Valid() && Shows(c, m)
    modifies c`nameCache, c`numSys, c`systems, c`numQ, c`qCache, c`smCache,
             c`data, c`history, c`osbin, c`numRecs, c`annotateIdx, c`written, c`scLinks
    ensures c.Valid() && how == LinksSyscall(m, s, frame, cpu, tick, lsm).how
    ensures Shows(c, LinksSyscall(m, s, frame, cpu, tick, lsm).m)
    ensures old(c.written) <= c.written
    ensures forall r :: r in c.history ==> r in old(c.history) || fresh(r)
  {
    hide Cpa.Valid, Shows, ShowsFields, ShowsStates, ShowsLog, ShowsAwaited, ShowsQueues, WithSystem, Find, StackOf,
         LastOf, Holds;
    var sid := Lookup(c, s, frame, m);
    ghost var m1 := WithSystem(m, s);
    Split(c, m1);
    if StackOf(c.smStack, sid) == [] {
      return Ignored;
    }
    var key := (sid.0, (lsm, frame));
    AwaitedShown(c, key, m1);
    if key in c.scLinks {
      return Stopped;
    }
    TopBelow(c, sid);
    HoldLink(c, key, EntryOf(tick, 0, LastOf(StackOf(c.smStack, sid)), UNKNOWN, OP_LINK, FL_NONE, cpu), m1);
    how := Done;
  }
}
