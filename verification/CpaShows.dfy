/** The engine's fields against the model: when a model shows what an engine holds. */
module CpaShows {
  import opened Sequences
  import opened CpaRecords
  import opened CpaTables
  import opened CpaQueues
  import opened Cpa
  import opened CpaModel

  /** The state names of each kind of machine, in two forms. */
  ghost predicate SameStates(states: map<string, seq<string>>, kinds: seq<string>, names: seq<seq<string>>) {
    && |names| == |kinds|
    && (forall k :: 0 <= k < |kinds| ==> StatesOf(states, kinds[k]) == names[k])
    && (forall kind :: kind in states ==> kind in kinds)
  }

  ghost predicate ShowsStates(c: Cpa, kinds: seq<string>, states: map<string, seq<string>>)
    reads c`smtNames, c`stNames
  {
    kinds == c.smtNames && SameStates(states, c.smtNames, c.stNames)
  }

  ghost predicate ShowsLog(h: seq<AnnotateData>, log: seq<Entry>)
    reads h`stq
  {
    |log| == |h| && forall k :: 0 <= k < |log| ==> log[k] == h[k].AsEntry()
  }

  ghost predicate ShowsAwaited(links: map<(nat, Id), AnnotateData>, h: seq<AnnotateData>, awaited: map<(nat, Id), nat>)
    {
    awaited.Keys == links.Keys && forall a :: a in awaited ==> awaited[a] < |h| && h[awaited[a]] == links[a]
  }

  /** Bytes tagged by record, against bytes tagged by position in the history. */
  ghost predicate Points(h: seq<AnnotateData>, s: seq<AnnotateData>, tags: seq<nat>) {
    |s| == |tags| && forall i :: 0 <= i < |s| ==> tags[i] < |h| && h[tags[i]] == s[i]
  }

  ghost predicate ShowsQueues(qs: seq<seq<AnnotateData>>, h: seq<AnnotateData>, queues: map<nat, seq<nat>>)
    reads h`data
  {
    && (forall x :: 0 <= x < |qs| ==> From(qs[x], h) && Points(h, Stream(qs[x]), BytesOf(queues, x + 1)))
    && (forall qi :: qi in queues && !(1 <= qi <= |qs|) ==> queues[qi] == [])
  }

  ghost predicate ShowsFields(c: Cpa, m: Model)
    reads c`systems, c`smMap, c`qMap, c`smStack, c`lnMap, c`swExpl, c`lastState
  {
    && c.systems == m.systems && c.smMap == m.smMap && c.qMap == m.qMap
    && c.smStack == m.stacks && c.lnMap == m.links && c.swExpl == m.expl && c.lastState == m.last
  }

  ghost predicate Shows(c: Cpa, m: Model)
    reads c`systems, c`smMap, c`qMap, c`smStack, c`lnMap, c`swExpl, c`lastState, c`smtNames, c`stNames,
          c`history, c`scLinks, c`qData, c.history`stq, c.history`data
  {
    && ShowsFields(c, m) && ShowsStates(c, m.kinds, m.states)
    && ShowsLog(c.history, m.log) && ShowsAwaited(c.scLinks, c.history, m.awaited)
    && ShowsQueues(c.qData, c.history, m.queues)
  }

  lemma {:induction false} Split(c: Cpa, m: Model)
    requires Shows(c, m)
    ensures c.systems == m.systems && c.smMap == m.smMap && c.qMap == m.qMap && c.smStack == m.stacks
    ensures c.lnMap == m.links && c.swExpl == m.expl && c.lastState == m.last && ShowsFields(c, m)
    ensures ShowsStates(c, m.kinds, m.states) && ShowsLog(c.history, m.log)
    ensures ShowsAwaited(c.scLinks, c.history, m.awaited) && ShowsQueues(c.qData, c.history, m.queues)
  {
  }

  lemma {:induction false} Join(c: Cpa, m: Model)
    requires c.systems == m.systems && c.smMap == m.smMap && c.qMap == m.qMap && c.smStack == m.stacks
    requires c.lnMap == m.links && c.swExpl == m.expl && c.lastState == m.last
    requires ShowsStates(c, m.kinds, m.states) && ShowsLog(c.history, m.log)
    requires ShowsAwaited(c.scLinks, c.history, m.awaited) && ShowsQueues(c.qData, c.history, m.queues)
    ensures Shows(c, m)
  {
    hide ShowsStates, ShowsLog, ShowsAwaited, ShowsQueues;
  }

  lemma {:induction false} TableChanges(m: Model, s: System, key: (nat, Id))
    ensures WithSystem(m, s) == m.(systems := if s in m.systems then m.systems else m.systems + [s])
    ensures WithMachine(m, key) == m.(smMap := if key in m.smMap then m.smMap else m.smMap + [key])
    ensures WithQueue(m, key) == m.(qMap := if key in m.qMap then m.qMap else m.qMap + [key])
    ensures MachinesFull(m, key) <==> key !in m.smMap && |m.smMap| + 1 >= ID_LIMIT
    ensures QueuesFull(m, key) <==> key !in m.qMap && |m.qMap| + 1 >= ID_LIMIT
  {
  }

  lemma {:induction false} LogChanges(m: Model, key: (nat, Id), e: Entry)
    ensures Logs(m, e) == m.(log := m.log + [e])
    ensures Holds(m, key, e) == m.(awaited := m.awaited[key := |m.log|], log := m.log + [e])
  {
  }

  /** Looking up a state changes only the lists of names. */
  lemma {:induction false} StateShows(c: Cpa, m: Model, kind: string, st: string, k: nat, sti: nat)
    requires ShowsFields(c, m) && ShowsLog(c.history, m.log) && ShowsAwaited(c.scLinks, c.history, m.awaited)
    requires ShowsQueues(c.qData, c.history, m.queues)
    requires var states' := m.states[kind := Known(StatesOf(m.states, kind), st)];
      && c.smtNames == Known(m.kinds, kind) && SameStates(states', c.smtNames, c.stNames)
      && k < |c.stNames| && StatesOf(states', kind) == c.stNames[k] && Find(c.stNames[k], st) == sti
    ensures Shows(c, WithState(m, kind, st)) && StateNumber(WithState(m, kind, st), kind, st) == sti
  {
    hide ShowsLog, ShowsAwaited, ShowsQueues, SameStates, Find;
  }

  // ----- Tables -----

  lemma {:induction false} SystemShown(c: Cpa, s: System)
    requires c.TablesOk()
    ensures s in c.nameCache <==> s in c.systems
    ensures s in c.nameCache ==> Find(c.systems, s) == c.nameCache[s]
    ensures c.numSys == |c.systems|
  {
    hide SmTable, QTable, StTable;
    DenseUnique(c.nameCache, c.systems);
    if s in c.nameCache {
      FindAt(c.systems, c.nameCache[s] - 1);
    }
  }

  lemma {:induction false} MachineShown(c: Cpa, sysi: nat, id: Id)
    requires c.TablesOk() && 1 <= sysi <= |c.smCache|
    ensures id in c.smCache[sysi - 1] <==> (sysi, id) in c.smMap
    ensures id in c.smCache[sysi - 1] ==> Find(c.smMap, (sysi, id)) == c.smCache[sysi - 1][id]
  {
    hide QTable, StTable, SysTable;
    InternedUnique(c.smCache, c.smMap);
    if id in c.smCache[sysi - 1] {
      FindAt(c.smMap, c.smCache[sysi - 1][id] - 1);
    }
  }

  lemma {:induction false} QueueShown(c: Cpa, sysi: nat, id: Id)
    requires c.TablesOk() && 1 <= sysi <= |c.qCache|
    ensures id in c.qCache[sysi - 1] <==> (sysi, id) in c.qMap
    ensures id in c.qCache[sysi - 1] ==> Find(c.qMap, (sysi, id)) == c.qCache[sysi - 1][id]
  {
    hide SmTable, StTable, SysTable;
    InternedUnique(c.qCache, c.qMap);
    if id in c.qCache[sysi - 1] {
      FindAt(c.qMap, c.qCache[sysi - 1][id] - 1);
    }
  }

  lemma {:induction false} StatesGrow(states: map<string, seq<string>>, kinds: seq<string>, names: seq<seq<string>>,
                                      k: nat, kind: string, st: string)
    requires SameStates(states, kinds, names) && Distinct(kinds)
    ensures var states' := states[kind := Known(StatesOf(states, kind), st)];
      && (k < |kinds| && kinds[k] == kind ==> SameStates(states', kinds, names[k := Known(names[k], st)]))
      && (kind !in kinds ==> SameStates(states', kinds + [kind], names + [[st]]))
  {
    if kind !in kinds {
      assert StatesOf(states, kind) == [] && Known([], st) == [st];
    }
  }

  /** The lists of names after a state has been looked up. */
  ghost predicate Looked(kinds: seq<string>, names: seq<seq<string>>, kinds': seq<string>, names': seq<seq<string>>,
                         k: nat, kind: string, st: string) {
    if kind in kinds
    then k < |kinds| == |names| && kinds[k] == kind && kinds' == kinds && names' == names[k := Known(names[k], st)]
    else k == |kinds| == |names| && kinds' == kinds + [kind] && names' == names + [[st]]
  }

  lemma {:induction false} StatesLooked(states: map<string, seq<string>>, kinds: seq<string>, names: seq<seq<string>>,
                                        kinds': seq<string>, names': seq<seq<string>>, k: nat, kind: string, st: string)
    requires SameStates(states, kinds, names) && Distinct(kinds) && Looked(kinds, names, kinds', names', k, kind, st)
    ensures var states' := states[kind := Known(StatesOf(states, kind), st)];
      && kinds' == Known(kinds, kind) && SameStates(states', kinds', names')
      && k < |names'| && StatesOf(states', kind) == names'[k]
  {
    StatesGrow(states, kinds, names, k, kind, st);
  }

  lemma {:induction false} KindShown(c: Cpa, kind: string)
    requires c.TablesOk()
    ensures Distinct(c.smtNames) && |c.smtNames| == |c.stNames| && (kind in c.smtCache <==> kind in c.smtNames)
    ensures kind in c.smtCache ==> 1 <= c.smtCache[kind] <= |c.smtNames| && c.smtNames[c.smtCache[kind] - 1] == kind
  {
    hide SmTable, QTable, SysTable;
    DenseUnique(c.smtCache, c.smtNames);
  }

  lemma {:induction false} StateShown(c: Cpa, k: nat, sti: nat)
    requires c.TablesOk() && k < |c.stNames| && 1 <= sti <= |c.stNames[k]|
    ensures Find(c.stNames[k], c.stNames[k][sti - 1]) == sti
  {
    hide SmTable, QTable, SysTable;
    DenseUnique(c.stCache[k], c.stNames[k]);
    FindAt(c.stNames[k], sti - 1);
  }

  // ----- Bytes -----

  lemma {:induction false} PointsMore(h: seq<AnnotateData>, h': seq<AnnotateData>, s: seq<AnnotateData>, tags: seq<nat>)
    requires Points(h, s, tags) && h <= h'
    ensures Points(h', s, tags)
  {
  }

  /** A longer history shows the same links and bytes. */
  lemma {:induction false} MoreHistory(h: seq<AnnotateData>, r: AnnotateData, log: seq<Entry>,
                                       links: map<(nat, Id), AnnotateData>, awaited: map<(nat, Id), nat>,
                                       qs: seq<seq<AnnotateData>>, queues: map<nat, seq<nat>>)
    requires ShowsLog(h, log) && ShowsAwaited(links, h, awaited) && ShowsQueues(qs, h, queues)
    ensures ShowsLog(h + [r], log + [r.AsEntry()])
    ensures ShowsAwaited(links, h + [r], awaited) && ShowsQueues(qs, h + [r], queues)
    ensures forall a {:trigger links[a := r]} :: ShowsAwaited(links[a := r], h + [r], awaited[a := |log|])
  {
    hide Stream;
    forall x | 0 <= x < |qs| ensures From(qs[x], h + [r]) && Points(h + [r], Stream(qs[x]), BytesOf(queues, x + 1)) {
      PointsMore(h, h + [r], Stream(qs[x]), BytesOf(queues, x + 1));
    }
  }

  lemma {:induction false} PointsAdd(h: seq<AnnotateData>, r: AnnotateData, s: seq<AnnotateData>, tags: seq<nat>,
                                     n: nat)
    requires Points(h, s, tags)
    ensures Points(h + [r], s + Repeat(r, n), tags + Tagged(|h|, n))
    ensures Points(h + [r], Repeat(r, n) + s, Tagged(|h|, n) + tags)
  {
  }

  lemma {:induction false} PointsCut(h: seq<AnnotateData>, s: seq<AnnotateData>, tags: seq<nat>, k: nat)
    requires Points(h, s, tags) && k <= |s|
    ensures Points(h, s[k..], tags[k..]) && Points(h, s[..k], tags[..k])
  {
  }

  // ----- Every engine has a model -----

  ghost function Entries(h: seq<AnnotateData>): (log: seq<Entry>)
    reads h`stq
    ensures ShowsLog(h, log)
  {
    if h == [] then [] else Entries(h[..|h| - 1]) + [h[|h| - 1].AsEntry()]
  }

  /** Where in the history a record is. */
  ghost function Place(h: seq<AnnotateData>, r: AnnotateData): (k: nat)
    requires r in h
    ensures k < |h| && h[k] == r
  {
    var k :| 0 <= k < |h| && h[k] == r; k
  }

  ghost function Tags(h: seq<AnnotateData>, s: seq<AnnotateData>): (tags: seq<nat>)
    requires forall i :: 0 <= i < |s| ==> s[i] in h
    ensures Points(h, s, tags)
  {
    seq(|s|, i requires 0 <= i < |s| => Place(h, s[i]))
  }

  lemma {:induction false} StatesExist(kinds: seq<string>, names: seq<seq<string>>)
    returns (states: map<string, seq<string>>)
    requires |kinds| == |names| && Distinct(kinds)
    ensures SameStates(states, kinds, names)
  {
    states := map[];
    for k := 0 to |kinds|
      invariant SameStates(states, kinds[..k], names[..k])
    {
      assert kinds[k] !in kinds[..k];
      states := states[kinds[k] := names[k]];
      assert kinds[..k + 1] == kinds[..k] + [kinds[k]] && names[..k + 1] == names[..k] + [names[k]];
    }
    assert kinds[..|kinds|] == kinds && names[..|names|] == names;
  }

  lemma {:induction false} QueuesExist(qs: seq<seq<AnnotateData>>, h: seq<AnnotateData>)
    returns (queues: map<nat, seq<nat>>)
    requires forall x :: 0 <= x < |qs| ==> From(qs[x], h)
    ensures ShowsQueues(qs, h, queues)
  {
    hide Stream;
    queues := map[];
    for x := 0 to |qs|
      invariant ShowsQueues(qs[..x], h, queues)
    {
      StreamIn(qs[x]);
      queues := queues[x + 1 := Tags(h, Stream(qs[x]))];
      assert qs[..x + 1] == qs[..x] + [qs[x]];
    }
    assert qs[..|qs|] == qs;
  }

  lemma {:induction false} AwaitedExists(links: map<(nat, Id), AnnotateData>, h: seq<AnnotateData>)
    returns (awaited: map<(nat, Id), nat>)
    requires forall a :: a in links ==> links[a] in h
    ensures ShowsAwaited(links, h, awaited)
  {
    awaited := map a | a in links :: Place(h, links[a]);
  }

  /** Every valid engine has a model. */
  lemma {:induction false} HasModel(c: Cpa) returns (m: Model)
    requires c.Valid()
    ensures Shows(c, m)
  {
    hide *;
    c.Parts();
    Refers(c);
    KindShown(c, "");
    var states := StatesExist(c.smtNames, c.stNames);
    var queues := QueuesExist(c.qData, c.history);
    var awaited := AwaitedExists(c.scLinks, c.history);
    m := Model(c.systems, c.smMap, c.qMap, c.smtNames, states, c.smStack, c.lnMap, c.swExpl, c.lastState,
               Entries(c.history), awaited, queues);
    StatesShown(c, states);
    Join(c, m);
  }

  lemma {:induction false} StatesShown(c: Cpa, states: map<string, seq<string>>)
    requires SameStates(states, c.smtNames, c.stNames)
    ensures ShowsStates(c, c.smtNames, states)
  {
  }

  /** Queues and held links refer to logged records. */
  lemma {:induction false} Refers(c: Cpa)
    requires c.HeldOk() && c.QueuesOk()
    ensures forall x :: 0 <= x < |c.qData| ==> From(c.qData[x], c.history)
    ensures forall a :: a in c.scLinks ==> c.scLinks[a] in c.history
  {
    hide QueueOk;
  }

  /** A new engine shows the empty model. */
  lemma {:induction false} NewShows(c: Cpa)
    requires c.Valid() && c.history == [] && c.systems == [] && c.numSm == c.numQs == 0 && c.scLinks == map[]
    requires c.smStack == map[] && c.lnMap == map[] && c.swExpl == map[] && c.lastState == map[]
    requires c.smtNames == [] && c.stNames == []
    ensures Shows(c, EMPTY)
  {
    hide Cpa.LogOk, Cpa.HeldOk, StTable, SysTable, Stream;
  }
}
