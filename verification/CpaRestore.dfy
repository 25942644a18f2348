/** Checkpointing the whole annotation engine: what is saved, what comes back, and when it behaves the same. */
module CpaRestore {
  import opened Sequences
  import opened CpaRecords
  import opened CpaTables
  import opened CpaQueues
  import opened Cpa
  import opened CpaModel
  import opened CpaShows
  import opened CpaLaws
  import opened CpaAgree
  import opened CpaReplay
  import opened CpaCheckpoint
  import opened CpaRuns

  /** The engine's section of a checkpoint. Outstanding system-call links and pending records are not saved. */
  datatype Checkpoint = Checkpoint(tables: TableData, machines: MachineData, queues: QueueData)

  datatype TableData = TableData(
    numSm: nat, numSmt: nat, numSt: seq<nat>, numQ: seq<nat>, numSys: nat, numQs: nat,
    smtCache: Family<(string, nat)>, stCache: Family<Family<(string, nat)>>, qCache: Family<Family<(Id, nat)>>,
    smCacheSize: Family<nat>, smCache: Family<Family<(Id, nat)>>, nameCache: Family<(System, nat)>,
    smMap: Family<(nat, Id)>, qMap: Family<(nat, Id)>)

  datatype MachineData = MachineData(
    smStackIdCount: nat, smStackId: Family<(StackId, seq<nat>)>, lnMapSize: nat, lnMap: Family<(nat, nat)>,
    swExplCount: nat, swExpl: Family<(StackId, bool)>, lastStateSize: nat, lastState: Family<(nat, nat)>)

  datatype QueueData = QueueData(qSize: seq<int>, qBytes: seq<int>, records: Family<Family<Entry>>)

  function Sizes(rows: IdCache): seq<nat> {
    seq(|rows|, i requires 0 <= i < |rows| => |rows[i]|)
  }

  // ----- Tables -----

  ghost predicate SavedTables(t: TableData, c: Cpa)
    reads c
  {
    && t.numSm == c.numSm && t.numSmt == c.numSmt && t.numSt == c.numSt && t.numQ == c.numQ
    && t.numSys == c.numSys && t.numQs == c.numQs
    && Saves(t.smtCache, c.smtCache) && SavesRows(t.stCache, c.stCache) && SavesRows(t.qCache, c.qCache)
    && SavesSeq(t.smCacheSize, Sizes(c.smCache)) && SavesRows(t.smCache, c.smCache)
    && Saves(t.nameCache, c.nameCache) && SavesSeq(t.smMap, c.smMap) && SavesSeq(t.qMap, c.qMap)
  }

  ghost predicate SameNames(d: Cpa, c: Cpa)
    reads d`numSmt, d`numSt, d`numSys, d`smtCache, d`stCache, d`nameCache, d`smtNames, d`stNames, d`systems,
          c`numSmt, c`numSt, c`numSys, c`smtCache, c`stCache, c`nameCache, c`smtNames, c`stNames, c`systems
  {
    && d.numSmt == c.numSmt && d.numSt == c.numSt && d.numSys == c.numSys
    && d.smtCache == c.smtCache && d.stCache == c.stCache && d.nameCache == c.nameCache
    && d.smtNames == c.smtNames && d.stNames == c.stNames && d.systems == c.systems
  }

  ghost predicate SameIds(d: Cpa, c: Cpa)
    reads d`numSm, d`numQ, d`numQs, d`qCache, d`smCache, d`smMap, d`qMap,
          c`numSm, c`numQ, c`numQs, c`qCache, c`smCache, c`smMap, c`qMap
  {
    && d.numSm == c.numSm && d.numQ == c.numQ && d.numQs == c.numQs
    && d.qCache == c.qCache && d.smCache == c.smCache && d.smMap == c.smMap && d.qMap == c.qMap
  }

  method SaveTables(c: Cpa) returns (t: TableData)
    ensures SavedTables(t, c)
  {
    hide Saves, SavesRows, SavesSeq, Sizes;
    var smt := SaveMap(c.smtCache);
    var st := SaveRows(c.stCache);
    var q := SaveRows(c.qCache);
    var sizes := SaveSeq(Sizes(c.smCache));
    var sm := SaveRows(c.smCache);
    var names := SaveMap(c.nameCache);
    var smMap := SaveSeq(c.smMap);
    var qMap := SaveSeq(c.qMap);
    t := TableData(c.numSm, c.numSmt, c.numSt, c.numQ, c.numSys, c.numQs, smt, st, q, sizes, sm, names, smMap, qMap);
  }

  /** Each counter equals the size of the container it is used to read back. */
  lemma {:induction false} CountersAgree(c: Cpa)
    requires c.TablesOk()
    ensures c.numSmt == |c.smtCache| == |c.stCache| == |c.numSt| && c.numSys == |c.nameCache|
    ensures c.numSys == |c.qCache| == |c.smCache| == |c.numQ| && c.numSm == |c.smMap| && c.numQs == |c.qMap|
    ensures forall x :: 0 <= x < |c.stCache| ==> c.numSt[x] == |c.stCache[x]|
    ensures forall x :: 0 <= x < |c.qCache| ==> c.numQ[x] == |c.qCache[x]|
  {
    hide Interned;
  }

  method LoadNames(d: Cpa, t: TableData, ghost c: Cpa)
    requires SavedTables(t, c) && c.TablesOk() && c != d
    modifies d`numSmt, d`numSt, d`numSys, d`smtCache, d`stCache, d`nameCache, d`smtNames, d`stNames, d`systems
    ensures SameNames(d, c)
  {
    hide Cpa.TablesOk, Saves, SavesRows, SavesSeq, Sizes;
    CountersAgree(c);
    var smt := LoadMap(t.smtCache, t.numSmt, c.smtCache);
    var st := LoadRows(t.stCache, t.numSmt, t.numSt, c.stCache);
    var names := LoadMap(t.nameCache, t.numSys, c.nameCache);
    d.numSmt, d.numSt, d.numSys := t.numSmt, t.numSt, t.numSys;
    d.smtCache, d.stCache, d.nameCache := smt, st, names;
    d.smtNames, d.stNames, d.systems := c.smtNames, c.stNames, c.systems;
  }

  method LoadIds(d: Cpa, t: TableData, ghost c: Cpa)
    requires SavedTables(t, c) && c.TablesOk() && c != d
    modifies d`numSm, d`numQ, d`numQs, d`qCache, d`smCache, d`smMap, d`qMap
    ensures SameIds(d, c)
  {
    hide Cpa.TablesOk, Saves, SavesRows, SavesSeq, Sizes;
    CountersAgree(c);
    SizesAre(c.smCache);
    var q := LoadRows(t.qCache, t.numSys, t.numQ, c.qCache);
    var sizes := LoadSeq(t.smCacheSize, t.numSys, Sizes(c.smCache));
    var sm := LoadRows(t.smCache, t.numSys, sizes, c.smCache);
    var smMap := LoadSeq(t.smMap, t.numSm, c.smMap);
    var qMap := LoadSeq(t.qMap, t.numQs, c.qMap);
    d.numSm, d.numQ, d.numQs := t.numSm, t.numQ, t.numQs;
    d.qCache, d.smCache, d.smMap, d.qMap := q, sm, smMap, qMap;
  }

  lemma {:induction false} SizesAre(rows: IdCache)
    ensures |Sizes(rows)| == |rows| && forall x :: 0 <= x < |rows| ==> Sizes(rows)[x] == |rows[x]|
  {
  }

  lemma {:induction false} TablesCopied(d: Cpa, c: Cpa)
    requires c.TablesOk() && SameNames(d, c) && SameIds(d, c)
    ensures d.TablesOk()
  {
    hide SmTable, QTable, StTable, SysTable;
  }

  // ----- Machines -----

  ghost predicate SavedMachines(m: MachineData, c: Cpa)
    reads c`smStack, c`lnMap, c`swExpl, c`lastState
  {
    && m.smStackIdCount == |c.smStack| && Saves(m.smStackId, c.smStack)
    && m.lnMapSize == |c.lnMap| && Saves(m.lnMap, c.lnMap)
    && m.swExplCount == |c.swExpl| && Saves(m.swExpl, c.swExpl)
    && m.lastStateSize == |c.lastState| && Saves(m.lastState, c.lastState)
  }

  ghost predicate SameMachines(d: Cpa, c: Cpa)
    reads d`smStack, d`lnMap, d`swExpl, d`lastState, c`smStack, c`lnMap, c`swExpl, c`lastState
  {
    d.smStack == NonEmpty(c.smStack) && d.lnMap == c.lnMap && d.swExpl == c.swExpl && d.lastState == c.lastState
  }

  method SaveMachines(c: Cpa) returns (m: MachineData)
    ensures SavedMachines(m, c)
  {
    hide Saves;
    var stacks := SaveMap(c.smStack);
    var links := SaveMap(c.lnMap);
    var expl := SaveMap(c.swExpl);
    var last := SaveMap(c.lastState);
    m := MachineData(|c.smStack|, stacks, |c.lnMap|, links, |c.swExpl|, expl, |c.lastState|, last);
  }

  method LoadMachines(d: Cpa, m: MachineData, ghost c: Cpa)
    requires SavedMachines(m, c) && c != d
    modifies d`smStack, d`lnMap, d`swExpl, d`lastState
    ensures SameMachines(d, c)
  {
    hide Saves, NonEmpty;
    d.smStack := LoadStacks(m.smStackId, m.smStackIdCount, c.smStack);
    d.lnMap := LoadMap(m.lnMap, m.lnMapSize, c.lnMap);
    d.swExpl := LoadMap(m.swExpl, m.swExplCount, c.swExpl);
    d.lastState := LoadMap(m.lastState, m.lastStateSize, c.lastState);
  }

  lemma {:induction false} StacksCopied(stacks: map<StackId, seq<nat>>, table: IdMap)
    requires Stacks(stacks, table)
    ensures Stacks(NonEmpty(stacks), table)
  {
  }

  // ----- Queues -----

  /** Whose byte it is, leaving out how many bytes of the record are left. */
  ghost function ByteTag(r: AnnotateData): Entry
    reads r`stq
  {
    Entry(r.time, 0, r.sm, r.stq, r.op, r.flag, r.cpu)
  }

  /** The same bytes, tag by tag. */
  ghost predicate SameBytes(s: seq<AnnotateData>, t: seq<AnnotateData>)
    reads s`stq, t`stq
  {
    |s| == |t| && forall i :: 0 <= i < |s| ==> ByteTag(s[i]) == ByteTag(t[i])
  }

  lemma {:induction false} SameViewsSameBytes(p: seq<AnnotateData>, q: seq<AnnotateData>, es: seq<Entry>)
    requires ReadsAs(p, es) && ReadsAs(q, es)
    ensures SameBytes(Stream(p), Stream(q))
    decreases |p|
  {
    if p != [] {
      SameViewsSameBytes(p[1..], q[1..], es[1..]);
      assert View(p[0]) == View(q[0]);
    }
  }

  lemma {:induction false} QueueCopied(p: seq<AnnotateData>, q: seq<AnnotateData>, es: seq<Entry>,
                                       size: int, bytes: int, qi: nat)
    requires QueueOk(p, size, bytes, qi) && ReadsAs(p, es) && ReadsAs(q, es) && Distinct(q)
    ensures QueueOk(q, size, bytes, qi) && SameBytes(Stream(p), Stream(q))
  {
    SameViewsSameBytes(p, q, es);
    hide Stream;
    forall r | r in q ensures r.op == OP_QUEUE && r.stq == qi {
      var i :| 0 <= i < |q| && q[i] == r;
      assert View(p[i]) == View(q[i]) && p[i] in p;
    }
  }

  ghost predicate SavedQueues(q: QueueData, c: Cpa, queues: seq<seq<Entry>>)
    reads c`qSize, c`qBytes, c`qData, set x, i | 0 <= x < |c.qData| && 0 <= i < |c.qData[x]| :: c.qData[x][i]
  {
    q.qSize == c.qSize && q.qBytes == c.qBytes && AllReadAs(c.qData, queues) && SavesQueues(q.records, queues)
  }

  /** The queues hold the same bytes. */
  ghost predicate SameContents(d: Cpa, c: Cpa)
    reads d`qSize, d`qBytes, d`qData, c`qSize, c`qBytes, c`qData,
          set x, i | 0 <= x < |c.qData| && 0 <= i < |c.qData[x]| :: c.qData[x][i],
          set x, i | 0 <= x < |d.qData| && 0 <= i < |d.qData[x]| :: d.qData[x][i]
  {
    && d.qSize == c.qSize && d.qBytes == c.qBytes && |d.qData| == |c.qData|
    && (exists queues :: AllReadAs(c.qData, queues) && AllReadAs(d.qData, queues))
  }

  /** Every saved record is an enqueue record, so none of them is a link. */
  lemma {:induction false} SavedAreQueued(c: Cpa, queues: seq<seq<Entry>>, x: nat, e: Entry)
    requires c.QueuesOk() && AllReadAs(c.qData, queues) && x < |queues| && e in queues[x]
    ensures !Unresolved(e)
  {
    var i :| 0 <= i < |queues[x]| && queues[x][i] == e;
    assert ReadsAs(c.qData[x], queues[x]);
    assert View(c.qData[x][i]) == e && c.qData[x][i] in c.qData[x];
  }

  lemma {:induction false} LoadableResolved(c: Cpa, queues: seq<seq<Entry>>, r: AnnotateData)
    requires c.QueuesOk() && AllReadAs(c.qData, queues) && Loadable(r, queues)
    ensures r.dump && !Unresolved(r.AsEntry())
  {
    hide Cpa.QueuesOk, AllReadAs;
    var x :| 0 <= x < |queues| && r.AsEntry() in queues[x];
    SavedAreQueued(c, queues, x, r.AsEntry());
  }

  lemma {:induction false} SizesSaved(c: Cpa, queues: seq<seq<Entry>>)
    requires c.QueuesOk() && AllReadAs(c.qData, queues)
    ensures |c.qSize| == |queues| && forall x :: 0 <= x < |queues| ==> c.qSize[x] == |queues[x]|
  {
    forall x | 0 <= x < |queues| ensures c.qSize[x] == |queues[x]| {
      assert ReadsAs(c.qData[x], queues[x]);
      Counts(c.qData[x], c.qSize[x], c.qBytes[x], x + 1);
    }
  }

  method LoadRecords(d: Cpa, q: QueueData, ghost c: Cpa, ghost queues: seq<seq<Entry>>)
    requires SavedQueues(q, c, queues) && c.QueuesOk() && c != d
    requires d.LogOk() && d.history == [] && d.scLinks == map[]
    modifies d`qSize, d`qBytes, d`qData, d`data, d`history
    ensures d.LogOk() && d.HeldOk() && d.QueuesOk() && SameContents(d, c)
    ensures forall i :: 0 <= i < |d.history| ==> fresh(d.history[i])
  {
    hide *;
    SavedFacts(q, c, queues);
    EmptyLog(d);
    SizesSaved(c, queues);
    var qs, data := LoadQueues(q.records, q.qSize, queues);
    AllResolved(c, queues, data);
    d.qSize, d.qBytes, d.qData := q.qSize, q.qBytes, qs;
    d.data, d.history := data, data;
    QueuesCopied(d, c, queues);
    LogRestored(d);
  }

  lemma {:induction false} SavedFacts(q: QueueData, c: Cpa, queues: seq<seq<Entry>>)
    requires SavedQueues(q, c, queues)
    ensures q.qSize == c.qSize && q.qBytes == c.qBytes && AllReadAs(c.qData, queues) && SavesQueues(q.records, queues)
  {
  }

  lemma {:induction false} AllResolved(c: Cpa, queues: seq<seq<Entry>>, data: seq<AnnotateData>)
    requires c.QueuesOk() && AllReadAs(c.qData, queues)
    requires forall i :: 0 <= i < |data| ==> Loadable(data[i], queues)
    ensures forall i :: 0 <= i < |data| ==> data[i].dump && !Unresolved(data[i].AsEntry())
  {
    hide Cpa.QueuesOk, AllReadAs, Loadable;
    forall i | 0 <= i < |data| ensures data[i].dump && !Unresolved(data[i].AsEntry()) {
      LoadableResolved(c, queues, data[i]);
    }
  }

  lemma {:induction false} EmptyLog(d: Cpa)
    requires d.LogOk() && d.history == []
    ensures d.numRecs == 0 && d.written == [] && FileOk(d.header, d.osbin, d.written, d.numRecs, d.annotateIdx)
  {
  }

  lemma {:induction false} LogRestored(d: Cpa)
    requires d.numRecs == 0 && d.written == [] && FileOk(d.header, d.osbin, d.written, d.numRecs, d.annotateIdx)
    requires d.data == d.history && Distinct(d.history) && d.scLinks == map[]
    requires forall i :: 0 <= i < |d.history| ==> d.history[i].dump && !Unresolved(d.history[i].AsEntry())
    ensures d.LogOk() && d.HeldOk()
  {
    hide FileOk, Distinct;
  }

  lemma {:induction false} QueuesCopied(d: Cpa, c: Cpa, queues: seq<seq<Entry>>)
    requires c.QueuesOk() && AllReadAs(c.qData, queues) && AllReadAs(d.qData, queues)
    requires d.qSize == c.qSize && d.qBytes == c.qBytes
    requires forall x :: 0 <= x < |d.qData| ==> Distinct(d.qData[x]) && From(d.qData[x], d.history)
    ensures d.QueuesOk() && SameContents(d, c)
  {
    hide QueueOk, Distinct, From;
    forall x | 0 <= x < |d.qData| ensures QueueOk(d.qData[x], d.qSize[x], d.qBytes[x], x + 1) {
      assert ReadsAs(c.qData[x], queues[x]) && ReadsAs(d.qData[x], queues[x]);
      QueueCopied(c.qData[x], d.qData[x], queues[x], c.qSize[x], c.qBytes[x], x + 1);
    }
  }

  // ----- The whole engine -----

  /** The tables, the stacks of every frame, links, modes, last states and the bytes of every queue are the same,
      and the restored engine waits for no link. */
  ghost predicate Restores(d: Cpa, c: Cpa)
    reads d, c, d.history, c.history,
          set x, i | 0 <= x < |c.qData| && 0 <= i < |c.qData[x]| :: c.qData[x][i],
          set x, i | 0 <= x < |d.qData| && 0 <= i < |d.qData[x]| :: d.qData[x][i]
  {
    SameNames(d, c) && SameIds(d, c) && SameMachines(d, c) && SameContents(d, c) && d.scLinks == map[]
  }

  method Serialize(c: Cpa) returns (cp: Checkpoint, ghost queues: seq<seq<Entry>>)
    ensures SavedTables(cp.tables, c) && SavedMachines(cp.machines, c) && SavedQueues(cp.queues, c, queues)
  {
    hide SavedTables, SavedMachines, AllReadAs, SavesQueues;
    var tables := SaveTables(c);
    var machines := SaveMachines(c);
    var records;
    records, queues := SaveQueues(c.qData);
    cp := Checkpoint(tables, machines, QueueData(c.qSize, c.qBytes, records));
  }

  method Unserialize(cp: Checkpoint, start: seq<U8>, ghost c: Cpa, ghost queues: seq<seq<Entry>>) returns (d: Cpa)
    requires c.Valid() && |start| == HEADER_SIZE
    requires SavedTables(cp.tables, c) && SavedMachines(cp.machines, c) && SavedQueues(cp.queues, c, queues)
    ensures fresh(d) && d.Valid() && Restores(d, c)
    ensures forall i :: 0 <= i < |d.history| ==> fresh(d.history[i])
  {
    hide *;
    c.Parts();
    d := new Cpa(start);
    d.Parts();
    LoadRecords(d, cp.queues, c, queues);
    LoadRest(d, cp, c);
    Assemble(d, c);
  }

  method LoadRest(d: Cpa, cp: Checkpoint, ghost c: Cpa)
    requires SavedTables(cp.tables, c) && SavedMachines(cp.machines, c) && c.TablesOk() && c != d
    modifies d`numSmt, d`numSt, d`numSys, d`smtCache, d`stCache, d`nameCache, d`smtNames, d`stNames, d`systems,
             d`numSm, d`numQ, d`numQs, d`qCache, d`smCache, d`smMap, d`qMap,
             d`smStack, d`lnMap, d`swExpl, d`lastState
    ensures SameNames(d, c) && SameIds(d, c) && SameMachines(d, c)
  {
    hide *;
    LoadNames(d, cp.tables, c);
    LoadIds(d, cp.tables, c);
    LoadMachines(d, cp.machines, c);
  }

  lemma {:induction false} Assemble(d: Cpa, c: Cpa)
    requires c.Valid() && d.LogOk() && d.HeldOk() && d.QueuesOk()
    requires SameNames(d, c) && SameIds(d, c) && SameMachines(d, c) && SameContents(d, c) && d.scLinks == map[]
    ensures d.Valid() && Restores(d, c)
  {
    hide Cpa.LogOk, Cpa.HeldOk, Cpa.QueuesOk, Cpa.TablesOk, Cpa.Valid, Stacks, Links, NonEmpty, AllReadAs;
    c.Parts();
    TablesCopied(d, c);
    StacksCopied(c.smStack, c.smMap);
    d.Whole();
  }

  /** The queues of a restored engine hold the same bytes. */
  lemma {:induction false} RestoredBytes(d: Cpa, c: Cpa, x: nat)
    requires c.Valid() && d.Valid() && Restores(d, c) && x < |c.qData|
    ensures |d.qData| == |c.qData| && SameBytes(Stream(c.qData[x]), Stream(d.qData[x]))
  {
    hide Cpa.Valid, Cpa.TablesOk, Cpa.LogOk, Cpa.HeldOk, Cpa.QueuesOk, SameNames, SameIds, SameMachines, Stream;
    var queues :| AllReadAs(c.qData, queues) && AllReadAs(d.qData, queues);
    assert ReadsAs(c.qData[x], queues[x]) && ReadsAs(d.qData[x], queues[x]);
    SameViewsSameBytes(c.qData[x], d.qData[x], queues[x]);
  }

  /** Every frame of a restored engine has the same stack. */
  lemma {:induction false} RestoredStack(d: Cpa, c: Cpa, sid: StackId)
    requires Restores(d, c)
    ensures StackOf(d.smStack, sid) == StackOf(c.smStack, sid)
  {
    hide SameNames, SameIds, SameContents;
    NonEmptyReadsSame(c.smStack, sid);
  }

  /** Two engines with the same tables give a machine the same number, known or new, and still agree after it. */
  method SameNumber(c: Cpa, d: Cpa, sysi: nat, sm: string, id: nat) returns (a: nat, b: nat, ok: bool, ok': bool)
    requires c.TablesOk() && d.TablesOk() && c != d && SameIds(d, c) && d.numSys == c.numSys
    requires 1 <= sysi <= c.numSys == |c.smCache|
    modifies c`smCache, c`numSm, c`smMap, d`smCache, d`numSm, d`smMap
    ensures c.TablesOk() && d.TablesOk() && SameIds(d, c) && ok == ok' && (ok ==> a == b)
  {
    hide SmTable, QTable, StTable, SysTable, Interned, Dense;
    a, ok := c.GetSm(sysi, sm, id);
    b, ok' := d.GetSm(sysi, sm, id);
    SmTablesAgree(c.numSys, c.numSm, d.numSm, c.smCache, d.smCache, c.smMap);
  }

  lemma {:induction false} SmTablesAgree(numSys: nat, n: nat, m: nat, a: IdCache, b: IdCache, table: IdMap)
    requires SmTable(numSys, n, a, table) && SmTable(numSys, m, b, table)
    ensures n == m && a == b
  {
    hide Interned;
    TableDetermines(a, b, table);
  }

  ghost predicate Apart(c: Cpa, d: Cpa)
    reads c`history, d`history
  {
    && c != d && (forall k :: 0 <= k < |c.history| ==> c.history[k] !in d.history)
    && (forall k :: 0 <= k < |d.history| ==> d.history[k] !in c.history)
  }

  // ----- Behaviour after a restore -----

  lemma {:induction false} FieldsAgree(c: Cpa, d: Cpa, m: Model, m': Model)
    requires Shows(c, m) && Shows(d, m') && SameNames(d, c) && SameIds(d, c) && SameMachines(d, c)
    ensures SameFields(m, m')
  {
    hide ShowsLog, ShowsAwaited, ShowsQueues, NonEmpty;
    forall kind ensures StatesOf(m.states, kind) == StatesOf(m'.states, kind) {
      if kind in c.smtNames {
        var k :| 0 <= k < |c.smtNames| && c.smtNames[k] == kind;
      }
    }
    forall sid ensures StackOf(m.stacks, sid) == StackOf(m'.stacks, sid) {
      NonEmptyReadsSame(c.smStack, sid);
    }
  }

  /** Bytes that show the same tags, seen through the two logs. */
  lemma {:induction false} TagsAgree(h: seq<AnnotateData>, h': seq<AnnotateData>, log: seq<Entry>, log': seq<Entry>,
                                     s: seq<AnnotateData>, s': seq<AnnotateData>, tags: seq<nat>, tags': seq<nat>)
    requires ShowsLog(h, log) && ShowsLog(h', log') && Points(h, s, tags) && Points(h', s', tags') && SameBytes(s, s')
    ensures SameTags(log, tags, log', tags')
  {
    forall i | 0 <= i < |tags|
      ensures tags[i] < |log| && tags'[i] < |log'| && Tag(log[tags[i]]) == Tag(log'[tags'[i]])
    {
      assert ByteTag(s[i]) == ByteTag(s'[i]);
    }
  }

  lemma {:induction false} QueuesAgree(c: Cpa, d: Cpa, m: Model, m': Model)
    requires c.Valid() && d.Valid() && Shows(c, m) && Shows(d, m') && Restores(d, c)
    ensures SameQueues(m.log, m.queues, m'.log, m'.queues)
  {
    hide *;
    Split(c, m);
    Split(d, m');
    SameCount(d, c);
    forall qi ensures SameTags(m.log, BytesOf(m.queues, qi), m'.log, BytesOf(m'.queues, qi)) {
      QueueAgrees(c, d, m, m', qi);
    }
    SameQueuesIs(m.log, m.queues, m'.log, m'.queues);
  }

  lemma {:induction false} SameCount(d: Cpa, c: Cpa)
    requires Restores(d, c)
    ensures |d.qData| == |c.qData|
  {
    hide SameNames, SameIds, SameMachines;
  }

  lemma {:induction false} SameQueuesIs(a: seq<Entry>, aq: map<nat, seq<nat>>, b: seq<Entry>, bq: map<nat, seq<nat>>)
    requires forall qi :: SameTags(a, BytesOf(aq, qi), b, BytesOf(bq, qi))
    ensures SameQueues(a, aq, b, bq)
  {
  }

  lemma {:induction false} QueueAgrees(c: Cpa, d: Cpa, m: Model, m': Model, qi: nat)
    requires c.Valid() && d.Valid() && Restores(d, c) && |d.qData| == |c.qData|
    requires ShowsLog(c.history, m.log) && ShowsQueues(c.qData, c.history, m.queues)
    requires ShowsLog(d.history, m'.log) && ShowsQueues(d.qData, d.history, m'.queues)
    ensures SameTags(m.log, BytesOf(m.queues, qi), m'.log, BytesOf(m'.queues, qi))
  {
    hide *;
    if 1 <= qi <= |c.qData| {
      RestoredBytes(d, c, qi - 1);
      PointsAt(c.qData, c.history, m.queues, qi);
      PointsAt(d.qData, d.history, m'.queues, qi);
      TagsAgree(c.history, d.history, m.log, m'.log, Stream(c.qData[qi - 1]), Stream(d.qData[qi - 1]),
                BytesOf(m.queues, qi), BytesOf(m'.queues, qi));
    } else {
      NoBytes(c.qData, c.history, m.queues, qi);
      NoBytes(d.qData, d.history, m'.queues, qi);
      NoTags(m.log, m'.log);
    }
  }

  lemma {:induction false} PointsAt(qs: seq<seq<AnnotateData>>, h: seq<AnnotateData>, queues: map<nat, seq<nat>>,
                                    qi: nat)
    requires ShowsQueues(qs, h, queues) && 1 <= qi <= |qs|
    ensures Points(h, Stream(qs[qi - 1]), BytesOf(queues, qi))
  {
    hide Stream, Points, BytesOf;
    assert From(qs[qi - 1], h) && Points(h, Stream(qs[qi - 1]), BytesOf(queues, qi - 1 + 1));
  }

  lemma {:induction false} NoBytes(qs: seq<seq<AnnotateData>>, h: seq<AnnotateData>, queues: map<nat, seq<nat>>,
                                   qi: nat)
    requires ShowsQueues(qs, h, queues) && !(1 <= qi <= |qs|)
    ensures BytesOf(queues, qi) == []
  {
  }

  lemma {:induction false} NoTags(a: seq<Entry>, b: seq<Entry>)
    ensures SameTags(a, [], b, [])
  {
  }

  lemma {:induction false} RestoredOk(c: Cpa, d: Cpa, m: Model, m': Model)
    requires d.QueuesOk() && ModelOk(m) && Shows(d, m') && SameFields(m, m') && m'.awaited == map[]
    ensures ModelOk(m')
  {
    hide AwaitedOk, ShowsStates;
    assert NumbersOk(m'.smMap, m'.stacks, m'.links) by {
      forall sid, i | sid in m'.stacks && 0 <= i < |m'.stacks[sid]|
        ensures Belongs(m'.smMap, m'.stacks[sid][i], sid.0)
      {
        assert StackOf(m.stacks, sid) == StackOf(m'.stacks, sid);
      }
    }
    hide NumbersOk;
    assert BytesOk(m'.log, m'.queues) by {
      hide Stream;
      forall qi, i | qi in m'.queues && 0 <= i < |m'.queues[qi]|
        ensures m'.queues[qi][i] < |m'.log| && m'.log[m'.queues[qi][i]].op == OP_QUEUE
      {
        ByteIsQueued(d, m', qi, i);
      }
    }
    assert AwaitedOk(m'.smMap, m'.log, m'.awaited) by { NoneAwaited(m'.smMap, m'.log); }
  }

  lemma {:induction false} NoneAwaited(smMap: IdMap, log: seq<Entry>)
    ensures AwaitedOk(smMap, log, map[])
  {
  }

  lemma {:induction false} ByteIsQueued(d: Cpa, m: Model, qi: nat, i: nat)
    requires d.QueuesOk() && ShowsLog(d.history, m.log) && ShowsQueues(d.qData, d.history, m.queues)
    requires qi in m.queues && i < |m.queues[qi]|
    ensures m.queues[qi][i] < |m.log| && m.log[m.queues[qi][i]].op == OP_QUEUE
  {
    hide Stream;
    var q := d.qData[qi - 1];
    StreamIn(q);
    PointsAt(d.qData, d.history, m.queues, qi);
    assert Stream(q)[i] in q && QueueOk(q, d.qSize[qi - 1], d.qBytes[qi - 1], qi);
  }

  /** A restored engine agrees with the saved one on everything but the links the saved one was waiting for. */
  lemma {:induction false} RestoredAgrees(c: Cpa, d: Cpa, m: Model, m': Model)
    requires c.Valid() && d.Valid() && Shows(c, m) && Shows(d, m') && Restores(d, c) && ModelOk(m)
    ensures m'.awaited == map[] && Agree(m, m', c.scLinks.Keys, |m.log|, |m'.log|)
  {
    hide *;
    c.Parts();
    d.Parts();
    NoneWaited(d, m');
    AwaitedKeys(c, m);
    RestoredParts(d, c);
    FieldsAgree(c, d, m, m');
    QueuesAgree(c, d, m, m');
    RestoredOk(c, d, m, m');
    AgreeNow(m, m');
  }

  lemma {:induction false} RestoredParts(d: Cpa, c: Cpa)
    requires Restores(d, c)
    ensures SameNames(d, c) && SameIds(d, c) && SameMachines(d, c) && SameContents(d, c)
  {
  }

  lemma {:induction false} NoneWaited(d: Cpa, m: Model)
    requires Shows(d, m) && (exists c :: Restores(d, c))
    ensures m.awaited == map[]
  {
    hide SameNames, SameIds, SameMachines, SameContents, ShowsFields, ShowsStates, ShowsLog, ShowsQueues;
    assert m.awaited.Keys == {};
  }

  lemma {:induction false} AwaitedKeys(c: Cpa, m: Model)
    requires Shows(c, m)
    ensures m.awaited.Keys == c.scLinks.Keys
  {
    hide ShowsFields, ShowsStates, ShowsLog, ShowsQueues;
  }

  lemma {:induction false} AgreeNow(m: Model, m': Model)
    requires SameFields(m, m') && SameQueues(m.log, m.queues, m'.log, m'.queues) && ModelOk(m) && ModelOk(m')
    requires m'.awaited == map[]
    ensures Agree(m, m', m.awaited.Keys, |m.log|, |m'.log|)
  {
    hide SameFields, SameQueues, ModelOk;
    assert m.log[|m.log|..] == [] && m'.log[|m'.log|..] == [];
  }

  /** Saving and restoring gives a valid engine that agrees with the saved one, except that it waits for none of
      the system-call links the saved one waits for. */
  method SaveAndRestore(c: Cpa, start: seq<U8>, ghost m: Model) returns (d: Cpa, ghost m': Model)
    requires c.Valid() && Shows(c, m) && ModelOk(m) && |start| == HEADER_SIZE
    ensures fresh(d) && c.Valid() && d.Valid() && Restores(d, c) && Apart(c, d)
    ensures forall i :: 0 <= i < |d.history| ==> fresh(d.history[i])
    ensures Shows(c, m) && Shows(d, m') && m'.awaited == map[]
    ensures Agree(m, m', c.scLinks.Keys, |m.log|, |m'.log|)
  {
    hide *;
    var cp;
    ghost var queues;
    cp, queues := Serialize(c);
    d := Unserialize(cp, start, c, queues);
    m' := HasModel(d);
    RestoredAgrees(c, d, m, m');
    ApartIs(c, d);
  }

  lemma {:induction false} ApartIs(c: Cpa, d: Cpa)
    requires c != d && (forall k :: 0 <= k < |d.history| ==> d.history[k] !in c.history)
    ensures Apart(c, d)
  {
    assert forall r :: r in d.history ==> r !in c.history;
  }

  /** The same calls on two engines in agreement. They end the same way and leave the same links at every call if
      and only if none reaches a lost link, and then the engines are still in agreement when the run is through. */
  method RunBoth(c: Cpa, d: Cpa, cmds: seq<Command>, ghost m: Model, ghost m': Model,
                 ghost lost: Keys, ghost na: nat, ghost nb: nat) returns (ran: nat, ran': nat)
    requires c.Valid() && d.Valid() && Shows(c, m) && Shows(d, m') && Apart(c, d) && Agree(m, m', lost, na, nb)
    modifies c, c.history, d, d.history
    ensures ran == Runs(m, cmds).ran && ran' == Runs(m', cmds).ran
    ensures Alike(m, m', cmds) <==> Clear(m', cmds, lost)
    ensures Clear(m', cmds, lost) ==> ran == ran' && Agree(Runs(m, cmds).m, Runs(m', cmds).m, lost, na, nb)
    ensures ran == |cmds| ==> c.Valid() && Shows(c, Runs(m, cmds).m)
    ensures ran' == |cmds| ==> d.Valid() && Shows(d, Runs(m', cmds).m)
  {
    hide *;
    RunsAgree(m, m', lost, na, nb, cmds);
    ApartParts(c, d);
    ran := Run(c, cmds, m);
    assert forall i :: 0 <= i < |c.history| ==> c.history[i] !in d.history;
    assert forall r :: r in c.history ==> r !in d.history;
    ran' := Run(d, cmds, m');
  }

  lemma {:induction false} ApartParts(c: Cpa, d: Cpa)
    requires Apart(c, d)
    ensures c != d && (forall k :: 0 <= k < |c.history| ==> c.history[k] !in d.history)
    ensures forall k :: 0 <= k < |d.history| ==> d.history[k] !in c.history
  {
  }

  /** Nobody can tell a restored engine from the saved one, whatever is called next, if and only if the saved one
      was waiting for no system-call link. */
  lemma {:induction false} RestoredAlike(c: Cpa, d: Cpa, m: Model, m': Model)
    requires c.Valid() && d.Valid() && Shows(c, m) && Shows(d, m') && Restores(d, c) && ModelOk(m)
    ensures (forall cmds :: Seen(m, m', cmds, |m.log|, |m'.log|)) <==> c.scLinks == map[]
    ensures (forall cmds :: Alike(m, m', cmds)) <==> c.scLinks == map[]
  {
    hide *;
    RestoredAgrees(c, d, m, m');
    AlikeWhenNothingLost(m, m', c.scLinks.Keys, |m.log|, |m'.log|);
    assert c.scLinks == map[] <==> c.scLinks.Keys == {} by {
      assert c.scLinks.Keys == {} ==> c.scLinks == map[];
    }
  }

  /** Checkpoint an engine after any calls and continue both it and its copy with the same calls. */
  method Resume(start: seq<U8>, before: seq<Command>, after: seq<Command>)
    returns (c: Cpa, d: Cpa, done: nat, ran: nat, ran': nat, ghost m': Model)
    requires |start| == HEADER_SIZE
    ensures var m := Runs(EMPTY, before).m;
      && done == Runs(EMPTY, before).ran
      && (done == |before| ==>
        && Agree(m, m', m.awaited.Keys, |m.log|, |m'.log|)
        && ran == Runs(m, after).ran && ran' == Runs(m', after).ran
        && (ran == |after| ==> c.Valid() && Shows(c, Runs(m, after).m))
        && (ran' == |after| ==> d.Valid() && Shows(d, Runs(m', after).m))
        && (Alike(m, m', after) <==> Clear(m', after, m.awaited.Keys))
        && (Clear(m', after, m.awaited.Keys) ==>
          ran == ran' && Agree(Runs(m, after).m, Runs(m', after).m, m.awaited.Keys, |m.log|, |m'.log|)))
  {
    hide *;
    c := new Cpa(start);
    d := c;
    NewShows(c);
    EmptyOk();
    done := Run(c, before, EMPTY);
    ran, ran', m' := 0, 0, EMPTY;
    if done == |before| {
      ghost var m := Runs(EMPTY, before).m;
      RunsOk(EMPTY, before);
      AwaitedKeys(c, m);
      d, m' := SaveAndRestore(c, start, m);
      assert forall i :: 0 <= i < |c.history| ==> fresh(c.history[i]);
      ran, ran' := RunBoth(c, d, after, m, m', m.awaited.Keys, |m.log|, |m'.log|);
    }
  }
}
