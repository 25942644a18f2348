/** The critical-path annotation engine: interning, machine stacks, links, byte queues and the record log. */
module Cpa {
  import opened Sequences
  import opened CpaRecords
  import opened CpaTables
  import opened CpaQueues

  /** A system number and a stack frame. */
  type StackId = (nat, nat)

  /** The log is flushed once this many records are pending. */
  const DUMP_THRESHOLD: nat := 10000

  /** Every machine on the stacks of a system was interned under that system. */
  ghost predicate Stacks(stacks: map<StackId, seq<nat>>, table: IdMap) {
    forall sid, i :: sid in stacks && 0 <= i < |stacks[sid]| ==> OnStack(stacks[sid][i], sid.0, table)
  }

  ghost predicate OnStack(smi: nat, sysi: nat, table: IdMap) {
    1 <= smi <= |table| && table[smi - 1].0 == sysi
  }

  /** Links lead back to machines, by their numbers. */
  ghost predicate Links(links: map<nat, nat>) {
    forall k :: k in links ==> links[k] < ID_LIMIT
  }

  /** The stack of a frame; a missing entry reads as empty. */
  function StackOf(stacks: map<StackId, seq<nat>>, sid: StackId): seq<nat> {
    if sid in stacks then stacks[sid] else []
  }

  /** A missing entry reads as 0. */
  function At(m: map<nat, nat>, k: nat): nat {
    if k in m then m[k] else 0
  }

  predicate Flag(flags: nat, bit: nat) {
    bit > 0 && flags / bit % 2 == 1
  }

  class Cpa {
    // Interning
    var numSm: nat
    var numSmt: nat
    var numSys: nat
    var numQs: nat
    var numSt: seq<nat>
    var numQ: seq<nat>
    var smtCache: map<string, nat>
    var stCache: seq<map<string, nat>>
    var qCache: IdCache
    var smCache: IdCache
    var nameCache: map<System, nat>
    var smMap: IdMap
    var qMap: IdMap
    ghost var smtNames: seq<string>
    ghost var stNames: seq<seq<string>>
    ghost var systems: seq<System>

    // Running machines
    var smStack: map<StackId, seq<nat>>
    var lnMap: map<nat, nat>
    var swExpl: map<StackId, bool>
    var lastState: map<nat, nat>

    // The record log
    var data: seq<AnnotateData>
    var osbin: seq<U8>
    var numRecs: nat
    var annotateIdx: seq<nat>
    const header: seq<U8>
    /** Links to machines that have not started yet, by system number and (name, frame). */
    var scLinks: map<(nat, Id), AnnotateData>
    /** Every record ever appended, and the entries in the file so far. */
    ghost var history: seq<AnnotateData>
    ghost var written: seq<Entry>

    // Queues
    var qSize: seq<int>
    var qBytes: seq<int>
    var qData: seq<seq<AnnotateData>>

    // ----- The invariant -----

    ghost predicate TablesOk()
      reads `numSys, `numSm, `smCache, `smMap, `numQs, `numQ, `qCache, `qMap, `numSmt, `smtCache, `smtNames,
            `numSt, `stCache, `stNames, `nameCache, `systems
    {
      var sound :=
        && SmTable(numSys, numSm, smCache, smMap)
        && QTable(numSys, numQs, numQ, qCache, qMap)
        && StTable(numSmt, smtCache, smtNames, numSt, stCache, stNames)
        && SysTable(numSys, nameCache, systems);
      sound
    }

    /** Written entries followed by pending records are the whole history, as the records look now. */
    ghost predicate LogOk()
      reads `data, `osbin, `numRecs, `annotateIdx, `history, `written, history`stq
    {
      var sound :=
        && FileOk(header, osbin, written, numRecs, annotateIdx)
        && numRecs == |written| <= |history| && data == history[numRecs..] && Distinct(history)
        && forall k :: 0 <= k < numRecs ==> written[k] == history[k].AsEntry();
      sound
    }

    /** Exactly the unresolved links are held back, none of them is written, and each is awaited once. */
    ghost predicate HeldOk()
      reads `numRecs, `history, `scLinks, history`stq, history`dump
    {
      var sound :=
        && numRecs <= |history|
        && (forall k :: 0 <= k < numRecs ==> history[k].dump)
        && (forall r :: r in history ==> (Unresolved(r.AsEntry()) <==> !r.dump))
        && (forall a :: a in scLinks ==> scLinks[a] in history && !scLinks[a].dump && scLinks[a].sm < ID_LIMIT)
        && (forall a, b :: a in scLinks && b in scLinks && a != b ==> scLinks[a] != scLinks[b]);
      sound
    }

    ghost predicate QueuesOk()
      reads `qSize, `qBytes, `qData, `history, history`data, history`stq
    {
      var sound :=
        && |qSize| == |qBytes| == |qData| < ID_LIMIT
        && (forall x :: 0 <= x < |qData| ==> From(qData[x], history) && QueueOk(qData[x], qSize[x], qBytes[x], x + 1));
      sound
    }

    /** The same for every queue but one. */
    ghost predicate OthersOk(x: nat)
      reads `qSize, `qBytes, `qData, `history, history`data, history`stq
    {
      var sound :=
        && |qSize| == |qBytes| == |qData| < ID_LIMIT
        && (forall y :: 0 <= y < |qData| && y != x ==>
              From(qData[y], history) && QueueOk(qData[y], qSize[y], qBytes[y], y + 1));
      sound
    }

    ghost predicate Valid()
      reads `numSys, `numSm, `smCache, `smMap, `numQs, `numQ, `qCache, `qMap, `numSmt, `smtCache, `smtNames,
            `numSt, `stCache, `stNames, `nameCache, `systems, `smStack, `lnMap,
            `data, `osbin, `numRecs, `annotateIdx, `history, `written, `scLinks, `qSize, `qBytes, `qData, history
    {
      var sound :=
        && TablesOk() && LogOk() && HeldOk() && QueuesOk()
        && Stacks(smStack, smMap) && |qData| == numQs && Links(lnMap);
      sound
    }

    lemma {:induction false} Parts()
      requires Valid()
      ensures TablesOk() && LogOk() && HeldOk() && QueuesOk()
      ensures Stacks(smStack, smMap) && |qData| == numQs && Links(lnMap)
    {
    }

    lemma {:induction false} Whole()
      requires TablesOk() && LogOk() && HeldOk() && QueuesOk()
      requires Stacks(smStack, smMap) && |qData| == numQs && Links(lnMap)
      ensures Valid()
    {
    }

    constructor (start: seq<U8>)
      requires |start| == HEADER_SIZE
      ensures Valid() && history == [] && smStack == map[] && lnMap == map[] && fresh(this)
      ensures numSm == numSmt == numSys == numQs == 0 && scLinks == map[] && swExpl == map[] && lastState == map[]
      ensures header == start && osbin == start && smtNames == [] && stNames == [] && systems == []
    {
      hide SysTable, QTable, SmTable, StTable;
      EmptyTables();
      numSm, numSmt, numSys, numQs, numSt, numQ := 0, 0, 0, 0, [], [];
      smtCache, stCache, qCache, smCache, nameCache, smMap, qMap := map[], [], [], [], map[], [], [];
      smtNames, stNames, systems := [], [], [];
      smStack, lnMap, swExpl, lastState := map[], map[], map[], map[];
      data, osbin, numRecs, annotateIdx, header, scLinks := [], start, 0, [], start, map[];
      history, written := [], [];
      qSize, qBytes, qData := [], [], [];
    }

    // ----- Interning -----

    method GetSys(s: System) returns (sysi: nat)
      requires TablesOk()
      modifies `nameCache, `numSys, `systems, `numQ, `qCache, `smCache
      ensures TablesOk() && 1 <= sysi <= numSys == |systems| == |smCache| == |qCache| && systems[sysi - 1] == s
      ensures s in nameCache && nameCache[s] == sysi
      ensures s in old(nameCache) ==> unchanged(`nameCache, `systems, `smCache, `qCache)
      ensures s !in old(nameCache) ==> AddedSystem(old(systems), old(smCache), old(qCache), s)
    {
      if s !in nameCache {
        NewSystem(s);
      }
      sysi := nameCache[s];
    }

    ghost predicate AddedSystem(systems0: seq<System>, smCache0: IdCache, qCache0: IdCache, s: System)
      reads `systems, `smCache, `qCache
    {
      systems == systems0 + [s] && smCache == smCache0 + [map[]] && qCache == qCache0 + [map[]]
    }

    method NewSystem(s: System)
      requires TablesOk() && s !in nameCache
      modifies `nameCache, `numSys, `systems, `numQ, `qCache, `smCache
      ensures TablesOk() && s in nameCache && AddedSystem(old(systems), old(smCache), old(qCache), s)
    {
      hide SysTable, QTable, SmTable, StTable;
      SysAdd(numSys, nameCache, systems, s);
      QSystem(numSys, numQs, numQ, qCache, qMap);
      SmSystem(numSys, numSm, smCache, smMap);
      numSys := numSys + 1;
      nameCache := nameCache[s := numSys];
      systems := systems + [s];
      numQ := numQ + [0];
      qCache := qCache + [map[]];
      smCache := smCache + [map[]];
    }

    /** The number of a state machine; `ok` is false when the id assertion fails. */
    method GetSm(sysi: nat, si: string, id: nat) returns (smi: nat, ok: bool)
      requires TablesOk() && 1 <= sysi <= numSys == |smCache|
      modifies `smCache, `numSm, `smMap
      ensures TablesOk() && old(smMap) <= smMap && numSys == |smCache|
      ensures ok <==> (si, id) in old(smCache[sysi - 1]) || old(numSm) + 1 < ID_LIMIT
      ensures ok ==> 1 <= smi <= |smMap| && smMap[smi - 1] == (sysi, (si, id))
      ensures ok ==> (si, id) in smCache[sysi - 1] && smi == smCache[sysi - 1][(si, id)]
      ensures !ok || (si, id) in old(smCache[sysi - 1]) ==> unchanged(`smCache, `smMap)
      ensures ok && (si, id) !in old(smCache[sysi - 1]) ==>
        smi == |old(smMap)| + 1 && smMap == old(smMap) + [(sysi, (si, id))]
    {
      hide Interned, QTable, StTable, SysTable;
      var smid := (si, id);
      smi, ok := 0, true;
      if smid in smCache[sysi - 1] {
        smi := smCache[sysi - 1][smid];
        Numbered(smCache, smMap, sysi, smid);
      } else if numSm + 1 < ID_LIMIT {
        SmAdd(numSys, numSm, smCache, smMap, sysi, smid);
        smi := numSm + 1;
        smCache, numSm, smMap := Inserted(smCache, sysi, smid, smi), smi, smMap + [(sysi, smid)];
      } else {
        ok := false;
      }
    }

    /** The number of a queue; a new one starts empty. */
    method GetQ(sysi: nat, q: string, id: nat) returns (qi: nat, ok: bool)
      requires TablesOk() && QueuesOk() && |qData| == numQs && 1 <= sysi <= numSys == |qCache|
      modifies `qCache, `numQs, `numQ, `qMap, `qSize, `qBytes, `qData
      ensures TablesOk() && QueuesOk() && |qData| == numQs == |qMap|
      ensures ok <==> (q, id) in old(qCache[sysi - 1]) || old(numQs) + 1 < ID_LIMIT
      ensures ok ==> 1 <= qi <= numQs && qMap[qi - 1] == (sysi, (q, id))
      ensures if ok && (q, id) !in old(qCache[sysi - 1])
        then qMap == old(qMap) + [(sysi, (q, id))] && qData == old(qData) + [[]]
        else unchanged(`qCache, `qMap, `qData, `qBytes)
    {
      hide Interned, SmTable, StTable, SysTable, QueuesOk;
      var qid := (q, id);
      qi, ok := 0, true;
      if qid in qCache[sysi - 1] {
        qi := qCache[sysi - 1][qid];
        Numbered(qCache, qMap, sysi, qid);
      } else if numQs + 1 < ID_LIMIT {
        qi := numQs + 1;
        NewQueue(sysi, qid);
      } else {
        ok := false;
      }
    }

    method NewQueue(sysi: nat, qid: Id)
      requires TablesOk() && QueuesOk() && |qData| == numQs && 1 <= sysi <= numSys == |qCache|
      requires qid !in qCache[sysi - 1] && numQs + 1 < ID_LIMIT
      modifies `qCache, `numQs, `numQ, `qMap, `qSize, `qBytes, `qData
      ensures TablesOk() && QueuesOk() && numQs == old(numQs) + 1
      ensures qMap == old(qMap) + [(sysi, qid)] && qData == old(qData) + [[]]
    {
      hide SysTable, QTable, SmTable, StTable, QueuesOk;
      PushQueue();
      TableSizes(numSys, numQs, numQ, qCache, qMap);
      QAdd(numSys, numQs, numQ, qCache, qMap, sysi, qid);
      numQs := numQs + 1;
      qCache := Inserted(qCache, sysi, qid, numQs);
      numQ := numQ[sysi - 1 := numQ[sysi - 1] + 1];
      qMap := qMap + [(sysi, qid)];
    }

    method PushQueue()
      requires QueuesOk() && |qData| + 1 < ID_LIMIT
      modifies `qSize, `qBytes, `qData
      ensures QueuesOk() && qData == old(qData) + [[]]
    {
      qSize, qBytes, qData := qSize + [0], qBytes + [0], qData + [[]];
    }

    /** The number of a state within its kind of machine. */
    method GetSt(sm: string, s: string) returns (sti: nat)
      requires TablesOk()
      modifies `smtCache, `numSmt, `stCache, `numSt, `smtNames, `stNames
      ensures TablesOk() && |smtNames| == |stNames| == |stCache| == numSmt
      ensures sm in smtCache && 1 <= smtCache[sm] <= numSmt && smtNames[smtCache[sm] - 1] == sm
      ensures s in stCache[smtCache[sm] - 1] && sti == stCache[smtCache[sm] - 1][s]
      ensures 1 <= sti <= |stNames[smtCache[sm] - 1]| && stNames[smtCache[sm] - 1][sti - 1] == s
      ensures forall m :: m in old(smtCache) ==> m in smtCache && smtCache[m] == old(smtCache)[m]
      ensures smtNames == if sm in old(smtCache) then old(smtNames) else old(smtNames) + [sm]
      ensures KnownStates(old(smtCache), old(stNames), sm, s)
    {
      hide Dense, SmTable, QTable, SysTable;
      StateSizes(numSmt, smtCache, smtNames, numSt, stCache, stNames);
      if sm in smtCache {
        StNumbered(numSmt, smtCache, smtNames, numSt, stCache, stNames, sm);
      } else {
        NewKind(sm);
      }
      ghost var names := stNames;
      StNumbered(numSmt, smtCache, smtNames, numSt, stCache, stNames, sm);
      var smi := smtCache[sm];
      if s !in stCache[smi - 1] {
        StatesListed(smi - 1, s);
        NewState(smi, s);
        StNumbered(numSmt, smtCache, smtNames, numSt, stCache, stNames, sm);
      } else {
        StatesListed(smi - 1, s);
        assert stNames == names[smi - 1 := Known(names[smi - 1], s)];
      }
      sti := stCache[smi - 1][s];
      if sm !in old(smtCache) {
        NewKindState(old(stNames), s);
      }
    }

    static lemma {:induction false} NewKindState(names: seq<seq<string>>, s: string)
      ensures (names + [[]])[|names| := Known([], s)] == names + [[s]]
    {
      assert Known([], s) == [s];
    }

    lemma {:induction false} StatesListed(k: nat, s: string)
      requires TablesOk() && k < numSmt && |stCache| == |stNames| == numSmt
      ensures s in stCache[k] <==> s in stNames[k]
    {
      hide SmTable, QTable, SysTable;
      DenseUnique(stCache[k], stNames[k]);
    }

    /** Only the states of this kind of machine may have grown, by this state. */
    ghost predicate KnownStates(cache: map<string, nat>, names: seq<seq<string>>, sm: string, s: string)
      reads `stNames
    {
      if sm in cache
      then 1 <= cache[sm] <= |names| && stNames == names[cache[sm] - 1 := Known(names[cache[sm] - 1], s)]
      else stNames == names + [[s]]
    }

    method NewKind(sm: string)
      requires TablesOk() && sm !in smtCache
      modifies `smtCache, `numSmt, `stCache, `numSt, `smtNames, `stNames
      ensures TablesOk() && smtCache == old(smtCache)[sm := old(numSmt) + 1] && numSmt == old(numSmt) + 1
      ensures smtNames == old(smtNames) + [sm] && stNames == old(stNames) + [[]] && |stNames| == |smtNames| == numSmt
    {
      hide SmTable, QTable, SysTable, StTable;
      StateSizes(numSmt, smtCache, smtNames, numSt, stCache, stNames);
      StKind(numSmt, smtCache, smtNames, numSt, stCache, stNames, sm);
      numSmt := numSmt + 1;
      smtCache := smtCache[sm := numSmt];
      smtNames, stNames := smtNames + [sm], stNames + [[]];
      GrowStates();
    }

    method GrowStates()
      requires |stCache| == |numSt| == numSmt - 1
      modifies `stCache, `numSt
      ensures stCache == old(stCache) + [map[]] && numSt == old(numSt) + [0]
    {
      while |stCache| < numSmt
        invariant |stCache| == numSmt - 1 ==> stCache == old(stCache) && numSt == old(numSt)
        invariant |stCache| != numSmt - 1 ==>
          |stCache| == numSmt && stCache == old(stCache) + [map[]] && numSt == old(numSt) + [0]
      {
        stCache := stCache + [map[]];
        numSt := numSt + [0];
      }
    }

    method NewState(smi: nat, s: string)
      requires TablesOk() && 1 <= smi <= numSmt && |stCache| == |stNames| == numSmt && s !in stCache[smi - 1]
      modifies `stCache, `numSt, `stNames
      ensures TablesOk() && |stCache| == |stNames| == numSmt
      ensures stNames == old(stNames)[smi - 1 := old(stNames)[smi - 1] + [s]]
      ensures s in stCache[smi - 1]
    {
      hide SmTable, QTable, SysTable, StTable;
      StateSizes(numSmt, smtCache, smtNames, numSt, stCache, stNames);
      StState(numSmt, smtCache, smtNames, numSt, stCache, stNames, smi, s);
      numSt := numSt[smi - 1 := numSt[smi - 1] + 1];
      stCache := Row(stCache, smi, s, numSt[smi - 1]);
      stNames := stNames[smi - 1 := stNames[smi - 1] + [s]];
    }

    // ----- The record log -----

    /** The log grew by records with these entries. */
    ghost predicate Logged(before: seq<AnnotateData>, es: seq<Entry>)
      reads `history, history`stq
    {
      && |history| == |before| + |es| && before <= history
      && forall i :: 0 <= i < |es| ==> history[|before| + i].AsEntry() == es[i]
    }

    /** Append a record. Links stay pending, since the caller may still hold them back. */
    method Add(e: Entry) returns (an: AnnotateData)
      requires LogOk() && HeldOk()
      modifies `data, `history, `osbin, `numRecs, `annotateIdx, `written
      ensures fresh(an) && an.AsEntry() == e && an.data == e.data && an.dump && history == old(history) + [an]
      ensures LogOk() && (!Unresolved(e) ==> HeldOk())
      ensures e.op == OP_LINK ==> numRecs == old(numRecs)
      ensures old(written) <= written && (old(QueuesOk()) ==> QueuesOk())
    {
      hide FileOk, QueueOk, Stream, Distinct;
      an := new AnnotateData(e);
      NoDupAdd(history, an);
      data := data + [an];
      history := history + [an];
      if an.op != OP_LINK {
        Dump(false);
      }
    }

    /** Write pending records: all of them, or, once enough have gathered, those before the first held one. */
    method Dump(all: bool)
      requires LogOk() && (all || HeldOk())
      modifies `data, `osbin, `numRecs, `annotateIdx, `written
      ensures LogOk() && old(written) <= written && (all || HeldOk())
      ensures all ==> data == []
      ensures !all && |old(data)| < DUMP_THRESHOLD ==> unchanged(`data, `osbin)
      ensures !all && |old(data)| >= DUMP_THRESHOLD ==> data == [] || !data[0].dump
    {
      hide FileOk, Distinct;
      if data == [] || (!all && |data| < DUMP_THRESHOLD) {
        return;
      }
      var i := 0;
      while i < |data| && (data[i].dump || all)
        invariant 0 <= i <= |data| && numRecs == |written| == old(numRecs) + i
        invariant FileOk(header, osbin, written, numRecs, annotateIdx) && old(written) <= written
        invariant forall k :: 0 <= k < numRecs ==> written[k] == history[k].AsEntry()
        invariant all || forall k :: 0 <= k < numRecs ==> history[k].dump
        modifies `osbin, `numRecs, `annotateIdx, `written
      {
        assert data[i] == history[numRecs];
        WriteRecord(data[i].AsEntry());
        i := i + 1;
      }
      data := data[i..];
    }

    method WriteRecord(e: Entry)
      requires FileOk(header, osbin, written, numRecs, annotateIdx)
      modifies `osbin, `numRecs, `annotateIdx, `written
      ensures FileOk(header, osbin, written, numRecs, annotateIdx)
      ensures written == old(written) + [e] && numRecs == old(numRecs) + 1
    {
      FileAdd(header, osbin, written, numRecs, annotateIdx, e);
      hide FileOk;
      numRecs := numRecs + 1;
      if numRecs % INDEX_STEP == 0 {
        annotateIdx := annotateIdx + [|osbin|];
      }
      osbin := osbin + Encode(e);
      written := written + [e];
    }

    /** Append a link whose target is not known yet and hold it back. */
    method Hold(key: (nat, Id), e: Entry)
      requires LogOk() && HeldOk() && Unresolved(e) && e.sm < ID_LIMIT && key !in scLinks
      modifies `data, `history, `osbin, `numRecs, `annotateIdx, `written, `scLinks
      ensures LogOk() && HeldOk() && Logged(old(history), [e]) && old(written) <= written
      ensures scLinks == old(scLinks)[key := history[|old(history)|]]
      ensures old(QueuesOk()) ==> QueuesOk()
      ensures forall r :: r in history ==> r in old(history) || fresh(r)
    {
      hide FileOk, Distinct, QueueOk, QueuesOk, LogOk;
      var an := Add(e);
      scLinks := scLinks[key := an];
      an.dump := false;
    }

    /** The awaited machine has started: complete its link and let it be written. */
    method Resolve(key: (nat, Id), smi: nat)
      requires LogOk() && HeldOk() && key in scLinks && smi < ID_LIMIT
      modifies `scLinks, {scLinks[key]}`stq, {scLinks[key]}`dump
      ensures LogOk() && HeldOk() && scLinks == old(scLinks) - {key}
      ensures old(scLinks[key]).stq == smi && old(scLinks[key]).dump
      ensures old(QueuesOk()) ==> QueuesOk()
    {
      hide FileOk, QueueOk;
      var an := scLinks[key];
      NotQueued(an);
      scLinks := scLinks - {key};
      an.stq := smi;
      an.dump := true;
    }

    lemma {:induction false} NotQueued(an: AnnotateData)
      requires an.op == OP_LINK
      ensures QueuesOk() ==> forall x, k :: 0 <= x < |qData| && 0 <= k < |qData[x]| ==> qData[x][k] != an
    {
    }

    // ----- Queues -----

    method SetQueue(x: nat, q: seq<AnnotateData>, size: int, bytes: int)
      requires x < |qData| && OthersOk(x) && From(q, history) && QueueOk(q, size, bytes, x + 1)
      modifies `qSize, `qBytes, `qData
      ensures QueuesOk() && qData == old(qData)[x := q] && qBytes == old(qBytes)[x := bytes]
    {
      hide QueueOk;
      qSize, qBytes, qData := qSize[x := size], qBytes[x := bytes], qData[x := q];
    }

    /** Add `count` bytes at the back, or at the front for a queue used as a stack. */
    method DoQ(flags: nat, cpu: nat, sm: nat, qi: nat, count: nat, tick: nat) returns (ghost an: AnnotateData)
      requires LogOk() && HeldOk() && QueuesOk() && 1 <= qi <= |qData|
      requires qBytes[qi - 1] + count <= INT32_MAX
      modifies `qSize, `qBytes, `qData, `data, `history, `osbin, `numRecs, `annotateIdx, `written
      ensures LogOk() && HeldOk() && QueuesOk() && old(written) <= written && history == old(history) + [an]
      ensures fresh(an) && an.AsEntry() == EntryOf(tick, count, sm, qi, OP_QUEUE, flags, cpu)
      ensures qData == old(qData)[qi - 1 :=
        if Flag(flags, FL_QOPP) then [an] + old(qData)[qi - 1] else old(qData)[qi - 1] + [an]]
      ensures var was := old(Stream(qData[qi - 1]));
        Stream(qData[qi - 1]) == if Flag(flags, FL_QOPP) then Repeat(an, count) + was else was + Repeat(an, count)
      ensures |qData| == |old(qData)|
      ensures forall y :: 0 <= y < |qData| && y != qi - 1 ==>
        qData[y] == old(qData[y]) && Stream(qData[y]) == old(Stream(qData[y]))
      ensures forall r :: r in history ==> r in old(history) || fresh(r)
    {
      hide FileOk, Distinct, QueueOk, Stream, HeldOk, LogOk, From;
      var x := qi - 1;
      Counts(qData[x], qSize[x], qBytes[x], qi);
      var r := Add(EntryOf(tick, count, sm, qi, OP_QUEUE, flags, cpu));
      an := r;
      assert old(Stream(qData[x])) == Stream(qData[x]);
      InHistory(qData[x], old(history), r);
      Enqueue(qData[x], qSize[x], qBytes[x], qi, r);
      FromAdd(qData[x], history, r);
      if Flag(flags, FL_QOPP) {
        SetQueue(x, [r] + qData[x], qSize[x] + 1, qBytes[x] + count);
      } else {
        SetQueue(x, qData[x] + [r], qSize[x] + 1, qBytes[x] + count);
      }
    }

    lemma {:induction false} Apart(x: nat)
      requires QueuesOk() && x < |qData|
      ensures forall y, k :: 0 <= y < |qData| && y != x && 0 <= k < |qData[y]| ==> qData[y][k] !in qData[x]
    {
      hide QueueOk;
      forall y | 0 <= y < |qData| && y != x
        ensures forall k :: 0 <= k < |qData[y]| ==> qData[y][k] !in qData[x]
      {
        Disjoint(qData[y], qData[x], qSize[y], qSize[x], qBytes[y], qBytes[x], y + 1, x + 1);
      }
    }

    method TrimFront(x: nat, count: nat)
      requires QueuesOk() && x < |qData| && count <= qBytes[x]
      modifies `qSize, `qBytes, `qData, history`data
      ensures QueuesOk()
      ensures |qData| == |old(qData)|
      ensures forall y :: 0 <= y < |qData| && y != x ==>
        qData[y] == old(qData[y]) && Stream(qData[y]) == old(Stream(qData[y]))
      ensures count <= |old(Stream(qData[x]))| && Stream(qData[x]) == old(Stream(qData[x]))[count..]
    {
      hide QueueOk, Stream;
      Apart(x);
      ghost var own := set r | r in qData[x];
      var rest, left := DropFront(qData[x], qSize[x], qBytes[x] - count, count, x + 1, own);
      forall y | 0 <= y < |qData| && y != x
        ensures QueueOk(qData[y], qSize[y], qBytes[y], y + 1) && Stream(qData[y]) == old(Stream(qData[y]))
      {
        assert forall k :: 0 <= k < |qData[y]| ==> qData[y][k].data == old(qData[y][k].data);
      }
      SetQueue(x, rest, left, qBytes[x] - count);
    }

    method TrimBack(x: nat, size: nat)
      requires QueuesOk() && x < |qData| && size <= qBytes[x]
      modifies `qSize, `qBytes, `qData, history`data
      ensures QueuesOk()
      ensures |qData| == |old(qData)|
      ensures forall y :: 0 <= y < |qData| && y != x ==>
        qData[y] == old(qData[y]) && Stream(qData[y]) == old(Stream(qData[y]))
      ensures size <= |old(Stream(qData[x]))| && Stream(qData[x]) == old(Stream(qData[x]))[..size]
    {
      hide QueueOk, Stream;
      Apart(x);
      ghost var own := set r | r in qData[x];
      var rest, left := DropBack(qData[x], qSize[x], size, qBytes[x] - size, x + 1, own);
      forall y | 0 <= y < |qData| && y != x
        ensures QueueOk(qData[y], qSize[y], qBytes[y], y + 1) && Stream(qData[y]) == old(Stream(qData[y]))
      {
        assert forall k :: 0 <= k < |qData[y]| ==> qData[y][k].data == old(qData[y][k].data);
      }
      SetQueue(x, rest, left, size);
    }

    method ClearQueue(x: nat)
      requires QueuesOk() && x < |qData|
      modifies `qSize, `qBytes, `qData
      ensures QueuesOk() && qBytes == old(qBytes)[x := 0]
      ensures |qData| == |old(qData)|
      ensures forall y :: 0 <= y < |qData| && y != x ==>
        qData[y] == old(qData[y]) && Stream(qData[y]) == old(Stream(qData[y]))
      ensures Stream(qData[x]) == []
    {
      hide QueueOk, Stream;
      EmptyQueue(x + 1);
      SetQueue(x, [], 0, 0);
    }

    /** Remove the first `count` bytes, or all for -1; `ok` is false when the fatal error is reported. */
    method DoDq(flags: nat, cpu: nat, sm: nat, qi: nat, count: int, tick: nat) returns (ok: bool)
      requires LogOk() && HeldOk() && QueuesOk() && 1 <= qi <= |qData| && (count == -1 || count > 0)
      modifies `qSize, `qBytes, `qData, `data, `history, `osbin, `numRecs, `annotateIdx, `written, history`data
      ensures ok <==> count == -1 || count <= |old(Stream(qData[qi - 1]))|
      ensures LogOk() && old(written) <= written
      ensures ok ==> HeldOk() && QueuesOk()
      ensures ok ==> |qData| == |old(qData)|
      ensures ok ==> forall y :: 0 <= y < |qData| && y != qi - 1 ==>
        qData[y] == old(qData[y]) && Stream(qData[y]) == old(Stream(qData[y]))
      ensures ok ==> Stream(qData[qi - 1]) == if count == -1 then [] else old(Stream(qData[qi - 1]))[count..]
      ensures ok ==> Logged(old(history), [EntryOf(tick, count, sm, qi, OP_DEQUEUE, flags, cpu)])
      ensures !ok ==> data == [] && history == old(history)
      ensures forall r :: r in history ==> r in old(history) || fresh(r)
    {
      hide QueueOk, Stream, HeldOk, LogOk, From, FileOk, Distinct;
      var x := qi - 1;
      Counts(qData[x], qSize[x], qBytes[x], qi);
      if count == -1 {
        var an := Add(EntryOf(tick, count, sm, qi, OP_DEQUEUE, flags, cpu));
        ClearQueue(x);
        return true;
      }
      if qSize[x] <= 0 || qBytes[x] <= 0 || |qData[x]| == 0 {
        Dump(true);
        return false;
      }
      if qBytes[x] - count < 0 {
        qBytes := qBytes[x := qBytes[x] - count];
        Dump(true);
        return false;
      }
      TrimFront(x, count);
      var an := Add(EntryOf(tick, count, sm, qi, OP_DEQUEUE, flags, cpu));
      ok := true;
    }
  }

  lemma {:induction false} InHistory(q: seq<AnnotateData>, h: seq<AnnotateData>, r: AnnotateData)
    requires From(q, h) && r !in h
    ensures r !in q
  {
  }
}
