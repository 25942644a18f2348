/** Queue calls, whole runs of the engine, and what every run guarantees. */
module CpaRuns {
  import opened Sequences
  import opened CpaRecords
  import opened CpaTables
  import opened CpaQueues
  import opened Cpa
  import opened CpaModel
  import opened CpaShows
  import opened CpaSteps

  // ----- Queues -----

  lemma {:induction false} QueueBytes(c: Cpa, qi: nat, m: Model)
    requires c.Valid() && Shows(c, m) && 1 <= qi <= |c.qData|
    ensures qi <= |c.qBytes| && c.qBytes[qi - 1] == |BytesOf(m.queues, qi)| == |Stream(c.qData[qi - 1])|
  {
    hide Cpa.TablesOk, Cpa.LogOk, Cpa.HeldOk, ShowsStates, ShowsLog, ShowsAwaited, ShowsFields, Stream;
    assert Points(c.history, Stream(c.qData[qi - 1]), BytesOf(m.queues, qi - 1 + 1));
    Counts(c.qData[qi - 1], c.qSize[qi - 1], c.qBytes[qi - 1], qi);
  }

  lemma {:induction false} QueuesNow(qs: seq<seq<AnnotateData>>, h: seq<AnnotateData>, queues: map<nat, seq<nat>>)
    requires ShowsQueues(qs, h, queues)
    ensures forall x :: 0 <= x < |qs| ==> From(qs[x], h) && Points(h, Stream(qs[x]), BytesOf(queues, x + 1))
    ensures forall q :: q in queues && !(1 <= q <= |qs|) ==> queues[q] == []
    ensures forall x :: 0 <= x < |qs| ==> |Stream(qs[x])| == |BytesOf(queues, x + 1)|
  {
  }

  /** One queue has new bytes, and the others are as they were. */
  lemma {:induction false} QueueSet(was: seq<AnnotateData>, qs: seq<seq<AnnotateData>>, h: seq<AnnotateData>,
                                    queues: map<nat, seq<nat>>, qi: nat, tags: seq<nat>)
    requires 1 <= qi <= |qs| && was <= h
    requires forall x :: 0 <= x < |qs| && x != qi - 1 ==>
      From(qs[x], h) && Points(was, Stream(qs[x]), BytesOf(queues, x + 1))
    requires forall q :: q in queues && !(1 <= q <= |qs|) ==> queues[q] == []
    requires From(qs[qi - 1], h) && Points(h, Stream(qs[qi - 1]), tags)
    ensures ShowsQueues(qs, h, queues[qi := tags])
  {
    hide Stream, From;
    forall x | 0 <= x < |qs|
      ensures From(qs[x], h) && Points(h, Stream(qs[x]), BytesOf(queues[qi := tags], x + 1))
    {
      if x != qi - 1 {
        PointsMore(was, h, Stream(qs[x]), BytesOf(queues, x + 1));
      }
    }
  }

  lemma {:induction false} QueueOwn(c: Cpa)
    requires c.QueuesOk()
    ensures forall x :: 0 <= x < |c.qData| ==> From(c.qData[x], c.history)
  {
    hide QueueOk;
  }

  /** The parts of the invariant and of the model that queues and the log touch. */
  ghost predicate Flowing(c: Cpa, log: seq<Entry>, awaited: map<(nat, Id), nat>, queues: map<nat, seq<nat>>)
    reads c`data, c`osbin, c`numRecs, c`annotateIdx, c`written, c`scLinks, c`qSize, c`qBytes, c`qData, c`history,
          c.history
  {
    && c.LogOk() && c.HeldOk() && c.QueuesOk() && ShowsLog(c.history, log)
    && ShowsAwaited(c.scLinks, c.history, awaited) && ShowsQueues(c.qData, c.history, queues)
  }

  lemma {:induction false} Flows(c: Cpa, log: seq<Entry>, awaited: map<(nat, Id), nat>, queues: map<nat, seq<nat>>)
    ensures Flowing(c, log, awaited, queues) <==>
      && c.LogOk() && c.HeldOk() && c.QueuesOk() && ShowsLog(c.history, log)
      && ShowsAwaited(c.scLinks, c.history, awaited) && ShowsQueues(c.qData, c.history, queues)
  {
  }

  method QueueIn(c: Cpa, flags: nat, cpu: nat, smi: nat, qi: nat, count: nat, tick: nat,
                 ghost log: seq<Entry>, ghost awaited: map<(nat, Id), nat>, ghost queues: map<nat, seq<nat>>)
    requires Flowing(c, log, awaited, queues) && 1 <= qi <= |c.qData| == |c.qBytes|
    requires c.qBytes[qi - 1] + count <= INT32_MAX
    modifies c`qSize, c`qBytes, c`qData, c`data, c`history, c`osbin, c`numRecs, c`annotateIdx, c`written
    ensures var had, added := BytesOf(queues, qi), Tagged(|log|, count);
      Flowing(c, log + [EntryOf(tick, count, smi, qi, OP_QUEUE, flags, cpu)], awaited,
              queues[qi := if Flag(flags, FL_QOPP) then added + had else had + added])
    ensures |c.qData| == |old(c.qData)|
    ensures old(c.written) <= c.written
    ensures forall r :: r in c.history ==> r in old(c.history) || fresh(r)
  {
    hide *;
    Flows(c, log, awaited, queues);
    ghost var h, s := c.history, Stream(c.qData[qi - 1]);
    QueuesNow(c.qData, h, queues);
    assert Points(h, s, BytesOf(queues, qi - 1 + 1));
    ghost var an := c.DoQ(flags, cpu, smi, qi, count, tick);
    MoreLog(h, an, log, c.scLinks, awaited);
    PointsAdd(h, an, s, BytesOf(queues, qi), count);
    QueueOwn(c);
    LogEntries(h, log);
    ghost var tags := if Flag(flags, FL_QOPP) then Tagged(|log|, count) + BytesOf(queues, qi)
                      else BytesOf(queues, qi) + Tagged(|log|, count);
    QueueSet(h, c.qData, c.history, queues, qi, tags);
    Flows(c, log + [EntryOf(tick, count, smi, qi, OP_QUEUE, flags, cpu)], awaited, queues[qi := tags]);
  }

  lemma {:induction false} MoreLog(h: seq<AnnotateData>, r: AnnotateData, log: seq<Entry>,
                                   links: map<(nat, Id), AnnotateData>, awaited: map<(nat, Id), nat>)
    requires ShowsLog(h, log) && ShowsAwaited(links, h, awaited)
    ensures ShowsLog(h + [r], log + [r.AsEntry()]) && ShowsAwaited(links, h + [r], awaited)
  {
  }

  method QueueOut(c: Cpa, flags: nat, cpu: nat, smi: nat, qi: nat, count: int, tick: nat,
                  ghost log: seq<Entry>, ghost awaited: map<(nat, Id), nat>, ghost queues: map<nat, seq<nat>>)
    returns (ok: bool)
    requires Flowing(c, log, awaited, queues) && 1 <= qi <= |c.qData| && (count == -1 || count > 0)
    modifies c`qSize, c`qBytes, c`qData, c`data, c`history, c`osbin, c`numRecs, c`annotateIdx, c`written, c.history`data
    ensures ok <==> count == -1 || count <= |BytesOf(queues, qi)|
    ensures ok ==> Flowing(c, log + [EntryOf(tick, count, smi, qi, OP_DEQUEUE, flags, cpu)], awaited,
                           queues[qi := if count == -1 then [] else BytesOf(queues, qi)[count..]])
    ensures ok ==> |c.qData| == |old(c.qData)|
    ensures old(c.written) <= c.written
    ensures forall r :: r in c.history ==> r in old(c.history) || fresh(r)
  {
    hide *;
    Flows(c, log, awaited, queues);
    ghost var h, s := c.history, Stream(c.qData[qi - 1]);
    QueuesNow(c.qData, h, queues);
    assert Points(h, s, BytesOf(queues, qi - 1 + 1));
    PointsCut(h, s, BytesOf(queues, qi), if count == -1 || count > |s| then |s| else count);
    ok := c.DoDq(flags, cpu, smi, qi, count, tick);
    if ok {
      ghost var e := EntryOf(tick, count, smi, qi, OP_DEQUEUE, flags, cpu);
      OneMore(c, h, e);
      MoreLog(h, c.history[|h|], log, c.scLinks, awaited);
      ghost var k := if count == -1 then |s| else count;
      PointsMore(h, c.history, s[k..], BytesOf(queues, qi)[k..]);
      QueueOwn(c);
      QueueSet(h, c.qData, c.history, queues, qi, BytesOf(queues, qi)[k..]);
      Flows(c, log + [e], awaited, queues[qi := BytesOf(queues, qi)[k..]]);
    }
  }

  /** Log the new size of a queue and keep that many bytes, or none. */
  method QueueKeep(c: Cpa, e: Entry, qi: nat, size: int,
                   ghost log: seq<Entry>, ghost awaited: map<(nat, Id), nat>, ghost queues: map<nat, seq<nat>>)
    requires Flowing(c, log, awaited, queues) && 1 <= qi <= |c.qData| == |c.qBytes| && size <= |BytesOf(queues, qi)|
    requires c.qBytes[qi - 1] == |BytesOf(queues, qi)| && !Unresolved(e)
    modifies c`qSize, c`qBytes, c`qData, c`data, c`history, c`osbin, c`numRecs, c`annotateIdx, c`written, c.history`data
    ensures Flowing(c, log + [e], awaited, queues[qi := if size <= 0 then [] else BytesOf(queues, qi)[..size]])
    ensures |c.qData| == |old(c.qData)|
    ensures old(c.written) <= c.written
    ensures forall r :: r in c.history ==> r in old(c.history) || fresh(r)
  {
    hide *;
    Flows(c, log, awaited, queues);
    ghost var h, s := c.history, Stream(c.qData[qi - 1]);
    QueuesNow(c.qData, h, queues);
    assert Points(h, s, BytesOf(queues, qi - 1 + 1));
    ghost var k := if size <= 0 then 0 else size;
    PointsCut(h, s, BytesOf(queues, qi), k);
    var an := c.Add(e);
    MoreLog(h, an, log, c.scLinks, awaited);
    if size <= 0 {
      c.ClearQueue(qi - 1);
    } else {
      c.TrimBack(qi - 1, size);
    }
    PointsMore(h, c.history, s[..k], BytesOf(queues, qi)[..k]);
    QueueOwn(c);
    QueueSet(h, c.qData, c.history, queues, qi, BytesOf(queues, qi)[..k]);
    Flows(c, log + [e], awaited, queues[qi := BytesOf(queues, qi)[..k]]);
  }

  /** The parts that queues and the log do not touch. */
  ghost predicate Resting(c: Cpa, m: Model)
    reads c`numSys, c`numSm, c`smCache, c`smMap, c`numQs, c`numQ, c`qCache, c`qMap, c`numSmt, c`smtCache, c`smtNames,
          c`numSt, c`stCache, c`stNames, c`nameCache, c`systems, c`smStack, c`lnMap, c`swExpl, c`lastState
  {
    && c.TablesOk() && Stacks(c.smStack, c.smMap) && Links(c.lnMap)
    && ShowsFields(c, m) && ShowsStates(c, m.kinds, m.states)
  }

  lemma {:induction false} Take(c: Cpa, m: Model)
    requires c.Valid() && Shows(c, m)
    ensures Resting(c, m) && Flowing(c, m.log, m.awaited, m.queues) && c.numQs == |c.qData| == |c.qBytes|
  {
    hide *;
    c.Parts();
    Split(c, m);
    Flows(c, m.log, m.awaited, m.queues);
    Rests(c, m);
    NumbersBelow(c);
  }

  lemma {:induction false} Rests(c: Cpa, m: Model)
    ensures Resting(c, m) <==>
      && c.TablesOk() && Stacks(c.smStack, c.smMap) && Links(c.lnMap)
      && ShowsFields(c, m) && ShowsStates(c, m.kinds, m.states)
  {
  }

  lemma {:induction false} Give(c: Cpa, m: Model, m': Model)
    requires Resting(c, m) && m' == m.(log := m'.log, queues := m'.queues)
    requires Flowing(c, m'.log, m'.awaited, m'.queues) && c.numQs == |c.qData|
    ensures c.Valid() && Shows(c, m')
  {
    hide *;
    Rests(c, m);
    Flows(c, m'.log, m'.awaited, m'.queues);
    FieldsAre(c, m);
    c.Whole();
    Join(c, m');
  }

  lemma {:induction false} FieldsAre(c: Cpa, m: Model)
    requires ShowsFields(c, m)
    ensures c.systems == m.systems && c.smMap == m.smMap && c.qMap == m.qMap && c.smStack == m.stacks
    ensures c.lnMap == m.links && c.swExpl == m.expl && c.lastState == m.last
  {
  }

  /** Queue `count` bytes; a total beyond 32 bits stops the run. */
  method EnqueueBytes(c: Cpa, flags: nat, cpu: nat, smi: nat, qi: nat, count: nat, tick: nat, ghost m: Model)
    returns (how: Outcome)
    requires c.Valid() && Shows(c, m) && 1 <= qi <= |c.qData|
    modifies c`qSize, c`qBytes, c`qData, c`data, c`history, c`osbin, c`numRecs, c`annotateIdx, c`written
    ensures c.Valid() && how == Enqueued(m, flags, cpu, smi, qi, count, tick).how
    ensures Shows(c, Enqueued(m, flags, cpu, smi, qi, count, tick).m) && |c.qData| == |old(c.qData)|
    ensures old(c.written) <= c.written
    ensures forall r :: r in c.history ==> r in old(c.history) || fresh(r)
  {
    hide *;
    QueueBytes(c, qi, m);
    Take(c, m);
    EnqueuedIs(m, flags, cpu, smi, qi, count, tick);
    if c.qBytes[qi - 1] + count > INT32_MAX {
      return Stopped;
    }
    ghost var m' := Enqueued(m, flags, cpu, smi, qi, count, tick).m;
    QueueIn(c, flags, cpu, smi, qi, count, tick, m.log, m.awaited, m.queues);
    Give(c, m, m');
    how := Done;
  }

  lemma {:induction false} EnqueuedIs(m: Model, flags: nat, cpu: nat, smi: nat, qi: nat, count: nat, tick: nat)
    ensures var had, added := BytesOf(m.queues, qi), Tagged(|m.log|, count);
      Enqueued(m, flags, cpu, smi, qi, count, tick) ==
      if |had| + count > INT32_MAX then Effect(Stopped, m)
      else Effect(Done, m.(log := m.log + [EntryOf(tick, count, smi, qi, OP_QUEUE, flags, cpu)],
                           queues := m.queues[qi := if Flag(flags, FL_QOPP) then added + had else had + added]))
  {
  }

  /** Take bytes off the front; too few bytes stop the run. */
  method DequeueBytes(c: Cpa, flags: nat, cpu: nat, smi: nat, qi: nat, count: int, tick: nat, ghost m: Model)
    returns (how: Outcome)
    requires c.Valid() && Shows(c, m) && 1 <= qi <= |c.qData|
    modifies c`qSize, c`qBytes, c`qData, c`data, c`history, c`osbin, c`numRecs, c`annotateIdx, c`written, c.history`data
    ensures how == Dequeued(m, flags, cpu, smi, qi, count, tick).how
    ensures how.Done? ==> c.Valid() && Shows(c, Dequeued(m, flags, cpu, smi, qi, count, tick).m)
    ensures old(c.written) <= c.written
    ensures forall r :: r in c.history ==> r in old(c.history) || fresh(r)
  {
    hide *;
    DequeuedIs(m, flags, cpu, smi, qi, count, tick);
    if count != -1 && count <= 0 {
      return Stopped;
    }
    Take(c, m);
    ghost var m' := Dequeued(m, flags, cpu, smi, qi, count, tick).m;
    var ok := QueueOut(c, flags, cpu, smi, qi, count, tick, m.log, m.awaited, m.queues);
    if !ok {
      return Stopped;
    }
    Give(c, m, m');
    how := Done;
  }

  lemma {:induction false} DequeuedIs(m: Model, flags: nat, cpu: nat, smi: nat, qi: nat, count: int, tick: nat)
    ensures var bytes := BytesOf(m.queues, qi);
      Dequeued(m, flags, cpu, smi, qi, count, tick) ==
      if count != -1 && (count <= 0 || count > |bytes|) then Effect(Stopped, m)
      else Effect(Done, m.(log := m.log + [EntryOf(tick, count, smi, qi, OP_DEQUEUE, flags, cpu)],
                           queues := m.queues[qi := if count == -1 then [] else bytes[count..]]))
  {
  }

  /** Log a size and keep that many bytes. */
  method KeepBytes(c: Cpa, cpu: nat, smi: nat, qi: nat, size: int, tick: nat, ghost m: Model)
    requires c.Valid() && Shows(c, m) && 1 <= qi <= |c.qData| && size <= |BytesOf(m.queues, qi)|
    modifies c`qSize, c`qBytes, c`qData, c`data, c`history, c`osbin, c`numRecs, c`annotateIdx, c`written, c.history`data
    ensures c.Valid() && |c.qData| == |old(c.qData)|
    ensures Shows(c, Puts(Logs(m, EntryOf(tick, size, smi, qi, OP_SIZE_QUEUE, FL_NONE, cpu)), qi,
                          if size <= 0 then [] else BytesOf(m.queues, qi)[..size]))
    ensures old(c.written) <= c.written
    ensures forall r :: r in c.history ==> r in old(c.history) || fresh(r)
  {
    hide *;
    var e := EntryOf(tick, size, smi, qi, OP_SIZE_QUEUE, FL_NONE, cpu);
    NotLink(tick, size, smi, qi, cpu);
    KeepLogged(c, e, qi, size, m);
  }

  method KeepLogged(c: Cpa, e: Entry, qi: nat, size: int, ghost m: Model)
    requires c.Valid() && Shows(c, m) && 1 <= qi <= |c.qData| && size <= |BytesOf(m.queues, qi)| && !Unresolved(e)
    modifies c`qSize, c`qBytes, c`qData, c`data, c`history, c`osbin, c`numRecs, c`annotateIdx, c`written, c.history`data
    ensures c.Valid() && |c.qData| == |old(c.qData)|
    ensures Shows(c, Puts(Logs(m, e), qi, if size <= 0 then [] else BytesOf(m.queues, qi)[..size]))
    ensures old(c.written) <= c.written
    ensures forall r :: r in c.history ==> r in old(c.history) || fresh(r)
  {
    hide *;
    QueueBytes(c, qi, m);
    Take(c, m);
    ghost var bytes := if size <= 0 then [] else BytesOf(m.queues, qi)[..size];
    ghost var m' := Puts(Logs(m, e), qi, bytes);
    PutIs(m, e, qi, bytes);
    QueueKeep(c, e, qi, size, m.log, m.awaited, m.queues);
    Give(c, m, m');
  }

  lemma {:induction false} PutIs(m: Model, e: Entry, qi: nat, bytes: seq<nat>)
    ensures Puts(Logs(m, e), qi, bytes) == m.(log := m.log + [e], queues := m.queues[qi := bytes])
  {
  }

  lemma {:induction false} NotLink(tick: nat, size: int, smi: nat, qi: nat, cpu: nat)
    ensures !Unresolved(EntryOf(tick, size, smi, qi, OP_SIZE_QUEUE, FL_NONE, cpu))
  {
  }

  /** Leave a queue with exactly `size` bytes, or none, after emptying it if asked to. */
  method ResizeBytes(c: Cpa, flags: nat, cpu: nat, smi: nat, qi: nat, size: int, tick: nat, ghost m: Model)
    returns (how: Outcome)
    requires c.Valid() && Shows(c, m) && 1 <= qi <= |c.qData|
    modifies c`qSize, c`qBytes, c`qData, c`data, c`history, c`osbin, c`numRecs, c`annotateIdx, c`written, c.history`data
    ensures c.Valid() && how == Resized(m, flags, cpu, smi, qi, size, tick).how
    ensures Shows(c, Resized(m, flags, cpu, smi, qi, size, tick).m)
    ensures old(c.written) <= c.written
    ensures forall r :: r in c.history ==> r in old(c.history) || fresh(r)
  {
    hide Cpa.Valid, Shows, Fitted, Puts, Logs;
    if size > INT32_MAX {
      return Stopped;
    }
    if Flag(flags, FL_RESET) {
      KeepBytes(c, cpu, smi, qi, 0, tick, m);
    }
    assert forall i :: 0 <= i < |c.history| ==> c.history[i] in old(c.history) || fresh(c.history[i]);
    FitBytes(c, cpu, smi, qi, size, tick, Emptied(m, flags, cpu, smi, qi, tick));
    how := Done;
  }

  method FitBytes(c: Cpa, cpu: nat, smi: nat, qi: nat, size: int, tick: nat, ghost m: Model)
    requires c.Valid() && Shows(c, m) && 1 <= qi <= |c.qData| && size <= INT32_MAX
    modifies c`qSize, c`qBytes, c`qData, c`data, c`history, c`osbin, c`numRecs, c`annotateIdx, c`written, c.history`data
    ensures c.Valid() && Shows(c, Fitted(m, cpu, smi, qi, size, tick))
    ensures old(c.written) <= c.written
    ensures forall r :: r in c.history ==> r in old(c.history) || fresh(r)
  {
    hide Cpa.Valid, Shows, EntryOf, Stream;
    QueueBytes(c, qi, m);
    var bytes := c.qBytes[qi - 1];
    if bytes < size {
      var how := EnqueueBytes(c, FL_NONE, cpu, smi, qi, size - bytes, tick, m);
    } else if bytes > size {
      KeepBytes(c, cpu, smi, qi, size, tick, m);
    }
  }

  // ----- Calls -----

  /** One operation on queue `qi`. */
  method QueueCall(c: Cpa, op: QueueOp, flags: nat, cpu: nat, smi: nat, qi: nat, tick: nat, ghost m: Model)
    returns (how: Outcome)
    requires c.Valid() && Shows(c, m) && 1 <= qi <= |c.qData|
    modifies c`qSize, c`qBytes, c`qData, c`data, c`history, c`osbin, c`numRecs, c`annotateIdx, c`written, c.history`data
    ensures how == OnQueue(m, op, flags, cpu, smi, qi, tick).how
    ensures !how.Stopped? ==> c.Valid() && Shows(c, OnQueue(m, op, flags, cpu, smi, qi, tick).m)
    ensures old(c.written) <= c.written
    ensures forall r :: r in c.history ==> r in old(c.history) || fresh(r)
  {
    hide Cpa.Valid, Shows, Enqueued, Dequeued, Resized;
    match op {
      case Enqueue(count) =>
        how := EnqueueBytes(c, flags, cpu, smi, qi, count, tick, m);
      case Dequeue(removed) =>
        DequeuedIs(m, flags, cpu, smi, qi, removed, tick);
        how := DequeueBytes(c, flags, cpu, smi, qi, removed, tick, m);
      case Resize(size, reset) =>
        how := ResizeBytes(c, reset, cpu, smi, qi, size, tick, m);
    }
  }

  /** A queue call by the running machine of a frame. */
  method SwQueueCall(c: Cpa, s: System, frame: nat, cpu: nat, tick: nat, q: string, id: nat, op: QueueOp,
                     ghost m: Model)
    returns (how: Outcome)
    requires c.Valid() && Shows(c, m)
    modifies c`nameCache, c`numSys, c`systems, c`numQ, c`qCache, c`smCache, c`swExpl, c`numQs, c`qMap, c`qSize,
             c`qBytes, c`qData,
             c`data, c`history, c`osbin, c`numRecs, c`annotateIdx, c`written, c.history`data
    ensures how == SwQueues(m, s, frame, cpu, tick, q, id, op).how
    ensures !how.Stopped? ==> c.Valid() && Shows(c, SwQueues(m, s, frame, cpu, tick, q, id, op).m)
    ensures old(c.written) <= c.written
    ensures forall r :: r in c.history ==> r in old(c.history) || fresh(r)
  {
    hide Cpa.Valid, Shows, ShowsFields, ShowsStates, ShowsLog, ShowsAwaited, ShowsQueues, WithSystem, WithQueue,
         QueuesFull, Find, StackOf, LastOf, Automatic, OnQueue;
    var sid := Lookup(c, s, frame, m);
    ghost var m1 := WithSystem(m, s);
    Split(c, m1);
    if StackOf(c.smStack, sid) == [] {
      return Ignored;
    }
    var smi := LastOf(StackOf(c.smStack, sid));
    ghost var m2 := m1;
    if !op.Resize? {
      SetMode(c, Automatic(c.swExpl, sid), m1);
      m2 := m1.(expl := Automatic(m1.expl, sid));
    }
    var qi, ok := Queue(c, sid.0, q, id, m2);
    if !ok {
      return Stopped;
    }
    ghost var m3 := WithQueue(m2, (sid.0, (q, id)));
    Split(c, m3);
    if op == Enqueue(0) {
      return Ignored;
    }
    how := QueueCall(c, op, FL_NONE, cpu, smi, qi, tick, m3);
  }

  /** A queue call by a hardware machine. */
  method HwQueueCall(c: Cpa, s: System, frame: nat, tick: nat, sm: string, q: string, id: nat, owner: System,
                     op: QueueOp, flags: nat, ghost m: Model) returns (how: Outcome)
    requires c.Valid() && Shows(c, m)
    modifies c`nameCache, c`numSys, c`systems, c`numQ, c`qCache, c`smCache, c`numSm, c`smMap, c`numQs, c`qMap, c`qSize,
             c`qBytes, c`qData,
             c`data, c`history, c`osbin, c`numRecs, c`annotateIdx, c`written, c.history`data
    ensures how == HwQueues(m, s, frame, tick, sm, q, id, owner, op, flags).how
    ensures !how.Stopped? ==> c.Valid() && Shows(c, HwQueues(m, s, frame, tick, sm, q, id, owner, op, flags).m)
    ensures old(c.written) <= c.written
    ensures forall r :: r in c.history ==> r in old(c.history) || fresh(r)
  {
    hide Cpa.Valid, Shows, ShowsFields, ShowsStates, ShowsLog, ShowsAwaited, ShowsQueues, WithSystem, WithMachine,
         WithQueue, MachinesFull, QueuesFull, Find, OnQueue, OnStack;
    var mine := Lookup(c, s, frame, m);
    var theirs := Lookup(c, owner, frame, WithSystem(m, s));
    ghost var m1 := WithSystem(WithSystem(m, s), owner);
    SystemKept(m, s, owner);
    if op.Resize? {
      return Ignored;
    }
    var qi, ok := Queue(c, theirs.0, q, id, m1);
    if !ok {
      return Stopped;
    }
    ghost var m2 := WithQueue(m1, (theirs.0, (q, id)));
    Split(c, m2);
    var smi;
    smi, ok := Machine(c, mine.0, sm, frame, m2);
    if !ok {
      return Stopped;
    }
    ghost var m3 := WithMachine(m2, (mine.0, (sm, frame)));
    Split(c, m3);
    TableChanges(m2, s, (mine.0, (sm, frame)));
    how := QueueCall(c, op, Hardware(flags), 0, smi, qi, tick, m3);
  }

  /** A system keeps its number when another one is added. */
  lemma {:induction false} SystemKept(m: Model, s: System, owner: System)
    ensures Find(WithSystem(WithSystem(m, s), owner).systems, s) == Find(WithSystem(m, s).systems, s)
  {
    var ss := WithSystem(m, s).systems;
    if owner !in ss {
      assert (ss + [owner])[..|ss|] == ss;
    }
  }

  /** Every call does what the model says, and only adds to the file. */
  method Step(c: Cpa, cmd: Command, ghost m: Model) returns (how: Outcome)
    requires c.Valid() && Shows(c, m)
    modifies c, c.history
    ensures how == Next(m, cmd).how
    ensures !how.Stopped? ==> c.Valid() && Shows(c, Next(m, cmd).m)
    ensures old(c.written) <= c.written
    ensures forall r :: r in c.history ==> r in old(c.history) || fresh(r)
  {
    hide Cpa.Valid, Shows, Begins, Ends, BeginsState, EndsState, LinksTo, LinksSyscall, SwQueues, HwQueues;
    var Command(s, frame, cpu, tick, call) := cmd;
    match call {
      case SmBegin(sm, id, flags, st) => how := SwSmBegin(c, s, frame, cpu, tick, sm, id, flags, st, m);
      case SmEnd(sm) => how := DoSwSmEnd(c, s, frame, cpu, tick, sm, m);
      case StateBegin(st, explicit, flags) => how := SwBegin(c, s, frame, cpu, tick, st, explicit, flags, m);
      case StateEnd(st) => how := SwEnd(c, s, frame, cpu, tick, st, m);
      case Link(lsm, id) => how := SwLink(c, s, frame, cpu, tick, lsm, id, m);
      case SyscallLink(lsm) => how := SwSyscallLink(c, s, frame, cpu, tick, lsm, m);
      case SwQueue(q, id, op) => how := SwQueueCall(c, s, frame, cpu, tick, q, id, op, m);
      case HwQueue(sm, q, id, owner, op, flags) =>
        how := HwQueueCall(c, s, frame, tick, sm, q, id, owner, op, flags, m);
    }
  }

  /** A run ends where the model's run ends. In particular every queue holds exactly the bytes that the model's
      enqueues, dequeues and resizes leave in it, each tagged with the record that put it there. */
  method Run(c: Cpa, cmds: seq<Command>, ghost m: Model) returns (ran: nat)
    requires c.Valid() && Shows(c, m)
    modifies c, c.history
    ensures ran == Runs(m, cmds).ran <= |cmds|
    ensures ran == |cmds| ==> c.Valid() && Shows(c, Runs(m, cmds).m)
    ensures old(c.written) <= c.written
    ensures forall i :: 0 <= i < |c.history| ==> c.history[i] in old(c.history) || fresh(c.history[i])
  {
    hide Cpa.Valid, Shows, Next;
    ran := 0;
    ghost var now := m;
    while ran < |cmds|
      invariant 0 <= ran <= |cmds| && c.Valid() && Shows(c, now) && old(c.written) <= c.written
      invariant Runs(m, cmds) == var rest := Runs(now, cmds[ran..]); Trace(ran + rest.ran, rest.m)
      invariant forall i :: 0 <= i < |c.history| ==> c.history[i] in old(c.history) || fresh(c.history[i])
    {
      ghost var was := c.history;
      RunsOne(now, cmds, ran);
      var how := Step(c, cmds[ran], now);
      forall i | 0 <= i < |c.history| ensures c.history[i] in old(c.history) || fresh(c.history[i]) {
        var r := c.history[i];
        assert r in c.history;
        if r in was {
          var j :| 0 <= j < |was| && was[j] == r;
        }
      }
      if how.Stopped? {
        return;
      }
      now := Next(now, cmds[ran]).m;
      ran := ran + 1;
    }
  }

  lemma {:induction false} RunsOne(m: Model, cmds: seq<Command>, k: nat)
    requires k < |cmds|
    ensures Runs(m, cmds[k..]) ==
      var e := Next(m, cmds[k]);
      if e.how.Stopped? then Trace(0, m)
      else var rest := Runs(e.m, cmds[k + 1..]); Trace(1 + rest.ran, rest.m)
  {
    hide Next;
    assert cmds[k..][0] == cmds[k] && cmds[k..][1..] == cmds[k + 1..];
  }

  // ----- What holds in every state of a run -----

  /** No link without a target is in the file, and every held record is still pending. */
  lemma {:induction false} WrittenIsResolved(c: Cpa)
    requires c.Valid()
    ensures forall k :: 0 <= k < |c.written| ==> !Unresolved(c.written[k])
    ensures forall a :: a in c.scLinks ==> c.scLinks[a] in c.data && Unresolved(c.scLinks[a].AsEntry())
  {
    hide Cpa.TablesOk, Cpa.QueuesOk, FileOk, Distinct;
    forall a | a in c.scLinks ensures c.scLinks[a] in c.data && Unresolved(c.scLinks[a].AsEntry()) {
      var r := c.scLinks[a];
      var i :| 0 <= i < |c.history| && c.history[i] == r;
      assert i >= c.numRecs;
      assert c.data[i - c.numRecs] == r;
    }
  }

  /** The file holds the records appended first, in order, each as it looks now, and the rest are pending. */
  lemma {:induction false} FileHoldsHistory(c: Cpa, k: nat)
    requires c.Valid() && k < c.numRecs
    ensures c.numRecs <= |c.history| && c.data == c.history[c.numRecs..]
    ensures var at := HEADER_SIZE + RECORD_SIZE * k;
      at + RECORD_SIZE <= |c.osbin| && c.osbin[at..at + RECORD_SIZE] == Encode(c.history[k].AsEntry())
  {
    hide Cpa.TablesOk, Cpa.QueuesOk, Cpa.HeldOk, Distinct, Encode, Bytes, IndexOk;
    RecordAt(c.header, c.written, k);
  }

  /** Index entry `k` leads to record number 100000 (k + 1). */
  lemma {:induction false} IndexLeads(c: Cpa, k: nat)
    requires c.Valid() && k < |c.annotateIdx|
    ensures var n := INDEX_STEP * (k + 1) - 1;
      && n < c.numRecs <= |c.history|
      && c.annotateIdx[k] + RECORD_SIZE <= |c.osbin|
      && c.osbin[c.annotateIdx[k]..c.annotateIdx[k] + RECORD_SIZE] == Encode(c.history[n].AsEntry())
  {
    assert IndexOk(c.annotateIdx, c.numRecs);
    hide Cpa.TablesOk, Cpa.QueuesOk, Cpa.HeldOk, Distinct, Encode, Bytes;
    FileHoldsHistory(c, INDEX_STEP * (k + 1) - 1);
  }

  /** Every number leads to one machine or queue and back, and counts agree with the tables. */
  lemma {:induction false} TablesInvert(c: Cpa, n: nat)
    requires c.Valid() && 1 <= n
    ensures n <= c.numSm ==> n <= |c.smMap| && Finds(c.smCache, c.smMap[n - 1], n)
    ensures n <= c.numQs ==> n <= |c.qMap| && Finds(c.qCache, c.qMap[n - 1], n)
  {
    hide Cpa.LogOk, Cpa.QueuesOk, Cpa.HeldOk, Interned, Dense;
    if n <= c.numSm { LooksUp(c.smCache, c.smMap, n); }
    if n <= c.numQs { LooksUp(c.qCache, c.qMap, n); }
  }

  ghost predicate Finds(cache: IdCache, key: (nat, Id), n: nat) {
    1 <= key.0 <= |cache| && key.1 in cache[key.0 - 1] && cache[key.0 - 1][key.1] == n
  }
}
