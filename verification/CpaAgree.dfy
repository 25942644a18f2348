/** Two engines that started from the same saved state: when every later call has the same effect on both. */
module CpaAgree {
  import opened Sequences
  import opened CpaRecords
  import opened CpaTables
  import opened CpaQueues
  import opened Cpa
  import opened CpaModel
  import opened CpaLaws

  /** Machines that a link waits for: a system, and a name and frame. */
  type Keys = set<(nat, Id)>

  ghost predicate SameFields(a: Model, b: Model) {
    && a.systems == b.systems && a.smMap == b.smMap && a.qMap == b.qMap && a.kinds == b.kinds
    && a.links == b.links && a.expl == b.expl && a.last == b.last
    && (forall kind :: StatesOf(a.states, kind) == StatesOf(b.states, kind))
    && (forall sid :: StackOf(a.stacks, sid) == StackOf(b.stacks, sid))
  }

  /** The records logged since the logs had these lengths. */
  ghost predicate SameLog(a: seq<Entry>, b: seq<Entry>, na: nat, nb: nat) {
    na <= |a| && nb <= |b| && a[na..] == b[nb..]
  }

  /** The second engine waits for the same machines, except the ones in `lost`. */
  ghost predicate SameAwaited(a: map<(nat, Id), nat>, b: map<(nat, Id), nat>, lost: Keys, na: nat, nb: nat) {
    && (forall k :: k in b <==> k in a && k !in lost) && (forall k :: k in lost ==> k in a)
    && (forall k :: k in b ==> a[k] >= na && b[k] >= nb && a[k] - na == b[k] - nb)
  }

  /** Whose byte it is, leaving out how many bytes the record stood for. */
  function Tag(e: Entry): Entry {
    e.(data := 0)
  }

  ghost predicate SameTags(a: seq<Entry>, s: seq<nat>, b: seq<Entry>, t: seq<nat>) {
    |s| == |t| && forall i :: 0 <= i < |s| ==> s[i] < |a| && t[i] < |b| && Tag(a[s[i]]) == Tag(b[t[i]])
  }

  ghost predicate SameQueues(a: seq<Entry>, aq: map<nat, seq<nat>>, b: seq<Entry>, bq: map<nat, seq<nat>>) {
    forall qi :: SameTags(a, BytesOf(aq, qi), b, BytesOf(bq, qi))
  }

  /** The engines agree on everything but the links in `lost`, which the second one does not wait for. */
  ghost predicate Agree(a: Model, b: Model, lost: Keys, na: nat, nb: nat) {
    && SameFields(a, b) && SameLog(a.log, b.log, na, nb) && SameAwaited(a.awaited, b.awaited, lost, na, nb)
    && SameQueues(a.log, a.queues, b.log, b.queues) && ModelOk(a) && ModelOk(b)
  }

  // ----- Logs and queues -----

  lemma {:induction false} LogBoth(a: seq<Entry>, b: seq<Entry>, na: nat, nb: nat, e: Entry)
    requires SameLog(a, b, na, nb)
    ensures SameLog(a + [e], b + [e], na, nb)
  {
    assert (a + [e])[na..] == a[na..] + [e] && (b + [e])[nb..] == b[nb..] + [e];
  }

  lemma {:induction false} LogQueues(a: seq<Entry>, aq: map<nat, seq<nat>>, b: seq<Entry>, bq: map<nat, seq<nat>>,
                                     e: Entry)
    requires SameQueues(a, aq, b, bq)
    ensures SameQueues(a + [e], aq, b + [e], bq)
  {
    forall qi ensures SameTags(a + [e], BytesOf(aq, qi), b + [e], BytesOf(bq, qi)) {
      assert SameTags(a, BytesOf(aq, qi), b, BytesOf(bq, qi));
    }
  }

  /** Bytes kept and bytes of the record just logged. */
  lemma {:induction false} NewBytes(a: seq<Entry>, s: seq<nat>, b: seq<Entry>, t: seq<nat>, e: Entry, n: nat)
    requires SameTags(a, s, b, t)
    ensures SameTags(a + [e], s + Tagged(|a|, n), b + [e], t + Tagged(|b|, n))
    ensures SameTags(a + [e], Tagged(|a|, n) + s, b + [e], Tagged(|b|, n) + t)
  {
  }

  lemma {:induction false} CutBytes(a: seq<Entry>, s: seq<nat>, b: seq<Entry>, t: seq<nat>, e: Entry, k: nat)
    requires SameTags(a, s, b, t) && k <= |s|
    ensures SameTags(a + [e], s[k..], b + [e], t[k..]) && SameTags(a + [e], s[..k], b + [e], t[..k])
  {
  }

  lemma {:induction false} PutBoth(a: seq<Entry>, aq: map<nat, seq<nat>>, b: seq<Entry>, bq: map<nat, seq<nat>>,
                                   e: Entry,
                                   qi: nat, s: seq<nat>, t: seq<nat>)
    requires SameQueues(a, aq, b, bq) && SameTags(a + [e], s, b + [e], t)
    ensures SameQueues(a + [e], aq[qi := s], b + [e], bq[qi := t])
  {
    LogQueues(a, aq, b, bq, e);
    var aq', bq' := aq[qi := s], bq[qi := t];
    forall x ensures SameTags(a + [e], BytesOf(aq', x), b + [e], BytesOf(bq', x)) {
      assert SameTags(a + [e], BytesOf(aq, x), b + [e], BytesOf(bq, x));
    }
  }

  /** Logging the same record keeps the agreement. */
  lemma {:induction false} AgreeLogs(a: Model, b: Model, lost: Keys, na: nat, nb: nat, e: Entry)
    requires Agree(a, b, lost, na, nb)
    ensures Agree(Logs(a, e), Logs(b, e), lost, na, nb)
  {
    hide SameLog, SameAwaited, SameQueues, BytesOk, AwaitedOk, NumbersOk;
    LogBoth(a.log, b.log, na, nb, e);
    LogQueues(a.log, a.queues, b.log, b.queues, e);
    LogsOk(a.smMap, a.log, e, a.awaited, a.queues);
    LogsOk(b.smMap, b.log, e, b.awaited, b.queues);
  }

  /** Logging a record and giving one queue matching bytes keeps the agreement. */
  lemma {:induction false} AgreePuts(a: Model, b: Model, lost: Keys, na: nat, nb: nat, e: Entry, qi: nat,
                                     s: seq<nat>, t: seq<nat>)
    requires Agree(a, b, lost, na, nb) && SameTags(a.log + [e], s, b.log + [e], t)
    requires ModelOk(Puts(Logs(a, e), qi, s)) && ModelOk(Puts(Logs(b, e), qi, t))
    ensures Agree(Puts(Logs(a, e), qi, s), Puts(Logs(b, e), qi, t), lost, na, nb)
  {
    hide SameLog, SameAwaited, SameQueues, ModelOk;
    LogBoth(a.log, b.log, na, nb, e);
    PutBoth(a.log, a.queues, b.log, b.queues, e, qi, s, t);
  }

  // ----- Fields -----

  /** A change of fields only, made alike on both sides. */
  lemma {:induction false} AgreeFields(a: Model, b: Model, a': Model, b': Model, lost: Keys, na: nat, nb: nat)
    requires Agree(a, b, lost, na, nb) && SameFields(a', b') && ModelOk(a') && ModelOk(b')
    requires a'.log == a.log && a'.awaited == a.awaited && a'.queues == a.queues
    requires b'.log == b.log && b'.awaited == b.awaited && b'.queues == b.queues
    ensures Agree(a', b', lost, na, nb)
  {
    hide SameFields, SameLog, SameAwaited, SameQueues, ModelOk;
  }

  lemma {:induction false} AgreeSystem(a: Model, b: Model, lost: Keys, na: nat, nb: nat, s: System)
    requires Agree(a, b, lost, na, nb)
    ensures Agree(WithSystem(a, s), WithSystem(b, s), lost, na, nb)
  {
    SystemOk(a, s);
    SystemOk(b, s);
    hide ModelOk, SameLog, SameAwaited, SameQueues;
    AgreeFields(a, b, WithSystem(a, s), WithSystem(b, s), lost, na, nb);
  }

  lemma {:induction false} AgreeMachine(a: Model, b: Model, lost: Keys, na: nat, nb: nat, key: (nat, Id))
    requires Agree(a, b, lost, na, nb)
    ensures MachinesFull(a, key) <==> MachinesFull(b, key)
    ensures !MachinesFull(a, key) ==> Agree(WithMachine(a, key), WithMachine(b, key), lost, na, nb)
    ensures !MachinesFull(a, key) ==>
      Find(WithMachine(a, key).smMap, key) == Find(WithMachine(b, key).smMap, key) > 0 &&
      Belongs(WithMachine(a, key).smMap, Find(WithMachine(a, key).smMap, key), key.0)
  {
    if !MachinesFull(a, key) {
      WithMachineOk(a, key);
      WithMachineOk(b, key);
      hide ModelOk, SameLog, SameAwaited, SameQueues, Find;
      AgreeFields(a, b, WithMachine(a, key), WithMachine(b, key), lost, na, nb);
    }
  }

  lemma {:induction false} AgreeQueue(a: Model, b: Model, lost: Keys, na: nat, nb: nat, key: (nat, Id))
    requires Agree(a, b, lost, na, nb)
    ensures QueuesFull(a, key) <==> QueuesFull(b, key)
    ensures Agree(WithQueue(a, key), WithQueue(b, key), lost, na, nb)
  {
    WithQueueOk(a, key);
    WithQueueOk(b, key);
    hide ModelOk, SameLog, SameAwaited, SameQueues;
    AgreeFields(a, b, WithQueue(a, key), WithQueue(b, key), lost, na, nb);
  }

  lemma {:induction false} AgreeState(a: Model, b: Model, lost: Keys, na: nat, nb: nat, kind: string, st: string)
    requires Agree(a, b, lost, na, nb)
    ensures Agree(WithState(a, kind, st), WithState(b, kind, st), lost, na, nb)
    ensures StateNumber(WithState(a, kind, st), kind, st) == StateNumber(WithState(b, kind, st), kind, st)
  {
    var a', b' := WithState(a, kind, st), WithState(b, kind, st);
    assert ModelOk(a') && ModelOk(b');
    hide ModelOk, SameLog, SameAwaited, SameQueues, Find;
    forall k ensures StatesOf(a'.states, k) == StatesOf(b'.states, k) {
      assert StatesOf(a.states, k) == StatesOf(b.states, k);
    }
    AgreeFields(a, b, a', b', lost, na, nb);
  }

  lemma {:induction false} AgreeLast(a: Model, b: Model, lost: Keys, na: nat, nb: nat, last: map<nat, nat>)
    requires Agree(a, b, lost, na, nb)
    ensures Agree(a.(last := last), b.(last := last), lost, na, nb)
  {
    hide SameLog, SameAwaited, SameQueues, BytesOk, AwaitedOk, NumbersOk;
    AgreeFields(a, b, a.(last := last), b.(last := last), lost, na, nb);
  }

  lemma {:induction false} AgreeMode(a: Model, b: Model, lost: Keys, na: nat, nb: nat, expl: map<StackId, bool>)
    requires Agree(a, b, lost, na, nb)
    ensures Agree(a.(expl := expl), b.(expl := expl), lost, na, nb)
  {
    hide SameLog, SameAwaited, SameQueues, BytesOk, AwaitedOk, NumbersOk;
    AgreeFields(a, b, a.(expl := expl), b.(expl := expl), lost, na, nb);
  }

  lemma {:induction false} AgreeStack(a: Model, b: Model, lost: Keys, na: nat, nb: nat, sid: StackId, stack: seq<nat>)
    requires Agree(a, b, lost, na, nb) && forall i :: 0 <= i < |stack| ==> Belongs(a.smMap, stack[i], sid.0)
    ensures Agree(a.(stacks := a.stacks[sid := stack]), b.(stacks := b.stacks[sid := stack]), lost, na, nb)
  {
    hide SameLog, SameAwaited, SameQueues, BytesOk, AwaitedOk;
    var a', b' := a.(stacks := a.stacks[sid := stack]), b.(stacks := b.stacks[sid := stack]);
    forall x ensures StackOf(a'.stacks, x) == StackOf(b'.stacks, x) {
      assert StackOf(a.stacks, x) == StackOf(b.stacks, x);
    }
    assert SameFields(a', b');
    hide SameFields;
    AgreeFields(a, b, a', b', lost, na, nb);
  }

  lemma {:induction false} AgreeLinks(a: Model, b: Model, lost: Keys, na: nat, nb: nat, links: map<nat, nat>)
    requires Agree(a, b, lost, na, nb) && forall k :: k in links ==> 1 <= k <= |a.smMap|
    ensures Agree(a.(links := links), b.(links := links), lost, na, nb)
  {
    hide SameLog, SameAwaited, SameQueues, BytesOk, AwaitedOk;
    AgreeFields(a, b, a.(links := links), b.(links := links), lost, na, nb);
  }

  // ----- Waiting links -----

  lemma {:induction false} AgreeHolds(a: Model, b: Model, lost: Keys, na: nat, nb: nat, key: (nat, Id), e: Entry)
    requires Agree(a, b, lost, na, nb) && key !in a.awaited && key !in lost
    requires e.op == OP_LINK && Belongs(a.smMap, e.sm, key.0) && 1 <= key.0 <= |a.systems|
    ensures Agree(Holds(a, key, e), Holds(b, key, e), lost, na, nb)
  {
    hide SameLog, SameAwaited, SameQueues, BytesOk, AwaitedOk, NumbersOk;
    AgreeLogs(a, b, lost, na, nb, e);
    HoldOk(a.smMap, a.log, a.awaited, key, e);
    HoldOk(b.smMap, b.log, b.awaited, key, e);
    HoldBoth(a.awaited, b.awaited, lost, na, nb, a.log, b.log, key);
  }

  lemma {:induction false} HoldOk(smMap: IdMap, log: seq<Entry>, awaited: map<(nat, Id), nat>, key: (nat, Id), e: Entry)
    requires AwaitedOk(smMap, log, awaited) && e.op == OP_LINK && Belongs(smMap, e.sm, key.0)
    ensures AwaitedOk(smMap, log + [e], awaited[key := |log|])
  {
  }

  lemma {:induction false} HoldBoth(a: map<(nat, Id), nat>, b: map<(nat, Id), nat>, lost: Keys, na: nat, nb: nat,
                                    alog: seq<Entry>, blog: seq<Entry>, key: (nat, Id))
    requires SameAwaited(a, b, lost, na, nb) && SameLog(alog, blog, na, nb) && key !in lost
    ensures SameAwaited(a[key := |alog|], b[key := |blog|], lost, na, nb)
  {
    assert |alog[na..]| == |blog[nb..]|;
  }

  /** Completing the same link on both sides. */
  lemma {:induction false} CompleteBoth(a: seq<Entry>, b: seq<Entry>, na: nat, nb: nat, i: nat, j: nat, smi: nat)
    requires SameLog(a, b, na, nb) && na <= i < |a| && nb <= j < |b| && i - na == j - nb
    ensures SameLog(Completed(a, i, smi), Completed(b, j, smi), na, nb) && a[i] == b[j]
  {
    assert a[i] == a[na..][i - na] && b[j] == b[nb..][j - nb];
    var a', b' := Completed(a, i, smi), Completed(b, j, smi);
    assert a'[na..] == a[na..][i - na := a[i].(stq := smi % 0x1_0000)];
    assert b'[nb..] == b[nb..][j - nb := b[j].(stq := smi % 0x1_0000)];
  }

  lemma {:induction false} CompleteQueues(a: seq<Entry>, aq: map<nat, seq<nat>>, b: seq<Entry>, bq: map<nat, seq<nat>>,
                                          i: nat, j: nat, smi: nat)
    requires SameQueues(a, aq, b, bq) && BytesOk(a, aq) && BytesOk(b, bq)
    requires i < |a| && j < |b| && a[i].op == OP_LINK && b[j].op == OP_LINK
    ensures SameQueues(Completed(a, i, smi), aq, Completed(b, j, smi), bq)
  {
    var a', b' := Completed(a, i, smi), Completed(b, j, smi);
    forall qi ensures SameTags(a', BytesOf(aq, qi), b', BytesOf(bq, qi)) {
      assert SameTags(a, BytesOf(aq, qi), b, BytesOf(bq, qi));
    }
  }

  lemma {:induction false} ArriveBoth(a: map<(nat, Id), nat>, b: map<(nat, Id), nat>, lost: Keys, na: nat, nb: nat,
                                      key: (nat, Id))
    requires SameAwaited(a, b, lost, na, nb) && key !in lost
    ensures key in a <==> key in b
    ensures key in a ==> a[key] >= na && b[key] >= nb && a[key] - na == b[key] - nb
    ensures SameAwaited(a - {key}, b - {key}, lost, na, nb)
  {
  }

  lemma {:induction false} AgreeArrives(a: Model, b: Model, lost: Keys, na: nat, nb: nat, key: (nat, Id), smi: nat)
    requires Agree(a, b, lost, na, nb) && key !in lost && 1 <= smi <= |a.smMap|
    ensures Agree(Arrives(a, key, smi), Arrives(b, key, smi), lost, na, nb)
  {
    hide SameLog, SameAwaited, SameQueues, BytesOk, KeysOk, NumbersOk, Completed;
    ArrivesOk(a, key, smi);
    ArrivesOk(b, key, smi);
    ArriveBoth(a.awaited, b.awaited, lost, na, nb, key);
    if key in a.awaited {
      CompleteBoth(a.log, b.log, na, nb, a.awaited[key], b.awaited[key], smi);
      CompleteQueues(a.log, a.queues, b.log, b.queues, a.awaited[key], b.awaited[key], smi);
      hide AwaitedOk;
      assert Waiting(a, key) == Waiting(b, key);
    }
  }

  // ----- Calls -----

  lemma {:induction false} AgreeLinksBack(a: Model, b: Model, lost: Keys, na: nat, nb: nat, prev: nat, smi: nat,
                                          cpu: nat, tick: nat)
    requires Agree(a, b, lost, na, nb) && 1 <= smi <= |a.smMap|
    ensures Agree(LinksBack(a, prev, smi, cpu, tick), LinksBack(b, prev, smi, cpu, tick), lost, na, nb)
    ensures LinksBack(a, prev, smi, cpu, tick).smMap == a.smMap
  {
    if prev != 0 {
      var links := a.links[smi := prev];
      assert b.links == a.links && forall k :: k in links ==> 1 <= k <= |a.smMap|;
      hide Agree, EntryOf;
      AgreeLinks(a, b, lost, na, nb, links);
      AgreeLogs(a.(links := links), b.(links := links), lost, na, nb,
                EntryOf(tick, 0, prev, smi, OP_LINK, FL_NONE, cpu));
    }
  }

  lemma {:induction false} AgreePushes(a: Model, b: Model, lost: Keys, na: nat, nb: nat, sid: StackId, smi: nat)
    requires Agree(a, b, lost, na, nb) && Belongs(a.smMap, smi, sid.0)
    ensures Agree(Pushes(a, sid, smi), Pushes(b, sid, smi), lost, na, nb) && Pushes(a, sid, smi).smMap == a.smMap
  {
    StackBounds(a, b, lost, na, nb, sid);
    var stack := StackOf(a.stacks, sid) + [smi];
    hide Agree, Automatic, StackOf;
    AgreeStack(a, b, lost, na, nb, sid, stack);
    AgreeMode(a.(stacks := a.stacks[sid := stack]), b.(stacks := b.stacks[sid := stack]), lost, na, nb,
              Automatic(a.expl, sid));
  }

  lemma {:induction false} StackBounds(a: Model, b: Model, lost: Keys, na: nat, nb: nat, sid: StackId)
    requires Agree(a, b, lost, na, nb)
    ensures StackOf(a.stacks, sid) == StackOf(b.stacks, sid) && a.expl == b.expl && a.links == b.links
    ensures forall i :: 0 <= i < |StackOf(a.stacks, sid)| ==> Belongs(a.smMap, StackOf(a.stacks, sid)[i], sid.0)
  {
    hide SameLog, SameAwaited, SameQueues, BytesOk, AwaitedOk, KeysOk;
  }

  lemma {:induction false} AgreeEntersState(a: Model, b: Model, lost: Keys, na: nat, nb: nat, smi: nat, kind: string,
                                            st: string, cpu: nat, tick: nat)
    requires Agree(a, b, lost, na, nb)
    ensures Agree(EntersState(a, smi, kind, st, cpu, tick), EntersState(b, smi, kind, st, cpu, tick), lost, na, nb)
  {
    if st != "" {
      AgreeState(a, b, lost, na, nb, kind, st);
      var a', b' := WithState(a, kind, st), WithState(b, kind, st);
      assert a'.last == b'.last;
      hide Agree, WithState, StateNumber, EntryOf;
      var sti := StateNumber(a', kind, st);
      var last := a'.last[smi := sti];
      AgreeLast(a', b', lost, na, nb, last);
      AgreeLogs(a'.(last := last), b'.(last := last), lost, na, nb, EntryOf(tick, 0, smi, sti, OP_BEGIN, FL_NONE, cpu));
    }
  }

  lemma {:induction false} AgreePlaces(a: Model, b: Model, lost: Keys, na: nat, nb: nat, sid: StackId, smi: nat,
                                       prev: nat, sm: string, cpu: nat, tick: nat)
    requires Agree(a, b, lost, na, nb) && Belongs(a.smMap, smi, sid.0)
    requires (sid.0, (sm, sid.1)) in lost ==> Places(b, sid, smi, prev, sm, cpu, tick).how.Stopped?
    ensures Places(a, sid, smi, prev, sm, cpu, tick).how == Places(b, sid, smi, prev, sm, cpu, tick).how
    ensures Places(a, sid, smi, prev, sm, cpu, tick).how.Done? ==>
      Agree(Places(a, sid, smi, prev, sm, cpu, tick).m, Places(b, sid, smi, prev, sm, cpu, tick).m, lost, na, nb)
  {
    var key := (sid.0, (sm, sid.1));
    hide Agree, LinksBack, Pushes, Arrives;
    SameKeys(a, b, lost, na, nb, key);
    SameLast(a, b, lost, na, nb);
    if key !in lost {
      AgreeLinksBack(a, b, lost, na, nb, prev, smi, cpu, tick);
      var a1, b1 := LinksBack(a, prev, smi, cpu, tick), LinksBack(b, prev, smi, cpu, tick);
      AgreePushes(a1, b1, lost, na, nb, sid, smi);
      AgreeArrives(Pushes(a1, sid, smi), Pushes(b1, sid, smi), lost, na, nb, key, smi);
    }
  }

  lemma {:induction false} AgreeBegins(a: Model, b: Model, lost: Keys, na: nat, nb: nat, s: System, frame: nat,
                                       cpu: nat, tick: nat,
                                       sm: string, id: nat, flags: nat, st: string)
    requires Agree(a, b, lost, na, nb)
    requires (Find(WithSystem(b, s).systems, s), (sm, frame)) in lost ==>
      Begins(b, s, frame, cpu, tick, sm, id, flags, st).how.Stopped?
    ensures Begins(a, s, frame, cpu, tick, sm, id, flags, st).how ==
      Begins(b, s, frame, cpu, tick, sm, id, flags, st).how
    ensures Begins(a, s, frame, cpu, tick, sm, id, flags, st).how.Done? ==>
      Agree(Begins(a, s, frame, cpu, tick, sm, id, flags, st).m, Begins(b, s, frame, cpu, tick, sm, id, flags, st).m,
            lost, na, nb)
  {
    AgreeSystem(a, b, lost, na, nb, s);
    var a1, b1 := WithSystem(a, s), WithSystem(b, s);
    assert a1.systems == b1.systems;
    var sid := (Find(a1.systems, s), frame);
    var key := (sid.0, (sm, id));
    AgreeMachine(a1, b1, lost, na, nb, key);
    if !MachinesFull(a1, key) {
      var a2, b2 := WithMachine(a1, key), WithMachine(b1, key);
      var smi := Find(a2.smMap, key);
      StackBounds(a2, b2, lost, na, nb, sid);
      var prev := Caller(StackOf(a2.stacks, sid), flags);
      hide Agree, WithSystem, WithMachine, Find, MachinesFull, Places, EntersState, Caller, StackOf;
      AgreePlaces(a2, b2, lost, na, nb, sid, smi, prev, sm, cpu, tick);
      var pa, pb := Places(a2, sid, smi, prev, sm, cpu, tick), Places(b2, sid, smi, prev, sm, cpu, tick);
      if pa.how.Done? {
        AgreeEntersState(pa.m, pb.m, lost, na, nb, smi, sm, st, cpu, tick);
      }
    }
  }

  lemma {:induction false} AgreeUnlinks(a: Model, b: Model, lost: Keys, na: nat, nb: nat, smi: nat, cpu: nat, tick: nat)
    requires Agree(a, b, lost, na, nb)
    ensures Agree(Unlinks(a, smi, cpu, tick), Unlinks(b, smi, cpu, tick), lost, na, nb)
  {
    var links := a.links - {smi};
    assert b.links == a.links && forall k :: k in links ==> 1 <= k <= |a.smMap|;
    hide Agree, EntryOf;
    AgreeLinks(a, b, lost, na, nb, links);
    AgreeLogs(a.(links := links), b.(links := links), lost, na, nb,
              EntryOf(tick, 0, smi, At(a.links, smi), OP_LINK, FL_NONE, cpu));
  }

  lemma {:induction false} AgreePops(a: Model, b: Model, lost: Keys, na: nat, nb: nat, sid: StackId, cpu: nat,
                                     tick: nat)
    requires Agree(a, b, lost, na, nb) && StackOf(a.stacks, sid) != []
    ensures StackOf(b.stacks, sid) != []
    ensures Agree(Pops(a, sid, cpu, tick), Pops(b, sid, cpu, tick), lost, na, nb)
  {
    hide Agree, Unlinks, EntryOf, StackOf;
    StackBounds(a, b, lost, na, nb, sid);
    var stack := StackOf(a.stacks, sid);
    var smi, rest := LastOf(stack), stack[..|stack| - 1];
    AgreeStack(a, b, lost, na, nb, sid, rest);
    var a1, b1 := a.(stacks := a.stacks[sid := rest]), b.(stacks := b.stacks[sid := rest]);
    AgreeUnlinks(a1, b1, lost, na, nb, smi, cpu, tick);
    var a2, b2 := Unlinks(a1, smi, cpu, tick), Unlinks(b1, smi, cpu, tick);
    if rest != [] {
      SameLast(a2, b2, lost, na, nb);
      AgreeLogs(a2, b2, lost, na, nb, EntryOf(tick, 0, smi, At(a2.last, smi), OP_BEGIN, FL_NONE, cpu));
    }
  }

  lemma {:induction false} SameLast(a: Model, b: Model, lost: Keys, na: nat, nb: nat)
    requires Agree(a, b, lost, na, nb)
    ensures a.last == b.last && a.smMap == b.smMap && a.expl == b.expl && a.systems == b.systems && a.qMap == b.qMap
    ensures a.links == b.links
    ensures Distinct(a.systems)
  {
    hide SameLog, SameAwaited, SameQueues, BytesOk, AwaitedOk, NumbersOk;
  }

  lemma {:induction false} AgreeEnds(a: Model, b: Model, lost: Keys, na: nat, nb: nat, s: System, frame: nat, cpu: nat,
                                     tick: nat, sm: string)
    requires Agree(a, b, lost, na, nb)
    ensures Ends(a, s, frame, cpu, tick, sm).how == Ends(b, s, frame, cpu, tick, sm).how
    ensures Agree(Ends(a, s, frame, cpu, tick, sm).m, Ends(b, s, frame, cpu, tick, sm).m, lost, na, nb)
  {
    hide Agree, WithSystem, Find, StackOf, Pops, Automatic, NameOf;
    var a1, b1, sid := AgreeFrame(a, b, lost, na, nb, s, frame);
    var expl := Automatic(a1.expl, sid);
    AgreeMode(a1, b1, lost, na, nb, expl);
    if StackOf(a1.stacks, sid) != [] {
      AgreePops(a1.(expl := expl), b1.(expl := expl), lost, na, nb, sid, cpu, tick);
    }
  }

  /** Looking up the running frame. */
  lemma {:induction false} AgreeFrame(a: Model, b: Model, lost: Keys, na: nat, nb: nat, s: System, frame: nat)
    returns (a': Model, b': Model, sid: StackId)
    requires Agree(a, b, lost, na, nb)
    ensures a' == WithSystem(a, s) && b' == WithSystem(b, s) && Agree(a', b', lost, na, nb)
    ensures sid == (Find(a'.systems, s), frame) == (Find(b'.systems, s), frame) && 1 <= sid.0 <= |a'.systems|
    ensures StackOf(a'.stacks, sid) == StackOf(b'.stacks, sid) && a'.expl == b'.expl && a'.smMap == b'.smMap
    ensures |a'.smMap| < ID_LIMIT
    ensures StackOf(a'.stacks, sid) != [] ==> Belongs(a'.smMap, LastOf(StackOf(a'.stacks, sid)), sid.0)
  {
    AgreeSystem(a, b, lost, na, nb, s);
    a', b' := WithSystem(a, s), WithSystem(b, s);
    FindIs(a'.systems, s);
    SameLast(a', b', lost, na, nb);
    sid := (Find(a'.systems, s), frame);
    hide Find, SameLog, SameAwaited, SameQueues, BytesOk, AwaitedOk;
    StackBounds(a', b', lost, na, nb, sid);
  }

  lemma {:induction false} AgreeChangesState(a: Model, b: Model, lost: Keys, na: nat, nb: nat, smi: nat, st: string,
                                             cpu: nat, flags: nat, tick: nat)
    requires Agree(a, b, lost, na, nb)
    ensures Agree(ChangesState(a, smi, st, cpu, flags, tick), ChangesState(b, smi, st, cpu, flags, tick), lost, na, nb)
  {
    SameLast(a, b, lost, na, nb);
    var kind := NameOf(a.smMap, smi);
    AgreeState(a, b, lost, na, nb, kind, st);
    var a1, b1 := WithState(a, kind, st), WithState(b, kind, st);
    var sti := StateNumber(a1, kind, st);
    SameLast(a1, b1, lost, na, nb);
    hide Agree, WithState, StateNumber, EntryOf, NameOf;
    if At(a1.last, smi) != sti {
      var last := a1.last[smi := sti];
      AgreeLast(a1, b1, lost, na, nb, last);
      AgreeLogs(a1.(last := last), b1.(last := last), lost, na, nb, EntryOf(tick, 0, smi, sti, OP_BEGIN, flags, cpu));
    }
  }

  lemma {:induction false} AgreeBeginsState(a: Model, b: Model, lost: Keys, na: nat, nb: nat, s: System, frame: nat,
                                            cpu: nat, tick: nat,
                                            st: string, explicit: bool, flags: nat)
    requires Agree(a, b, lost, na, nb)
    ensures BeginsState(a, s, frame, cpu, tick, st, explicit, flags).how ==
      BeginsState(b, s, frame, cpu, tick, st, explicit, flags).how
    ensures Agree(BeginsState(a, s, frame, cpu, tick, st, explicit, flags).m,
                  BeginsState(b, s, frame, cpu, tick, st, explicit, flags).m, lost, na, nb)
  {
    hide Agree, WithSystem, Find, StackOf, ChangesState, Skipped;
    var a1, b1, sid := AgreeFrame(a, b, lost, na, nb, s, frame);
    var stack := StackOf(a1.stacks, sid);
    if stack != [] {
      AgreeMode(a1, b1, lost, na, nb, a1.expl[sid := true]);
      var a2 := if explicit then a1.(expl := a1.expl[sid := true]) else a1;
      var b2 := if explicit then b1.(expl := b1.expl[sid := true]) else b1;
      AgreeChangesState(a2, b2, lost, na, nb, LastOf(stack), st, cpu, flags, tick);
    }
  }

  lemma {:induction false} AgreeEndsState(a: Model, b: Model, lost: Keys, na: nat, nb: nat, s: System, frame: nat,
                                          cpu: nat, tick: nat, st: string)
    requires Agree(a, b, lost, na, nb)
    ensures EndsState(a, s, frame, cpu, tick, st).how == EndsState(b, s, frame, cpu, tick, st).how
    ensures Agree(EndsState(a, s, frame, cpu, tick, st).m, EndsState(b, s, frame, cpu, tick, st).m, lost, na, nb)
  {
    hide Agree, WithSystem, Find, StackOf, EntersState;
    var a1, b1, sid := AgreeFrame(a, b, lost, na, nb, s, frame);
    var stack, expl := StackOf(a1.stacks, sid), a1.expl[sid := false];
    if stack != [] {
      AgreeMode(a1, b1, lost, na, nb, expl);
      var smi := LastOf(stack);
      AgreeEntersState(a1.(expl := expl), b1.(expl := expl), lost, na, nb, smi, NameOf(a1.smMap, smi), st, cpu, tick);
    }
  }

  lemma {:induction false} AgreeLinksTo(a: Model, b: Model, lost: Keys, na: nat, nb: nat, s: System, frame: nat,
                                        cpu: nat, tick: nat, lsm: string, id: nat)
    requires Agree(a, b, lost, na, nb)
    ensures LinksTo(a, s, frame, cpu, tick, lsm, id).how == LinksTo(b, s, frame, cpu, tick, lsm, id).how
    ensures !LinksTo(a, s, frame, cpu, tick, lsm, id).how.Stopped? ==>
      Agree(LinksTo(a, s, frame, cpu, tick, lsm, id).m, LinksTo(b, s, frame, cpu, tick, lsm, id).m, lost, na, nb)
  {
    hide Agree, WithSystem, WithMachine, MachinesFull, Find, StackOf, LinksBack;
    var a1, b1, sid := AgreeFrame(a, b, lost, na, nb, s, frame);
    var stack, key := StackOf(a1.stacks, sid), (sid.0, (lsm, id));
    if stack != [] {
      AgreeMachine(a1, b1, lost, na, nb, key);
      if !MachinesFull(a1, key) {
        var a2, b2 := WithMachine(a1, key), WithMachine(b1, key);
        SameLast(a2, b2, lost, na, nb);
        AgreeLinksBack(a2, b2, lost, na, nb, LastOf(stack), Find(a2.smMap, key), cpu, tick);
      }
    }
  }

  lemma {:induction false} AgreeLinksSyscall(a: Model, b: Model, lost: Keys, na: nat, nb: nat, s: System, frame: nat,
                                             cpu: nat, tick: nat, lsm: string)
    requires Agree(a, b, lost, na, nb)
    requires (Find(WithSystem(b, s).systems, s), (lsm, frame)) in lost ==>
      !LinksSyscall(b, s, frame, cpu, tick, lsm).how.Done?
    ensures LinksSyscall(a, s, frame, cpu, tick, lsm).how == LinksSyscall(b, s, frame, cpu, tick, lsm).how
    ensures Agree(LinksSyscall(a, s, frame, cpu, tick, lsm).m, LinksSyscall(b, s, frame, cpu, tick, lsm).m,
                  lost, na, nb)
  {
    var a1, b1, sid := AgreeFrame(a, b, lost, na, nb, s, frame);
    var stack, key := StackOf(a1.stacks, sid), (sid.0, (lsm, frame));
    SameKeys(a1, b1, lost, na, nb, key);
    if stack != [] && key !in a1.awaited {
      var e := EntryOf(tick, 0, LastOf(stack), UNKNOWN, OP_LINK, FL_NONE, cpu);
      assert e.op == OP_LINK && e.sm == LastOf(stack);
      hide Agree, WithSystem, Find, StackOf, EntryOf, Holds;
      AgreeHolds(a1, b1, lost, na, nb, key, e);
    }
  }

  lemma {:induction false} SameKeys(a: Model, b: Model, lost: Keys, na: nat, nb: nat, key: (nat, Id))
    requires Agree(a, b, lost, na, nb)
    ensures key in lost ==> key in a.awaited && key !in b.awaited
    ensures key !in lost ==> (key in a.awaited <==> key in b.awaited)
  {
    hide SameLog, SameFields, SameQueues, ModelOk;
  }

  // ----- Queue calls -----

  lemma {:induction false} AgreeBytes(a: Model, b: Model, lost: Keys, na: nat, nb: nat, qi: nat)
    requires Agree(a, b, lost, na, nb)
    ensures SameTags(a.log, BytesOf(a.queues, qi), b.log, BytesOf(b.queues, qi))
    ensures |BytesOf(a.queues, qi)| == |BytesOf(b.queues, qi)|
  {
    hide SameFields, SameLog, SameAwaited, ModelOk;
  }

  lemma {:induction false} AgreeEnqueued(a: Model, b: Model, lost: Keys, na: nat, nb: nat, flags: nat, cpu: nat,
                                         smi: nat, qi: nat, count: nat, tick: nat)
    requires Agree(a, b, lost, na, nb)
    ensures Enqueued(a, flags, cpu, smi, qi, count, tick).how == Enqueued(b, flags, cpu, smi, qi, count, tick).how
    ensures Enqueued(a, flags, cpu, smi, qi, count, tick).how.Done? ==>
      Agree(Enqueued(a, flags, cpu, smi, qi, count, tick).m, Enqueued(b, flags, cpu, smi, qi, count, tick).m,
            lost, na, nb)
  {
    AgreeBytes(a, b, lost, na, nb, qi);
    var e := EntryOf(tick, count, smi, qi, OP_QUEUE, flags, cpu);
    var s, t := BytesOf(a.queues, qi), BytesOf(b.queues, qi);
    NewBytes(a.log, s, b.log, t, e, count);
    assert e.op == OP_QUEUE;
    hide Agree, ModelOk, SameTags, Puts, Logs, Flag, BytesOf, EntryOf;
    BothOk(a, b, lost, na, nb);
    var front := Flag(flags, FL_QOPP);
    var s' := if front then Tagged(|a.log|, count) + s else s + Tagged(|a.log|, count);
    var t' := if front then Tagged(|b.log|, count) + t else t + Tagged(|b.log|, count);
    PutsOk(a, e, qi, s');
    PutsOk(b, e, qi, t');
    AgreePuts(a, b, lost, na, nb, e, qi, s', t');
  }

  lemma {:induction false} BothOk(a: Model, b: Model, lost: Keys, na: nat, nb: nat)
    requires Agree(a, b, lost, na, nb)
    ensures ModelOk(a) && ModelOk(b)
  {
    hide ModelOk;
  }

  /** Keeping the same part of a queue on both sides. */
  lemma {:induction false} AgreeCut(a: Model, b: Model, lost: Keys, na: nat, nb: nat, e: Entry, qi: nat, lo: nat,
                                    hi: nat)
    requires Agree(a, b, lost, na, nb) && lo <= hi <= |BytesOf(a.queues, qi)|
    ensures |BytesOf(b.queues, qi)| == |BytesOf(a.queues, qi)|
    ensures Agree(Puts(Logs(a, e), qi, BytesOf(a.queues, qi)[lo..hi]),
                  Puts(Logs(b, e), qi, BytesOf(b.queues, qi)[lo..hi]), lost, na, nb)
  {
    AgreeBytes(a, b, lost, na, nb, qi);
    var s, t := BytesOf(a.queues, qi), BytesOf(b.queues, qi);
    CutBytes(a.log, s, b.log, t, e, hi);
    assert SameTags(a.log + [e], s[lo..hi], b.log + [e], t[lo..hi]);
    hide Agree, ModelOk, SameTags, Puts, Logs, BytesOf;
    BothOk(a, b, lost, na, nb);
    PutsOk(a, e, qi, s[lo..hi]);
    PutsOk(b, e, qi, t[lo..hi]);
    AgreePuts(a, b, lost, na, nb, e, qi, s[lo..hi], t[lo..hi]);
  }

  lemma {:induction false} AgreeDequeued(a: Model, b: Model, lost: Keys, na: nat, nb: nat, flags: nat, cpu: nat,
                                         smi: nat, qi: nat, count: int, tick: nat)
    requires Agree(a, b, lost, na, nb)
    ensures Dequeued(a, flags, cpu, smi, qi, count, tick).how == Dequeued(b, flags, cpu, smi, qi, count, tick).how
    ensures Dequeued(a, flags, cpu, smi, qi, count, tick).how.Done? ==>
      Agree(Dequeued(a, flags, cpu, smi, qi, count, tick).m, Dequeued(b, flags, cpu, smi, qi, count, tick).m,
            lost, na, nb)
  {
    AgreeBytes(a, b, lost, na, nb, qi);
    var e := EntryOf(tick, count, smi, qi, OP_DEQUEUE, flags, cpu);
    var s, t := BytesOf(a.queues, qi), BytesOf(b.queues, qi);
    hide Agree, SameTags, Puts, Logs, BytesOf, EntryOf;
    var k := if count == -1 then |s| else count;
    if 0 <= k <= |s| {
      AgreeCut(a, b, lost, na, nb, e, qi, k, |s|);
      assert s[k..|s|] == s[k..] && t[k..|s|] == t[k..] && s[|s|..] == [] && t[|t|..] == [];
    }
  }

  lemma {:induction false} AgreeEmptied(a: Model, b: Model, lost: Keys, na: nat, nb: nat, flags: nat, cpu: nat,
                                        smi: nat, qi: nat, tick: nat)
    requires Agree(a, b, lost, na, nb)
    ensures Agree(Emptied(a, flags, cpu, smi, qi, tick), Emptied(b, flags, cpu, smi, qi, tick), lost, na, nb)
  {
    hide Agree, Puts, Logs, BytesOf, EntryOf, Flag;
    AgreeCut(a, b, lost, na, nb, EntryOf(tick, 0, smi, qi, OP_SIZE_QUEUE, FL_NONE, cpu), qi, 0, 0);
  }

  lemma {:induction false} AgreeFitted(a: Model, b: Model, lost: Keys, na: nat, nb: nat, cpu: nat, smi: nat, qi: nat,
                                       size: int, tick: nat)
    requires Agree(a, b, lost, na, nb) && size <= INT32_MAX
    ensures Agree(Fitted(a, cpu, smi, qi, size, tick), Fitted(b, cpu, smi, qi, size, tick), lost, na, nb)
  {
    hide Agree, SameTags, Puts, Logs, BytesOf, EntryOf, Enqueued;
    AgreeBytes(a, b, lost, na, nb, qi);
    var s := BytesOf(a.queues, qi);
    if |s| < size {
      AgreeEnqueued(a, b, lost, na, nb, FL_NONE, cpu, smi, qi, size - |s|, tick);
      FittedGrows(a, cpu, smi, qi, size, tick);
      FittedGrows(b, cpu, smi, qi, size, tick);
    } else if |s| > size {
      AgreeCut(a, b, lost, na, nb, EntryOf(tick, size, smi, qi, OP_SIZE_QUEUE, FL_NONE, cpu), qi, 0,
               if size <= 0 then 0 else size);
    }
  }

  lemma {:induction false} FittedGrows(m: Model, cpu: nat, smi: nat, qi: nat, size: int, tick: nat)
    requires |BytesOf(m.queues, qi)| < size <= INT32_MAX
    ensures Enqueued(m, FL_NONE, cpu, smi, qi, size - |BytesOf(m.queues, qi)|, tick) ==
      Effect(Done, Fitted(m, cpu, smi, qi, size, tick))
  {
    hide EntryOf, Puts, Logs;
    assert !Flag(FL_NONE, FL_QOPP);
  }

  lemma {:induction false} AgreeOnQueue(a: Model, b: Model, lost: Keys, na: nat, nb: nat, op: QueueOp, flags: nat,
                                        cpu: nat, smi: nat, qi: nat, tick: nat)
    requires Agree(a, b, lost, na, nb)
    ensures OnQueue(a, op, flags, cpu, smi, qi, tick).how == OnQueue(b, op, flags, cpu, smi, qi, tick).how
    ensures !OnQueue(a, op, flags, cpu, smi, qi, tick).how.Stopped? ==>
      Agree(OnQueue(a, op, flags, cpu, smi, qi, tick).m, OnQueue(b, op, flags, cpu, smi, qi, tick).m, lost, na, nb)
  {
    hide Agree, Enqueued, Dequeued, Emptied, Fitted;
    match op {
      case Enqueue(count) =>
        AgreeEnqueued(a, b, lost, na, nb, flags, cpu, smi, qi, count, tick);
        EnqueuedHow(a, flags, cpu, smi, qi, count, tick);
      case Dequeue(removed) =>
        AgreeDequeued(a, b, lost, na, nb, flags, cpu, smi, qi, removed, tick);
        DequeuedHow(a, flags, cpu, smi, qi, removed, tick);
      case Resize(size, reset) =>
        if size <= INT32_MAX {
          AgreeEmptied(a, b, lost, na, nb, reset, cpu, smi, qi, tick);
          AgreeFitted(Emptied(a, reset, cpu, smi, qi, tick), Emptied(b, reset, cpu, smi, qi, tick), lost, na, nb,
                      cpu, smi, qi, size, tick);
        }
    }
  }

  lemma {:induction false} EnqueuedHow(m: Model, flags: nat, cpu: nat, smi: nat, qi: nat, count: nat, tick: nat)
    ensures Enqueued(m, flags, cpu, smi, qi, count, tick).how in {Stopped, Done}
  {
  }

  lemma {:induction false} DequeuedHow(m: Model, flags: nat, cpu: nat, smi: nat, qi: nat, count: int, tick: nat)
    ensures Dequeued(m, flags, cpu, smi, qi, count, tick).how in {Stopped, Done}
  {
  }

  lemma {:induction false} AgreeSwQueues(a: Model, b: Model, lost: Keys, na: nat, nb: nat, s: System, frame: nat,
                                         cpu: nat, tick: nat,
                                         q: string, id: nat, op: QueueOp)
    requires Agree(a, b, lost, na, nb)
    ensures SwQueues(a, s, frame, cpu, tick, q, id, op).how == SwQueues(b, s, frame, cpu, tick, q, id, op).how
    ensures !SwQueues(a, s, frame, cpu, tick, q, id, op).how.Stopped? ==>
      Agree(SwQueues(a, s, frame, cpu, tick, q, id, op).m, SwQueues(b, s, frame, cpu, tick, q, id, op).m, lost, na, nb)
  {
    hide Agree, WithSystem, WithQueue, QueuesFull, Find, StackOf, OnQueue, Automatic;
    var a1, b1, sid := AgreeFrame(a, b, lost, na, nb, s, frame);
    var stack, key := StackOf(a1.stacks, sid), (sid.0, (q, id));
    if stack != [] {
      var expl := Automatic(a1.expl, sid);
      AgreeMode(a1, b1, lost, na, nb, expl);
      var a2 := if op.Resize? then a1 else a1.(expl := expl);
      var b2 := if op.Resize? then b1 else b1.(expl := expl);
      AgreeQueue(a2, b2, lost, na, nb, key);
      var a3, b3 := WithQueue(a2, key), WithQueue(b2, key);
      SameLast(a3, b3, lost, na, nb);
      AgreeOnQueue(a3, b3, lost, na, nb, op, FL_NONE, cpu, LastOf(stack), Find(a3.qMap, key), tick);
    }
  }

  lemma {:induction false} AgreeHwQueues(a: Model, b: Model, lost: Keys, na: nat, nb: nat, s: System, frame: nat,
                                         tick: nat,
                                         sm: string, q: string, id: nat, owner: System, op: QueueOp, flags: nat)
    requires Agree(a, b, lost, na, nb)
    ensures HwQueues(a, s, frame, tick, sm, q, id, owner, op, flags).how ==
      HwQueues(b, s, frame, tick, sm, q, id, owner, op, flags).how
    ensures !HwQueues(a, s, frame, tick, sm, q, id, owner, op, flags).how.Stopped? ==>
      Agree(HwQueues(a, s, frame, tick, sm, q, id, owner, op, flags).m,
            HwQueues(b, s, frame, tick, sm, q, id, owner, op, flags).m, lost, na, nb)
  {
    AgreeSystem(a, b, lost, na, nb, s);
    hide Agree, WithSystem, WithMachine, WithQueue, QueuesFull, MachinesFull, Find, OnQueue;
    AgreeSystem(WithSystem(a, s), WithSystem(b, s), lost, na, nb, owner);
    var a1, b1 := WithSystem(WithSystem(a, s), owner), WithSystem(WithSystem(b, s), owner);
    SameLast(a1, b1, lost, na, nb);
    var key, mine := (Find(a1.systems, owner), (q, id)), (Find(a1.systems, s), (sm, frame));
    AgreeQueue(a1, b1, lost, na, nb, key);
    var a2, b2 := WithQueue(a1, key), WithQueue(b1, key);
    AgreeMachine(a2, b2, lost, na, nb, mine);
    if !MachinesFull(a2, mine) {
      var a3, b3 := WithMachine(a2, mine), WithMachine(b2, mine);
      SameLast(a3, b3, lost, na, nb);
      AgreeOnQueue(a3, b3, lost, na, nb, op, Hardware(flags), 0, Find(a3.smMap, mine), Find(a3.qMap, key), tick);
    }
  }
}
