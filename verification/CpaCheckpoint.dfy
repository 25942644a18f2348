/** Saving the annotation engine in a checkpoint and restoring it. */
module CpaCheckpoint {
  import opened Sequences
  import opened CpaRecords
  import opened CpaTables
  import opened CpaQueues
  import opened Cpa

  /** A family of numbered parameters, one per entry of a container. */
  type Family<T> = map<nat, T>

  // ----- One container -----

  /** The family lists the entries of `m` in the order of `ks`. */
  ghost predicate Lists<K(!new), V>(out: Family<(K, V)>, m: map<K, V>, ks: seq<K>) {
    && |ks| == |m| && Distinct(ks) && (forall k :: k in m ==> k in ks)
    && (forall x :: 0 <= x < |ks| ==> x in out && ks[x] in m && out[x] == (ks[x], m[ks[x]]))
  }

  /** The first `|m|` members of the family list the entries of `m`, in some order. */
  ghost predicate Saves<K(!new), V>(out: Family<(K, V)>, m: map<K, V>) {
    exists ks :: Lists(out, m, ks)
  }

  /** Walk a container in its own order and number its entries. */
  method SaveMap<K(==, !new), V(==)>(m: map<K, V>) returns (out: Family<(K, V)>)
    ensures Saves(out, m)
  {
    out := map[];
    var left := m.Keys;
    ghost var ks: seq<K> := [];
    var x: nat := 0;
    while left != {}
      invariant left <= m.Keys && x == |ks| && |ks| + |left| == |m| && Distinct(ks)
      invariant forall k :: k in ks ==> k !in left
      invariant forall k :: k in m ==> k in left || k in ks
      invariant forall y :: 0 <= y < x ==> y in out && ks[y] in m && out[y] == (ks[y], m[ks[y]])
      decreases |left|
    {
      var k :| k in left;
      out := out[x := (k, m[k])];
      left := left - {k};
      ks := ks + [k];
      x := x + 1;
    }
    assert Lists(out, m, ks);
  }

  /** Read back as many entries as the counter says. */
  method LoadMap<K(==, !new), V>(out: Family<(K, V)>, n: nat, ghost m: map<K, V>) returns (r: map<K, V>)
    requires Saves(out, m) && n == |m|
    ensures r == m
  {
    ghost var ks :| Lists(out, m, ks);
    r := map[];
    var x: nat := 0;
    while x < n
      invariant x <= n && Part(m, ks, x, r)
    {
      PartStep(m, ks, x, r);
      hide Part, Distinct;
      r := r[out[x].0 := out[x].1];
      x := x + 1;
    }
  }

  /** `r` is the part of `m` on the first `x` keys. */
  ghost predicate Part<K(!new), V>(m: map<K, V>, ks: seq<K>, x: nat, r: map<K, V>) {
    && x <= |ks| && (forall k :: k in r ==> k in m && r[k] == m[k])
    && (forall y :: 0 <= y < x ==> ks[y] in r)
  }

  lemma {:induction false} PartStep<K(!new), V>(m: map<K, V>, ks: seq<K>, x: nat, r: map<K, V>)
    requires Part(m, ks, x, r) && x < |ks| && ks[x] in m
    ensures Part(m, ks, x + 1, r[ks[x] := m[ks[x]]])
  {
  }

  // ----- A vector of containers -----

  ghost predicate SavesRows<K(!new), V>(out: Family<Family<(K, V)>>, rows: seq<map<K, V>>) {
    forall x :: 0 <= x < |rows| ==> x in out && Saves(out[x], rows[x])
  }

  method SaveRows<K(==, !new), V(==)>(rows: seq<map<K, V>>) returns (out: Family<Family<(K, V)>>)
    ensures SavesRows(out, rows)
  {
    hide Saves;
    out := map[];
    var x: nat := 0;
    while x < |rows|
      invariant x <= |rows|
      invariant forall y :: 0 <= y < x ==> y in out && Saves(out[y], rows[y])
    {
      var row := SaveMap(rows[x]);
      out := out[x := row];
      x := x + 1;
    }
  }

  method LoadRows<K(==, !new), V>(out: Family<Family<(K, V)>>, n: nat, sizes: seq<nat>, ghost rows: seq<map<K, V>>)
    returns (r: seq<map<K, V>>)
    requires SavesRows(out, rows) && n == |rows| == |sizes|
    requires forall x :: 0 <= x < n ==> sizes[x] == |rows[x]|
    ensures r == rows
  {
    hide Saves;
    r := [];
    var x: nat := 0;
    while x < n
      invariant x <= n && r == rows[..x]
    {
      var row := LoadMap(out[x], sizes[x], rows[x]);
      r := r + [row];
      x := x + 1;
    }
  }

  // ----- A table indexed by number -----

  ghost predicate SavesSeq<T>(out: Family<T>, s: seq<T>) {
    forall x :: 0 <= x < |s| ==> x in out && out[x] == s[x]
  }

  method SaveSeq<T>(s: seq<T>) returns (out: Family<T>)
    ensures SavesSeq(out, s)
  {
    out := map[];
    var x: nat := 0;
    while x < |s|
      invariant x <= |s|
      invariant forall y :: 0 <= y < x ==> y in out && out[y] == s[y]
    {
      out := out[x := s[x]];
      x := x + 1;
    }
  }

  method LoadSeq<T>(out: Family<T>, n: nat, ghost s: seq<T>) returns (r: seq<T>)
    requires SavesSeq(out, s) && n == |s|
    ensures r == s
  {
    r := [];
    var x: nat := 0;
    while x < n
      invariant x <= n && r == s[..x]
    {
      r := r + [out[x]];
      x := x + 1;
    }
  }

  // ----- Stacks -----

  /** A restored engine has no entries for empty stacks. */
  ghost function NonEmpty(stacks: map<StackId, seq<nat>>): map<StackId, seq<nat>> {
    map sid | sid in stacks && stacks[sid] != [] :: stacks[sid]
  }

  /** Both read the same on every frame. */
  lemma {:induction false} NonEmptyReadsSame(stacks: map<StackId, seq<nat>>, sid: StackId)
    ensures StackOf(NonEmpty(stacks), sid) == StackOf(stacks, sid)
  {
  }

  method LoadStacks(out: Family<(StackId, seq<nat>)>, n: nat, ghost m: map<StackId, seq<nat>>)
    returns (r: map<StackId, seq<nat>>)
    requires Saves(out, m) && n == |m|
    ensures r == NonEmpty(m)
  {
    ghost var ks :| Lists(out, m, ks);
    r := map[];
    var x: nat := 0;
    while x < n
      invariant x <= n && Loaded(m, ks, x, r)
    {
      StackStep(m, ks, x, r);
      hide Loaded, Distinct, NonEmpty;
      r := LoadStack(r, out[x].0, out[x].1);
      x := x + 1;
    }
    AllLoaded(m, ks, r);
  }

  /** After `x` entries: the non-empty stacks among them. */
  ghost predicate Loaded(m: map<StackId, seq<nat>>, ks: seq<StackId>, x: nat, r: map<StackId, seq<nat>>) {
    && x <= |ks| && (forall k :: k in r ==> k in m && r[k] == m[k] && m[k] != [] && k in ks[..x])
    && (forall y :: 0 <= y < x && ks[y] in m && m[ks[y]] != [] ==> ks[y] in r)
  }

  lemma {:induction false} StackStep(m: map<StackId, seq<nat>>, ks: seq<StackId>, x: nat, r: map<StackId, seq<nat>>)
    requires Loaded(m, ks, x, r) && x < |ks| && ks[x] in m && Distinct(ks)
    ensures ks[x] !in r
    ensures Loaded(m, ks, x + 1, if m[ks[x]] == [] then r else r[ks[x] := m[ks[x]]])
  {
    assert ks[x] !in ks[..x];
    assert ks[..x + 1] == ks[..x] + [ks[x]];
  }

  lemma {:induction false} AllLoaded(m: map<StackId, seq<nat>>, ks: seq<StackId>, r: map<StackId, seq<nat>>)
    requires Loaded(m, ks, |ks|, r) && forall k :: k in m ==> k in ks
    ensures r == NonEmpty(m)
  {
  }

  /** Push the saved entries one by one, creating the stack with the first. */
  method LoadStack(r: map<StackId, seq<nat>>, sid: StackId, entries: seq<nat>) returns (r': map<StackId, seq<nat>>)
    requires sid !in r
    ensures r' == if entries == [] then r else r[sid := entries]
  {
    r' := r;
    var y: nat := 0;
    while y < |entries|
      invariant y <= |entries|
      invariant r' == if y == 0 then r else r[sid := entries[..y]]
    {
      assert entries[..y + 1] == entries[..y] + [entries[y]];
      r' := r'[sid := StackOf(r', sid) + [entries[y]]];
      y := y + 1;
    }
    assert entries[..|entries|] == entries;
  }

  // ----- Queues -----

  /** What a queue's record saves: the residual count, not the original one. */
  function View(r: AnnotateData): Entry
    reads r
  {
    Entry(r.time, r.data, r.sm, r.stq, r.op, r.flag, r.cpu)
  }

  ghost predicate ReadsAs(q: seq<AnnotateData>, es: seq<Entry>)
    reads q
  {
    |q| == |es| && forall i :: 0 <= i < |q| ==> View(q[i]) == es[i]
  }

  method SaveQueue(q: seq<AnnotateData>) returns (out: Family<Entry>, ghost es: seq<Entry>)
    ensures ReadsAs(q, es) && SavesSeq(out, es)
  {
    out, es := map[], [];
    var y: nat := 0;
    while y < |q|
      invariant y == |es| <= |q| && SavesSeq(out, es)
      invariant forall i :: 0 <= i < y ==> View(q[i]) == es[i]
    {
      out := out[y := View(q[y])];
      es := es + [View(q[y])];
      y := y + 1;
    }
  }

  ghost predicate AllReadAs(qs: seq<seq<AnnotateData>>, queues: seq<seq<Entry>>)
    reads set x, i | 0 <= x < |qs| && 0 <= i < |qs[x]| :: qs[x][i]
  {
    |qs| == |queues| && forall x :: 0 <= x < |qs| ==> ReadsAs(qs[x], queues[x])
  }

  ghost predicate SavesQueues(out: Family<Family<Entry>>, queues: seq<seq<Entry>>) {
    forall x :: 0 <= x < |queues| && queues[x] != [] ==> x in out && SavesSeq(out[x], queues[x])
  }

  method SaveQueues(qs: seq<seq<AnnotateData>>) returns (out: Family<Family<Entry>>, ghost queues: seq<seq<Entry>>)
    ensures AllReadAs(qs, queues) && SavesQueues(out, queues)
  {
    hide SavesSeq;
    out, queues := map[], [];
    var x: nat := 0;
    while x < |qs|
      invariant x == |queues| <= |qs| && SavesQueues(out, queues)
      invariant forall y :: 0 <= y < x ==> ReadsAs(qs[y], queues[y])
    {
      if qs[x] == [] {
        queues := queues + [[]];
      } else {
        ghost var es;
        var one;
        one, es := SaveQueue(qs[x]);
        out := out[x := one];
        queues := queues + [es];
      }
      x := x + 1;
    }
  }

  /** Records restored from a checkpoint count as new: their original count is the residual one. */
  method LoadQueue(out: Family<Entry>, n: nat, ghost es: seq<Entry>) returns (q: seq<AnnotateData>)
    requires SavesSeq(out, es) && n == |es|
    ensures ReadsAs(q, es) && Distinct(q)
    ensures forall i :: 0 <= i < |q| ==> fresh(q[i]) && q[i].dump && q[i].AsEntry() == es[i]
  {
    q := [];
    var y: nat := 0;
    while y < n
      invariant y == |q| <= n && Distinct(q)
      invariant forall i :: 0 <= i < y ==>
        fresh(q[i]) && q[i].dump && q[i].AsEntry() == es[i] && q[i].data == es[i].data
    {
      var r := new AnnotateData(out[y]);
      NoDupAdd(q, r);
      hide Distinct;
      q := q + [r];
      y := y + 1;
    }
  }

  /** All queues at once; every restored record is also put on the pending log again. */
  method LoadQueues(out: Family<Family<Entry>>, sizes: seq<int>, ghost queues: seq<seq<Entry>>)
    returns (qs: seq<seq<AnnotateData>>, data: seq<AnnotateData>)
    requires SavesQueues(out, queues) && |sizes| == |queues|
    requires forall x :: 0 <= x < |queues| ==> sizes[x] == |queues[x]|
    ensures AllReadAs(qs, queues) && Distinct(data)
    ensures forall x :: 0 <= x < |qs| ==> Distinct(qs[x]) && From(qs[x], data)
    ensures forall i :: 0 <= i < |data| ==> fresh(data[i]) && Loadable(data[i], queues)
  {
    qs, data := [], [];
    var x: nat := 0;
    while x < |sizes|
      invariant x == |qs| <= |sizes| && Distinct(data)
      invariant forall y :: 0 <= y < x ==> ReadsAs(qs[y], queues[y]) && Distinct(qs[y]) && From(qs[y], data)
      invariant forall i :: 0 <= i < |data| ==> Loadable(data[i], queues) && fresh(data[i])
    {
      var q: seq<AnnotateData> := [];
      if sizes[x] != 0 {
        q := LoadQueue(out[x], sizes[x], queues[x]);
      }
      NoDupJoin(data, q);
      qs := qs + [q];
      data := data + q;
      x := x + 1;
    }
  }

  ghost predicate Loadable(r: AnnotateData, queues: seq<seq<Entry>>)
    reads r
  {
    r.dump && exists x :: 0 <= x < |queues| && r.AsEntry() in queues[x]
  }

  lemma {:induction false} NoDupJoin(a: seq<AnnotateData>, b: seq<AnnotateData>)
    requires Distinct(a) && Distinct(b) && forall i :: 0 <= i < |b| ==> b[i] !in a
    ensures Distinct(a + b)
  {
  }
}
