/** Byte queues: a list of records, each standing for `data` bytes, seen as a stream of tagged bytes. */
module CpaQueues {
  import opened Sequences
  import opened CpaRecords

  ghost function Repeat(r: AnnotateData, n: nat): seq<AnnotateData> {
    seq(n, _ => r)
  }

  /** Every byte tagged with the record that put it there, first byte out first. */
  ghost function Stream(q: seq<AnnotateData>): seq<AnnotateData>
    reads q`data
  {
    if q == [] then [] else Repeat(q[0], q[0].data) + Stream(q[1..])
  }

  lemma {:induction false} StreamConcat(a: seq<AnnotateData>, b: seq<AnnotateData>)
    ensures Stream(a + b) == Stream(a) + Stream(b)
  {
    if a == [] {
      assert a + b == b;
    } else {
      assert (a + b)[1..] == a[1..] + b;
      StreamConcat(a[1..], b);
    }
  }

  lemma {:induction false} StreamOne(r: AnnotateData)
    ensures Stream([r]) == Repeat(r, r.data)
  {
    assert [r][1..] == [];
  }

  lemma {:induction false} StreamIn(q: seq<AnnotateData>)
    ensures forall i :: 0 <= i < |Stream(q)| ==> Stream(q)[i] in q
  {
    if q != [] {
      StreamIn(q[1..]);
    }
  }

  /** Appending a record appends its bytes; prepending one prepends them. */
  lemma {:induction false} StreamAdd(q: seq<AnnotateData>, r: AnnotateData)
    ensures Stream(q + [r]) == Stream(q) + Repeat(r, r.data)
    ensures Stream([r] + q) == Repeat(r, r.data) + Stream(q)
  {
    StreamConcat(q, [r]);
    StreamConcat([r], q);
    StreamOne(r);
  }

  /** The last record's bytes are the last bytes. */
  lemma {:induction false} StreamLast(q: seq<AnnotateData>)
    requires q != []
    ensures var r := q[|q| - 1]; Stream(q) == Stream(q[..|q| - 1]) + Repeat(r, r.data)
  {
    assert q == q[..|q| - 1] + [q[|q| - 1]];
    StreamAdd(q[..|q| - 1], q[|q| - 1]);
  }

  lemma {:induction false} StreamLength(q: seq<AnnotateData>)
    requires q != []
    ensures |Stream(q)| >= q[0].data && |Stream(q)| >= q[|q| - 1].data
  {
    StreamLast(q);
  }

  /** `t` is `s` without its first `k` bytes. */
  ghost predicate Dropped(s: seq<AnnotateData>, k: nat, t: seq<AnnotateData>) {
    k <= |s| && t == s[k..]
  }

  /** `t` is the first `k` bytes of `s`. */
  ghost predicate Taken(s: seq<AnnotateData>, k: nat, t: seq<AnnotateData>) {
    k <= |s| && t == s[..k]
  }

  lemma {:induction false} DropDrop(s: seq<AnnotateData>, i: nat, t: seq<AnnotateData>, j: nat, u: seq<AnnotateData>)
    requires Dropped(s, i, t) && Dropped(t, j, u)
    ensures Dropped(s, i + j, u)
  {
  }

  lemma {:induction false} TakeTake(s: seq<AnnotateData>, i: nat, t: seq<AnnotateData>, j: nat, u: seq<AnnotateData>)
    requires Taken(s, i, t) && Taken(t, j, u)
    ensures Taken(s, j, u)
  {
  }

  lemma {:induction false} RepeatDrop(r: AnnotateData, n: nat, k: nat, rest: seq<AnnotateData>)
    requires k <= n
    ensures (Repeat(r, n) + rest)[k..] == Repeat(r, n - k) + rest
  {
  }

  lemma {:induction false} RepeatTake(front: seq<AnnotateData>, r: AnnotateData, n: nat, k: nat)
    requires k <= n
    ensures (front + Repeat(r, n))[..|front| + n - k] == front + Repeat(r, n - k)
  {
  }

  const INT32_MAX := 0x7FFF_FFFF

  /** What a queue's fields say about its list of records, queue numbers counting from one. */
  ghost predicate QueueOk(q: seq<AnnotateData>, size: int, bytes: int, qi: nat)
    reads q`data, q`stq
  {
    && size == |q| && bytes == |Stream(q)| <= INT32_MAX && Distinct(q)
    && forall r :: r in q ==> r.op == OP_QUEUE && r.stq == qi
  }

  lemma {:induction false} NotEmpty(q: seq<AnnotateData>, size: int, bytes: int, qi: nat)
    requires QueueOk(q, size, bytes, qi) && bytes > 0
    ensures size == |q| > 0 && q[0].data <= bytes && q[|q| - 1].data <= bytes
  {
    StreamLength(q);
  }

  lemma {:induction false} PopFront(q: seq<AnnotateData>, size: int, bytes: int, qi: nat)
    requires QueueOk(q, size, bytes, qi) && q != []
    ensures QueueOk(q[1..], size - 1, bytes - q[0].data, qi)
    ensures q[0].data <= bytes == |Stream(q)| && Stream(q[1..]) == Stream(q)[q[0].data..]
  {
    RepeatDrop(q[0], q[0].data, q[0].data, Stream(q[1..]));
  }

  lemma {:induction false} PopBack(q: seq<AnnotateData>, size: int, bytes: int, qi: nat)
    requires QueueOk(q, size, bytes, qi) && q != []
    ensures var n := |q| - 1; QueueOk(q[..n], size - 1, bytes - q[n].data, qi)
    ensures var n := |q| - 1; q[n].data <= bytes == |Stream(q)| && Stream(q[..n]) == Stream(q)[..bytes - q[n].data]
  {
    StreamLast(q);
    var n := |q| - 1;
    RepeatTake(Stream(q[..n]), q[n], q[n].data, q[n].data);
  }

  method ShrinkFront(q: seq<AnnotateData>, ghost size: int, ghost bytes: int, need: nat, ghost qi: nat)
    requires QueueOk(q, size, bytes, qi) && q != [] && 0 < need < q[0].data
    modifies {q[0]}`data
    ensures need <= |old(Stream(q))| && Stream(q) == old(Stream(q))[need..] && QueueOk(q, size, bytes - need, qi)
  {
    RepeatDrop(q[0], q[0].data, need, Stream(q[1..]));
    q[0].data := q[0].data - need;
    assert Stream(q[1..]) == old(Stream(q[1..]));
  }

  method ShrinkBack(q: seq<AnnotateData>, ghost size: int, ghost bytes: int, need: nat, ghost qi: nat)
    requires QueueOk(q, size, bytes, qi) && q != [] && 0 < need < q[|q| - 1].data
    modifies {q[|q| - 1]}`data
    ensures need <= bytes == |old(Stream(q))| && Stream(q) == old(Stream(q))[..bytes - need]
    ensures QueueOk(q, size, bytes - need, qi)
  {
    var n := |q| - 1;
    StreamLast(q);
    RepeatTake(Stream(q[..n]), q[n], q[n].data, need);
    q[n].data := q[n].data - need;
    assert Stream(q[..n]) == old(Stream(q[..n]));
    StreamLast(q);
  }

  ghost predicate From(a: seq<AnnotateData>, b: seq<AnnotateData>) {
    forall i :: 0 <= i < |a| ==> a[i] in b
  }

  ghost predicate Owned(q: seq<AnnotateData>, own: set<AnnotateData>) {
    forall i :: 0 <= i < |q| ==> q[i] in own
  }

  /** One turn of the dequeue loop. */
  method FrontStep(q: seq<AnnotateData>, size: int, bytes: int, need: nat, ghost qi: nat, ghost own: set<AnnotateData>)
    returns (rest: seq<AnnotateData>, left: int, more: nat)
    requires QueueOk(q, size, bytes + need, qi) && 0 <= bytes && 0 < need
    requires Owned(q, own)
    modifies own`data
    ensures more <= need && (more < need || |rest| < |q|) && QueueOk(rest, left, bytes + more, qi) && Owned(rest, own)
    ensures Dropped(old(Stream(q)), need - more, Stream(rest))
  {
    NotEmpty(q, size, bytes + need, qi);
    hide QueueOk, Stream;
    rest, left := q, size;
    if left <= 0 || bytes < 0 {
      assert false;
    }
    var headBytes := q[0].data;
    if headBytes > need {
      ShrinkFront(q, size, bytes + need, need, qi);
      more := 0;
    } else {
      PopFront(q, size, bytes + need, qi);
      rest := q[1..];
      left := left - 1;
      more := if headBytes == need then 0 else need - headBytes;
    }
  }

  /** One turn of the resize loop. */
  method BackStep(q: seq<AnnotateData>, size: int, bytes: int, need: nat, ghost qi: nat, ghost own: set<AnnotateData>)
    returns (rest: seq<AnnotateData>, left: int, more: nat)
    requires QueueOk(q, size, bytes + need, qi) && 0 <= bytes && 0 < need
    requires Owned(q, own)
    modifies own`data
    ensures more <= need && (more < need || |rest| < |q|) && QueueOk(rest, left, bytes + more, qi) && Owned(rest, own)
    ensures Taken(old(Stream(q)), bytes + more, Stream(rest))
  {
    NotEmpty(q, size, bytes + need, qi);
    hide QueueOk, Stream;
    rest, left := q, size;
    var tailBytes := q[|q| - 1].data;
    if left <= 0 || bytes < 0 {
      assert false;
    }
    if tailBytes > need {
      ShrinkBack(q, size, bytes + need, need, qi);
      more := 0;
    } else {
      PopBack(q, size, bytes + need, qi);
      rest := q[..|q| - 1];
      left := left - 1;
      more := if tailBytes == need then 0 else need - tailBytes;
    }
  }

  lemma {:induction false} Whole(q: seq<AnnotateData>, size: int, bytes: int, qi: nat)
    requires QueueOk(q, size, bytes, qi)
    ensures bytes >= 0 && Dropped(Stream(q), 0, Stream(q)) && Taken(Stream(q), bytes, Stream(q))
  {
  }

  /** Take `count` bytes off the front: whole records are dropped, the last one touched keeps its rest. */
  method DropFront(q: seq<AnnotateData>, size: int, bytes: int, count: nat, ghost qi: nat, ghost own: set<AnnotateData>)
    returns (rest: seq<AnnotateData>, left: int)
    requires QueueOk(q, size, bytes + count, qi) && 0 <= bytes
    requires Owned(q, own)
    modifies own`data
    ensures Dropped(old(Stream(q)), count, Stream(rest))
    ensures QueueOk(rest, left, bytes, qi) && Owned(rest, own)
  {
    rest, left := q, size;
    hide *;
    ghost var all := Stream(q);
    Whole(q, size, bytes + count, qi);
    var need := count;
    while need > 0
      invariant 0 <= need <= count && Owned(rest, own)
      invariant QueueOk(rest, left, bytes + need, qi)
      invariant Dropped(all, count - need, Stream(rest))
      decreases need, |rest|
    {
      ghost var before, was := need, Stream(rest);
      rest, left, need := FrontStep(rest, left, bytes, need, qi, own);
      DropDrop(all, count - before, was, before - need, Stream(rest));
    }
  }

  /** Take `cut` bytes off the back. */
  method DropBack(q: seq<AnnotateData>, size: int, bytes: int, cut: nat, ghost qi: nat, ghost own: set<AnnotateData>)
    returns (rest: seq<AnnotateData>, left: int)
    requires QueueOk(q, size, bytes + cut, qi) && 0 <= bytes
    requires Owned(q, own)
    modifies own`data
    ensures Taken(old(Stream(q)), bytes, Stream(rest))
    ensures QueueOk(rest, left, bytes, qi) && Owned(rest, own)
  {
    rest, left := q, size;
    hide *;
    ghost var all := Stream(q);
    Whole(q, size, bytes + cut, qi);
    var need := cut;
    while need > 0
      invariant 0 <= need <= cut && Owned(rest, own)
      invariant QueueOk(rest, left, bytes + need, qi)
      invariant Taken(all, bytes + need, Stream(rest))
      decreases need, |rest|
    {
      ghost var before, was := need, Stream(rest);
      rest, left, need := BackStep(rest, left, bytes, need, qi, own);
      TakeTake(all, bytes + before, was, bytes + need, Stream(rest));
    }
  }

  /** Adding a record at either end. */
  lemma {:induction false} Enqueue(q: seq<AnnotateData>, size: int, bytes: int, qi: nat, r: AnnotateData)
    requires QueueOk(q, size, bytes, qi) && r !in q && r.op == OP_QUEUE && r.stq == qi
    requires bytes + r.data <= INT32_MAX
    ensures QueueOk(q + [r], size + 1, bytes + r.data, qi) && QueueOk([r] + q, size + 1, bytes + r.data, qi)
    ensures Stream(q + [r]) == Stream(q) + Repeat(r, r.data) && Stream([r] + q) == Repeat(r, r.data) + Stream(q)
  {
    StreamAdd(q, r);
    hide Stream;
  }

  lemma {:induction false} EmptyQueue(qi: nat)
    ensures QueueOk([], 0, 0, qi) && Stream([]) == []
  {
  }

  lemma {:induction false} Counts(q: seq<AnnotateData>, size: int, bytes: int, qi: nat)
    requires QueueOk(q, size, bytes, qi)
    ensures size == |q| && 0 <= bytes == |Stream(q)| <= INT32_MAX && (q == [] ==> bytes == 0)
  {
  }

  lemma {:induction false} FromAdd(q: seq<AnnotateData>, h: seq<AnnotateData>, r: AnnotateData)
    requires From(q, h) && r in h
    ensures From(q + [r], h) && From([r] + q, h)
  {
  }

  /** Two queues share no record. */
  lemma {:induction false} Disjoint(p: seq<AnnotateData>, q: seq<AnnotateData>, m: int, n: int, i: int, j: int,
                                    x: nat, y: nat)
    requires QueueOk(p, m, i, x) && QueueOk(q, n, j, y) && x != y
    ensures forall k :: 0 <= k < |p| ==> p[k] !in q
  {
  }
}
