/** A circular doubly linked list with a dummy element, refining operations on a sequence. */
module DblList {
  import opened Options
  import opened Sequences

  class DblListEl {
    var next: DblListEl?
    var prev: DblListEl?

    constructor ()
      ensures next == null && prev == null
    {
      next, prev := null, null;
    }
  }

  class List {
    const dummy: DblListEl
    var length: nat
    /** The elements of the list, head first. */
    ghost var els: seq<DblListEl>

    /** Once around the ring, from the dummy back to it. */
    ghost function Ring(): seq<DblListEl>
      reads this
    {
      [dummy] + els + [dummy]
    }

    ghost predicate Valid()
      reads this, dummy, els
    {
      && length == |els|
      && dummy !in els
      && Distinct(els)
      && Linked(Ring())
    }

    constructor ()
      ensures Valid() && els == [] && fresh(dummy)
    {
      var d := new DblListEl();
      d.next, d.prev := d, d;
      dummy, length, els := d, 0, [];
      new;
      assert Ring() == [dummy, dummy];
    }

    /** Users never see the dummy element. */
    function ValidOrNull(el: DblListEl?): (r: DblListEl?)
      ensures r != dummy
    {
      if el == dummy then null else el
    }

    method Head() returns (r: DblListEl?)
      requires Valid()
      ensures r == if els == [] then null else els[0]
    {
      assert Ring()[0] == dummy && Ring()[1] == if els == [] then dummy else els[0];
      r := ValidOrNull(dummy.next);
    }

    method Tail() returns (r: DblListEl?)
      requires Valid()
      ensures r == if els == [] then null else els[|els| - 1]
    {
      assert Ring()[|els| + 1] == dummy && Ring()[|els|] == if els == [] then dummy else els[|els| - 1];
      r := ValidOrNull(dummy.prev);
    }

    method Next(el: DblListEl, ghost k: nat) returns (r: DblListEl?)
      requires Valid() && k < |els| && els[k] == el
      ensures r == if k + 1 < |els| then els[k + 1] else null
    {
      assert Ring()[k + 1] == el && Ring()[k + 2] == if k + 1 < |els| then els[k + 1] else dummy;
      r := ValidOrNull(el.next);
    }

    method Prev(el: DblListEl, ghost k: nat) returns (r: DblListEl?)
      requires Valid() && k < |els| && els[k] == el
      ensures r == if k > 0 then els[k - 1] else null
    {
      assert Ring()[k + 1] == el && Ring()[k] == if k > 0 then els[k - 1] else dummy;
      r := ValidOrNull(el.prev);
    }

    method IsEmpty() returns (b: bool)
      requires Valid()
      ensures b <==> els == []
    {
      assert Ring()[0] == dummy && Ring()[1] == if els == [] then dummy else els[0];
      b := dummy.next == dummy;
    }

    method Remove(el: DblListEl, ghost k: nat)
      requires Valid() && k < |els| && els[k] == el
      modifies this`length, this`els, dummy, els
      ensures Valid() && els == old(els)[..k] + old(els)[k + 1..]
    {
      hide Linked, Distinct;
      ghost var ring := Ring();
      RingClosed(dummy, els);
      assert ring[k + 1] == el;
      Unlink(el, ring, k + 1);
      length := length - 1;
      Without(dummy, els, k);
      els := els[..k] + els[k + 1..];
    }

    /** Insert `x` before element number `k`, or before the dummy if `k` is the length. */
    method InsertBefore(x: DblListEl, old_el: DblListEl, ghost k: nat)
      requires Valid() && x != dummy && x !in els
      requires k <= |els| && old_el == (if k < |els| then els[k] else dummy)
      modifies this`length, this`els, dummy, els, x
      ensures Valid() && els == old(els)[..k] + [x] + old(els)[k..]
    {
      hide Linked, Distinct;
      ghost var ring := Ring();
      RingClosed(dummy, els);
      assert ring[k + 1] == old_el;
      LinkBefore(x, old_el, ring, k + 1);
      length := length + 1;
      Inserted(dummy, els, x, k);
      els := els[..k] + [x] + els[k..];
    }

    /** Insert `x` after element number `k - 1`, or after the dummy if `k` is 0. */
    method InsertAfter(x: DblListEl, old_el: DblListEl, ghost k: nat)
      requires Valid() && x != dummy && x !in els
      requires k <= |els| && old_el == (if k > 0 then els[k - 1] else dummy)
      modifies this`length, this`els, dummy, els, x
      ensures Valid() && els == old(els)[..k] + [x] + old(els)[k..]
    {
      hide Linked, Distinct;
      ghost var ring := Ring();
      RingClosed(dummy, els);
      assert ring[k] == old_el;
      LinkAfter(x, old_el, ring, k);
      length := length + 1;
      Inserted(dummy, els, x, k);
      els := els[..k] + [x] + els[k..];
    }

    method Append(x: DblListEl)
      requires Valid() && x != dummy && x !in els
      modifies this`length, this`els, dummy, els, x
      ensures Valid() && els == old(els) + [x]
    {
      InsertBefore(x, dummy, |els|);
      assert old(els)[..|old(els)|] + [x] + old(els)[|old(els)|..] == old(els) + [x];
    }

    method Prepend(x: DblListEl)
      requires Valid() && x != dummy && x !in els
      modifies this`length, this`els, dummy, els, x
      ensures Valid() && els == [x] + old(els)
    {
      InsertAfter(x, dummy, 0);
      assert old(els)[..0] + [x] + old(els)[0..] == [x] + old(els);
    }

    method Pop() returns (r: DblListEl?)
      requires Valid()
      modifies this`length, this`els, dummy, els
      ensures Valid()
      ensures old(els) == [] ==> r == null && els == []
      ensures old(els) != [] ==> r == old(els)[0] && els == old(els)[1..]
    {
      r := Head();
      if r != null {
        Remove(r, 0);
        assert old(els)[..0] + old(els)[1..] == old(els)[1..];
      }
    }
  }

  // ----- Elements in a ring -----

  /** Neighbours in `ring` point at each other. */
  ghost predicate Linked(ring: seq<DblListEl>)
    reads ring
  {
    forall i {:trigger ring[i]} :: 0 <= i < |ring| - 1 ==> ring[i].next == ring[i + 1] && ring[i + 1].prev == ring[i]
  }

  /** Only the dummy, at both ends, occurs twice. */
  ghost predicate Closed(ring: seq<DblListEl>) {
    |ring| >= 2 && ring[0] == ring[|ring| - 1] && Distinct(ring[1..])
  }

  lemma RingClosed(d: DblListEl, els: seq<DblListEl>)
    requires Distinct(els) && d !in els
    ensures Closed([d] + els + [d])
  {
    assert ([d] + els + [d])[1..] == els + [d];
  }

  lemma RingDistinct(ring: seq<DblListEl>)
    requires Closed(ring)
    ensures ring[0] == ring[|ring| - 1] && forall i, j :: 1 <= i < j < |ring| ==> ring[i] != ring[j]
  {
    forall i, j | 1 <= i < j < |ring| ensures ring[i] != ring[j] {
      assert ring[i] == ring[1..][i - 1] && ring[j] == ring[1..][j - 1];
    }
  }

  lemma Without(d: DblListEl, els: seq<DblListEl>, k: nat)
    requires k < |els| && Distinct(els) && d !in els
    ensures var r, ring := els[..k] + els[k + 1..], [d] + els + [d];
            Distinct(r) && d !in r && [d] + r + [d] == ring[..k + 1] + ring[k + 2..]
  {
  }

  lemma Inserted(d: DblListEl, els: seq<DblListEl>, x: DblListEl, k: nat)
    requires k <= |els| && Distinct(els) && d !in els && x != d && x !in els
    ensures var r, ring := els[..k] + [x] + els[k..], [d] + els + [d];
            Distinct(r) && d !in r && [d] + r + [d] == ring[..k + 1] + [x] + ring[k + 1..]
  {
  }

  method Unlink(el: DblListEl, ghost ring: seq<DblListEl>, ghost k: nat)
    requires Linked(ring) && Closed(ring) && 0 < k < |ring| - 1 && ring[k] == el
    modifies ring
    ensures Linked(ring[..k] + ring[k + 1..])
  {
    RingDistinct(ring);
    hide Distinct, Closed;
    assert ring[k - 1].next == el;
    el.prev.next := el.next;
    el.next.prev := el.prev;
  }

  method LinkBefore(x: DblListEl, old_el: DblListEl, ghost ring: seq<DblListEl>, ghost k: nat)
    requires Linked(ring) && Closed(ring) && 0 < k < |ring| && ring[k] == old_el && x !in ring
    modifies ring, x
    ensures Linked(ring[..k] + [x] + ring[k..])
  {
    assert ring[k - 1].next == old_el;
    x.prev := old_el.prev;
    x.next := old_el;
    Halves(ring, k);
    x.prev.next := x;
    x.next.prev := x;
    assert Linked(ring[..k]) && Linked(ring[k..]);
    Joined(ring[..k], x, ring[k..]);
  }

  method LinkAfter(x: DblListEl, old_el: DblListEl, ghost ring: seq<DblListEl>, ghost k: nat)
    requires Linked(ring) && Closed(ring) && 0 <= k < |ring| - 1 && ring[k] == old_el && x !in ring
    modifies ring, x
    ensures Linked(ring[..k + 1] + [x] + ring[k + 1..])
  {
    hide Distinct;
    assert ring[k].next == ring[k + 1];
    x.next := old_el.next;
    x.prev := old_el;
    Halves(ring, k + 1);
    x.next.prev := x;
    x.prev.next := x;
    assert Linked(ring[..k + 1]) && Linked(ring[k + 1..]);
    Joined(ring[..k + 1], x, ring[k + 1..]);
  }

  /** Cutting the ring before position `k`: no other link of either half leaves its last element or
      enters its first one. */
  lemma Halves(ring: seq<DblListEl>, k: nat)
    requires Linked(ring) && Closed(ring) && 0 < k < |ring|
    ensures Linked(ring[..k]) && Linked(ring[k..])
    ensures forall i :: 0 <= i < k - 1 ==> ring[i] != ring[k - 1]
    ensures forall i :: k <= i < |ring| - 1 ==> ring[i] != ring[k - 1]
    ensures forall i :: 0 < i < k ==> ring[i] != ring[k]
    ensures forall i :: k < i < |ring| ==> ring[i] != ring[k]
  {
    RingDistinct(ring);
  }

  lemma Joined(a: seq<DblListEl>, x: DblListEl, b: seq<DblListEl>)
    requires a != [] && b != [] && Linked(a) && Linked(b)
    requires a[|a| - 1].next == x && x.prev == a[|a| - 1] && x.next == b[0] && b[0].prev == x
    ensures Linked(a + [x] + b)
  {
    var r := a + [x] + b;
    forall i | 0 <= i < |r| - 1 ensures r[i].next == r[i + 1] && r[i + 1].prev == r[i] {
      if i < |a| - 1 {
        assert a[i].next == a[i + 1] && a[i + 1].prev == a[i];
      } else if i > |a| {
        var j := i - |a| - 1;
        assert b[j].next == b[j + 1] && b[j + 1].prev == b[j];
      }
    }
  }

  // ----- Traversal -----

  /** Following `next` from the head visits the elements in order; following `prev` from the tail
      visits them in reverse. */
  method Traverse(l: List) returns (forward: seq<DblListEl>, backward: seq<DblListEl>)
    requires l.Valid()
    ensures forward == l.els
    ensures |backward| == |forward|
    ensures forall i {:trigger backward[i]} :: 0 <= i < |forward| ==> backward[i] == forward[|forward| - 1 - i]
  {
    forward := [];
    var el := l.Head();
    while el != null
      invariant |forward| <= |l.els| && forward == l.els[..|forward|]
      invariant el == if |forward| < |l.els| then l.els[|forward|] else null
      decreases |l.els| - |forward|
    {
      forward := forward + [el];
      el := l.Next(el, |forward| - 1);
    }
    backward := [];
    el := l.Tail();
    while el != null
      invariant |backward| <= |l.els|
      invariant forall i {:trigger backward[i]} :: 0 <= i < |backward| ==> backward[i] == l.els[|l.els| - 1 - i]
      invariant el == if |backward| < |l.els| then l.els[|l.els| - 1 - |backward|] else null
      decreases |l.els| - |backward|
    {
      backward := backward + [el];
      el := l.Prev(el, |l.els| - |backward|);
    }
  }

  // ----- Runs -----

  /** An operation on elements of a pool, named by their numbers. */
  datatype Op =
    | PutBefore(x: nat, at: nat)
    | PutAfter(x: nat, at: nat)
    | PutLast(x: nat)
    | PutFirst(x: nat)
    | TakeOut(x: nat)
    | TakeFirst

  /** The numbers in the list, and what has been popped. */
  datatype Progress = Progress(list: seq<nat>, popped: seq<Option<nat>>)

  /** Elements inserted are not in the list yet; elements removed or inserted next to are. */
  predicate Allowed(n: nat, list: seq<nat>, op: Op) {
    match op
    case PutBefore(x, at) => x < n && x !in list && at in list
    case PutAfter(x, at) => x < n && x !in list && at in list
    case PutLast(x) => x < n && x !in list
    case PutFirst(x) => x < n && x !in list
    case TakeOut(x) => x in list
    case TakeFirst => true
  }

  function IndexOf(list: seq<nat>, x: nat): (k: nat)
    requires x in list
    ensures k < |list| && list[k] == x
  {
    if list[0] == x then 0 else 1 + IndexOf(list[1..], x)
  }

  function Done(n: nat, p: Progress, op: Op): Progress
    requires Allowed(n, p.list, op)
  {
    var list := p.list;
    match op
    case PutBefore(x, at) => p.(list := list[..IndexOf(list, at)] + [x] + list[IndexOf(list, at)..])
    case PutAfter(x, at) => p.(list := list[..IndexOf(list, at) + 1] + [x] + list[IndexOf(list, at) + 1..])
    case PutLast(x) => p.(list := list + [x])
    case PutFirst(x) => p.(list := [x] + list)
    case TakeOut(x) => p.(list := list[..IndexOf(list, x)] + list[IndexOf(list, x) + 1..])
    case TakeFirst =>
      if list == [] then p.(popped := p.popped + [None]) else Progress(list[1..], p.popped + [Some(list[0])])
  }

  /** The sequence after all the operations, unless one of them is not allowed. */
  function After(n: nat, ops: seq<Op>): Option<Progress>
    decreases |ops|
  {
    if ops == [] then Some(Progress([], []))
    else
      var k := |ops| - 1;
      var p := After(n, ops[..k]);
      if p.None? || !Allowed(n, p.value.list, ops[k]) then None else Some(Done(n, p.value, ops[k]))
  }

  lemma {:induction false} AfterOne(n: nat, ops: seq<Op>, k: nat)
    requires k < |ops| && After(n, ops[..k]).Some? && Allowed(n, After(n, ops[..k]).value.list, ops[k])
    ensures After(n, ops[..k + 1]) == Some(Done(n, After(n, ops[..k]).value, ops[k]))
  {
    hide Done;
    assert ops[..k + 1][..k] == ops[..k];
  }

  /** The list holds the elements with these numbers. */
  ghost predicate Are(pool: seq<DblListEl>, list: seq<nat>, els: seq<DblListEl>) {
    |els| == |list| && forall i :: 0 <= i < |list| ==> list[i] < |pool| && els[i] == pool[list[i]]
  }

  ghost predicate Popped(pool: seq<DblListEl>, ids: seq<Option<nat>>, popped: seq<DblListEl?>) {
    && |popped| == |ids|
    && forall i :: 0 <= i < |ids| ==>
      if ids[i].None? then popped[i] == null else ids[i].value < |pool| && popped[i] == pool[ids[i].value]
  }

  lemma {:induction false} NotListed(pool: seq<DblListEl>, list: seq<nat>, els: seq<DblListEl>, x: nat)
    requires Distinct(pool) && Are(pool, list, els) && x < |pool| && x !in list
    ensures pool[x] !in els
  {
  }

  lemma {:induction false} AllOfPool(pool: seq<DblListEl>, list: seq<nat>, els: seq<DblListEl>)
    requires Are(pool, list, els)
    ensures |els| == |list|
    ensures forall i :: 0 <= i < |els| ==> els[i] in pool && list[i] < |pool| && els[i] == pool[list[i]]
  {
  }

  lemma {:induction false} ArePut(pool: seq<DblListEl>, list: seq<nat>, els: seq<DblListEl>, k: nat, x: nat)
    requires Are(pool, list, els) && k <= |list| && x < |pool|
    ensures Are(pool, list[..k] + [x] + list[k..], els[..k] + [pool[x]] + els[k..])
    ensures Are(pool, list + [x], els + [pool[x]]) && Are(pool, [x] + list, [pool[x]] + els)
  {
  }

  lemma {:induction false} AreTaken(pool: seq<DblListEl>, list: seq<nat>, els: seq<DblListEl>, k: nat)
    requires Are(pool, list, els) && k < |list|
    ensures Are(pool, list[..k] + list[k + 1..], els[..k] + els[k + 1..]) && Are(pool, list[1..], els[1..])
  {
  }

  /** Any operations, up to the first that is not allowed: the list holds what the same operations make of a sequence,
      and the elements popped are the ones popped from it. */
  method Run(l: List, pool: seq<DblListEl>, ops: seq<Op>)
    returns (ran: nat, popped: seq<DblListEl?>, p: Progress)
    requires l.Valid() && l.els == [] && Distinct(pool) && l.dummy !in pool
    modifies l, l.dummy, pool
    ensures l.Valid() && ran <= |ops| && After(|pool|, ops[..ran]) == Some(p)
    ensures ran < |ops| ==> !Allowed(|pool|, p.list, ops[ran])
    ensures Are(pool, p.list, l.els) && Popped(pool, p.popped, popped)
  {
    hide Distinct, List.Valid, Done;
    ran, popped, p := 0, [], Progress([], []);
    while ran < |ops|
      invariant 0 <= ran <= |ops| && l.Valid() && After(|pool|, ops[..ran]) == Some(p)
      invariant Are(pool, p.list, l.els) && Popped(pool, p.popped, popped)
    {
      if !Allowed(|pool|, p.list, ops[ran]) {
        break;
      }
      AfterOne(|pool|, ops, ran);
      popped := Do(l, pool, ops[ran], p, popped);
      p := Done(|pool|, p, ops[ran]);
      ran := ran + 1;
    }
  }

  /** One operation of a run. */
  method Do(l: List, pool: seq<DblListEl>, op: Op, p: Progress, popped: seq<DblListEl?>)
    returns (popped': seq<DblListEl?>)
    requires l.Valid() && Distinct(pool) && l.dummy !in pool && Allowed(|pool|, p.list, op)
    requires Are(pool, p.list, l.els) && Popped(pool, p.popped, popped)
    modifies l, l.dummy, pool
    ensures l.Valid()
    ensures var p' := Done(|pool|, p, op); Are(pool, p'.list, l.els) && Popped(pool, p'.popped, popped')
  {
    hide Distinct, List.Valid, Are;
    AllOfPool(pool, p.list, l.els);
    popped' := popped;
    match op {
      case PutBefore(x, at) =>
        var k := IndexOf(p.list, at);
        NotListed(pool, p.list, l.els, x);
        ArePut(pool, p.list, l.els, k, x);
        l.InsertBefore(pool[x], pool[at], k);
      case PutAfter(x, at) =>
        var k := IndexOf(p.list, at) + 1;
        NotListed(pool, p.list, l.els, x);
        ArePut(pool, p.list, l.els, k, x);
        l.InsertAfter(pool[x], pool[at], k);
      case PutLast(x) =>
        NotListed(pool, p.list, l.els, x);
        ArePut(pool, p.list, l.els, 0, x);
        l.Append(pool[x]);
      case PutFirst(x) =>
        NotListed(pool, p.list, l.els, x);
        ArePut(pool, p.list, l.els, 0, x);
        l.Prepend(pool[x]);
      case TakeOut(x) =>
        var k := IndexOf(p.list, x);
        AreTaken(pool, p.list, l.els, k);
        l.Remove(pool[x], k);
      case TakeFirst =>
        if p.list != [] { AreTaken(pool, p.list, l.els, 0); }
        var e := l.Pop();
        popped' := popped + [e];
    }
  }
}
