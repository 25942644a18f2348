/** The descriptors themselves: elf_begin and elf_end as they update them in place. */
module ElfLibrary {
  import opened Options
  import opened ElfLifetime

  /** A descriptor. */
  class Desc {
    var activations: nat
    var kind: Kind
    var parent: Desc?
    var nchildren: int
    var fd: int
    var cmd: Cmd
    /** Position in the order of allocation. */
    ghost const stamp: nat

    constructor (k: Kind, fd: int, cmd: Cmd, p: Desc?, ghost stamp: nat)
      ensures activations == 1 && kind == k && parent == p && nchildren == 0
      ensures this.fd == fd && this.cmd == cmd && this.stamp == stamp
    {
      activations, kind, parent, nchildren := 1, k, p, 0;
      this.fd, this.cmd, this.stamp := fd, cmd, stamp;
    }
  }

  ghost function IdOf(d: Desc?): Option<nat> {
    if d == null then None else Some(d.stamp)
  }

  ghost function NodeOf(d: Desc): Node
    reads d
  {
    Node(d.activations, d.kind, IdOf(d.parent), d.nchildren, d.fd, d.cmd)
  }

  /** Descriptors are found under their numbers. */
  ghost predicate Numbered(live: set<Desc>, descs: seq<Desc>)
    reads live`parent
  {
    && (forall k :: 0 <= k < |descs| ==> descs[k].stamp == k)
    && (forall d :: d in live ==> d.stamp < |descs| && descs[d.stamp] == d)
    && (forall d :: d in live && d.parent != null ==> d.parent.stamp < |descs| && descs[d.parent.stamp] == d.parent)
  }

  lemma {:induction false} NumberedMore(live: set<Desc>, descs: seq<Desc>, e: Desc)
    requires Numbered(live, descs) && e.stamp == |descs| && (e.parent != null ==> e.parent in live)
    ensures Numbered(live + {e}, descs + [e])
  {
  }

  lemma {:induction false} ParentIs(live: set<Desc>, descs: seq<Desc>, p: Desc)
    requires Numbered(live, descs) && p in live
    ensures forall k :: 0 <= k < |descs| ==> (descs[k] == p <==> Some(k) == IdOf(p))
  {
  }

  /** The live descriptors by number. */
  ghost function Viewed(live: set<Desc>, descs: seq<Desc>): View
    reads live
  {
    map k: nat | k < |descs| && descs[k] in live :: NodeOf(descs[k])
  }

  /** A new descriptor `e`, once its parent counts it. */
  lemma {:induction false} ViewedMore(live: set<Desc>, descs: seq<Desc>, e: Desc, s: State, n: Node)
    requires e !in live && e !in descs && Rooted(s.nodes, s.count) && (n.parent.Some? ==> n.parent.value in s.nodes)
    requires s.count == |descs| && NodeOf(e) == n
    requires forall k :: k in s.nodes <==> 0 <= k < |descs| && descs[k] in live
    requires forall k :: k in s.nodes ==>
      NodeOf(descs[k]) == s.nodes[k].(nchildren := s.nodes[k].nchildren + if Some(k) == n.parent then 1 else 0)
    ensures Viewed(live + {e}, descs + [e]) == Added(s, n).nodes
  {
    AddedIs(s, n);
    hide Added;
    var w := Viewed(live + {e}, descs + [e]);
    forall k ensures k in w <==> k in s.nodes || k == s.count { }
    forall k | k in w ensures w[k] == Added(s, n).nodes[k] { }
  }

  class Library {
    ghost var live: set<Desc>
    /** Every descriptor ever allocated, in order. */
    ghost var descs: seq<Desc>
    ghost var released: seq<nat>

    constructor ()
      ensures Inv() && Abs() == NOTHING && live == {} && descs == [] && released == []
    {
      live, descs, released := {}, [], [];
    }

    ghost function TheView(): View
      reads this, live
    {
      Viewed(live, descs)
    }

    /** The library as a value. */
    ghost function Abs(): State
      reads this, live
    {
      State(TheView(), |descs|, released)
    }

    ghost predicate Shape()
      reads this`live, this`descs, live`parent
    {
      Numbered(live, descs)
    }

    ghost predicate Inv()
      reads this, live
    {
      Shape() && Ok(Abs())
    }

    /** What the view holds, descriptor by descriptor. */
    lemma {:induction false} ViewFacts()
      ensures forall k :: k in TheView() <==> 0 <= k < |descs| && descs[k] in live
      ensures forall k :: k in TheView() ==> TheView()[k] == NodeOf(descs[k])
    {
    }

    lemma {:induction false} ViewIs(w: View)
      requires forall k :: k in w <==> 0 <= k < |descs| && descs[k] in live
      requires forall k :: k in w ==> w[k] == NodeOf(descs[k])
      ensures TheView() == w
    {
    }

    lemma {:induction false} LiveIs(d: Desc)
      requires Shape()
      ensures d in live ==> d in descs && d.stamp in TheView() && TheView()[d.stamp] == NodeOf(d)
      ensures d.stamp in TheView() && d in descs ==> d in live
    {
    }

    lemma {:induction false} ParentLive(d: Desc)
      requires Shape() && Linked(TheView(), |descs|) && d in live
      ensures d.parent != null ==> d.parent in live && d.parent != d && d.parent.stamp in TheView()
    {
      LiveIs(d);
    }

    /** The view says which descriptors are live. */
    lemma {:induction false} SameLive(was: set<Desc>, had: seq<Desc>, s: State)
      requires Shape() && had <= descs && TheView() == s.nodes
      requires forall k :: k in s.nodes <==> 0 <= k < |had| && had[k] in was
      requires forall d :: d in was ==> d.stamp < |had| && had[d.stamp] == d
      ensures live == was
    {
      forall d | d in live ensures d in was { LiveIs(d); }
      forall d | d in was ensures d in live { assert d.stamp in s.nodes; }
    }

    /** Allocate a descriptor, as a member of `p` if that is not null. */
    method Allocate(k: Kind, fd: int, cmd: Cmd, p: Desc?) returns (e: Desc)
      requires Inv()
      requires p != null ==> p in live && p.kind == KindAr
      modifies this, (if p != null then {p} else {})`nchildren
      ensures Inv() && fresh(e) && live == old(live) + {e} && descs == old(descs) + [e]
      ensures e.kind == k && e.stamp == |old(descs)| && e.parent == p && e.activations == 1 && e.nchildren == 0
      ensures p != null ==> p.nchildren == old(p.nchildren) + 1
      ensures Abs() == Added(old(Abs()), Node(1, k, IdOf(p), 0, fd, cmd))
    {
      hide Ok, Added, Viewed, Numbered, Rooted, Needed, Counting;
      ghost var s, n, was, had := Abs(), Node(1, k, IdOf(p), 0, fd, cmd), live, descs;
      if p != null { LiveIs(p); }
      ViewFacts();
      AddedOk(s, n);
      OkRooted(s);
      AddedRest(s, n);
      e := new Desc(k, fd, cmd, p, |descs|);
      if p != null {
        ParentIs(was, had, p);
        p.nchildren := p.nchildren + 1;
      }
      ViewedMore(was, had, e, s, n);
      NumberedMore(was, had, e);
      live := live + {e};
      descs := descs + [e];
    }

    /** Release one descriptor and return its parent, which no longer counts it. */
    method Release(sv: Desc) returns (p: Desc?)
      requires Shape() && Linked(TheView(), |descs|) && sv in live
      requires sv.stamp in TheView() && !Needed(TheView()[sv.stamp])
      modifies this`live, this`released, live`nchildren
      ensures Shape() && live == old(live) - {sv} && released == old(released) + [sv.stamp] && p == old(sv.parent)
      ensures p != null ==> p in live
      ensures TheView() == Removed(old(TheView()), sv.stamp)
    {
      hide Viewed, Linked, Needed, Removed;
      ParentLive(sv);
      ViewFacts();
      ghost var v := TheView();
      RemovedIs(v, sv.stamp);
      p := sv.parent;
      if p != null {
        p.nchildren := p.nchildren - 1;
      }
      live := live - {sv};
      released := released + [sv.stamp];
      ViewIs(Removed(v, sv.stamp));
    }

    /** The loop of elf_end: release `e0` if it is not needed, and so on up the archives. */
    method ReleaseUp(e0: Desc?)
      requires Shape() && Linked(TheView(), |descs|) && (e0 != null ==> e0 in live)
      modifies this`live, this`released, live`nchildren
      ensures Shape() && live <= old(live)
      ensures var r := ElfLifetime.Release(old(TheView()), IdOf(e0));
        TheView() == r.nodes && released == old(released) + r.chain
    {
      hide Linked, ElfLifetime.Release, Removed, TheView, Shape, Needed;
      var e := e0;
      ghost var all, chain := ElfLifetime.Release(TheView(), IdOf(e)), [];
      while e != null && e.activations == 0
        invariant e != null ==> e in live
        invariant live <= old(live) && Shape() && Linked(TheView(), |descs|) && released == old(released) + chain
        invariant var rest := ElfLifetime.Release(TheView(), IdOf(e)); all == Released(rest.nodes, chain + rest.chain)
        decreases live
      {
        LiveIs(e);
        NeededIs(NodeOf(e));
        if e.kind == KindAr && e.nchildren > 0 {
          ReleaseEnds(TheView(), IdOf(e));
          return;
        }
        ReleaseGoesOn(TheView(), e.stamp, |descs|);
        chain := chain + [e.stamp];
        e := Release(e);
      }
      if e != null {
        LiveIs(e);
        NeededIs(NodeOf(e));
      }
      ReleaseEnds(TheView(), IdOf(e));
    }

    /** elf_end: drop one activation, then release what is no longer needed, walking up the archives. */
    method End(e0: Desc?) returns (r: nat)
      requires Inv() && (e0 != null ==> e0 in live)
      modifies this`live, this`released, live`activations, live`nchildren
      ensures Inv() && live <= old(live)
      ensures Abs() == Ends(old(Abs()), IdOf(e0)) && r == EndResult(old(Abs()), IdOf(e0))
      ensures e0 != null ==> r == Activations(Abs(), e0.stamp)
    {
      hide Ok, Linked, ElfLifetime.Release, Viewed, Deactivated, Releases;
      var e := e0;
      if e != null { LiveIs(e); }
      if e0 != null { EndResultIs(Abs(), e0.stamp); }
      if e == null || e.activations == 0 {
        return 0;
      }
      ghost var s := Abs();
      EndsOk(s, e.stamp);
      DeactivatedKeeps(s, e.stamp);
      ViewFacts();
      DeactivatedIs(s.nodes, e.stamp);
      e.activations := e.activations - 1;
      ViewIs(Deactivated(s.nodes, e0.stamp));
      r := e.activations;
      if e.activations > 0 {
        ReleaseEnds(TheView(), Some(e.stamp));
        assert Abs() == Ends(s, Some(e0.stamp));
        return;
      }
      ReleaseUp(e);
      assert Abs() == Ends(s, Some(e0.stamp));
    }

    /** A descriptor just opened for the member at the cursor of an archive. */
    predicate BelowArchive(e: Desc, ar: Desc, member: Option<Kind>)
      reads e
    {
      e.parent == ar && Some(e.kind) == member && e.activations == 1 && e.nchildren == 0
    }

    /** Open an archive member; `member` is what the bytes at the archive's cursor turn out to be, if
        there is a readable member there. */
    method OpenMember(fd: int, c: Cmd, ar: Desc, member: Option<Kind>) returns (e: Desc?)
      requires Inv() && ar in live && ar.kind == KindAr
      modifies this, ar`nchildren
      ensures Inv() && old(descs) <= descs && live == old(live) + (if e == null then {} else {e})
      ensures var b := OpensMember(old(Abs()), fd, c, ar.stamp, member); Abs() == b.s && IdOf(e) == b.result
      ensures e != null ==> fresh(e) && BelowArchive(e, ar, member) && ar.nchildren == old(ar.nchildren) + 1
      ensures e == null <==> member.None?
    {
      hide Ok, Added;
      if member.None? {
        return null;
      }
      e := Allocate(member.value, fd, c, ar);
    }

    /** Open a file; `image` is what its bytes turn out to be, if they can be mapped and recognised. An archive cannot
        be opened for update: its descriptor is ended at once, and then it is the one released. */
    method OpenObject(fd: int, c: Cmd, image: Option<Kind>) returns (e: Desc?)
      requires Inv()
      modifies this, live`activations, live`nchildren
      ensures Inv() && old(descs) <= descs && live == old(live) + (if e == null then {} else {e})
      ensures var b := OpensObject(old(Abs()), fd, c, image); Abs() == b.s && IdOf(e) == b.result
      ensures e != null ==> fresh(e)
      ensures released == old(released) + if c == CmdRdwr && image == Some(KindAr) then [|old(descs)|] else []
      ensures |descs| == |old(descs)| + if image.None? then 0 else 1
    {
      hide Ok, Added, Ends, TheView;
      assert released + [] == released;
      if image.None? {
        return null;
      }
      ghost var s, n := Abs(), Node(1, image.value, None, 0, fd, c);
      ViewFacts();
      AddedRest(s, n);
      var d := Allocate(image.value, fd, c, null);
      e := d;
      if c == CmdRdwr && d.kind == KindAr {
        var _ := End(d);
        OpenedAndEnded(s, n);
        SameLive(old(live), old(descs), s);
        e := null;
      }
    }

    /** elf_begin. */
    method Begin(fd: int, c: Cmd, a: Desc?, versionSet: bool, truncated: bool, image: Option<Kind>) returns (e: Desc?)
      requires Inv() && (a != null ==> a in live)
      modifies this, live`activations, live`nchildren
      ensures Inv() && old(descs) <= descs && live == old(live) + (if e == null then {} else {e})
      ensures a != null ==> IdOf(a).value in old(Abs()).nodes
      ensures var b := Begins(old(Abs()), fd, c, IdOf(a), versionSet, truncated, image);
        Abs() == b.s && IdOf(e) == b.result
      ensures e != null ==> e == a || fresh(e)
      ensures versionSet && c == CmdRead && a != null && a.fd == fd && a.cmd == c && a.kind == KindAr ==>
        && (e == null <==> image.None?)
        && (e != null ==> fresh(e) && BelowArchive(e, a, image) && a.nchildren == old(a.nchildren) + 1
                          && a.activations == old(a.activations))
      ensures versionSet && c == CmdRead && a != null && a.fd == fd && a.cmd == c && a.kind != KindAr ==>
        e == a && a.activations == old(a.activations) + 1 && descs == old(descs)
    {
      hide Ok, Added, Viewed, Numbered, OpensObject, OpensMember;
      if a != null { LiveIs(a); }
      if !versionSet {
        return null;
      }
      match c {
        case CmdNull =>
          return null;
        case CmdWrite =>
          if a != null || !truncated {
            return null;
          }
          e := Allocate(KindElf, fd, c, null);
          return;
        case CmdRdwr =>
          if a != null {
            return null;
          }
        case CmdRead =>
          if a != null && (a.fd != fd || c != a.cmd) {
            return null;
          }
        case CmdOther =>
          return null;
      }
      if a == null {
        e := OpenObject(fd, c, image);
      } else if a.kind == KindAr {
        e := OpenMember(fd, c, a, image);
      } else {
        ReactivatesOk(Abs(), a.stamp);
        ParentIs(live, descs, a);
        ViewFacts();
        e := a;
        a.activations := a.activations + 1;
        ViewIs(Reactivates(old(Abs()), a.stamp).s.nodes);
      }
    }

    /** The descriptors returned, as numbers. */
    ghost predicate Returned(results: seq<Desc?>, ids: seq<Option<nat>>)
      reads this`descs
    {
      && |results| == |ids|
      && (forall i :: 0 <= i < |ids| ==> ids[i] == IdOf(results[i]))
      && (forall i :: 0 <= i < |results| && results[i] != null ==> results[i] in descs)
    }

    /** Any calls of elf_begin and elf_end, up to the first that names a released descriptor. The library ends where the
        calls lead. Nothing is live exactly when every descriptor has been ended as often as it was returned, and then
        every descriptor ever allocated has been released exactly once. */
    method Run(calls: seq<Action>) returns (ran: nat, results: seq<Desc?>, ghost ids: seq<Option<nat>>)
      requires Inv() && Abs() == NOTHING
      modifies this
      ensures Inv() && ran <= |calls| && After(calls[..ran]) == Some(Client(Abs(), ids)) && Returned(results, ids)
      ensures ran < |calls| ==> !Usable(Client(Abs(), ids), calls[ran])
      ensures live == {} <==> Balanced(calls[..ran], ids)
      ensures live == {} ==> ExactlyOnce(|descs|, released)
    {
      hide Ok, Next, Ends, Begins, Balanced, ExactlyOnce, Viewed;
      ran, results, ids := 0, [], [];
      var cl := START;
      while ran < |calls|
        invariant 0 <= ran <= |calls| && Inv() && forall d :: d in live ==> fresh(d)
        invariant cl == Client(Abs(), ids) && After(calls[..ran]) == Some(cl) && Returned(results, ids)
      {
        if !Usable(cl, calls[ran]) {
          break;
        }
        AfterOne(calls, ran);
        results, ids := Call(cl, calls[ran], results, ids);
        cl := Next(cl, calls[ran]);
        ran := ran + 1;
      }
      BalancedLeavesNothing(calls[..ran]);
      NoneLive();
    }

    lemma {:induction false} NoneLive()
      requires Shape()
      ensures live == {} <==> TheView() == map[]
    {
      if live != {} {
        var d :| d in live;
        LiveIs(d);
      }
    }

    /** One call of a run. */
    method Call(cl: Client, call: Action, results: seq<Desc?>, ghost ids: seq<Option<nat>>)
      returns (results': seq<Desc?>, ghost ids': seq<Option<nat>>)
      requires Inv() && cl == Client(Abs(), ids) && Usable(cl, call) && Returned(results, ids)
      modifies this, live`activations, live`nchildren
      ensures Inv() && Client(Abs(), ids') == Next(cl, call) && Returned(results', ids')
      ensures forall d :: d in live ==> d in old(live) || fresh(d)
    {
      hide Ok, Ends, Begins, Viewed, Numbered;
      var which := Subject(call);
      var d := if which.Some? then results[which.value] else null;
      if d != null { LiveIs(d); }
      results', ids' := results, ids;
      match call {
        case ToBegin(fd, c, _, versionSet, truncated, image) =>
          var e := Begin(fd, c, d, versionSet, truncated, image);
          if e != null { LiveIs(e); }
          assert forall x :: x in old(descs) ==> x in descs;
          results', ids' := results + [e], ids + [IdOf(e)];
        case ToEnd(_) =>
          var _ := End(d);
      }
    }
  }

  lemma {:induction false} OkRooted(s: State)
    requires Ok(s)
    ensures Rooted(s.nodes, s.count)
  {
  }

  lemma {:induction false} AddedRest(s: State, n: Node)
    ensures Added(s, n).count == s.count + 1 && Added(s, n).released == s.released
  {
  }

  // ----- The loop of elf_end -----

  lemma {:induction false} DeactivatedIs(v: View, e: nat)
    requires e in v && v[e].activations > 0
    ensures var w := Deactivated(v, e);
      && w.Keys == v.Keys && w[e] == v[e].(activations := v[e].activations - 1)
      && (forall d :: d in w && d != e ==> w[d] == v[d])
  {
  }

  lemma {:induction false} NeededIs(n: Node)
    ensures Needed(n) <==> n.activations > 0 || (n.kind == KindAr && n.nchildren > 0)
  {
  }

  lemma {:induction false} ReleaseEnds(v: View, cur: Option<nat>)
    requires cur.Some? ==> cur.value in v && Needed(v[cur.value])
    ensures ElfLifetime.Release(v, cur) == Released(v, [])
  {
  }

  lemma {:induction false} ReleaseGoesOn(v: View, e: nat, count: nat)
    requires e in v && !Needed(v[e]) && Linked(v, count)
    ensures Linked(Removed(v, e), count)
    ensures var r := ElfLifetime.Release(Removed(v, e), v[e].parent);
      ElfLifetime.Release(v, Some(e)) == Released(r.nodes, [e] + r.chain)
  {
    RemovedLinked(v, e, count);
  }

  lemma {:induction false} AfterOne(calls: seq<Action>, k: nat)
    requires k < |calls| && After(calls[..k]).Some? && Usable(After(calls[..k]).value, calls[k])
    ensures After(calls[..k + 1]) == Some(Next(After(calls[..k]).value, calls[k]))
  {
    hide Next, Usable;
    assert calls[..k + 1][..k] == calls[..k];
  }
}
