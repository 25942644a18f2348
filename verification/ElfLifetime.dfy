/** Lifetimes of libelf descriptors, on plain values: activations, archive members and deferred release. */
module ElfLifetime {
  import opened Sequences
  import opened Options

  datatype Kind = KindNone | KindAr | KindElf
  datatype Cmd = CmdNull | CmdRead | CmdRdwr | CmdWrite | CmdOther

  /** A live descriptor. Descriptors are numbered in the order of their allocation. */
  datatype Node = Node(activations: nat, kind: Kind, parent: Option<nat>, nchildren: int, fd: int, cmd: Cmd)

  type View = map<nat, Node>

  /** The live descriptors, how many have been allocated, and those released, in order. */
  datatype State = State(nodes: View, count: nat, released: seq<nat>)

  const NOTHING: State := State(map[], 0, [])

  // ----- Single changes -----

  /** Why a descriptor is kept: it is active, or it is an archive with open members. */
  predicate Needed(n: Node) {
    n.activations > 0 || (n.kind == KindAr && n.nchildren > 0)
  }

  /** The child count of `p`, if that is a live descriptor, changed by `k`. */
  function Counting(v: View, p: Option<nat>, k: int): View {
    if p.Some? && p.value in v then v[p.value := v[p.value].(nchildren := v[p.value].nchildren + k)] else v
  }

  /** A new descriptor, counted by its parent. */
  function Added(s: State, n: Node): State {
    State(Counting(s.nodes, n.parent, 1)[s.count := n], s.count + 1, s.released)
  }

  /** Descriptor `e` gone, and no longer counted by its parent. */
  function Removed(v: View, e: nat): View
    requires e in v
  {
    Counting(v, v[e].parent, -1) - {e}
  }

  function Deactivated(v: View, e: nat): View
    requires e in v && v[e].activations > 0
  {
    v[e := v[e].(activations := v[e].activations - 1)]
  }

  datatype Released = Released(nodes: View, chain: seq<nat>)

  /** Release `cur` if it is not needed, then its parent if that is no longer needed, and so on. */
  function Release(v: View, cur: Option<nat>): Released
    decreases v.Keys
  {
    if cur.None? || cur.value !in v || Needed(v[cur.value]) then Released(v, [])
    else
      assert Removed(v, cur.value).Keys == v.Keys - {cur.value};
      var r := Release(Removed(v, cur.value), v[cur.value].parent);
      Released(r.nodes, [cur.value] + r.chain)
  }

  // ----- elf_end and elf_begin -----

  function Ends(s: State, e: Option<nat>): State {
    if e.None? || e.value !in s.nodes || s.nodes[e.value].activations == 0 then s
    else
      var r := Release(Deactivated(s.nodes, e.value), e);
      State(r.nodes, s.count, s.released + r.chain)
  }

  /** The activations left, as elf_end returns them. */
  function EndResult(s: State, e: Option<nat>): nat {
    if e.None? || e.value !in s.nodes || s.nodes[e.value].activations == 0 then 0 else s.nodes[e.value].activations - 1
  }

  /** The new state and the descriptor returned, if any. */
  datatype Begun = Begun(s: State, result: Option<nat>)

  /** `image` is what the bytes of the file turn out to be, if they can be mapped and recognised. An archive cannot be
      opened for update: its descriptor is ended at once. */
  function OpensObject(s: State, fd: int, c: Cmd, image: Option<Kind>): Begun {
    if image.None? then Begun(s, None)
    else
      var s' := Added(s, Node(1, image.value, None, 0, fd, c));
      if c == CmdRdwr && image.value == KindAr then Begun(Ends(s', Some(s.count)), None) else Begun(s', Some(s.count))
  }

  /** `member` is what the bytes at the archive's cursor turn out to be, if there is a readable member there. */
  function OpensMember(s: State, fd: int, c: Cmd, ar: nat, member: Option<Kind>): Begun {
    if member.None? then Begun(s, None)
    else Begun(Added(s, Node(1, member.value, Some(ar), 0, fd, c)), Some(s.count))
  }

  function Reactivates(s: State, a: nat): Begun
    requires a in s.nodes
  {
    Begun(s.(nodes := s.nodes[a := s.nodes[a].(activations := s.nodes[a].activations + 1)]), Some(a))
  }

  /** The library version, the truncation of a file to be written and the bytes found are inputs. */
  function Begins(s: State, fd: int, c: Cmd, a: Option<nat>, versionSet: bool, truncated: bool, image: Option<Kind>)
    : Begun
    requires a.Some? ==> a.value in s.nodes
  {
    if !versionSet || c == CmdNull || c == CmdOther || (c != CmdRead && a.Some?) then Begun(s, None)
    else if c == CmdWrite then
      if truncated then Begun(Added(s, Node(1, KindElf, None, 0, fd, c)), Some(s.count)) else Begun(s, None)
    else if a.None? then OpensObject(s, fd, c, image)
    else if s.nodes[a.value].fd != fd || s.nodes[a.value].cmd != c then Begun(s, None)
    else if s.nodes[a.value].kind == KindAr then OpensMember(s, fd, c, a.value, image)
    else Reactivates(s, a.value)
  }

  // ----- Runs -----

  /** A caller's call. The descriptor to begin from or to end is the result of an earlier elf_begin, by number, or
      null. */
  datatype Action =
    | ToBegin(fd: int, c: Cmd, from: Option<nat>, versionSet: bool, truncated: bool, image: Option<Kind>)
    | ToEnd(which: Option<nat>)

  function Subject(call: Action): Option<nat> {
    match call
    case ToBegin(_, _, from, _, _, _) => from
    case ToEnd(which) => which
  }

  /** The library, and what its calls of elf_begin have returned so far. */
  datatype Client = Client(s: State, results: seq<Option<nat>>)

  const START: Client := Client(NOTHING, [])

  /** The descriptor a call names, if it is not null. */
  function Named(results: seq<Option<nat>>, which: Option<nat>): Option<nat> {
    if which.Some? && which.value < |results| then results[which.value] else None
  }

  /** A call may name any descriptor that was returned and has not been released, or null. */
  predicate Usable(cl: Client, call: Action) {
    var which := Subject(call);
    && (which.Some? ==> which.value < |cl.results|)
    && (Named(cl.results, which).Some? ==> Named(cl.results, which).value in cl.s.nodes)
  }

  function Next(cl: Client, call: Action): Client
    requires Usable(cl, call)
  {
    var d := Named(cl.results, Subject(call));
    match call
    case ToBegin(fd, c, _, versionSet, truncated, image) =>
      var b := Begins(cl.s, fd, c, d, versionSet, truncated, image);
      Client(b.s, cl.results + [b.result])
    case ToEnd(_) => cl.(s := Ends(cl.s, d))
  }

  /** The state after all the calls, unless one of them names a released descriptor. */
  function After(calls: seq<Action>): Option<Client>
    decreases |calls|
  {
    if calls == [] then Some(START)
    else
      var n := |calls| - 1;
      var cl := After(calls[..n]);
      if cl.None? || !Usable(cl.value, calls[n]) then None else Some(Next(cl.value, calls[n]))
  }

  function BeginCount(calls: seq<Action>): nat {
    if calls == [] then 0 else BeginCount(calls[..|calls| - 1]) + if calls[|calls| - 1].ToBegin? then 1 else 0
  }

  /** How many calls of elf_begin have returned descriptor `d`. */
  function Opened(calls: seq<Action>, results: seq<Option<nat>>, d: nat): nat {
    if calls == [] then 0
    else
      var n := |calls| - 1;
      Opened(calls[..n], results, d)
      + if calls[n].ToBegin? && Named(results, Some(BeginCount(calls[..n]))) == Some(d) then 1 else 0
  }

  /** How many calls of elf_end have ended an activation of `d`: those that name it while not all are ended. */
  function Closed(calls: seq<Action>, results: seq<Option<nat>>, d: nat): nat {
    if calls == [] then 0
    else
      var n := |calls| - 1;
      var begun, before := Opened(calls[..n], results, d), Closed(calls[..n], results, d);
      before + if calls[n].ToEnd? && Named(results, calls[n].which) == Some(d) && begun > before then 1 else 0
  }

  // ----- What every state satisfies -----

  ghost function Children(v: View, d: nat): set<nat> {
    set c | c in v && v[c].parent == Some(d)
  }

  /** Parents are live archives allocated earlier. */
  ghost predicate Rooted(v: View, count: nat) {
    && (forall d :: d in v ==> d < count)
    && (forall d :: d in v && v[d].parent.Some? ==>
          v[d].parent.value in v && v[v[d].parent.value].kind == KindAr && v[d].parent.value < d)
  }

  /** Child counts are exact. */
  ghost predicate Counted(v: View) {
    forall d :: d in v ==> v[d].nchildren == |Children(v, d)|
  }

  ghost predicate Linked(v: View, count: nat) {
    Rooted(v, count) && Counted(v)
  }

  ghost predicate AllNeeded(v: View, except: Option<nat>) {
    forall d :: d in v && Some(d) != except ==> Needed(v[d])
  }

  /** Nothing is released twice, and every descriptor allocated is either live or released. */
  ghost predicate Accounted(v: View, count: nat, released: seq<nat>) {
    && Distinct(released)
    && (forall d: nat :: d < count <==> d in v || d in released)
    && (forall d :: d in v ==> d !in released)
  }

  ghost predicate Ok(s: State) {
    Linked(s.nodes, s.count) && AllNeeded(s.nodes, None) && Accounted(s.nodes, s.count, s.released)
  }

  // ----- Counting children -----

  lemma {:induction false} SameChildren(v: View, w: View, d: nat)
    requires forall c :: c in w && w[c].parent == Some(d) <==> c in v && v[c].parent == Some(d)
    ensures Children(w, d) == Children(v, d)
  {
  }

  lemma {:induction false} OneMoreChild(v: View, w: View, e: nat, d: nat)
    requires e !in v && forall c :: c in w && w[c].parent == Some(d) <==> (c in v && v[c].parent == Some(d)) || c == e
    ensures |Children(w, d)| == |Children(v, d)| + 1
  {
    assert Children(w, d) == Children(v, d) + {e};
  }

  lemma {:induction false} OneChildFewer(v: View, w: View, e: nat, d: nat)
    requires e in v && v[e].parent == Some(d)
    requires forall c :: c in w && w[c].parent == Some(d) <==> c in v && v[c].parent == Some(d) && c != e
    ensures |Children(w, d)| == |Children(v, d)| - 1
  {
    assert Children(w, d) == Children(v, d) - {e};
    assert e in Children(v, d);
  }

  lemma {:induction false} NoChild(w: View, d: nat)
    requires forall c :: c in w ==> w[c].parent != Some(d)
    ensures |Children(w, d)| == 0
  {
    assert Children(w, d) == {};
  }

  lemma {:induction false} Childless(v: View, d: nat, count: nat)
    requires Linked(v, count) && d in v && !Needed(v[d])
    ensures forall c :: c in v ==> v[c].parent != Some(d)
  {
    if v[d].kind == KindAr {
      assert Children(v, d) == {};
      forall c | c in v ensures v[c].parent != Some(d) { assert c !in Children(v, d); }
    }
  }

  // ----- A new descriptor -----

  lemma {:induction false} AddedIs(s: State, n: Node)
    requires Rooted(s.nodes, s.count) && (n.parent.Some? ==> n.parent.value in s.nodes)
    ensures var w := Added(s, n).nodes;
      && s.count !in s.nodes && w.Keys == s.nodes.Keys + {s.count} && w[s.count] == n
      && (forall d :: d in s.nodes ==>
            w[d] == s.nodes[d].(nchildren := s.nodes[d].nchildren + if Some(d) == n.parent then 1 else 0))
  {
  }

  lemma {:induction false} AddedRooted(s: State, n: Node)
    requires Rooted(s.nodes, s.count)
    requires n.parent.Some? ==> n.parent.value in s.nodes && s.nodes[n.parent.value].kind == KindAr
    ensures Rooted(Added(s, n).nodes, s.count + 1)
  {
    AddedIs(s, n);
    hide Added;
  }

  lemma {:induction false} AddedCounted(s: State, n: Node, d: nat)
    requires Linked(s.nodes, s.count) && n.nchildren == 0 && (n.parent.Some? ==> n.parent.value in s.nodes)
    requires d in s.nodes || d == s.count
    ensures d in Added(s, n).nodes && Added(s, n).nodes[d].nchildren == |Children(Added(s, n).nodes, d)|
  {
    var v, w, e := s.nodes, Added(s, n).nodes, s.count;
    AddedIs(s, n);
    hide Added, Children;
    if d == e {
      NoChild(w, e);
    } else if n.parent == Some(d) {
      OneMoreChild(v, w, e, d);
    } else {
      SameChildren(v, w, d);
    }
  }

  lemma {:induction false} AddedLinked(s: State, n: Node)
    requires Linked(s.nodes, s.count) && n.nchildren == 0
    requires n.parent.Some? ==> n.parent.value in s.nodes && s.nodes[n.parent.value].kind == KindAr
    ensures Linked(Added(s, n).nodes, s.count + 1)
  {
    AddedRooted(s, n);
    AddedIs(s, n);
    var w := Added(s, n).nodes;
    hide Added, Children, Rooted;
    forall d | d in w ensures w[d].nchildren == |Children(w, d)| {
      AddedCounted(s, n, d);
    }
  }

  lemma {:induction false} AddedOk(s: State, n: Node)
    requires Ok(s) && n.activations > 0 && n.nchildren == 0
    requires n.parent.Some? ==> n.parent.value in s.nodes && s.nodes[n.parent.value].kind == KindAr
    ensures Ok(Added(s, n))
  {
    var s' := Added(s, n);
    assert s'.count == s.count + 1 && s'.released == s.released;
    hide Added, Linked, Accounted, AllNeeded;
    AddedLinked(s, n);
    AddedNeeded(s, n);
    AddedAccounted(s.nodes, s'.nodes, s.count, s.released);
  }

  lemma {:induction false} AddedNeeded(s: State, n: Node)
    requires Linked(s.nodes, s.count) && AllNeeded(s.nodes, None) && n.activations > 0
    requires n.parent.Some? ==> n.parent.value in s.nodes
    ensures AllNeeded(Added(s, n).nodes, None) && Added(s, n).nodes.Keys == s.nodes.Keys + {s.count}
  {
    AddedIs(s, n);
    hide Added, Linked;
    var w := Added(s, n).nodes;
    forall d | d in w ensures Needed(w[d]) {
      if d != s.count { assert Needed(s.nodes[d]); }
    }
  }

  lemma {:induction false} AddedAccounted(v: View, w: View, count: nat, released: seq<nat>)
    requires Accounted(v, count, released) && w.Keys == v.Keys + {count}
    ensures Accounted(w, count + 1, released)
  {
    forall d: nat ensures d < count + 1 <==> d in w || d in released {
      assert d < count <==> d in v || d in released;
    }
  }

  /** Changing activations only. */
  lemma {:induction false} SameLinks(v: View, w: View, count: nat)
    requires Linked(v, count)
    requires w.Keys == v.Keys && forall d :: d in v ==> w[d] == v[d].(activations := w[d].activations)
    ensures Linked(w, count)
  {
    hide Children;
    assert Rooted(w, count);
    forall d | d in w ensures w[d].nchildren == |Children(w, d)| {
      SameChildren(v, w, d);
    }
  }

  lemma {:induction false} ActivationsLinked(v: View, e: nat, k: nat, count: nat)
    requires Linked(v, count) && e in v
    ensures Linked(v[e := v[e].(activations := k)], count)
  {
    hide Linked;
    SameLinks(v, v[e := v[e].(activations := k)], count);
  }

  lemma {:induction false} ReactivatesOk(s: State, a: nat)
    requires Ok(s) && a in s.nodes
    ensures Ok(Reactivates(s, a).s)
  {
    hide Linked, Accounted;
    ActivationsLinked(s.nodes, a, s.nodes[a].activations + 1, s.count);
    SameAccounted(s.nodes, Reactivates(s, a).s.nodes, s.count, s.released);
  }

  // ----- Releasing -----

  lemma {:induction false} RemovedIs(v: View, e: nat)
    requires e in v
    ensures var w := Removed(v, e);
      && w.Keys == v.Keys - {e}
      && (forall d :: d in w ==> w[d] == v[d].(nchildren := v[d].nchildren - if Some(d) == v[e].parent then 1 else 0))
  {
  }

  lemma {:induction false} RemovedRooted(v: View, w: View, e: nat, count: nat)
    requires Rooted(v, count) && w.Keys == v.Keys - {e} && forall c :: c in v ==> v[c].parent != Some(e)
    requires forall d :: d in w ==> w[d] == v[d].(nchildren := w[d].nchildren)
    ensures Rooted(w, count)
  {
  }

  lemma {:induction false} RemovedCounted(v: View, e: nat, d: nat)
    requires Counted(v) && e in v && d in v && d != e
    ensures d in Removed(v, e) && Removed(v, e)[d].nchildren == |Children(Removed(v, e), d)|
  {
    var w := Removed(v, e);
    RemovedIs(v, e);
    hide Removed, Children;
    if v[e].parent == Some(d) {
      OneChildFewer(v, w, e, d);
    } else {
      SameChildren(v, w, d);
    }
  }

  lemma {:induction false} RemovedLinked(v: View, e: nat, count: nat)
    requires Linked(v, count) && e in v && !Needed(v[e])
    ensures Linked(Removed(v, e), count)
  {
    Childless(v, e, count);
    var w := Removed(v, e);
    RemovedIs(v, e);
    hide Removed, Children, Needed;
    RemovedRooted(v, w, e, count);
    hide Rooted;
    forall d | d in w ensures w[d].nchildren == |Children(w, d)| {
      RemovedCounted(v, e, d);
    }
  }

  lemma {:induction false} RemovedNeeded(v: View, e: nat)
    requires AllNeeded(v, Some(e)) && e in v
    ensures AllNeeded(Removed(v, e), v[e].parent)
  {
    RemovedIs(v, e);
    hide Removed;
    var w := Removed(v, e);
    forall d | d in w && Some(d) != v[e].parent ensures Needed(w[d]) {
      assert Needed(v[d]);
    }
  }

  /** A chain of descriptors from `cur` up through its parents. */
  ghost predicate Ancestry(v: View, cur: Option<nat>, chain: seq<nat>)
    decreases |chain|
  {
    chain == [] || (cur == Some(chain[0]) && chain[0] in v && Ancestry(v, v[chain[0]].parent, chain[1..]))
  }

  /** What releasing does: the descriptors gone are `cur` and its ancestors in turn, each inactive, and the others are
      as they were but for child counts. */
  ghost predicate Releases(v: View, cur: Option<nat>, r: Released) {
    && (forall d :: d in r.nodes <==> d in v && d !in r.chain)
    && (forall d :: d in r.nodes ==> r.nodes[d] == v[d].(nchildren := r.nodes[d].nchildren))
    && (forall i :: 0 <= i < |r.chain| ==> r.chain[i] in v && v[r.chain[i]].activations == 0)
    && Distinct(r.chain)
    && Ancestry(v, cur, r.chain)
  }

  lemma {:induction false} ReleaseStep(v: View, e: nat, r: Released)
    requires e in v && v[e].activations == 0 && Releases(Removed(v, e), v[e].parent, r)
    ensures Releases(v, Some(e), Released(r.nodes, [e] + r.chain))
  {
    RemovedIs(v, e);
    var w := Removed(v, e);
    hide Removed;
    AncestryKept(v, w, v[e].parent, r.chain);
    FirstAncestor(v, e, r.chain);
    hide Ancestry;
    OneMoreReleased(v, w, e, r);
  }

  lemma {:induction false} OneMoreReleased(v: View, w: View, e: nat, r: Released)
    requires e in v && v[e].activations == 0 && w.Keys == v.Keys - {e}
    requires forall d :: d in w ==> w[d] == v[d].(nchildren := w[d].nchildren)
    requires Releases(w, v[e].parent, r) && Ancestry(v, Some(e), [e] + r.chain)
    ensures Releases(v, Some(e), Released(r.nodes, [e] + r.chain))
  {
    hide Ancestry;
    var chain := [e] + r.chain;
    forall d ensures d in r.nodes <==> d in v && d !in chain {
      assert d in w <==> d in v && d != e;
    }
    forall i | 0 <= i < |chain| ensures chain[i] in v && v[chain[i]].activations == 0 {
      if i > 0 { assert r.chain[i - 1] in w; }
    }
    forall i, j | 0 <= i < j < |chain| ensures chain[i] != chain[j] {
      assert r.chain[j - 1] in w;
    }
  }

  lemma {:induction false} FirstAncestor(v: View, e: nat, chain: seq<nat>)
    requires e in v && Ancestry(v, v[e].parent, chain)
    ensures Ancestry(v, Some(e), [e] + chain)
  {
    assert ([e] + chain)[1..] == chain;
  }

  lemma {:induction false} AncestryKept(v: View, w: View, cur: Option<nat>, chain: seq<nat>)
    requires Ancestry(w, cur, chain) && w.Keys <= v.Keys && forall d :: d in w ==> w[d].parent == v[d].parent
    ensures Ancestry(v, cur, chain)
    decreases |chain|
  {
    if chain != [] {
      AncestryKept(v, w, w[chain[0]].parent, chain[1..]);
    }
  }

  lemma {:induction false} ReleaseIs(v: View, cur: Option<nat>, count: nat)
    requires Linked(v, count) && AllNeeded(v, cur) && (cur.Some? ==> cur.value in v)
    ensures var r := Release(v, cur);
      Linked(r.nodes, count) && AllNeeded(r.nodes, None) && Releases(v, cur, r)
    decreases v.Keys
  {
    if cur.Some? && !Needed(v[cur.value]) {
      var e := cur.value;
      var p := v[e].parent;
      assert p.Some? ==> p.value in v && p.value != e;
      RemovedIs(v, e);
      RemovedLinked(v, e, count);
      RemovedNeeded(v, e);
      hide Removed, Linked, AllNeeded;
      ReleaseIs(Removed(v, e), p, count);
      ReleaseStep(v, e, Release(Removed(v, e), p));
    } else {
      NothingReleased(v, cur);
    }
  }

  lemma {:induction false} NothingReleased(v: View, cur: Option<nat>)
    ensures Releases(v, cur, Released(v, []))
  {
    assert v.Keys - (set d | d in []) == v.Keys;
  }

  /** Ending an activation keeps everything in order. Only ancestors of `e`, inactive ones, are released. */
  lemma {:induction false} EndsOk(s: State, e: nat)
    requires Ok(s) && e in s.nodes && s.nodes[e].activations > 0
    ensures Ok(Ends(s, Some(e)))
    ensures var v := Deactivated(s.nodes, e); var r := Release(v, Some(e));
      Releases(v, Some(e), r) && Ends(s, Some(e)) == State(r.nodes, s.count, s.released + r.chain)
  {
    hide Linked, AllNeeded, Release, Accounted, Releases;
    DeactivatedKeeps(s, e);
    hide Deactivated;
    var v := Deactivated(s.nodes, e);
    ReleaseIs(v, Some(e), s.count);
    StillAccounted(v, Some(e), Release(v, Some(e)), s.count, s.released);
  }

  lemma {:induction false} DeactivatedKeeps(s: State, e: nat)
    requires Ok(s) && e in s.nodes && s.nodes[e].activations > 0
    ensures var v := Deactivated(s.nodes, e);
      e in v && Linked(v, s.count) && AllNeeded(v, Some(e)) && Accounted(v, s.count, s.released)
  {
    hide Linked, Accounted;
    ActivationsLinked(s.nodes, e, s.nodes[e].activations - 1, s.count);
    SameAccounted(s.nodes, Deactivated(s.nodes, e), s.count, s.released);
  }

  lemma {:induction false} SameAccounted(v: View, w: View, count: nat, released: seq<nat>)
    requires Accounted(v, count, released) && w.Keys == v.Keys
    ensures Accounted(w, count, released)
  {
    assert forall d :: d in w <==> d in v;
  }

  lemma {:induction false} StillAccounted(v: View, cur: Option<nat>, r: Released, count: nat, released: seq<nat>)
    requires Accounted(v, count, released) && Releases(v, cur, r)
    ensures Accounted(r.nodes, count, released + r.chain)
  {
    hide Ancestry;
    assert forall i :: 0 <= i < |r.chain| ==> r.chain[i] !in released;
  }

  // ----- Opening and ending at once -----

  /** A descriptor that was needed before is not released: it would need a released member, younger than itself. */
  lemma {:induction false} NotDropped(v: View, w: View, r: Released, e: nat, d: nat, count: nat)
    requires Linked(v, count) && AllNeeded(v, None) && e !in v && d in v && d !in r.nodes
    requires w.Keys == v.Keys + {e} && forall c :: c in v ==> w[c] == v[c].(nchildren := w[c].nchildren)
    requires Releases(w, Some(e), r) && Linked(r.nodes, count + 1)
    ensures false
    decreases count - d
  {
    hide Ancestry;
    assert d in r.chain;
    var i :| 0 <= i < |r.chain| && r.chain[i] == d;
    WhyKept(v, d, count);
    var c :| c in v && v[c].parent == Some(d);
    NotDropped(v, w, r, e, c, count);
  }

  lemma {:induction false} WhyKept(v: View, e: nat, count: nat)
    requires e in v && AllNeeded(v, None) && Linked(v, count)
    ensures v[e].activations > 0 || exists c :: c in v && v[c].parent == Some(e)
  {
    assert Needed(v[e]);
    if v[e].nchildren > 0 {
      assert |Children(v, e)| > 0;
      var c :| c in Children(v, e);
      assert c in v && v[c].parent == Some(e);
    }
  }

  lemma {:induction false} CountRestored(v: View, x: View, d: nat, before: nat, after: nat)
    requires Linked(v, before) && Linked(x, after) && x.Keys == v.Keys && d in v
    requires forall c :: c in v ==> x[c] == v[c].(nchildren := x[c].nchildren)
    ensures x[d] == v[d]
  {
    hide Children, Rooted;
    SameChildren(v, x, d);
  }

  /** Opening a file or a member and ending it at once releases that descriptor only and leaves every other one as it
      was. In particular the archive of the member is still there, with as many open members as before. */
  lemma {:induction false} OpenedAndEnded(s: State, n: Node)
    requires Ok(s) && n.activations == 1 && n.nchildren == 0
    requires n.parent.Some? ==> n.parent.value in s.nodes && s.nodes[n.parent.value].kind == KindAr
    ensures Ends(Added(s, n), Some(s.count)) == State(s.nodes, s.count + 1, s.released + [s.count])
  {
    var s', e := Added(s, n), s.count;
    assert s'.count == s.count + 1 && s'.released == s.released;
    hide Linked, AllNeeded, Accounted, Release, Releases, Needed;
    AddedOk(s, n);
    NewIs(s, n);
    hide Added, Ends;
    DeactivatedKeeps(s', e);
    EndsOk(s', e);
    var w := Deactivated(s'.nodes, e);
    hide Deactivated;
    OnlyNewGone(s, w, e);
  }

  /** A new descriptor and then its activation ended: still the others as they were. */
  lemma {:induction false} NewIs(s: State, n: Node)
    requires Ok(s) && n.activations == 1 && (n.parent.Some? ==> n.parent.value in s.nodes)
    ensures var v := Added(s, n).nodes;
      && s.count in v && v[s.count].activations == 1 && s.count !in s.nodes
      && var w := Deactivated(v, s.count);
         && w.Keys == s.nodes.Keys + {s.count} && w[s.count].activations == 0
         && (forall d :: d in s.nodes ==> w[d] == s.nodes[d].(nchildren := w[d].nchildren))
  {
    AddedIs(s, n);
    hide Added;
  }

  lemma {:induction false} OnlyNewGone(s: State, w: View, e: nat)
    requires Ok(s) && e == s.count && e !in s.nodes && Linked(w, s.count + 1) && AllNeeded(w, Some(e))
    requires w.Keys == s.nodes.Keys + {e} && w[e].activations == 0
    requires forall d :: d in s.nodes ==> w[d] == s.nodes[d].(nchildren := w[d].nchildren)
    ensures Release(w, Some(e)) == Released(s.nodes, [e])
  {
    hide Linked, AllNeeded, Accounted, Release, Releases, Needed;
    ReleaseIs(w, Some(e), s.count + 1);
    NewIsGone(s, w, e);
    var r := Release(w, Some(e));
    forall d | d in s.nodes ensures d in r.nodes {
      if d !in r.nodes { NotDropped(s.nodes, w, r, e, d, s.count); }
    }
    JustOne(s.nodes, w, r, e);
    SameNodes(s.nodes, w, r, e);
    forall d | d in s.nodes ensures r.nodes[d] == s.nodes[d] {
      CountRestored(s.nodes, r.nodes, d, s.count, s.count + 1);
    }
    assert r.nodes == s.nodes;
  }

  lemma {:induction false} SameNodes(v: View, w: View, r: Released, e: nat)
    requires Releases(w, Some(e), r) && r.nodes.Keys == v.Keys <= w.Keys
    requires forall d :: d in v ==> w[d] == v[d].(nchildren := w[d].nchildren)
    ensures forall d :: d in v ==> r.nodes[d] == v[d].(nchildren := r.nodes[d].nchildren)
  {
  }

  lemma {:induction false} NewIsGone(s: State, w: View, e: nat)
    requires Linked(s.nodes, s.count) && e == s.count && e in w && w[e].activations == 0 && Linked(w, s.count + 1)
    requires w.Keys == s.nodes.Keys + {e} && forall d :: d in s.nodes ==> w[d].parent == s.nodes[d].parent
    ensures !Needed(w[e]) && e !in Release(w, Some(e)).nodes && Release(w, Some(e)).chain != []
  {
    NoChild(w, e);
    RemovedIs(w, e);
    hide Children, Removed;
    ReleaseShrinks(Removed(w, e), w[e].parent);
  }

  lemma {:induction false} ReleaseShrinks(v: View, cur: Option<nat>)
    ensures Release(v, cur).nodes.Keys <= v.Keys
    decreases v.Keys
  {
    if cur.Some? && cur.value in v && !Needed(v[cur.value]) {
      RemovedIs(v, cur.value);
      ReleaseShrinks(Removed(v, cur.value), v[cur.value].parent);
    }
  }

  lemma {:induction false} JustOne(v: View, w: View, r: Released, e: nat)
    requires Releases(w, Some(e), r) && w.Keys == v.Keys + {e} && e !in v && e !in r.nodes
    requires forall d :: d in v ==> d in r.nodes
    ensures r.chain == [e] && r.nodes.Keys == v.Keys
  {
    hide Ancestry;
    forall i | 0 <= i < |r.chain| ensures r.chain[i] == e {
      assert r.chain[i] in r.chain;
    }
    assert e in r.chain && r.chain[0] == e;
    if |r.chain| > 1 {
      NotDistinct(r.chain, e);
    }
  }

  lemma {:induction false} NotDistinct(s: seq<nat>, e: nat)
    requires |s| > 1 && forall i :: 0 <= i < |s| ==> s[i] == e
    ensures !Distinct(s)
  {
    assert s[0] == s[1];
  }

  // ----- Every call, every run -----

  lemma {:induction false} BeginsOk(s: State, fd: int, c: Cmd, a: Option<nat>, versionSet: bool, truncated: bool,
                                    image: Option<Kind>)
    requires Ok(s) && (a.Some? ==> a.value in s.nodes)
    ensures Ok(Begins(s, fd, c, a, versionSet, truncated, image).s)
  {
    hide Ok, Added, Ends, Reactivates;
    AddedOk(s, Node(1, KindElf, None, 0, fd, c));
    if image.Some? {
      AddedOk(s, Node(1, image.value, None, 0, fd, c));
      NewIsActive(s, Node(1, image.value, None, 0, fd, c));
      EndsOk(Added(s, Node(1, image.value, None, 0, fd, c)), s.count);
    }
    if a.Some? {
      ReactivatesOk(s, a.value);
      if s.nodes[a.value].kind == KindAr && image.Some? {
        AddedOk(s, Node(1, image.value, Some(a.value), 0, fd, c));
      }
    }
  }

  lemma {:induction false} NewIsActive(s: State, n: Node)
    ensures s.count in Added(s, n).nodes && Added(s, n).nodes[s.count] == n
  {
  }

  lemma {:induction false} NextOk(cl: Client, call: Action)
    requires Ok(cl.s) && Usable(cl, call)
    ensures Ok(Next(cl, call).s)
  {
    hide Ok, Begins;
    var d := Named(cl.results, Subject(call));
    match call {
      case ToBegin(fd, c, _, versionSet, truncated, image) => BeginsOk(cl.s, fd, c, d, versionSet, truncated, image);
      case ToEnd(_) => if d.Some? && cl.s.nodes[d.value].activations > 0 { EndsOk(cl.s, d.value); }
    }
  }

  // ----- Activations, as the caller can count them -----

  /** The activations of a descriptor, none if it is not live. */
  function Activations(s: State, d: nat): nat {
    if d in s.nodes then s.nodes[d].activations else 0
  }

  lemma {:induction false} AddedActivations(s: State, n: Node, d: nat)
    requires Ok(s) && n.activations == 1 && (n.parent.Some? ==> n.parent.value in s.nodes)
    ensures Activations(Added(s, n), d) == Activations(s, d) + if d == s.count then 1 else 0
  {
    AddedIs(s, n);
    hide Added, AllNeeded, Accounted;
  }

  lemma {:induction false} BeginsActivates(s: State, fd: int, c: Cmd, a: Option<nat>, versionSet: bool,
                                           truncated: bool, image: Option<Kind>, d: nat)
    requires Ok(s) && (a.Some? ==> a.value in s.nodes)
    ensures var b := Begins(s, fd, c, a, versionSet, truncated, image);
      Activations(b.s, d) == Activations(s, d) + if b.result == Some(d) then 1 else 0
  {
    hide Ok, Added, Ends;
    AddedActivations(s, Node(1, KindElf, None, 0, fd, c), d);
    if image.Some? {
      AddedActivations(s, Node(1, image.value, None, 0, fd, c), d);
      OpenedAndEnded(s, Node(1, image.value, None, 0, fd, c));
      if a.Some? {
        AddedActivations(s, Node(1, image.value, a, 0, fd, c), d);
      }
    }
  }

  lemma {:induction false} EndsDeactivates(s: State, e: Option<nat>, d: nat)
    requires Ok(s)
    ensures Activations(Ends(s, e), d) == Activations(s, d) - if e == Some(d) && Activations(s, d) > 0 then 1 else 0
  {
    if e.Some? && e.value in s.nodes && s.nodes[e.value].activations > 0 {
      EndsOk(s, e.value);
      hide Ok, Ends, Release, Ancestry;
      var v := Deactivated(s.nodes, e.value);
      var r := Release(v, e);
      assert d in r.nodes <==> d in v && d !in r.chain;
    }
  }

  /** Calls name results that were there when `n` had been returned. */
  predicate Within(calls: seq<Action>, n: nat) {
    forall k :: 0 <= k < |calls| && Subject(calls[k]).Some? ==> Subject(calls[k]).value < n
  }

  lemma {:induction false} MoreResults(calls: seq<Action>, results: seq<Option<nat>>, x: Option<nat>, d: nat)
    requires BeginCount(calls) <= |results| && Within(calls, |results|)
    ensures Opened(calls, results + [x], d) == Opened(calls, results, d)
    ensures Closed(calls, results + [x], d) == Closed(calls, results, d)
  {
    if calls != [] {
      var n := |calls| - 1;
      assert Within(calls[..n], |results|) by { assert forall k :: 0 <= k < n ==> calls[..n][k] == calls[k]; }
      MoreResults(calls[..n], results, x, d);
      var b := BeginCount(calls[..n]);
      assert calls[n].ToBegin? ==> Named(results + [x], Some(b)) == Named(results, Some(b));
      assert calls[n].ToEnd? ==> Named(results + [x], calls[n].which) == Named(results, calls[n].which) by {
        assert Subject(calls[n]).Some? ==> Subject(calls[n]).value < |results|;
      }
    }
  }

  /** The state matches what the calls and their results say. */
  ghost predicate Matches(calls: seq<Action>, cl: Client) {
    && Ok(cl.s) && |cl.results| == BeginCount(calls) && Within(calls, |cl.results|)
    && forall d :: Activations(cl.s, d) == Opened(calls, cl.results, d) - Closed(calls, cl.results, d)
  }

  lemma {:induction false} MatchesBegin(calls: seq<Action>, cl: Client, call: Action)
    requires Matches(calls, cl) && call.ToBegin? && Usable(cl, call)
    ensures Matches(calls + [call], Next(cl, call))
  {
    NextOk(cl, call);
    hide Ok, Begins;
    var all, cl', n := calls + [call], Next(cl, call), |calls|;
    assert all[..n] == calls && all[n] == call;
    var a, x := Named(cl.results, call.from), cl'.results[|cl.results|];
    assert cl'.results == cl.results + [x];
    forall d ensures Activations(cl'.s, d) == Opened(all, cl'.results, d) - Closed(all, cl'.results, d) {
      BeginsActivates(cl.s, call.fd, call.c, a, call.versionSet, call.truncated, call.image, d);
      MoreResults(calls, cl.results, x, d);
      assert Named(cl'.results, Some(BeginCount(calls))) == x;
    }
  }

  lemma {:induction false} MatchesEnd(calls: seq<Action>, cl: Client, call: Action)
    requires Matches(calls, cl) && call.ToEnd? && Usable(cl, call)
    ensures Matches(calls + [call], Next(cl, call))
  {
    NextOk(cl, call);
    hide Ok, Ends;
    var all, cl', n := calls + [call], Next(cl, call), |calls|;
    assert all[..n] == calls && all[n] == call;
    forall d ensures Activations(cl'.s, d) == Opened(all, cl'.results, d) - Closed(all, cl'.results, d) {
      EndsDeactivates(cl.s, Named(cl.results, call.which), d);
    }
  }

  /** In every run the activations of a descriptor are the begins that returned it without the ends that took
      effect. */
  lemma {:induction false} RunMatches(calls: seq<Action>)
    ensures After(calls).Some? ==> Matches(calls, After(calls).value)
    decreases |calls|
  {
    hide Matches, Next, Usable;
    if calls == [] {
      StartMatches();
    } else if After(calls).Some? {
      var n := |calls| - 1;
      RunMatches(calls[..n]);
      assert calls == calls[..n] + [calls[n]];
      if calls[n].ToBegin? {
        MatchesBegin(calls[..n], After(calls[..n]).value, calls[n]);
      } else {
        MatchesEnd(calls[..n], After(calls[..n]).value, calls[n]);
      }
    }
  }

  lemma {:induction false} StartMatches()
    ensures Matches([], START)
  {
  }

  // ----- Nothing is left -----

  /** If no descriptor is active nothing is live: a descriptor kept alive only by its members would need a member
      younger than every live descriptor. */
  lemma {:induction false} NothingLeft(v: View, count: nat)
    requires Linked(v, count) && AllNeeded(v, None)
    requires forall d :: d in v ==> v[d].activations == 0
    ensures v == map[]
  {
    if v != map[] {
      var d :| d in v;
      NoOldest(v, count, d);
    }
  }

  lemma {:induction false} NoOldest(v: View, count: nat, d: nat)
    requires Linked(v, count) && AllNeeded(v, None) && d in v
    requires forall c :: c in v ==> v[c].activations == 0
    ensures false
    decreases count - d
  {
    WhyKept(v, d, count);
    var c :| c in v && v[c].parent == Some(d);
    NoOldest(v, count, c);
  }

  /** `released` lists the numbers below `count`, each one once. */
  ghost predicate ExactlyOnce(count: nat, released: seq<nat>) {
    && (forall d: nat :: d < count <==> d in released)
    && Distinct(released)
  }

  /** Every activation the caller obtained has been ended. */
  ghost predicate Balanced(calls: seq<Action>, results: seq<Option<nat>>) {
    forall d :: Opened(calls, results, d) == Closed(calls, results, d)
  }

  /** After any calls nothing is live exactly when each descriptor has been ended as often as it was returned, and then
      every descriptor ever allocated has been released exactly once. */
  lemma {:induction false} BalancedLeavesNothing(calls: seq<Action>)
    requires After(calls).Some?
    ensures var cl := After(calls).value;
      && (cl.s.nodes == map[] <==> Balanced(calls, cl.results))
      && (cl.s.nodes == map[] ==> ExactlyOnce(cl.s.count, cl.s.released))
  {
    RunMatches(calls);
    hide After, Linked, AllNeeded, Opened, Closed;
    var cl := After(calls).value;
    if Balanced(calls, cl.results) {
      forall d | d in cl.s.nodes ensures cl.s.nodes[d].activations == 0 {
        assert Activations(cl.s, d) == 0;
      }
      NothingLeft(cl.s.nodes, cl.s.count);
    }
    if cl.s.nodes == map[] {
      forall d ensures Opened(calls, cl.results, d) == Closed(calls, cl.results, d) {
        assert Activations(cl.s, d) == 0;
      }
    }
  }

  // ----- What a call does -----

  /** Beginning from an archive opens the member at its cursor: a new descriptor below the archive, which counts it and
      is otherwise as it was. */
  lemma {:induction false} BeginsMember(s: State, fd: int, a: nat, truncated: bool, member: Option<Kind>)
    requires Ok(s) && a in s.nodes && s.nodes[a].kind == KindAr && s.nodes[a].fd == fd && s.nodes[a].cmd == CmdRead
    ensures var b := Begins(s, fd, CmdRead, Some(a), true, truncated, member);
      && (member.None? ==> b == Begun(s, None))
      && (member.Some? ==>
            && b.result == Some(s.count) && b.s.count == s.count + 1 && b.s.released == s.released
            && b.s.nodes.Keys == s.nodes.Keys + {s.count} && s.count !in s.nodes
            && b.s.nodes[s.count] == Node(1, member.value, Some(a), 0, fd, CmdRead)
            && (forall d :: d in s.nodes ==>
                  b.s.nodes[d] == s.nodes[d].(nchildren := s.nodes[d].nchildren + if d == a then 1 else 0)))
  {
    if member.Some? {
      AddedIs(s, Node(1, member.value, Some(a), 0, fd, CmdRead));
    }
  }

  /** Beginning from any other descriptor gives that descriptor one more activation. */
  lemma {:induction false} BeginsAgain(s: State, fd: int, a: nat, truncated: bool, image: Option<Kind>)
    requires a in s.nodes && s.nodes[a].kind != KindAr && s.nodes[a].fd == fd && s.nodes[a].cmd == CmdRead
    ensures var b := Begins(s, fd, CmdRead, Some(a), true, truncated, image);
      && b.result == Some(a) && b.s.count == s.count && b.s.released == s.released
      && b.s.nodes.Keys == s.nodes.Keys && Activations(b.s, a) == Activations(s, a) + 1
      && (forall d :: d in s.nodes && d != a ==> b.s.nodes[d] == s.nodes[d])
      && b.s.nodes[a] == s.nodes[a].(activations := b.s.nodes[a].activations)
  {
    assert s.nodes.Keys + {a} == s.nodes.Keys;
  }

  /** Beginning from a file gives a new descriptor without a parent, of the kind of the file. */
  lemma {:induction false} BeginsFile(s: State, fd: int, c: Cmd, truncated: bool, image: Option<Kind>)
    requires Ok(s)
    ensures var b := Begins(s, fd, c, None, true, truncated, image);
      b.result.Some? ==>
        && b.result == Some(s.count) && b.s.count == s.count + 1 && b.s.released == s.released
        && b.s.nodes == s.nodes[s.count := Node(1, if c == CmdWrite then KindElf else image.value, None, 0, fd, c)]
  {
  }

  /** Exactly when nothing is returned. */
  lemma {:induction false} BeginsNothing(s: State, fd: int, c: Cmd, a: Option<nat>, versionSet: bool, truncated: bool,
                                         image: Option<Kind>)
    requires a.Some? ==> a.value in s.nodes
    ensures Begins(s, fd, c, a, versionSet, truncated, image).result.Some? <==>
      && versionSet
      && match c
         case CmdRead =>
           if a.None? then image.Some?
           else
             var n := s.nodes[a.value];
             n.fd == fd && n.cmd == CmdRead && (n.kind == KindAr ==> image.Some?)
         case CmdRdwr => a.None? && image.Some? && image.value != KindAr
         case CmdWrite => a.None? && truncated
         case CmdNull | CmdOther => false
  {
  }

  /** elf_end returns the activations that are left. */
  lemma {:induction false} EndResultIs(s: State, e: nat)
    requires Ok(s)
    ensures EndResult(s, Some(e)) == Activations(Ends(s, Some(e)), e)
  {
    EndsDeactivates(s, Some(e), e);
    hide Ok, Ends;
  }

  /** Ending any descriptor keeps every one that is still active, and all the archives around it. */
  lemma {:induction false} AncestorsKept(s: State, e: Option<nat>, d: nat, chain: seq<nat>)
    requires Ok(s) && Activations(Ends(s, e), d) > 0 && Ancestry(s.nodes, Some(d), chain)
    ensures forall k :: 0 <= k < |chain| ==> chain[k] in Ends(s, e).nodes
  {
    var s' := Ends(s, e);
    if e.Some? && e.value in s.nodes && s.nodes[e.value].activations > 0 {
      EndsOk(s, e.value);
      SameParents(s, e.value);
    }
    hide Ends, Ok;
    AncestorsLive(s.nodes, s'.nodes, s'.count, Some(d), chain);
  }

  lemma {:induction false} SameParents(s: State, e: nat)
    requires Ok(s) && e in s.nodes && s.nodes[e].activations > 0
    ensures var v := Ends(s, Some(e)).nodes;
      v.Keys <= s.nodes.Keys && forall d :: d in v ==> v[d].parent == s.nodes[d].parent
  {
    EndsOk(s, e);
    hide Ok, Ends, Release, Ancestry;
  }

  lemma {:induction false} AncestorsLive(v: View, w: View, count: nat, cur: Option<nat>, chain: seq<nat>)
    requires Rooted(w, count) && (cur.Some? ==> cur.value in w) && Ancestry(v, cur, chain)
    requires forall d :: d in w ==> d in v && w[d].parent == v[d].parent
    ensures forall k :: 0 <= k < |chain| ==> chain[k] in w
    decreases |chain|
  {
    if chain != [] {
      AncestorsLive(v, w, count, v[chain[0]].parent, chain[1..]);
      assert chain == [chain[0]] + chain[1..];
    }
  }

  // ----- A member of a member -----

  /** Open an archive, an archive in it and a member of that one; end them from the outside in. */
  function NestedCalls(fd: int, k: Kind): seq<Action> {
    [ToBegin(fd, CmdRead, None, true, false, Some(KindAr)), ToBegin(fd, CmdRead, Some(0), true, false, Some(KindAr)),
     ToBegin(fd, CmdRead, Some(1), true, false, Some(k)), ToEnd(Some(0)), ToEnd(Some(1)), ToEnd(Some(2))]
  }

  /** Both archives stay, without activations, until the innermost member is ended; then all are released, that member
      first. */
  lemma {:induction false} NestedRun(fd: int, k: Kind)
    ensures var calls := NestedCalls(fd, k);
      && (var r := After(calls[..5]);
          && r.Some? && r.value.results == [Some(0), Some(1), Some(2)] && r.value.s.released == []
          && r.value.s.nodes == map[0 := Node(0, KindAr, None, 1, fd, CmdRead),
                                    1 := Node(0, KindAr, Some(0), 1, fd, CmdRead),
                                    2 := Node(1, k, Some(1), 0, fd, CmdRead)])
      && (var r := After(calls); r.Some? && r.value.s == State(map[], 3, [2, 1, 0]))
  {
    NestedOpen(fd, k);
    NestedEnds(fd, k);
  }

  function NestedState(fd: int, k: Kind, outer: nat, inner: nat): State {
    State(map[0 := Node(outer, KindAr, None, 1, fd, CmdRead), 1 := Node(inner, KindAr, Some(0), 1, fd, CmdRead),
              2 := Node(1, k, Some(1), 0, fd, CmdRead)], 3, [])
  }

  lemma {:induction false} NestedOpen(fd: int, k: Kind)
    ensures After(NestedCalls(fd, k)[..3]) == Some(Client(NestedState(fd, k, 1, 1), [Some(0), Some(1), Some(2)]))
  {
    var calls := NestedCalls(fd, k);
    assert calls[..0] == [] && calls[..3][..2] == calls[..2] && calls[..2][..1] == calls[..1] && calls[..1][..0] == [];
    var n := Node(1, KindAr, None, 0, fd, CmdRead);
    assert After(calls[..0]) == Some(START);
    assert Next(START, calls[0]) == Client(State(map[0 := n], 1, []), [Some(0)]);
    assert After(calls[..1]) == Some(Client(State(map[0 := n], 1, []), [Some(0)]));
    var m := Node(1, KindAr, Some(0), 0, fd, CmdRead);
    var two := State(map[0 := n.(nchildren := 1), 1 := m], 2, []);
    assert Next(Client(State(map[0 := n], 1, []), [Some(0)]), calls[1]) == Client(two, [Some(0), Some(1)]);
    assert Next(Client(two, [Some(0), Some(1)]), calls[2]) ==
           Client(NestedState(fd, k, 1, 1), [Some(0), Some(1), Some(2)]);
  }

  lemma {:induction false} NestedEnds(fd: int, k: Kind)
    requires After(NestedCalls(fd, k)[..3]) == Some(Client(NestedState(fd, k, 1, 1), [Some(0), Some(1), Some(2)]))
    ensures After(NestedCalls(fd, k)[..5]) == Some(Client(NestedState(fd, k, 0, 0), [Some(0), Some(1), Some(2)]))
    ensures After(NestedCalls(fd, k)) == Some(Client(State(map[], 3, [2, 1, 0]), [Some(0), Some(1), Some(2)]))
  {
    var calls := NestedCalls(fd, k);
    assert calls[..6] == calls && calls[..6][..5] == calls[..5] && calls[..5][..4] == calls[..4]
        && calls[..4][..3] == calls[..3];
    EndOuter(fd, k);
    EndInner(fd, k);
    EndMember(fd, k);
    hide Ends;
  }

  lemma {:induction false} EndOuter(fd: int, k: Kind)
    ensures Ends(NestedState(fd, k, 1, 1), Some(0)) == NestedState(fd, k, 0, 1)
  {
    assert Deactivated(NestedState(fd, k, 1, 1).nodes, 0) == NestedState(fd, k, 0, 1).nodes;
  }

  lemma {:induction false} EndInner(fd: int, k: Kind)
    ensures Ends(NestedState(fd, k, 0, 1), Some(1)) == NestedState(fd, k, 0, 0)
  {
    assert Deactivated(NestedState(fd, k, 0, 1).nodes, 1) == NestedState(fd, k, 0, 0).nodes;
  }

  lemma {:induction false} EndMember(fd: int, k: Kind)
    ensures Ends(NestedState(fd, k, 0, 0), Some(2)) == State(map[], 3, [2, 1, 0])
  {
    var outer, inner := Node(0, KindAr, None, 1, fd, CmdRead), Node(0, KindAr, Some(0), 1, fd, CmdRead);
    var v := Deactivated(NestedState(fd, k, 0, 0).nodes, 2);
    var v1 := map[0 := outer, 1 := inner.(nchildren := 0)];
    var v0 := map[0 := outer.(nchildren := 0)];
    assert Removed(v, 2) == v1;
    assert Removed(v1, 1) == v0;
    assert Removed(v0, 0) == map[];
    assert Release(map[], None) == Released(map[], []);
    assert Release(v0, Some(0)) == Released(map[], [0]);
    assert Release(v1, Some(1)) == Released(map[], [1, 0]);
    assert Release(v, Some(2)) == Released(map[], [2, 1, 0]);
  }
}
