/** elf_update: the layout passes and the in-memory part of the image writer. */
module ElfUpdate {
  import opened Options
  import opened ElfModel
  import opened ElfLayout
  import opened ElfImage
  import opened Numbers

  // ----- Filling the image buffer -----

  method Memset(a: array<bv8>, from: nat, to: nat, c: bv8)
    requires from <= to <= a.Length
    modifies a
    ensures a[..to] == old(a[..from]) + Pad(to - from, c)
  {
    var k := from;
    while k < to
      invariant from <= k <= to
      invariant a[..from] == old(a[..from])
      invariant forall i :: from <= i < k ==> a[i] == c
    {
      a[k] := c;
      k := k + 1;
    }
    assert a[..to] == a[..from] + a[from..to];
  }

  method CopyIn(a: array<bv8>, at: nat, src: Bytes)
    requires at + |src| <= a.Length
    modifies a
    ensures a[..at + |src|] == old(a[..at]) + src
  {
    var k := 0;
    while k < |src|
      invariant 0 <= k <= |src|
      invariant a[..at] == old(a[..at])
      invariant forall i :: 0 <= i < k ==> a[at + i] == src[i]
    {
      a[at + k] := src[k];
      k := k + 1;
    }
    assert a[..at + |src|] == a[..at] + a[at..at + |src|];
  }

  /** The first `rc` bytes of the buffer hold exactly the pieces `ps`. */
  ghost predicate Holds(a: array<bv8>, rc: nat, ps: seq<Piece>, fill: bv8)
    reads a
  {
    Sorted(ps, 0) && rc == RenderEnd(ps, 0) <= a.Length && a[..rc] == Render(ps, 0, fill)
  }

  /** Pad up to a piece and write it. */
  method Emit(a: array<bv8>, rc: nat, p: Piece, fill: bv8, ghost done: seq<Piece>) returns (nrc: nat)
    requires Holds(a, rc, done, fill) && rc <= p.at && PieceEnd(p) <= a.Length
    modifies a
    ensures Holds(a, nrc, done + [p], fill) && nrc == PieceEnd(p)
  {
    if rc < p.at {
      Memset(a, rc, p.at, fill);
    }
    assert a[..p.at] == Render(done, 0, fill) + Pad(p.at - rc, fill);
    CopyIn(a, p.at, p.bytes);
    nrc := p.at + |p.bytes|;
    AppendPiece(done, p, fill);
  }

  lemma {:induction false} AppendPiece(done: seq<Piece>, p: Piece, fill: bv8)
    requires Sorted(done, 0) && RenderEnd(done, 0) <= p.at
    ensures Sorted(done + [p], 0) && RenderEnd(done + [p], 0) == PieceEnd(p)
    ensures Render(done + [p], 0, fill) == Render(done, 0, fill) + Pad(p.at - RenderEnd(done, 0), fill) + p.bytes
  {
    var rc := RenderEnd(done, 0);
    assert [p][1..] == [];
    assert Sorted([p], rc) && RenderEnd([p], rc) == PieceEnd(p);
    SortedConcat(done, [p], 0);
    RenderConcat(done, [p], 0, fill);
    assert Render([p], rc, fill) == Pad(p.at - rc, fill) + p.bytes + [];
  }

  // ----- What the writer accepts -----

  /** An operation either succeeds, reports an error, or stops at a failed assertion. */
  datatype Verdict = Ok | Reject(error: Error) | Abort

  function DataVerdict(ds: seq<Data>, t: ElfType, ec: ElfClass): Verdict
    requires Msize(t, ec) > 0
  {
    if ds == [] then Ok
    else if ds[0].buf.None? || ds[0].size % Msize(t, ec) != 0 then Abort
    else if ds[0].size == 0 || !ds[0].hostAligned then Reject(DataError)
    else DataVerdict(ds[1..], t, ec)
  }

  function ScnVerdict(s: Scn, ec: ElfClass): Verdict {
    if !Occupies(s) then Ok
    else if TypeOf(s.shdr.typ).None? then Abort
    else
      var t := TypeOf(s.shdr.typ).value;
      if s.offset % Falign(t, ec) != 0 then Abort
      else if s.data == [] then Reject(ArgumentError)
      else DataVerdict(s.data, t, ec)
  }

  predicate Typed(ss: seq<Scn>) {
    forall i {:trigger ss[i]} :: 0 <= i < |ss| && Occupies(ss[i]) ==> TypedScn(ss[i])
  }

  /** Every descriptor has the section's type, and its buffer, if any, has the size it claims. */
  predicate TypedScn(s: Scn) {
    && TypeOf(s.shdr.typ).Some?
    && forall i {:trigger s.data[i]} :: 0 <= i < |s.data| ==>
         && s.data[i].typ == TypeOf(s.shdr.typ).value
         && (s.data[i].buf.Some? ==> |s.data[i].buf.value| == s.data[i].size)
  }

  function ScnsVerdict(ss: seq<Scn>, ec: ElfClass): Verdict {
    if ss == [] then Ok
    else if ScnVerdict(ss[0], ec) != Ok then ScnVerdict(ss[0], ec)
    else ScnsVerdict(ss[1..], ec)
  }

  lemma {:induction false} DataVerdictIs(ds: seq<Data>, t: ElfType, ec: ElfClass)
    requires Msize(t, ec) > 0
    requires forall i {:trigger ds[i]} :: 0 <= i < |ds| ==>
               ds[i].typ == t && (ds[i].buf.Some? ==> |ds[i].buf.value| == ds[i].size)
    ensures DataVerdict(ds, t, ec) == Ok <==> AllWritable(ds, ec)
  {
    hide Msize;
    if ds != [] {
      DataVerdictIs(ds[1..], t, ec);
      assert AllWritable(ds, ec) <==> WritableData(ds[0], ec) && AllWritable(ds[1..], ec) by {
        if WritableData(ds[0], ec) && AllWritable(ds[1..], ec) {
          forall i | 0 <= i < |ds| ensures WritableData(ds[i], ec) {
            if i > 0 { assert ds[i] == ds[1..][i - 1]; }
          }
        }
      }
    }
  }

  /** The writer stops at the first descriptor it cannot encode: at an assertion if there is no buffer or its size is
      not a whole number of objects, with an error if it is empty or misaligned in memory. */
  lemma {:induction false} DataVerdictKind(ds: seq<Data>, t: ElfType, ec: ElfClass)
    requires Msize(t, ec) > 0 && DataVerdict(ds, t, ec) != Ok
    ensures exists k :: 0 <= k < |ds| && DataStops(ds[k], t, ec) == DataVerdict(ds, t, ec)
                     && forall i :: 0 <= i < k ==> DataStops(ds[i], t, ec) == Ok
  {
    var v := DataVerdict(ds, t, ec);
    assert ds != [];
    FirstVerdict(ds, t, ec);
    hide Msize, DataStops, DataVerdict;
    if DataStops(ds[0], t, ec) == Ok {
      DataVerdictKind(ds[1..], t, ec);
      var k :| 0 <= k < |ds[1..]| && DataStops(ds[1..][k], t, ec) == v
               && forall i :: 0 <= i < k ==> DataStops(ds[1..][i], t, ec) == Ok;
      assert ds == [ds[0]] + ds[1..];
      assert DataStops(ds[k + 1], t, ec) == v;
    }
  }

  /** The verdict on one descriptor. */
  function DataStops(d: Data, t: ElfType, ec: ElfClass): Verdict
    requires Msize(t, ec) > 0
  {
    var whole := d.buf.Some? && d.size % Msize(t, ec) == 0;
    if whole && d.size > 0 && d.hostAligned then Ok
    else if whole then Reject(DataError)
    else Abort
  }

  lemma {:induction false} FirstVerdict(ds: seq<Data>, t: ElfType, ec: ElfClass)
    requires Msize(t, ec) > 0 && ds != []
    ensures DataVerdict(ds, t, ec) ==
      if DataStops(ds[0], t, ec) == Ok then DataVerdict(ds[1..], t, ec) else DataStops(ds[0], t, ec)
  {
    hide Msize;
  }

  /** The first section with a verdict other than Ok gives the verdict of all. */
  lemma {:induction false} ScnsVerdictKind(ss: seq<Scn>, ec: ElfClass)
    requires ScnsVerdict(ss, ec) != Ok
    ensures exists k :: 0 <= k < |ss| && ScnVerdict(ss[k], ec) == ScnsVerdict(ss, ec)
                     && forall i :: 0 <= i < k ==> ScnVerdict(ss[i], ec) == Ok
  {
    var v := ScnsVerdict(ss, ec);
    hide ScnVerdict;
    if ScnVerdict(ss[0], ec) == Ok {
      ScnsVerdictKind(ss[1..], ec);
      var k :| 0 <= k < |ss[1..]| && ScnVerdict(ss[1..][k], ec) == v
               && forall i :: 0 <= i < k ==> ScnVerdict(ss[1..][i], ec) == Ok;
      assert ss == [ss[0]] + ss[1..];
      assert ScnVerdict(ss[k + 1], ec) == v;
    }
  }

  predicate AllScnsWritable(ss: seq<Scn>, ec: ElfClass) {
    forall i {:trigger ss[i]} :: 0 <= i < |ss| && Occupies(ss[i]) ==> WritableScn(ss[i], ec)
  }

  /** The writer accepts exactly the section lists whose file-occupying sections are all writable. */
  lemma {:induction false} ScnsVerdictIs(ss: seq<Scn>, ec: ElfClass)
    requires Typed(ss)
    ensures ScnsVerdict(ss, ec) == Ok <==> AllScnsWritable(ss, ec)
  {
    hide TypeOf, Falign, Fsize, Msize, DataVerdict, AllWritable;
    if ss != [] {
      ScnsVerdictIs(ss[1..], ec);
      ScnVerdictIs(ss[0], ec);
      if ScnsVerdict(ss, ec) == Ok {
        forall i | 0 <= i < |ss| && Occupies(ss[i]) ensures WritableScn(ss[i], ec) {
          if i > 0 { assert ss[i] == ss[1..][i - 1]; }
        }
      }
    }
  }

  lemma {:induction false} ScnVerdictIs(s: Scn, ec: ElfClass)
    requires Occupies(s) ==> TypedScn(s)
    ensures ScnVerdict(s, ec) == Ok <==> (Occupies(s) ==> WritableScn(s, ec))
  {
    if Occupies(s) {
      var t := TypeOf(s.shdr.typ).value;
      assert Falign(t, ec) > 0 && Fsize(t, ec) > 0;
      MemoryIsNoSmaller(t, ec);
      hide TypeOf, Falign, Fsize, Msize;
      DataVerdictIs(s.data, t, ec);
    }
  }

  // ----- Writing sections -----

  /** Write one section's descriptors after what is already `done`. */
  method WriteScn(a: array<bv8>, s: Scn, rc0: nat, fill: bv8, ec: ElfClass, c: Codec, ghost done: seq<Piece>)
    returns (v: Verdict, rc: nat)
    requires ValidCodec(c, ec)
    requires Occupies(s) ==>
      TypedScn(s) && InOrder(s.data, 0, s.size) && rc0 <= s.offset && s.offset + s.size <= a.Length
    requires Holds(a, rc0, done, fill)
    modifies a
    ensures v == ScnVerdict(s, ec)
    ensures v.Ok? ==> Holds(a, rc, done + ScnPieces(s, c), fill)
    ensures v.Ok? ==> rc0 <= rc && if Occupies(s) then rc <= s.offset + s.size else rc == rc0
  {
    rc := rc0;
    if s.shdr.typ == SHT_NOBITS || s.shdr.typ == SHT_NULL {
      assert done + [] == done;
      return Ok, rc;
    }
    var t := TypeOf(s.shdr.typ).value;
    if s.offset % Falign(t, ec) != 0 {
      return Abort, rc;
    }
    if s.data == [] {
      return Reject(ArgumentError), rc;
    }
    v, rc := WriteData(a, s.data, t, s.offset, s.size, rc0, fill, ec, c, done);
  }

  method WriteData(a: array<bv8>, ds: seq<Data>, t: ElfType, base: nat, size: nat, rc0: nat, fill: bv8,
                   ec: ElfClass, c: Codec, ghost done: seq<Piece>)
    returns (v: Verdict, rc: nat)
    requires ValidCodec(c, ec) && Msize(t, ec) > 0
    requires InOrder(ds, 0, size) && rc0 <= base && base + size <= a.Length
    requires forall i {:trigger ds[i]} :: 0 <= i < |ds| ==>
               ds[i].typ == t && (ds[i].buf.Some? ==> |ds[i].buf.value| == ds[i].size)
    requires Holds(a, rc0, done, fill)
    modifies a
    ensures v == DataVerdict(ds, t, ec)
    ensures v.Ok? ==> Holds(a, rc, done + DataPieces(ds, base, c), fill) && rc0 <= rc <= base + size
  {
    hide Msize, Fsize, Holds, DataPieces, DataVerdict, Falign, TypeOf, ValidCodec;
    rc := rc0;
    NoPieces(ds, base, c, t, ec);
    assert done + [] == done;
    ghost var ps := done;
    var k := 0;
    while k < |ds|
      invariant 0 <= k <= |ds|
      invariant ps == done + DataPieces(ds[..k], base, c)
      invariant Holds(a, rc, ps, fill) && rc0 <= rc <= base + size
      invariant forall j :: k <= j < |ds| ==> rc <= base + ds[j].off
      invariant DataVerdict(ds, t, ec) == DataVerdict(ds[k..], t, ec)
    {
      var d := ds[k];
      VerdictStep(ds, k, t, ec);
      if d.buf.None? || d.size % Msize(t, ec) != 0 {
        return Abort, rc;
      }
      if d.size == 0 || !d.hostAligned {
        return Reject(DataError), rc;
      }
      EncodingFits(d, ec, c);
      DataPiecesSnoc(ds, k, base, c);
      var p := Piece(base + d.off, c.data(d.typ, d.buf.value));
      Associate(done, DataPieces(ds[..k], base, c), [p]);
      rc := Emit(a, rc, p, fill, ps);
      ps := ps + [p];
      k := k + 1;
    }
    assert ds[..|ds|] == ds;
    return Ok, rc;
  }

  lemma {:induction false} NoPieces(ds: seq<Data>, base: nat, c: Codec, t: ElfType, ec: ElfClass)
    requires Msize(t, ec) > 0
    ensures DataPieces(ds[..0], base, c) == [] && DataVerdict(ds[|ds|..], t, ec) == Ok && ds[0..] == ds
  {
  }

  lemma {:induction false} VerdictStep(ds: seq<Data>, k: nat, t: ElfType, ec: ElfClass)
    requires k < |ds| && Msize(t, ec) > 0
    ensures DataVerdict(ds[k..], t, ec) ==
            if ds[k].buf.None? || ds[k].size % Msize(t, ec) != 0 then Abort
            else if ds[k].size == 0 || !ds[k].hostAligned then Reject(DataError)
            else DataVerdict(ds[k + 1..], t, ec)
  {
    assert ds[k..][0] == ds[k] && ds[k..][1..] == ds[k + 1..];
  }

  /** Write every section in list order. */
  method WriteScns(a: array<bv8>, ss: seq<Scn>, rc0: nat, fill: bv8, ec: ElfClass, c: Codec,
                   ghost done: seq<Piece>, ghost end: nat)
    returns (v: Verdict, rc: nat)
    requires ValidCodec(c, ec) && Typed(ss) && Disjoint(ss, rc0, end) && rc0 <= end <= a.Length
    requires forall i {:trigger ss[i]} :: 0 <= i < |ss| && Occupies(ss[i]) ==> InOrder(ss[i].data, 0, ss[i].size)
    requires Holds(a, rc0, done, fill)
    modifies a
    ensures v == ScnsVerdict(ss, ec)
    ensures v.Ok? ==> Holds(a, rc, done + ScnsPieces(ss, c), fill) && rc0 <= rc <= end
  {
    hide Holds, ScnsPieces, ScnPieces, ScnsVerdict, ScnVerdict, TypedScn, InOrder;
    rc := rc0;
    NoScns(ss, c, ec);
    assert done + [] == done;
    ghost var ps := done;
    var k := 0;
    while k < |ss|
      invariant 0 <= k <= |ss|
      invariant ps == done + ScnsPieces(ss[..k], c)
      invariant Holds(a, rc, ps, fill) && rc0 <= rc <= end
      invariant forall j :: k <= j < |ss| && Occupies(ss[j]) ==> rc <= ss[j].offset
      invariant Typed(ss[k..]) && ScnsVerdict(ss, ec) == ScnsVerdict(ss[k..], ec)
    {
      ScnsVerdictStep(ss, k, ec);
      ScnsPiecesSnoc(ss, k, c);
      Associate(done, ScnsPieces(ss[..k], c), ScnPieces(ss[k], c));
      v, rc := WriteScn(a, ss[k], rc, fill, ec, c, ps);
      if v != Ok {
        return;
      }
      ps := ps + ScnPieces(ss[k], c);
      k := k + 1;
    }
    assert ss[..|ss|] == ss;
    return Ok, rc;
  }

  lemma {:induction false} NoScns(ss: seq<Scn>, c: Codec, ec: ElfClass)
    ensures ScnsPieces(ss[..0], c) == [] && ScnsVerdict(ss[|ss|..], ec) == Ok && ss[0..] == ss
  {
  }

  lemma {:induction false} ScnsVerdictStep(ss: seq<Scn>, k: nat, ec: ElfClass)
    requires k < |ss| && Typed(ss[k..])
    ensures Occupies(ss[k]) ==> TypedScn(ss[k])
    ensures Typed(ss[k + 1..])
    ensures ScnsVerdict(ss[k..], ec) ==
            if ScnVerdict(ss[k], ec) != Ok then ScnVerdict(ss[k], ec) else ScnsVerdict(ss[k + 1..], ec)
  {
    var r := ss[k..];
    assert r[0] == ss[k] && r[1..] == ss[k + 1..];
    forall i | 0 <= i < |r[1..]| && Occupies(r[1..][i]) ensures TypedScn(r[1..][i]) { assert r[1..][i] == r[i + 1]; }
  }

  /** Write the section header table at `at`. */
  method WriteShdrs(a: array<bv8>, ss: seq<Scn>, at: nat, rc0: nat, fill: bv8, ec: ElfClass, c: Codec,
                    ghost done: seq<Piece>)
    returns (rc: nat)
    requires ValidCodec(c, ec) && rc0 <= at && at + Fsize(ShdrT, ec) * |ss| <= a.Length && ss != []
    requires Holds(a, rc0, done, fill)
    modifies a
    ensures Holds(a, rc, done + ShdrPieces(ss, at, c), fill) && rc == at + Fsize(ShdrT, ec) * |ss|
  {
    var n := Fsize(ShdrT, ec);
    hide Holds, ShdrPieces, Fsize;
    rc := rc0;
    NoShdrs(ss, at, c);
    assert done + [] == done;
    ghost var ps := done;
    var k := 0;
    while k < |ss|
      invariant 0 <= k <= |ss|
      invariant ps == done + ShdrPieces(ss[..k], at, c)
      invariant Holds(a, rc, ps, fill)
      invariant if k == 0 then rc == rc0 else rc == at + n * k
    {
      ShdrPiecesSnoc(ss, k, at, c, n);
      var p := Piece(at + n * k, c.shdr(ss[k].shdr));
      Associate(done, ShdrPieces(ss[..k], at, c), [p]);
      RowFits(n, k, |ss|);
      rc := Emit(a, rc, p, fill, ps);
      ps := ps + [p];
      k := k + 1;
    }
    assert ss[..|ss|] == ss;
  }

  lemma {:induction false} NoShdrs(ss: seq<Scn>, at: nat, c: Codec)
    ensures ShdrPieces(ss[..0], at, c) == []
  {
  }

  lemma {:induction false} RowFits(n: nat, k: nat, m: nat)
    requires k < m
    ensures n * k + n == n * (k + 1) <= n * m
  {
    assert n * m == n * (k + 1) + n * (m - k - 1);
  }
}
