/** A file image as a list of pieces at given offsets, with a fill byte in the gaps. */
module ElfImage {
  import opened Options
  import opened ElfModel
  import opened ElfLayout
  import opened Numbers

  datatype Piece = Piece(at: nat, bytes: Bytes)

  function Pad(n: nat, fill: bv8): (r: Bytes)
    ensures |r| == n && forall i :: 0 <= i < n ==> r[i] == fill
  {
    seq(n, _ => fill)
  }

  function PieceEnd(p: Piece): nat { p.at + |p.bytes| }

  /** Pieces in increasing order, without overlap, from `rc` on. */
  predicate Sorted(ps: seq<Piece>, rc: nat) {
    ps == [] || (rc <= ps[0].at && Sorted(ps[1..], PieceEnd(ps[0])))
  }

  function RenderEnd(ps: seq<Piece>, rc: nat): nat {
    if ps == [] then rc else RenderEnd(ps[1..], PieceEnd(ps[0]))
  }

  /** The bytes from `rc` on: each piece preceded by the fill that leads up to it. */
  function Render(ps: seq<Piece>, rc: nat, fill: bv8): (r: Bytes)
    requires Sorted(ps, rc)
    ensures rc + |r| == RenderEnd(ps, rc)
  {
    if ps == [] then []
    else Pad(ps[0].at - rc, fill) + ps[0].bytes + Render(ps[1..], PieceEnd(ps[0]), fill)
  }

  predicate Within(p: Piece, pos: nat) { p.at <= pos < PieceEnd(p) }

  lemma {:induction false} SortedFrom(ps: seq<Piece>, rc: nat)
    requires Sorted(ps, rc)
    ensures rc <= RenderEnd(ps, rc)
    ensures forall i :: 0 <= i < |ps| ==> rc <= ps[i].at && PieceEnd(ps[i]) <= RenderEnd(ps, rc)
    ensures forall i, j :: 0 <= i < j < |ps| ==> PieceEnd(ps[i]) <= ps[j].at
  {
    if ps != [] {
      var rest := ps[1..];
      SortedFrom(rest, PieceEnd(ps[0]));
      forall i | 1 <= i < |ps| ensures PieceEnd(ps[0]) <= ps[i].at && PieceEnd(ps[i]) <= RenderEnd(ps, rc) {
        assert ps[i] == rest[i - 1];
      }
      forall i, j | 1 <= i < j < |ps| ensures PieceEnd(ps[i]) <= ps[j].at {
        assert ps[i] == rest[i - 1] && ps[j] == rest[j - 1];
      }
    }
  }

  predicate Covered(ps: seq<Piece>, pos: nat) {
    exists i :: 0 <= i < |ps| && Within(ps[i], pos)
  }

  /** The first piece with its fill, then the rest. */
  lemma {:induction false} RenderFirst(ps: seq<Piece>, rc: nat, fill: bv8, head: Bytes)
    requires Sorted(ps, rc) && ps != [] && head == Pad(ps[0].at - rc, fill) + ps[0].bytes
    ensures var mid := PieceEnd(ps[0]);
            && rc <= ps[0].at && |head| == mid - rc && Sorted(ps[1..], mid)
            && Render(ps, rc, fill) == head + Render(ps[1..], mid, fill)
            && RenderEnd(ps, rc) == mid + |Render(ps[1..], mid, fill)|
            && head[ps[0].at - rc..] == ps[0].bytes
  {
  }

  lemma {:induction false} RenderAt(ps: seq<Piece>, rc: nat, fill: bv8, i: nat)
    requires Sorted(ps, rc) && i < |ps|
    ensures Found(ps, rc, fill, ps[i])
  {
    if i == 0 {
      FirstFound(ps, rc, fill);
    } else {
      assert Sorted(ps[1..], PieceEnd(ps[0]));
      hide Sorted, Found;
      RenderAt(ps[1..], PieceEnd(ps[0]), fill, i - 1);
      LaterFound(ps, rc, fill, ps[i]);
    }
  }

  /** The rendering shows the piece at its offset. */
  ghost predicate Found(ps: seq<Piece>, rc: nat, fill: bv8, p: Piece)
    requires Sorted(ps, rc)
  {
    && rc <= p.at && PieceEnd(p) <= RenderEnd(ps, rc)
    && Render(ps, rc, fill)[p.at - rc..PieceEnd(p) - rc] == p.bytes
  }

  lemma {:induction false} FirstFound(ps: seq<Piece>, rc: nat, fill: bv8)
    requires Sorted(ps, rc) && ps != []
    ensures Found(ps, rc, fill, ps[0])
  {
    var head := Pad(ps[0].at - rc, fill) + ps[0].bytes;
    RenderFirst(ps, rc, fill, head);
    hide Render, Pad;
    SliceWithin(Render(ps, rc, fill), head, Render(ps[1..], PieceEnd(ps[0]), fill), ps[0].at - rc);
  }

  lemma {:induction false} LaterFound(ps: seq<Piece>, rc: nat, fill: bv8, p: Piece)
    requires Sorted(ps, rc) && ps != [] && Sorted(ps[1..], PieceEnd(ps[0])) && Found(ps[1..], PieceEnd(ps[0]), fill, p)
    ensures Found(ps, rc, fill, p)
  {
    var head := Pad(ps[0].at - rc, fill) + ps[0].bytes;
    RenderFirst(ps, rc, fill, head);
    hide Render, Pad, RenderEnd, Sorted;
    Shifted(Render(ps, rc, fill), head, Render(ps[1..], PieceEnd(ps[0]), fill), p, rc, PieceEnd(ps[0]));
  }

  lemma {:induction false} Shifted(r: Bytes, a: Bytes, b: Bytes, p: Piece, rc: nat, mid: nat)
    requires r == a + b && rc <= mid <= p.at && |a| == mid - rc && PieceEnd(p) - mid <= |b|
    requires b[p.at - mid..PieceEnd(p) - mid] == p.bytes
    ensures PieceEnd(p) - rc <= |r| && r[p.at - rc..PieceEnd(p) - rc] == p.bytes
  {
    SliceAfter(r, a, b, p.at - rc, PieceEnd(p) - rc);
  }

  lemma {:induction false} SliceWithin(r: Bytes, a: Bytes, b: Bytes, lo: nat)
    requires r == a + b && lo <= |a|
    ensures r[lo..|a|] == a[lo..]
  {
  }

  lemma {:induction false} SliceAfter(r: Bytes, a: Bytes, b: Bytes, lo: nat, hi: nat)
    requires r == a + b && |a| <= lo <= hi <= |r|
    ensures r[lo..hi] == b[lo - |a|..hi - |a|]
  {
  }

  lemma {:induction false} RenderGap(ps: seq<Piece>, rc: nat, fill: bv8, pos: nat)
    requires Sorted(ps, rc) && rc <= pos < RenderEnd(ps, rc) && !Covered(ps, pos)
    ensures Render(ps, rc, fill)[pos - rc] == fill
  {
    if ps != [] {
      assert !Within(ps[0], pos);
      var mid := PieceEnd(ps[0]);
      if mid <= pos {
        forall i | 0 <= i < |ps[1..]| ensures !Within(ps[1..][i], pos) { assert ps[1..][i] == ps[i + 1]; }
        RenderGap(ps[1..], mid, fill, pos);
      }
    }
  }

  /** Every byte is accounted for once: pieces do not overlap, each is found at its offset, and all
      other bytes are fill. */
  ghost predicate Assembled(img: Bytes, ps: seq<Piece>, fill: bv8) {
    && (forall i :: 0 <= i < |ps| ==> PieceEnd(ps[i]) <= |img| && img[ps[i].at..PieceEnd(ps[i])] == ps[i].bytes)
    && (forall i, j :: 0 <= i < j < |ps| ==> PieceEnd(ps[i]) <= ps[j].at)
    && (forall pos :: 0 <= pos < |img| && !Covered(ps, pos) ==> img[pos] == fill)
  }

  lemma {:induction false} RenderCorrect(ps: seq<Piece>, fill: bv8)
    requires Sorted(ps, 0)
    ensures Assembled(Render(ps, 0, fill), ps, fill)
  {
    hide Render, Sorted, RenderEnd;
    var r := Render(ps, 0, fill);
    SortedFrom(ps, 0);
    forall i | 0 <= i < |ps| ensures PieceEnd(ps[i]) <= |r| && r[ps[i].at..PieceEnd(ps[i])] == ps[i].bytes {
      RenderAt(ps, 0, fill, i);
    }
    forall pos | 0 <= pos < |r| && !Covered(ps, pos) ensures r[pos] == fill {
      RenderGap(ps, 0, fill, pos);
    }
  }

  lemma {:induction false} SortedConcat(ps: seq<Piece>, qs: seq<Piece>, rc: nat)
    ensures Sorted(ps + qs, rc) <==> Sorted(ps, rc) && Sorted(qs, RenderEnd(ps, rc))
    ensures RenderEnd(ps + qs, rc) == RenderEnd(qs, RenderEnd(ps, rc))
  {
    if ps == [] {
      assert ps + qs == qs;
    } else {
      assert (ps + qs)[1..] == ps[1..] + qs;
      SortedConcat(ps[1..], qs, PieceEnd(ps[0]));
    }
  }

  lemma {:induction false} RenderConcat(ps: seq<Piece>, qs: seq<Piece>, rc: nat, fill: bv8)
    requires Sorted(ps, rc) && Sorted(qs, RenderEnd(ps, rc)) && Sorted(ps + qs, rc)
    ensures Render(ps + qs, rc, fill) == Render(ps, rc, fill) + Render(qs, RenderEnd(ps, rc), fill)
  {
    if ps == [] {
      assert ps + qs == qs;
    } else {
      assert (ps + qs)[1..] == ps[1..] + qs;
      SortedConcat(ps[1..], qs, PieceEnd(ps[0]));
      RenderConcat(ps[1..], qs, PieceEnd(ps[0]), fill);
    }
  }

  // ----- The pieces of an ELF file -----

  function Buffer(d: Data): Bytes {
    if d.buf.Some? then d.buf.value else []
  }

  function DataPieces(ds: seq<Data>, base: nat, c: Codec): (r: seq<Piece>)
    ensures |r| == |ds|
  {
    if ds == [] then []
    else [Piece(base + ds[0].off, c.data(ds[0].typ, Buffer(ds[0])))] + DataPieces(ds[1..], base, c)
  }

  function ScnPieces(s: Scn, c: Codec): seq<Piece>
  {
    if Occupies(s) then DataPieces(s.data, s.offset, c) else []
  }

  function ScnsPieces(ss: seq<Scn>, c: Codec): seq<Piece>
  {
    if ss == [] then [] else ScnPieces(ss[0], c) + ScnsPieces(ss[1..], c)
  }

  function ShdrPieces(ss: seq<Scn>, at: nat, c: Codec): (r: seq<Piece>)
    ensures |r| == |ss|
  {
    if ss == [] then []
    else [Piece(at, c.shdr(ss[0].shdr))] + ShdrPieces(ss[1..], at + |c.shdr(ss[0].shdr)|, c)
  }

  /** Entry `i` of the section header table describes section `i`. */
  lemma {:induction false} ShdrPieceAt(ss: seq<Scn>, at: nat, c: Codec, n: nat, i: nat)
    requires i < |ss| && forall i {:trigger ss[i]} :: 0 <= i < |ss| ==> |c.shdr(ss[i].shdr)| == n
    ensures ShdrPieces(ss, at, c)[i] == Piece(at + n * i, c.shdr(ss[i].shdr))
  {
    assert |c.shdr(ss[0].shdr)| == n;
    if i > 0 {
      ShdrPieceAt(ss[1..], at + n, c, n, i - 1);
      assert n + n * (i - 1) == n * i;
    }
  }

  /** A descriptor whose buffer can be encoded. */
  predicate WritableData(d: Data, ec: ElfClass) {
    && d.buf.Some? && |d.buf.value| == d.size && d.hostAligned
    && 0 < d.size && 0 < Msize(d.typ, ec) && d.size % Msize(d.typ, ec) == 0
  }

  predicate AllWritable(ds: seq<Data>, ec: ElfClass) {
    forall i {:trigger ds[i]} :: 0 <= i < |ds| ==> WritableData(ds[i], ec)
  }

  lemma {:induction false} EncodingFits(d: Data, ec: ElfClass, c: Codec)
    requires ValidCodec(c, ec) && WritableData(d, ec)
    ensures |c.data(d.typ, Buffer(d))| <= d.size
    ensures Fsize(d.typ, ec) == Msize(d.typ, ec) ==> |c.data(d.typ, Buffer(d))| == d.size
  {
    var f, m := Fsize(d.typ, ec), Msize(d.typ, ec);
    var n := d.size / m;
    assert d.size == m * n;
    assert |c.data(d.typ, Buffer(d))| == f * n;
    MemoryIsNoSmaller(d.typ, ec);
    Scale(f, m, n);
  }

  lemma {:induction false} Scale(f: nat, m: nat, n: nat)
    requires f <= m
    ensures f * n <= m * n
  {
    assert m * n == f * n + (m - f) * n;
  }

  /** A section whose every descriptor can be encoded. */
  predicate WritableScn(s: Scn, ec: ElfClass) {
    && s.data != [] && TypeOf(s.shdr.typ).Some?
    && s.offset % Falign(TypeOf(s.shdr.typ).value, ec) == 0
    && AllWritable(s.data, ec)
  }

  lemma {:induction false} DataPiecesSnoc(ds: seq<Data>, k: nat, base: nat, c: Codec)
    requires k < |ds|
    ensures DataPieces(ds[..k + 1], base, c)
         == DataPieces(ds[..k], base, c) + [Piece(base + ds[k].off, c.data(ds[k].typ, Buffer(ds[k])))]
  {
    if k == 0 {
      assert ds[..1][1..] == [] && ds[..0] == [];
    } else {
      assert ds[..k + 1][1..] == ds[1..][..k] && ds[..k][1..] == ds[1..][..k - 1];
      DataPiecesSnoc(ds[1..], k - 1, base, c);
    }
  }

  lemma {:induction false} ScnsPiecesSnoc(ss: seq<Scn>, k: nat, c: Codec)
    requires k < |ss|
    ensures ScnsPieces(ss[..k + 1], c) == ScnsPieces(ss[..k], c) + ScnPieces(ss[k], c)
  {
    if k == 0 {
      assert ss[..1][1..] == [] && ss[..0] == [];
      assert ScnPieces(ss[0], c) + [] == ScnPieces(ss[0], c);
    } else {
      assert ss[..k + 1][1..] == ss[1..][..k] && ss[..k][1..] == ss[1..][..k - 1];
      ScnsPiecesSnoc(ss[1..], k - 1, c);
      Associate(ScnPieces(ss[0], c), ScnsPieces(ss[1..][..k - 1], c), ScnPieces(ss[k], c));
    }
  }

  lemma {:induction false} Associate<T>(a: seq<T>, b: seq<T>, c: seq<T>)
    ensures a + (b + c) == a + b + c
  {
  }

  lemma {:induction false} ShdrPiecesSnoc(ss: seq<Scn>, k: nat, at: nat, c: Codec, n: nat)
    requires k < |ss| && forall i {:trigger ss[i]} :: 0 <= i < |ss| ==> |c.shdr(ss[i].shdr)| == n
    ensures ShdrPieces(ss[..k + 1], at, c) == ShdrPieces(ss[..k], at, c) + [Piece(at + n * k, c.shdr(ss[k].shdr))]
  {
    assert |c.shdr(ss[0].shdr)| == n;
    if k == 0 {
      assert ss[..1][1..] == [] && ss[..0] == [];
    } else {
      assert ss[..k + 1][1..] == ss[1..][..k] && ss[..k][1..] == ss[1..][..k - 1];
      ShdrPiecesSnoc(ss[1..], k - 1, at + n, c, n);
      assert n + n * (k - 1) == n * k;
    }
  }

  /** All pieces of the file, in the order they are written. */
  function FilePieces(eh: Ehdr, ec: ElfClass, phdrs: Bytes, nphdr: nat, ss: seq<Scn>, nscn: nat, shoff: nat, c: Codec)
    : seq<Piece> {
    HeaderPieces(eh, ec, phdrs, nphdr, c) + ScnsPieces(ss, c) + (if nscn == 0 then [] else ShdrPieces(ss, shoff, c))
  }

  function HeaderPieces(eh: Ehdr, ec: ElfClass, phdrs: Bytes, nphdr: nat, c: Codec): seq<Piece> {
    [Piece(0, c.ehdr(eh))] + (if nphdr == 0 then [] else [Piece(Fsize(EhdrT, ec), c.data(PhdrT, phdrs))])
  }
}
