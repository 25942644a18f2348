/** elf_strptr: resolving a string-table offset by stored offsets or accumulated sizes, and when the two agree. */
module ElfStrptr {
  import opened Options
  import opened ElfModel
  import opened ElfLayout
  import opened Numbers

  /** Byte `pos` of descriptor number `index`. */
  datatype StrPtr = Found(index: nat, pos: nat) | Missing(error: Error)

  predicate Visible(d: Data) { d.buf.Some? && d.size > 0 }

  /** Resolve by the offsets stored in the descriptors, from descriptor `k` on. */
  function ByOffset(ds: seq<Data>, k: nat, offset: nat): StrPtr
    requires k <= |ds|
    decreases |ds| - k
  {
    if k == |ds| then Missing(ArgumentError)
    else if !Visible(ds[k]) then ByOffset(ds, k + 1, offset)
    else if ds[k].typ != ByteT then Missing(DataError)
    else if ds[k].off <= offset < ds[k].off + ds[k].size then Found(k, offset - ds[k].off)
    else ByOffset(ds, k + 1, offset)
  }

  function Start(count: nat, align: nat): nat {
    if align > 1 then RoundUp(count, align) else count
  }

  /** Resolve by accumulating rounded sizes, having seen `count` bytes before descriptor `k`. */
  function Accumulate(ds: seq<Data>, k: nat, count: nat, offset: nat): StrPtr
    requires k <= |ds|
    decreases |ds| - k
  {
    if k == |ds| || count > offset then Missing(ArgumentError)
    else if !Visible(ds[k]) then Accumulate(ds, k + 1, count, offset)
    else if ds[k].typ != ByteT then Missing(DataError)
    else if ds[k].align > 1 && And(ds[k].align, ds[k].align - 1) != 0 then Missing(DataError)
    else
      var start := Start(count, ds[k].align);
      if offset < start then Missing(ArgumentError)
      else if offset < start + ds[k].size then Found(k, offset - start)
      else Accumulate(ds, k + 1, start + ds[k].size, offset)
  }

  /** The lookup, given the section if the index named one. */
  method Strptr(s: Option<Scn>, applicationLayout: bool, offset: nat) returns (r: StrPtr)
    ensures r == if s.None? || s.value.shdr.typ != SHT_STRTAB || offset >= s.value.shdr.size then Missing(ArgumentError)
                 else if applicationLayout then ByOffset(s.value.data, 0, offset)
                 else Accumulate(s.value.data, 0, 0, offset)
  {
    if s.None? {
      return Missing(ArgumentError);
    }
    if s.value.shdr.typ != SHT_STRTAB || offset >= s.value.shdr.size {
      return Missing(ArgumentError);
    }
    var ds := s.value.data;
    var k := 0;
    if applicationLayout {
      while k < |ds|
        invariant 0 <= k <= |ds|
        invariant ByOffset(ds, 0, offset) == ByOffset(ds, k, offset)
      {
        var d := ds[k];
        if d.buf.Some? && d.size != 0 {
          if d.typ != ByteT {
            return Missing(DataError);
          }
          if offset >= d.off && offset < d.off + d.size {
            return Found(k, offset - d.off);
          }
        }
        k := k + 1;
      }
    } else {
      var count: nat := 0;
      while k < |ds| && count <= offset
        invariant 0 <= k <= |ds|
        invariant Accumulate(ds, 0, 0, offset) == Accumulate(ds, k, count, offset)
      {
        var d := ds[k];
        if d.buf.Some? && d.size != 0 {
          if d.typ != ByteT {
            return Missing(DataError);
          }
          if d.align > 1 {
            if And(d.align, d.align - 1) != 0 {
              return Missing(DataError);
            }
            count := RoundUp(count, d.align);
          }
          if offset < count {
            return Missing(ArgumentError);
          }
          if offset < count + d.size {
            return Found(k, offset - count);
          }
          count := count + d.size;
        }
        k := k + 1;
      }
    }
    return Missing(ArgumentError);
  }

  // ----- Agreement -----

  /** Byte descriptors with power-of-two alignments, placed in order from `from` on. */
  ghost predicate StringData(ds: seq<Data>, end: nat) {
    && InOrder(ds, 0, end)
    && forall i {:trigger ds[i]} :: 0 <= i < |ds| ==> ds[i].typ == ByteT && PowerOfTwo(ds[i].align)
  }

  /** Resolving by stored offsets finds exactly the byte of a descriptor that has the given offset in the section. */
  lemma {:induction false} ResolvesTo(ds: seq<Data>, end: nat, k: nat, offset: nat, i: nat, pos: nat)
    requires StringData(ds, end) && k <= i < |ds|
    ensures ByOffset(ds, k, offset) == Found(i, pos) <==>
      Visible(ds[i]) && pos < ds[i].size && ds[i].off + pos == offset
    decreases |ds| - k
  {
    if k < i {
      ResolvesTo(ds, end, k + 1, offset, i, pos);
      assert ds[k].off + ds[k].size <= ds[i].off;
    } else if ByOffset(ds, k, offset).Found? {
      ResolvesLater(ds, k + 1, offset);
    }
  }

  lemma {:induction false} ResolvesLater(ds: seq<Data>, k: nat, offset: nat)
    requires k <= |ds|
    ensures ByOffset(ds, k, offset).Found? ==> k <= ByOffset(ds, k, offset).index
    decreases |ds| - k
  {
    if k < |ds| { ResolvesLater(ds, k + 1, offset); }
  }

  /** Every visible descriptor starts where accumulation expects it. */
  predicate SameStarts(ds: seq<Data>, k: nat, count: nat)
    requires k <= |ds|
    decreases |ds| - k
  {
    k == |ds| ||
    (if Visible(ds[k]) then Start(count, ds[k].align) == ds[k].off && SameStarts(ds, k + 1, ds[k].off + ds[k].size)
     else SameStarts(ds, k + 1, count))
  }

  lemma {:induction false} MissingBefore(ds: seq<Data>, end: nat, k: nat, offset: nat)
    requires StringData(ds, end) && k <= |ds|
    requires forall j :: k <= j < |ds| && Visible(ds[j]) ==> offset < ds[j].off
    ensures ByOffset(ds, k, offset) == Missing(ArgumentError)
    decreases |ds| - k
  {
    if k < |ds| { MissingBefore(ds, end, k + 1, offset); }
  }

  lemma {:induction false} AgreeFrom(ds: seq<Data>, end: nat, k: nat, count: nat, offset: nat)
    requires StringData(ds, end) && k <= |ds| && count <= offset && SameStarts(ds, k, count)
    ensures Accumulate(ds, k, count, offset) == ByOffset(ds, k, offset)
    decreases |ds| - k
  {
    if k < |ds| {
      var d := ds[k];
      PowerOfTwoIdiom(d.align);
      if !Visible(d) {
        AgreeFrom(ds, end, k + 1, count, offset);
      } else if offset < d.off {
        MissingBefore(ds, end, k + 1, offset);
      } else if d.off + d.size <= offset {
        AgreeFrom(ds, end, k + 1, d.off + d.size, offset);
      }
    }
  }

  lemma {:induction false} LaterOnly(ds: seq<Data>, k: nat, count: nat, offset: nat)
    requires k <= |ds|
    ensures Accumulate(ds, k, count, offset).Found? ==> k <= Accumulate(ds, k, count, offset).index
    decreases |ds| - k
  {
    if k < |ds| && count <= offset {
      if !Visible(ds[k]) {
        LaterOnly(ds, k + 1, count, offset);
      } else {
        LaterOnly(ds, k + 1, Start(count, ds[k].align) + ds[k].size, offset);
      }
    }
  }

  /** An offset at which the two lookups differ, if some descriptor does not start as expected. */
  lemma {:induction false} DifferSomewhere(ds: seq<Data>, end: nat, k: nat, count: nat) returns (offset: nat)
    requires StringData(ds, end) && k <= |ds| && !SameStarts(ds, k, count)
    requires forall j :: k <= j < |ds| ==> count <= ds[j].off
    ensures count <= offset
    ensures Accumulate(ds, k, count, offset) != ByOffset(ds, k, offset)
    ensures exists j :: k <= j < |ds| && Visible(ds[j]) && offset == ds[j].off
    decreases |ds| - k
  {
    var d := ds[k];
    PowerOfTwoIdiom(d.align);
    if !Visible(d) {
      offset := DifferSomewhere(ds, end, k + 1, count);
    } else if Start(count, d.align) != d.off {
      offset := d.off;
      LaterOnly(ds, k + 1, Start(count, d.align) + d.size, offset);
    } else {
      offset := DifferSomewhere(ds, end, k + 1, d.off + d.size);
      var j :| k + 1 <= j < |ds| && Visible(ds[j]) && offset == ds[j].off;
      assert ds[k].off + ds[k].size <= ds[j].off;
    }
  }

  /** The two lookups agree at every offset exactly when every descriptor that holds bytes starts at
      the rounded end of the one before it. */
  lemma {:induction false} LookupsAgree(ds: seq<Data>, end: nat)
    requires StringData(ds, end)
    ensures (forall offset: nat :: Accumulate(ds, 0, 0, offset) == ByOffset(ds, 0, offset)) <==> SameStarts(ds, 0, 0)
  {
    if SameStarts(ds, 0, 0) {
      forall offset: nat ensures Accumulate(ds, 0, 0, offset) == ByOffset(ds, 0, offset) {
        AgreeFrom(ds, end, 0, 0, offset);
      }
    } else {
      var offset := DifferSomewhere(ds, end, 0, 0);
    }
  }

  // ----- With the offsets elf_update computes -----

  lemma {:induction false} OneAlignment(ds: seq<Data>, a: nat, from: nat, r: seq<Data>, k: nat, count: nat)
    requires a > 0 && k <= |r| && |ds| == |r| - k && r[k..] == Place(ds, a, from)
    requires forall i {:trigger ds[i]} :: 0 <= i < |ds| ==> ds[i].align == a && (ds[i].size > 0 ==> ds[i].buf.Some?)
    requires RoundUp(count, a) == RoundUp(from, a)
    ensures SameStarts(r, k, count)
    decreases |ds|
  {
    if ds != [] {
      var off := RoundUp(from, a);
      assert r[k] == r[k..][0] == ds[0].(off := off);
      assert r[k + 1..] == r[k..][1..] == Place(ds[1..], a, off + ds[0].size);
      if Visible(r[k]) {
        OneAlignment(ds[1..], a, off + ds[0].size, r, k + 1, off + ds[0].size);
      } else {
        OneAlignment(ds[1..], a, off, r, k + 1, count);
      }
    }
  }

  /** For a string section whose descriptors share one alignment, and whose non-empty descriptors have
      buffers, accumulation resolves every offset as the computed offsets do. */
  lemma {:induction false} SharedAlignmentAgrees(s: Scn, ec: ElfClass, version: nat, rc: nat, offset: nat)
    requires s.shdr.typ == SHT_STRTAB && Complaint(s, ec, version).None?
    requires forall i {:trigger s.data[i]} :: 0 <= i < |s.data| ==>
               s.data[i].align == s.data[0].align && (s.data[i].size > 0 ==> s.data[i].buf.Some?)
    ensures var ds := LaidOut(s, ec, version, rc).data;
            Accumulate(ds, 0, 0, offset) == ByOffset(ds, 0, offset)
  {
    hide Accumulate, ByOffset, And;
    assert TypeOf(s.shdr.typ) == Some(ByteT);
    hide TypeOf, Falign, Fsize;
    var r := LaidOut(s, ec, version, rc);
    LaidOutStrings(s, ec, version, rc);
    if s.data != [] {
      var a := MaxAlign(s.data);
      MaxAlignIs(s.data);
      DataAligns(s.data, ByteT, version, BaseAlign(s, ByteT, ec));
      assert r.data[0..] == r.data;
      OneAlignment(s.data, a, 0, r.data, 0, 0);
    }
    LookupsAgree(r.data, r.size);
  }

  lemma {:induction false} LaidOutStrings(s: Scn, ec: ElfClass, version: nat, rc: nat)
    requires s.shdr.typ == SHT_STRTAB && Complaint(s, ec, version).None?
    ensures var r := LaidOut(s, ec, version, rc); StringData(r.data, r.size)
  {
    var r := LaidOut(s, ec, version, rc);
    assert TypeOf(s.shdr.typ) == Some(ByteT);
    LaidOutWellPlaced(s, ec, version, rc);
    DataAligns(s.data, ByteT, version, BaseAlign(s, ByteT, ec));
    forall i | 0 <= i < |r.data| ensures r.data[i].typ == ByteT && PowerOfTwo(r.data[i].align) {
      assert r.data[i] == s.data[i].(off := r.data[i].off);
    }
  }

  /** With mixed alignments they need not agree: after a one-byte descriptor of alignment 4, a
      byte-aligned descriptor is laid out at offset 4 but looked for at offset 1. */
  lemma {:induction false} MixedAlignmentDiffers(p: Bytes, q: Bytes)
    requires |p| == 1 && |q| == 8
    ensures var a := Data(ByteT, EV_CURRENT, 4, 1, Some(p), 0, true);
            var b := Data(ByteT, EV_CURRENT, 1, 8, Some(q), 0, true);
            var ds := Place([a, b], 4, 0);
            ByOffset(ds, 0, 4) == Found(1, 0) && Accumulate(ds, 0, 0, 4) == Found(1, 3)
  {
    var a, b := Data(ByteT, EV_CURRENT, 4, 1, Some(p), 0, true), Data(ByteT, EV_CURRENT, 1, 8, Some(q), 0, true);
    var ds := Place([a, b], 4, 0);
    assert [a, b][1..] == [b] && [b][1..] == [];
    assert RoundUp(0, 4) == 0 && RoundUp(1, 4) == 4;
    assert Place([b], 4, 1) == [b.(off := 4)] + Place([], 4, 12);
    assert ds == [a, b.(off := 4)];
    assert And(4, 3) == 0;
    assert ByOffset(ds, 1, 4) == Found(1, 0);
    assert Accumulate(ds, 1, 1, 4) == Found(1, 3);
  }
}
