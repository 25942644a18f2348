/** Where elf_update places section data, as a function of the sections, and what that guarantees. */
module ElfLayout {
  import opened Options
  import opened ElfModel
  import opened Numbers

  function Max(a: nat, b: nat): nat { if a < b then b else a }

  // ----- One section -----

  /** The first complaint about a section's descriptors, in list order. */
  function DataComplaint(ds: seq<Data>, t: ElfType, version: nat, align: nat): Option<Error>
    requires align > 0
  {
    if ds == [] then None
    else if ds[0].typ != t then Some(DataError)
    else if ds[0].version != version then Some(VersionError)
    else if ds[0].align % align != 0 then Some(LayoutError)
    else if ds[0].align == 0 || And(ds[0].align, ds[0].align - 1) != 0 then Some(DataError)
    else DataComplaint(ds[1..], t, version, align)
  }

  /** The alignment asked for by the section header, else that of its data type. */
  function BaseAlign(s: Scn, t: ElfType, ec: ElfClass): nat {
    if s.shdr.addralign == 0 then Falign(t, ec) else s.shdr.addralign
  }

  function Complaint(s: Scn, ec: ElfClass, version: nat): Option<Error> {
    if !Occupies(s) then None
    else match TypeOf(s.shdr.typ)
      case None => Some(SectionError)
      case Some(t) => DataComplaint(s.data, t, version, BaseAlign(s, t, ec))
  }

  function MaxAlign(ds: seq<Data>): nat {
    if ds == [] then 0 else Max(ds[0].align, MaxAlign(ds[1..]))
  }

  /** Each descriptor starts at the next multiple of the section's alignment `a`. */
  function Place(ds: seq<Data>, a: nat, from: nat): (r: seq<Data>)
    requires ds != [] ==> a > 0
    ensures |r| == |ds|
  {
    if ds == [] then []
    else
      var off := RoundUp(from, a);
      [ds[0].(off := off)] + Place(ds[1..], a, off + ds[0].size)
  }

  function PlaceEnd(ds: seq<Data>, a: nat, from: nat): nat
    requires ds != [] ==> a > 0
  {
    if ds == [] then from else PlaceEnd(ds[1..], a, RoundUp(from, a) + ds[0].size)
  }

  function FinalAlign(s: Scn, t: ElfType, ec: ElfClass): nat {
    Max(BaseAlign(s, t, ec), MaxAlign(s.data))
  }

  function EntrySize(s: Scn, t: ElfType, ec: ElfClass): nat {
    if s.shdr.entsize != 0 then s.shdr.entsize
    else if Fsize(t, ec) == 1 then 0
    else Fsize(t, ec)
  }

  /** A section as the first pass leaves it, when the file is `rc` bytes long so far. */
  function LaidOut(s: Scn, ec: ElfClass, version: nat, rc: nat): Scn
    requires Complaint(s, ec, version).None?
  {
    if !Occupies(s) then s
    else
      var t := TypeOf(s.shdr.typ).value;
      var a := FinalAlign(s, t, ec);
      var align := MaxAlign(s.data);
      DataAligns(s.data, t, version, BaseAlign(s, t, ec));
      var size := PlaceEnd(s.data, align, 0);
      var off := RoundUp(rc, a);
      s.(shdr := s.shdr.(addralign := Field(ec, a), entsize := Field(ec, EntrySize(s, t, ec)),
                         offset := Field(ec, off), size := Field(ec, size)),
         data := Place(s.data, align, 0), offset := off, size := size)
  }

  function After(s: Scn, rc: nat): nat {
    if Occupies(s) then s.offset + s.size else rc
  }

  lemma {:induction false} DataAligns(ds: seq<Data>, t: ElfType, version: nat, align: nat)
    requires align > 0 && DataComplaint(ds, t, version, align).None?
    ensures forall i :: 0 <= i < |ds| ==> PowerOfTwo(ds[i].align) && ds[i].align % align == 0
    ensures forall i :: 0 <= i < |ds| ==> ds[i].typ == t && ds[i].version == version
    ensures ds != [] ==> MaxAlign(ds) > 0
  {
    if ds != [] {
      PowerOfTwoIdiom(ds[0].align);
      DataAligns(ds[1..], t, version, align);
      forall i | 0 <= i < |ds|
        ensures PowerOfTwo(ds[i].align) && ds[i].align % align == 0 && ds[i].typ == t && ds[i].version == version
      {
        if i > 0 { assert ds[i] == ds[1..][i - 1]; }
      }
    }
  }

  /** A descriptor the layout accepts in a section of type `t` and alignment `base`. */
  predicate Sound(d: Data, t: ElfType, version: nat, base: nat)
    requires base > 0
  {
    d.typ == t && d.version == version && d.align % base == 0 && PowerOfTwo(d.align)
  }

  /** What is wrong with a descriptor that is not sound. */
  predicate Blames(e: Error, d: Data, t: ElfType, version: nat, base: nat)
    requires base > 0
  {
    match e
    case VersionError => d.typ == t && d.version != version
    case LayoutError => d.typ == t && d.version == version && d.align % base != 0
    case DataError => d.typ != t || (d.version == version && d.align % base == 0 && !PowerOfTwo(d.align))
    case _ => false
  }

  /** The layout complains about the first descriptor that is not sound, and says what is wrong with it. */
  lemma {:induction false} DataComplaintIs(ds: seq<Data>, t: ElfType, version: nat, base: nat)
    requires base > 0
    ensures var e := DataComplaint(ds, t, version, base);
            && (e.None? <==> forall i :: 0 <= i < |ds| ==> Sound(ds[i], t, version, base))
            && (e.Some? ==> exists k :: 0 <= k < |ds| && Blames(e.value, ds[k], t, version, base)
                              && forall i :: 0 <= i < k ==> Sound(ds[i], t, version, base))
  {
    if ds != [] {
      hide DataComplaint, Sound, Blames;
      DataComplaintIs(ds[1..], t, version, base);
      FirstData(ds, t, version, base);
      assert ds == [ds[0]] + ds[1..];
      var e := DataComplaint(ds, t, version, base);
      if Sound(ds[0], t, version, base) && e.Some? {
        var k :| 0 <= k < |ds[1..]| && Blames(e.value, ds[1..][k], t, version, base)
                 && forall i :: 0 <= i < k ==> Sound(ds[1..][i], t, version, base);
        assert Blames(e.value, ds[k + 1], t, version, base);
      }
    }
  }

  lemma {:induction false} FirstData(ds: seq<Data>, t: ElfType, version: nat, base: nat)
    requires base > 0 && ds != []
    ensures var e := DataComplaint(ds, t, version, base);
            if Sound(ds[0], t, version, base) then e == DataComplaint(ds[1..], t, version, base)
            else e.Some? && Blames(e.value, ds[0], t, version, base)
  {
    if ds[0].align > 0 { PowerOfTwoIdiom(ds[0].align); }
  }

  /** A section is placed exactly when it takes no room in the file, or its type is known and its descriptors are
      sound. */
  lemma {:induction false} ComplaintIs(s: Scn, ec: ElfClass, version: nat)
    ensures Complaint(s, ec, version) == Some(SectionError) <==> Occupies(s) && TypeOf(s.shdr.typ).None?
    ensures Complaint(s, ec, version).None? <==>
      Occupies(s) ==>
        && TypeOf(s.shdr.typ).Some?
        && var t := TypeOf(s.shdr.typ).value;
           var base := if s.shdr.addralign != 0 then s.shdr.addralign else Falign(t, ec);
           forall i :: 0 <= i < |s.data| ==> Sound(s.data[i], t, version, base)
  {
    if Occupies(s) && TypeOf(s.shdr.typ).Some? {
      var t := TypeOf(s.shdr.typ).value;
      assert Falign(t, ec) > 0;
      hide TypeOf, Falign, DataComplaint, Sound, Blames;
      DataComplaintIs(s.data, t, version, BaseAlign(s, t, ec));
      NeverSectionError(s.data, t, version, BaseAlign(s, t, ec));
    }
  }

  lemma {:induction false} NeverSectionError(ds: seq<Data>, t: ElfType, version: nat, base: nat)
    requires base > 0
    ensures DataComplaint(ds, t, version, base) != Some(SectionError)
  {
    if ds != [] { NeverSectionError(ds[1..], t, version, base); }
  }

  lemma {:induction false} MaxAlignIs(ds: seq<Data>)
    ensures forall i :: 0 <= i < |ds| ==> ds[i].align <= MaxAlign(ds)
    ensures ds != [] ==> exists i :: 0 <= i < |ds| && ds[i].align == MaxAlign(ds)
  {
    if ds != [] {
      MaxAlignIs(ds[1..]);
      forall i | 0 <= i < |ds| ensures ds[i].align <= MaxAlign(ds) {
        if i > 0 { assert ds[i] == ds[1..][i - 1]; }
      }
      if ds[0].align == MaxAlign(ds) {
        assert ds[0].align == MaxAlign(ds);
      } else {
        var j :| 0 <= j < |ds[1..]| && ds[1..][j].align == MaxAlign(ds[1..]);
        assert ds[j + 1].align == MaxAlign(ds);
      }
    }
  }

  /** Descriptors follow one another without overlap, between `from` and `end`. */
  ghost predicate InOrder(ds: seq<Data>, from: nat, end: nat) {
    && (forall i :: 0 <= i < |ds| ==> from <= ds[i].off && ds[i].off + ds[i].size <= end)
    && (forall i, j :: 0 <= i < j < |ds| ==> ds[i].off + ds[i].size <= ds[j].off)
  }

  lemma {:induction false} PlaceInOrder(ds: seq<Data>, a: nat, from: nat)
    requires ds != [] ==> a > 0
    ensures from <= PlaceEnd(ds, a, from)
    ensures InOrder(Place(ds, a, from), from, PlaceEnd(ds, a, from))
    ensures forall i :: 0 <= i < |ds| ==> Place(ds, a, from)[i].off % a == 0
    ensures forall i :: 0 <= i < |ds| ==> Place(ds, a, from)[i] == ds[i].(off := Place(ds, a, from)[i].off)
  {
    if ds != [] {
      var off := RoundUp(from, a);
      var r, r' := Place(ds, a, from), Place(ds[1..], a, off + ds[0].size);
      PlaceInOrder(ds[1..], a, off + ds[0].size);
      assert r[0] == ds[0].(off := off);
      forall i | 1 <= i < |ds|
        ensures r[i].off % a == 0 && r[i] == ds[i].(off := r[i].off)
        ensures off + ds[0].size <= r[i].off && r[i].off + r[i].size <= PlaceEnd(ds, a, from)
      {
        assert r[i] == r'[i - 1] && ds[i] == ds[1..][i - 1];
      }
      forall i, j | 0 <= i < j < |ds| ensures r[i].off + r[i].size <= r[j].off {
        if i > 0 { assert r[i] == r'[i - 1] && r[j] == r'[j - 1]; }
      }
    }
  }

  /** `a` suits a section: a multiple of the alignment its header asks for, or of its data type's if the header asks
      for none, and of every descriptor's. */
  ghost predicate Suits(a: nat, s: Scn, ec: ElfClass) {
    && a > 0 && TypeOf(s.shdr.typ).Some?
    && (var base := if s.shdr.addralign != 0 then s.shdr.addralign else Falign(TypeOf(s.shdr.typ).value, ec);
        a % base == 0)
    && (forall i :: 0 <= i < |s.data| ==> s.data[i].align > 0 && a % s.data[i].align == 0)
  }

  ghost predicate LeastSuiting(a: nat, s: Scn, ec: ElfClass) {
    Suits(a, s, ec) && forall b: nat :: Suits(b, s, ec) ==> a <= b
  }

  /** Where descriptor `i` may start at the earliest. */
  function EndBefore(ds: seq<Data>, i: nat, from: nat): nat
    requires i <= |ds|
  {
    if i == 0 then from else ds[i - 1].off + ds[i - 1].size
  }

  /** Each descriptor starts at the first multiple of `a` after the one before it, and nothing follows the last. */
  ghost predicate Packed(ds: seq<Data>, a: nat, from: nat, size: nat)
    requires a > 0
  {
    && size == EndBefore(ds, |ds|, from)
    && forall i :: 0 <= i < |ds| ==>
         ds[i].off % a == 0 && EndBefore(ds, i, from) <= ds[i].off < EndBefore(ds, i, from) + a
  }

  /** The header says where the section is, how large it is, how large its entries are and how it is aligned; the
      rest of the header is as it was. */
  ghost predicate HeaderTells(s: Scn, was: Scn, ec: ElfClass, a: nat) {
    && s.shdr == was.shdr.(offset := s.shdr.offset, size := s.shdr.size, addralign := s.shdr.addralign,
                           entsize := s.shdr.entsize)
    && s.shdr.offset == Field(ec, s.offset) && s.shdr.size == Field(ec, s.size)
    && s.shdr.addralign == Field(ec, a)
    && (was.shdr.entsize != 0 ==> s.shdr.entsize == Field(ec, was.shdr.entsize))
    && (was.shdr.entsize == 0 && TypeOf(was.shdr.typ).Some? ==>
          var n := Fsize(TypeOf(was.shdr.typ).value, ec); s.shdr.entsize == if n == 1 then 0 else n)
  }

  /** The section starts at the first suitable offset of a file that is `rc` bytes long so far. */
  ghost predicate Settled(s: Scn, was: Scn, ec: ElfClass, rc: nat, a: nat) {
    && LeastSuiting(a, was, ec) && s.offset % a == 0 && rc <= s.offset < rc + a
    && Packed(s.data, a, 0, s.size) && HeaderTells(s, was, ec, a)
  }

  /** What the placement of one section guarantees. */
  ghost predicate WellPlaced(s: Scn, was: Scn, ec: ElfClass, rc: nat) {
    && s.ndx == was.ndx && s.shdr.typ == was.shdr.typ && |s.data| == |was.data|
    && (forall i :: 0 <= i < |s.data| ==> s.data[i] == was.data[i].(off := s.data[i].off))
    && rc <= s.offset
    && InOrder(s.data, 0, s.size)
    && (forall i :: 0 <= i < |s.data| ==> s.data[i].align > 0 && (s.offset + s.data[i].off) % s.data[i].align == 0)
    && (exists a :: Settled(s, was, ec, rc, a))
  }

  lemma {:induction false} LaidOutWellPlaced(s: Scn, ec: ElfClass, version: nat, rc: nat)
    requires Complaint(s, ec, version).None? && Occupies(s)
    ensures WellPlaced(LaidOut(s, ec, version, rc), s, ec, rc)
  {
    hide Falign, Fsize, TypeOf, And, PowerOfTwo, Place, PlaceEnd, DataComplaint, Settled;
    var t := TypeOf(s.shdr.typ).value;
    var base, align := BaseAlign(s, t, ec), MaxAlign(s.data);
    var r := LaidOut(s, ec, version, rc);
    DataAligns(s.data, t, version, base);
    PlaceInOrder(s.data, align, 0);
    if s.data != [] {
      AlignIsMax(s.data, base);
      forall i | 0 <= i < |s.data|
        ensures s.data[i].align > 0 && (r.offset + r.data[i].off) % s.data[i].align == 0
      {
        DescriptorAligned(s.data, i, align, r.offset, r.data[i].off);
      }
    }
    LaidOutSettled(s, ec, version, rc);
  }

  lemma {:induction false} LaidOutSettled(s: Scn, ec: ElfClass, version: nat, rc: nat)
    requires Complaint(s, ec, version).None? && Occupies(s)
    ensures Settled(LaidOut(s, ec, version, rc), s, ec, rc, FinalAlign(s, TypeOf(s.shdr.typ).value, ec))
  {
    var t := TypeOf(s.shdr.typ).value;
    FinalAlignIs(s, t, ec, version);
    DataAligns(s.data, t, version, BaseAlign(s, t, ec));
    EntrySizeFits(t, ec);
    hide Falign, Fsize, TypeOf, And, PowerOfTwo, Place, PlaceEnd, DataComplaint, Packed, LeastSuiting;
    if s.data != [] {
      AlignIsMax(s.data, BaseAlign(s, t, ec));
    }
    PlacePacked(s.data, FinalAlign(s, t, ec), 0);
  }

  lemma {:induction false} EntrySizeFits(t: ElfType, ec: ElfClass)
    ensures Field(ec, Fsize(t, ec)) == Fsize(t, ec)
  {
  }

  /** The largest alignment asked for suits everyone, and no smaller one does. */
  lemma {:induction false} FinalAlignIs(s: Scn, t: ElfType, ec: ElfClass, version: nat)
    requires TypeOf(s.shdr.typ) == Some(t) && DataComplaint(s.data, t, version, BaseAlign(s, t, ec)).None?
    ensures LeastSuiting(FinalAlign(s, t, ec), s, ec)
  {
    hide Falign, Fsize, TypeOf, And, DataComplaint, PowerOfTwo, LeastSuiting;
    var base := BaseAlign(s, t, ec);
    DataAligns(s.data, t, version, base);
    if s.data == [] {
      LeastIs(base, s, t, ec, 0);
    } else {
      AlignIsMax(s.data, base);
      AllDivide(s.data);
      var k := Largest(s.data);
      LeastIs(MaxAlign(s.data), s, t, ec, k);
    }
  }

  lemma {:induction false} Largest(ds: seq<Data>) returns (k: nat)
    requires ds != []
    ensures k < |ds| && ds[k].align == MaxAlign(ds)
  {
    MaxAlignIs(ds);
    k :| 0 <= k < |ds| && ds[k].align == MaxAlign(ds);
  }

  lemma {:induction false} AllDivide(ds: seq<Data>)
    requires ds != [] && forall i :: 0 <= i < |ds| ==> PowerOfTwo(ds[i].align)
    ensures forall i :: 0 <= i < |ds| ==> ds[i].align > 0 && MaxAlign(ds) % ds[i].align == 0
  {
    hide MaxAlign;
    MaxAlignIs(ds);
    var k := Largest(ds);
    forall i | 0 <= i < |ds| ensures ds[i].align > 0 && MaxAlign(ds) % ds[i].align == 0 {
      PowerDivides(ds[i].align, ds[k].align);
    }
  }

  lemma {:induction false} LeastIs(a: nat, s: Scn, t: ElfType, ec: ElfClass, k: nat)
    requires TypeOf(s.shdr.typ) == Some(t) && BaseAlign(s, t, ec) > 0 && a > 0 && a % BaseAlign(s, t, ec) == 0
    requires forall i :: 0 <= i < |s.data| ==> s.data[i].align > 0 && a % s.data[i].align == 0
    requires if s.data == [] then a == BaseAlign(s, t, ec) else k < |s.data| && a == s.data[k].align
    ensures LeastSuiting(a, s, ec)
  {
    hide Falign, TypeOf;
    forall b: nat | Suits(b, s, ec) ensures a <= b {
      assert b % a == 0;
      NotBelow(b, a);
    }
  }

  lemma {:induction false} NotBelow(b: nat, a: nat)
    requires a > 0 && b > 0 && b % a == 0
    ensures a <= b
  {
    if b < a { UniqueMod(b, a, 0, b); }
  }

  lemma {:induction false} PlacePacked(ds: seq<Data>, a: nat, from: nat)
    requires a > 0
    ensures Packed(Place(ds, a, from), a, from, PlaceEnd(ds, a, from))
  {
    if ds != [] {
      hide Packed;
      var d := ds[0].(off := RoundUp(from, a));
      PlacePacked(ds[1..], a, d.off + d.size);
      PackedFirst(d, Place(ds[1..], a, d.off + d.size), a, from, PlaceEnd(ds, a, from));
    }
  }

  lemma {:induction false} PackedFirst(d: Data, ds: seq<Data>, a: nat, from: nat, size: nat)
    requires a > 0 && d.off % a == 0 && from <= d.off < from + a && Packed(ds, a, d.off + d.size, size)
    ensures Packed([d] + ds, a, from, size)
  {
    var r := [d] + ds;
    forall i | 0 <= i < |r|
      ensures r[i].off % a == 0 && EndBefore(r, i, from) <= r[i].off < EndBefore(r, i, from) + a
    {
      if i > 0 { assert r[i] == ds[i - 1] && EndBefore(r, i, from) == EndBefore(ds, i - 1, d.off + d.size); }
    }
    assert EndBefore(r, |r|, from) == EndBefore(ds, |ds|, d.off + d.size);
  }

  lemma {:induction false} DescriptorAligned(ds: seq<Data>, i: nat, align: nat, base: nat, off: nat)
    requires i < |ds| && align == MaxAlign(ds) && align > 0 && base % align == 0 && off % align == 0
    requires forall k :: 0 <= k < |ds| ==> PowerOfTwo(ds[k].align)
    ensures ds[i].align > 0 && (base + off) % ds[i].align == 0
  {
    MaxAlignIs(ds);
    SumDivides(base, off, align);
    var k :| 0 <= k < |ds| && ds[k].align == align;
    PowerDivides(ds[i].align, align);
    DividesThrough(base + off, align, ds[i].align);
  }

  /** A section whose header leaves the alignment open, or asks for a multiple of its type's file
      alignment, starts at a multiple of that file alignment. */
  lemma {:induction false} LaidOutFileAligned(s: Scn, ec: ElfClass, version: nat, rc: nat)
    requires Complaint(s, ec, version).None? && Occupies(s)
    requires s.shdr.addralign == 0 || s.shdr.addralign % Falign(TypeOf(s.shdr.typ).value, ec) == 0
    ensures LaidOut(s, ec, version, rc).offset % Falign(TypeOf(s.shdr.typ).value, ec) == 0
  {
    hide Falign, Fsize, TypeOf, And, PowerOfTwo, Place, PlaceEnd, DataComplaint;
    var t := TypeOf(s.shdr.typ).value;
    BaseDivides(s, t, ec, version);
    DividesThrough(LaidOut(s, ec, version, rc).offset, FinalAlign(s, t, ec), Falign(t, ec));
  }

  /** The base alignment never exceeds the largest descriptor alignment. */
  lemma {:induction false} AlignIsMax(ds: seq<Data>, base: nat)
    requires ds != [] && base > 0
    requires forall i :: 0 <= i < |ds| ==> PowerOfTwo(ds[i].align) && ds[i].align % base == 0
    ensures base <= MaxAlign(ds)
    ensures MaxAlign(ds) % base == 0
  {
    MaxAlignIs(ds);
    var k :| 0 <= k < |ds| && ds[k].align == MaxAlign(ds);
    if ds[k].align < base { UniqueMod(ds[k].align, base, 0, ds[k].align); }
  }

  lemma {:induction false} BaseDivides(s: Scn, t: ElfType, ec: ElfClass, version: nat)
    requires Falign(t, ec) > 0
    requires s.shdr.addralign == 0 || s.shdr.addralign % Falign(t, ec) == 0
    requires DataComplaint(s.data, t, version, BaseAlign(s, t, ec)).None?
    ensures FinalAlign(s, t, ec) > 0 && FinalAlign(s, t, ec) % Falign(t, ec) == 0
  {
    var base := BaseAlign(s, t, ec);
    DataAligns(s.data, t, version, base);
    if s.data != [] {
      AlignIsMax(s.data, base);
      DividesThrough(MaxAlign(s.data), base, Falign(t, ec));
    }
  }

  // ----- The list of sections -----

  function FirstComplaint(ss: seq<Scn>, ec: ElfClass, version: nat): Option<Error> {
    if ss == [] then None
    else if Complaint(ss[0], ec, version).Some? then Complaint(ss[0], ec, version)
    else FirstComplaint(ss[1..], ec, version)
  }

  /** The first pass stops at the first section it cannot place. */
  lemma {:induction false} FirstComplaintIs(ss: seq<Scn>, ec: ElfClass, version: nat)
    ensures var e := FirstComplaint(ss, ec, version);
            && (e.None? <==> forall i :: 0 <= i < |ss| ==> Complaint(ss[i], ec, version).None?)
            && (e.Some? ==> exists k :: 0 <= k < |ss| && e == Complaint(ss[k], ec, version)
                              && forall i :: 0 <= i < k ==> Complaint(ss[i], ec, version).None?)
  {
    hide Complaint;
    if ss != [] && Complaint(ss[0], ec, version).None? {
      FirstComplaintIs(ss[1..], ec, version);
      var e := FirstComplaint(ss, ec, version);
      if e.Some? {
        var k :| 0 <= k < |ss[1..]| && e == Complaint(ss[1..][k], ec, version)
                 && forall i :: 0 <= i < k ==> Complaint(ss[1..][i], ec, version).None?;
        assert ss[k + 1] == ss[1..][k];
        forall i | 0 <= i < k + 1 ensures Complaint(ss[i], ec, version).None? {
          if i > 0 { assert ss[i] == ss[1..][i - 1]; }
        }
      } else {
        forall i | 0 <= i < |ss| ensures Complaint(ss[i], ec, version).None? {
          if i > 0 { assert ss[i] == ss[1..][i - 1]; }
        }
      }
    }
  }

  /** The sections after the first pass, which stops at the first complaint. */
  function LayOut(ss: seq<Scn>, ec: ElfClass, version: nat, rc: nat): (r: seq<Scn>)
    ensures |r| == |ss|
  {
    if ss == [] || Complaint(ss[0], ec, version).Some? then ss
    else
      var s := LaidOut(ss[0], ec, version, rc);
      [s] + LayOut(ss[1..], ec, version, After(s, rc))
  }

  /** The length of the file once the sections are placed. */
  function End(ss: seq<Scn>, rc: nat): nat {
    if ss == [] then rc else End(ss[1..], After(ss[0], rc))
  }

  /** File-occupying sections come in list order, without overlap, between `from` and `end`. */
  ghost predicate Disjoint(ss: seq<Scn>, from: nat, end: nat) {
    && (forall i :: 0 <= i < |ss| && Occupies(ss[i]) ==> from <= ss[i].offset && ss[i].offset + ss[i].size <= end)
    && (forall i, j :: 0 <= i < j < |ss| && Occupies(ss[i]) && Occupies(ss[j]) ==>
          ss[i].offset + ss[i].size <= ss[j].offset)
  }

  /** The layout theorem: for any sections, every descriptor is aligned as it asked, and descriptors
      and sections are in order and pairwise disjoint. */
  lemma {:induction false} LayoutCorrect(ss: seq<Scn>, ec: ElfClass, version: nat, rc: nat)
    requires FirstComplaint(ss, ec, version).None?
    ensures var r := LayOut(ss, ec, version, rc);
            && rc <= End(r, rc)
            && Disjoint(r, rc, End(r, rc))
            && (forall i :: 0 <= i < |ss| && Occupies(ss[i]) ==> WellPlaced(r[i], ss[i], ec, End(r[..i], rc)))
            && (forall i :: 0 <= i < |ss| && !Occupies(ss[i]) ==> r[i] == ss[i])
  {
    if ss != [] {
      var s := LaidOut(ss[0], ec, version, rc);
      var rc' := After(s, rc);
      if Occupies(ss[0]) { LaidOutWellPlaced(ss[0], ec, version, rc); }
      LayoutCorrect(ss[1..], ec, version, rc');
      Prepend(ss, LayOut(ss, ec, version, rc), ec, rc, rc');
    }
  }

  lemma {:induction false} Prepend(ss: seq<Scn>, r: seq<Scn>, ec: ElfClass, rc: nat, rc': nat)
    requires ss != [] && |r| == |ss| && rc <= rc' == After(r[0], rc)
    requires Occupies(ss[0]) ==> WellPlaced(r[0], ss[0], ec, rc)
    requires !Occupies(ss[0]) ==> r[0] == ss[0]
    requires rc' <= End(r[1..], rc') && Disjoint(r[1..], rc', End(r[1..], rc'))
    requires forall i :: 0 <= i < |ss[1..]| && Occupies(ss[1..][i]) ==>
      WellPlaced(r[1..][i], ss[1..][i], ec, End(r[1..][..i], rc'))
    requires forall i :: 0 <= i < |ss[1..]| && !Occupies(ss[1..][i]) ==> r[1..][i] == ss[1..][i]
    ensures Disjoint(r, rc, End(r, rc))
    ensures forall i :: 0 <= i < |ss| && Occupies(ss[i]) ==> WellPlaced(r[i], ss[i], ec, End(r[..i], rc))
    ensures forall i :: 0 <= i < |ss| && !Occupies(ss[i]) ==> r[i] == ss[i]
  {
    forall i | 1 <= i < |ss|
      ensures Occupies(ss[i]) ==> WellPlaced(r[i], ss[i], ec, End(r[..i], rc))
      ensures !Occupies(ss[i]) ==> r[i] == ss[i]
      ensures Occupies(r[i]) ==> rc' <= r[i].offset && r[i].offset + r[i].size <= End(r, rc)
    {
      assert ss[i] == ss[1..][i - 1] && r[i] == r[1..][i - 1];
      assert r[..i][1..] == r[1..][..i - 1];
    }
    assert r[..0] == [];
    forall i, j | 0 <= i < j < |r| && Occupies(r[i]) && Occupies(r[j])
      ensures r[i].offset + r[i].size <= r[j].offset
    {
      if i > 0 { assert r[i] == r[1..][i - 1] && r[j] == r[1..][j - 1]; }
    }
  }

  /** The length of a file is where its last file-occupying section ends. */
  lemma {:induction false} EndIs(ss: seq<Scn>, rc: nat, k: nat)
    requires k <= |ss| && forall i :: k <= i < |ss| ==> !Occupies(ss[i])
    ensures k == 0 ==> End(ss, rc) == rc
    ensures k > 0 && Occupies(ss[k - 1]) ==> End(ss, rc) == ss[k - 1].offset + ss[k - 1].size
  {
    if ss != [] {
      forall i | (if k == 0 then 0 else k - 1) <= i < |ss[1..]| ensures !Occupies(ss[1..][i]) {
        assert ss[1..][i] == ss[i + 1];
      }
      EndIs(ss[1..], After(ss[0], rc), if k == 0 then 0 else k - 1);
      if k > 1 { assert ss[k - 1] == ss[1..][k - 2]; }
    }
  }
}
