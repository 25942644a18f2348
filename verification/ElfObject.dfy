/** The object being written: elf_newscn, and elf_update with its layout passes and image writer. */
module ElfObject {
  import opened Options
  import opened ElfModel
  import opened ElfLayout
  import opened ElfImage
  import opened ElfUpdate
  import opened Numbers

  datatype UpdateResult = Size(size: nat) | Written(image: Bytes) | Failed(error: Error) | Aborted

  // ----- Headers -----

  function HeaderComplaint(eh: Ehdr, ec: ElfClass, version: nat): Option<Error> {
    if (if eh.version == 0 then EV_CURRENT else eh.version) != version then Some(VersionError)
    else if eh.identClass != Some(ec) then Some(ClassError)
    else None
  }

  /** The executable header with the fields the library fills in before laying out sections. */
  function Initialized(eh: Ehdr, ec: ElfClass, version: nat): Ehdr {
    eh.(magic := true, identClass := Some(ec), identVersion := version, ehsize := Fsize(EhdrT, ec),
        phentsize := Fsize(PhdrT, ec), shentsize := Fsize(ShdrT, ec))
  }

  /** End of the program header table, or of the executable header if there is none. */
  function HeadEnd(nphdr: nat, ec: ElfClass): nat {
    Fsize(EhdrT, ec) + Fsize(PhdrT, ec) * nphdr
  }

  function TableOffset(end: nat, ec: ElfClass): nat {
    RoundUp(end, Falign(ShdrT, ec))
  }

  function FileSize(end: nat, nscn: nat, ec: ElfClass): nat {
    if nscn == 0 then end else TableOffset(end, ec) + Fsize(ShdrT, ec) * nscn
  }

  lemma {:induction false} TableFacts(end: nat, nscn: nat, nphdr: nat, ec: ElfClass)
    ensures var at := TableOffset(end, ec);
            && end <= at && Field(ec, at) <= at && 0 < HeadEnd(nphdr, ec) && Field(ec, 0) == 0
            && FileSize(end, nscn, ec) == (if nscn == 0 then end else at + Fsize(ShdrT, ec) * nscn)
            && (nscn > 0 ==> Fsize(ShdrT, ec) * nscn > 0)
  {
    hide RoundUp;
  }

  function EmptyScn(): Scn {
    Scn(0, Shdr(0, SHT_NULL, 0, 0, 0, 0, 0, 0, 0, 0), [], 0, 0)
  }

  /** The sections with section 0 among them, allocated if need be. */
  function WithScn0(ss: seq<Scn>): seq<Scn> {
    if ss == [] then [EmptyScn()] else ss
  }

  /** Counts that do not fit the executable header are kept in section 0. */
  function Extended(ss: seq<Scn>, nphdr: nat, nscn: nat, ec: ElfClass): (r: seq<Scn>)
    ensures |r| >= |ss| && (ss != [] ==> |r| == |ss|)
  {
    var withPh :=
      if nphdr < PN_XNUM then ss
      else
        var base := WithScn0(ss);
        base[0 := base[0].(shdr := base[0].shdr.(info := nphdr % 0x1_0000_0000))];
    if nscn < SHN_LORESERVE then withPh
    else
      var base := WithScn0(withPh);
      base[0 := base[0].(shdr := base[0].shdr.(size := Field(ec, nscn)))]
  }

  lemma {:induction false} ExtendedKeeps(ss: seq<Scn>, nphdr: nat, nscn: nat, ec: ElfClass, from: nat, end: nat)
    requires nscn == |ss|
    ensures var r := Extended(ss, nphdr, nscn, ec);
            && (forall i :: 0 <= i < |ss| ==> r[i] == ss[i].(shdr := r[i].shdr) && r[i].shdr.typ == ss[i].shdr.typ)
            && (forall i :: |ss| <= i < |r| ==> !Occupies(r[i]))
            && (Disjoint(ss, from, end) ==> Disjoint(r, from, end))
            && (Typed(ss) ==> Typed(r))
            && (nphdr < PN_XNUM && nscn < SHN_LORESERVE ==> r == ss)
  {
    var r := Extended(ss, nphdr, nscn, ec);
    assert forall i :: 0 <= i < |ss| ==> Occupies(r[i]) == Occupies(ss[i]);
    if Typed(ss) {
      forall i | 0 <= i < |r| && Occupies(r[i]) ensures TypedScn(r[i]) { assert TypedScn(ss[i]); }
    }
  }

  lemma {:induction false} ExtendedTwice(ss: seq<Scn>, nphdr: nat, nscn: nat, ec: ElfClass)
    ensures Extended(Extended(ss, nphdr, 0, ec), 0, nscn, ec) == Extended(ss, nphdr, nscn, ec)
  {
  }

  lemma {:induction false} FieldOfNone(ec: ElfClass)
    ensures Field(ec, 0) == 0
  {
  }

  /** The executable header after a successful layout. */
  function Resynced(eh: Ehdr, ec: ElfClass, version: nat, nphdr: nat, nscn: nat, end: nat): Ehdr {
    Initialized(eh, ec, version).(
      phnum := if nphdr < PN_XNUM then nphdr else PN_XNUM,
      shnum := if nscn < SHN_LORESERVE then nscn else 0,
      phoff := if nphdr == 0 then 0 else Field(ec, Fsize(EhdrT, ec)),
      shoff := if nscn == 0 then 0 else Field(ec, TableOffset(end, ec)))
  }

  /** What the writer relies on: sections typed, in order and disjoint between the headers and `end`,
      and the table of section headers right after them. */
  ghost predicate Placed(eh: Ehdr, ec: ElfClass, nphdr: nat, ss: seq<Scn>, nscn: nat, end: nat) {
    && HeadEnd(nphdr, ec) <= end && Disjoint(ss, HeadEnd(nphdr, ec), end) && Typed(ss)
    && (forall i {:trigger ss[i]} :: 0 <= i < |ss| && Occupies(ss[i]) ==> InOrder(ss[i].data, 0, ss[i].size))
    && eh.phoff == (if nphdr == 0 then 0 else Fsize(EhdrT, ec))
    && eh.shoff == (if nscn == 0 then 0 else Field(ec, TableOffset(end, ec)))
    && eh.shnum == (if nscn < SHN_LORESERVE then nscn else 0)
    && (nscn > 0 ==> |ss| == nscn)
    && (nscn == 0 ==> end == HeadEnd(nphdr, ec) && forall i :: 0 <= i < |ss| ==> !Occupies(ss[i]))
  }

  /** The header fields can hold the offset of the section header table and the section count. */
  predicate Recordable(end: nat, nscn: nat, ec: ElfClass) {
    nscn == 0 || (nscn < SHN_LORESERVE && Field(ec, TableOffset(end, ec)) == TableOffset(end, ec))
  }

  /** Buffers have the size their descriptors claim. */
  predicate BuffersFit(ss: seq<Scn>) {
    forall i, j {:trigger ss[i].data[j]} :: 0 <= i < |ss| && 0 <= j < |ss[i].data| && ss[i].data[j].buf.Some? ==>
      |ss[i].data[j].buf.value| == ss[i].data[j].size
  }

  lemma {:induction false} LayOutTyped(ss: seq<Scn>, ec: ElfClass, version: nat, rc: nat)
    requires FirstComplaint(ss, ec, version).None? && BuffersFit(ss)
    ensures Typed(LayOut(ss, ec, version, rc))
  {
    hide LayOut, TypeOf, End, Settled;
    var r := LayOut(ss, ec, version, rc);
    LayoutCorrect(ss, ec, version, rc);
    forall i | 0 <= i < |r| && Occupies(r[i]) ensures TypedScn(r[i]) {
      FirstComplaintIs(ss, ec, version);
      assert Occupies(ss[i]);
      assert WellPlaced(r[i], ss[i], ec, End(r[..i], rc));
      var t := TypeOf(ss[i].shdr.typ).value;
      DataAligns(ss[i].data, t, version, BaseAlign(ss[i], t, ec));
      forall j | 0 <= j < |r[i].data|
        ensures r[i].data[j].typ == t && (r[i].data[j].buf.Some? ==> |r[i].data[j].buf.value| == r[i].data[j].size)
      {
        assert r[i].data[j] == ss[i].data[j].(off := r[i].data[j].off);
      }
    }
  }

  /** A successful layout leaves everything the writer relies on. */
  lemma {:induction false} LayoutPlaces(eh: Ehdr, ec: ElfClass, version: nat, nphdr: nat, ss: seq<Scn>)
    requires FirstComplaint(ss, ec, version).None? && BuffersFit(ss)
    ensures var head := HeadEnd(nphdr, ec);
            var r := LayOut(ss, ec, version, head);
            var end := End(r, head);
            Placed(Resynced(eh, ec, version, nphdr, |ss|, end), ec, nphdr, Extended(r, nphdr, |ss|, ec), |ss|, end)
  {
    hide LayOut, FirstComplaint, End, Settled;
    var head := HeadEnd(nphdr, ec);
    var r := LayOut(ss, ec, version, head);
    LayoutCorrect(ss, ec, version, head);
    if ss == [] { EndIs(r, head, 0); }
    LayOutTyped(ss, ec, version, head);
    ExtendedKeeps(r, nphdr, |ss|, ec, head, End(r, head));
    var x := Extended(r, nphdr, |ss|, ec);
    hide Extended, Disjoint, Typed, TypedScn;
    forall i | 0 <= i < |x| && Occupies(x[i]) ensures InOrder(x[i].data, 0, x[i].size) {
      assert Occupies(r[i]) && Occupies(ss[i]);
      assert WellPlaced(r[i], ss[i], ec, End(r[..i], head));
    }
  }

  /** The whole of elf_update as seen by its caller: the complaint that stops the layout, if any, and
      otherwise the final sections, headers and length. */
  function UpdateComplaint(eh: Ehdr, ec: ElfClass, version: nat, ss: seq<Scn>): Option<Error> {
    var h := HeaderComplaint(eh, ec, version);
    if h.Some? then h else FirstComplaint(ss, ec, version)
  }

  function SectionsEnd(ec: ElfClass, version: nat, nphdr: nat, ss: seq<Scn>): nat {
    End(LayOut(ss, ec, version, HeadEnd(nphdr, ec)), HeadEnd(nphdr, ec))
  }

  function FinalSections(ec: ElfClass, version: nat, nphdr: nat, ss: seq<Scn>): seq<Scn> {
    Extended(LayOut(ss, ec, version, HeadEnd(nphdr, ec)), nphdr, |ss|, ec)
  }

  function FinalPieces(eh: Ehdr, ec: ElfClass, version: nat, nphdr: nat, phdrs: Bytes, ss: seq<Scn>, c: Codec)
    : seq<Piece> {
    var end := SectionsEnd(ec, version, nphdr, ss);
    FilePieces(Resynced(eh, ec, version, nphdr, |ss|, end), ec, phdrs, nphdr,
               FinalSections(ec, version, nphdr, ss), |ss|, TableOffset(end, ec), c)
  }

  /** A section as the application should set it up: some data, every descriptor encodable, and the
      alignment either left open or a multiple of the file alignment of the data type. */
  predicate Prepared(s: Scn, ec: ElfClass) {
    && s.data != [] && AllWritable(s.data, ec)
    && TypeOf(s.shdr.typ).Some?
    && (s.shdr.addralign == 0 || s.shdr.addralign % Falign(TypeOf(s.shdr.typ).value, ec) == 0)
  }

  lemma {:induction false} PreparedLaidOut(s: Scn, ec: ElfClass, version: nat, rc: nat)
    requires Complaint(s, ec, version).None? && Occupies(s) && Prepared(s, ec)
    ensures WritableScn(LaidOut(s, ec, version, rc), ec)
  {
    hide TypeOf, Falign, Fsize, Msize, LaidOut, Complaint;
    LaidOutWellPlaced(s, ec, version, rc);
    LaidOutFileAligned(s, ec, version, rc);
    var r := LaidOut(s, ec, version, rc);
    forall i | 0 <= i < |r.data| ensures WritableData(r.data[i], ec) {
      assert r.data[i] == s.data[i].(off := r.data[i].off);
    }
  }

  /** Prepared sections are always written. */
  lemma {:induction false} PreparedIsWritable(ss: seq<Scn>, ec: ElfClass, version: nat, rc: nat)
    requires FirstComplaint(ss, ec, version).None?
    requires forall i {:trigger ss[i]} :: 0 <= i < |ss| && Occupies(ss[i]) ==> Prepared(ss[i], ec)
    ensures AllScnsWritable(LayOut(ss, ec, version, rc), ec)
  {
    hide Complaint, LaidOut, WritableScn, Prepared;
    if ss != [] {
      var s := LaidOut(ss[0], ec, version, rc);
      var r, r' := LayOut(ss, ec, version, rc), LayOut(ss[1..], ec, version, After(s, rc));
      PreparedIsWritable(ss[1..], ec, version, After(s, rc));
      KeepsType(ss[0], ec, version, rc);
      if Occupies(ss[0]) { PreparedLaidOut(ss[0], ec, version, rc); }
      forall i | 0 <= i < |r| && Occupies(r[i]) ensures WritableScn(r[i], ec) {
        if i > 0 { assert r[i] == r'[i - 1]; }
      }
    }
  }

  lemma {:induction false} KeepsType(s: Scn, ec: ElfClass, version: nat, rc: nat)
    requires Complaint(s, ec, version).None?
    ensures Occupies(LaidOut(s, ec, version, rc)) == Occupies(s)
  {
  }

  lemma {:induction false} ExtendedWritable(ss: seq<Scn>, nphdr: nat, nscn: nat, ec: ElfClass)
    requires nscn == |ss| && AllScnsWritable(ss, ec)
    ensures AllScnsWritable(Extended(ss, nphdr, nscn, ec), ec)
  {
    hide Extended, WritableScn;
    ExtendedKeeps(ss, nphdr, nscn, ec, 0, 0);
    var r := Extended(ss, nphdr, nscn, ec);
    forall i | 0 <= i < |r| && Occupies(r[i]) ensures WritableScn(r[i], ec) {
      SameButHeader(ss[i], r[i], ec);
    }
  }

  lemma {:induction false} SameButHeader(s: Scn, r: Scn, ec: ElfClass)
    requires r == s.(shdr := r.shdr) && r.shdr.typ == s.shdr.typ
    ensures WritableScn(r, ec) == WritableScn(s, ec)
  {
  }

  /** With prepared sections the writer's own checks always pass. */
  lemma {:induction false} PreparedUpdates(ec: ElfClass, version: nat, nphdr: nat, ss: seq<Scn>)
    requires FirstComplaint(ss, ec, version).None?
    requires forall i {:trigger ss[i]} :: 0 <= i < |ss| && Occupies(ss[i]) ==> Prepared(ss[i], ec)
    ensures AllScnsWritable(FinalSections(ec, version, nphdr, ss), ec)
  {
    hide LayOut, FirstComplaint, Extended, AllScnsWritable, Prepared;
    PreparedIsWritable(ss, ec, version, HeadEnd(nphdr, ec));
    ExtendedWritable(LayOut(ss, ec, version, HeadEnd(nphdr, ec)), nphdr, |ss|, ec);
  }

  // ----- An object that stops the writer -----

  function ByteScn(bytes: Bytes): Scn {
    Scn(1, Shdr(0, 1, 0, 0, 0, 0, 0, 0, 1, 0), [Data(ByteT, EV_CURRENT, 1, |bytes|, Some(bytes), 0, true)], 0, 0)
  }

  function SymbolScn(symbols: Bytes): Scn {
    Scn(2, Shdr(0, 2, 0, 0, 0, 0, 0, 0, 1, 0), [Data(SymT, EV_CURRENT, 1, |symbols|, Some(symbols), 0, true)], 0, 0)
  }

  /** One section of bytes and, after it, a symbol table whose header asks for byte alignment. */
  function ByteAligned(first: Bytes, symbols: Bytes): seq<Scn> {
    [EmptyScn(), ByteScn(first), SymbolScn(symbols)]
  }

  /** It passes the layout checks, but if the first section has an odd size the writer stops at its alignment
      assertion. */
  lemma {:induction false} ByteAlignedSymtabAborts(first: Bytes, symbols: Bytes)
    requires |first| % 2 == 1 && |symbols| % 16 == 0 && symbols != []
    ensures FirstComplaint(ByteAligned(first, symbols), Class32, EV_CURRENT).None?
    ensures ScnsVerdict(FinalSections(Class32, EV_CURRENT, 0, ByteAligned(first, symbols)), Class32) == Abort
  {
    hide LaidOut, Complaint, Occupies, ScnVerdict, ScnsVerdict, FirstComplaint, LayOut, HeadEnd, Extended, ByteScn,
         SymbolScn;
    PlacedBytes(first, 52);
    PlacedSymbols(symbols, 52 + |first|);
    var r1 := LaidOut(ByteScn(first), Class32, EV_CURRENT, 52);
    var r2 := LaidOut(SymbolScn(symbols), Class32, EV_CURRENT, 52 + |first|);
    LaidOutInTurn(ByteAligned(first, symbols), 52, r1, r2);
    VerdictInTurn(r1, r2);
    NotExtended([EmptyScn(), r1, r2]);
  }

  lemma {:induction false} NotExtended(ss: seq<Scn>)
    requires |ss| == 3
    ensures Extended(ss, 0, 3, Class32) == ss && HeadEnd(0, Class32) == 52
  {
  }

  lemma {:induction false} PlacedBytes(bytes: Bytes, rc: nat)
    requires bytes != []
    ensures Complaint(ByteScn(bytes), Class32, EV_CURRENT).None?
    ensures var r := LaidOut(ByteScn(bytes), Class32, EV_CURRENT, rc);
            Occupies(r) && r.offset == rc && r.size == |bytes| && ScnVerdict(r, Class32) == Ok
  {
    var s := ByteScn(bytes);
    assert Occupies(s) && TypeOf(s.shdr.typ) == Some(ByteT);
    hide LaidOut, Complaint, ScnVerdict, TypeOf;
    OneByteAligned(s, ByteT, rc);
    BytesAccepted(LaidOut(s, Class32, EV_CURRENT, rc));
  }

  lemma {:induction false} PlacedSymbols(symbols: Bytes, rc: nat)
    requires rc % 2 == 1
    ensures Complaint(SymbolScn(symbols), Class32, EV_CURRENT).None?
    ensures ScnVerdict(LaidOut(SymbolScn(symbols), Class32, EV_CURRENT, rc), Class32) == Abort
  {
    var s := SymbolScn(symbols);
    assert Occupies(s) && TypeOf(s.shdr.typ) == Some(SymT);
    hide LaidOut, Complaint, ScnVerdict, TypeOf;
    OneByteAligned(s, SymT, rc);
    OddSymtab(LaidOut(s, Class32, EV_CURRENT, rc));
  }

  lemma {:induction false} BytesAccepted(r: Scn)
    requires Occupies(r) && r.shdr.typ == 1 && |r.data| == 1 && r.data[0].buf.Some? && r.data[0].size > 0
    requires r.data[0].hostAligned
    ensures ScnVerdict(r, Class32) == Ok
  {
    assert TypeOf(1) == Some(ByteT) && Msize(ByteT, Class32) == 1 && Falign(ByteT, Class32) == 1;
    hide TypeOf, Msize, Falign;
    assert r.data[1..] == [] && r.offset % 1 == 0 && r.data[0].size % 1 == 0;
    assert DataVerdict(r.data[1..], ByteT, Class32) == Ok;
  }

  lemma {:induction false} OddSymtab(r: Scn)
    requires Occupies(r) && r.shdr.typ == 2 && r.offset % 2 == 1
    ensures ScnVerdict(r, Class32) == Abort
  {
    assert TypeOf(2) == Some(SymT) && Falign(SymT, Class32) == 4;
  }

  lemma {:induction false} OneByteAligned(s: Scn, t: ElfType, rc: nat)
    requires Occupies(s) && TypeOf(s.shdr.typ) == Some(t) && s.shdr.addralign == 1 && |s.data| == 1
    requires s.data[0].typ == t && s.data[0].version == EV_CURRENT && s.data[0].align == 1
    ensures Complaint(s, Class32, EV_CURRENT).None?
    ensures var r := LaidOut(s, Class32, EV_CURRENT, rc);
            && r.offset == rc && r.size == s.data[0].size && r.data == [s.data[0].(off := 0)]
            && r.shdr.typ == s.shdr.typ
  {
    assert s.data[1..] == [];
    assert And(1, 0) == 0;
    hide TypeOf, Falign, Fsize, And;
    assert DataComplaint(s.data, t, EV_CURRENT, 1).None?;
    assert MaxAlign(s.data) == 1;
    assert PlaceEnd(s.data, 1, 0) == PlaceEnd([], 1, s.data[0].size);
    assert Place(s.data, 1, 0) == [s.data[0].(off := 0)] + Place([], 1, s.data[0].size);
  }

  lemma {:induction false} LaidOutInTurn(ss: seq<Scn>, head: nat, r1: Scn, r2: Scn)
    requires |ss| == 3 && ss[0] == EmptyScn()
    requires Complaint(ss[1], Class32, EV_CURRENT).None? && Complaint(ss[2], Class32, EV_CURRENT).None?
    requires r1 == LaidOut(ss[1], Class32, EV_CURRENT, head) && Occupies(r1) && r1.offset == head
    requires r2 == LaidOut(ss[2], Class32, EV_CURRENT, head + r1.size)
    ensures FirstComplaint(ss, Class32, EV_CURRENT).None?
    ensures LayOut(ss, Class32, EV_CURRENT, head) == [EmptyScn(), r1, r2]
  {
    hide LaidOut, Complaint, LayOut, FirstComplaint, After, EmptyScn, Occupies;
    EmptyIsSkipped(head);
    EndsAfter(r1, head);
    assert ss[0..] == ss;
    Elf.LayOutStep(ss, 0, Class32, EV_CURRENT, head);
    Elf.LayOutStep(ss, 1, Class32, EV_CURRENT, head);
    Elf.LayOutStep(ss, 2, Class32, EV_CURRENT, head + r1.size);
    Elf.NothingLeft(ss, Class32, EV_CURRENT, After(r2, head + r1.size));
  }

  lemma {:induction false} EmptyIsSkipped(rc: nat)
    ensures Complaint(EmptyScn(), Class32, EV_CURRENT).None?
    ensures LaidOut(EmptyScn(), Class32, EV_CURRENT, rc) == EmptyScn() && After(EmptyScn(), rc) == rc
  {
  }

  lemma {:induction false} EndsAfter(s: Scn, rc: nat)
    requires Occupies(s) && s.offset == rc
    ensures After(s, rc) == rc + s.size
  {
  }

  lemma {:induction false} VerdictInTurn(r1: Scn, r2: Scn)
    requires ScnVerdict(r1, Class32) == Ok && ScnVerdict(r2, Class32) != Ok
    ensures ScnsVerdict([EmptyScn(), r1, r2], Class32) == ScnVerdict(r2, Class32)
  {
    assert ScnVerdict(EmptyScn(), Class32) == Ok;
    hide ScnVerdict;
    assert [EmptyScn(), r1, r2][1..] == [r1, r2] && [r1, r2][1..] == [r2];
    assert ScnsVerdict([r1, r2], Class32) == ScnsVerdict([r2], Class32) == ScnVerdict(r2, Class32);
  }

  class Elf {
    const eclass: ElfClass
    const version: nat
    const codec: Codec
    const fill: bv8
    var ehdr: Ehdr
    var nphdr: nat
    var phdrs: Bytes
    var scns: seq<Scn>
    var nscn: nat

    /** A descriptor as elf_begin(ELF_C_WRITE) leaves it, once it has an executable header. */
    constructor (ec: ElfClass, c: Codec, fillchar: bv8, eh: Ehdr)
      requires ValidCodec(c, ec)
      ensures Valid() && Numbered()
      ensures eclass == ec && version == EV_CURRENT && codec == c && fill == fillchar
      ensures ehdr == eh && nphdr == 0 && scns == [] && nscn == 0
    {
      eclass, version, codec, fill, ehdr := ec, EV_CURRENT, c, fillchar, eh;
      nphdr, phdrs, scns, nscn := 0, [], [], 0;
    }

    ghost predicate Valid()
      reads this
    {
      ValidCodec(codec, eclass) && |phdrs| == nphdr * Msize(PhdrT, eclass)
    }

    /** The section list is complete and numbered in list order. */
    ghost predicate Numbered()
      reads this
    {
      nscn == |scns| && forall i :: 0 <= i < |scns| ==> scns[i].ndx == i
    }

    /** Append a section; the very first call also allocates the undefined section 0. Nothing is
        returned when an assertion on the section count fails. */
    method NewScn() returns (r: Option<nat>)
      modifies this`scns, this`nscn
      ensures r.None? <==> old((scns == []) != (nscn == 0))
      ensures r.None? ==> scns == old(scns) && nscn == old(nscn)
      ensures r.Some? ==> nscn == r.value + 1 && r.value > 0 && scns != [] && scns[|scns| - 1].ndx == r.value
      ensures r.Some? ==> scns == WithScn0(old(scns)) + [EmptyScn().(ndx := r.value)]
      ensures r.Some? && old(Numbered()) ==> Numbered() && |scns| == if old(scns) == [] then 2 else |old(scns)| + 1
    {
      var empty := Shdr(0, SHT_NULL, 0, 0, 0, 0, 0, 0, 0, 0);
      if scns == [] {
        if nscn != 0 {
          return None;
        }
        scns := [Scn(0, empty, [], 0, 0)];
        nscn := nscn + 1;
      }
      if nscn == 0 {
        return None;
      }
      scns := scns + [Scn(nscn, empty, [], 0, 0)];
      r := Some(nscn);
      nscn := nscn + 1;
    }

    // ----- Layout -----

    /** First loop over a section's descriptors: checks, and the largest alignment. */
    static method ScanData(ds: seq<Data>, t: ElfType, version: nat, base: nat) returns (err: Option<Error>, align: nat)
      requires base > 0
      ensures err == DataComplaint(ds, t, version, base)
      ensures err.None? ==> align == MaxAlign(ds)
    {
      align := 0;
      var k := 0;
      while k < |ds|
        invariant 0 <= k <= |ds|
        invariant DataComplaint(ds, t, version, base) == DataComplaint(ds[k..], t, version, base)
        invariant MaxAlign(ds) == Max(align, MaxAlign(ds[k..]))
      {
        var d := ds[k];
        assert ds[k..][0] == d && ds[k..][1..] == ds[k + 1..];
        if d.typ != t {
          return Some(DataError), align;
        }
        if d.version != version {
          return Some(VersionError), align;
        }
        if d.align % base != 0 {
          return Some(LayoutError), align;
        }
        if d.align == 0 || And(d.align, d.align - 1) != 0 {
          return Some(DataError), align;
        }
        if d.align > align {
          align := d.align;
        }
        k := k + 1;
      }
      err := None;
    }

    /** Second loop: set each descriptor's offset. */
    static method PlaceData(ds: seq<Data>, align: nat) returns (placed: seq<Data>, size: nat)
      requires ds != [] ==> align > 0
      ensures placed == Place(ds, align, 0) && size == PlaceEnd(ds, align, 0)
    {
      placed, size := ds, 0;
      var k := 0;
      while k < |ds|
        invariant 0 <= k <= |ds| == |placed|
        invariant placed[k..] == ds[k..]
        invariant Place(ds, align, 0) == placed[..k] + Place(ds[k..], align, size)
        invariant PlaceEnd(ds, align, 0) == PlaceEnd(ds[k..], align, size)
      {
        hide Place, PlaceEnd, RoundUp;
        PlaceStep(ds, k, align, size);
        ghost var before := placed[..k];
        assert placed[k] == placed[k..][0] == ds[k];
        size := RoundUp(size, align);
        placed := placed[k := placed[k].(off := size)];
        size := size + placed[k].size;
        k := k + 1;
        assert placed[..k] == before + [placed[k - 1]];
      }
      assert placed[..|ds|] == placed;
    }

    static lemma {:induction false} PlaceStep(ds: seq<Data>, k: nat, align: nat, from: nat)
      requires k < |ds| && align > 0
      ensures Place(ds[k..], align, from)
           == [ds[k].(off := RoundUp(from, align))] + Place(ds[k + 1..], align, RoundUp(from, align) + ds[k].size)
      ensures PlaceEnd(ds[k..], align, from) == PlaceEnd(ds[k + 1..], align, RoundUp(from, align) + ds[k].size)
    {
      assert ds[k..][0] == ds[k] && ds[k..][1..] == ds[k + 1..];
    }

    /** Place section `i` in a file that is `rc` bytes long so far. */
    method ComputeSectionExtents(i: nat, rc: nat) returns (err: Option<Error>, nrc: nat)
      requires i < |scns|
      modifies this`scns
      ensures err == Complaint(old(scns)[i], eclass, version)
      ensures err.Some? ==> scns == old(scns)
      ensures err.None? ==>
        scns == old(scns)[i := LaidOut(old(scns)[i], eclass, version, rc)] && nrc == After(scns[i], rc)
      ensures err.None? && Occupies(old(scns)[i]) ==>
        WellPlaced(scns[i], old(scns)[i], eclass, rc) && nrc == scns[i].offset + scns[i].size
      ensures err.None? && !Occupies(old(scns)[i]) ==> scns == old(scns) && nrc == rc
    {
      nrc := rc;
      var s := scns[i];
      if s.shdr.typ == SHT_NULL || s.shdr.typ == SHT_NOBITS {
        return None, nrc;
      }
      var ty := TypeOf(s.shdr.typ);
      if ty.None? {
        return Some(SectionError), nrc;
      }
      var t := ty.value;
      var shAlign := s.shdr.addralign;
      if shAlign == 0 {
        shAlign := Falign(t, eclass);
      }
      var align;
      err, align := ScanData(s.data, t, version, shAlign);
      if err.Some? {
        return;
      }
      DataAligns(s.data, t, version, shAlign);
      hide TypeOf, Falign, Fsize, And, DataComplaint;
      var placed, size := PlaceData(s.data, align);
      if align > shAlign {
        shAlign := align;
      }
      var entsize := s.shdr.entsize;
      if entsize == 0 {
        entsize := Fsize(t, eclass);
        if entsize == 1 {
          entsize := 0;
        }
      }
      var offset := RoundUp(rc, shAlign);
      var shdr := s.shdr.(addralign := Field(eclass, shAlign), entsize := Field(eclass, entsize),
                          offset := Field(eclass, offset), size := Field(eclass, size));
      scns := scns[i := s.(shdr := shdr, data := placed, offset := offset, size := size)];
      if nrc < offset + size {
        nrc := offset + size;
      }
      hide WellPlaced;
      LaidOutWellPlaced(s, eclass, version, rc);
    }

    static lemma {:induction false} LayOutStep(ss: seq<Scn>, k: nat, ec: ElfClass, version: nat, rc: nat)
      requires k < |ss|
      ensures Complaint(ss[k], ec, version).Some? ==>
                && FirstComplaint(ss[k..], ec, version) == Complaint(ss[k], ec, version)
                && LayOut(ss[k..], ec, version, rc) == ss[k..]
      ensures Complaint(ss[k], ec, version).None? ==>
                var s := LaidOut(ss[k], ec, version, rc);
                && FirstComplaint(ss[k..], ec, version) == FirstComplaint(ss[k + 1..], ec, version)
                && LayOut(ss[k..], ec, version, rc) == [s] + LayOut(ss[k + 1..], ec, version, After(s, rc))
    {
      assert ss[k..][0] == ss[k] && ss[k..][1..] == ss[k + 1..];
    }

    static lemma {:induction false} EndStep(ss: seq<Scn>, k: nat, rc: nat)
      requires k < |ss|
      ensures End(ss[k..], rc) == End(ss[k + 1..], After(ss[k], rc))
    {
      assert ss[k..][0] == ss[k] && ss[k..][1..] == ss[k + 1..];
    }

    static lemma {:induction false} EndConcat(ss: seq<Scn>, s: Scn, rc: nat)
      ensures End(ss + [s], rc) == After(s, End(ss, rc))
    {
      if ss == [] {
        assert (ss + [s])[1..] == [];
      } else {
        assert (ss + [s])[1..] == ss[1..] + [s];
        EndConcat(ss[1..], s, After(ss[0], rc));
      }
    }

    /** First pass: compute the extent of each section in turn. */
    method PlaceSections(rc: nat) returns (err: Option<Error>, nrc: nat)
      modifies this`scns
      ensures err == FirstComplaint(old(scns), eclass, version)
      ensures scns == LayOut(old(scns), eclass, version, rc)
      ensures err.None? ==> nrc == End(scns, rc)
    {
      hide Complaint, LaidOut, LayOut, FirstComplaint, After, End;
      ghost var was := scns;
      nrc := rc;
      EndOfNothing([], rc);
      assert scns[..0] == [][0..];
      assert was[0..] == was && scns[..0] + LayOut(was, eclass, version, rc) == LayOut(was, eclass, version, rc);
      var k := 0;
      while k < |scns|
        invariant 0 <= k <= |scns| == |was|
        invariant forall i :: k <= i < |scns| ==> scns[i] == was[i]
        invariant FirstComplaint(was, eclass, version) == FirstComplaint(was[k..], eclass, version)
        invariant LayOut(was, eclass, version, rc) == scns[..k] + LayOut(was[k..], eclass, version, nrc)
        invariant nrc == End(scns[..k], rc)
      {
        LayOutStep(was, k, eclass, version, nrc);
        ghost var before := scns[..k];
        err, nrc := ComputeSectionExtents(k, nrc);
        if err.Some? {
          assert scns == before + was[k..];
          return err, nrc;
        }
        EndConcat(before, scns[k], rc);
        Regroup(before, scns[k], LayOut(was[k + 1..], eclass, version, nrc));
        k := k + 1;
        assert scns[..k] == before + [scns[k - 1]];
      }
      NothingLeft(was, eclass, version, nrc);
      assert scns[..|was|] == scns;
      err := None;
    }

    static lemma {:induction false} Regroup(a: seq<Scn>, s: Scn, b: seq<Scn>)
      ensures a + ([s] + b) == a + [s] + b
    {
    }

    static lemma {:induction false} NothingLeft(ss: seq<Scn>, ec: ElfClass, version: nat, rc: nat)
      ensures FirstComplaint(ss[|ss|..], ec, version).None? && LayOut(ss[|ss|..], ec, version, rc) == []
    {
    }

    /** Second pass: recompute the file length from the placements. Since they come out in order, the
        branches that reorder the list or report an overlap are never reached. */
    method CheckOrder(rc0: nat, ghost was: seq<Scn>) returns (rc: nat)
      requires FirstComplaint(was, eclass, version).None? && scns == LayOut(was, eclass, version, rc0)
      ensures rc == End(scns, rc0)
    {
      hide Complaint, LayOut, FirstComplaint, End;
      rc := rc0;
      assert was[0..] == was && scns[0..] == scns;
      var k := 0;
      while k < |scns|
        invariant 0 <= k <= |scns| == |was|
        invariant FirstComplaint(was[k..], eclass, version).None?
        invariant scns[k..] == LayOut(was[k..], eclass, version, rc)
        invariant End(scns, rc0) == End(scns[k..], rc)
      {
        LayOutStep(was, k, eclass, version, rc);
        EndStep(scns, k, rc);
        assert scns[k..][0] == scns[k] && scns[k..][1..] == scns[k + 1..];
        if scns[k].shdr.typ != SHT_NOBITS && scns[k].shdr.typ != SHT_NULL {
          if scns[k].offset < rc {
            // Move the section to its place in the list, or report an overlap.
            assert false;
          } else {
            rc := scns[k].offset + scns[k].size;
          }
        }
        k := k + 1;
      }
      EndOfNothing(scns, rc);
    }

    static lemma {:induction false} EndOfNothing(ss: seq<Scn>, rc: nat)
      ensures End(ss[|ss|..], rc) == rc
    {
    }

    method ResyncSections(rc0: nat) returns (err: Option<Error>, rc: nat)
      modifies this`scns
      ensures err == FirstComplaint(old(scns), eclass, version)
      ensures scns == LayOut(old(scns), eclass, version, rc0)
      ensures err.None? ==> rc == End(scns, rc0)
    {
      var nrc;
      err, nrc := PlaceSections(rc0);
      if err.Some? {
        return err, rc0;
      }
      rc := CheckOrder(rc0, old(scns));
      assert nrc == rc;
    }

    method SetPhnum(phnum: nat)
      modifies this`ehdr, this`scns
      ensures ehdr == old(ehdr).(phnum := if phnum < PN_XNUM then phnum else PN_XNUM)
      ensures scns == Extended(old(scns), phnum, 0, eclass)
    {
      if phnum >= PN_XNUM {
        scns := WithScn0(scns);
        scns := scns[0 := scns[0].(shdr := scns[0].shdr.(info := phnum % 0x1_0000_0000))];
        ehdr := ehdr.(phnum := PN_XNUM);
      } else {
        ehdr := ehdr.(phnum := phnum);
      }
    }

    method SetShnum(shnum: nat)
      modifies this`ehdr, this`scns
      ensures ehdr == old(ehdr).(shnum := if shnum < SHN_LORESERVE then shnum else 0)
      ensures scns == Extended(old(scns), 0, shnum, eclass)
    {
      if shnum >= SHN_LORESERVE {
        scns := WithScn0(scns);
        scns := scns[0 := scns[0].(shdr := scns[0].shdr.(size := Field(eclass, shnum)))];
        ehdr := ehdr.(shnum := 0);
      } else {
        ehdr := ehdr.(shnum := shnum);
      }
    }

    /** Lay out the whole file; on success `size` is its length. */
    method ResyncElf() returns (err: Option<Error>, size: nat)
      requires Numbered()
      modifies this`ehdr, this`scns
      ensures var h := HeaderComplaint(old(ehdr), eclass, version);
              err == if h.Some? then h else FirstComplaint(old(scns), eclass, version)
      ensures version == EV_CURRENT && old(ehdr).version !in {0, EV_CURRENT} ==> err == Some(VersionError)
      ensures version == EV_CURRENT && old(ehdr).version in {0, EV_CURRENT} && old(ehdr).identClass != Some(eclass) ==>
                err == Some(ClassError)
      ensures HeaderComplaint(old(ehdr), eclass, version).Some? ==> ehdr == old(ehdr) && scns == old(scns)
      ensures HeaderComplaint(old(ehdr), eclass, version).None? && err.Some? ==>
                ehdr == Initialized(old(ehdr), eclass, version)
                && scns == LayOut(old(scns), eclass, version, HeadEnd(nphdr, eclass))
      ensures err.None? ==>
                var head := HeadEnd(nphdr, eclass);
                var ss := LayOut(old(scns), eclass, version, head);
                && size == FileSize(End(ss, head), nscn, eclass)
                && scns == Extended(ss, nphdr, nscn, eclass)
                && ehdr == Resynced(old(ehdr), eclass, version, nphdr, nscn, End(ss, head))
    {
      hide LayOut, FirstComplaint, End;
      var ehVersion := if ehdr.version == 0 then EV_CURRENT else ehdr.version;
      if ehVersion != version {
        return Some(VersionError), 0;
      }
      if ehdr.identClass != Some(eclass) {
        return Some(ClassError), 0;
      }
      ehdr := Initialized(ehdr, eclass, ehVersion);

      var rc := Fsize(EhdrT, eclass);
      var phoff := 0;
      if nphdr != 0 {
        phoff := RoundUp(rc, Falign(PhdrT, eclass));
        rc := phoff + Fsize(PhdrT, eclass) * nphdr;
      }
      assert rc == HeadEnd(nphdr, eclass);

      err, rc := ResyncSections(rc);
      if err.Some? {
        return err, 0;
      }

      size := FinishHeaders(rc, phoff);
    }

    /** Place the section header table after the sections and record the counts and offsets. */
    method FinishHeaders(end: nat, phoff: nat) returns (size: nat)
      modifies this`ehdr, this`scns
      ensures size == FileSize(end, nscn, eclass)
      ensures scns == Extended(old(scns), nphdr, nscn, eclass)
      ensures ehdr == old(ehdr).(
                phnum := if nphdr < PN_XNUM then nphdr else PN_XNUM,
                shnum := if nscn < SHN_LORESERVE then nscn else 0,
                phoff := Field(eclass, phoff),
                shoff := if nscn == 0 then 0 else Field(eclass, TableOffset(end, eclass)))
    {
      hide Extended, RoundUp, Fsize, Field;
      ExtendedTwice(scns, nphdr, nscn, eclass);
      FieldOfNone(eclass);
      var rc, shoff := end, 0;
      if nscn != 0 {
        shoff := RoundUp(rc, Falign(ShdrT, eclass));
        rc := shoff + Fsize(ShdrT, eclass) * nscn;
      }
      SetPhnum(nphdr);
      SetShnum(nscn);
      ehdr := ehdr.(phoff := Field(eclass, phoff), shoff := Field(eclass, shoff));
      size := rc;
    }

    // ----- Image -----

    /** The pieces of the file described by the current state. */
    ghost function Pieces(end: nat): seq<Piece>
      reads this
    {
      FilePieces(ehdr, eclass, phdrs, nphdr, scns, nscn, TableOffset(end, eclass), codec)
    }

    /** Executable header and program header table. */
    method WriteHeaders(a: array<bv8>, ghost end: nat) returns (rc: nat)
      requires Valid() && Placed(ehdr, eclass, nphdr, scns, nscn, end) && end <= a.Length
      modifies a
      ensures Holds(a, rc, HeaderPieces(ehdr, eclass, phdrs, nphdr, codec), fill)
      ensures rc == HeadEnd(nphdr, eclass)
    {
      hide *;
      HeaderFacts(end);
      HoldsNothing(a, fill);
      rc := Emit(a, 0, Piece(0, codec.ehdr(ehdr)), fill, []);
      if nphdr != 0 && ehdr.phoff != 0 {
        // The table is written at rc, which is where e_phoff points.
        rc := Emit(a, rc, Piece(rc, codec.data(PhdrT, phdrs)), fill, [] + [Piece(0, codec.ehdr(ehdr))]);
      }
    }

    /** Where the headers go, and the lengths of their encodings. */
    lemma {:induction false} HeaderFacts(end: nat)
      requires Valid() && Placed(ehdr, eclass, nphdr, scns, nscn, end)
      ensures var n, m := |codec.ehdr(ehdr)|, |codec.data(PhdrT, phdrs)|;
              && HeadEnd(nphdr, eclass) == n + m <= end && PieceEnd(Piece(0, codec.ehdr(ehdr))) == n > 0
              && PieceEnd(Piece(n, codec.data(PhdrT, phdrs))) == n + m && (nphdr == 0 ==> m == 0)
              && ehdr.phoff == (if nphdr == 0 then 0 else n)
              && HeaderPieces(ehdr, eclass, phdrs, nphdr, codec) ==
                 [] + [Piece(0, codec.ehdr(ehdr))] + (if nphdr == 0 then [] else [Piece(n, codec.data(PhdrT, phdrs))])
              && [] + [Piece(0, codec.ehdr(ehdr))] + [] == [] + [Piece(0, codec.ehdr(ehdr))]
    {
      hide Placed, Fsize, Msize;
      PlacedHeaders(end);
      PhdrLength();
      EhdrLength(eclass, codec, ehdr);
    }

    lemma {:induction false} HoldsNothing(a: array<bv8>, fill: bv8)
      ensures Holds(a, 0, [], fill)
    {
    }

    lemma {:induction false} PlacedHeaders(end: nat)
      requires Placed(ehdr, eclass, nphdr, scns, nscn, end)
      ensures HeadEnd(nphdr, eclass) <= end && ehdr.phoff == (if nphdr == 0 then 0 else Fsize(EhdrT, eclass))
    {
    }

    lemma {:induction false} EhdrLength(ec: ElfClass, c: Codec, h: Ehdr)
      requires ValidCodec(c, ec)
      ensures |c.ehdr(h)| == Fsize(EhdrT, ec) > 0
    {
    }

    lemma {:induction false} PhdrLength()
      requires Valid()
      ensures |codec.data(PhdrT, phdrs)| == Fsize(PhdrT, eclass) * nphdr
    {
      var m := Msize(PhdrT, eclass);
      assert m == 32 || m == 56;
      UniqueMod(|phdrs|, m, nphdr, 0);
    }

    /** Build the image. Failed assertions of the writer, among them that the file has the length the
        layout computed, are reported as Aborted. */
    method WriteElf(newsize: nat, ghost end: nat) returns (r: UpdateResult)
      requires Valid() && Placed(ehdr, eclass, nphdr, scns, nscn, end) && newsize == FileSize(end, nscn, eclass)
      modifies this`scns
      ensures var v := ScnsVerdict(old(scns), eclass);
              && (v.Reject? ==> r == Failed(v.error))
              && (v.Abort? || (v.Ok? && !Recordable(end, nscn, eclass)) ==> r == Aborted)
              && (v.Ok? && Recordable(end, nscn, eclass) ==> r.Written?)
      ensures r.Written? ==>
                Sorted(old(Pieces(end)), 0) && r.image == Render(old(Pieces(end)), 0, fill) && |r.image| == newsize
      ensures scns == if r.Written? then [] else old(scns)
    {
      hide Placed, Holds, ScnsPieces, ShdrPieces, HeaderPieces, ScnsVerdict, TableOffset, Typed;
      PlacedSections(end);
      var a := new bv8[newsize];
      var rc := WriteHeaders(a, end);
      ghost var ps := HeaderPieces(ehdr, eclass, phdrs, nphdr, codec);
      var v;
      v, rc := WriteScns(a, scns, rc, fill, eclass, codec, ps, end);
      if v.Reject? {
        return Failed(v.error);
      }
      if v.Abort? {
        return Aborted;
      }
      ps := ps + ScnsPieces(scns, codec);
      if ehdr.shnum != 0 && ehdr.shoff != 0 {
        if rc > ehdr.shoff {
          return Aborted;
        }
        rc := WriteShdrs(a, scns, ehdr.shoff, rc, fill, eclass, codec, ps);
        ps := ps + ShdrPieces(scns, ehdr.shoff, codec);
      } else {
        assert ps + [] == ps;
      }
      if rc != newsize {
        return Aborted;
      }
      HoldsAll(a, rc, ps, fill);
      r := Written(a[..]);
      scns := [];
    }

    lemma {:induction false} PlacedSections(end: nat)
      requires Placed(ehdr, eclass, nphdr, scns, nscn, end)
      ensures HeadEnd(nphdr, eclass) <= end <= FileSize(end, nscn, eclass)
      ensures Disjoint(scns, HeadEnd(nphdr, eclass), end)
      ensures Typed(scns)
      ensures forall i {:trigger scns[i]} :: 0 <= i < |scns| && Occupies(scns[i]) ==>
        InOrder(scns[i].data, 0, scns[i].size)
      ensures nscn == 0 ==> ehdr.shnum == 0 && end == HeadEnd(nphdr, eclass) == FileSize(end, nscn, eclass)
      ensures nscn > 0 ==>
                var at := TableOffset(end, eclass);
                && |scns| == nscn && end <= at && 0 < at
                && ehdr.shnum == (if nscn < SHN_LORESERVE then nscn else 0) && ehdr.shoff == Field(eclass, at) <= at
                && FileSize(end, nscn, eclass) == at + Fsize(ShdrT, eclass) * nscn > at
    {
      hide Disjoint, Typed, InOrder, Occupies, RoundUp, Field, HeadEnd, Fsize, Falign, TableOffset, FileSize;
      TableFacts(end, nscn, nphdr, eclass);
    }

    lemma {:induction false} HoldsAll(a: array<bv8>, rc: nat, ps: seq<Piece>, fill: bv8)
      requires Holds(a, rc, ps, fill) && rc == a.Length
      ensures Sorted(ps, 0) && a[..] == Render(ps, 0, fill)
    {
      assert a[..rc] == a[..];
    }

    /** elf_update with ELF_C_NULL (`write` false) or ELF_C_WRITE. The image is written exactly when
        every file-occupying section is writable and the header can record the section table; it then
        has the computed length and holds every header and descriptor at its offset, each byte once,
        with the fill character everywhere else. */
    method Update(write: bool) returns (r: UpdateResult)
      requires Valid() && Numbered() && BuffersFit(scns)
      modifies this`ehdr, this`scns
      ensures var e := UpdateComplaint(old(ehdr), eclass, version, old(scns));
              var end := SectionsEnd(eclass, version, nphdr, old(scns));
              var v := ScnsVerdict(FinalSections(eclass, version, nphdr, old(scns)), eclass);
              if e.Some? then r == Failed(e.value)
              else if !write then r == Size(FileSize(end, nscn, eclass))
              else if v.Reject? then r == Failed(v.error)
              else if v.Abort? || !Recordable(end, nscn, eclass) then r == Aborted
              else r.Written?
      ensures write && UpdateComplaint(old(ehdr), eclass, version, old(scns)).None? ==>
                (r.Written? <==>
                 && Recordable(SectionsEnd(eclass, version, nphdr, old(scns)), nscn, eclass)
                 && AllScnsWritable(FinalSections(eclass, version, nphdr, old(scns)), eclass))
      ensures r.Written? ==>
                var ps := FinalPieces(old(ehdr), eclass, version, nphdr, phdrs, old(scns), codec);
                && |r.image| == FileSize(SectionsEnd(eclass, version, nphdr, old(scns)), nscn, eclass)
                && Assembled(r.image, ps, fill)
      ensures !r.Written? && UpdateComplaint(old(ehdr), eclass, version, old(scns)).None? ==>
                scns == FinalSections(eclass, version, nphdr, old(scns))
      ensures r.Written? ==> scns == []
    {
      hide LayOut, FirstComplaint, End, Placed, Extended, Resynced, FilePieces, Assembled, FileSize, Recordable,
           AllScnsWritable, ScnsVerdict, Typed, Disjoint, InOrder;
      ghost var was, eh := scns, ehdr;
      var err, size := ResyncElf();
      if err.Some? {
        return Failed(err.value);
      }
      if !write {
        return Size(size);
      }
      LayoutPlaces(eh, eclass, version, nphdr, was);
      ghost var end := SectionsEnd(eclass, version, nphdr, was);
      PlacedSections(end);
      ScnsVerdictIs(scns, eclass);
      ghost var ps := Pieces(end);
      r := WriteElf(size, end);
      if r.Written? {
        RenderCorrect(ps, fill);
      }
    }
  }

  /** Writing such an object, from the beginning. */
  method WriteByteAligned(c: Codec, fill: bv8, eh: Ehdr, first: Bytes, symbols: Bytes) returns (r: UpdateResult)
    requires ValidCodec(c, Class32) && HeaderComplaint(eh, Class32, EV_CURRENT).None?
    requires |first| % 2 == 1 && |symbols| % 16 == 0 && symbols != []
    ensures r == Aborted
  {
    var e := new Elf(Class32, c, fill, eh);
    var one := e.NewScn();
    var two := e.NewScn();
    e.scns := ByteAligned(first, symbols);
    ByteAlignedSymtabAborts(first, symbols);
    hide FirstComplaint, FinalSections, ScnsVerdict;
    r := e.Update(true);
  }

  /** After an image has been written no section can be added: the list is empty again and the count is not. */
  method UpdateThenNewScn(e: Elf) returns (r: UpdateResult, id: Option<nat>)
    requires e.Valid() && e.Numbered() && BuffersFit(e.scns)
    modifies e`ehdr, e`scns, e`nscn
    ensures r.Written? ==> (id.None? <==> old(e.scns) != [])
  {
    r := e.Update(true);
    id := e.NewScn();
  }
}
