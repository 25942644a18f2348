/** What a reader finds in a written image by following the fields of its headers. */
module ElfReader {
  import opened Options
  import opened ElfModel
  import opened ElfLayout
  import opened ElfImage
  import opened ElfUpdate
  import opened ElfObject
  import opened Numbers

  function FinalHeader(eh: Ehdr, ec: ElfClass, version: nat, nphdr: nat, ss: seq<Scn>): Ehdr {
    Resynced(eh, ec, version, nphdr, |ss|, SectionsEnd(ec, version, nphdr, ss))
  }

  // ----- Headers -----

  /** The bytes from `at` on are `b`. */
  ghost predicate Shows(img: Bytes, at: nat, b: Bytes) {
    at + |b| <= |img| && img[at..at + |b|] == b
  }

  /** The executable header comes first, with the program header table where it says; it names the class and version
      and is otherwise the application's. */
  lemma {:induction false} ReaderFindsHeaders(img: Bytes, eh: Ehdr, ec: ElfClass, version: nat, nphdr: nat,
                                              phdrs: Bytes, ss: seq<Scn>, c: Codec, fill: bv8)
    requires ValidCodec(c, ec) && |phdrs| == nphdr * Msize(PhdrT, ec)
    requires Assembled(img, FinalPieces(eh, ec, version, nphdr, phdrs, ss, c), fill)
    ensures var h := FinalHeader(eh, ec, version, nphdr, ss);
            && |c.ehdr(h)| == h.ehsize && Shows(img, 0, c.ehdr(h))
            && (nphdr == 0 ==> h.phoff == 0)
            && (nphdr > 0 ==>
                  && h.phoff > 0 && |c.data(PhdrT, phdrs)| == h.phentsize * nphdr
                  && Shows(img, h.phoff, c.data(PhdrT, phdrs)))
            && h.magic && h.identClass == Some(ec) && h.identVersion == version
            && h.identData == eh.identData && h.version == eh.version
  {
    var h := FinalHeader(eh, ec, version, nphdr, ss);
    var end := SectionsEnd(ec, version, nphdr, ss);
    HeaderLengths(h, ec, nphdr, phdrs, c);
    hide FinalSections, TableOffset, SectionsEnd, Fsize, Msize, ScnsPieces, ShdrPieces, Covered;
    var hs := HeaderPieces(h, ec, phdrs, nphdr, c);
    var ps := FinalPieces(eh, ec, version, nphdr, phdrs, ss, c);
    assert ps[0] == hs[0];
    if nphdr > 0 { assert ps[1] == hs[1]; }
  }

  lemma {:induction false} HeaderLengths(h: Ehdr, ec: ElfClass, nphdr: nat, phdrs: Bytes, c: Codec)
    requires ValidCodec(c, ec) && |phdrs| == nphdr * Msize(PhdrT, ec)
    ensures |c.ehdr(h)| == Fsize(EhdrT, ec) > 0 && Field(ec, Fsize(EhdrT, ec)) == Fsize(EhdrT, ec)
    ensures |c.data(PhdrT, phdrs)| == Fsize(PhdrT, ec) * nphdr
  {
    HeaderSizes(ec);
    hide Msize, Fsize, Field;
    UniqueMod(|phdrs|, Msize(PhdrT, ec), nphdr, 0);
    assert |phdrs| / Msize(PhdrT, ec) == nphdr;
  }

  lemma {:induction false} HeaderSizes(ec: ElfClass)
    ensures Msize(PhdrT, ec) > 0 && Fsize(EhdrT, ec) > 0 && Field(ec, Fsize(EhdrT, ec)) == Fsize(EhdrT, ec)
  {
  }

  /** Row `i` of the section header table is found where the executable header says. */
  ghost predicate ShowsRow(img: Bytes, h: Ehdr, i: nat, row: Bytes) {
    |row| == h.shentsize && Shows(img, h.shoff + h.shentsize * i, row)
  }

  /** The section header table is the end of the file, and its row `i` the header of section `i`. */
  lemma {:induction false} ReaderFindsRow(img: Bytes, eh: Ehdr, ec: ElfClass, version: nat, nphdr: nat, phdrs: Bytes,
                                          ss: seq<Scn>, c: Codec, fill: bv8, i: nat)
    requires ValidCodec(c, ec) && i < |ss| && Recordable(SectionsEnd(ec, version, nphdr, ss), |ss|, ec)
    requires Assembled(img, FinalPieces(eh, ec, version, nphdr, phdrs, ss, c), fill)
    ensures |FinalSections(ec, version, nphdr, ss)| == |ss|
    ensures var h := FinalHeader(eh, ec, version, nphdr, ss);
            && ShowsRow(img, h, i, c.shdr(FinalSections(ec, version, nphdr, ss)[i].shdr))
            && FileSize(SectionsEnd(ec, version, nphdr, ss), |ss|, ec) == h.shoff + h.shentsize * |ss|
  {
    hide *;
    FinalCount(ec, version, nphdr, ss);
    var h := FinalHeader(eh, ec, version, nphdr, ss);
    TableAt(eh, ec, version, nphdr, phdrs, ss, c);
    RowInImage(img, h, ec, phdrs, nphdr, FinalSections(ec, version, nphdr, ss), c, fill, i);
  }

  lemma {:induction false} TableAt(eh: Ehdr, ec: ElfClass, version: nat, nphdr: nat, phdrs: Bytes, ss: seq<Scn>,
                                   c: Codec)
    requires ss != [] && Recordable(SectionsEnd(ec, version, nphdr, ss), |ss|, ec)
    ensures var h := FinalHeader(eh, ec, version, nphdr, ss);
            && h.shentsize == Fsize(ShdrT, ec)
            && FileSize(SectionsEnd(ec, version, nphdr, ss), |ss|, ec) == h.shoff + h.shentsize * |ss|
            && FinalPieces(eh, ec, version, nphdr, phdrs, ss, c)
               == FilePieces(h, ec, phdrs, nphdr, FinalSections(ec, version, nphdr, ss), |ss|, h.shoff, c)
  {
    hide FilePieces, TableOffset, Fsize, SectionsEnd, FinalSections;
  }

  lemma {:induction false} FinalCount(ec: ElfClass, version: nat, nphdr: nat, ss: seq<Scn>)
    requires ss != []
    ensures |FinalSections(ec, version, nphdr, ss)| == |ss|
  {
    hide LayOut, Extended;
  }

  /** A descriptor is found, encoded, at its offset within the part of the file that its section's row describes. */
  lemma {:induction false} ReaderFindsData(img: Bytes, eh: Ehdr, ec: ElfClass, version: nat, nphdr: nat, phdrs: Bytes,
                                           ss: seq<Scn>, c: Codec, fill: bv8, i: nat, j: nat)
    requires FirstComplaint(ss, ec, version).None?
    requires Assembled(img, FinalPieces(eh, ec, version, nphdr, phdrs, ss, c), fill)
    requires i < |ss| && Occupies(ss[i]) && j < |ss[i].data|
    requires Recordable(SectionsEnd(ec, version, nphdr, ss), |ss|, ec)
    ensures |FinalSections(ec, version, nphdr, ss)| == |ss|
    ensures var s := FinalSections(ec, version, nphdr, ss)[i];
            && |s.data| == |ss[i].data| && s.data[j] == ss[i].data[j].(off := s.data[j].off)
            && Shows(img, s.shdr.offset + s.data[j].off, c.data(ss[i].data[j].typ, Buffer(ss[i].data[j])))
            && s.data[j].off + ss[i].data[j].size <= s.shdr.size
            && s.shdr.offset + s.shdr.size <= FinalHeader(eh, ec, version, nphdr, ss).shoff
  {
    hide Assembled, FilePieces, TableOffset, FinalSections, SectionsEnd, Resynced, Recordable, FirstComplaint, Occupies;
    FinalCount(ec, version, nphdr, ss);
    FinalRow(eh, ec, version, nphdr, ss, i);
    var end := SectionsEnd(ec, version, nphdr, ss);
    DataInImage(img, FinalHeader(eh, ec, version, nphdr, ss), ec, phdrs, nphdr,
                FinalSections(ec, version, nphdr, ss), |ss|, TableOffset(end, ec), c, fill, i, j);
  }

  /** The final row of a section is the one the layout gave it; only row 0 may also hold a count. */
  lemma {:induction false} FinalRow(eh: Ehdr, ec: ElfClass, version: nat, nphdr: nat, ss: seq<Scn>, i: nat)
    requires FirstComplaint(ss, ec, version).None? && i < |ss| && Occupies(ss[i])
    requires Recordable(SectionsEnd(ec, version, nphdr, ss), |ss|, ec)
    ensures |FinalSections(ec, version, nphdr, ss)| == |ss|
    ensures var s := FinalSections(ec, version, nphdr, ss)[i];
            && Occupies(s) && |s.data| == |ss[i].data|
            && (forall k :: 0 <= k < |s.data| ==> s.data[k] == ss[i].data[k].(off := s.data[k].off))
            && s.shdr.offset == s.offset && s.shdr.size == s.size && InOrder(s.data, 0, s.size)
            && s.offset + s.size <= FinalHeader(eh, ec, version, nphdr, ss).shoff
  {
    hide LayOut, FirstComplaint, End, TableOffset, Settled, InOrder;
    var head := HeadEnd(nphdr, ec);
    var r := LayOut(ss, ec, version, head);
    LayoutCorrect(ss, ec, version, head);
    TableFacts(End(r, head), |ss|, nphdr, ec);
    assert WellPlaced(r[i], ss[i], ec, End(r[..i], head));
    var a :| Settled(r[i], ss[i], ec, End(r[..i], head), a);
    FieldsHold(r[i], ss[i], ec, End(r[..i], head), a, TableOffset(End(r, head), ec));
  }

  lemma {:induction false} FieldsHold(s: Scn, was: Scn, ec: ElfClass, rc: nat, a: nat, limit: nat)
    requires Settled(s, was, ec, rc, a) && s.offset + s.size <= limit == Field(ec, limit)
    ensures s.shdr.offset == s.offset && s.shdr.size == s.size
  {
    hide LeastSuiting, Packed;
  }

  /** Row `i` of the section header table is the header of section `i`. */
  lemma {:induction false} RowInImage(img: Bytes, eh: Ehdr, ec: ElfClass, phdrs: Bytes, nphdr: nat, ss: seq<Scn>,
                                      c: Codec, fill: bv8, i: nat)
    requires ValidCodec(c, ec) && i < |ss| && eh.shentsize == Fsize(ShdrT, ec)
    requires Assembled(img, FilePieces(eh, ec, phdrs, nphdr, ss, |ss|, eh.shoff, c), fill)
    ensures ShowsRow(img, eh, i, c.shdr(ss[i].shdr))
  {
    var hs, ds, rows := HeaderPieces(eh, ec, phdrs, nphdr, c), ScnsPieces(ss, c), ShdrPieces(ss, eh.shoff, c);
    hide Fsize, HeaderPieces, ScnsPieces, ShdrPieces, Covered;
    ShdrPieceAt(ss, eh.shoff, c, eh.shentsize, i);
    assert (hs + ds + rows)[|hs| + |ds| + i] == rows[i];
  }

  /** Descriptor `j` of section `i` is found, encoded, at its offset in its section. */
  lemma {:induction false} DataInImage(img: Bytes, eh: Ehdr, ec: ElfClass, phdrs: Bytes, nphdr: nat, ss: seq<Scn>,
                                       nscn: nat, at: nat, c: Codec, fill: bv8, i: nat, j: nat)
    requires i < |ss| && Occupies(ss[i]) && j < |ss[i].data|
    requires Assembled(img, FilePieces(eh, ec, phdrs, nphdr, ss, nscn, at, c), fill)
    ensures var d := ss[i].data[j]; Shows(img, ss[i].offset + d.off, c.data(d.typ, Buffer(d)))
  {
    hide *;
    var d := ss[i].data[j];
    var p := Piece(ss[i].offset + d.off, c.data(d.typ, Buffer(d)));
    ScnPieceAmong(ss, c, i, j);
    var k :| 0 <= k < |ScnsPieces(ss, c)| && ScnsPieces(ss, c)[k] == p;
    var n := ScnPieceIndex(eh, ec, phdrs, nphdr, ss, nscn, at, c, k);
    PieceShown(img, FilePieces(eh, ec, phdrs, nphdr, ss, nscn, at, c), fill, n);
  }

  lemma {:induction false} PieceShown(img: Bytes, ps: seq<Piece>, fill: bv8, k: nat)
    requires Assembled(img, ps, fill) && k < |ps|
    ensures Shows(img, ps[k].at, ps[k].bytes)
  {
    hide Covered;
  }

  lemma {:induction false} ScnPieceIndex(eh: Ehdr, ec: ElfClass, phdrs: Bytes, nphdr: nat, ss: seq<Scn>, nscn: nat,
                                         at: nat, c: Codec, k: nat) returns (n: nat)
    requires k < |ScnsPieces(ss, c)|
    ensures var ps := FilePieces(eh, ec, phdrs, nphdr, ss, nscn, at, c); n < |ps| && ps[n] == ScnsPieces(ss, c)[k]
  {
    hide HeaderPieces, ScnsPieces, ShdrPieces;
    n := |HeaderPieces(eh, ec, phdrs, nphdr, c)| + k;
  }

  lemma {:induction false} ScnPieceAmong(ss: seq<Scn>, c: Codec, i: nat, j: nat)
    requires i < |ss| && Occupies(ss[i]) && j < |ss[i].data|
    ensures var d := ss[i].data[j]; Piece(ss[i].offset + d.off, c.data(d.typ, Buffer(d))) in ScnsPieces(ss, c)
  {
    if i == 0 {
      DataPieceAt(ss[0].data, ss[0].offset, c, j);
    } else {
      ScnPieceAmong(ss[1..], c, i - 1, j);
    }
  }

  lemma {:induction false} DataPieceAt(ds: seq<Data>, base: nat, c: Codec, j: nat)
    requires j < |ds|
    ensures DataPieces(ds, base, c)[j] == Piece(base + ds[j].off, c.data(ds[j].typ, Buffer(ds[j])))
  {
    if j > 0 {
      DataPieceAt(ds[1..], base, c, j - 1);
    }
  }

  // ----- Counts -----

  datatype Counts = Counts(nphdr: nat, nscn: nat)

  /** The counts the library takes from an executable header it reads, and from row 0 when the header says so. */
  function ReadCounts(h: Ehdr, row0: Shdr): Option<Counts> {
    if h.shnum >= SHN_LORESERVE || (h.shoff == 0 && (h.shnum != 0 || h.phnum == PN_XNUM)) then None
    else if h.shnum != 0 || h.shoff == 0 then Some(Counts(h.phnum, h.shnum))
    else if row0.typ != SHT_NULL then None
    else Some(Counts(if h.phnum != PN_XNUM then h.phnum else row0.info, row0.size))
  }

  /** The counts written are the counts read back exactly when the reader looks at row 0 if they are there. It does
      so for the program headers only if the section count is there too. */
  lemma {:induction false} CountsReadBack(eh: Ehdr, ec: ElfClass, version: nat, nphdr: nat, ss: seq<Scn>, end: nat)
    requires ss != [] && end > 0 && Field(ec, TableOffset(end, ec)) == TableOffset(end, ec)
    ensures var row0 := Extended(ss, nphdr, |ss|, ec)[0].shdr;
            ReadCounts(Resynced(eh, ec, version, nphdr, |ss|, end), row0) == Some(Counts(nphdr, |ss|)) <==>
              if |ss| < SHN_LORESERVE then nphdr <= PN_XNUM
              else ss[0].shdr.typ == SHT_NULL && nphdr < 0x1_0000_0000 && Field(ec, |ss|) == |ss|
  {
    hide TableOffset;
    TableFacts(end, |ss|, nphdr, ec);
  }

  /** Without sections there is no row 0 to hold a count. */
  lemma {:induction false} CountsWithoutSections(eh: Ehdr, ec: ElfClass, version: nat, nphdr: nat, end: nat, row0: Shdr)
    ensures ReadCounts(Resynced(eh, ec, version, nphdr, 0, end), row0) == Some(Counts(nphdr, 0)) <==> nphdr < PN_XNUM
  {
  }
}
