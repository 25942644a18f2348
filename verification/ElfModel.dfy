/** The libelf data model: sections, data descriptors and headers of an object being written. */
module ElfModel {
  import opened Options

  type Bytes = seq<bv8>

  datatype ElfClass = Class32 | Class64

  datatype ElfType =
    | AddrT | ByteT | CapT | DynT | EhdrT | HalfT | LwordT | MoveT | MovepT | NoteT | OffT | PhdrT
    | RelT | RelaT | ShdrT | SwordT | SxwordT | SyminfoT | SymT | VdefT | VneedT | WordT | XwordT

  const SHT_NULL := 0
  const SHT_STRTAB := 3
  const SHT_NOBITS := 8
  const SHN_LORESERVE := 0xff00
  const PN_XNUM := 0xffff
  const EV_CURRENT := 1

  /** The type of a section's data, if the library knows it. */
  function TypeOf(shType: nat): (t: Option<ElfType>)
    ensures t.Some? ==> forall ec :: Falign(t.value, ec) > 0 && Fsize(t.value, ec) > 0
  {
    match shType
    case 1 => Some(ByteT)           // SHT_PROGBITS
    case 2 => Some(SymT)            // SHT_SYMTAB
    case 3 => Some(ByteT)           // SHT_STRTAB
    case 4 => Some(RelaT)           // SHT_RELA
    case 5 => Some(WordT)           // SHT_HASH
    case 6 => Some(DynT)            // SHT_DYNAMIC
    case 7 => Some(NoteT)           // SHT_NOTE
    case 8 => Some(ByteT)           // SHT_NOBITS
    case 9 => Some(RelT)            // SHT_REL
    case 11 => Some(SymT)           // SHT_DYNSYM
    case 14 => Some(AddrT)          // SHT_INIT_ARRAY
    case 15 => Some(AddrT)          // SHT_FINI_ARRAY
    case 16 => Some(AddrT)          // SHT_PREINIT_ARRAY
    case 17 => Some(WordT)          // SHT_GROUP
    case 18 => Some(WordT)          // SHT_SYMTAB_SHNDX
    case 0x6ffffffa => Some(MoveT)     // SHT_SUNW_move
    case 0x6ffffffc => Some(SyminfoT)  // SHT_SUNW_syminfo
    case 0x6ffffffd => Some(VdefT)     // SHT_GNU_verdef
    case 0x6ffffffe => Some(VneedT)    // SHT_GNU_verneed
    case _ => None
  }

  function Either(ec: ElfClass, for32: nat, for64: nat): nat {
    if ec.Class32? then for32 else for64
  }

  /** File alignment of a type; 0 marks a type the class does not have. */
  function Falign(t: ElfType, ec: ElfClass): nat {
    match t
    case ByteT => 1
    case HalfT | SyminfoT => 2
    case NoteT | SwordT | VdefT | VneedT | WordT => 4
    case LwordT | MoveT => 8
    case MovepT => 0
    case SxwordT | XwordT => Either(ec, 0, 8)
    case AddrT | CapT | DynT | EhdrT | OffT | PhdrT | RelT | RelaT | ShdrT | SymT => Either(ec, 4, 8)
  }

  /** Size of one object of a type in the file. */
  function Fsize(t: ElfType, ec: ElfClass): nat {
    match t
    case ByteT | NoteT => 1
    case HalfT => 2
    case SyminfoT | SwordT | WordT => 4
    case LwordT => 8
    case VneedT => 16
    case VdefT => 20
    case MovepT => 0
    case SxwordT | XwordT => Either(ec, 0, 8)
    case AddrT | OffT => Either(ec, 4, 8)
    case CapT | DynT | RelT => Either(ec, 8, 16)
    case RelaT => Either(ec, 12, 24)
    case SymT => Either(ec, 16, 24)
    case MoveT => Either(ec, 20, 28)
    case PhdrT => Either(ec, 32, 56)
    case ShdrT => Either(ec, 40, 64)
    case EhdrT => Either(ec, 52, 64)
  }

  /** Size of one object in memory on a 64-bit host: only the move entries carry padding. */
  function Msize(t: ElfType, ec: ElfClass): nat {
    if t.MoveT? then Either(ec, 24, 32) else Fsize(t, ec)
  }

  lemma MemoryIsNoSmaller(t: ElfType, ec: ElfClass)
    ensures Fsize(t, ec) <= Msize(t, ec)
  {
  }

  /** A data descriptor. `hostAligned` says whether its buffer's address in memory suits its type. */
  datatype Data = Data(
    typ: ElfType, version: nat, align: nat, size: nat, buf: Option<Bytes>, off: nat, hostAligned: bool)

  datatype Shdr = Shdr(name: nat, typ: nat, flags: nat, addr: nat, offset: nat, size: nat,
                       link: nat, info: nat, addralign: nat, entsize: nat)

  /** A section: its header, its data descriptors, and the placement kept by the library. */
  datatype Scn = Scn(ndx: nat, shdr: Shdr, data: seq<Data>, offset: nat, size: nat)

  datatype Ehdr = Ehdr(magic: bool, identClass: Option<ElfClass>, identData: nat, identVersion: nat, version: nat,
                       phoff: nat, shoff: nat, ehsize: nat, phentsize: nat, phnum: nat, shentsize: nat, shnum: nat)

  datatype Error = DataError | VersionError | LayoutError | SectionError | ClassError | HeaderError | ArgumentError

  /** Truncation of an offset, size or alignment to the width of a header field. */
  function Field(ec: ElfClass, x: nat): nat {
    if ec.Class32? then x % 0x1_0000_0000 else x % 0x1_0000_0000_0000_0000
  }

  /** Whether the section has bytes in the file. */
  predicate Occupies(s: Scn) {
    s.shdr.typ != SHT_NULL && s.shdr.typ != SHT_NOBITS
  }

  /** How in-memory objects are encoded in the file: the translators, kept abstract except for length. */
  datatype Codec = Codec(ehdr: Ehdr -> Bytes, shdr: Shdr -> Bytes, data: (ElfType, Bytes) -> Bytes)

  ghost predicate ValidCodec(c: Codec, ec: ElfClass) {
    && (forall h :: |c.ehdr(h)| == Fsize(EhdrT, ec))
    && (forall h :: |c.shdr(h)| == Fsize(ShdrT, ec))
    && (forall t, b :: Msize(t, ec) > 0 ==> |c.data(t, b)| == Fsize(t, ec) * (|b| / Msize(t, ec)))
  }
}
