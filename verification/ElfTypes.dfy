/** The library's tables of sizes and alignments, derived from the members of the ELF structures. */
module ElfTypes {
  import opened Options
  import opened ElfModel

  /** How many members of each width a structure has. */
  datatype Members = Members(bytes: nat, halves: nat, words: nat, xwords: nat) {
    /** The file holds the members without padding. */
    function Size(): nat { bytes + 2 * halves + 4 * words + 8 * xwords }

    function Widest(): nat {
      if xwords > 0 then 8 else if words > 0 then 4 else if halves > 0 then 2 else if bytes > 0 then 1 else 0
    }
  }

  /** `n` members as wide as an address, and others. */
  function Addresses(n: nat, ec: ElfClass, bytes: nat, halves: nat, words: nat): Members {
    if ec.Class32? then Members(bytes, halves, words + n, 0) else Members(bytes, halves, words, n)
  }

  /** Notes have no fixed members, and some types a class does not have. */
  function MembersOf(t: ElfType, ec: ElfClass): Members {
    match t
    case NoteT | MovepT => Members(0, 0, 0, 0)
    case ByteT => Members(1, 0, 0, 0)
    case HalfT => Members(0, 1, 0, 0)
    case WordT | SwordT => Members(0, 0, 1, 0)
    case LwordT => Members(0, 0, 0, 1)
    case XwordT | SxwordT => Members(0, 0, 0, if ec.Class32? then 0 else 1)
    case AddrT | OffT => Addresses(1, ec, 0, 0, 0)
    case CapT | DynT | RelT => Addresses(2, ec, 0, 0, 0)
    case RelaT => Addresses(3, ec, 0, 0, 0)
    case SyminfoT => Members(0, 2, 0, 0)
    case VdefT => Members(0, 4, 3, 0)
    case VneedT => Members(0, 2, 3, 0)
    case SymT => Addresses(2, ec, 2, 1, 1)
    case MoveT => Members(0, 2, if ec.Class32? then 2 else 0, if ec.Class32? then 1 else 3)
    case PhdrT => Addresses(6, ec, 0, 0, 2)
    case ShdrT => Addresses(6, ec, 0, 0, 4)
    case EhdrT => Addresses(3, ec, 16, 8, 2)
  }

  /** The tables agree with the members, for every type and class: sizes in the file are sums and alignments the widest
      member. Notes, being of variable size, are counted in bytes. */
  lemma {:induction false} FileTable(t: ElfType, ec: ElfClass)
    ensures t != NoteT ==> Fsize(t, ec) == MembersOf(t, ec).Size() && Falign(t, ec) == MembersOf(t, ec).Widest()
    ensures t == NoteT ==> Fsize(t, ec) == 1 && Falign(t, ec) == 4
  {
    hide *;
    match ec {
      case Class32 => FileTable32(t);
      case Class64 => FileTable64(t);
    }
  }

  lemma {:induction false} FileTable32(t: ElfType)
    ensures t != NoteT ==>
      var m := MembersOf(t, Class32); Fsize(t, Class32) == m.Size() && Falign(t, Class32) == m.Widest()
    ensures t == NoteT ==> Fsize(t, Class32) == 1 && Falign(t, Class32) == 4
  {
  }

  lemma {:induction false} FileTable64(t: ElfType)
    ensures t != NoteT ==>
      var m := MembersOf(t, Class64); Fsize(t, Class64) == m.Size() && Falign(t, Class64) == m.Widest()
    ensures t == NoteT ==> Fsize(t, Class64) == 1 && Falign(t, Class64) == 4
  {
  }

  /** A C structure is padded at its end, and only there, to its alignment. */
  lemma {:induction false} MemoryTable(t: ElfType, ec: ElfClass)
    ensures var a, pad := Falign(t, ec), Msize(t, ec) - Fsize(t, ec);
      && 0 <= pad && (a == 0 ==> pad == 0) && (a > 0 ==> pad < a)
      && (a == 2 ==> Msize(t, ec) % 2 == 0) && (a == 4 && t != NoteT ==> Msize(t, ec) % 4 == 0)
      && (a == 8 ==> Msize(t, ec) % 8 == 0)
  {
    match ec {
      case Class32 =>
      case Class64 =>
    }
  }

  const SHT_PROGBITS := 1
  const SHT_SYMTAB := 2
  const SHT_RELA := 4
  const SHT_HASH := 5
  const SHT_DYNAMIC := 6
  const SHT_NOTE := 7
  const SHT_REL := 9
  const SHT_DYNSYM := 11
  const SHT_INIT_ARRAY := 14
  const SHT_FINI_ARRAY := 15
  const SHT_PREINIT_ARRAY := 16
  const SHT_GROUP := 17
  const SHT_SYMTAB_SHNDX := 18
  const SHT_SUNW_MOVE := 0x6ffffffa
  const SHT_SUNW_SYMINFO := 0x6ffffffc
  const SHT_GNU_VERDEF := 0x6ffffffd
  const SHT_GNU_VERNEED := 0x6ffffffe

  /** The section types that hold data of a type. */
  function SectionTypes(t: ElfType): set<nat> {
    match t
    case AddrT => {SHT_INIT_ARRAY, SHT_FINI_ARRAY, SHT_PREINIT_ARRAY}
    case ByteT => {SHT_PROGBITS, SHT_STRTAB, SHT_NOBITS}
    case DynT => {SHT_DYNAMIC}
    case MoveT => {SHT_SUNW_MOVE}
    case NoteT => {SHT_NOTE}
    case RelT => {SHT_REL}
    case RelaT => {SHT_RELA}
    case SymT => {SHT_SYMTAB, SHT_DYNSYM}
    case SyminfoT => {SHT_SUNW_SYMINFO}
    case VdefT => {SHT_GNU_VERDEF}
    case VneedT => {SHT_GNU_VERNEED}
    case WordT => {SHT_HASH, SHT_GROUP, SHT_SYMTAB_SHNDX}
    case CapT | EhdrT | HalfT | LwordT | MovepT | OffT | PhdrT | ShdrT | SwordT | SxwordT | XwordT => {}
  }

  /** A section type is translated to the one type that lists it, and to none if no type does. */
  lemma {:induction false} TypeOfIs(shType: nat, t: ElfType)
    ensures TypeOf(shType) == Some(t) <==> shType in SectionTypes(t)
  {
    match t {
      case ByteT =>
      case _ =>
    }
  }
}
