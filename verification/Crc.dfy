/** The Ethernet CRC-32: the nibble-table form, its bit-at-a-time reference, and the big-endian form. */
module Crc {

  const POLY_LE: bv32 := 0xedb88320
  const POLY_BE: bv32 := 0x04c11db6
  const INITIAL: bv32 := 0xffffffff

  const CRCTAB: seq<bv32> := [
    0x00000000, 0x1db71064, 0x3b6e20c8, 0x26d930ac,
    0x76dc4190, 0x6b6b51f4, 0x4db26158, 0x5005713c,
    0xedb88320, 0xf00f9344, 0xd6d6a3e8, 0xcb61b38c,
    0x9b64c2b0, 0x86d3d2d4, 0xa00ae278, 0xbdbdf21c
  ]

  // ----- Specification: a 32-bit register fed one message bit at a time -----

  /** The register's bits, least significant first. */
  type Word = w: seq<bool> | |w| == 32 witness seq(32, _ => false)

  function Zero(): Word { seq(32, _ => false) }

  function Ones(): Word { seq(32, _ => true) }

  function Xor(a: Word, b: Word): (r: Word)
    ensures forall i :: 0 <= i < 32 ==> r[i] == (a[i] != b[i])
  {
    seq(32, i requires 0 <= i < 32 => a[i] != b[i])
  }

  /** The word with only bit `i` set. */
  function Mask(i: nat): bv32 {
    if i == 0 then 1 else Mask(i - 1) << 1
  }

  predicate Bit(x: bv32, mask: bv32) { x & mask != 0 }

  /** The bits of a machine word. */
  function ToBits(x: bv32): (r: Word)
    ensures forall i :: 0 <= i < 32 ==> r[i] == Bit(x, Mask(i))
  {
    seq(32, i requires 0 <= i < 32 => Bit(x, Mask(i)))
  }

  /** The polynomial. */
  function Poly(): Word { ToBits(POLY_LE) }

  function Half(x: Word): (r: Word)
    ensures !r[31] && forall i :: 0 <= i < 31 ==> r[i] == x[i + 1]
  {
    x[1..] + [false]
  }

  /** Take in one message bit: shift, and subtract the polynomial if the bit shifted out and the
      message bit differ. */
  function Step(x: Word, bit: bool): Word {
    if x[0] != bit then Xor(Half(x), Poly()) else Half(x)
  }

  /** Feed message bits, first bit first. */
  function Feed(x: Word, bits: seq<bool>): Word
    decreases bits
  {
    if bits == [] then x else Feed(Step(x, bits[0]), bits[1..])
  }

  function ByteBits(b: bv8): (r: seq<bool>)
    ensures |r| == 8
  {
    ToBits(b as bv32)[..8]
  }

  /** Transmission order of a byte string: each byte least significant bit first. */
  function Bits(s: seq<bv8>): (r: seq<bool>)
    ensures |r| == 8 * |s|
  {
    if s == [] then [] else ByteBits(s[0]) + Bits(s[1..])
  }

  /** The register after a message. */
  function CrcOf(s: seq<bv8>): Word {
    Feed(Ones(), Bits(s))
  }

  // ----- Algebra of the register -----

  lemma {:induction false} TopMask()
    ensures Mask(31) == 0x80000000
  {
    assert Mask(8) == 0x100;
    assert Mask(16) == 0x10000;
    assert Mask(24) == 0x1000000;
  }

  lemma {:induction false} MaskValues()
    ensures Mask(0) == 0x1 && Mask(1) == 0x2 && Mask(2) == 0x4 && Mask(3) == 0x8
    ensures Mask(4) == 0x10 && Mask(5) == 0x20 && Mask(6) == 0x40 && Mask(7) == 0x80
    ensures Mask(8) == 0x100 && Mask(9) == 0x200 && Mask(10) == 0x400 && Mask(11) == 0x800
    ensures Mask(12) == 0x1000 && Mask(13) == 0x2000 && Mask(14) == 0x4000 && Mask(15) == 0x8000
    ensures Mask(16) == 0x10000 && Mask(17) == 0x20000 && Mask(18) == 0x40000 && Mask(19) == 0x80000
    ensures Mask(20) == 0x100000 && Mask(21) == 0x200000 && Mask(22) == 0x400000 && Mask(23) == 0x800000
    ensures Mask(24) == 0x1000000 && Mask(25) == 0x2000000 && Mask(26) == 0x4000000 && Mask(27) == 0x8000000
    ensures Mask(28) == 0x10000000 && Mask(29) == 0x20000000 && Mask(30) == 0x40000000 && Mask(31) == 0x80000000
  {
  }

  lemma {:induction false} FeedConcat(x: Word, a: seq<bool>, b: seq<bool>)
    ensures Feed(x, a + b) == Feed(Feed(x, a), b)
    decreases a
  {
    if a == [] {
      assert a + b == b;
    } else {
      assert (a + b)[1..] == a[1..] + b;
      FeedConcat(Step(x, a[0]), a[1..], b);
    }
  }

  lemma {:induction false} BitsConcat(s: seq<bv8>, t: seq<bv8>)
    ensures Bits(s + t) == Bits(s) + Bits(t)
  {
    if s == [] {
      assert s + t == t;
    } else {
      assert (s + t)[1..] == s[1..] + t;
      BitsConcat(s[1..], t);
      assert ByteBits(s[0]) + (Bits(s[1..]) + Bits(t)) == ByteBits(s[0]) + Bits(s[1..]) + Bits(t);
    }
  }

  function XorBits(a: seq<bool>, b: seq<bool>): (r: seq<bool>)
    requires |a| == |b|
    ensures |r| == |a| && forall i :: 0 <= i < |r| ==> r[i] == (a[i] != b[i])
  {
    seq(|a|, i requires 0 <= i < |a| => a[i] != b[i])
  }

  lemma {:induction false} StepLinear(x: Word, y: Word, p: bool, q: bool)
    ensures Step(Xor(x, y), p != q) == Xor(Step(x, p), Step(y, q))
  {
    var l, r := Step(Xor(x, y), p != q), Xor(Step(x, p), Step(y, q));
    assert forall i :: 0 <= i < 32 ==> l[i] == r[i];
  }

  lemma {:induction false} FeedLinear(x: Word, y: Word, a: seq<bool>, b: seq<bool>)
    requires |a| == |b|
    ensures Xor(Feed(x, a), Feed(y, b)) == Feed(Xor(x, y), XorBits(a, b))
    decreases a
  {
    if a != [] {
      StepLinear(x, y, a[0], b[0]);
      FeedLinear(Step(x, a[0]), Step(y, b[0]), a[1..], b[1..]);
      assert XorBits(a, b)[1..] == XorBits(a[1..], b[1..]);
    }
  }

  /** The polynomial's top bit tells whether it was subtracted. */
  lemma {:induction false} StepTop(x: Word, p: bool)
    ensures Step(x, p)[31] == (x[0] != p)
  {
    TopMask();
  }

  lemma {:induction false} StepInjective(x: Word, y: Word, p: bool)
    requires Step(x, p) == Step(y, p)
    ensures x == y
  {
    StepTop(x, p);
    StepTop(y, p);
    forall i | 0 <= i < 32 ensures x[i] == y[i] {
      if i > 0 {
        assert Step(x, p)[i - 1] == Step(y, p)[i - 1];
        assert x[i] == Half(x)[i - 1] && y[i] == Half(y)[i - 1];
      }
    }
  }

  lemma {:induction false} FeedInjective(x: Word, y: Word, bits: seq<bool>)
    requires Feed(x, bits) == Feed(y, bits)
    ensures x == y
    decreases bits
  {
    if bits != [] {
      FeedInjective(Step(x, bits[0]), Step(y, bits[0]), bits[1..]);
      StepInjective(x, y, bits[0]);
    }
  }

  /** At most 32 bits drive a register to 0 only if the register is that short, and from 0 only if
      the bits are all 0. */
  lemma {:induction false} ReachesZero(e: Word, bits: seq<bool>)
    requires |bits| <= 32
    requires Feed(e, bits) == Zero()
    ensures forall i :: |bits| <= i < 32 ==> !e[i]
    ensures e == Zero() ==> forall i :: 0 <= i < |bits| ==> !bits[i]
    decreases bits
  {
    if bits != [] {
      var e' := Step(e, bits[0]);
      ReachesZero(e', bits[1..]);
      StepTop(e, bits[0]);
      assert e' == Half(e);
      forall i | |bits| <= i < 32 ensures !e[i] {
        assert e[i] == e'[i - 1];
      }
      if e == Zero() {
        assert e' == Zero();
        forall i | 0 <= i < |bits| ensures !bits[i] {
          if i > 0 { assert bits[i] == bits[1..][i - 1]; }
        }
      }
    }
  }

  /** From the same register, two different windows of at most 32 bits lead to different registers. */
  lemma {:induction false} WindowDiffers(x: Word, a: seq<bool>, b: seq<bool>)
    requires |a| == |b| <= 32 && a != b
    ensures Feed(x, a) != Feed(x, b)
  {
    if Feed(x, a) == Feed(x, b) {
      FeedLinear(x, x, a, b);
      assert Xor(x, x) == Zero();
      assert Xor(Feed(x, a), Feed(x, b)) == Zero();
      ReachesZero(Zero(), XorBits(a, b));
      assert false;
    }
  }

  // ----- What the CRC is for -----

  /** Any error burst of at most 32 bits is detected: equal-length messages that differ, and only
      inside one window of 32 consecutive transmitted bits, have different CRCs. */
  lemma {:induction false} BurstDetected(m: seq<bv8>, m': seq<bv8>, k: nat)
    requires |m| == |m'|
    requires Bits(m) != Bits(m')
    requires forall i :: 0 <= i < |Bits(m)| && (i < k || k + 32 <= i) ==> Bits(m)[i] == Bits(m')[i]
    ensures CrcOf(m) != CrcOf(m')
  {
    BurstChanges(Ones(), Bits(m), Bits(m'), k);
  }

  lemma {:induction false} BurstChanges(x: Word, a: seq<bool>, b: seq<bool>, k: nat)
    requires |a| == |b| && a != b
    requires forall i :: 0 <= i < |a| && (i < k || k + 32 <= i) ==> a[i] == b[i]
    ensures Feed(x, a) != Feed(x, b)
  {
    var lo := if k < |a| then k else |a|;
    var hi := if k + 32 < |a| then k + 32 else |a|;
    assert a == a[..lo] + a[lo..hi] + a[hi..];
    assert b == a[..lo] + b[lo..hi] + a[hi..];
    SurroundedWindow(x, a[..lo], a[lo..hi], b[lo..hi], a[hi..]);
  }

  lemma {:induction false} SurroundedWindow(x: Word, pre: seq<bool>, p: seq<bool>, q: seq<bool>, post: seq<bool>)
    requires |p| == |q| <= 32 && p != q
    ensures Feed(x, pre + p + post) != Feed(x, pre + q + post)
  {
    var y := Feed(x, pre);
    FeedConcat(x, pre + p, post);
    FeedConcat(x, pre + q, post);
    FeedConcat(x, pre, p);
    FeedConcat(x, pre, q);
    WindowDiffers(y, p, q);
    if Feed(x, pre + p + post) == Feed(x, pre + q + post) {
      FeedInjective(Feed(y, p), Feed(y, q), post);
    }
  }

  /** Feeding a register its own bits, least significant first, clears it. */
  lemma {:induction false} OwnBitsClear(x: Word, n: nat)
    requires n <= 32
    requires forall i :: n <= i < 32 ==> !x[i]
    ensures Feed(x, x[..n]) == Zero()
    decreases n
  {
    if n == 0 {
      assert x == Zero();
    } else {
      var y := Step(x, x[0]);
      assert y == Half(x);
      assert x[..n][1..] == y[..n - 1];
      OwnBitsClear(y, n - 1);
    }
  }

  /** A 32-bit trailer drives the register to 0 exactly when it is the message's own CRC. */
  lemma {:induction false} TrailerChecks(m: seq<bv8>, t: seq<bool>)
    requires |t| == 32
    ensures Feed(Ones(), Bits(m) + t) == Zero() <==> t == CrcOf(m)
  {
    var x := CrcOf(m);
    FeedConcat(Ones(), Bits(m), t);
    OwnBitsClear(x, 32);
    assert x[..32] == x;
    if t != x { WindowDiffers(x, t, x); }
  }

  // ----- From machine words to bits -----

  function Reverse(x: seq<bool>): (r: seq<bool>)
    ensures |r| == |x|
    ensures forall i {:trigger r[i]} :: 0 <= i < |x| ==> r[i] == x[|x| - 1 - i]
  {
    if x == [] then [] else Reverse(x[1..]) + [x[0]]
  }

  lemma {:induction false} BvOneHot(m: bv32)
    requires m & (m - 1) == 0
    ensures (m << 1) & ((m << 1) - 1) == 0
  {
  }

  lemma {:induction false} MaskOneHot(i: nat)
    ensures Mask(i) & (Mask(i) - 1) == 0
  {
    if i > 0 {
      MaskOneHot(i - 1);
      BvOneHot(Mask(i - 1));
    }
  }

  lemma {:induction false} BvXorBit(a: bv32, b: bv32, m: bv32)
    requires m & (m - 1) == 0
    ensures (a ^ b) & m != 0 <==> (a & m != 0) != (b & m != 0)
  {
  }

  lemma {:induction false} BitsOfXor(a: bv32, b: bv32)
    ensures ToBits(a ^ b) == Xor(ToBits(a), ToBits(b))
  {
    forall i | 0 <= i < 32 ensures ToBits(a ^ b)[i] == Xor(ToBits(a), ToBits(b))[i] {
      MaskOneHot(i);
      BvXorBit(a, b, Mask(i));
    }
  }

  lemma {:induction false} HalfMasked(x: bv32, m: bv32)
    ensures Bit(x >> 1, m) == Bit(x, m << 1)
  {
  }

  lemma {:induction false} DoubleMasked(x: bv32, m: bv32)
    requires m & (m - 1) == 0 && m << 1 != 0
    ensures Bit(x << 1, m << 1) == Bit(x, m)
  {
  }

  lemma {:induction false} ShiftedIn(x: bv32)
    ensures !Bit(x >> 1, 0x80000000) && !Bit(x << 1, 1)
  {
  }

  lemma {:induction false} HalfBit(x: bv32, i: nat)
    requires i < 31
    ensures Bit(x >> 1, Mask(i)) == Bit(x, Mask(i + 1))
  {
    hide Bit;
    HalfMasked(x, Mask(i));
  }

  lemma {:induction false} BitsOfHalf(x: bv32)
    ensures ToBits(x >> 1) == Half(ToBits(x))
  {
    forall i | 0 <= i < 32 ensures ToBits(x >> 1)[i] == Half(ToBits(x))[i] {
      if i < 31 {
        HalfBit(x, i);
      } else {
        TopMask();
        ShiftedIn(x);
      }
    }
  }

  lemma {:induction false} MaskNonzero(i: nat)
    requires i <= 31
    ensures Mask(i) != 0
    decreases 31 - i
  {
    if i < 31 {
      MaskNonzero(i + 1);
    } else {
      TopMask();
    }
  }

  lemma {:induction false} DoubleBit(x: bv32, i: nat)
    requires 0 < i < 32
    ensures Bit(x << 1, Mask(i)) == Bit(x, Mask(i - 1))
  {
    hide Bit;
    MaskOneHot(i - 1);
    MaskNonzero(i);
    DoubleMasked(x, Mask(i - 1));
  }

  lemma {:induction false} BitsOfDouble(x: bv32)
    ensures ToBits(x << 1) == [false] + ToBits(x)[..31]
  {
    forall i | 0 <= i < 32 ensures ToBits(x << 1)[i] == ([false] + ToBits(x)[..31])[i] {
      if i > 0 {
        DoubleBit(x, i);
      } else {
        ShiftedIn(x);
      }
    }
  }

  /** Shift a machine word by one bit, subtracting the polynomial if a 1 falls out. */
  function ShiftWord(x: bv32): bv32 {
    if x & 1 != 0 then (x >> 1) ^ POLY_LE else x >> 1
  }

  lemma {:induction false} BitsOfShift(x: bv32)
    ensures ToBits(ShiftWord(x)) == Step(ToBits(x), false)
  {
    assert ToBits(x)[0] == Bit(x, Mask(0));
    BitsOfHalf(x);
    BitsOfXor(x >> 1, POLY_LE);
  }

  function FourShifts(x: bv32): bv32 {
    ShiftWord(ShiftWord(ShiftWord(ShiftWord(x))))
  }

  // The parts of a shift, named so that the laws about them can be put together without looking at single bits.

  function XorWord(a: bv32, b: bv32): bv32 { a ^ b }

  function Halved(x: bv32): bv32 { x >> 1 }

  predicate Odd(x: bv32) { x & 1 != 0 }

  function Reduced(odd: bool, half: bv32): bv32 {
    if odd then XorWord(half, POLY_LE) else half
  }

  function HighPart(x: bv32): bv32 { x & 0xffff_fff0 }

  function LowPart(x: bv32): bv32 { x & 0xf }

  lemma {:induction false} ShiftIs(x: bv32)
    ensures ShiftWord(x) == Reduced(Odd(x), Halved(x))
  {
  }

  lemma {:induction false} XorIs(a: bv32, b: bv32)
    ensures XorWord(a, b) == a ^ b
  {
  }

  lemma {:induction false} HalvedXor(a: bv32, b: bv32)
    ensures Halved(XorWord(a, b)) == XorWord(Halved(a), Halved(b))
  {
  }

  lemma {:induction false} OddXor(a: bv32, b: bv32)
    ensures Odd(XorWord(a, b)) <==> Odd(a) != Odd(b)
  {
  }

  lemma {:induction false} ReducedXor(x: bool, y: bool, h: bv32, k: bv32)
    ensures Reduced(x != y, XorWord(h, k)) == XorWord(Reduced(x, h), Reduced(y, k))
  {
    hide XorWord;
    if x && y {
      XorCancels(h, k, POLY_LE);
    } else if x {
      XorLeft(h, k, POLY_LE);
    } else if y {
      XorRight(h, k, POLY_LE);
    }
  }

  lemma {:induction false} BvXor(h: bv32, k: bv32, p: bv32)
    ensures (h ^ p) ^ (k ^ p) == h ^ k && (h ^ p) ^ k == (h ^ k) ^ p && h ^ (k ^ p) == (h ^ k) ^ p
  {
  }

  lemma {:induction false} XorCommutes(h: bv32, k: bv32)
    ensures XorWord(h, k) == XorWord(k, h)
  {
  }

  lemma {:induction false} XorCancels(h: bv32, k: bv32, p: bv32)
    ensures XorWord(XorWord(h, p), XorWord(k, p)) == XorWord(h, k)
  {
    hide XorWord;
    XorIs(h, p);
    XorIs(k, p);
    XorIs(h ^ p, k ^ p);
    XorIs(h, k);
    BvXor(h, k, p);
  }

  lemma {:induction false} XorRight(h: bv32, k: bv32, p: bv32)
    ensures XorWord(h, XorWord(k, p)) == XorWord(XorWord(h, k), p)
  {
    hide XorWord;
    XorIs(k, p);
    XorIs(h, k);
    XorIs(h, k ^ p);
    XorIs(h ^ k, p);
    BvXor(h, k, p);
  }

  lemma {:induction false} XorLeft(h: bv32, k: bv32, p: bv32)
    ensures XorWord(XorWord(h, p), k) == XorWord(XorWord(h, k), p)
  {
    hide XorWord;
    XorCommutes(XorWord(h, p), k);
    XorRight(k, h, p);
    XorCommutes(k, h);
  }

  /** Shifting is linear. */
  lemma {:induction false} ShiftXor(a: bv32, b: bv32)
    ensures ShiftWord(XorWord(a, b)) == XorWord(ShiftWord(a), ShiftWord(b))
  {
    hide ShiftWord, Reduced, XorWord, Halved, Odd;
    ShiftIs(a);
    ShiftIs(b);
    ShiftIs(XorWord(a, b));
    HalvedXor(a, b);
    OddXor(a, b);
    ReducedXor(Odd(a), Odd(b), Halved(a), Halved(b));
  }

  lemma {:induction false} FourShiftsXor(a: bv32, b: bv32)
    ensures FourShifts(XorWord(a, b)) == XorWord(FourShifts(a), FourShifts(b))
  {
    hide ShiftWord, XorWord;
    ShiftXor(a, b);
    var a1, b1 := ShiftWord(a), ShiftWord(b);
    ShiftXor(a1, b1);
    var a2, b2 := ShiftWord(a1), ShiftWord(b1);
    ShiftXor(a2, b2);
    ShiftXor(ShiftWord(a2), ShiftWord(b2));
  }

  lemma {:induction false} PartsXor(x: bv32)
    ensures XorWord(HighPart(x), LowPart(x)) == x
  {
  }

  lemma {:induction false} EvenShift(x: bv32)
    requires !Odd(x)
    ensures ShiftWord(x) == Halved(x)
  {
  }

  lemma {:induction false} HighHalves(x: bv32)
    ensures var h := HighPart(x);
      && !Odd(h) && !Odd(Halved(h)) && !Odd(Halved(Halved(h))) && !Odd(Halved(Halved(Halved(h))))
      && Halved(Halved(Halved(Halved(h)))) == x >> 4
  {
  }

  lemma {:induction false} FourShiftsHigh(x: bv32)
    ensures FourShifts(HighPart(x)) == x >> 4
  {
    hide ShiftWord, Halved, Odd, HighPart;
    HighHalves(x);
    var h := HighPart(x);
    EvenShift(h);
    EvenShift(Halved(h));
    EvenShift(Halved(Halved(h)));
    EvenShift(Halved(Halved(Halved(h))));
  }

  lemma {:induction false} TableBelow8(k: bv32)
    requires k <= 7
    ensures k as int < 16 && FourShifts(k) == CRCTAB[k as int]
  {
    if k == 0 {} else if k == 1 {} else if k == 2 {} else if k == 3 {}
    else if k == 4 {} else if k == 5 {} else if k == 6 {} else { assert k == 7; }
  }

  lemma {:induction false} TableFrom8(k: bv32)
    requires 8 <= k <= 15
    ensures k as int < 16 && FourShifts(k) == CRCTAB[k as int]
  {
    if k == 8 {} else if k == 9 {} else if k == 10 {} else if k == 11 {}
    else if k == 12 {} else if k == 13 {} else if k == 14 {} else { assert k == 15; }
  }

  lemma {:induction false} FourShiftsLow(x: bv32)
    ensures 0 <= LowPart(x) as int < 16 && FourShifts(LowPart(x)) == CRCTAB[LowPart(x) as int]
  {
    var k := LowPart(x);
    assert k <= 15;
    hide LowPart, FourShifts;
    if k <= 7 { TableBelow8(k); } else { TableFrom8(k); }
  }

  lemma {:induction false} FourShiftsParts(x: bv32)
    ensures (x >> 4) ^ FourShifts(LowPart(x)) == FourShifts(x)
  {
    XorIs(x >> 4, FourShifts(LowPart(x)));
    hide FourShifts, XorWord, HighPart, LowPart;
    PartsXor(x);
    FourShiftsHigh(x);
    FourShiftsXor(HighPart(x), LowPart(x));
  }

  /** The table folds four single-bit shifts into one lookup. */
  lemma {:induction false} NibbleTable(x: bv32)
    ensures 0 <= (x & 0xf) as int < 16
    ensures (x >> 4) ^ CRCTAB[(x & 0xf) as int] == FourShifts(x)
  {
    FourShiftsParts(x);
    assert LowPart(x) == x & 0xf;
    FourShiftsLow(x);
    hide FourShifts, LowPart;
  }

  // ----- Bits determine words and bytes -----

  /** The `n` low bits set. */
  function LowMask(n: nat): bv32 {
    if n == 0 then 0 else LowMask(n - 1) | Mask(n - 1)
  }

  lemma {:induction false} BvSplit(x: bv32, m: bv32, n: bv32)
    requires x & m == 0 && x & n == 0
    ensures x & (m | n) == 0
  {
  }

  lemma {:induction false} BvAnd(x: bv32)
    ensures x & 0 == 0 && x & 0xffffffff == x
  {
  }

  lemma {:induction false} ClearBelow(x: bv32, n: nat)
    requires forall i :: 0 <= i < n ==> !Bit(x, Mask(i))
    ensures x & LowMask(n) == 0
  {
    if n == 0 {
      BvAnd(x);
    } else {
      ClearBelow(x, n - 1);
      assert !Bit(x, Mask(n - 1));
      BvSplit(x, LowMask(n - 1), Mask(n - 1));
    }
  }

  lemma {:induction false} AllBits()
    ensures LowMask(32) == 0xffffffff
  {
    MaskValues();
    assert LowMask(8) == 0xff;
    assert LowMask(16) == 0xffff;
    assert LowMask(24) == 0xffffff;
  }

  lemma {:induction false} BvSame(a: bv32, b: bv32)
    requires a ^ b == 0
    ensures a == b
  {
  }

  /** Two machine words with the same bits are the same word. */
  lemma {:induction false} BitsDetermineWord(a: bv32, b: bv32)
    requires ToBits(a) == ToBits(b)
    ensures a == b
  {
    hide Bit;
    BitsOfXor(a, b);
    forall i | 0 <= i < 32 ensures !Bit(a ^ b, Mask(i)) {
      assert ToBits(a ^ b)[i] == (ToBits(a)[i] != ToBits(b)[i]);
    }
    ClearBelow(a ^ b, 32);
    AllBits();
    BvAnd(a ^ b);
    BvSame(a, b);
  }
}
