/** The three CRC routines, proved against the bit-at-a-time register of module Crc. */
module CrcCode {
  import opened Crc

  // ----- A byte at a time -----

  /** `n` shifts with no message bit. */
  function Shifted(x: Word, n: nat): Word
    decreases n
  {
    if n == 0 then x else Shifted(Step(x, false), n - 1)
  }

  /** Message bits may all be added into the register before it is shifted. */
  lemma {:induction false} AddThenShift(x: Word, p: Word, bits: seq<bool>)
    requires |bits| <= 32
    requires forall i :: 0 <= i < 32 ==> p[i] == (i < |bits| && bits[i])
    ensures Feed(x, bits) == Shifted(Xor(x, p), |bits|)
    decreases bits
  {
    if bits == [] {
      assert Xor(x, p) == x;
    } else {
      StepLinear(x, p, bits[0], bits[0]);
      assert Step(p, bits[0]) == Half(p);
      AddThenShift(Step(x, bits[0]), Half(p), bits[1..]);
    }
  }

  lemma {:induction false} BvHighMask(m: bv32)
    requires m & 0xff == 0
    ensures (m << 1) & 0xff == 0
  {
  }

  lemma {:induction false} HighMask(i: nat)
    requires 8 <= i
    ensures Mask(i) & 0xff == 0
  {
    if i == 8 {
      MaskValues();
    } else {
      HighMask(i - 1);
      BvHighMask(Mask(i - 1));
    }
  }

  lemma {:induction false} BvByteBit(x: bv32, m: bv32)
    requires m & 0xff == 0 && x & 0xff == x
    ensures !Bit(x, m)
  {
  }

  lemma {:induction false} BvByte(b: bv8)
    ensures (b as bv32) & 0xff == b as bv32
  {
  }

  lemma {:induction false} ByteHasEightBits(b: bv8, i: nat)
    requires i < 32
    ensures ToBits(b as bv32)[i] == (i < 8 && ByteBits(b)[i])
  {
    hide Bit;
    if 8 <= i {
      HighMask(i);
      BvByte(b);
      BvByteBit(b as bv32, Mask(i));
    }
  }

  lemma {:induction false} FeedByte(x: Word, b: bv8)
    ensures Feed(x, ByteBits(b)) == Shifted(Xor(x, ToBits(b as bv32)), 8)
  {
    forall i | 0 <= i < 32 ensures ToBits(b as bv32)[i] == (i < 8 && ByteBits(b)[i]) {
      ByteHasEightBits(b, i);
    }
    AddThenShift(x, ToBits(b as bv32), ByteBits(b));
  }

  /** One table lookup. */
  function NibbleStep(x: bv32): bv32 {
    (x >> 4) ^ CRCTAB[(x & 0xf) as int]
  }

  lemma {:induction false} NibbleShifts(x: bv32)
    ensures ToBits(NibbleStep(x)) == Shifted(ToBits(x), 4)
  {
    hide ShiftWord, ToBits, Step;
    NibbleTable(x);
    var y := ShiftWord(x);
    var z := ShiftWord(y);
    var w := ShiftWord(z);
    BitsOfShift(x);
    BitsOfShift(y);
    BitsOfShift(z);
    BitsOfShift(w);
  }

  lemma {:induction false} ShiftedTwice(x: Word)
    ensures Shifted(Shifted(x, 4), 4) == Shifted(x, 8)
  {
  }

  lemma {:induction false} BitsSnoc(s: seq<bv8>, n: nat)
    requires n < |s|
    ensures Bits(s[..n + 1]) == Bits(s[..n]) + ByteBits(s[n])
  {
    assert s[..n + 1] == s[..n] + [s[n]];
    BitsConcat(s[..n], [s[n]]);
    assert [s[n]][1..] == [];
    assert ByteBits(s[n]) + [] == ByteBits(s[n]);
  }

  lemma {:induction false} FeedSnoc(x: Word, s: seq<bv8>, n: nat)
    requires n < |s|
    ensures Feed(x, Bits(s[..n + 1])) == Feed(Feed(x, Bits(s[..n])), ByteBits(s[n]))
  {
    BitsSnoc(s, n);
    FeedConcat(x, Bits(s[..n]), ByteBits(s[n]));
  }

  // ----- The table-driven routine -----

  /** Adding a byte and looking up both its nibbles feeds its eight bits. */
  lemma {:induction false} TableByteFeeds(crc: bv32, b: bv8, x: bv32)
    requires x == crc ^ (b as bv32)
    ensures ToBits(NibbleStep(NibbleStep(x))) == Feed(ToBits(crc), ByteBits(b))
  {
    hide *;
    BitsOfXor(crc, b as bv32);
    NibbleShifts(x);
    NibbleShifts(NibbleStep(x));
    ShiftedTwice(ToBits(x));
    FeedByte(ToBits(crc), b);
  }

  lemma {:induction false} InitialBits()
    ensures ToBits(INITIAL) == Ones()
  {
    hide Bit;
    forall i | 0 <= i < 32 ensures ToBits(INITIAL)[i] {
      MaskNonzero(i);
      AllSet(Mask(i));
    }
  }

  lemma {:induction false} AllSet(m: bv32)
    requires m != 0
    ensures Bit(INITIAL, m)
  {
  }

  method Crc32le(buf: seq<bv8>) returns (crc: bv32)
    ensures ToBits(crc) == CrcOf(buf)
  {
    hide ToBits, NibbleStep, Step, ByteBits, Ones;
    crc := INITIAL;
    InitialBits();
    for i := 0 to |buf|
      invariant ToBits(crc) == Feed(Ones(), Bits(buf[..i]))
    {
      FeedSnoc(Ones(), buf, i);
      TableByteFeeds(crc, buf[i], crc ^ (buf[i] as bv32));
      crc := crc ^ (buf[i] as bv32);
      crc := NibbleStep(crc);
      crc := NibbleStep(crc);
    }
    assert buf[..|buf|] == buf;
  }

  // ----- The bit-at-a-time reference -----

  lemma {:induction false} ReferenceStep(crc: bv32, c: bv32)
    ensures var next := if (crc & 1 != 0) != (c & 1 != 0) then (crc >> 1) ^ POLY_LE else crc >> 1;
            ToBits(next) == Step(ToBits(crc), ToBits(c)[0])
  {
    LowBit(crc);
    LowBit(c);
    BitsOfHalf(crc);
    BitsOfXor(crc >> 1, POLY_LE);
    hide ToBits;
  }

  lemma {:induction false} LowBit(x: bv32)
    ensures ToBits(x)[0] == (x & 1 != 0)
  {
    assert ToBits(x)[0] == Bit(x, Mask(0));
  }

  lemma {:induction false} FeedOne(x: Word, bits: seq<bool>)
    requires bits != []
    ensures Feed(x, bits) == Feed(Step(x, bits[0]), bits[1..])
  {
  }

  method Crc32leReference(buf: seq<bv8>) returns (crc: bv32)
    ensures ToBits(crc) == CrcOf(buf)
  {
    hide ToBits, Step, ByteBits, Ones;
    crc := INITIAL;
    InitialBits();
    for i := 0 to |buf|
      invariant ToBits(crc) == Feed(Ones(), Bits(buf[..i]))
    {
      FeedSnoc(Ones(), buf, i);
      crc := ReferenceByte(crc, buf[i]);
    }
    assert buf[..|buf|] == buf;
  }

  /** The inner loop over one byte. */
  method ReferenceByte(crc0: bv32, b: bv8) returns (crc: bv32)
    ensures ToBits(crc) == Feed(ToBits(crc0), ByteBits(b))
  {
    hide ToBits, Step, Half;
    crc := crc0;
    var c := b as bv32;
    assert ByteBits(b) == ToBits(c)[..8];
    for j := 0 to 8
      invariant Feed(ToBits(crc), ToBits(c)[..8 - j]) == Feed(ToBits(crc0), ByteBits(b))
    {
      ghost var rest := ToBits(c)[..8 - j];
      FeedOne(ToBits(crc), rest);
      ReferenceStep(crc, c);
      BitsOfHalf(c);
      HalfTakes(ToBits(c), 8 - j);
      var carry := (crc & 1 != 0) != (c & 1 != 0);
      crc := crc >> 1;
      c := c >> 1;
      if carry {
        crc := crc ^ POLY_LE;
      }
    }
    assert ToBits(c)[..0] == [];
  }

  lemma {:induction false} HalfTakes(w: Word, n: nat)
    requires 0 < n <= 31
    ensures Half(w)[..n - 1] == w[..n][1..]
  {
  }

  // ----- The big-endian routine -----

  lemma {:induction false} PolyMirrors(i: nat)
    requires i < 32
    ensures ToBits(POLY_BE | 1)[i] == ToBits(POLY_LE)[31 - i]
  {
    MaskValues();
    match i
    case 0 => case 1 => case 2 => case 3 => case 4 => case 5 => case 6 => case 7 =>
    case 8 => case 9 => case 10 => case 11 => case 12 => case 13 => case 14 => case 15 =>
    case 16 => case 17 => case 18 => case 19 => case 20 => case 21 => case 22 => case 23 =>
    case 24 => case 25 => case 26 => case 27 => case 28 => case 29 => case 30 => case 31 =>
  }

  lemma {:induction false} PolyReversed()
    ensures ToBits(POLY_BE | 1) == Reverse(Poly())
  {
    hide ToBits, Reverse;
    var l, m := ToBits(POLY_BE | 1), Reverse(Poly());
    forall i | 0 <= i < 32 ensures l[i] == m[i] {
      PolyMirrors(i);
    }
  }

  lemma {:induction false} BvMergeCarry(x: bv32)
    ensures ((x << 1) ^ POLY_BE) | 1 == (x << 1) ^ (POLY_BE | 1)
  {
  }

  lemma {:induction false} ReverseHalf(x: Word)
    ensures Reverse(Half(x)) == [false] + Reverse(x)[..31]
  {
  }

  lemma {:induction false} ReverseXor(x: Word, y: Word)
    ensures Reverse(Xor(x, y)) == Xor(Reverse(x), Reverse(y))
  {
  }

  lemma {:induction false} DoubleMirrors(crc: bv32, x: Word)
    requires ToBits(crc) == Reverse(x)
    ensures ToBits(crc << 1) == Reverse(Half(x))
  {
    hide ToBits, Reverse, Half;
    BitsOfDouble(crc);
    ReverseHalf(x);
  }

  lemma {:induction false} SubtractMirrors(crc: bv32, x: Word)
    requires ToBits(crc << 1) == Reverse(x)
    ensures ToBits(((crc << 1) ^ POLY_BE) | 1) == Reverse(Xor(x, Poly()))
  {
    hide ToBits, Reverse, Poly, Xor;
    BvMergeCarry(crc);
    BitsOfXor(crc << 1, POLY_BE | 1);
    PolyReversed();
    ReverseXor(x, Poly());
  }

  lemma {:induction false} TopBit(crc: bv32)
    ensures ToBits(crc)[31] == (crc & 0x80000000 != 0)
  {
    TopMask();
  }

  lemma {:induction false} BottomBit(c: bv32)
    ensures ToBits(c)[0] == (c & 1 != 0)
  {
    assert ToBits(c)[0] == Bit(c, Mask(0));
  }

  /** One step of the big-endian code mirrors one step of the register. */
  lemma {:induction false} BigEndianStep(crc: bv32, c: bv32, x: Word)
    requires ToBits(crc) == Reverse(x)
    ensures var carry := (crc & 0x80000000 != 0) != (c & 1 != 0);
            var next := if carry then ((crc << 1) ^ POLY_BE) | 1 else crc << 1;
            ToBits(next) == Reverse(Step(x, ToBits(c)[0]))
  {
    hide ToBits, Half, Xor, Poly, Reverse;
    TopBit(crc);
    BottomBit(c);
    assert Reverse(x)[31] == x[0];
    DoubleMirrors(crc, x);
    SubtractMirrors(crc, Half(x));
  }

  method Crc32be(buf: seq<bv8>) returns (crc: bv32)
    ensures ToBits(crc) == Reverse(CrcOf(buf))
  {
    hide ToBits, Step, ByteBits, Ones, Reverse;
    crc := INITIAL;
    InitialBits();
    OnesReversed();
    for i := 0 to |buf|
      invariant ToBits(crc) == Reverse(Feed(Ones(), Bits(buf[..i])))
    {
      FeedSnoc(Ones(), buf, i);
      crc := BigEndianByte(crc, buf[i], Feed(Ones(), Bits(buf[..i])));
    }
    assert buf[..|buf|] == buf;
  }

  lemma {:induction false} OnesReversed()
    ensures Reverse(Ones()) == Ones()
  {
  }

  /** The inner loop over one byte; `x0` is the register the word mirrors. */
  method BigEndianByte(crc0: bv32, b: bv8, ghost x0: Word) returns (crc: bv32)
    requires ToBits(crc0) == Reverse(x0)
    ensures ToBits(crc) == Reverse(Feed(x0, ByteBits(b)))
  {
    hide ToBits, Step, Half, Reverse;
    crc := crc0;
    var c := b as bv32;
    ghost var x := x0;
    assert ByteBits(b) == ToBits(c)[..8];
    for j := 0 to 8
      invariant ToBits(crc) == Reverse(x)
      invariant Feed(x, ToBits(c)[..8 - j]) == Feed(x0, ByteBits(b))
    {
      FeedOne(x, ToBits(c)[..8 - j]);
      BigEndianStep(crc, c, x);
      BitsOfHalf(c);
      HalfTakes(ToBits(c), 8 - j);
      x := Step(x, ToBits(c)[0]);
      var carry := (crc & 0x80000000 != 0) != (c & 1 != 0);
      crc := crc << 1;
      c := c >> 1;
      if carry {
        crc := (crc ^ POLY_BE) | 1;
      }
    }
    assert ToBits(c)[..0] == [];
  }

  // ----- Whole-routine agreement -----

  /** A word is the CRC of at most one register value, so the table-driven routine, the reference and
      the mirrored big-endian routine compute one and the same function of the message. */
  lemma {:induction false} RoutinesAgree(buf: seq<bv8>, table: bv32, reference: bv32, big: bv32)
    requires ToBits(table) == CrcOf(buf) && ToBits(reference) == CrcOf(buf) && ToBits(big) == Reverse(CrcOf(buf))
    ensures table == reference
    ensures ToBits(big) == Reverse(ToBits(table))
  {
    BitsDetermineWord(table, reference);
  }

  // ----- Detection, stated on bytes -----

  lemma {:induction false} ByteBitsInjective(a: bv8, b: bv8)
    requires ByteBits(a) == ByteBits(b)
    ensures a == b
  {
    var p, q := ToBits(a as bv32), ToBits(b as bv32);
    forall i | 0 <= i < 32 ensures p[i] == q[i] {
      ByteHasEightBits(a, i);
      ByteHasEightBits(b, i);
    }
    assert p == q;
    BitsDetermineWord(a as bv32, b as bv32);
    BvWiden(a, b);
  }

  lemma {:induction false} BvWiden(a: bv8, b: bv8)
    requires a as bv32 == b as bv32
    ensures a == b
  {
  }

  lemma {:induction false} BitsAt(s: seq<bv8>, n: nat)
    requires n < |s|
    ensures Bits(s)[8 * n..8 * n + 8] == ByteBits(s[n])
  {
    assert s == s[..n] + s[n..];
    BitsConcat(s[..n], s[n..]);
    assert Bits(s[n..]) == ByteBits(s[n]) + Bits(s[n..][1..]);
  }

  /** Two messages of equal length that differ, and only inside four consecutive bytes, have
      different CRCs. */
  lemma {:induction false} FourByteBurstDetected(m: seq<bv8>, m': seq<bv8>, k: nat)
    requires |m| == |m'| && m != m'
    requires forall i :: 0 <= i < |m| && (i < k || k + 4 <= i) ==> m[i] == m'[i]
    ensures CrcOf(m) != CrcOf(m')
  {
    var j :| 0 <= j < |m| && m[j] != m'[j];
    if Bits(m) == Bits(m') {
      BitsAt(m, j);
      BitsAt(m', j);
      ByteBitsInjective(m[j], m'[j]);
    }
    forall i | 0 <= i < |Bits(m)| && (i < 8 * k || 8 * k + 32 <= i) ensures Bits(m)[i] == Bits(m')[i] {
      var n := i / 8;
      BitsAt(m, n);
      BitsAt(m', n);
      assert Bits(m)[i] == Bits(m)[8 * n..8 * n + 8][i - 8 * n];
      assert Bits(m')[i] == Bits(m')[8 * n..8 * n + 8][i - 8 * n];
    }
    BurstDetected(m, m', 8 * k);
  }

  function LowByte(x: bv32): bv8 { (x & 0xff) as bv8 }

  /** The `n` low bytes of a word, lowest first. */
  function WordBytes(x: bv32, n: nat): (r: seq<bv8>)
    ensures |r| == n
    decreases n
  {
    if n == 0 then [] else [LowByte(x)] + WordBytes(x >> 8, n - 1)
  }

  lemma {:induction false} BvLowByte(x: bv32)
    ensures LowByte(x) as bv32 == x & 0xff
  {
  }

  lemma {:induction false} LowMasked(x: bv32, m: bv32)
    requires m & 0xff == m
    ensures Bit(x & 0xff, m) == Bit(x, m)
  {
  }

  lemma {:induction false} MaskInByte(i: nat)
    requires i < 8
    ensures Mask(i) & 0xff == Mask(i)
  {
    MaskValues();
  }

  lemma {:induction false} LowByteBits(x: bv32)
    ensures ByteBits(LowByte(x)) == ToBits(x)[..8]
  {
    hide Bit, LowByte;
    BvLowByte(x);
    forall i | 0 <= i < 8 ensures ByteBits(LowByte(x))[i] == ToBits(x)[i] {
      MaskInByte(i);
      LowMasked(x, Mask(i));
    }
  }

  lemma {:induction false} BvFourHalves(x: bv32)
    ensures (((x >> 1) >> 1) >> 1) >> 1 == x >> 4 && (x >> 4) >> 4 == x >> 8
  {
  }

  lemma {:induction false} FourHalves(x: bv32)
    ensures ToBits(x >> 4)[..28] == ToBits(x)[4..]
  {
    hide ToBits;
    BvFourHalves(x);
    var y := x >> 1;
    var z := y >> 1;
    BitsOfHalf(x);
    BitsOfHalf(y);
    BitsOfHalf(z);
    BitsOfHalf(z >> 1);
  }

  lemma {:induction false} EightHalves(x: bv32)
    ensures ToBits(x >> 8)[..24] == ToBits(x)[8..]
  {
    hide ToBits;
    BvFourHalves(x);
    FourHalves(x);
    FourHalves(x >> 4);
    assert ToBits(x >> 8)[..24] == ToBits(x >> 8)[..28][..24];
    assert ToBits(x)[8..] == ToBits(x)[4..][4..];
  }

  lemma {:induction false} WordBytesBits(x: bv32, n: nat)
    requires n <= 4
    ensures Bits(WordBytes(x, n)) == ToBits(x)[..8 * n]
    decreases n
  {
    hide ToBits, ByteBits, LowByte;
    if n > 0 {
      WordBytesBits(x >> 8, n - 1);
      LowByteBits(x);
      EightHalves(x);
      NextSlice(ToBits(x), ToBits(x >> 8), 8 * n);
    }
  }

  lemma {:induction false} NextSlice(w: Word, w8: Word, k: nat)
    requires w8[..24] == w[8..] && 8 <= k <= 32
    ensures w[..8] + w8[..k - 8] == w[..k]
  {
    assert w8[..k - 8] == w8[..24][..k - 8] == w[8..k];
  }

  /** Appending a word's four bytes in little-endian order drives the register to 0 exactly when the
      word is the message's own CRC. */
  lemma {:induction false} FrameCheckVerifies(m: seq<bv8>, crc: bv32)
    ensures CrcOf(m + WordBytes(crc, 4)) == Zero() <==> ToBits(crc) == CrcOf(m)
  {
    hide ToBits, Step, Zero, Ones, WordBytes;
    BitsConcat(m, WordBytes(crc, 4));
    WordBytesBits(crc, 4);
    assert ToBits(crc)[..32] == ToBits(crc);
    TrailerChecks(m, ToBits(crc));
  }
}
