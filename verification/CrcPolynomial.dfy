/** The register as the remainder of a polynomial division, by the generator of IEEE 802.3. */
module CrcPolynomial {
  import opened Crc
  import opened CrcCode

  /** The exponents of the generator, section 3.2.9 of IEEE 802.3. */
  const EXPONENTS: set<nat> := {32, 26, 23, 22, 16, 12, 11, 10, 8, 7, 5, 4, 2, 1, 0}

  /** A polynomial is the sequence of its coefficients, highest power first. */
  function Generator(): (g: seq<bool>)
    ensures |g| == 33 && forall k :: 0 <= k < 33 ==> g[k] == (32 - k in EXPONENTS)
  {
    seq(33, k requires 0 <= k < 33 => 32 - k in EXPONENTS)
  }

  /** Long division: while there are more than 32 coefficients, subtract the generator if the first one is set, and drop
      it. */
  function Remainder(p: seq<bool>): seq<bool>
    decreases |p|
  {
    if |p| <= 32 then p
    else if p[0] then Remainder(XorBits(p[1..33], Generator()[1..]) + p[33..])
    else Remainder(p[1..])
  }

  function Zeros(n: nat): (r: seq<bool>)
    ensures |r| == n && forall i :: 0 <= i < n ==> !r[i]
  {
    seq(n, _ => false)
  }

  /** The polynomial divided when `bits` are fed to the register `x`: the message times x^32, plus the register in front
      of it. */
  function Dividend(x: Word, bits: seq<bool>): (p: seq<bool>)
    ensures |p| == |bits| + 32
  {
    XorBits(bits + Zeros(32), x + Zeros(|bits|))
  }

  /** The constant of the little-endian routine, read lowest bit first, is the generator without its highest term. */
  lemma {:induction false} PolyIs(i: nat)
    requires i < 32
    ensures Poly()[i] == (31 - i in EXPONENTS)
  {
    MaskValues();
    match i
    case 0 => case 1 => case 2 => case 3 => case 4 => case 5 => case 6 => case 7 =>
    case 8 => case 9 => case 10 => case 11 => case 12 => case 13 => case 14 => case 15 =>
    case 16 => case 17 => case 18 => case 19 => case 20 => case 21 => case 22 => case 23 =>
    case 24 => case 25 => case 26 => case 27 => case 28 => case 29 => case 30 => case 31 =>
  }

  lemma {:induction false} DividendStep(x: Word, bits: seq<bool>)
    requires bits != []
    ensures var p := Dividend(x, bits);
      Dividend(Step(x, bits[0]), bits[1..]) ==
        if p[0] then XorBits(p[1..33], Generator()[1..]) + p[33..] else p[1..]
  {
    hide Poly, Generator, Dividend;
    var p, q := Dividend(x, bits), Dividend(Step(x, bits[0]), bits[1..]);
    DividendIs(x, bits);
    DividendIs(Step(x, bits[0]), bits[1..]);
    var r := if p[0] then XorBits(p[1..33], Generator()[1..]) + p[33..] else p[1..];
    forall i | 0 <= i < |q| ensures q[i] == r[i] {
      if i < 32 {
        PolyIs(i);
        GeneratorIs(i + 1);
        StepIs(x, bits[0], i);
      }
    }
  }

  lemma {:induction false} GeneratorIs(k: nat)
    requires k < 33
    ensures Generator()[k] == (32 - k in EXPONENTS)
  {
  }

  lemma {:induction false} DividendIs(x: Word, bits: seq<bool>)
    ensures |Dividend(x, bits)| == |bits| + 32
    ensures forall i :: 0 <= i < |bits| + 32 ==>
      Dividend(x, bits)[i] == ((if i < |bits| then bits[i] else false) != (if i < 32 then x[i] else false))
  {
  }

  lemma {:induction false} StepIs(x: Word, bit: bool, i: nat)
    requires i < 32
    ensures Step(x, bit)[i] == ((if i < 31 then x[i + 1] else false) != (if x[0] != bit then Poly()[i] else false))
  {
    hide Poly;
  }

  /** Feeding bits to the register divides. */
  lemma {:induction false} FeedIsRemainder(x: Word, bits: seq<bool>)
    ensures Feed(x, bits) == Remainder(Dividend(x, bits))
    decreases |bits|
  {
    hide Step, Poly, Generator;
    if bits == [] {
      assert Dividend(x, bits) == x;
    } else {
      FeedIsRemainder(Step(x, bits[0]), bits[1..]);
      DividendStep(x, bits);
      hide Dividend;
    }
  }

  /** The CRC of a message: its bits in order of transmission, the first 32 of them complemented, times x^32, modulo the
      generator. */
  lemma {:induction false} CrcIsRemainder(s: seq<bv8>)
    ensures CrcOf(s) == Remainder(Dividend(Ones(), Bits(s)))
  {
    FeedIsRemainder(Ones(), Bits(s));
  }

  // ----- A known value -----

  lemma {:induction false} OneByte(s: seq<bv8>, n: nat, crc: bv32, x: bv32, y: bv32, z: bv32)
    requires n < |s| && ToBits(crc) == Feed(Ones(), Bits(s[..n]))
    requires x == crc ^ (s[n] as bv32) && y == NibbleStep(x) && z == NibbleStep(y)
    ensures ToBits(z) == Feed(Ones(), Bits(s[..n + 1]))
  {
    hide ToBits, NibbleStep, Step, ByteBits, Ones;
    FeedSnoc(Ones(), s, n);
    TableByteFeeds(crc, s[n], x);
  }

  /** The register after the digits 1 to 9. */
  lemma {:induction false} KnownRegister()
    ensures CrcOf([0x31, 0x32, 0x33, 0x34, 0x35, 0x36, 0x37, 0x38, 0x39]) == ToBits(0x340bc6d9)
  {
    var s: seq<bv8> := [0x31, 0x32, 0x33, 0x34, 0x35, 0x36, 0x37, 0x38, 0x39];
    KnownSteps();
    hide ToBits, NibbleStep, Step, ByteBits, Ones;
    InitialBits();
    assert s[..0] == [] && s[..9] == s;
    OneByte(s, 0, INITIAL, 0xffffffce, 0xaff51d84, 0x7c231048);
    OneByte(s, 1, 0x7c231048, 0x7c23107a, 0xd11492ef, 0xb0acbb32);
    OneByte(s, 2, 0xb0acbb32, 0xb0acbb01, 0x16bddbd4, 0x77b79c2d);
    OneByte(s, 3, 0x77b79c2d, 0x77b79c19, 0xf774ea85, 0x641c1f5c);
    OneByte(s, 4, 0x641c1f5c, 0x641c1f69, 0xf64e52b2, 0x340ac5e3);
    OneByte(s, 5, 0x340ac5e3, 0x340ac5d5, 0x682bfda9, 0xf68d2c9e);
    OneByte(s, 6, 0xf68d2c9e, 0xf68d2ca9, 0xff67418e, 0xaffc9660);
    OneByte(s, 7, 0xaffc9660, 0xaffc9658, 0xe7474a45, 0x651f2550);
    OneByte(s, 8, 0x651f2550, 0x651f2569, 0xf65e6112, 0x340bc6d9);
  }

  lemma {:induction false} KnownSteps()
    ensures NibbleStep(0xffffffce) == 0xaff51d84 && NibbleStep(0xaff51d84) == 0x7c231048
    ensures NibbleStep(0x7c23107a) == 0xd11492ef && NibbleStep(0xd11492ef) == 0xb0acbb32
    ensures NibbleStep(0xb0acbb01) == 0x16bddbd4 && NibbleStep(0x16bddbd4) == 0x77b79c2d
    ensures NibbleStep(0x77b79c19) == 0xf774ea85 && NibbleStep(0xf774ea85) == 0x641c1f5c
    ensures NibbleStep(0x641c1f69) == 0xf64e52b2 && NibbleStep(0xf64e52b2) == 0x340ac5e3
    ensures NibbleStep(0x340ac5d5) == 0x682bfda9 && NibbleStep(0x682bfda9) == 0xf68d2c9e
    ensures NibbleStep(0xf68d2ca9) == 0xff67418e && NibbleStep(0xff67418e) == 0xaffc9660
    ensures NibbleStep(0xaffc9658) == 0xe7474a45 && NibbleStep(0xe7474a45) == 0x651f2550
    ensures NibbleStep(0x651f2569) == 0xf65e6112 && NibbleStep(0xf65e6112) == 0x340bc6d9
  {
  }
}
