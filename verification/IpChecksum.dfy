/** The Internet checksum of RFC 1071: the unrolled summing loop and the carry fold. */
module IpChecksum {
  import opened Options

  newtype byte = x: int | 0 <= x < 256

  const INT_LIMIT := 0x8000_0000

  // ----- Sums of 16-bit words -----

  /** Two bytes as the host reads them. */
  function Word(first: byte, second: byte, littleEndian: bool): nat {
    if littleEndian then first as nat + 256 * second as nat else 256 * first as nat + second as nat
  }

  /** The 16-bit words of a buffer, an odd last byte being padded with a zero. */
  function Words(buf: seq<byte>, littleEndian: bool): seq<nat> {
    if buf == [] then []
    else if |buf| == 1 then [Word(buf[0], 0, littleEndian)]
    else [Word(buf[0], buf[1], littleEndian)] + Words(buf[2..], littleEndian)
  }

  function Sum(ws: seq<nat>): nat {
    if ws == [] then 0 else ws[0] + Sum(ws[1..])
  }

  lemma {:induction false} SumConcat(a: seq<nat>, b: seq<nat>)
    ensures Sum(a + b) == Sum(a) + Sum(b)
  {
    if a == [] {
      assert a + b == b;
    } else {
      assert (a + b)[1..] == a[1..] + b;
      SumConcat(a[1..], b);
    }
  }

  lemma {:induction false} WordsAre(buf: seq<byte>, le: bool)
    ensures |Words(buf, le)| == (|buf| + 1) / 2
    ensures forall i :: 0 <= i < |Words(buf, le)| ==>
              Words(buf, le)[i] == Word(buf[2 * i], if 2 * i + 1 < |buf| then buf[2 * i + 1] else 0, le)
  {
    if |buf| > 1 {
      WordsAre(buf[2..], le);
      var w, w' := Words(buf, le), Words(buf[2..], le);
      forall i | 0 <= i < |w| ensures w[i] == Word(buf[2 * i], if 2 * i + 1 < |buf| then buf[2 * i + 1] else 0, le) {
        if i > 0 { assert w[i] == w'[i - 1]; }
      }
    }
  }

  lemma {:induction false} SumTake(ws: seq<nat>, k: nat)
    requires k < |ws|
    ensures Sum(ws[..k + 1]) == Sum(ws[..k]) + ws[k]
  {
    assert ws[..k + 1] == ws[..k] + [ws[k]];
    SumConcat(ws[..k], [ws[k]]);
    assert [ws[k]][1..] == [];
  }

  lemma {:induction false} SumPrefix(ws: seq<nat>, k: nat)
    requires k <= |ws|
    ensures Sum(ws[..k]) <= Sum(ws)
  {
    assert ws == ws[..k] + ws[k..];
    SumConcat(ws[..k], ws[k..]);
  }

  lemma {:induction false} SumBound(ws: seq<nat>)
    requires forall i :: 0 <= i < |ws| ==> ws[i] <= 0xffff
    ensures Sum(ws) <= 0xffff * |ws|
  {
    if ws != [] { SumBound(ws[1..]); }
  }

  /** A packet of at most 65535 bytes, summed from 0, stays within a signed 32-bit integer. */
  lemma {:induction false} NoOverflow(buf: seq<byte>, le: bool)
    requires |buf| <= 0xffff
    ensures Sum(Words(buf, le)) < INT_LIMIT
  {
    WordsAre(buf, le);
    SumBound(Words(buf, le));
  }

  // ----- The unrolled loop -----

  lemma {:induction false} NextWord(buf: seq<byte>, le: bool, k: nat)
    requires 2 * k < |buf|
    ensures k < |Words(buf, le)| == (|buf| + 1) / 2
    ensures var w := Word(buf[2 * k], if 2 * k + 1 < |buf| then buf[2 * k + 1] else 0, le);
            Sum(Words(buf, le)[..k + 1]) == Sum(Words(buf, le)[..k]) + w
    ensures Sum(Words(buf, le)[..k + 1]) <= Sum(Words(buf, le))
  {
    WordsAre(buf, le);
    SumTake(Words(buf, le), k);
    SumPrefix(Words(buf, le), k + 1);
  }

  /** The case label after `at` in the unrolled body, which runs from label 0 through 15 down to 1. */
  function NextLabel(at: nat): nat
    requires at != 1 && at < 16
  {
    if at == 0 then 15 else at - 1
  }

  /** The additions from `at` to the end of the body. */
  function Additions(at: nat): nat {
    if at == 0 then 16 else at
  }

  /** Duff's device: the switch enters the unrolled body at the case for the remainder of the word count by 16, one
      addition falls through to the next, and every later pass runs all sixteen. With fewer than two bytes the body is
      entered at label 0 all the same and reads past the buffer, which gives nothing here. */
  method CksumAdd(buf: seq<byte>, cksum0: nat, littleEndian: bool) returns (r: Option<nat>)
    requires cksum0 + Sum(Words(buf, littleEndian)) < INT_LIMIT
    ensures r == if |buf| < 2 then None else Some(cksum0 + Sum(Words(buf, littleEndian)))
  {
    hide Words, Sum, Word;
    ghost var ws := Words(buf, littleEndian);
    WordsAre(buf, littleEndian);
    SumNone(ws);
    var cksum := cksum0;
    var sp := 0;
    var sn := |buf| / 2;
    var n := (sn + 15) / 16;
    var at := sn % 16;
    while true
      invariant 0 <= sp <= sn && 0 <= at < 16 && (n >= 1 || |buf| < 2)
      invariant |buf| < 2 ==> sp == 0
      invariant |buf| >= 2 ==> sp + Additions(at) + 16 * (n - 1) == sn
      invariant cksum == cksum0 + Sum(ws[..sp]) < INT_LIMIT
      decreases sn - sp
    {
      if 2 * sp + 1 >= |buf| {
        return None;
      }
      NextWord(buf, littleEndian, sp);
      cksum := cksum + Word(buf[2 * sp], buf[2 * sp + 1], littleEndian);
      sp := sp + 1;
      if at == 1 {
        n := n - 1;
        if n <= 0 {
          break;
        }
        at := 0;
      } else {
        at := NextLabel(at);
      }
    }
    if |buf| % 2 == 1 {
      // htons of the byte shifted up: the byte comes first in memory, a zero second.
      NextWord(buf, littleEndian, sp);
      cksum := cksum + Word(buf[2 * sp], 0, littleEndian);
    }
    assert ws[..|ws|] == ws;
    r := Some(cksum);
  }

  /** The checksum of a packet: sum, then fold. It is the complement of the one's-complement sum of the words. */
  method Checksum(buf: seq<byte>, littleEndian: bool) returns (r: Option<nat>)
    requires |buf| <= 0xffff
    ensures Halfwords(Words(buf, littleEndian))
    ensures r == if |buf| < 2 then None else Some(0xffff - OnesSum(Words(buf, littleEndian)))
  {
    ChecksumIsOnesComplement(buf, littleEndian);
    hide Words, Sum, OnesSum, CksumCarry, Halfwords;
    var sum := CksumAdd(buf, 0, littleEndian);
    r := if sum.None? then None else Some(CksumCarry(sum.value));
  }

  /** Computing the checksum of a packet whose checksum field is zero and storing it there makes the packet check
      to 0. */
  method StoreChecksum(buf: seq<byte>, k: nat, littleEndian: bool) returns (stored: seq<byte>, again: Option<nat>)
    requires |buf| <= 0xffff && 2 * k + 1 < |buf| && buf[2 * k] == 0 && buf[2 * k + 1] == 0
    ensures |stored| == |buf| && forall i :: 0 <= i < |buf| && i != 2 * k && i != 2 * k + 1 ==> stored[i] == buf[i]
    ensures again == Some(0)
  {
    StoredChecksumVerifies(buf, k, littleEndian);
    hide Words, Sum, OnesSum, CksumCarry, Halfwords;
    var sum := CksumAdd(buf, 0, littleEndian);
    var (b0, b1) := Stored(CksumCarry(sum.value), littleEndian);
    stored := buf[2 * k := b0][2 * k + 1 := b1];
    var sum' := CksumAdd(stored, 0, littleEndian);
    again := Some(CksumCarry(sum'.value));
  }

  lemma {:induction false} SumNone(ws: seq<nat>)
    ensures Sum(ws[..0]) == 0
  {
  }

  // ----- One's-complement arithmetic -----

  /** Addition with end-around carry. */
  function OnesAdd(a: nat, b: nat): nat
    requires a <= 0xffff && b <= 0xffff
  {
    if a + b <= 0xffff then a + b else a + b - 0xffff
  }

  predicate Halfwords(ws: seq<nat>) {
    forall i :: 0 <= i < |ws| ==> ws[i] <= 0xffff
  }

  /** The one's-complement sum, carrying around at every step. */
  function OnesSum(ws: seq<nat>): (r: nat)
    requires Halfwords(ws)
    ensures r <= 0xffff
  {
    if ws == [] then 0 else OnesAdd(ws[0], OnesSum(ws[1..]))
  }

  /** The halfword congruent to `x` modulo 65535; only 0 itself gives 0. */
  function Reduce(x: nat): (r: nat)
    ensures r <= 0xffff
  {
    if x == 0 then 0 else (x - 1) % 0xffff + 1
  }

  lemma ReduceAdd(x: nat, y: nat)
    requires y <= 0xffff
    ensures Reduce(x + y) == OnesAdd(y, Reduce(x))
  {
  }

  lemma {:induction false} OnesSumIs(ws: seq<nat>)
    requires Halfwords(ws)
    ensures OnesSum(ws) == Reduce(Sum(ws))
  {
    if ws != [] {
      OnesSumIs(ws[1..]);
      ReduceAdd(Sum(ws[1..]), ws[0]);
    }
  }

  /** The carry fold of the source: two folds of a non-negative int, complemented. */
  function CksumCarry(x: nat): (r: nat)
    requires x < INT_LIMIT
  {
    var y := x / 0x1_0000 + x % 0x1_0000;
    0xffff - (y + y / 0x1_0000) % 0x1_0000
  }

  lemma CarryReduces(x: nat)
    requires x < INT_LIMIT
    ensures CksumCarry(x) == 0xffff - Reduce(x)
  {
    var h, l := x / 0x1_0000, x % 0x1_0000;
    assert x == 0xffff * h + (h + l);
    var y := h + l;
    hide Reduce;
    ReduceMultiple(y, h);
    FoldReduces(y);
  }

  /** The second fold. */
  lemma {:induction false} FoldReduces(y: nat)
    requires y < 0x1_8000
    ensures (y + y / 0x1_0000) % 0x1_0000 == Reduce(y)
  {
  }

  lemma {:induction false} ReduceMultiple(y: nat, h: nat)
    requires y > 0 || h == 0
    ensures Reduce(0xffff * h + y) == Reduce(y)
  {
    if h > 0 {
      ReduceMultiple(y, h - 1);
      var x := 0xffff * (h - 1) + y;
      assert 0xffff * h + y == x + 0xffff;
    }
  }

  /** Two folds suffice: the checksum is the complement of the one's-complement sum of the words. */
  lemma {:induction false} ChecksumIsOnesComplement(buf: seq<byte>, le: bool)
    requires |buf| <= 0xffff
    ensures Sum(Words(buf, le)) < INT_LIMIT && Halfwords(Words(buf, le))
    ensures CksumCarry(Sum(Words(buf, le))) == 0xffff - OnesSum(Words(buf, le))
  {
    NoOverflow(buf, le);
    WordsAre(buf, le);
    OnesSumIs(Words(buf, le));
    CarryReduces(Sum(Words(buf, le)));
  }

  // ----- Verification -----

  lemma {:induction false} StoredWordVerifies(ws: seq<nat>, k: nat)
    requires Halfwords(ws) && k < |ws| <= 0x8000 && ws[k] == 0
    ensures Sum(ws) < INT_LIMIT
    ensures var c := CksumCarry(Sum(ws));
            c <= 0xffff && Sum(ws[k := c]) < INT_LIMIT && CksumCarry(Sum(ws[k := c])) == 0
  {
    SumBound(ws);
    var c := CksumCarry(Sum(ws));
    SumBound(ws[k := c]);
    SumUpdate(ws, k, c);
    CarryReduces(Sum(ws));
    CarryReduces(Sum(ws) + c);
    ReduceComplement(Sum(ws));
  }

  /** The bytes of a halfword in host order. */
  function Stored(c: nat, littleEndian: bool): (byte, byte)
    requires c <= 0xffff
  {
    var low, high := (c % 256) as byte, (c / 256) as byte;
    if littleEndian then (low, high) else (high, low)
  }

  lemma {:induction false} StoreWord(buf: seq<byte>, k: nat, c: nat, le: bool)
    requires 2 * k + 1 < |buf| && c <= 0xffff
    ensures var (b0, b1) := Stored(c, le);
            k < |Words(buf, le)| && Words(buf[2 * k := b0][2 * k + 1 := b1], le) == Words(buf, le)[k := c]
  {
    var (b0, b1) := Stored(c, le);
    var buf' := buf[2 * k := b0][2 * k + 1 := b1];
    WordsAre(buf, le);
    WordsAre(buf', le);
    assert Word(b0, b1, le) == c;
    var w, w' := Words(buf, le)[k := c], Words(buf', le);
    forall i | 0 <= i < |w| ensures w[i] == w'[i] { }
  }

  /** A checksum computed with its own field zero and then stored there, in host order, makes the
      whole buffer check to 0, on hosts of either byte order. */
  lemma {:induction false} StoredChecksumVerifies(buf: seq<byte>, k: nat, le: bool)
    requires |buf| <= 0xffff && 2 * k + 1 < |buf| && buf[2 * k] == 0 && buf[2 * k + 1] == 0
    ensures Sum(Words(buf, le)) < INT_LIMIT
    ensures var c := CksumCarry(Sum(Words(buf, le)));
            c <= 0xffff &&
            var (b0, b1) := Stored(c, le);
            var buf' := buf[2 * k := b0][2 * k + 1 := b1];
            Sum(Words(buf', le)) < INT_LIMIT && CksumCarry(Sum(Words(buf', le))) == 0
  {
    WordsAre(buf, le);
    StoredWordVerifies(Words(buf, le), k);
    StoreWord(buf, k, CksumCarry(Sum(Words(buf, le))), le);
  }

  lemma {:induction false} SumUpdate(ws: seq<nat>, k: nat, c: nat)
    requires k < |ws|
    ensures Sum(ws[k := c]) == Sum(ws) - ws[k] + c
  {
    if k > 0 {
      assert ws[k := c][1..] == ws[1..][k - 1 := c];
      SumUpdate(ws[1..], k - 1, c);
    } else {
      assert ws[0 := c][1..] == ws[1..];
    }
  }

  lemma {:induction false} ReduceComplement(x: nat)
    ensures Reduce(x + (0xffff - Reduce(x))) == 0xffff
  {
    ReduceAdd(x, 0xffff - Reduce(x));
  }

  // ----- Byte order -----

  function Swap(w: nat): nat
    requires w <= 0xffff
  {
    w / 256 + 256 * (w % 256)
  }

  lemma {:induction false} SwapReduces(w: nat)
    requires w <= 0xffff
    ensures Swap(w) <= 0xffff && Swap(w) == Reduce(256 * w)
  {
    var h, l := w / 256, w % 256;
    assert 256 * w == 0xffff * h + (h + 256 * l);
    if w > 0 { ReduceMultiple(h + 256 * l, h); }
  }

  lemma {:induction false} SwapWords(buf: seq<byte>)
    ensures Halfwords(Words(buf, false)) && |Words(buf, true)| == |Words(buf, false)|
    ensures forall i :: 0 <= i < |Words(buf, false)| ==> Words(buf, true)[i] == Swap(Words(buf, false)[i])
  {
    WordsAre(buf, false);
    WordsAre(buf, true);
  }

  lemma {:induction false} SwapSum(ws: seq<nat>, sw: seq<nat>)
    requires Halfwords(ws) && |ws| == |sw| && forall i :: 0 <= i < |ws| ==> sw[i] == Swap(ws[i])
    ensures Reduce(Sum(sw)) == Reduce(256 * Sum(ws))
  {
    if ws != [] {
      SwapSum(ws[1..], sw[1..]);
      SwapReduces(ws[0]);
      ReduceAdd(Sum(sw[1..]), sw[0]);
      ReduceSum(256 * Sum(ws[1..]), 256 * ws[0]);
    }
  }

  /** Reduction is additive. */
  lemma {:induction false} ReduceSum(x: nat, y: nat)
    ensures Reduce(x + y) == OnesAdd(Reduce(y), Reduce(x))
  {
    var r := Reduce(y);
    if y > 0 {
      var h := (y - 1) / 0xffff;
      assert y == 0xffff * h + r;
      assert x + y == 0xffff * h + (x + r);
      ReduceMultiple(x + r, h);
    }
    ReduceAdd(x, r);
  }

  /** Summing in the host's little-endian order gives the byte swap of the big-endian checksum, so
      the stored bytes are the same. */
  lemma {:induction false} ByteOrderIndependent(buf: seq<byte>)
    requires |buf| <= 0xffff
    ensures Sum(Words(buf, true)) < INT_LIMIT && Sum(Words(buf, false)) < INT_LIMIT
    ensures var c := CksumCarry(Sum(Words(buf, false)));
            c <= 0xffff && CksumCarry(Sum(Words(buf, true))) == Swap(c)
  {
    NoOverflow(buf, true);
    NoOverflow(buf, false);
    var b, l := Sum(Words(buf, false)), Sum(Words(buf, true));
    SwapWords(buf);
    SwapSum(Words(buf, false), Words(buf, true));
    CarryReduces(b);
    CarryReduces(l);
    ReduceScale(b);
    SwapReduces(Reduce(b));
    SwapComplement(Reduce(b));
  }

  lemma {:induction false} ReduceScale(x: nat)
    ensures Reduce(256 * x) == Reduce(256 * Reduce(x))
  {
    if x > 0 {
      var h := (x - 1) / 0xffff;
      var r := Reduce(x);
      assert x == 0xffff * h + r;
      assert 256 * x == 0xffff * (256 * h) + 256 * r;
      ReduceMultiple(256 * r, 256 * h);
    }
  }

  lemma {:induction false} SwapComplement(w: nat)
    requires w <= 0xffff
    ensures Swap(0xffff - w) == 0xffff - Swap(w)
  {
    var h, l := w / 256, w % 256;
    assert 0xffff - w == 256 * (255 - h) + (255 - l);
  }

  /** The example of RFC 1071, section 3, in both byte orders, and with its last byte left out. */
  lemma {:induction false} KnownChecksum()
    ensures var buf: seq<byte> := [0x00, 0x01, 0xf2, 0x03, 0xf4, 0xf5, 0xf6, 0xf7];
      && Sum(Words(buf, false)) == 0x2_ddf0 && CksumCarry(0x2_ddf0) == 0x220d
      && Sum(Words(buf, true)) == 0x1_f2dc && CksumCarry(0x1_f2dc) == 0x0d22
      && Sum(Words(buf[..7], false)) == 0x2_dcf9 && CksumCarry(0x2_dcf9) == 0x2304
  {
    var buf: seq<byte> := [0x00, 0x01, 0xf2, 0x03, 0xf4, 0xf5, 0xf6, 0xf7];
    FourWords(buf, false);
    FourWords(buf, true);
    FourWords(buf[..7], false);
    hide Words, Sum;
  }

  lemma {:induction false} FourWords(buf: seq<byte>, le: bool)
    requires 7 <= |buf| <= 8
    ensures Sum(Words(buf, le)) == Word(buf[0], buf[1], le) + Word(buf[2], buf[3], le) + Word(buf[4], buf[5], le)
                                   + Word(buf[6], if |buf| == 8 then buf[7] else 0, le)
  {
    WordsAre(buf, le);
    var ws := Words(buf, le);
    hide Words, Word;
    assert ws[0] == Word(buf[2 * 0], buf[2 * 0 + 1], le) && ws[1] == Word(buf[2 * 1], buf[2 * 1 + 1], le);
    assert ws[2] == Word(buf[2 * 2], buf[2 * 2 + 1], le);
    assert ws[3] == Word(buf[2 * 3], if 2 * 3 + 1 < |buf| then buf[2 * 3 + 1] else 0, le);
    FourSum(ws);
  }

  lemma {:induction false} FourSum(ws: seq<nat>)
    requires |ws| == 4
    ensures Sum(ws) == ws[0] + ws[1] + ws[2] + ws[3]
  {
    assert ws == [ws[0]] + ([ws[1]] + ([ws[2]] + [ws[3]]));
    assert [ws[3]][1..] == [] && [ws[2]][1..] == [] && [ws[1]][1..] == [] && [ws[0]][1..] == [];
    SumConcat([ws[2]], [ws[3]]);
    SumConcat([ws[1]], [ws[2]] + [ws[3]]);
    SumConcat([ws[0]], [ws[1]] + ([ws[2]] + [ws[3]]));
  }
}
