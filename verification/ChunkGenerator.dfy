/** Decomposing a memory region into aligned chunks. */
module ChunkGenerator {
  import opened Numbers

  const ADDR_LIMIT: nat := 0x1_0000_0000_0000_0000
  const UNSIGNED_LIMIT: nat := 0x1_0000_0000
  /** The largest chunk size an unsigned variable can hold; as an int it is negative. */
  const WIDEST: nat := 0x8000_0000

  /** A mask of low bits keeps the remainder by the power of two above it. */
  lemma {:induction false} AndMask(x: nat, a: nat)
    requires PowerOfTwo(a)
    ensures And(x, a - 1) == x % a
    decreases a
  {
    if a == 1 {
      AndZero(x);
    } else if x > 0 {
      AndMask(x / 2, a / 2);
      HalfMask(a);
      RemainderHalves(x, a / 2);
    } else {
      UniqueMod(0, a, 0, 0);
    }
  }

  lemma {:induction false} HalfMask(a: nat)
    requires a > 1 && a % 2 == 0
    ensures (a - 1) / 2 == a / 2 - 1 && (a - 1) % 2 == 1 && 2 * (a / 2) == a
  {
  }

  lemma {:induction false} RemainderHalves(x: nat, b: nat)
    requires b > 0
    ensures x % (2 * b) == 2 * ((x / 2) % b) + x % 2
  {
    var q, m := (x / 2) / b, (x / 2) % b;
    assert x / 2 == b * q + m;
    Doubled(x, b, q, m);
    UniqueMod(x, 2 * b, q, 2 * m + x % 2);
  }

  lemma {:induction false} Doubled(x: nat, b: nat, q: nat, m: nat)
    requires x / 2 == b * q + m
    ensures x == (2 * b) * q + (2 * m + x % 2)
  {
    assert 2 * (b * q) == (2 * b) * q;
  }

  lemma {:induction false} AndZero(x: nat)
    ensures And(x, 0) == 0
  {
    if x > 0 { AndZero(x / 2); }
  }

  /** The mask of the source's rounding: the alignment is passed as an int and widened to an address. */
  function Mask(align: nat): nat
    requires 0 < align < UNSIGNED_LIMIT
  {
    if align < WIDEST then align - 1 else ADDR_LIMIT + align - UNSIGNED_LIMIT - 1
  }

  /** The source's rounding: add the mask, then clear the masked bits. */
  function MaskRoundUp(val: nat, align: nat): nat
    requires 0 < align < UNSIGNED_LIMIT
  {
    var sum := (val + Mask(align)) % ADDR_LIMIT;
    AndAtMost(sum, Mask(align));
    sum - And(sum, Mask(align))
  }

  lemma {:induction false} AndAtMost(x: nat, y: nat)
    ensures And(x, y) <= x
  {
    if x > 0 { AndAtMost(x / 2, y / 2); }
  }

  /** It rounds up, modulo the size of the address space, unless the alignment is 2^31. */
  lemma {:induction false} MaskRoundUpIs(val: nat, align: nat)
    requires PowerOfTwo(align) && align < WIDEST && val < ADDR_LIMIT
    ensures RoundUp(val, align) <= ADDR_LIMIT && MaskRoundUp(val, align) == RoundUp(val, align) % ADDR_LIMIT
  {
    hide PowerOfTwo, And, RoundUp, MaskRoundUp;
    HalfPower(align);
    AddressSpace();
    PowerDivides(align, ADDR_LIMIT);
    RoundUpLeast(val, align, ADDR_LIMIT);
    Masked(val, align);
    if val + (align - 1) < ADDR_LIMIT {
      Unwrapped(val, align);
    } else {
      WrapsToZero(val, align);
    }
  }

  lemma {:induction false} Masked(val: nat, align: nat)
    requires PowerOfTwo(align) && align < WIDEST
    ensures align > 0 && MaskRoundUp(val, align) == var sum := (val + (align - 1)) % ADDR_LIMIT; sum - sum % align
  {
    HalfPower(align);
    hide PowerOfTwo, And;
    AndMask((val + (align - 1)) % ADDR_LIMIT, align);
  }

  lemma {:induction false} Unwrapped(val: nat, align: nat)
    requires align > 0 && val + (align - 1) < ADDR_LIMIT
    ensures RoundUp(val, align) % ADDR_LIMIT == var sum := (val + (align - 1)) % ADDR_LIMIT; sum - sum % align
  {
    var sum := val + (align - 1);
    NoWrap(sum);
    SplitOff(sum, align);
    assert RoundUp(val, align) == sum - sum % align;
    hide RoundUp;
    NoWrap(RoundUp(val, align));
  }

  lemma {:induction false} WrapsToZero(val: nat, align: nat)
    requires 0 < align < WIDEST && val < ADDR_LIMIT <= val + (align - 1) && RoundUp(val, align) <= ADDR_LIMIT
    requires ADDR_LIMIT % align == 0
    ensures RoundUp(val, align) == ADDR_LIMIT && RoundUp(val, align) % ADDR_LIMIT == 0
    ensures var sum := (val + (align - 1)) % ADDR_LIMIT; sum - sum % align == 0
  {
    var sum := val + (align - 1) - ADDR_LIMIT;
    UniqueMod(val + (align - 1), ADDR_LIMIT, 1, sum);
    UniqueMod(sum, align, 0, sum);
    var r := RoundUp(val, align);
    if r < ADDR_LIMIT {
      var j, k := ADDR_LIMIT / align, r / align;
      assert ADDR_LIMIT == align * j && r == align * k;
      assert align * (j - k) == align * j - align * k == ADDR_LIMIT - r;
      SmallMultiple(align, j - k);
    }
  }

  lemma {:induction false} Product(a: nat, b: nat)
    requires PowerOfTwo(a) && PowerOfTwo(b)
    ensures PowerOfTwo(a * b)
  {
    HalfPower(a);
    hide PowerOfTwo;
    if a > 1 {
      Product(a / 2, b);
      DoublePower(a / 2 * b);
      HalfTimes(a, b);
    } else {
      assert a * b == b;
    }
  }

  lemma {:induction false} DoublePower(n: nat)
    requires PowerOfTwo(n)
    ensures PowerOfTwo(2 * n)
  {
  }

  lemma {:induction false} HalfTimes(a: nat, b: nat)
    requires a % 2 == 0
    ensures 2 * (a / 2 * b) == a * b
  {
    var h := a / 2;
    assert a == 2 * h;
    assert (2 * h) * b == 2 * (h * b);
  }

  lemma {:induction false} HalfPower(a: nat)
    requires PowerOfTwo(a)
    ensures a > 0 && (a > 1 ==> a % 2 == 0 && PowerOfTwo(a / 2))
  {
  }

  lemma {:induction false} AddressSpace()
    ensures PowerOfTwo(ADDR_LIMIT) && PowerOfTwo(WIDEST) && PowerOfTwo(0x100)
  {
    assert PowerOfTwo(2) && PowerOfTwo(4) && PowerOfTwo(16);
    Product(16, 16);
    Product(0x100, 0x100);
    Product(0x1_0000, 0x1_0000);
    Product(0x1_0000_0000, 0x1_0000_0000);
    assert PowerOfTwo(UNSIGNED_LIMIT);
  }

  lemma {:induction false} NoWrap(sum: nat)
    ensures sum < ADDR_LIMIT ==> sum % ADDR_LIMIT == sum
  {
  }

  lemma {:induction false} SplitOff(sum: nat, align: nat)
    requires align > 0
    ensures sum % align <= sum && sum - sum % align == sum / align * align
  {
    assert sum == align * (sum / align) + sum % align;
    assert sum / align * align == align * (sum / align);
  }

  /** Whether `size` bytes at `addr` lie in one aligned block of `chunk` bytes; 0 means no chunking. */
  predicate InBlock(addr: nat, size: nat, chunk: nat) {
    chunk == 0 || addr % chunk + size <= chunk
  }

  // ----- The first chunk -----

  /** The first multiple of `chunk` after `start`. */
  function NextBoundary(start: nat, chunk: nat): nat
    requires chunk > 0
  {
    start - start % chunk + chunk
  }

  /** Where the source takes the second chunk to start. */
  function FirstNext(start: nat, size: nat, chunk: nat): nat
    requires chunk < UNSIGNED_LIMIT
  {
    if chunk == 0 then (start + size) % ADDR_LIMIT
    else
      var up := MaskRoundUp(start, chunk);
      if up == start then (up + chunk) % ADDR_LIMIT else up
  }

  /** The bytes left in the first chunk, as an unsigned number. */
  function FirstLeft(start: nat, size: nat, chunk: nat): nat
    requires chunk < UNSIGNED_LIMIT
  {
    (FirstNext(start, size, chunk) - start) % ADDR_LIMIT % UNSIGNED_LIMIT
  }

  /** The regions that are decomposed correctly: all of them, except that with chunks of 2^31 bytes only those that
      start in the first such chunk or at its end, and those that do not start on a boundary and either lie within
      one chunk or start in the last one. */
  predicate Sound(start: nat, size: nat, chunk: nat) {
    || chunk < WIDEST || size == 0 || start <= chunk
    || (start % chunk != 0 && (start % chunk + size <= chunk || start > ADDR_LIMIT - chunk))
  }

  lemma {:induction false} WholeFirst(start: nat, size: nat)
    requires start < ADDR_LIMIT && size < UNSIGNED_LIMIT
    ensures FirstLeft(start, size, 0) == size
  {
    var next := (start + size) % ADDR_LIMIT;
    if start + size < ADDR_LIMIT {
      UniqueMod(start + size, ADDR_LIMIT, 0, start + size);
      UniqueMod(size, ADDR_LIMIT, 0, size);
    } else {
      UniqueMod(start + size, ADDR_LIMIT, 1, start + size - ADDR_LIMIT);
      assert next - start == size - ADDR_LIMIT;
      assert (size - ADDR_LIMIT) % ADDR_LIMIT == size;
    }
    UniqueMod(size, UNSIGNED_LIMIT, 0, size);
  }

  lemma {:induction false} BoundaryIs(start: nat, chunk: nat)
    requires PowerOfTwo(chunk) && chunk < WIDEST && start < ADDR_LIMIT
    ensures NextBoundary(start, chunk) <= ADDR_LIMIT && NextBoundary(start, chunk) % chunk == 0
    ensures NextBoundary(start, chunk) == if start % chunk == 0 then start + chunk else RoundUp(start, chunk)
  {
    AddressSpace();
    PowerDivides(chunk, ADDR_LIMIT);
    hide PowerOfTwo, RoundUp;
    var b := if start % chunk == 0 then start + chunk else RoundUp(start, chunk);
    FirstBoundary(start, chunk, b);
    LastBoundary(start, chunk, ADDR_LIMIT);
  }

  lemma {:induction false} LastBoundary(start: nat, chunk: nat, limit: nat)
    requires chunk > 0 && start < limit && limit % chunk == 0
    ensures NextBoundary(start, chunk) <= limit
  {
    var q, p := start / chunk, limit / chunk;
    assert start == chunk * q + start % chunk && limit == chunk * p;
    assert chunk * (q + 1) == chunk * q + chunk;
    if p <= q {
      Ordered(chunk, p, q);
    } else {
      Ordered(chunk, q + 1, p);
    }
  }

  lemma {:induction false} Ordered(a: nat, p: nat, q: nat)
    requires p <= q
    ensures a * p <= a * q
  {
    assert a * q == a * p + a * (q - p);
  }

  lemma {:induction false} NarrowFirst(start: nat, size: nat, chunk: nat)
    requires PowerOfTwo(chunk) && chunk < WIDEST && start < ADDR_LIMIT
    ensures NextBoundary(start, chunk) <= ADDR_LIMIT && NextBoundary(start, chunk) % chunk == 0
    ensures FirstNext(start, size, chunk) == NextBoundary(start, chunk) % ADDR_LIMIT
    ensures FirstLeft(start, size, chunk) == chunk - start % chunk
  {
    MaskRoundUpIs(start, chunk);
    BoundaryIs(start, chunk);
    hide PowerOfTwo, MaskRoundUp, RoundUp;
    var b := NextBoundary(start, chunk);
    NoWrap(start);
    NoWrap(RoundUp(start, chunk));
    LeftModulo(start, b);
  }

  lemma {:induction false} LeftModulo(start: nat, b: nat)
    requires start < b <= ADDR_LIMIT && b - start < UNSIGNED_LIMIT
    ensures (b % ADDR_LIMIT - start) % ADDR_LIMIT % UNSIGNED_LIMIT == b - start
  {
    if b == ADDR_LIMIT {
      assert b % ADDR_LIMIT == 0;
      assert (0 - start) % ADDR_LIMIT == b - start;
    } else {
      NoWrap(b);
      NoWrap(b - start);
    }
    UniqueMod(b - start, UNSIGNED_LIMIT, 0, b - start);
  }

  // ----- Chunks of 2^31 bytes -----

  /** All bits but one. */
  lemma {:induction false} AllBut(x: nat, a: nat, b: nat)
    requires PowerOfTwo(a) && PowerOfTwo(b) && b < a && x < a
    ensures And(x, a - 1 - b) == x - x / b % 2 * b
    decreases b
  {
    hide PowerOfTwo, And;
    HalfPower(a);
    HalfPower(b);
    if x == 0 {
      UniqueMod(0, b, 0, 0);
      AndAtMost(0, a - 1 - b);
    } else if b == 1 {
      AndMask(x / 2, a / 2);
      UniqueMod(x / 2, a / 2, 0, x / 2);
      AndStep(x, a - 2);
    } else {
      AllBut(x / 2, a / 2, b / 2);
      HalfQuotient(x, b / 2);
      AndStep(x, a - 1 - b);
      HalfOfRest(a, b);
      Recombine(x, b, x / b % 2);
    }
  }

  lemma {:induction false} HalfOfRest(a: nat, b: nat)
    requires 1 < b < a && a % 2 == 0 && b % 2 == 0
    ensures (a - 1 - b) % 2 == 1 && (a - 1 - b) / 2 == a / 2 - 1 - b / 2
  {
  }

  lemma {:induction false} AndStep(x: nat, y: nat)
    requires x > 0
    ensures And(x, y) == 2 * And(x / 2, y / 2) + (if x % 2 == 1 && y % 2 == 1 then 1 else 0)
  {
  }

  lemma {:induction false} Recombine(x: nat, b: nat, k: nat)
    requires b % 2 == 0 && k < 2
    ensures 2 * (x / 2 - k * (b / 2)) + x % 2 == x - k * b
  {
    assert k == 0 || k == 1;
  }

  lemma {:induction false} HalfQuotient(x: nat, c: nat)
    requires c > 0
    ensures x / 2 / c == x / (2 * c)
  {
    var q, r := x / 2 / c, (x / 2) % c;
    assert x / 2 == c * q + r;
    Doubled(x, c, q, r);
    UniqueMod(x, 2 * c, q, 2 * r + x % 2);
  }

  /** Rounding to 2^31 keeps one bit only. */
  lemma {:induction false} WideRoundUp(start: nat)
    requires start < ADDR_LIMIT
    ensures MaskRoundUp(start, WIDEST) ==
      (start + (ADDR_LIMIT - WIDEST - 1)) % ADDR_LIMIT / WIDEST % 2 * WIDEST
  {
    AddressSpace();
    AllBut((start + (ADDR_LIMIT - WIDEST - 1)) % ADDR_LIMIT, ADDR_LIMIT, WIDEST);
  }

  lemma {:induction false} WideFirst(start: nat, size: nat)
    requires start < ADDR_LIMIT
    ensures start <= WIDEST ==> FirstNext(start, size, WIDEST) == NextBoundary(start, WIDEST)
    ensures start > WIDEST ==> FirstNext(start, size, WIDEST) <= WIDEST
    ensures start > ADDR_LIMIT - WIDEST ==> FirstNext(start, size, WIDEST) == 0
    ensures FirstLeft(start, size, WIDEST) ==
      if start > WIDEST && start % WIDEST == 0 then 0 else WIDEST - start % WIDEST
  {
    hide FirstNext, FirstLeft;
    if start > WIDEST {
      WideFirstAbove(start, size);
    } else {
      WideFirstBelow(start, size);
    }
  }

  lemma {:induction false} WideFirstAbove(start: nat, size: nat)
    requires WIDEST < start < ADDR_LIMIT
    ensures FirstNext(start, size, WIDEST) <= WIDEST
    ensures start > ADDR_LIMIT - WIDEST ==> FirstNext(start, size, WIDEST) == 0
    ensures FirstLeft(start, size, WIDEST) == if start % WIDEST == 0 then 0 else WIDEST - start % WIDEST
  {
    WideRoundUp(start);
    hide MaskRoundUp;
    WideAbove(start);
    var t := MaskRoundUp(start, WIDEST);
    assert t <= WIDEST < start;
    assert FirstNext(start, size, WIDEST) == t;
    hide FirstNext;
  }

  lemma {:induction false} WideFirstBelow(start: nat, size: nat)
    requires start <= WIDEST
    ensures FirstNext(start, size, WIDEST) == NextBoundary(start, WIDEST)
    ensures FirstLeft(start, size, WIDEST) == WIDEST - start % WIDEST
  {
    WideRoundUp(start);
    hide MaskRoundUp;
    WideBelow(start);
    NoWrap(MaskRoundUp(start, WIDEST) + WIDEST);
    assert FirstNext(start, size, WIDEST) == NextBoundary(start, WIDEST);
    hide FirstNext;
  }

  /** The bit kept by rounding to 2^31, for a start after the first such chunk. */
  lemma {:induction false} WideAbove(start: nat)
    requires WIDEST < start < ADDR_LIMIT
    ensures var t := (start + (ADDR_LIMIT - WIDEST - 1)) % ADDR_LIMIT / WIDEST % 2 * WIDEST;
      && t <= WIDEST && (start > ADDR_LIMIT - WIDEST ==> t == 0)
      && (t - start) % ADDR_LIMIT % UNSIGNED_LIMIT == if start % WIDEST == 0 then 0 else WIDEST - start % WIDEST
  {
    var q, r := start / WIDEST, start % WIDEST;
    var sum := start - WIDEST - 1;
    if start > ADDR_LIMIT - WIDEST { LastChunk(start); }
    UniqueMod(start + (ADDR_LIMIT - WIDEST - 1), ADDR_LIMIT, 1, sum);
    if r > 0 {
      UniqueMod(sum, WIDEST, q - 1, r - 1);
      var k := (q - 1) % 2;
      LeftAbove(start, q, r, k, WIDEST - r);
    } else {
      UniqueMod(sum, WIDEST, q - 2, WIDEST - 1);
      LeftAbove(start, q, r, (q - 2) % 2, 0);
    }
  }

  /** The last chunk of 2^31 bytes ends where the address space does. */
  lemma {:induction false} LastChunk(start: nat)
    requires ADDR_LIMIT - WIDEST < start < ADDR_LIMIT
    ensures start + (WIDEST - start % WIDEST) == ADDR_LIMIT && start / WIDEST == 2 * UNSIGNED_LIMIT - 1
    ensures ADDR_LIMIT % ADDR_LIMIT == 0 && ADDR_LIMIT % WIDEST == 0 && start % WIDEST != 0
  {
    UniqueMod(start, WIDEST, 2 * UNSIGNED_LIMIT - 1, start - (ADDR_LIMIT - WIDEST));
  }

  lemma {:induction false} LeftAbove(start: nat, q: nat, r: nat, k: nat, left: nat)
    requires start == WIDEST * q + r < ADDR_LIMIT && WIDEST < start && r < WIDEST && k < 2
    requires if r > 0 then left == WIDEST - r && (q + 1 - k) % 2 == 0 else left == 0 && (q - k) % 2 == 0
    ensures (k * WIDEST - start) % ADDR_LIMIT % UNSIGNED_LIMIT == left
  {
    var x := ADDR_LIMIT + k * WIDEST - start;
    assert (k * WIDEST - start) % ADDR_LIMIT == x;
    var h := if r > 0 then (q + 1 - k) / 2 else (q - k) / 2;
    assert x == UNSIGNED_LIMIT * (UNSIGNED_LIMIT - h) + left;
    UniqueMod(x, UNSIGNED_LIMIT, UNSIGNED_LIMIT - h, left);
  }

  /** For a start in the first such chunk, or at its end, rounding is right. */
  lemma {:induction false} WideBelow(start: nat)
    requires start <= WIDEST
    ensures (start + (ADDR_LIMIT - WIDEST - 1)) % ADDR_LIMIT / WIDEST % 2 * WIDEST == if start == 0 then 0 else WIDEST
    ensures var b := NextBoundary(start, WIDEST);
      && b == (if start == WIDEST then 2 * WIDEST else WIDEST)
      && (b - start) % ADDR_LIMIT % UNSIGNED_LIMIT == WIDEST - start % WIDEST
  {
    var sum := start + (ADDR_LIMIT - WIDEST - 1);
    UniqueMod(sum, ADDR_LIMIT, 0, sum);
    if start == 0 {
      UniqueMod(sum, WIDEST, 2 * UNSIGNED_LIMIT - 2, WIDEST - 1);
    } else {
      UniqueMod(sum, WIDEST, 2 * UNSIGNED_LIMIT - 1, start - 1);
    }
  }

  class Generator {
    var curAddr: nat
    var nextAddr: nat
    var curSize: nat
    var sizeLeft: nat
    const startAddr: nat
    const chunkSize: nat
    ghost const total: nat
    /** The address of the current chunk, going on past the end of the address space. */
    ghost var pos: nat
    /** Set once `Next` has moved past the last chunk. */
    ghost var past: bool

    ghost predicate Valid()
      reads this
    {
      && startAddr < ADDR_LIMIT && total < UNSIGNED_LIMIT
      && chunkSize < UNSIGNED_LIMIT && (chunkSize == 0 || PowerOfTwo(chunkSize))
      && (chunkSize == 0 ==> sizeLeft == 0)
      && (Sound(startAddr, total, chunkSize) ==> Steady())
    }

    /** The current chunk lies in one block, the next one follows it, and nothing is lost. */
    ghost predicate Steady()
      reads this
    {
      && curAddr == pos % ADDR_LIMIT && startAddr <= pos
      && (past ==> curSize == 0)
      && (curSize == 0 ==> sizeLeft == 0)
      && InBlock(pos, curSize, chunkSize)
      && (sizeLeft > 0 ==>
            chunkSize > 0 && nextAddr == (pos + curSize) % ADDR_LIMIT && (pos + curSize) % chunkSize == 0)
      && (!past ==> pos - startAddr + curSize + sizeLeft == total)
    }

    /** The bytes already chunked up, as an unsigned number. */
    function Complete(): nat
      reads this
    {
      (curAddr - startAddr) % ADDR_LIMIT % UNSIGNED_LIMIT
    }

    /** Until the end, complete and current and remaining bytes make up the total. */
    lemma {:induction false} CompleteIs()
      requires Valid() && Sound(startAddr, total, chunkSize) && !past
      ensures Complete() == pos - startAddr && Complete() + curSize + sizeLeft == total
    {
      hide PowerOfTwo, InBlock, Sound;
      Distance(startAddr, pos);
    }

    predicate Done()
      reads this
    {
      curSize == 0
    }

    constructor (start: nat, size: nat, chunk: nat)
      requires chunk == 0 || PowerOfTwo(chunk)
      requires size < UNSIGNED_LIMIT && chunk < UNSIGNED_LIMIT && start < ADDR_LIMIT
      ensures Valid() && startAddr == start && total == size && chunkSize == chunk && !past && pos == start
      ensures curAddr == start && nextAddr == FirstNext(start, size, chunk) && curSize + sizeLeft == size
      ensures curSize == if size < FirstLeft(start, size, chunk) then size else FirstLeft(start, size, chunk)
      ensures Sound(start, size, chunk) && size > 0 ==> curSize > 0
    {
      hide PowerOfTwo, MaskRoundUp, Sound;
      startAddr, chunkSize, total := start, chunk, size;
      curAddr, pos := start, start;
      var next;
      if chunk == 0 {
        next := (start + size) % ADDR_LIMIT;
      } else {
        next := MaskRoundUp(start, chunk);
        if start == next {
          next := (next + chunk) % ADDR_LIMIT;
        }
      }
      nextAddr := next;
      var leftInChunk := (next - start) % ADDR_LIMIT % UNSIGNED_LIMIT;
      curSize := if size < leftInChunk then size else leftInChunk;
      sizeLeft := size - (if size < leftInChunk then size else leftInChunk);
      past := false;
      new;
      StartsSteady(start, size, chunk);
      NoWrap(start);
    }

    /** Move to the next chunk, or past the last one. */
    method Next() returns (ok: bool)
      requires Valid()
      modifies this
      ensures Valid()
      ensures ok <==> old(sizeLeft) > 0
      ensures ok ==> curAddr == old(nextAddr) && curSize > 0 && pos == old(pos) + old(curSize)
      ensures ok ==> curSize == if old(sizeLeft) < chunkSize then old(sizeLeft) else chunkSize
      ensures ok ==> sizeLeft == old(sizeLeft) - curSize && past == old(past)
      ensures ok && Sound(startAddr, total, chunkSize) ==> !past
      ensures !ok ==> past && Done() && curAddr == old(curAddr) && sizeLeft == 0
    {
      hide PowerOfTwo, Sound;
      if sizeLeft == 0 {
        curSize := 0;
        past := true;
        return false;
      }
      pos := pos + curSize;
      curAddr := nextAddr;
      curSize := if sizeLeft < chunkSize then sizeLeft else chunkSize;
      sizeLeft := sizeLeft - curSize;
      nextAddr := (nextAddr + curSize) % ADDR_LIMIT;
      if curSize == chunkSize {
        AddMod(pos, chunkSize);
      }
      WrapTwice(pos, curSize);
      ok := true;
    }
  }

  lemma {:induction false} WrapTwice(pos: nat, n: nat)
    ensures (pos % ADDR_LIMIT + n) % ADDR_LIMIT == (pos + n) % ADDR_LIMIT
  {
    var q, r := pos / ADDR_LIMIT, pos % ADDR_LIMIT;
    var q', r' := (r + n) / ADDR_LIMIT, (r + n) % ADDR_LIMIT;
    assert pos + n == ADDR_LIMIT * (q + q') + r';
    UniqueMod(pos + n, ADDR_LIMIT, q + q', r');
  }

  lemma {:induction false} Distance(start: nat, pos: nat)
    requires start < ADDR_LIMIT && start <= pos && pos - start < UNSIGNED_LIMIT
    ensures (pos % ADDR_LIMIT - start) % ADDR_LIMIT % UNSIGNED_LIMIT == pos - start
  {
    if pos < ADDR_LIMIT {
      NoWrap(pos);
      NoWrap(pos - start);
    } else {
      UniqueMod(pos, ADDR_LIMIT, 1, pos - ADDR_LIMIT);
      assert (pos - ADDR_LIMIT - start) % ADDR_LIMIT == pos - start;
    }
    UniqueMod(pos - start, UNSIGNED_LIMIT, 0, pos - start);
  }

  /** Alignment is the same before and after wrapping around. */
  lemma {:induction false} InBlockWraps(addr: nat, size: nat, chunk: nat)
    requires chunk == 0 || (PowerOfTwo(chunk) && chunk <= WIDEST)
    ensures InBlock(addr % ADDR_LIMIT, size, chunk) <==> InBlock(addr, size, chunk)
  {
    if chunk > 0 {
      AddressSpace();
      PowerDivides(chunk, ADDR_LIMIT);
      hide PowerOfTwo;
      var p, q, r := ADDR_LIMIT / chunk, addr / ADDR_LIMIT, addr % ADDR_LIMIT;
      assert ADDR_LIMIT == chunk * p && addr == ADDR_LIMIT * q + r;
      SameMod(addr, chunk, p, q, r);
    }
  }

  lemma {:induction false} SameMod(addr: nat, chunk: nat, p: nat, q: nat, r: nat)
    requires chunk > 0 && addr == (chunk * p) * q + r
    ensures addr % chunk == r % chunk
  {
    var k, m := r / chunk, r % chunk;
    assert r == chunk * k + m;
    assert (chunk * p) * q == chunk * (p * q);
    assert addr == chunk * (p * q + k) + m;
    UniqueMod(addr, chunk, p * q + k, m);
  }

  lemma {:induction false} WidestIs(chunk: nat)
    requires PowerOfTwo(chunk) && WIDEST <= chunk < UNSIGNED_LIMIT
    ensures chunk == WIDEST
  {
    AddressSpace();
    PowerDivides(WIDEST, chunk);
  }

  /** The first chunk of a region that is handled correctly. */
  predicate StartsWell(start: nat, size: nat, chunk: nat, left: nat, next: nat) {
    if chunk == 0 then left == size
    else
      && (size > 0 ==> left == chunk - start % chunk)
      && (size > left ==> next == (start + left) % ADDR_LIMIT && (start + left) % chunk == 0)
  }

  lemma {:induction false} StartsNarrow(start: nat, size: nat, chunk: nat)
    requires PowerOfTwo(chunk) && chunk < WIDEST && start < ADDR_LIMIT
    ensures StartsWell(start, size, chunk, FirstLeft(start, size, chunk), FirstNext(start, size, chunk))
  {
    HalfPower(chunk);
    hide PowerOfTwo, FirstNext, FirstLeft;
    NarrowFirst(start, size, chunk);
  }

  lemma {:induction false} StartsWide(start: nat, size: nat)
    requires start < ADDR_LIMIT && Sound(start, size, WIDEST)
    ensures StartsWell(start, size, WIDEST, FirstLeft(start, size, WIDEST), FirstNext(start, size, WIDEST))
  {
    hide FirstNext, FirstLeft;
    WideFirst(start, size);
    if start == WIDEST {
      assert NextBoundary(start, WIDEST) == 2 * WIDEST;
    } else if start < WIDEST {
      assert NextBoundary(start, WIDEST) == WIDEST;
    } else if start > ADDR_LIMIT - WIDEST {
      LastChunk(start);
    }
  }

  lemma {:induction false} StartsSteady(start: nat, size: nat, chunk: nat)
    requires chunk == 0 || PowerOfTwo(chunk)
    requires size < UNSIGNED_LIMIT && chunk < UNSIGNED_LIMIT && start < ADDR_LIMIT
    ensures Sound(start, size, chunk) ==>
      StartsWell(start, size, chunk, FirstLeft(start, size, chunk), FirstNext(start, size, chunk))
    ensures chunk == 0 ==> FirstLeft(start, size, chunk) == size
  {
    hide PowerOfTwo, FirstNext, FirstLeft;
    if chunk == 0 {
      WholeFirst(start, size);
    } else if chunk < WIDEST {
      StartsNarrow(start, size, chunk);
    } else {
      WidestIs(chunk);
      if Sound(start, size, chunk) {
        StartsWide(start, size);
      }
    }
  }

  /** The boundary after `start`, also when `start` is itself aligned. */
  lemma {:induction false} FirstBoundary(start: nat, chunk: nat, next: nat)
    requires chunk > 0
    requires next == if RoundUp(start, chunk) == start then start + chunk else RoundUp(start, chunk)
    ensures start < next <= start + chunk && next % chunk == 0 && start % chunk + (next - start) == chunk
  {
    if RoundUp(start, chunk) == start {
      AddMod(start, chunk);
    } else {
      var q, r := start / chunk, start % chunk;
      assert start == chunk * q + r && 0 < r;
      assert chunk * q + chunk == chunk * (q + 1);
      MultipleMod(chunk, q + 1);
      RoundUpLeast(start, chunk, chunk * (q + 1));
      if next < chunk * (q + 1) {
        MultipleMod(chunk, q);
        UniqueMod(next, chunk, q, next - chunk * q);
      }
    }
  }

  // ----- Whole iterations -----

  datatype Chunk = Chunk(addr: nat, size: nat)

  /** Consecutive pieces that cover `size` bytes from `addr`, each inside one aligned block. Addresses wrap around at
      the end of the address space. */
  ghost predicate Covers(cs: seq<Chunk>, addr: nat, size: nat, chunk: nat) {
    if cs == [] then size == 0
    else
      && cs[0].addr == addr % ADDR_LIMIT && cs[0].size <= size && InBlock(addr, cs[0].size, chunk)
      && Covers(cs[1..], addr + cs[0].size, size - cs[0].size, chunk)
  }

  lemma {:induction false} CoversSnoc(cs: seq<Chunk>, addr: nat, size: nat, chunk: nat, c: Chunk)
    requires Covers(cs, addr, size, chunk)
    requires c.addr == (addr + size) % ADDR_LIMIT && InBlock(addr + size, c.size, chunk)
    ensures Covers(cs + [c], addr, size + c.size, chunk)
  {
    if cs == [] {
      assert (cs + [c])[1..] == [];
    } else {
      assert (cs + [c])[1..] == cs[1..] + [c];
      CoversSnoc(cs[1..], addr + cs[0].size, size - cs[0].size, chunk, c);
    }
  }

  /** Number of aligned blocks touched by a region. */
  ghost function Blocks(addr: nat, size: nat, chunk: nat): nat
    decreases size
  {
    if size == 0 then 0
    else if chunk == 0 || addr % chunk + size <= chunk then 1
    else 1 + Blocks(addr + (chunk - addr % chunk), size - (chunk - addr % chunk), chunk)
  }

  /** No decomposition into pieces within blocks has fewer pieces than there are blocks. */
  lemma {:induction false} AtLeastBlocks(cs: seq<Chunk>, addr: nat, size: nat, chunk: nat)
    requires Covers(cs, addr, size, chunk)
    ensures |cs| >= Blocks(addr, size, chunk)
  {
    if cs != [] {
      var k := cs[0].size;
      AtLeastBlocks(cs[1..], addr + k, size - k, chunk);
      FirstPiece(addr, size, chunk, k);
    }
  }

  lemma {:induction false} FirstPiece(addr: nat, size: nat, chunk: nat, k: nat)
    requires k <= size && InBlock(addr, k, chunk)
    ensures Blocks(addr, size, chunk) <= 1 + Blocks(addr + k, size - k, chunk)
  {
    if chunk > 0 && addr % chunk + size > chunk {
      var gap := chunk - addr % chunk;
      var q := addr / chunk;
      assert addr == chunk * q + addr % chunk;
      if k < gap {
        UniqueMod(addr + k, chunk, q, addr % chunk + k);
      }
    }
  }

  lemma {:induction false} BlocksSnoc(addr: nat, size: nat, chunk: nat, more: nat)
    requires size > 0 && 0 < more <= chunk && (addr + size) % chunk == 0
    ensures Blocks(addr, size + more, chunk) == Blocks(addr, size, chunk) + 1
    decreases size
  {
    var gap := chunk - addr % chunk;
    Boundary(addr, size, chunk);
    if size == gap {
      assert Blocks(addr + gap, more, chunk) == 1;
    } else {
      BlocksSnoc(addr + gap, size - gap, chunk, more);
      assert size - gap + more == size + more - gap;
    }
  }

  /** A region that ends on a boundary reaches at least the first boundary after its start. */
  lemma {:induction false} Boundary(addr: nat, size: nat, chunk: nat)
    requires size > 0 && chunk > 0 && (addr + size) % chunk == 0
    ensures size >= chunk - addr % chunk
    ensures (addr + (chunk - addr % chunk)) % chunk == 0
  {
    var q, r := addr / chunk, addr % chunk;
    assert addr == chunk * q + r;
    if size < chunk - r {
      UniqueMod(addr + size, chunk, q, r + size);
    }
    MultipleMod(chunk, q + 1);
    assert chunk * (q + 1) == chunk * q + chunk;
  }

  /** The documented loop over a generator: the chunks cover the region exactly, each within one aligned block, if
      and only if the region is one of the sound ones, and then no decomposition uses fewer. */
  method AllChunks(start: nat, size: nat, chunk: nat) returns (cs: seq<Chunk>)
    requires chunk == 0 || PowerOfTwo(chunk)
    requires size < UNSIGNED_LIMIT && chunk < UNSIGNED_LIMIT && start < ADDR_LIMIT
    ensures Covers(cs, start, size, chunk) <==> Sound(start, size, chunk)
    ensures forall i :: 0 <= i < |cs| ==> cs[i].size > 0
    ensures Sound(start, size, chunk) ==> |cs| == Blocks(start, size, chunk)
    ensures Sound(start, size, chunk) ==> forall ds :: Covers(ds, start, size, chunk) ==> |cs| <= |ds|
  {
    hide PowerOfTwo, Blocks, Covers, InBlock, FirstNext, FirstLeft;
    cs := [];
    var gen := new Generator(start, size, chunk);
    ghost var next := gen.nextAddr;
    NoChunks(start, chunk);
    if !Sound(start, size, chunk) {
      StartsWrong(start, size, chunk);
    }
    while !gen.Done()
      invariant gen.Valid() && fresh(gen) && gen.startAddr == start && gen.total == size && gen.chunkSize == chunk
      invariant forall i :: 0 <= i < |cs| ==> cs[i].size > 0
      invariant Sound(start, size, chunk) ==> Collected(cs, start, size, chunk, gen.past, gen.pos, gen.curSize)
      invariant !Sound(start, size, chunk) ==>
        Astray(cs, start, size, chunk, next, gen.curAddr, gen.nextAddr, gen.curSize, gen.sizeLeft)
      decreases !gen.past, gen.sizeLeft + gen.curSize
    {
      var c := Chunk(gen.curAddr, gen.curSize);
      ghost var was := cs;
      if Sound(start, size, chunk) {
        CollectOne(cs, start, size, chunk, gen.pos, c);
      }
      cs := cs + [c];
      var ok := gen.Next();
    }
    if Sound(start, size, chunk) {
      forall ds | Covers(ds, start, size, chunk) ensures |cs| <= |ds| {
        AtLeastBlocks(ds, start, size, chunk);
      }
    } else {
      AstrayFails(cs, start, size, chunk, next);
    }
  }

  /** The chunks so far, in a sound iteration. */
  ghost predicate Collected(cs: seq<Chunk>, start: nat, size: nat, chunk: nat, past: bool, pos: nat, curSize: nat) {
    var done := if past then size else pos - start;
    && done >= 0 && Covers(cs, start, done, chunk) && |cs| == Blocks(start, done, chunk)
    && (!past ==> (curSize == 0 ==> size == 0))
    && (!past && done > 0 ==> chunk > 0 && pos % chunk == 0)
  }

  /** The chunks so far, in an iteration that goes wrong: none at all, or a second one in the wrong place. */
  ghost predicate Astray(cs: seq<Chunk>, start: nat, size: nat, chunk: nat, next: nat,
                         curAddr: nat, nextAddr: nat, curSize: nat, sizeLeft: nat) {
    && (cs == [] ==>
          && curAddr == start && nextAddr == next && curSize < size && sizeLeft > 0
          && (start + curSize) % ADDR_LIMIT != next)
    && (|cs| == 1 ==> cs[0].addr == start && curAddr == next != (start + cs[0].size) % ADDR_LIMIT && curSize > 0)
    && (|cs| >= 2 ==> cs[0].addr == start && cs[1].addr == next != (start + cs[0].size) % ADDR_LIMIT)
  }

  lemma {:induction false} StartsWrong(start: nat, size: nat, chunk: nat)
    requires PowerOfTwo(chunk) && chunk < UNSIGNED_LIMIT && start < ADDR_LIMIT && !Sound(start, size, chunk)
    ensures var left := FirstLeft(start, size, chunk);
      left < size && (start + left) % ADDR_LIMIT != FirstNext(start, size, chunk)
  {
    WidestIs(chunk);
    WideFirst(start, size);
  }

  lemma {:induction false} NoChunks(start: nat, chunk: nat)
    ensures Covers([], start, 0, chunk) && Blocks(start, 0, chunk) == 0
  {
  }

  lemma {:induction false} AstrayFails(cs: seq<Chunk>, start: nat, size: nat, chunk: nat, next: nat)
    requires size > 0 && |cs| != 1
    requires |cs| >= 2 ==> cs[0].addr == start && cs[1].addr == next != (start + cs[0].size) % ADDR_LIMIT
    ensures !Covers(cs, start, size, chunk)
  {
    if |cs| >= 2 { assert cs[1..][0] == cs[1]; }
  }

  lemma {:induction false} CollectOne(cs: seq<Chunk>, start: nat, size: nat, chunk: nat, pos: nat, c: Chunk)
    requires Collected(cs, start, size, chunk, false, pos, c.size) && c.size > 0
    requires c.addr == pos % ADDR_LIMIT && InBlock(pos, c.size, chunk)
    ensures Covers(cs + [c], start, pos - start + c.size, chunk)
    ensures |cs + [c]| == Blocks(start, pos - start + c.size, chunk)
  {
    hide Covers, Blocks, InBlock;
    CoversSnoc(cs, start, pos - start, chunk, c);
    CountsOne(start, pos - start, chunk, c.size);
  }

  /** The smallest region that is not covered: one byte at the second boundary. */
  lemma {:induction false} WidestChunkFails()
    ensures PowerOfTwo(WIDEST) && !Sound(2 * WIDEST, 1, WIDEST)
    ensures forall start: nat :: start < 2 * WIDEST ==> Sound(start, 1, WIDEST)
  {
    AddressSpace();
  }

  lemma {:induction false} CountsOne(start: nat, done: nat, chunk: nat, more: nat)
    requires more > 0 && InBlock(start + done, more, chunk)
    requires done > 0 ==> chunk > 0 && (start + done) % chunk == 0
    ensures Blocks(start, done + more, chunk) == Blocks(start, done, chunk) + 1
  {
    if done > 0 {
      BlocksSnoc(start, done, chunk, more);
    }
  }
}
