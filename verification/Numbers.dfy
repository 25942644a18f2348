/** Powers of two, bitwise conjunction on naturals, and rounding up. */
module Numbers {

  predicate PowerOfTwo(n: nat) {
    n == 1 || (n > 0 && n % 2 == 0 && PowerOfTwo(n / 2))
  }

  /** Bitwise and. */
  function And(a: nat, b: nat): nat {
    if a == 0 then 0 else 2 * And(a / 2, b / 2) + (if a % 2 == 1 && b % 2 == 1 then 1 else 0)
  }

  lemma {:induction false} AndSelf(a: nat)
    ensures And(a, a) == a
  {
    if a > 0 { AndSelf(a / 2); }
  }

  /** The C idiom `(n & (n - 1)) == 0` recognises exactly the powers of two. */
  lemma {:induction false} PowerOfTwoIdiom(n: nat)
    requires n > 0
    ensures And(n, n - 1) == 0 <==> PowerOfTwo(n)
  {
    if n % 2 == 0 {
      assert (n - 1) / 2 == n / 2 - 1;
      PowerOfTwoIdiom(n / 2);
    } else {
      assert (n - 1) / 2 == n / 2;
      AndSelf(n / 2);
    }
  }

  lemma {:induction false} HalfDivides(a: nat, b: nat)
    requires a > 0 && b % a == 0
    ensures (2 * b) % (2 * a) == 0
  {
    assert b == a * (b / a);
    assert 2 * b == (2 * a) * (b / a);
    MultipleMod(2 * a, b / a);
  }

  lemma {:induction false} MultipleMod(a: nat, k: nat)
    requires a > 0
    ensures (a * k) % a == 0
  {
    if k > 0 {
      MultipleMod(a, k - 1);
      assert a * k == a * (k - 1) + a;
      AddMod(a * (k - 1), a);
    }
  }

  lemma {:induction false} AddMod(x: nat, a: nat)
    requires a > 0
    ensures (x + a) % a == x % a
  {
    var q, r := x / a, x % a;
    assert x == a * q + r;
    assert x + a == a * (q + 1) + r;
    UniqueMod(x + a, a, q + 1, r);
  }

  lemma {:induction false} AtLeast(a: int, d: int)
    requires a >= 0
    ensures d >= 1 ==> a * d >= a
    ensures d <= -1 ==> a * d <= -a
  {
    if d >= 1 {
      assert a * d == a * (d - 1) + a;
    } else if d <= -1 {
      assert a * d == a * (d + 1) - a;
    }
  }

  lemma {:induction false} SmallMultiple(a: int, d: int)
    requires -a < a * d < a
    ensures d == 0
  {
    AtLeast(a, d);
  }

  lemma {:induction false} UniqueMod(x: nat, a: nat, q: nat, r: nat)
    requires a > 0 && x == a * q + r && r < a
    ensures x / a == q && x % a == r
  {
    var q', r' := x / a, x % a;
    assert x == a * q' + r' && 0 <= r' < a;
    assert a * (q - q') == a * q - a * q' == r' - r;
    SmallMultiple(a, q - q');
  }

  /** A power of two divides every power of two that is at least as large. */
  lemma {:induction false} PowerDivides(a: nat, b: nat)
    requires PowerOfTwo(a) && PowerOfTwo(b) && a <= b
    ensures b % a == 0
  {
    if a > 1 {
      PowerDivides(a / 2, b / 2);
      HalfDivides(a / 2, b / 2);
    }
  }

  /** Divisibility is transitive. */
  lemma {:induction false} DividesThrough(x: nat, b: nat, a: nat)
    requires a > 0 && b > 0 && x % b == 0 && b % a == 0
    ensures x % a == 0
  {
    assert x == b * (x / b) && b == a * (b / a);
    assert x == a * ((b / a) * (x / b));
    MultipleMod(a, (b / a) * (x / b));
  }

  lemma {:induction false} SumDivides(x: nat, y: nat, a: nat)
    requires a > 0 && x % a == 0 && y % a == 0
    ensures (x + y) % a == 0
  {
    assert x == a * (x / a) && y == a * (y / a);
    assert x + y == a * (x / a + y / a);
    MultipleMod(a, x / a + y / a);
  }

  /** The C macro `roundup`: the least multiple of `a` that is at least `x`. */
  function RoundUp(x: nat, a: nat): (r: nat)
    requires a > 0
    ensures x <= r < x + a && r % a == 0
    ensures x % a == 0 ==> r == x
  {
    RoundUpIs(x, a);
    (x + (a - 1)) / a * a
  }

  lemma {:induction false} RoundUpIs(x: nat, a: nat)
    requires a > 0
    ensures var r := (x + (a - 1)) / a * a; x <= r < x + a && r % a == 0 && (x % a == 0 ==> r == x)
  {
    var q := (x + (a - 1)) / a;
    var m := (x + (a - 1)) % a;
    assert x + (a - 1) == a * q + m;
    assert q * a == a * q;
    MultipleMod(a, q);
    if x % a == 0 {
      var k := x / a;
      assert x == a * k;
      UniqueMod(x + (a - 1), a, k, a - 1);
    }
  }

  /** No multiple of `a` lies strictly between `x` and `RoundUp(x, a)`. */
  lemma {:induction false} RoundUpLeast(x: nat, a: nat, y: nat)
    requires a > 0 && x <= y && y % a == 0
    ensures RoundUp(x, a) <= y
  {
    var r := RoundUp(x, a);
    if y < r {
      var j, k := r / a, y / a;
      assert r == a * j && y == a * k;
      assert a * (j - k) == a * j - a * k == r - y;
      SmallMultiple(a, j - k);
    }
  }
}
