/** Powers of two and divisibility, shared by the bit-level models. */
module Powers {

  function Pow2(n: nat): (r: nat)
    ensures r >= 1
  {
    if n == 0 then 1 else 2 * Pow2(n - 1)
  }

  lemma {:induction false} Pow2Sum(a: nat, b: nat)
    ensures Pow2(a + b) == Pow2(a) * Pow2(b)
  {
    if a == 0 {
    } else {
      Pow2Sum(a - 1, b);
      assert Pow2(a + b) == 2 * Pow2(a - 1 + b);
    }
  }

  lemma {:induction false} Pow2Increases(a: nat, b: nat)
    requires a < b
    ensures Pow2(a) < Pow2(b)
  {
    if a + 1 == b {
    } else {
      Pow2Increases(a, b - 1);
    }
  }

  lemma Pow2Of32()
    ensures Pow2(32) == 0x1_0000_0000
  {
    assert Pow2(8) == 0x100;
    Pow2Sum(8, 8);
    Pow2Sum(16, 16);
  }

  /** An odd factor never helps a product to be divisible by a power of two. */
  lemma {:induction false} OddFactorDropsOut(d: int, odd: int, n: nat, q: int)
    requires odd % 2 == 1
    requires d * odd == q * Pow2(n)
    ensures exists c :: d == c * Pow2(n)
    decreases n
  {
    if n == 0 {
      assert d == d * Pow2(0);
    } else {
      var half := HalfOfEvenProduct(d, odd, q * Pow2(n - 1));
      OddFactorDropsOut(half, odd, n - 1, q);
      var c :| half == c * Pow2(n - 1);
      assert d == c * Pow2(n);
    }
  }

  lemma HalfOfEvenProduct(d: int, odd: int, p: int) returns (half: int)
    requires odd % 2 == 1 && d * odd == 2 * p
    ensures d == 2 * half && half * odd == p
  {
    OddFactorKeepsParity(d, odd);
    half := d / 2;
    ProductOfDouble(half, odd);
  }

  lemma ProductOfDouble(a: int, b: int)
    ensures (2 * a) * b == 2 * (a * b)
  {
  }

  lemma OddFactorKeepsParity(d: int, odd: int)
    requires odd % 2 == 1
    ensures (d * odd) % 2 == d % 2
  {
    var b := odd / 2;
    assert d * odd == 2 * (d * b) + d;
  }

  /** Division with remainder is determined by any decomposition of the right shape. */
  lemma RemainderIsUnique(x: int, m: int, q: int, r: int)
    requires m > 0 && 0 <= r < m && x == q * m + r
    ensures x / m == q && x % m == r
  {
    var other := x / m;
    var d := q - other;
    assert d * m == x % m - r by {
      assert x == other * m + x % m;
      assert d * m == q * m - other * m;
    }
    SmallMultipleIsZero(d, m);
  }

  lemma SmallMultipleIsZero(d: int, m: int)
    requires m > 0 && -m < d * m < m
    ensures d == 0
  {
    if d >= 1 {
      ProductIsMonotone(1, d, m);
    } else if d <= -1 {
      ProductIsMonotone(d, -1, m);
    }
  }

  lemma {:induction false} ProductIsMonotone(a: int, b: int, m: nat)
    requires a <= b
    ensures a * m <= b * m
  {
    if m == 0 {
    } else {
      ProductIsMonotone(a, b, m - 1);
    }
  }

  lemma QuotientIsNat(x: nat, m: int)
    requires m > 0
    ensures x / m >= 0
  {
    assert x == x / m * m + x % m;
    if x / m <= -1 {
      ProductIsMonotone(x / m, -1, m);
    }
  }

  lemma QuotientBound(x: int, a: nat, b: nat)
    requires 0 <= x < a * b && b > 0
    ensures 0 <= x / b < a
  {
    var q := x / b;
    assert q * b <= x;
    if q >= a {
      ProductIsMonotone(a, q, b);
    }
  }

  lemma RemaindersDifferByMultiple(x: int, y: int, m: int) returns (q: int)
    requires m > 0 && x % m == y % m
    ensures x - y == q * m
  {
    q := x / m - y / m;
    assert x == x / m * m + x % m;
    assert y == y / m * m + y % m;
  }

  lemma AddMultiple(x: int, q: int, m: int)
    requires m > 0
    ensures (x + q * m) % m == x % m
  {
    assert x + q * m == (x / m + q) * m + x % m by {
      assert x == x / m * m + x % m;
      assert (x / m + q) * m == x / m * m + q * m;
    }
    RemainderIsUnique(x + q * m, m, x / m + q, x % m);
  }

  /** Cutting to more bits first changes nothing. */
  lemma CutTwice(x: int, a: nat, b: nat)
    requires a <= b
    ensures (x % Pow2(b)) % Pow2(a) == x % Pow2(a)
  {
    Pow2Sum(b - a, a);
    var q := x / Pow2(b);
    assert x == q * Pow2(b) + x % Pow2(b);
    ProductAssociates(q, Pow2(b - a), Pow2(a));
    AddMultiple(x % Pow2(b), q * Pow2(b - a), Pow2(a));
  }

  lemma ProductAssociates(a: int, b: int, c: int)
    ensures (a * b) * c == a * (b * c)
  {
  }
}
