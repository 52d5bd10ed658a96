/**
 Double-to-integer conversion of js/public/Conversions.h on the binary64 bit pattern,
 against the real number the pattern stands for. Shifts and masks are multiplications,
 divisions and remainders by powers of two; machine words are cut where the machine cuts.
 */
module Conversions {
  import opened Powers

  const EXPONENT_SHIFT: nat := 52
  const EXPONENT_BIAS: nat := 1023

  type Bits = b: int | 0 <= b < 0x1_0000_0000_0000_0000 witness 0

  function ExponentField(bits: Bits): nat {
    (bits / Pow2(EXPONENT_SHIFT)) % 2048
  }

  predicate SignBit(bits: Bits) {
    (bits / Pow2(63)) % 2 == 1
  }

  // ---------- The code ----------

  /** detail::ToUintWidth for a result of w bits. */
  function ToUintWidth(bits: Bits, w: nat): int {
    var exp := ExponentField(bits) - EXPONENT_BIAS;
    if exp < 0 then 0
    else if exp >= EXPONENT_SHIFT + w then 0
    else
      var shifted :=
        if exp > EXPONENT_SHIFT then (bits * Pow2(exp - EXPONENT_SHIFT)) % Pow2(64) % Pow2(w)
        else (bits / Pow2(EXPONENT_SHIFT - exp)) % Pow2(w);
      var result := if exp < w then (shifted % Pow2(exp) + Pow2(exp)) % Pow2(w) else shifted;
      if SignBit(bits) then (Pow2(w) - 1 - result + 1) % Pow2(w) else result
  }

  /** Two's complement wrap-around to w bits. */
  function WrapSigned(x: int, w: nat): int
    requires w > 0
  {
    var r := x % Pow2(w);
    if r < Pow2(w - 1) then r else r - Pow2(w)
  }

  /** detail::ToIntWidth: every signed operation wraps. */
  function ToIntWidth(bits: Bits, w: nat): int
    requires w > 0
  {
    var maxValue := Pow2(w - 1) - 1;
    var minValue := -maxValue - 1;
    var u := ToUintWidth(bits, w);
    if u <= maxValue then u
    else WrapSigned(WrapSigned(minValue + WrapSigned(u - maxValue, w), w) - 1, w)
  }

  // ---------- The number a pattern stands for ----------

  function RealPow2(n: int): real {
    if n >= 0 then Pow2(n) as real else 1.0 / Pow2(-n) as real
  }

  predicate IsFinite(bits: Bits) {
    ExponentField(bits) < 2047
  }

  function Fraction(bits: Bits): nat {
    bits % Pow2(EXPONENT_SHIFT)
  }

  /** |d|: subnormals have no implicit leading one. */
  function Magnitude(bits: Bits): real {
    if ExponentField(bits) == 0 then Fraction(bits) as real * RealPow2(-1074)
    else (Pow2(EXPONENT_SHIFT) + Fraction(bits)) as real * RealPow2(ExponentField(bits) - 1075)
  }

  /** sign(d) * floor(|d|), and 0 for NaN and the infinities. */
  function Truncated(bits: Bits): int {
    if !IsFinite(bits) then 0
    else if SignBit(bits) then -(Magnitude(bits).Floor)
    else Magnitude(bits).Floor
  }

  // ---------- floor(|d|) in integers ----------

  lemma FloorOfQuotient(a: nat, b: nat)
    requires b > 0
    ensures (a as real / b as real).Floor == a / b
  {
    var q, r := a / b, a % b;
    assert a == q * b + r;
    assert a as real == (q as real) * (b as real) + r as real by {
      assert (q * b) as real == (q as real) * (b as real);
    }
    assert a as real / b as real == q as real + r as real / b as real;
    assert 0.0 <= r as real / b as real < 1.0;
  }

  /** floor(|d|) once |d| may reach 1, for the unbiased exponent exp. */
  function IntegerPart(fraction: nat, exp: nat): nat {
    var significand := Pow2(EXPONENT_SHIFT) + fraction;
    if exp > EXPONENT_SHIFT then significand * Pow2(exp - EXPONENT_SHIFT)
    else QuotientIsNat(significand, Pow2(EXPONENT_SHIFT - exp)); significand / Pow2(EXPONENT_SHIFT - exp)
  }

  lemma FractionIsSmall(bits: Bits)
    ensures 0 <= Fraction(bits) < Pow2(EXPONENT_SHIFT)
  {
    hide Pow2;
  }

  lemma ScaledFloor(s: nat, n: int)
    ensures n >= 0 ==> (s as real * RealPow2(n)).Floor == s * Pow2(n)
    ensures n <= 0 ==> (s as real * RealPow2(n)).Floor == s / Pow2(-n)
  {
    if n >= 0 {
      assert s as real * Pow2(n) as real == (s * Pow2(n)) as real;
    } else {
      assert s as real * (1.0 / Pow2(-n) as real) == s as real / Pow2(-n) as real;
      FloorOfQuotient(s, Pow2(-n));
    }
  }

  lemma LargeFloor(bits: Bits)
    requires ExponentField(bits) >= EXPONENT_BIAS
    ensures Magnitude(bits).Floor == IntegerPart(Fraction(bits), ExponentField(bits) - EXPONENT_BIAS)
  {
    hide RealPow2, Pow2, ExponentField, Fraction;
    ScaledFloor(Pow2(EXPONENT_SHIFT) + Fraction(bits), ExponentField(bits) - 1075);
  }

  lemma SmallScaled(s: nat, k: int)
    requires s < Pow2(53) && k >= 53
    ensures (s as real * RealPow2(-k)).Floor == 0
  {
    hide RealPow2, Pow2;
    ScaledFloor(s, -k);
    if k > 53 {
      Pow2Increases(53, k);
    }
    RemainderIsUnique(s, Pow2(k), 0, s);
  }

  lemma SignificandIsSmall(bits: Bits)
    ensures 0 <= Fraction(bits) && Pow2(EXPONENT_SHIFT) + Fraction(bits) < Pow2(53)
  {
    FractionIsSmall(bits);
    hide Fraction;
    assert Pow2(53) == 2 * Pow2(EXPONENT_SHIFT);
  }

  /** Below the bias |d| < 1; this takes in zeros and subnormals. */
  lemma SmallFloor(bits: Bits)
    requires ExponentField(bits) < EXPONENT_BIAS
    ensures Magnitude(bits).Floor == 0
  {
    hide RealPow2, ExponentField, Pow2, Fraction;
    SignificandIsSmall(bits);
    if ExponentField(bits) == 0 {
      SmallScaled(Fraction(bits), 1074);
    } else {
      SmallScaled(Pow2(EXPONENT_SHIFT) + Fraction(bits), 1075 - ExponentField(bits));
    }
  }

  // ---------- The shifts ----------

  /** The bits above the fraction only add multiples of 2^exp. */
  lemma RightShift(bits: nat, fraction: nat, hi: nat, exp: nat)
    requires bits == hi * Pow2(EXPONENT_SHIFT) + fraction && fraction < Pow2(EXPONENT_SHIFT) && exp <= EXPONENT_SHIFT
    ensures var d := Pow2(EXPONENT_SHIFT - exp);
            bits / d == hi * Pow2(exp) + fraction / d && 0 <= fraction / d < Pow2(exp)
  {
    var d := Pow2(EXPONENT_SHIFT - exp);
    Pow2Sum(exp, EXPONENT_SHIFT - exp);
    QuotientBound(fraction, Pow2(exp), d);
    ShiftSum(bits, hi, Pow2(exp), d, fraction);
  }

  lemma ShiftSum(bits: nat, hi: nat, p: nat, d: nat, fraction: nat)
    requires d > 0 && bits == hi * (p * d) + fraction
    ensures bits / d == hi * p + fraction / d
  {
    var q, r := fraction / d, fraction % d;
    assert fraction == q * d + r;
    assert bits == (hi * p + q) * d + r by {
      ProductAssociates(hi, p, d);
      assert (hi * p + q) * d == (hi * p) * d + q * d;
    }
    RemainderIsUnique(bits, d, hi * p + q, r);
  }

  lemma LeftShift(bits: nat, fraction: nat, hi: nat, exp: nat)
    requires bits == hi * Pow2(EXPONENT_SHIFT) + fraction && fraction < Pow2(EXPONENT_SHIFT) && exp > EXPONENT_SHIFT
    ensures var m := Pow2(exp - EXPONENT_SHIFT);
            bits * m == hi * Pow2(exp) + fraction * m && fraction * m < Pow2(exp)
  {
    hide Pow2;
    var m := Pow2(exp - EXPONENT_SHIFT);
    Pow2Sum(EXPONENT_SHIFT, exp - EXPONENT_SHIFT);
    Spread(bits, hi, Pow2(EXPONENT_SHIFT), fraction, m);
  }

  lemma Spread(bits: nat, hi: nat, p: nat, fraction: nat, m: nat)
    requires bits == hi * p + fraction && fraction < p && m > 0
    ensures bits * m == hi * (p * m) + fraction * m && fraction * m < p * m
  {
    ProductAssociates(hi, p, m);
    assert (hi * p + fraction) * m == (hi * p) * m + fraction * m;
    assert (fraction + 1) * m <= p * m by { ProductIsMonotone(fraction + 1, p, m); }
  }

  /** Masking and adding the implicit one, or neither when it falls outside the result. */
  lemma Masked(x: nat, hi: nat, low: nat, exp: nat, w: nat)
    requires x == hi * Pow2(exp) + low && low < Pow2(exp)
    ensures exp < w ==> ((x % Pow2(w)) % Pow2(exp) + Pow2(exp)) % Pow2(w) == (Pow2(exp) + low) % Pow2(w)
    ensures exp >= w ==> x % Pow2(w) == (Pow2(exp) + low) % Pow2(w)
  {
    if exp < w {
      CutTwice(x, exp, w);
      RemainderIsUnique(x, Pow2(exp), hi, low);
    } else {
      HighPartVanishes(low, hi, exp, w);
      HighPartVanishes(low, 1, exp, w);
    }
  }

  lemma HighPartVanishes(low: int, hi: int, exp: nat, w: nat)
    requires exp >= w
    ensures (hi * Pow2(exp) + low) % Pow2(w) == low % Pow2(w)
  {
    Pow2Sum(exp - w, w);
    ProductAssociates(hi, Pow2(exp - w), Pow2(w));
    AddMultiple(low, hi * Pow2(exp - w), Pow2(w));
  }

  // ---------- The theorems ----------

  /** The unsigned result before the sign is applied, in the range where bits are shifted at all. */
  lemma MagnitudeResidue(bits: Bits, w: nat)
    requires 1 <= w <= 64
    requires EXPONENT_BIAS <= ExponentField(bits) < EXPONENT_BIAS + EXPONENT_SHIFT + w
    ensures var exp := ExponentField(bits) - EXPONENT_BIAS;
            var shifted :=
              if exp > EXPONENT_SHIFT then (bits * Pow2(exp - EXPONENT_SHIFT)) % Pow2(64) % Pow2(w)
              else (bits / Pow2(EXPONENT_SHIFT - exp)) % Pow2(w);
            (if exp < w then (shifted % Pow2(exp) + Pow2(exp)) % Pow2(w) else shifted) ==
            IntegerPart(Fraction(bits), exp) % Pow2(w)
  {
    hide Pow2, IntegerPart, ExponentField, Fraction;
    var exp := ExponentField(bits) - EXPONENT_BIAS;
    var hi, fraction := SplitBits(bits);
    if exp > EXPONENT_SHIFT {
      LeftResidue(bits, fraction, hi, exp, w);
    } else {
      RightResidue(bits, fraction, hi, exp, w);
    }
  }

  lemma SplitBits(bits: Bits) returns (hi: nat, fraction: nat)
    ensures bits == hi * Pow2(EXPONENT_SHIFT) + fraction
    ensures fraction == Fraction(bits) && fraction < Pow2(EXPONENT_SHIFT)
  {
    hide Pow2;
    QuotientIsNat(bits, Pow2(EXPONENT_SHIFT));
    hi, fraction := bits / Pow2(EXPONENT_SHIFT), Fraction(bits);
  }

  lemma LeftResidue(bits: nat, fraction: nat, hi: nat, exp: nat, w: nat)
    requires bits == hi * Pow2(EXPONENT_SHIFT) + fraction && fraction < Pow2(EXPONENT_SHIFT)
    requires exp > EXPONENT_SHIFT && w <= 64
    ensures var shifted := (bits * Pow2(exp - EXPONENT_SHIFT)) % Pow2(64) % Pow2(w);
            (if exp < w then (shifted % Pow2(exp) + Pow2(exp)) % Pow2(w) else shifted) ==
            IntegerPart(fraction, exp) % Pow2(w)
  {
    hide Pow2;
    var m := Pow2(exp - EXPONENT_SHIFT);
    CutTwice(bits * m, w, 64);
    LeftShift(bits, fraction, hi, exp);
    Masked(bits * m, hi, fraction * m, exp, w);
    ImplicitOne(fraction);
    LeftShift(Pow2(EXPONENT_SHIFT) + fraction, fraction, 1, exp);
    assert IntegerPart(fraction, exp) == Pow2(exp) + fraction * m;
  }

  lemma RightResidue(bits: nat, fraction: nat, hi: nat, exp: nat, w: nat)
    requires bits == hi * Pow2(EXPONENT_SHIFT) + fraction && fraction < Pow2(EXPONENT_SHIFT)
    requires exp <= EXPONENT_SHIFT
    ensures var shifted := (bits / Pow2(EXPONENT_SHIFT - exp)) % Pow2(w);
            (if exp < w then (shifted % Pow2(exp) + Pow2(exp)) % Pow2(w) else shifted) ==
            IntegerPart(fraction, exp) % Pow2(w)
  {
    hide Pow2;
    var d := Pow2(EXPONENT_SHIFT - exp);
    RightShift(bits, fraction, hi, exp);
    QuotientIsNat(bits, d);
    Masked(bits / d, hi, fraction / d, exp, w);
    ImplicitOne(fraction);
    RightShift(Pow2(EXPONENT_SHIFT) + fraction, fraction, 1, exp);
  }

  lemma ImplicitOne(fraction: nat)
    ensures Pow2(EXPONENT_SHIFT) + fraction == 1 * Pow2(EXPONENT_SHIFT) + fraction
  {
  }

  lemma NegatedResidue(x: int, m: int)
    requires m > 0
    ensures (m - 1 - x % m + 1) % m == (-x) % m
  {
    assert -x + (x / m + 1) * m == m - x % m by {
      assert x == x / m * m + x % m;
      assert (x / m + 1) * m == x / m * m + m;
    }
    AddMultiple(-x, x / m + 1, m);
  }

  /** From 2^(52 + w) on, and so for infinities and NaN, every number is a multiple of 2^w. */
  lemma HugeResidue(bits: Bits, w: nat)
    requires 1 <= w <= 64 && IsFinite(bits)
    requires ExponentField(bits) >= EXPONENT_BIAS + EXPONENT_SHIFT + w
    ensures Magnitude(bits).Floor % Pow2(w) == 0
  {
    var exp := ExponentField(bits) - EXPONENT_BIAS;
    LargeFloor(bits);
    var significand := Pow2(EXPONENT_SHIFT) + Fraction(bits);
    HighPartVanishes(0, significand, exp - EXPONENT_SHIFT, w);
    RemainderIsUnique(0, Pow2(w), 0, 0);
  }

  lemma NegatedMultiple(x: int, m: int)
    requires m > 0 && x % m == 0
    ensures (-x) % m == 0
  {
    NegatedResidue(x, m);
    RemainderIsUnique(m, m, 1, 0);
  }

  /**
   For every bit pattern and every width up to 64, ToUintWidth gives sign(d) * floor(|d|)
   modulo 2^w, taking NaN and the infinities to 0.
   */
  lemma ToUintWidthIsResidue(bits: Bits, w: nat)
    requires 1 <= w <= 64
    ensures ToUintWidth(bits, w) == Truncated(bits) % Pow2(w)
  {
    hide Magnitude, Pow2, SignBit, ExponentField, IntegerPart;
    var field := ExponentField(bits);
    if field < EXPONENT_BIAS {
      SmallFloor(bits);
      RemainderIsUnique(0, Pow2(w), 0, 0);
    } else if field >= EXPONENT_BIAS + EXPONENT_SHIFT + w {
      RemainderIsUnique(0, Pow2(w), 0, 0);
      if IsFinite(bits) {
        HugeResidue(bits, w);
        NegatedMultiple(Magnitude(bits).Floor, Pow2(w));
      }
    } else {
      FieldIsFinite(bits, w);
      LargeFloor(bits);
      MagnitudeResidue(bits, w);
      NegatedResidue(Magnitude(bits).Floor, Pow2(w));
    }
  }

  lemma FieldIsFinite(bits: Bits, w: nat)
    requires w <= 64 && ExponentField(bits) < EXPONENT_BIAS + EXPONENT_SHIFT + w
    ensures IsFinite(bits)
  {
  }

  /** The signed representative of x modulo 2^w. */
  predicate Represents(r: int, x: int, w: nat)
    requires w > 0
  {
    -(Pow2(w - 1) as int) <= r < Pow2(w - 1) && r % Pow2(w) == x % Pow2(w)
  }

  lemma RepresentativeIsUnique(r: int, r': int, x: int, w: nat)
    requires w > 0 && Represents(r, x, w) && Represents(r', x, w)
    ensures r == r'
  {
    var q := RemaindersDifferByMultiple(r, r', Pow2(w));
    SmallMultipleIsZero(q, Pow2(w));
  }

  lemma WrapSignedRepresents(x: int, w: nat)
    requires w > 0
    ensures Represents(WrapSigned(x, w), x, w)
  {
    var m := Pow2(w);
    assert m == 2 * Pow2(w - 1);
    var r := x % m;
    RemainderIsUnique(r, m, 0, r);
    AddMultiple(r, -1, m);
  }

  /** Wrapping arithmetic may cut to w bits at any stage. */
  lemma WrapsAdd(a: int, b: int, x: int, w: nat)
    requires w > 0 && a % Pow2(w) == x % Pow2(w)
    ensures (a + b) % Pow2(w) == (x + b) % Pow2(w)
  {
    var q := RemaindersDifferByMultiple(a, x, Pow2(w));
    AddMultiple(x + b, q, Pow2(w));
  }

  /**
   ToIntWidth gives the signed representative of the same residue, although for the residue
   2^w - 1 an intermediate sum leaves the w-bit range.
   */
  lemma ToIntWidthRepresents(bits: Bits, w: nat)
    requires 1 <= w <= 64
    ensures Represents(ToIntWidth(bits, w), Truncated(bits), w)
  {
    hide Truncated, ToUintWidth, WrapSigned, Pow2, Represents;
    ToUintWidthIsResidue(bits, w);
    var u := ToUintWidth(bits, w);
    ResidueOfResidue(Truncated(bits), Pow2(w));
    if u > Pow2(w - 1) - 1 {
      UpperHalf(u, w);
    } else {
      LowerHalf(u, w);
    }
    RepresentsSame(ToIntWidth(bits, w), u, Truncated(bits), w);
  }

  lemma ResidueOfResidue(x: int, m: int)
    requires m > 0
    ensures (x % m) % m == x % m
  {
    RemainderIsUnique(x % m, m, 0, x % m);
  }

  lemma LowerHalf(u: int, w: nat)
    requires w > 0 && 0 <= u < Pow2(w - 1)
    ensures Represents(u, u, w)
  {
  }

  lemma RepresentsSame(r: int, x: int, y: int, w: nat)
    requires w > 0 && Represents(r, x, w) && x % Pow2(w) == y % Pow2(w)
    ensures Represents(r, y, w)
  {
  }

  lemma HalfOfPow2(w: nat)
    requires w > 0
    ensures Pow2(w) == 2 * Pow2(w - 1)
  {
  }

  /** A wrapping addition represents the sum. */
  lemma WrappedSum(r: int, x: int, b: int, w: nat)
    requires w > 0 && Represents(r, x, w)
    ensures Represents(WrapSigned(b + r, w), x + b, w)
  {
    hide WrapSigned, Pow2;
    WrapsAdd(r, b, x, w);
    WrapSignedRepresents(r + b, w);
    assert r + b == b + r;
  }

  lemma OneTurnLess(r: int, u: int, w: nat)
    requires w > 0 && Represents(r, u - Pow2(w), w)
    ensures Represents(r, u, w)
  {
    hide Pow2;
    AddMultiple(u, -1, Pow2(w));
  }

  /** The last line of ToIntWidth subtracts 2^w, in three wrapping operations. */
  lemma UpperHalf(u: int, w: nat)
    requires w > 0 && Pow2(w - 1) - 1 < u < Pow2(w)
    ensures var maxValue := Pow2(w - 1) - 1;
            var minValue := -maxValue - 1;
            Represents(WrapSigned(WrapSigned(minValue + WrapSigned(u - maxValue, w), w) - 1, w), u, w)
  {
    hide WrapSigned, Pow2, Represents;
    var maxValue := Pow2(w - 1) - 1;
    var minValue := -maxValue - 1;
    var a := WrapSigned(u - maxValue, w);
    var b := WrapSigned(minValue + a, w);
    WrapSignedRepresents(u - maxValue, w);
    WrappedSum(a, u - maxValue, minValue, w);
    WrappedSum(b, u - maxValue + minValue, -1, w);
    HalfOfPow2(w);
    OneTurnLess(WrapSigned(b - 1, w), u, w);
  }

  /** The sum that leaves the range does so for exactly one residue. */
  lemma IntermediateOverflow(u: nat, w: nat)
    requires w > 1 && Pow2(w - 1) - 1 < u < Pow2(w)
    ensures var maxValue := Pow2(w - 1) - 1;
            var sum := (-maxValue - 1) + WrapSigned(u - maxValue, w);
            sum < -(Pow2(w - 1) as int) <==> u == Pow2(w) - 1
  {
    var m := Pow2(w);
    assert m == 2 * Pow2(w - 1) && Pow2(w - 1) == 2 * Pow2(w - 2);
    var maxValue := Pow2(w - 1) - 1;
    RemainderIsUnique(u - maxValue, m, 0, u - maxValue);
  }

  // ---------- From sign, exponent and fraction ----------

  /** The pattern with sign s, biased exponent e and fraction f. */
  predicate Encodes(bits: int, s: nat, e: nat, f: nat) {
    && s <= 1 && e < 2048 && f < 0x10_0000_0000_0000
    && bits == s * 0x8000_0000_0000_0000 + e * 0x10_0000_0000_0000 + f
  }

  /**
   What lies before the binary point of (-1)^s * 1.f * 2^(e - 1023). It is 0 below 1, where this takes in zeros and
   subnormals, and 0 for the infinities and NaN.
   */
  function BeforePoint(s: nat, e: nat, f: nat): int {
    var significand := 0x10_0000_0000_0000 + f;
    var whole :=
      if e < 1023 || e == 2047 then 0
      else if e < 1075 then significand / Pow2(1075 - e)
      else significand * Pow2(e - 1075);
    if s == 1 then -whole else whole
  }

  lemma Pow2Of52()
    ensures Pow2(52) == 0x10_0000_0000_0000 && Pow2(63) == 0x8000_0000_0000_0000 && Pow2(11) == 2048
  {
    Pow2Of32();
    assert Pow2(10) == 1024;
    Pow2Sum(10, 10);
    Pow2Sum(20, 32);
    Pow2Sum(11, 52);
  }

  lemma FieldsOf(bits: Bits, s: nat, e: nat, f: nat)
    requires Encodes(bits, s, e, f)
    ensures ExponentField(bits) == e && Fraction(bits) == f && (SignBit(bits) <==> s == 1)
  {
    hide Pow2;
    Pow2Of52();
    var p, q := Pow2(52), Pow2(63);
    RemainderIsUnique(bits, p, s * 2048 + e, f);
    RemainderIsUnique(s * 2048 + e, 2048, s, e);
    RemainderIsUnique(bits, q, s, e * p + f);
    RemainderIsUnique(s, 2, 0, s);
  }

  /** At e == 1075 the significand is the whole part. */
  lemma WholeIsIntegerPart(e: nat, f: nat)
    requires 1023 <= e < 2047
    ensures BeforePoint(0, e, f) == IntegerPart(f, e - 1023)
    ensures BeforePoint(1, e, f) == -(IntegerPart(f, e - 1023) as int)
  {
    Pow2Of52();
    assert Pow2(0) == 1;
    hide Pow2;
  }

  lemma TruncatedFields(bits: Bits, s: nat, e: nat, f: nat)
    requires Encodes(bits, s, e, f)
    ensures Truncated(bits) == BeforePoint(s, e, f)
  {
    hide Pow2, ExponentField, Fraction, SignBit, Magnitude, IntegerPart;
    FieldsOf(bits, s, e, f);
    if e < 1023 {
      SmallFloor(bits);
    } else if e < 2047 {
      LargeFloor(bits);
      WholeIsIntegerPart(e, f);
      hide BeforePoint;
    }
  }

  /** For every sign, exponent and fraction: the unsigned result, modulo 2^w, and the signed one, in range and congruent. */
  lemma ConvertedFields(bits: Bits, s: nat, e: nat, f: nat, w: nat)
    requires Encodes(bits, s, e, f) && 1 <= w <= 64
    ensures ToUintWidth(bits, w) == BeforePoint(s, e, f) % Pow2(w)
    ensures -(Pow2(w - 1) as int) <= ToIntWidth(bits, w) < Pow2(w - 1)
    ensures ToIntWidth(bits, w) % Pow2(w) == BeforePoint(s, e, f) % Pow2(w)
  {
    hide Pow2, Encodes, Truncated, ToUintWidth, ToIntWidth, BeforePoint;
    TruncatedFields(bits, s, e, f);
    ToUintWidthIsResidue(bits, w);
    ToIntWidthRepresents(bits, w);
  }

  /** The number without its sign: only with an implicit one is the significand 2^52 + f. */
  function AbsoluteValue(e: nat, f: nat): real {
    if e == 0 then f as real * RealPow2(-1074) else (0x10_0000_0000_0000 + f) as real * RealPow2(e - 1075)
  }

  lemma SmallValue(e: nat, f: nat)
    requires e < 1023 && f < 0x10_0000_0000_0000
    ensures AbsoluteValue(e, f).Floor == 0
  {
    hide Pow2, RealPow2;
    SignificandFits(f);
    if e == 0 {
      SmallScaled(f, 1074);
    } else {
      SmallScaled(0x10_0000_0000_0000 + f, 1075 - e);
    }
  }

  lemma LargeValue(e: nat, f: nat)
    requires 1023 <= e < 2047
    ensures AbsoluteValue(e, f).Floor == BeforePoint(0, e, f)
  {
    hide Pow2, RealPow2;
    ScaledFloor(0x10_0000_0000_0000 + f, e - 1075);
  }

  lemma SignOfWhole(e: nat, f: nat)
    ensures BeforePoint(1, e, f) == -BeforePoint(0, e, f)
  {
    hide Pow2;
  }

  /** BeforePoint is the number truncated towards zero. */
  lemma BeforePointTruncates(s: nat, e: nat, f: nat)
    requires s <= 1 && e < 2047 && f < 0x10_0000_0000_0000
    ensures BeforePoint(s, e, f) == if s == 1 then -(AbsoluteValue(e, f).Floor) else AbsoluteValue(e, f).Floor
  {
    hide AbsoluteValue, Pow2;
    SignOfWhole(e, f);
    if e < 1023 {
      SmallValue(e, f);
    } else {
      LargeValue(e, f);
      hide BeforePoint;
    }
  }

  lemma SignificandFits(f: nat)
    requires f < 0x10_0000_0000_0000
    ensures 0x10_0000_0000_0000 + f < Pow2(53)
  {
    Pow2Of52();
    assert Pow2(53) == 2 * Pow2(52);
    hide Pow2;
  }

  // ---------- The named conversions ----------

  function ToInt32(bits: Bits): int { ToIntWidth(bits, 32) }

  function ToUint32(bits: Bits): int { ToUintWidth(bits, 32) }

  /** Declared to return int8_t, so the unsigned residue is reinterpreted as signed. */
  function ToUint8(bits: Bits): int { WrapSigned(ToUintWidth(bits, 8), 8) }

  function ToInt8(bits: Bits): int { ToIntWidth(bits, 8) }

  /**
   ToUint8 returns what ToInt8 does. It is the unsigned residue its name promises exactly
   when that residue is below 128.
   */
  lemma ToUint8IsToInt8(bits: Bits)
    ensures ToUint8(bits) == ToInt8(bits)
    ensures ToUint8(bits) == Truncated(bits) % 256 <==> Truncated(bits) % 256 < 128
  {
    assert Pow2(8) == 256 && Pow2(7) == 128;
    var u := ToUintWidth(bits, 8);
    ToUintWidthIsResidue(bits, 8);
    WrapSignedRepresents(u, 8);
    ToIntWidthRepresents(bits, 8);
    RemainderIsUnique(u, 256, 0, u);
    RepresentativeIsUnique(ToUint8(bits), ToInt8(bits), Truncated(bits), 8);
  }

  /** Both 32-bit conversions agree modulo 2^32, so converting either result again gives the other. */
  lemma Int32AndUint32Agree(bits: Bits)
    ensures ToInt32(bits) == WrapSigned(ToUint32(bits), 32)
    ensures ToUint32(bits) == ToInt32(bits) % Pow2(32)
  {
    var u := ToUint32(bits);
    ToUintWidthIsResidue(bits, 32);
    ToIntWidthRepresents(bits, 32);
    WrapSignedRepresents(u, 32);
    RemainderIsUnique(u, Pow2(32), 0, u);
    hide ToUint32, ToInt32, ToUintWidth, ToIntWidth, Truncated, WrapSigned, Pow2;
    RepresentativeIsUnique(ToInt32(bits), WrapSigned(u, 32), Truncated(bits), 32);
  }
}
