/** float64 bit patterns: the comparison that the aggregation uses, and the IEEE 754 binary64
    value it stands for. Addition is left abstract. */
module Floats {
  import opened Words

  /** IEEE addition, left uninterpreted: an arbitrary total function on bit patterns. */
  const FloatAdd: (uint64, uint64) -> uint64

  const MAX_FLOAT: uint64 := 0x7FEF_FFFF_FFFF_FFFF
  const MIN_FLOAT: uint64 := 0xFFEF_FFFF_FFFF_FFFF
  const INFINITY: int := 0x7FF0_0000_0000_0000

  /** Sign and magnitude as one integer; both zeros are 0. */
  function Key(v: uint64): int {
    if v < TWO_63 then v else TWO_63 - v
  }

  predicate FloatLess(a: uint64, b: uint64) {
    && -INFINITY <= Key(a) <= INFINITY
    && -INFINITY <= Key(b) <= INFINITY
    && Key(a) < Key(b)
  }

  // ----- the value of a pattern (IEEE 754, section 3.4)

  const TWO_52 := 0x10_0000_0000_0000

  function Exponent(v: uint64): (e: nat)
    ensures e < 2048
  {
    (v / TWO_52) % 2048
  }

  function Fraction(v: uint64): (f: nat)
    ensures f < TWO_52
  {
    v % TWO_52
  }

  predicate NotANumber(v: uint64) {
    Exponent(v) == 2047 && Fraction(v) != 0
  }

  predicate Finite(v: uint64) {
    Exponent(v) < 2047
  }

  /** The absolute value in units of 2^-1074, the smallest subnormal; an infinity ranks above
      every finite one. */
  function Magnitude(v: uint64): nat {
    if Exponent(v) == 0 then Fraction(v) else (TWO_52 + Fraction(v)) * Pow2(Exponent(v) - 1)
  }

  /** The value in the same units; bit 63 is the sign. */
  function Scaled(v: uint64): int {
    var m: int := Magnitude(v);
    if v / TWO_63 == 1 then -m else m
  }

  lemma Fields(v: uint64)
    ensures v % TWO_63 == Exponent(v) * TWO_52 + Fraction(v)
    ensures v / TWO_63 == if v < TWO_63 then 0 else 1
  {
    var q := v / TWO_52;
    assert v == q * TWO_52 + v % TWO_52;
    assert q == (q / 2048) * 2048 + q % 2048;
    assert v == (q / 2048) * TWO_63 + (q % 2048) * TWO_52 + v % TWO_52;
  }

  /** A magnitude lies between the powers of its exponent. */
  lemma MagnitudeRange(v: uint64)
    ensures Exponent(v) == 0 ==> Magnitude(v) < TWO_52
    ensures Exponent(v) > 0 ==> TWO_52 * Pow2(Exponent(v) - 1) <= Magnitude(v) < TWO_52 * Pow2(Exponent(v))
  {
    hide Pow2;
    if Exponent(v) > 0 {
      var p := Pow2(Exponent(v) - 1);
      Pow2Step(Exponent(v) - 1);
      MulMonotone(TWO_52, TWO_52 + Fraction(v), p);
      MulMonotone(TWO_52 + Fraction(v) + 1, 2 * TWO_52, p);
      MulDistribute(TWO_52 + Fraction(v), 1, p);
    }
  }

  lemma MagnitudeLess(a: uint64, b: uint64)
    requires a % TWO_63 < b % TWO_63
    ensures Magnitude(a) < Magnitude(b)
  {
    hide Pow2, Exponent, Fraction, Magnitude;
    Fields(a);
    Fields(b);
    if Exponent(a) < Exponent(b) {
      MagnitudeRange(a);
      MagnitudeRange(b);
      Pow2Monotone(Exponent(a), Exponent(b) - 1);
      MulMonotone(Pow2(Exponent(a)), Pow2(Exponent(b) - 1), TWO_52);
      Pow2AtLeastOne(Exponent(b) - 1);
    } else {
      SameExponent(a, b);
    }
  }

  lemma Pow2AtLeastOne(n: nat)
    ensures TWO_52 <= TWO_52 * Pow2(n)
  {
  }

  lemma SameExponent(a: uint64, b: uint64)
    requires Exponent(a) == Exponent(b) && Fraction(a) < Fraction(b)
    ensures Magnitude(a) < Magnitude(b)
  {
    hide Pow2, Exponent, Fraction;
    if Exponent(a) > 0 {
      var p := Pow2(Exponent(a) - 1);
      MulMonotone(TWO_52 + Fraction(a) + 1, TWO_52 + Fraction(b), p);
      MulDistribute(TWO_52 + Fraction(a), 1, p);
    }
  }

  lemma ZeroMagnitude(v: uint64)
    ensures v % TWO_63 == 0 <==> Magnitude(v) == 0
  {
    hide Pow2;
    if v % TWO_63 == 0 {
      SameMagnitude(0, v);
    } else {
      MagnitudeLess(0, v);
    }
  }

  /** The code's comparison is the order of the values: false as soon as one side is not a
      number, both zeros equal. */
  lemma LessExactly(a: uint64, b: uint64)
    ensures FloatLess(a, b) <==> !NotANumber(a) && !NotANumber(b) && Scaled(a) < Scaled(b)
  {
    hide Magnitude, Exponent, Fraction;
    KeyRange(a);
    KeyRange(b);
    KeyOrder(a, b);
  }

  lemma KeyRange(v: uint64)
    ensures -INFINITY <= Key(v) <= INFINITY <==> !NotANumber(v)
  {
    hide Exponent, Fraction;
    Fields(v);
  }

  lemma KeyOrder(a: uint64, b: uint64)
    ensures Key(a) < Key(b) <==> Scaled(a) < Scaled(b)
  {
    hide Magnitude;
    ZeroMagnitude(a);
    ZeroMagnitude(b);
    if a % TWO_63 < b % TWO_63 {
      MagnitudeLess(a, b);
    } else if b % TWO_63 < a % TWO_63 {
      MagnitudeLess(b, a);
    } else {
      SameMagnitude(a, b);
    }
  }

  lemma SameMagnitude(a: uint64, b: uint64)
    requires a % TWO_63 == b % TWO_63
    ensures Magnitude(a) == Magnitude(b)
  {
    hide Exponent, Fraction;
    Fields(a);
    Fields(b);
  }

  /** The constants are the greatest and the least finite number. */
  lemma LargestFinite(v: uint64)
    ensures Finite(v) ==> !NotANumber(v) && Scaled(MIN_FLOAT) <= Scaled(v) <= Scaled(MAX_FLOAT)
    ensures Finite(MAX_FLOAT) && Finite(MIN_FLOAT)
  {
    hide Magnitude;
    Fields(v);
    KeyOrder(v, MAX_FLOAT);
    KeyOrder(MAX_FLOAT, v);
    KeyOrder(MIN_FLOAT, v);
    KeyOrder(v, MIN_FLOAT);
  }

  /** A finite number with the value of a constant is the constant. */
  lemma OnlyLargest(v: uint64)
    ensures Finite(v) && Scaled(v) == Scaled(MAX_FLOAT) ==> v == MAX_FLOAT
    ensures Finite(v) && Scaled(v) == Scaled(MIN_FLOAT) ==> v == MIN_FLOAT
  {
    hide Magnitude;
    Fields(v);
    KeyOrder(v, MAX_FLOAT);
    KeyOrder(MIN_FLOAT, v);
  }
}
