/**
 * Exact real arithmetic stands for the source's doubles. The transcendental
 * functions of java.lang.Math are left uninterpreted: they are the fields of a
 * record that every member using them takes as a parameter, and the laws that
 * the proofs rely on are stated once, in Lawful.
 */
module RealMath {

  datatype Transcendental = Transcendental(
    sqrt: real -> real,
    sin: real -> real,
    cos: real -> real,
    log: real -> real,
    pow: (real, real) -> real)

  /**
   * The product of two reals. Products whose factors a proof rewrites are
   * written through this function, so that equal factors give equal products
   * by congruence rather than by non-linear arithmetic.
   */
  function Times(a: real, b: real): real {
    a * b
  }

  /** x squared, Math.pow(x, 2). */
  function Sq(x: real): real {
    Times(x, x)
  }

  lemma TimesPositive(a: real, b: real)
    requires (0.0 < a && 0.0 < b) || (a < 0.0 && b < 0.0)
    ensures Times(a, b) > 0.0
  {
    if a < 0.0 {
      assert a * b == (-a) * (-b);
    }
  }

  /** A product of non-negative factors is non-negative. */
  lemma TimesNonNegative(a: real, b: real)
    requires 0.0 <= a && 0.0 <= b
    ensures 0.0 <= Times(a, b)
  {
    if a > 0.0 && b > 0.0 {
      TimesPositive(a, b);
    }
  }

  /** Multiplying by a proportion in [0, 1] moves a real towards zero. */
  lemma TimesProportion(p: real, d: real)
    requires 0.0 <= p <= 1.0
    ensures 0.0 <= d ==> 0.0 <= Times(p, d) <= d
    ensures d <= 0.0 ==> d <= Times(p, d) <= 0.0
  {
    assert Times(1.0 - p, d) == d - Times(p, d);
    if 0.0 <= d {
      TimesNonNegative(p, d);
      TimesNonNegative(1.0 - p, d);
    } else {
      TimesNonNegative(p, -d);
      TimesNonNegative(1.0 - p, -d);
      assert Times(p, -d) == -Times(p, d);
      assert Times(1.0 - p, -d) == Times(p, d) - d;
    }
  }

  /** A square is non-negative, and positive unless its root is zero. */
  lemma SqSign(x: real)
    ensures Sq(x) >= 0.0
    ensures x != 0.0 ==> Sq(x) > 0.0
  {
    if x != 0.0 {
      TimesPositive(x, x);
    }
  }

  /** Squaring is strictly increasing on the non-negative reals. */
  lemma SqStrictlyIncreasing(s: real, t: real)
    requires 0.0 <= s < t
    ensures Sq(s) < Sq(t)
  {
    TimesPositive(t - s, t + s);
    assert Times(t - s, t + s) == Sq(t) - Sq(s);
  }

  /** Two non-negative reals with the same square are equal. */
  lemma SqInjective(s: real, t: real)
    requires 0.0 <= s && 0.0 <= t && Sq(s) == Sq(t)
    ensures s == t
  {
    if s < t {
      SqStrictlyIncreasing(s, t);
    } else if t < s {
      SqStrictlyIncreasing(t, s);
    }
  }

  /** Math.sqrt gives the non-negative square root. */
  ghost predicate SqrtLaw(sqrt: real -> real) {
    forall x :: 0.0 <= x ==> 0.0 <= sqrt(x) && Sq(sqrt(x)) == x
  }

  /** Math.log is zero at 1 and strictly increasing on the positive reals. */
  ghost predicate LogLaw(log: real -> real) {
    && log(1.0) == 0.0
    && forall x, y :: 0.0 < x < y ==> log(x) < log(y)
  }

  /** Math.sin and Math.cos lie on the unit circle. */
  ghost predicate TrigLaw(sin: real -> real, cos: real -> real) {
    forall t :: Sq(sin(t)) + Sq(cos(t)) == 1.0
  }

  /** The sRGB exponent used by Color.sRGBEncode. */
  const SRGB_EXPONENT: real := 1.0 / 2.4

  /**
   * Math.pow with a positive exponent is non-negative and non-decreasing in its
   * base on [0, 1], fixes 1, and the sRGB power curve at the threshold of
   * IEC 61966-2-1 is above 0.0522 (its value is about 0.0905).
   */
  ghost predicate PowLaw(pow: (real, real) -> real) {
    && (forall x, y, e :: 0.0 <= x <= y && 0.0 < e ==> 0.0 <= pow(x, e) <= pow(y, e))
    && (forall e :: 0.0 < e ==> pow(1.0, e) == 1.0)
    && pow(0.0031308, SRGB_EXPONENT) >= 0.0522
  }

  ghost predicate Lawful(m: Transcendental) {
    SqrtLaw(m.sqrt) && LogLaw(m.log) && TrigLaw(m.sin, m.cos) && PowLaw(m.pow)
  }

  /** The source's (int) cast of a double: truncation toward zero. */
  function Trunc(x: real): (r: int)
    ensures 0.0 <= x ==> r as real <= x < r as real + 1.0
    ensures x <= 0.0 ==> r as real - 1.0 < x <= r as real
  {
    if x >= 0.0 then x.Floor else -((-x).Floor)
  }

  /** Math.ceil. */
  function Ceil(x: real): (r: int)
    ensures x <= r as real < x + 1.0
  {
    -((-x).Floor)
  }

  /** The source's 32-bit int arithmetic: reduction to [-2^31, 2^31). */
  function Int32(x: int): (r: int)
    ensures -0x8000_0000 <= r < 0x8000_0000
    ensures -0x8000_0000 <= x < 0x8000_0000 ==> r == x
    ensures (r - x) % 0x1_0000_0000 == 0
  {
    var w := x % 0x1_0000_0000;
    if w >= 0x8000_0000 then w - 0x1_0000_0000 else w
  }

  function Pow2(n: nat): (r: nat)
    ensures r >= 1
  {
    if n == 0 then 1 else 2 * Pow2(n - 1)
  }
}
