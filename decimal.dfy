/**
 * Exact decimal numbers as java.math.BigDecimal represents them: an unscaled
 * integer and a scale, with value unscaled / 10^scale. Only the operations the
 * article classes use are modelled, each with the result scale BigDecimal gives
 * it, and rounding is always RoundingMode.HALF_UP.
 */
module Decimal {

  function Abs(x: int): nat { if x < 0 then -x else x }

  function Max(a: nat, b: nat): nat { if a < b then b else a }

  function Pow10(n: nat): (r: nat)
    ensures r >= 1
  {
    if n == 0 then 1 else 10 * Pow10(n - 1)
  }

  lemma {:induction false} Pow10Add(m: nat, n: nat)
    ensures Pow10(m + n) == Pow10(m) * Pow10(n)
  {
    if m > 0 {
      Pow10Add(m - 1, n);
      assert Pow10(m + n) == 10 * Pow10(m - 1 + n);
      assert 10 * (Pow10(m - 1) * Pow10(n)) == (10 * Pow10(m - 1)) * Pow10(n);
    }
  }

  // Small arithmetic facts, kept apart so that each is proved on its own.

  lemma RealDivCancel(x: real, p: real, q: real)
    requires p > 0.0 && q > 0.0
    ensures (x * q) / (p * q) == x / p
  {}

  lemma RealDivMul(x: real, y: real, p: real, q: real)
    requires p > 0.0 && q > 0.0
    ensures (x * y) / (p * q) == (x / p) * (y / q)
  {}

  lemma RealCastMul(a: int, b: int)
    ensures (a * b) as real == a as real * b as real
  {}

  lemma MulSubDistr(a: int, b: int, d: int)
    ensures (a - b) * d == a * d - b * d
  {}

  lemma MulBelowOne(t: int, d: int)
    requires d > 0 && -d < t * d < d
    ensures t == 0
  {}

  lemma CancelPositive(x: int, y: int, p: int)
    requires p > 0 && x * p < y * p
    ensures x < y
  {}

  // ---------------------------------------------------------------------------
  // Integer division rounded HALF_UP
  // ---------------------------------------------------------------------------

  /**
   * r is n / d rounded with RoundingMode.HALF_UP: r * d lies within half of d
   * of n, and when it lies exactly half of d away, r is the candidate farther
   * from zero (above n for n >= 0, below n for n < 0).
   */
  predicate IsHalfUpQuotient(n: int, d: int, r: int)
  {
    d > 0 &&
    if n >= 0 then -d <= 2 * (n - r * d) < d else -d < 2 * (n - r * d) <= d
  }

  /** The half-up quotient of a non-negative n. */
  lemma HalfUpOfNonNegative(n: int, d: int, q: int)
    requires n >= 0 && d > 0 && q == (2 * n + d) / (2 * d)
    ensures q >= 0
    ensures -d <= 2 * (n - q * d) < d
  {
    var m := (2 * n + d) % (2 * d);
    assert 2 * n + d == (2 * d) * q + m && 0 <= m < 2 * d;
    assert 2 * (n - q * d) == m - d;
  }

  /** n / d rounded to an integer with RoundingMode.HALF_UP. */
  function RoundHalfUp(n: int, d: int): (r: int)
    requires d > 0
    ensures IsHalfUpQuotient(n, d, r)
    ensures 2 * Abs(n - r * d) <= d
    ensures n >= 0 ==> r >= 0
    ensures n <= 0 ==> r <= 0
  {
    if n >= 0 then
      var q := (2 * n + d) / (2 * d);
      HalfUpOfNonNegative(n, d, q);
      q
    else
      var q := (2 * -n + d) / (2 * d);
      HalfUpOfNonNegative(-n, d, q);
      assert (-q) * d == -(q * d);
      -q
  }

  /** IsHalfUpQuotient determines its quotient: RoundHalfUp is the only one. */
  lemma RoundHalfUpUnique(n: int, d: int, r: int)
    requires IsHalfUpQuotient(n, d, r)
    ensures r == RoundHalfUp(n, d)
  {
    var q := RoundHalfUp(n, d);
    MulSubDistr(r, q, d);
    MulBelowOne(r - q, d);
  }

  /** HALF_UP division is exact whenever d divides n. */
  lemma RoundHalfUpExact(k: int, d: int)
    requires d > 0
    ensures RoundHalfUp(k * d, d) == k
  {
    RoundHalfUpUnique(k * d, d, k);
  }

  lemma MulKeepsOrder(x: int, y: int, p: int)
    requires p > 0
    ensures x <= y ==> x * p <= y * p
    ensures x < y ==> x * p < y * p
  {}

  /** The HALF_UP interval survives scaling dividend and divisor by the same positive factor. */
  lemma HalfUpQuotientScaled(n: int, d: int, q: int, p: int)
    requires IsHalfUpQuotient(n, d, q) && p > 0
    ensures IsHalfUpQuotient(n * p, d * p, q)
  {
    var e2 := 2 * (n - q * d);
    MulKeepsOrder(0, d, p);
    assert 2 * (n * p - q * (d * p)) == e2 * p by {
      assert q * (d * p) == (q * d) * p;
      MulSubDistr(n, q * d, p);
    }
    assert (-d) * p == -(d * p);
    MulKeepsOrder(-d, e2, p);
    MulKeepsOrder(e2, d, p);
    MulKeepsOrder(0, n, p);
    MulKeepsOrder(n, 0, p);
  }

  /** Scaling dividend and divisor by the same positive factor does not change the result. */
  lemma RoundHalfUpScaled(n: int, d: int, p: int)
    requires d > 0 && p > 0
    ensures d * p > 0
    ensures RoundHalfUp(n * p, d * p) == RoundHalfUp(n, d)
  {
    var q := RoundHalfUp(n, d);
    HalfUpQuotientScaled(n, d, q, p);
    RoundHalfUpUnique(n * p, d * p, q);
  }

  // ---------------------------------------------------------------------------
  // Decimal numbers
  // ---------------------------------------------------------------------------

  datatype Dec = Dec(unscaled: int, scale: nat)

  /** The number a decimal stands for. */
  function Value(x: Dec): real
  {
    x.unscaled as real / Pow10(x.scale) as real
  }

  /** `BigDecimal.valueOf(long)` and `new BigDecimal(int)`: scale 0. */
  function FromInt(n: int): (r: Dec)
    ensures r.scale == 0 && Value(r) == n as real
  {
    Dec(n, 0)
  }

  /** `BigDecimal.ZERO`. */
  const Zero: Dec := Dec(0, 0)

  /** Appending k zero digits to the unscaled value leaves the value alone. */
  lemma ValueOfWidened(u: int, s: nat, k: nat)
    ensures Value(Dec(u * Pow10(k), s + k)) == Value(Dec(u, s))
  {
    Pow10Add(s, k);
    RealCastMul(Pow10(s), Pow10(k));
    RealCastMul(u, Pow10(k));
    RealDivCancel(u as real, Pow10(s) as real, Pow10(k) as real);
  }

  /** The unscaled value of x written at a scale s no smaller than its own. */
  function Widen(x: Dec, s: nat): (u: int)
    requires s >= x.scale
    ensures Value(Dec(u, s)) == Value(x)
  {
    ValueOfWidened(x.unscaled, x.scale, s - x.scale);
    x.unscaled * Pow10(s - x.scale)
  }

  lemma ValueOfSum(u: int, v: int, s: nat)
    ensures Value(Dec(u + v, s)) == Value(Dec(u, s)) + Value(Dec(v, s))
    ensures Value(Dec(u - v, s)) == Value(Dec(u, s)) - Value(Dec(v, s))
  {}

  /** `compareTo(BigDecimal.ZERO) < 0`. */
  predicate IsNegative(x: Dec)
    ensures IsNegative(x) <==> Value(x) < 0.0
  {
    x.unscaled < 0
  }

  /** `a.add(b)`: exact, at the larger of the two scales. */
  function Add(a: Dec, b: Dec): (r: Dec)
    ensures r.scale == Max(a.scale, b.scale)
    ensures Value(r) == Value(a) + Value(b)
  {
    var s := Max(a.scale, b.scale);
    ValueOfSum(Widen(a, s), Widen(b, s), s);
    Dec(Widen(a, s) + Widen(b, s), s)
  }

  /** At equal scales addition adds the unscaled values. */
  lemma AddSameScale(a: Dec, b: Dec)
    requires a.scale == b.scale
    ensures Add(a, b) == Dec(a.unscaled + b.unscaled, a.scale)
  {
    assert Pow10(0) == 1;
  }

  /** `BigDecimal.ZERO.add(b)` is b itself, scale included. */
  lemma ZeroAddIdentity(b: Dec)
    ensures Add(Zero, b) == b
  {
    assert Pow10(0) == 1;
  }

  /** `a.subtract(b)`: exact, at the larger of the two scales. */
  function Sub(a: Dec, b: Dec): (r: Dec)
    ensures r.scale == Max(a.scale, b.scale)
    ensures Value(r) == Value(a) - Value(b)
  {
    var s := Max(a.scale, b.scale);
    ValueOfSum(Widen(a, s), Widen(b, s), s);
    Dec(Widen(a, s) - Widen(b, s), s)
  }

  /** Subtracting a zero leaves a, written at the larger scale. */
  lemma SubZero(a: Dec, t: nat)
    ensures Sub(a, Dec(0, t)) == Dec(Widen(a, Max(a.scale, t)), Max(a.scale, t))
  {
    assert Widen(Dec(0, t), Max(a.scale, t)) == 0;
  }

  /** `a.multiply(b)`: exact, at the sum of the scales. */
  function Mul(a: Dec, b: Dec): (r: Dec)
    ensures r.scale == a.scale + b.scale
    ensures Value(r) == Value(a) * Value(b)
  {
    Pow10Add(a.scale, b.scale);
    RealCastMul(Pow10(a.scale), Pow10(b.scale));
    RealCastMul(a.unscaled, b.unscaled);
    RealDivMul(a.unscaled as real, b.unscaled as real, Pow10(a.scale) as real, Pow10(b.scale) as real);
    Dec(a.unscaled * b.unscaled, a.scale + b.scale)
  }

  /**
   * `x.setScale(s, RoundingMode.HALF_UP)`: exact when s keeps every digit,
   * otherwise the half-up rounding of x to s fractional digits.
   */
  function SetScale(x: Dec, s: nat): (r: Dec)
    ensures r.scale == s
    ensures s >= x.scale ==> Value(r) == Value(x)
    ensures s < x.scale ==> IsHalfUpQuotient(x.unscaled, Pow10(x.scale - s), r.unscaled)
  {
    if s >= x.scale then Dec(Widen(x, s), s)
    else Dec(RoundHalfUp(x.unscaled, Pow10(x.scale - s)), s)
  }

  /** The dividend and divisor of `a.divide(b, s, ...)` as integers, with a positive divisor. */
  function QuotientTerms(a: Dec, b: Dec, s: nat): (nd: (int, int))
    requires b.unscaled != 0
    ensures nd.1 > 0
  {
    var n, d := a.unscaled * Pow10(b.scale + s), b.unscaled * Pow10(a.scale);
    if b.unscaled > 0 then (n, d) else (-n, -d)
  }

  /**
   * `a.divide(b, s, RoundingMode.HALF_UP)`: the quotient a / b rounded half-up
   * to scale s. At scale s the exact quotient is n / d with
   * n = a.unscaled * 10^(b.scale + s) and d = b.unscaled * 10^a.scale.
   * A zero divisor throws ArithmeticException, which callers model.
   */
  function DivideToScale(a: Dec, b: Dec, s: nat): (r: Dec)
    requires b.unscaled != 0
    ensures r.scale == s
    ensures IsHalfUpQuotient(QuotientTerms(a, b, s).0, QuotientTerms(a, b, s).1, r.unscaled)
  {
    var nd := QuotientTerms(a, b, s);
    Dec(RoundHalfUp(nd.0, nd.1), s)
  }

  /** `a.divide(b, RoundingMode.HALF_UP)`: the same at the dividend's own scale. */
  function Divide(a: Dec, b: Dec): (r: Dec)
    requires b.unscaled != 0
    ensures r.scale == a.scale
    ensures IsHalfUpQuotient(QuotientTerms(a, b, a.scale).0, QuotientTerms(a, b, a.scale).1, r.unscaled)
  {
    DivideToScale(a, b, a.scale)
  }

  /** Dividing by a positive integer n at the dividend's scale rounds unscaled / n. */
  lemma DivideByCount(a: Dec, n: int)
    requires n > 0
    ensures Divide(a, FromInt(n)) == Dec(RoundHalfUp(a.unscaled, n), a.scale)
  {
    var p := Pow10(a.scale);
    assert QuotientTerms(a, FromInt(n), a.scale) == (a.unscaled * p, n * p);
    RoundHalfUpScaled(a.unscaled, n, p);
    RoundHalfUpUnique(a.unscaled * p, n * p, Divide(a, FromInt(n)).unscaled);
  }

  /** An integer divided by an integer at a scale s is the half-up quotient of n * 10^s by d. */
  lemma DivideIntsToScale(n: int, d: int, s: nat)
    requires d > 0
    ensures DivideToScale(FromInt(n), FromInt(d), s) == Dec(RoundHalfUp(n * Pow10(s), d), s)
  {
    var r := DivideToScale(FromInt(n), FromInt(d), s);
    assert QuotientTerms(FromInt(n), FromInt(d), s) == (n * Pow10(s), d);
    RoundHalfUpUnique(n * Pow10(s), d, r.unscaled);
  }
}
