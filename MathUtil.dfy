/**
 * The tolerances and fuzzy comparison of `MathUtil`, together with the few
 * pieces of Kotlin/JVM number semantics the rest of the model needs written
 * out: 32-bit `Int` wrap-around, `Double.toInt()`, and the host's
 * transcendental functions (passed in as a `Trig` value).
 */
module MathUtil {

  /** Tolerance of every fuzzy comparison. */
  const EPSILON: real := 0.000001

  /** Below this magnitude a divisor or an angle counts as zero. */
  const ZERO_TOLERANCE: real := 0.000000000001

  function Abs(a: real): (r: real)
    ensures r >= 0.0 && (r == a || r == -a)
  {
    if a < 0.0 then -a else a
  }

  function Max(a: int, b: int): int { if a < b then b else a }

  function Min(a: int, b: int): int { if a < b then a else b }

  /** `MathUtil.fuzzyEquals`: the two values are at most EPSILON apart, boundary included. */
  predicate FuzzyEquals(a: real, b: real)
  {
    Abs(a - b) <= EPSILON
  }

  lemma FuzzyEqualsMeaning(a: real, b: real)
    ensures FuzzyEquals(a, b) <==> a - EPSILON <= b <= a + EPSILON
    ensures FuzzyEquals(a, b) <==> b - EPSILON <= a <= b + EPSILON
  {
  }

  lemma FuzzyEqualsReflexive(a: real)
    ensures FuzzyEquals(a, a)
  {
  }

  lemma FuzzyEqualsSymmetric(a: real, b: real)
    ensures FuzzyEquals(a, b) <==> FuzzyEquals(b, a)
  {
  }

  lemma TolerancesOrdered()
    ensures 0.0 < ZERO_TOLERANCE < EPSILON
  {
  }

  // ---------------------------------------------------------------------
  // Kotlin `Int`

  const INT_MIN: int := -0x8000_0000
  const INT_MAX: int := 0x7FFF_FFFF

  type Int32 = x: int | INT_MIN <= x <= INT_MAX

  /** Two's-complement wrap-around of a 32-bit `Int` operation. */
  function Wrap32(x: int): (r: Int32)
    ensures (r - x) % 0x1_0000_0000 == 0
    ensures INT_MIN <= x <= INT_MAX ==> r == x
  {
    (x - INT_MIN) % 0x1_0000_0000 + INT_MIN
  }

  /** Truncation toward zero (not floor: -0.5 truncates to 0, not -1). */
  function Trunc(d: real): int
  {
    if d >= 0.0 then d.Floor else -((-d).Floor)
  }

  lemma {:induction false} TruncTowardZero(d: real)
    ensures d >= 0.0 ==> 0 <= Trunc(d) && Trunc(d) as real <= d < Trunc(d) as real + 1.0
    ensures d < 0.0 ==> Trunc(d) <= 0 && d <= Trunc(d) as real < d + 1.0
    ensures Trunc(-d) == -Trunc(d)
  {
    if d == 0.0 {
      assert -d == 0.0;
    } else if d > 0.0 {
      assert -(-d) == d;
    } else {
      assert -(-d) == d;
    }
  }

  /** `Double.toInt()`: truncation toward zero, saturating at the `Int` bounds. */
  function ToInt(d: real): (r: Int32)
    ensures INT_MIN as real <= d <= INT_MAX as real ==> r == Trunc(d)
    ensures 0.0 <= d ==> 0 <= r
  {
    if d >= INT_MAX as real then INT_MAX
    else if d <= INT_MIN as real then INT_MIN
    else Trunc(d)
  }

  /**
   * IEEE division where the divisor may be exactly zero. The JVM then yields
   * an infinity or NaN; this model has no such values and yields 0.
   */
  function Div(a: real, b: real): (r: real)
    ensures b != 0.0 ==> r * b == a
  {
    if b == 0.0 then 0.0 else a / b
  }

  // ---------------------------------------------------------------------
  // The host's transcendental functions

  /** `kotlin.math` functions the source calls; they are not modelled, only passed in. */
  datatype Trig = Trig(
    sin: real -> real,
    cos: real -> real,
    tan: real -> real,
    acos: real -> real,
    sqrt: real -> real)

  /** Facts the real functions satisfy and the model relies on. */
  ghost predicate Lawful(m: Trig)
  {
    && (forall a :: a >= 0.0 ==> m.sqrt(a) >= 0.0 && m.sqrt(a) * m.sqrt(a) == a)
    && (forall a :: m.sin(a) * m.sin(a) + m.cos(a) * m.cos(a) == 1.0)
    && m.sin(0.0) == 0.0
    && m.cos(0.0) == 1.0
    && (forall c :: -1.0 < c < 1.0 ==> m.sin(m.acos(c)) > 0.0)
  }

  lemma SqrtPositive(m: Trig, a: real)
    requires Lawful(m)
    requires a > 0.0
    ensures m.sqrt(a) > 0.0
  {
  }
}
