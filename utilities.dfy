/**
 * Small numeric and collection helpers: the de-duplicating append, the unit
 * interval test, clamping, and the two rounding helpers.
 */
module Utilities {

  /**
   * Specification of `append(removingPossibleDuplicate:)`: the element ends
   * up last, replacing an equal last element instead of repeating it.
   */
  function AppendedRemovingDuplicate<T(==)>(s: seq<T>, e: T): (r: seq<T>)
    ensures |r| > 0 && r[|r| - 1] == e
    ensures |r| == if |s| > 0 && s[|s| - 1] == e then |s| else |s| + 1
    ensures r[..|r| - 1] == if |s| > 0 && s[|s| - 1] == e then s[..|s| - 1] else s
  {
    if |s| > 0 && s[|s| - 1] == e then s else s + [e]
  }

  /**
   * The mutating append: drop the last element when it equals `e`, then
   * append `e` (the deferred append runs on both paths of the guard).
   */
  method AppendRemovingPossibleDuplicate<T(==)>(s: seq<T>, e: T) returns (r: seq<T>)
    ensures r == AppendedRemovingDuplicate(s, e)
  {
    r := s;
    if |r| > 0 && r[|r| - 1] == e {
      r := r[..|r| - 1];
    }
    r := r + [e];
  }

  /** Appending the same element twice is the same as appending it once. */
  lemma AppendIdempotent<T>(s: seq<T>, e: T)
    ensures AppendedRemovingDuplicate(AppendedRemovingDuplicate(s, e), e)
            == AppendedRemovingDuplicate(s, e)
  {
  }

  /** Every element before the last position is untouched. */
  lemma AppendKeepsEarlier<T>(s: seq<T>, e: T, i: nat)
    requires i < |s| - 1 || (i < |s| && s[|s| - 1] != e)
    ensures i < |AppendedRemovingDuplicate(s, e)|
    ensures AppendedRemovingDuplicate(s, e)[i] == s[i]
  {
  }

  /** `isUniform`: membership of the closed unit interval. */
  predicate IsUniform(v: real) {
    0.0 <= v <= 1.0
  }

  /**
   * `clamped(to: lo...hi)`.  Forming the closed range traps when lo > hi, so
   * that is the precondition.  Inside the range the value is returned as is;
   * otherwise `min(max(lo, v), hi)`.
   */
  function Clamped(v: real, lo: real, hi: real): (r: real)
    requires lo <= hi
    ensures lo <= r <= hi
    ensures lo <= v <= hi ==> r == v
    ensures v < lo ==> r == lo
    ensures v > hi ==> r == hi
  {
    if lo <= v <= hi then v else Min(Max(lo, v), hi)
  }

  /** Swift's `max(x, y)`: `y >= x ? y : x`. */
  function Max(x: real, y: real): (r: real)
    ensures r >= x && r >= y && (r == x || r == y)
  {
    if y >= x then y else x
  }

  /** Swift's `min(x, y)`: `y < x ? y : x`. */
  function Min(x: real, y: real): (r: real)
    ensures r <= x && r <= y && (r == x || r == y)
  {
    if y < x then y else x
  }

  /** Clamping twice is clamping once. */
  lemma ClampedIdempotent(v: real, lo: real, hi: real)
    requires lo <= hi
    ensures Clamped(Clamped(v, lo, hi), lo, hi) == Clamped(v, lo, hi)
  {
  }

  /** A value is uniform exactly when clamping it to 0...1 changes nothing. */
  lemma UniformIffClampFixes(v: real)
    ensures IsUniform(v) <==> Clamped(v, 0.0, 1.0) == v
  {
  }

  /**
   * `rounded()` / `Darwin.round`: to the nearest integer, halfway cases
   * away from zero.
   */
  function RoundHalfAway(v: real): (r: int)
    ensures v >= 0.0 ==> r >= 0 && v - 0.5 < r as real <= v + 0.5
    ensures v < 0.0 ==> r <= 0 && v - 0.5 <= r as real < v + 0.5
  {
    if v >= 0.0 then (v + 0.5).Floor else -((-v + 0.5).Floor)
  }

  /** An integral value rounds to itself. */
  lemma RoundIntegral(x: real, n: int)
    requires x == n as real
    ensures RoundHalfAway(x) == n
  {
  }

  /** `removedSlop`: zero stays zero, anything else is rounded to three decimals. */
  function RemovedSlop(v: real): (r: real)
    ensures v == 0.0 ==> r == 0.0
    ensures v != 0.0 ==> -0.0005 <= r - v <= 0.0005
  {
    if v == 0.0 then 0.0 else RoundHalfAway(v * 1000.0) as real / 1000.0
  }

  /** Rounding to three decimals a second time changes nothing. */
  lemma RemovedSlopIdempotent(v: real)
    ensures RemovedSlop(RemovedSlop(v)) == RemovedSlop(v)
  {
    if v != 0.0 {
      var n := RoundHalfAway(v * 1000.0);
      var r := n as real / 1000.0;
      RoundIntegral(r * 1000.0, n);
    }
  }

  /**
   * `trim(digitsPastDecimal:)` as written: the rounding factor is
   * `10 * places`, not `10^places`.  `places == 0` divides zero by zero.
   */
  function Trim(v: real, places: int): (r: real)
    requires places != 0
    ensures -0.5 <= (r - v) * (10.0 * places as real) <= 0.5
  {
    var factor := 10.0 * places as real;
    RoundHalfAway(v * factor) as real / factor
  }

  /** With two places, 0.26 comes out as 0.25: the factor is 20, not 100. */
  lemma TrimMisrounds()
    ensures Trim(0.26, 2) == 0.25
  {
    assert RoundHalfAway(0.26 * 20.0) == 5;
  }

  function Pow10(n: nat): (r: real)
    ensures r >= 1.0
  {
    TenToThe(n) as real
  }

  /** 10^n as an integer. */
  function TenToThe(n: nat): (r: int)
    ensures r >= 1
  {
    if n == 0 then 1 else 10 * TenToThe(n - 1)
  }

  /** The intended trim: round to `places` digits after the decimal point. */
  function TrimToDecimals(v: real, places: nat): real {
    RoundedBy(v, Pow10(places))
  }

  /** v rounded to the nearest multiple of 1/f. */
  function RoundedBy(v: real, f: real): real
    requires f > 0.0
  {
    RoundHalfAway(v * f) as real / f
  }

  /** The trimmed value is within half a unit of the last kept digit. */
  lemma TrimToDecimalsWithinHalfUnit(v: real, places: nat)
    ensures -0.5 <= (TrimToDecimals(v, places) - v) * Pow10(places) <= 0.5
  {
    RoundedWithinHalf(v, Pow10(places));
  }

  /** Rounding v·f and scaling back by f is off from v by at most half of 1/f. */
  lemma RoundedWithinHalf(v: real, f: real)
    requires f > 0.0
    ensures -0.5 <= (RoundedBy(v, f) - v) * f <= 0.5
  {
    HalfUnit(v, f, v * f, RoundHalfAway(v * f));
  }

  lemma HalfUnit(v: real, f: real, scaled: real, k: int)
    requires f > 0.0 && scaled == v * f && scaled - 0.5 <= k as real <= scaled + 0.5
    ensures -0.5 <= (k as real / f - v) * f <= 0.5
  {
    DivMul(k as real, f);
    assert (k as real / f - v) * f == (k as real / f) * f - v * f;
  }

  /** A value that already has `places` decimals is kept exactly. */
  lemma TrimToDecimalsKeeps(v: real, places: nat, n: int)
    requires v * Pow10(places) == n as real
    ensures TrimToDecimals(v, places) == v
  {
    RoundedKeeps(v, Pow10(places), n);
  }

  /** When v·f is the integer n, rounding it and scaling back by f gives v again. */
  lemma RoundedKeeps(v: real, f: real, n: int)
    requires f > 0.0 && v * f == n as real
    ensures RoundedBy(v, f) == v
  {
    RoundIntegral(v * f, n);
    MulDiv(v, f, n as real);
  }

  lemma MulDiv(v: real, f: real, x: real)
    requires f != 0.0 && v * f == x
    ensures x / f == v
  {
  }

  lemma DivMul(a: real, f: real)
    requires f != 0.0
    ensures (a / f) * f == a
  {
  }

  /** In particular 0.26 keeps both of its digits. */
  lemma TrimToDecimalsExample()
    ensures TrimToDecimals(0.26, 2) == 0.26
  {
    assert Pow10(2) == 100.0;
    TrimToDecimalsKeeps(0.26, 2, 26);
  }

  /** Swift's `Int` division: truncates toward zero, and traps on a zero divisor. */
  function SwiftQuot(a: int, b: int): (q: int)
    requires b != 0
    ensures a >= 0 && b > 0 ==> q == a / b
    ensures a >= 0 && b < 0 ==> q == -(a / -b)
  {
    if (a >= 0) == (b > 0) then Abs(a) / Abs(b) else -(Abs(a) / Abs(b))
  }

  /** Swift's `Int` remainder: takes the sign of the dividend. */
  function SwiftRem(a: int, b: int): (r: int)
    requires b != 0
    ensures a == SwiftQuot(a, b) * b + r
    ensures a >= 0 ==> 0 <= r < Abs(b)
    ensures a < 0 ==> 0 - Abs(b) < r <= 0
  {
    a - SwiftQuot(a, b) * b
  }

  function Abs(n: int): (r: int)
    ensures r >= 0 && (r == n || r == -n)
  {
    if n < 0 then -n else n
  }

  /** `abs` on a floating-point value: its magnitude. */
  function AbsReal(v: real): (r: real)
    ensures r >= 0.0 && (r == v || r == -v)
  {
    if v < 0.0 then -v else v
  }

  /** Regrouping an append, for carrying `done + rest == all` invariants across a step. */
  lemma ConcatAssociative<T>(a: seq<T>, b: seq<T>, c: seq<T>)
    ensures (a + b) + c == a + (b + c)
  {
  }
}
