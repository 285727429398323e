/**
 * The timing revision of the cubic Bézier solver: per-axis monomial
 * coefficients and `pointOnCurve`, which clamps times outside the open unit
 * interval, plus the clamping branch of `progress(at:)`.
 */
module TimingSolver {
  import opened Vectors
  import opened BezierCurves
  import opened Progresses
  import Utilities

  datatype Axis = VerticalAxis | HorizontalAxis

  /** Coefficients of `a·t³ + b·t² + c·t + d`. */
  datatype Coefficients = Coefficients(a: real, b: real, c: real, d: real) {
    /** `all`: the coefficients from the cubic term down. */
    function All(): seq<real> { [a, b, c, d] }
  }

  function Coordinate(p: Point, axis: Axis): real {
    if axis == HorizontalAxis then p.x else p.y
  }

  /**
   * `coefficients(for:)`: the Bernstein form expanded in powers of t.  The
   * constant term is the start point and the coefficients sum to the end point.
   */
  function CoefficientsFor(curve: CubicBezierCurve, axis: Axis): (k: Coefficients)
    ensures k.d == Coordinate(curve.c0, axis)
    ensures k.a + k.b + k.c + k.d == Coordinate(curve.c3, axis)
  {
    var c0 := Coordinate(curve.c0, axis);
    var c1 := Coordinate(curve.c1, axis);
    var c2 := Coordinate(curve.c2, axis);
    var c3 := Coordinate(curve.c3, axis);
    Coefficients(c3 - 3.0 * c2 + 3.0 * c1 - c0, 3.0 * c2 - 6.0 * c1 + 3.0 * c0, 3.0 * c1 - 3.0 * c0, c0)
  }

  function Pow(t: real, n: nat): real {
    if n == 0 then 1.0 else t * Pow(t, n - 1)
  }

  /** The monomial form `Σ kᵢ·t^(3-i)` that `pointOnCurve` accumulates. */
  function Polynomial(k: Coefficients, t: real): real {
    k.a * Pow(t, 3) + k.b * Pow(t, 2) + k.c * Pow(t, 1) + k.d * Pow(t, 0)
  }

  /** The Bernstein form of a cubic Bézier coordinate. */
  function Bernstein(p0: real, p1: real, p2: real, p3: real, t: real): real {
    var u := 1.0 - t;
    u * u * u * p0 + 3.0 * t * u * u * p1 + 3.0 * t * t * u * p2 + t * t * t * p3
  }

  /** The coefficients describe the same cubic as the control points, for every real t. */
  lemma PolynomialIsBernstein(curve: CubicBezierCurve, axis: Axis, t: real)
    ensures Polynomial(CoefficientsFor(curve, axis), t)
         == Bernstein(Coordinate(curve.c0, axis), Coordinate(curve.c1, axis),
                      Coordinate(curve.c2, axis), Coordinate(curve.c3, axis), t)
  {
    PowSmall(t);
  }

  lemma PowSmall(t: real)
    ensures Pow(t, 0) == 1.0 && Pow(t, 1) == t && Pow(t, 2) == t * t && Pow(t, 3) == t * t * t
  {
    assert Pow(t, 1) == t * Pow(t, 0);
    assert Pow(t, 2) == t * Pow(t, 1);
    assert Pow(t, 3) == t * Pow(t, 2);
  }

  /** Running the whole accumulation gives the monomial form. */
  lemma PartialSumComplete(k: Coefficients, t: real)
    ensures PartialSum(k.All(), t, 4) == Polynomial(k, t)
  {
    var cs := k.All();
    assert PartialSum(cs, t, 1) == k.a * Pow(t, 3);
    assert PartialSum(cs, t, 2) == k.a * Pow(t, 3) + k.b * Pow(t, 2);
    assert PartialSum(cs, t, 3) == k.a * Pow(t, 3) + k.b * Pow(t, 2) + k.c * Pow(t, 1);
  }

  /** The first `n` terms of the accumulation, cubic term first. */
  function PartialSum(coefficients: seq<real>, t: real, n: nat): real
    requires n <= |coefficients| <= 4
  {
    if n == 0 then 0.0
    else PartialSum(coefficients, t, n - 1) + coefficients[n - 1] * Pow(t, 4 - n)
  }

  /** What `pointOnCurve` returns: the clamped time on both axes outside (0, 1), the cubic inside. */
  function Evaluated(curve: CubicBezierCurve, time: real): Progress {
    if !(time > 0.0 && time < 1.0) then
      var value := Utilities.Clamped(time, 0.0, 1.0);
      Progress(value, value)
    else
      Progress(Polynomial(CoefficientsFor(curve, HorizontalAxis), time),
               Polynomial(CoefficientsFor(curve, VerticalAxis), time))
  }

  /**
   * `pointOnCurve(for:)`: outside (0, 1) the clamped time; inside, both axes
   * accumulated over the zipped coefficient lists with a falling exponent.
   */
  method PointOnCurve(curve: CubicBezierCurve, time: real) returns (p: Progress)
    ensures p == Evaluated(curve, time)
  {
    if !(time > 0.0 && time < 1.0) {
      var value := Utilities.Clamped(time, 0.0, 1.0);
      return Progress(value, value);
    }
    var xs := CoefficientsFor(curve, HorizontalAxis).All();
    var ys := CoefficientsFor(curve, VerticalAxis).All();
    var relativeTime, relativeValue := 0.0, 0.0;
    var index := 3;
    for i := 0 to 4
      invariant index == 3 - i
      invariant relativeTime == PartialSum(xs, time, i)
      invariant relativeValue == PartialSum(ys, time, i)
    {
      var tValue := Pow(time, index);
      relativeTime := relativeTime + xs[i] * tValue;
      relativeValue := relativeValue + ys[i] * tValue;
      index := index - 1;
    }
    PartialSumComplete(CoefficientsFor(curve, HorizontalAxis), time);
    PartialSumComplete(CoefficientsFor(curve, VerticalAxis), time);
    p := Progress(relativeTime, relativeValue);
  }

  /** At or before the start the point is (0,0), at or after the end (1,1), whatever the controls. */
  lemma EvaluatedClamps(curve: CubicBezierCurve, time: real)
    ensures time <= 0.0 ==> Evaluated(curve, time) == Start()
    ensures time >= 1.0 ==> Evaluated(curve, time) == End()
  {
  }

  /** Inside (0, 1) both coordinates are the Bernstein cubic of the control points. */
  lemma EvaluatedInside(curve: CubicBezierCurve, time: real)
    requires 0.0 < time < 1.0
    ensures Evaluated(curve, time).relativeTime
         == Bernstein(curve.c0.x, curve.c1.x, curve.c2.x, curve.c3.x, time)
    ensures Evaluated(curve, time).relativeValue
         == Bernstein(curve.c0.y, curve.c1.y, curve.c2.y, curve.c3.y, time)
  {
    PolynomialIsBernstein(curve, HorizontalAxis, time);
    PolynomialIsBernstein(curve, VerticalAxis, time);
  }

  /** A curve whose control points all lie on the diagonal maps every time to itself as value. */
  lemma DiagonalCurveIsIdentityLike(curve: CubicBezierCurve, time: real)
    requires curve.c0.x == curve.c0.y && curve.c1.x == curve.c1.y
    requires curve.c2.x == curve.c2.y && curve.c3.x == curve.c3.y
    ensures Evaluated(curve, time).relativeTime == Evaluated(curve, time).relativeValue
  {
  }

  /**
   * `progress(at:)`.  Outside (0, 1) it is `pointOnCurve` of the clamped
   * time; inside it solves the cubic for the aligned root, which is not
   * modelled and comes in as `interior`.
   */
  function ProgressAt(curve: CubicBezierCurve, time: real, interior: real -> Progress): (r: Progress)
    ensures !(0.0 < time < 1.0) ==> r == Evaluated(curve, Utilities.Clamped(time, 0.0, 1.0))
    ensures 0.0 < time < 1.0 ==> r == interior(time)
  {
    if !(time > 0.0 && time < 1.0) then Evaluated(curve, Utilities.Clamped(time, 0.0, 1.0))
    else interior(time)
  }

  /** The clamp branch of `progress(at:)` yields exactly `Progress.start()` or `Progress.end()`. */
  lemma ProgressAtOutside(curve: CubicBezierCurve, time: real, interior: real -> Progress)
    ensures time <= 0.0 ==> ProgressAt(curve, time, interior) == Start()
    ensures time >= 1.0 ==> ProgressAt(curve, time, interior) == End()
  {
    EvaluatedClamps(curve, Utilities.Clamped(time, 0.0, 1.0));
  }

  /** `translatedBy(dx:dy:)`, with `dy` defaulting to 0. */
  function TranslatedBy(p: Point, dx: real, dy: real := 0.0): (r: Point)
    ensures r == Add(p, Point(dx, dy))
  {
    Point(p.x + dx, p.y + dy)
  }

  /** Translating back by the opposite offsets restores the point; the default moves only x. */
  lemma TranslatedByInverse(p: Point, dx: real, dy: real)
    ensures TranslatedBy(TranslatedBy(p, dx, dy), -dx, -dy) == p
    ensures TranslatedBy(p, dx).y == p.y
  {
  }
}
