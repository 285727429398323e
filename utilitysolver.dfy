/**
 * The utilities revision of the cubic Bézier solver.  Its coefficients and
 * `translatedBy` are the same formulas as the timing revision's; its
 * `pointOnCurve` has no clamp and evaluates the cubic at every real time.
 */
module UtilitySolver {
  import opened Vectors
  import opened BezierCurves
  import opened Progresses
  import opened TimingSolver

  /** What the extrapolating `pointOnCurve` returns. */
  function Extrapolated(curve: CubicBezierCurve, time: real): Progress {
    Progress(Polynomial(CoefficientsFor(curve, HorizontalAxis), time),
             Polynomial(CoefficientsFor(curve, VerticalAxis), time))
  }

  /** `pointOnCurve(for:)`: the same accumulation loop, for every time. */
  method PointOnCurve(curve: CubicBezierCurve, time: real) returns (p: Progress)
    ensures p == Extrapolated(curve, time)
  {
    var xs := CoefficientsFor(curve, HorizontalAxis).All();
    var ys := CoefficientsFor(curve, VerticalAxis).All();
    var relativeTime, relativeValue := 0.0, 0.0;
    var index := 3;
    for i := 0 to 4
      invariant index == 3 - i
      invariant relativeTime == PartialSum(xs, time, i)
      invariant relativeValue == PartialSum(ys, time, i)
    {
      var tValue := Pow(time, index);
      relativeTime := relativeTime + xs[i] * tValue;
      relativeValue := relativeValue + ys[i] * tValue;
      index := index - 1;
    }
    PartialSumComplete(CoefficientsFor(curve, HorizontalAxis), time);
    PartialSumComplete(CoefficientsFor(curve, VerticalAxis), time);
    p := Progress(relativeTime, relativeValue);
  }

  /** Time 0 gives the start point and time 1 the end point, from the coefficient sums. */
  lemma ExtrapolatedEndpoints(curve: CubicBezierCurve)
    ensures Extrapolated(curve, 0.0) == Progress(curve.c0.x, curve.c0.y)
    ensures Extrapolated(curve, 1.0) == Progress(curve.c3.x, curve.c3.y)
  {
    PowSmall(0.0);
    PowSmall(1.0);
  }

  /** Every real time, inside the unit interval or not, gives the Bernstein cubic. */
  lemma ExtrapolatedIsBernstein(curve: CubicBezierCurve, time: real)
    ensures Extrapolated(curve, time).relativeTime
         == Bernstein(curve.c0.x, curve.c1.x, curve.c2.x, curve.c3.x, time)
    ensures Extrapolated(curve, time).relativeValue
         == Bernstein(curve.c0.y, curve.c1.y, curve.c2.y, curve.c3.y, time)
  {
    PolynomialIsBernstein(curve, HorizontalAxis, time);
    PolynomialIsBernstein(curve, VerticalAxis, time);
  }

  /** Inside (0, 1) the two revisions agree; outside they differ in general. */
  lemma RevisionsAgreeInside(curve: CubicBezierCurve, time: real)
    requires 0.0 < time < 1.0
    ensures Extrapolated(curve, time) == Evaluated(curve, time)
  {
  }

  /** Past the end a curve whose end is not (1,1) keeps going instead of clamping. */
  lemma ExtrapolatesPastEnd()
    ensures var line := FromPoints([Zero(), Zero(), Zero(), Point(2.0, 2.0)]);
      Extrapolated(line, 1.0) == Progress(2.0, 2.0) && Evaluated(line, 1.0) == End()
  {
    var line := FromPoints([Zero(), Zero(), Zero(), Point(2.0, 2.0)]);
    ExtrapolatedEndpoints(line);
  }
}
