/**
 * `TimingCurve`: how an animation maps time to progress.  An inherited or
 * system-default curve evaluates the system default Bézier curve, a cubic
 * curve its own Bézier curve, and a spring its damped-oscillator value.
 */
module TimingCurves {
  import opened Vectors
  import opened BezierCurves
  import opened Progresses
  import opened TimingSolver

  datatype TimingCurve =
    | Inherited
    | SystemDefault
    | Cubic(bezier: CubicBezierCurve)
    | Spring

  /**
   * What this model does not compute: the aligned root of a Bézier curve
   * for a time strictly inside (0, 1), and the spring's oscillator value.
   */
  datatype Solvers = Solvers(bezierInterior: (CubicBezierCurve, real) -> Progress, springValue: real -> real)

  // The Core Animation named timing functions, by their documented control points.

  const LinearCurve: CubicBezierCurve := FromControls(Point(0.0, 0.0), Point(1.0, 1.0))
  const EaseInCurve: CubicBezierCurve := FromControls(Point(0.42, 0.0), Point(1.0, 1.0))
  const EaseOutCurve: CubicBezierCurve := FromControls(Point(0.0, 0.0), Point(0.58, 1.0))
  const EaseInEaseOutCurve: CubicBezierCurve := FromControls(Point(0.42, 0.0), Point(0.58, 1.0))
  const DefaultCurve: CubicBezierCurve := FromControls(Point(0.25, 0.1), Point(0.25, 1.0))

  // The package's own curves.

  const EaseOutExpo: CubicBezierCurve := FromControls(Point(0.175, 0.885), Point(0.320, 1.275))
  const EaseOutBack: CubicBezierCurve := FromControls(Point(0.230, 1.000), Point(0.470, 1.75))
  const EaseOutBackDrastic: CubicBezierCurve := FromControls(Point(0.190, 1.000), Point(0.220, 1.00))

  /** Every named curve runs from (0, 0) to (1, 1) with four control points. */
  lemma NamedCurvesSpanUnitSquare()
    ensures forall c :: c in [EaseOutExpo, EaseOutBack, EaseOutBackDrastic, DefaultCurve, LinearCurve,
                        EaseInCurve, EaseOutCurve, EaseInEaseOutCurve] ==>
      c.c0 == Zero() && c.c3 == Unit() && c.controlPoints == [c.c0, c.c1, c.c2, c.c3]
  {
  }

  /** The closure `bezierProgress`: the Bézier curve's progress, field by field. */
  function BezierProgress(bezier: CubicBezierCurve, time: real, solvers: Solvers): Progress {
    var progression := ProgressAt(bezier, time, t => solvers.bezierInterior(bezier, t));
    Progress(progression.relativeTime, progression.relativeValue)
  }

  /** `progress(at:)`: dispatch on the case. */
  function CurveProgress(curve: TimingCurve, time: real, solvers: Solvers): (r: Progress)
    ensures curve.Spring? ==> r.relativeTime == time
  {
    match curve
    case Inherited => BezierProgress(DefaultCurve, time, solvers)
    case SystemDefault => BezierProgress(DefaultCurve, time, solvers)
    case Cubic(bezier) => BezierProgress(bezier, time, solvers)
    case Spring => Progress(time, solvers.springValue(time))
  }

  /**
   * A cubic curve's progress is its Bézier curve's, and both inherited and
   * system-default evaluate the default curve.
   */
  lemma CurveProgressDispatch(curve: TimingCurve, time: real, solvers: Solvers)
    ensures curve.Cubic? ==>
      CurveProgress(curve, time, solvers) == ProgressAt(curve.bezier, time, t => solvers.bezierInterior(curve.bezier, t))
    ensures curve.Inherited? || curve.SystemDefault? ==>
      CurveProgress(curve, time, solvers) == CurveProgress(Cubic(DefaultCurve), time, solvers)
  {
    var bezier := if curve.Cubic? then curve.bezier else DefaultCurve;
    var p := ProgressAt(bezier, time, t => solvers.bezierInterior(bezier, t));
    assert Progress(p.relativeTime, p.relativeValue) == p;
  }

  /** Outside (0, 1) any Bézier-backed curve is at its start or at its end. */
  lemma CurveProgressOutside(curve: TimingCurve, time: real, solvers: Solvers)
    requires !curve.Spring?
    ensures time <= 0.0 ==> CurveProgress(curve, time, solvers) == Start()
    ensures time >= 1.0 ==> CurveProgress(curve, time, solvers) == End()
  {
    var bezier := if curve.Cubic? then curve.bezier else DefaultCurve;
    ProgressAtOutside(bezier, time, t => solvers.bezierInterior(bezier, t));
  }

  /**
   * `==`: equal cases, with cubic curves compared by their control points;
   * the spring has only constant parameters, so two springs are equal.
   */
  predicate Equal(lhs: TimingCurve, rhs: TimingCurve) {
    match (lhs, rhs)
    case (Inherited, Inherited) => true
    case (SystemDefault, SystemDefault) => true
    case (Cubic(l), Cubic(r)) => BezierCurves.Equal(l, r)
    case (Spring, Spring) => true
    case _ => false
  }

  /** `==` is an equivalence, and different cases are never equal, not even inherited and system default. */
  lemma EqualLaws(a: TimingCurve, b: TimingCurve, c: TimingCurve)
    ensures Equal(a, a)
    ensures Equal(a, b) ==> Equal(b, a)
    ensures Equal(a, b) && Equal(b, c) ==> Equal(a, c)
    ensures a.Inherited? != b.Inherited? || a.SystemDefault? != b.SystemDefault? || a.Cubic? != b.Cubic? ==> !Equal(a, b)
  {
  }

  /** Two cubic curves built from points are equal exactly when their four points are. */
  lemma CubicEqualIff(l: CubicBezierCurve, r: CubicBezierCurve)
    requires Synced(l) && |l.controlPoints| == 4 && Synced(r) && |r.controlPoints| == 4
    ensures Equal(Cubic(l), Cubic(r)) <==> l.c0 == r.c0 && l.c1 == r.c1 && l.c2 == r.c2 && l.c3 == r.c3
  {
    EqualIffSamePoints(l, r);
  }

  /** Curve inheritance when nesting: an inherited curve takes the given one, any other is kept. */
  function Inherit(curve: TimingCurve, inherited: TimingCurve): (r: TimingCurve)
    ensures curve == Inherited ==> r == inherited
    ensures curve != Inherited ==> r == curve
  {
    if Equal(curve, Inherited) then inherited else curve
  }
}
