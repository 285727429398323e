/**
 * `PathElement`: one drawing command of a path, normalised to an origin,
 * two controls and a destination, with its cubic form, its interpolation
 * and the custom order on operations that the interpolation relies on.
 */
module PathElements {
  import opened Wrappers
  import opened Vectors
  import opened Animatable
  import opened BezierCurves
  import opened TimingSolver
  import QuartzCore

  datatype Operation = Move | AddLine | AddQuadCurve | AddCurve | CloseSubpath | OpenSubpath

  /** The `Int` raw values, in declaration order. */
  function RawValue(op: Operation): (r: nat)
    ensures r < 6
  {
    match op
    case Move => 0
    case AddLine => 1
    case AddQuadCurve => 2
    case AddCurve => 3
    case CloseSubpath => 4
    case OpenSubpath => 5
  }

  /** The custom `<`: closeSubpath sorts below everything, itself included. */
  predicate Less(lhs: Operation, rhs: Operation) {
    lhs == CloseSubpath || (RawValue(lhs) < RawValue(rhs) && rhs != CloseSubpath)
  }

  /** Swift's `max(x, y)` for Comparable: `y >= x ? y : x`, where `>=` is `!(y < x)`. */
  function Max(x: Operation, y: Operation): (r: Operation)
    ensures r == x || r == y
  {
    if !Less(y, x) then y else x
  }

  /**
   * The order: closeSubpath is below every operation (even itself); any other
   * pair compares by raw value, with closeSubpath never above.
   */
  lemma LessOrder(lhs: Operation, rhs: Operation)
    ensures Less(CloseSubpath, rhs)
    ensures lhs != CloseSubpath ==>
      (Less(lhs, rhs) <==> RawValue(lhs) < RawValue(rhs) && rhs != CloseSubpath)
    ensures lhs != CloseSubpath ==> !Less(lhs, CloseSubpath)
  {
  }

  /** Under `max`, closeSubpath always loses to the other side; otherwise the higher raw value wins. */
  lemma MaxOperation(x: Operation, y: Operation)
    ensures Max(x, CloseSubpath) == x && Max(CloseSubpath, y) == y
    ensures x != CloseSubpath && y != CloseSubpath ==>
      Max(x, y) == if RawValue(y) >= RawValue(x) then y else x
  {
  }

  datatype PathElement = PathElement(operation: Operation, origin: Point, control1: Point, control2: Point, destination: Point)

  /**
   * `init`: a missing origin falls back to the destination, a missing
   * destination to the origin, the controls to their nearer end, and all to
   * zero; a move puts every point on its destination.
   */
  function Init(operation: Operation := Move, origin: Option<Point> := None, control1: Option<Point> := None,
                control2: Option<Point> := None, destination: Option<Point> := None): (r: PathElement)
    ensures r.operation == operation
    ensures r.destination == destination.GetOr(origin.GetOr(Zero()))
    ensures operation == Move ==> r.origin == r.control1 == r.control2 == r.destination
    ensures operation != Move ==>
      r.origin == origin.GetOr(destination.GetOr(Zero()))
      && r.control1 == control1.GetOr(origin.GetOr(destination.GetOr(Zero())))
      && r.control2 == control2.GetOr(destination.GetOr(origin.GetOr(Zero())))
  {
    var e := PathElement(
      operation,
      origin.GetOr(destination.GetOr(Zero())),
      control1.GetOr(origin.GetOr(destination.GetOr(Zero()))),
      control2.GetOr(destination.GetOr(origin.GetOr(Zero()))),
      destination.GetOr(origin.GetOr(Zero())));
    if operation == Move then e.(origin := e.destination, control1 := e.destination, control2 := e.destination)
    else e
  }

  /** An element built with all four points given, and not a move, holds exactly those points. */
  lemma InitKeepsGivenPoints(operation: Operation, o: Point, c1: Point, c2: Point, d: Point)
    requires operation != Move
    ensures Init(operation, Some(o), Some(c1), Some(c2), Some(d)) == PathElement(operation, o, c1, c2, d)
  {
  }

  /** Re-initialising an element from its own points gives it back. */
  lemma InitFixesItsOutput(operation: Operation, o: Option<Point>, c1: Option<Point>, c2: Option<Point>, d: Option<Point>)
    ensures var e := Init(operation, o, c1, c2, d);
      Init(e.operation, Some(e.origin), Some(e.control1), Some(e.control2), Some(e.destination)) == e
  {
  }

  /** `PathElement()`: a move to the origin. */
  lemma DefaultElement()
    ensures Init() == PathElement(Move, Zero(), Zero(), Zero(), Zero())
  {
  }

  /**
   * `bezierCurve`: the element as a cubic.  Quadratic controls are raised by
   * degree elevation; lines and closes put their controls at a third and
   * two thirds of the segment; other operations use their points as they are.
   */
  function BezierCurve(e: PathElement): (r: CubicBezierCurve)
    ensures r.c0 == e.origin && r.c3 == e.destination
    ensures Synced(r) && |r.controlPoints| == 4
    ensures e.operation in {Move, AddCurve, OpenSubpath} ==> r.c1 == e.control1 && r.c2 == e.control2
  {
    match e.operation
    case AddQuadCurve =>
      var control1 := QuartzCore.PointLerp(e.origin, e.control1, 2.0 / 3.0);
      var control2 := QuartzCore.PointLerp(e.destination, e.control1, 2.0 / 3.0);
      FromPoints([e.origin, control1, control2, e.destination])
    case Move | AddCurve | OpenSubpath =>
      FromPoints([e.origin, e.control1, e.control2, e.destination])
    case AddLine | CloseSubpath =>
      var halfway := QuartzCore.PointLerp(e.origin, e.destination, 0.5);
      var control1 := QuartzCore.PointLerp(e.origin, halfway, 2.0 / 3.0);
      var control2 := QuartzCore.PointLerp(e.destination, halfway, 2.0 / 3.0);
      FromPoints([e.origin, control1, control2, e.destination])
  }

  /** A line's (or close's) cubic controls sit at one third and two thirds of the way. */
  lemma LineControlsAtThirds(e: PathElement)
    requires e.operation == AddLine || e.operation == CloseSubpath
    ensures BezierCurve(e).c1 == QuartzCore.PointLerp(e.origin, e.destination, 1.0 / 3.0)
    ensures BezierCurve(e).c2 == QuartzCore.PointLerp(e.origin, e.destination, 2.0 / 3.0)
  {
  }

  /** The cubic of a line traces the straight segment: its Bernstein form is the lerp. */
  lemma LineCubicIsStraight(e: PathElement, t: real)
    requires e.operation == AddLine || e.operation == CloseSubpath
    ensures var c := BezierCurve(e);
      Bernstein(c.c0.x, c.c1.x, c.c2.x, c.c3.x, t) == Lerp(e.origin.x, e.destination.x, t)
      && Bernstein(c.c0.y, c.c1.y, c.c2.y, c.c3.y, t) == Lerp(e.origin.y, e.destination.y, t)
  {
    LineControlsAtThirds(e);
  }

  /** The quadratic Bézier through a single control point. */
  function QuadBernstein(p0: real, q: real, p2: real, t: real): real {
    var u := 1.0 - t;
    u * u * p0 + 2.0 * t * u * q + t * t * p2
  }

  /** Degree elevation is exact: the cubic of a quadratic element traces the same quadratic. */
  lemma QuadCubicIsQuadratic(e: PathElement, t: real)
    requires e.operation == AddQuadCurve
    ensures var c := BezierCurve(e);
      Bernstein(c.c0.x, c.c1.x, c.c2.x, c.c3.x, t) == QuadBernstein(e.origin.x, e.control1.x, e.destination.x, t)
      && Bernstein(c.c0.y, c.c1.y, c.c2.y, c.c3.y, t) == QuadBernstein(e.origin.y, e.control1.y, e.destination.y, t)
  {
  }

  /** `CubicBezierCurve.pathElement`: an addCurve element through the curve's four named points. */
  function ToPathElement(c: CubicBezierCurve): (r: PathElement)
    ensures r == PathElement(AddCurve, c.c0, c.c1, c.c2, c.c3)
  {
    Init(AddCurve, Some(c.c0), Some(c.c1), Some(c.c2), Some(c.c3))
  }

  /** Curve to element and back gives an equal curve (and the same value when it has four points). */
  lemma PathElementRoundTrip(c: CubicBezierCurve)
    requires Synced(c)
    ensures BezierCurve(ToPathElement(c)) == FromPoints(c.controlPoints)
    ensures |c.controlPoints| == 4 ==> Equal(BezierCurve(ToPathElement(c)), c) && BezierCurve(ToPathElement(c)) == c
  {
    assert c.controlPoints[..4] == [c.c0, c.c1, c.c2, c.c3];
    if |c.controlPoints| == 4 {
      assert c.controlPoints == c.controlPoints[..4];
    }
  }

  /** An addCurve element survives the trip through its cubic. */
  lemma CurveElementRoundTrip(e: PathElement)
    requires e.operation == AddCurve
    ensures ToPathElement(BezierCurve(e)) == e
  {
  }

  /**
   * The operation of a lerped element: openSubpath when exactly one side is a
   * move, otherwise the `max` of the two.
   */
  function LerpOperation(from: Operation, to: Operation): (r: Operation)
    ensures from != to && (from == Move || to == Move) ==> r == OpenSubpath
    ensures !(from != to && (from == Move || to == Move)) ==> r == Max(from, to)
  {
    var operation := Max(from, to);
    match (from, to)
    case (Move, _) => if from != to then OpenSubpath else operation
    case (_, Move) => if from != to then OpenSubpath else operation
    case _ => operation
  }

  /** Pairing with closeSubpath (and no move involved) yields the other side's operation. */
  lemma LerpWithClose(op: Operation)
    requires op != Move
    ensures LerpOperation(op, CloseSubpath) == op && LerpOperation(CloseSubpath, op) == op
  {
  }

  function PointLerp(a: Point, b: Point, progress: real): Point {
    QuartzCore.PointLerp(a, b, progress)
  }

  /**
   * `lerp(to:with:)`: the target itself at progress exactly 1; otherwise the
   * pointwise lerp of both cubic forms, normalised by `init` under the
   * resolved operation.
   */
  function ElementLerp(from: PathElement, to: PathElement, progress: real): (r: PathElement)
    ensures progress == 1.0 ==> r == to
    ensures progress != 1.0 ==> r.operation == LerpOperation(from.operation, to.operation)
    ensures progress != 1.0 ==>
      r.destination == PointLerp(BezierCurve(from).c3, BezierCurve(to).c3, progress)
    ensures progress != 1.0 && r.operation != Move ==>
      r.origin == PointLerp(from.origin, to.origin, progress)
      && r.control1 == PointLerp(BezierCurve(from).c1, BezierCurve(to).c1, progress)
      && r.control2 == PointLerp(BezierCurve(from).c2, BezierCurve(to).c2, progress)
    ensures progress != 1.0 && r.operation == Move ==>
      r.origin == r.control1 == r.control2 == r.destination
  {
    if progress == 1.0 then to
    else
      var operation := LerpOperation(from.operation, to.operation);
      var oldCurve, newCurve := BezierCurve(from), BezierCurve(to);
      Init(operation,
           Some(PointLerp(oldCurve.c0, newCurve.c0, progress)),
           Some(PointLerp(oldCurve.c1, newCurve.c1, progress)),
           Some(PointLerp(oldCurve.c2, newCurve.c2, progress)),
           Some(PointLerp(oldCurve.c3, newCurve.c3, progress)))
  }

  /** Lerping two moves collapses to a move to the lerped destination. */
  lemma MoveMoveLerp(from: PathElement, to: PathElement, progress: real)
    requires from.operation == Move && to.operation == Move && progress != 1.0
    ensures var d := PointLerp(from.destination, to.destination, progress);
      ElementLerp(from, to, progress) == PathElement(Move, d, d, d, d)
  {
  }

  /** At progress 0 an addCurve element comes back unchanged from a lerp towards another addCurve. */
  lemma ElementLerpAtZero(from: PathElement, to: PathElement)
    requires from.operation == AddCurve && to.operation == AddCurve
    ensures ElementLerp(from, to, 0.0) == from
  {
  }
}
