/**
 * The `CubicBezierCurve` value: four control points `c0`…`c3` plus the
 * `controlPoints` array, whose observer copies its first four entries into
 * the named points.  Equality looks only at the array.
 */
module BezierCurves {
  import opened Vectors
  import opened Animatable
  import opened Folds
  import QuartzCore

  datatype CubicBezierCurve = CubicBezierCurve(c0: Point, c1: Point, c2: Point, c3: Point, controlPoints: seq<Point>)

  /** `ControlPoint.unit`. */
  function Unit(): Point { Point(1.0, 1.0) }

  /** The named points agree with the first four entries of the array. */
  predicate Synced(c: CubicBezierCurve) {
    |c.controlPoints| >= 4
    && c.controlPoints[0] == c.c0 && c.controlPoints[1] == c.c1
    && c.controlPoints[2] == c.c2 && c.controlPoints[3] == c.c3
  }

  /** `init(_:_:)`: a timing curve from (0,0) to (1,1) with the two given inner controls. */
  function FromControls(point1: Point, point2: Point): (r: CubicBezierCurve)
    ensures r.c0 == Zero() && r.c3 == Unit()
    ensures r.c1 == point1 && r.c2 == point2
    ensures Synced(r) && |r.controlPoints| == 4
  {
    var c0, c3 := Zero(), Unit();
    CubicBezierCurve(c0, point1, point2, c3, [c0, point1, point2, c3])
  }

  /** `init(points:)`: the first four points; fewer than four is an out-of-bounds trap. */
  function FromPoints(points: seq<Point>): (r: CubicBezierCurve)
    requires |points| >= 4
    ensures r.controlPoints == points[..4]
    ensures Synced(r)
  {
    var c0, c1, c2, c3 := points[0], points[1], points[2], points[3];
    CubicBezierCurve(c0, c1, c2, c3, [c0, c1, c2, c3])
  }

  /**
   * Assigning `controlPoints`: the whole array is stored and the observer
   * re-reads `c0`…`c3` from indices 0…3, which traps on fewer than four.
   */
  function WithControlPoints(curve: CubicBezierCurve, points: seq<Point>): (r: CubicBezierCurve)
    requires |points| >= 4
    ensures r.controlPoints == points
    ensures Synced(r)
  {
    var stored := curve.(controlPoints := points);
    stored.(c0 := points[0], c1 := points[1], c2 := points[2], c3 := points[3])
  }

  /** `==`: equal control-point arrays, whatever the named points hold. */
  predicate Equal(lhs: CubicBezierCurve, rhs: CubicBezierCurve) {
    lhs.controlPoints == rhs.controlPoints
  }

  /** For curves built from four points, `==` is equality of the four points. */
  lemma EqualIffSamePoints(lhs: CubicBezierCurve, rhs: CubicBezierCurve)
    requires Synced(lhs) && |lhs.controlPoints| == 4
    requires Synced(rhs) && |rhs.controlPoints| == 4
    ensures Equal(lhs, rhs) <==> lhs == rhs
  {
    if Equal(lhs, rhs) {
      assert lhs.controlPoints[0] == rhs.controlPoints[0];
      assert lhs.controlPoints[1] == rhs.controlPoints[1];
      assert lhs.controlPoints[2] == rhs.controlPoints[2];
      assert lhs.controlPoints[3] == rhs.controlPoints[3];
    }
  }

  /** `==` ignores a named point that disagrees with the array. */
  lemma EqualIgnoresNamedPoints()
    ensures var a := FromControls(Zero(), Unit());
            Equal(a, a.(c1 := Point(5.0, 5.0))) && a != a.(c1 := Point(5.0, 5.0))
  {
  }

  /** The circle-approximation constant, a quarter circle's control-arm ratio. */
  const CircleApproxConstant: real := 0.551915024494

  /**
   * `circleApproximation`: a quarter-circle arc between the endpoints when
   * they lie on a descending diagonal; otherwise both endpoints collapse to c3.
   */
  function CircleApproximation(curve: CubicBezierCurve): (r: CubicBezierCurve)
    ensures Synced(r) && |r.controlPoints| == 4
    ensures ShouldSwitch(curve) ==>
      r.c0 == curve.c0 && r.c3 == curve.c3
      && r.c1 == Point(Lerp(curve.c0.x, curve.c3.x, CircleApproxConstant), curve.c3.y)
      && r.c2 == Point(curve.c0.x, Lerp(curve.c3.y, curve.c0.y, CircleApproxConstant))
    ensures !ShouldSwitch(curve) ==> r.c0 == r.c1 == r.c2 == r.c3 == curve.c3
  {
    var shouldSwitch := ShouldSwitch(curve);
    var newC0 := if shouldSwitch then curve.c0 else curve.c3;
    var newC3 := if shouldSwitch then curve.c3 else newC0;
    var x := Lerp(newC0.x, newC3.x, CircleApproxConstant);
    var y := Lerp(newC3.y, newC0.y, CircleApproxConstant);
    FromPoints([newC0, Point(x, newC3.y), Point(newC0.x, y), newC3])
  }

  predicate ShouldSwitch(curve: CubicBezierCurve) {
    (curve.c0.x > curve.c3.x && curve.c0.y < curve.c3.y)
    || (curve.c0.x < curve.c3.x && curve.c0.y > curve.c3.y)
  }

  function Xs(points: seq<Point>): (r: seq<real>)
    ensures |r| == |points| && forall i :: 0 <= i < |points| ==> r[i] == points[i].x
  {
    seq(|points|, i requires 0 <= i < |points| => points[i].x)
  }

  function Ys(points: seq<Point>): (r: seq<real>)
    ensures |r| == |points| && forall i :: 0 <= i < |points| ==> r[i] == points[i].y
  {
    seq(|points|, i requires 0 <= i < |points| => points[i].y)
  }

  function Less(a: real, b: real): bool { a < b }

  /**
   * `boundingBox`: the origin holds the smallest x and y of the control
   * points, and the size fields hold the largest x and y (not the extents);
   * every field is 0 when there are no control points.
   */
  function BoundingBox(curve: CubicBezierCurve): QuartzCore.Rect {
    var xs, ys := Xs(curve.controlPoints), Ys(curve.controlPoints);
    QuartzCore.Rect(
      Point(MinBy(xs, Less).GetOr(0.0), MinBy(ys, Less).GetOr(0.0)),
      QuartzCore.Size(MaxBy(xs, Less).GetOr(0.0), MaxBy(ys, Less).GetOr(0.0)))
  }

  lemma LessComparesReals()
    ensures ComparesKey(Less, (v: real) => v)
  {
  }

  /** Each field of the box is the extreme coordinate it claims to be. */
  lemma BoundingBoxExtremes(curve: CubicBezierCurve)
    ensures var box := BoundingBox(curve);
      (curve.controlPoints == [] ==> box == QuartzCore.Rect(Zero(), QuartzCore.Size(0.0, 0.0)))
      && (forall p :: p in curve.controlPoints ==>
            box.origin.x <= p.x <= box.size.width && box.origin.y <= p.y <= box.size.height)
      && (curve.controlPoints != [] ==>
            (exists p :: p in curve.controlPoints && p.x == box.origin.x)
            && (exists p :: p in curve.controlPoints && p.y == box.origin.y)
            && (exists p :: p in curve.controlPoints && p.x == box.size.width)
            && (exists p :: p in curve.controlPoints && p.y == box.size.height))
  {
    var pts := curve.controlPoints;
    if pts != [] {
      var xs, ys := Xs(pts), Ys(pts);
      LessComparesReals();
      MinByLeast(xs, Less, (v: real) => v);
      MinByLeast(ys, Less, (v: real) => v);
      MaxByGreatest(xs, Less, (v: real) => v);
      MaxByGreatest(ys, Less, (v: real) => v);
      var box := BoundingBox(curve);
      forall p | p in pts
        ensures box.origin.x <= p.x <= box.size.width && box.origin.y <= p.y <= box.size.height
      {
        var i :| 0 <= i < |pts| && pts[i] == p;
        assert xs[i] == p.x && ys[i] == p.y;
      }
      var ix :| 0 <= ix < |xs| && xs[ix] == box.origin.x;
      assert pts[ix].x == box.origin.x;
      var iy :| 0 <= iy < |ys| && ys[iy] == box.origin.y;
      assert pts[iy].y == box.origin.y;
      var jx :| 0 <= jx < |xs| && xs[jx] == box.size.width;
      assert pts[jx].x == box.size.width;
      var jy :| 0 <= jy < |ys| && ys[jy] == box.size.height;
      assert pts[jy].y == box.size.height;
    }
  }

  /** The size fields are the far corner, not the extent: a box away from the origin shows it. */
  lemma BoundingBoxSizeIsFarCorner()
    ensures var box := BoundingBox(FromPoints([Point(2.0, 2.0), Point(2.0, 3.0), Point(3.0, 2.0), Point(3.0, 3.0)]));
      box.origin == Point(2.0, 2.0) && box.size == QuartzCore.Size(3.0, 3.0)
  {
    var c := FromPoints([Point(2.0, 2.0), Point(2.0, 3.0), Point(3.0, 2.0), Point(3.0, 3.0)]);
    BoundingBoxExtremes(c);
  }

  /** `CubicBezierCurve.zero`: both inner controls at the origin. */
  function ZeroCurve(): (r: CubicBezierCurve)
    ensures r.c0 == r.c1 == r.c2 == Zero() && r.c3 == Unit() && Synced(r)
  {
    FromControls(Zero(), Zero())
  }
}
