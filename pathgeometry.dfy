/**
 * The geometry a `Path` keeps about itself: its bounding box with the
 * center and corners, the box recomputed from the segments, and the
 * "highest centered" anchor element.
 */
module PathGeometry {
  import opened Wrappers
  import opened Vectors
  import opened Animatable
  import opened PathElements
  import opened Folds
  import Utilities

  datatype BoundingBox = BoundingBox(topLeft: Point, bottomRight: Point, center: Point)

  datatype Corner = TopLeft | TopRight | BottomLeft | BottomRight

  /** `BoundingBox.init(topLeft:bottomRight:)`: the center is the lerp halfway between the two corners. */
  function MakeBox(topLeft: Point, bottomRight: Point): (box: BoundingBox)
    ensures box.topLeft == topLeft && box.bottomRight == bottomRight
    ensures box.center.x == (topLeft.x + bottomRight.x) / 2.0
    ensures box.center.y == (topLeft.y + bottomRight.y) / 2.0
  {
    BoundingBox(topLeft, bottomRight, Point(Lerp(topLeft.x, bottomRight.x, 0.5), Lerp(topLeft.y, bottomRight.y, 0.5)))
  }

  /** `coordinate(for:)`: the mixed corners take x from one stored corner and y from the other. */
  function Coordinate(box: BoundingBox, corner: Corner): (p: Point)
    ensures p.x == if corner in {TopLeft, BottomLeft} then box.topLeft.x else box.bottomRight.x
    ensures p.y == if corner in {TopLeft, TopRight} then box.topLeft.y else box.bottomRight.y
  {
    match corner
    case TopLeft => box.topLeft
    case TopRight => Point(box.bottomRight.x, box.topLeft.y)
    case BottomLeft => Point(box.topLeft.x, box.bottomRight.y)
    case BottomRight => box.bottomRight
  }

  /** Both diagonals of a made box cross at its center. */
  lemma DiagonalsMeetAtCenter(topLeft: Point, bottomRight: Point)
    ensures var box := MakeBox(topLeft, bottomRight);
      var tr, bl := Coordinate(box, TopRight), Coordinate(box, BottomLeft);
      box.center == Point((tr.x + bl.x) / 2.0, (tr.y + bl.y) / 2.0)
      && box.center == Point((Coordinate(box, TopLeft).x + Coordinate(box, BottomRight).x) / 2.0,
                             (Coordinate(box, TopLeft).y + Coordinate(box, BottomRight).y) / 2.0)
  {
  }

  // The anchor element.

  /**
   * The comparator of `highestCenteredElement`: closest to the center and
   * higher and further left, or higher and further left, or higher, or
   * further left.
   */
  predicate HighestLess(center: Point, a: PathElement, b: PathElement) {
    var isClosestToCenter := Utilities.AbsReal(center.x - a.origin.x) <= Utilities.AbsReal(center.x - b.origin.x);
    var isHigher := a.origin.y < b.origin.y;
    var isLeftmost := a.origin.x < b.origin.x;
    var isHigherAndLeftmost := isHigher && isLeftmost;
    (isClosestToCenter && isHigherAndLeftmost) || isHigherAndLeftmost || isHigher || isLeftmost
  }

  /** The distance to the center never decides: the comparator is "higher or further left". */
  lemma HighestLessReduces(center: Point, a: PathElement, b: PathElement)
    ensures HighestLess(center, a, b) <==> a.origin.y < b.origin.y || a.origin.x < b.origin.x
  {
  }

  /** `highestCenteredElement`: `segments.min(by:)` under that comparator. */
  function HighestCentered(segments: seq<PathElement>, box: BoundingBox): (r: Option<PathElement>)
    ensures r.None? <==> segments == []
    ensures r.Some? ==> r.value in segments
  {
    MinBy(segments, (a, b) => HighestLess(box.center, a, b))
  }

  /** A segment whose origin is strictly above and strictly left of every other origin is the anchor. */
  lemma HighestCenteredPicksUpperLeft(segments: seq<PathElement>, box: BoundingBox, m: PathElement)
    requires m in segments
    requires forall e :: e in segments && e != m ==> m.origin.y < e.origin.y && m.origin.x < e.origin.x
    ensures HighestCentered(segments, box) == Some(m)
  {
    var less := (a, b) => HighestLess(box.center, a, b);
    forall e | e in segments && e != m
      ensures less(m, e) && !less(e, m)
    {
      HighestLessReduces(box.center, m, e);
      HighestLessReduces(box.center, e, m);
    }
    MinByDominant(segments, less, m);
  }

  // The box recomputed from the segments.

  /** The sort key of `updateBoundingBox` for x: the smaller endpoint x of a segment. */
  function KeyX(e: PathElement): real { Utilities.Min(e.origin.x, e.destination.x) }

  function KeyY(e: PathElement): real { Utilities.Min(e.origin.y, e.destination.y) }

  predicate LessX(a: PathElement, b: PathElement) { KeyX(a) < KeyX(b) }

  predicate LessY(a: PathElement, b: PathElement) { KeyY(a) < KeyY(b) }

  /**
   * `updateBoundingBox`'s value: the top left from the segment with the
   * smallest key, the bottom right from the segment with the largest key,
   * where for both the key is the smaller endpoint coordinate, and zero
   * without segments.
   */
  function BoxOf(segments: seq<PathElement>): BoundingBox {
    var minX, maxX := MinBy(segments, LessX), MaxBy(segments, LessX);
    var minY, maxY := MinBy(segments, LessY), MaxBy(segments, LessY);
    MakeBox(
      Point(Utilities.Min(if minX.Some? then minX.value.origin.x else 0.0, if minX.Some? then minX.value.destination.x else 0.0),
            Utilities.Min(if minY.Some? then minY.value.origin.y else 0.0, if minY.Some? then minY.value.destination.y else 0.0)),
      Point(Utilities.Max(if maxX.Some? then maxX.value.origin.x else 0.0, if maxX.Some? then maxX.value.destination.x else 0.0),
            Utilities.Max(if maxY.Some? then maxY.value.origin.y else 0.0, if maxY.Some? then maxY.value.destination.y else 0.0)))
  }

  /** Without segments the box collapses onto the origin. */
  lemma BoxOfEmpty()
    ensures BoxOf([]) == BoundingBox(Zero(), Zero(), Zero())
  {
  }

  /**
   * The top left is the smallest key in each axis, and the bottom right is
   * at least the largest key, so the corners are ordered.
   */
  lemma BoxOfBounds(segments: seq<PathElement>)
    ensures var box := BoxOf(segments);
      box.topLeft.x <= box.bottomRight.x && box.topLeft.y <= box.bottomRight.y
      && (forall e :: e in segments ==> box.topLeft.x <= KeyX(e) <= box.bottomRight.x)
      && (forall e :: e in segments ==> box.topLeft.y <= KeyY(e) <= box.bottomRight.y)
      && (segments != [] ==>
            (exists e :: e in segments && KeyX(e) == box.topLeft.x)
            && (exists e :: e in segments && KeyY(e) == box.topLeft.y))
  {
    if segments != [] {
      assert ComparesKey(LessX, KeyX);
      assert ComparesKey(LessY, KeyY);
      MinByLeast(segments, LessX, KeyX);
      MaxByGreatest(segments, LessX, KeyX);
      MinByLeast(segments, LessY, KeyY);
      MaxByGreatest(segments, LessY, KeyY);
      var box := BoxOf(segments);
      assert box.topLeft.x == KeyX(MinBy(segments, LessX).value);
      assert box.topLeft.y == KeyY(MinBy(segments, LessY).value);
      assert box.bottomRight.x >= KeyX(MaxBy(segments, LessX).value);
      assert box.bottomRight.y >= KeyY(MaxBy(segments, LessY).value);
      forall e | e in segments
        ensures box.topLeft.x <= KeyX(e) <= box.bottomRight.x && box.topLeft.y <= KeyY(e) <= box.bottomRight.y
      {
        var i :| 0 <= i < |segments| && segments[i] == e;
      }
    }
  }

  /**
   * The bottom right is the larger endpoint coordinate of the FIRST segment
   * whose key is greatest, in each axis: `max(by:)` keeps the first of tied
   * maxima.
   */
  lemma BoxOfBottomRight(segments: seq<PathElement>, kx: nat, ky: nat)
    requires kx < |segments| && ky < |segments|
    requires forall i :: 0 <= i < |segments| ==> KeyX(segments[i]) <= KeyX(segments[kx])
    requires forall i :: 0 <= i < kx ==> KeyX(segments[i]) < KeyX(segments[kx])
    requires forall i :: 0 <= i < |segments| ==> KeyY(segments[i]) <= KeyY(segments[ky])
    requires forall i :: 0 <= i < ky ==> KeyY(segments[i]) < KeyY(segments[ky])
    ensures BoxOf(segments).bottomRight
      == Point(Utilities.Max(segments[kx].origin.x, segments[kx].destination.x),
               Utilities.Max(segments[ky].origin.y, segments[ky].destination.y))
  {
    assert ComparesKey(LessX, KeyX);
    assert ComparesKey(LessY, KeyY);
    MaxByFirstGreatest(segments, LessX, KeyX, kx);
    MaxByFirstGreatest(segments, LessY, KeyY, ky);
  }

  /**
   * Two lines from the same origin tie on their key, so the first one
   * decides the bottom right, however short the second is.
   */
  lemma BoxOfTiesKeepFirst()
    ensures var first := Init(AddLine, Some(Point(0.0, 0.0)), destination := Some(Point(5.0, 0.0)));
      var second := Init(AddLine, Some(Point(0.0, 0.0)), destination := Some(Point(1.0, 0.0)));
      BoxOf([first, second]).bottomRight.x == 5.0
  {
    var first := Init(AddLine, Some(Point(0.0, 0.0)), destination := Some(Point(5.0, 0.0)));
    var second := Init(AddLine, Some(Point(0.0, 0.0)), destination := Some(Point(1.0, 0.0)));
    BoxOfBottomRight([first, second], 0, 0);
  }

  /**
   * Because the bottom right is keyed on the smaller endpoint, a long
   * segment next to a short one can stick out of the box.
   */
  lemma BoxOfMissesEndpoint()
    ensures var long := Init(AddLine, Some(Point(0.0, 0.0)), destination := Some(Point(10.0, 0.0)));
      var short := Init(AddLine, Some(Point(1.0, 0.0)), destination := Some(Point(2.0, 0.0)));
      BoxOf([long, short]).bottomRight.x == 2.0 && long.destination.x == 10.0
  {
  }
}
