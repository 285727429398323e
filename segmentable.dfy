/**
 * Segmentation: De Casteljau subdivision of a cubic into `amount` pieces,
 * segmentation of one path element, and the proportional re-segmentation
 * loop of a whole path (whose stateful wrapper, with its cache, lives with
 * the `Path` class).
 */
module Segmentable {
  import opened Wrappers
  import opened Vectors
  import opened Animatable
  import opened BezierCurves
  import opened PathElements
  import QuartzCore
  import Utilities

  /** `CGPoint.lerp`, written componentwise (the value `QuartzCore.PointLerp` promises). */
  function L(a: Point, b: Point, t: real): Point { Point(Lerp(a.x, b.x, t), Lerp(a.y, b.y, t)) }

  /** One De Casteljau step at `t`: the left piece `[c0, d0, e0, f0]` and the right piece `[f0, e1, d2, c3]`. */
  function Split(curve: CubicBezierCurve, t: real): (halves: (CubicBezierCurve, CubicBezierCurve))
    ensures halves.0.c0 == curve.c0 && halves.1.c3 == curve.c3
    ensures halves.0.c3 == halves.1.c0
    ensures Synced(halves.0) && |halves.0.controlPoints| == 4
    ensures Synced(halves.1) && |halves.1.controlPoints| == 4
  {
    var d0, d1, d2 := L(curve.c0, curve.c1, t), L(curve.c1, curve.c2, t), L(curve.c2, curve.c3, t);
    var e0, e1 := L(d0, d1, t), L(d1, d2, t);
    var f0 := L(e0, e1, t);
    (Curve4(curve.c0, d0, e0, f0), Curve4(f0, e1, d2, curve.c3))
  }

  /** `CubicBezierCurve(points: [a, b, c, d])`. */
  function Curve4(a: Point, b: Point, c: Point, d: Point): (r: CubicBezierCurve)
    ensures r.c0 == a && r.c3 == d && Synced(r) && |r.controlPoints| == 4
  {
    CubicBezierCurve(a, b, c, d, [a, b, c, d])
  }

  /** Building from the four points is `init(points:)` on their array. */
  lemma Curve4FromPoints(a: Point, b: Point, c: Point, d: Point)
    ensures Curve4(a, b, c, d) == FromPoints([a, b, c, d])
  {
  }

  /** Splitting at t = 1 leaves the whole curve on the left. */
  lemma SplitAtOne(curve: CubicBezierCurve)
    ensures Split(curve, 1.0).0 == FromPoints([curve.c0, curve.c1, curve.c2, curve.c3])
  {
  }

  /**
   * The pieces `segmented(by: k)` produces: split off the left piece at
   * t = 1/k and continue on the right one with k - 1.
   */
  function Segments(curve: CubicBezierCurve, k: nat): (pieces: seq<CubicBezierCurve>)
    ensures |pieces| == k
    decreases k
  {
    if k == 0 then []
    else if k == 1 then [Split(curve, 1.0).0]
    else
      var halves := Split(curve, 1.0 / k as real);
      var rest := Segments(halves.1, k - 1);
      [halves.0] + rest
  }

  /**
   * The pieces run from the curve's start to its end, each starting where
   * the previous one ends, and each has its four control points in sync.
   */
  lemma {:induction false} SegmentsChain(curve: CubicBezierCurve, k: nat)
    ensures var pieces := Segments(curve, k);
      (k > 0 ==> pieces[0].c0 == curve.c0 && pieces[k - 1].c3 == curve.c3)
      && (forall i, j :: 0 <= i && j == i + 1 < k ==> pieces[i].c3 == pieces[j].c0)
      && (forall i :: 0 <= i < k ==> Synced(pieces[i]) && |pieces[i].controlPoints| == 4)
    decreases k
  {
    if k > 1 {
      var halves := Split(curve, 1.0 / k as real);
      var rest := Segments(halves.1, k - 1);
      SegmentsChain(halves.1, k - 1);
      assert Segments(curve, k) == [halves.0] + rest;
    }
  }

  /** One piece is the curve itself, as far as `==` on curves can tell. */
  lemma SegmentsByOne(curve: CubicBezierCurve)
    requires Synced(curve) && |curve.controlPoints| == 4
    ensures |Segments(curve, 1)| == 1 && Segments(curve, 1)[0] == curve
  {
    SplitAtOne(curve);
    assert FromPoints([curve.c0, curve.c1, curve.c2, curve.c3]) == curve;
  }

  /**
   * `CubicBezierCurve.segmented(by:)`: the loop over `(1...amount).reversed()`
   * that appends the left piece and carries on with the right one.  The
   * closed range traps when amount < 1.
   */
  method CurveSegmented(self: CubicBezierCurve, amount: int) returns (segments: seq<CubicBezierCurve>)
    requires amount >= 1
    ensures segments == Segments(self, amount)
  {
    segments := [];
    var curve := self;
    var segment := amount;
    ghost var total := Segments(self, amount);
    while segment >= 1
      invariant 0 <= segment <= amount
      invariant segments + Segments(curve, segment) == total
      decreases segment
    {
      var leftHalf, rightHalf := SplitOff(curve, segment, segments, total);
      segments := segments + [leftHalf];
      curve := rightHalf;
      segment := segment - 1;
    }
    NoSegmentsLeft(segments, curve, total);
  }

  /** With no pieces left to cut, what was collected is the whole. */
  lemma NoSegmentsLeft(segments: seq<CubicBezierCurve>, curve: CubicBezierCurve, total: seq<CubicBezierCurve>)
    requires segments + Segments(curve, 0) == total
    ensures segments == total
  {
    assert Segments(curve, 0) == [];
  }

  /**
   * One pass of the loop: the De Casteljau points at t = 1/segment and the
   * two halves they bound; appending the left one to what the loop has
   * collected leaves the right one's pieces still to come.
   */
  method SplitOff(curve: CubicBezierCurve, segment: int, ghost collected: seq<CubicBezierCurve>,
                  ghost total: seq<CubicBezierCurve>) returns (leftHalf: CubicBezierCurve, rightHalf: CubicBezierCurve)
    requires segment >= 1
    ensures [leftHalf] + Segments(rightHalf, segment - 1) == Segments(curve, segment)
    ensures collected + Segments(curve, segment) == total ==>
      (collected + [leftHalf]) + Segments(rightHalf, segment - 1) == total
  {
    var t := 1.0 / segment as real;
    var d0, d1, d2 := L(curve.c0, curve.c1, t), L(curve.c1, curve.c2, t), L(curve.c2, curve.c3, t);
    var e0, e1 := L(d0, d1, t), L(d1, d2, t);
    var f0 := L(e0, e1, t);
    leftHalf, rightHalf := FromPoints([curve.c0, d0, e0, f0]), FromPoints([f0, e1, d2, curve.c3]);
    SegmentsStep(curve, segment, t, d0, d1, d2, e0, e1, f0);
    if collected + Segments(curve, segment) == total {
      Reassociate(collected, [leftHalf], Segments(rightHalf, segment - 1), Segments(curve, segment), total);
    }
  }

  /** The first piece of `Segments(curve, k)` and the curve the rest is cut from, written with the loop's named points. */
  lemma SegmentsStep(curve: CubicBezierCurve, k: nat, t: real, d0: Point, d1: Point, d2: Point, e0: Point, e1: Point, f0: Point)
    requires k >= 1 && t == 1.0 / k as real
    requires d0 == L(curve.c0, curve.c1, t) && d1 == L(curve.c1, curve.c2, t) && d2 == L(curve.c2, curve.c3, t)
    requires e0 == L(d0, d1, t) && e1 == L(d1, d2, t) && f0 == L(e0, e1, t)
    ensures Segments(curve, k) == [FromPoints([curve.c0, d0, e0, f0])] + Segments(FromPoints([f0, e1, d2, curve.c3]), k - 1)
  {
    if k == 1 {
      assert t == 1.0;
    }
  }

  /** When an element can be segmented into `amount` pieces without a trap. */
  predicate SegmentableBy(e: PathElement, amount: int) {
    match e.operation
    case Move => true
    case OpenSubpath => amount - 1 >= 1
    case _ => amount >= 1
  }

  /**
   * `PathElement.segmented(by:)`: a move is kept as it is; an open-subpath
   * becomes a move to its destination followed by `amount - 1` curve pieces;
   * every other operation becomes `amount` addCurve pieces of its cubic.
   */
  function ElementSegments(e: PathElement, amount: int): (pieces: seq<PathElement>)
    requires SegmentableBy(e, amount)
    ensures |pieces| == if e.operation == Move then 1 else amount
    decreases e.operation == OpenSubpath
  {
    if e.operation == Move then [e]
    else if e.operation == OpenSubpath then
      [Init(Move, destination := Some(e.destination))] + ElementSegments(e.(operation := AddCurve), amount - 1)
    else CurvePieces(Segments(BezierCurve(e), amount))
  }

  /** `.map(\.pathElement)`. */
  function CurvePieces(curves: seq<CubicBezierCurve>): (pieces: seq<PathElement>)
    ensures |pieces| == |curves|
    ensures forall i :: 0 <= i < |curves| ==> pieces[i] == ToPathElement(curves[i])
  {
    seq(|curves|, i requires 0 <= i < |curves| => ToPathElement(curves[i]))
  }

  /** The segmentation method: the same cases, building its result by appends. */
  method ElementSegmented(e: PathElement, amount: int) returns (segments: seq<PathElement>)
    requires SegmentableBy(e, amount)
    ensures segments == ElementSegments(e, amount)
    decreases e.operation == OpenSubpath
  {
    segments := [];
    if e.operation == Move {
      segments := segments + [e];
    } else if e.operation == OpenSubpath {
      segments := segments + [Init(Move, destination := Some(e.destination))];
      var element := e.(operation := AddCurve);
      var rest := ElementSegmented(element, amount - 1);
      segments := segments + rest;
    } else {
      var curves := CurveSegmented(BezierCurve(e), amount);
      segments := segments + CurvePieces(curves);
    }
  }

  /**
   * The pieces of a drawing element run from its origin to its destination,
   * each starting where the previous one ended, and all are addCurve.
   */
  lemma ElementPiecesChain(e: PathElement, amount: int)
    requires e.operation in {AddLine, AddQuadCurve, AddCurve, CloseSubpath} && amount >= 1
    ensures var pieces := ElementSegments(e, amount);
      pieces[0].origin == e.origin && pieces[amount - 1].destination == e.destination
      && (forall i :: 0 <= i < amount ==> pieces[i].operation == AddCurve)
      && (forall i, j :: 0 <= i && j == i + 1 < amount ==> pieces[i].destination == pieces[j].origin)
  {
    SegmentsChain(BezierCurve(e), amount);
  }

  /** An open-subpath starts with a move to its destination, followed by addCurve pieces from its origin. */
  lemma OpenSubpathPieces(e: PathElement, amount: int)
    requires e.operation == OpenSubpath && amount >= 2
    ensures var pieces := ElementSegments(e, amount);
      pieces[0] == PathElement(Move, e.destination, e.destination, e.destination, e.destination)
      && pieces[1].origin == e.origin && pieces[amount - 1].destination == e.destination
      && (forall i :: 1 <= i < amount ==> pieces[i].operation == AddCurve)
  {
    ElementPiecesChain(e.(operation := AddCurve), amount - 1);
  }

  // Re-segmentation of a whole path.

  /**
   * The loop of `Path.segmented` over the segments after the first: each
   * segment asks for `base` pieces, plus one while the remainder is
   * positive; the remainder then drops by one when the segment delivered
   * what was asked, and otherwise by the surplus it delivered.  None is a
   * trap inside an element's segmentation.
   */
  function ResegmentFrom(segs: seq<PathElement>, base: int, remainder: int): Option<seq<PathElement>>
    decreases |segs|
  {
    if segs == [] then Some([])
    else
      var segmentAmount := base + if remainder > 0 then 1 else 0;
      if !SegmentableBy(segs[0], segmentAmount) then None
      else
        var subSegments := ElementSegments(segs[0], segmentAmount);
        var next := NextRemainder(remainder, |subSegments|, segmentAmount);
        match ResegmentFrom(segs[1..], base, next)
        case None => None
        case Some(rest) => Some(subSegments + rest)
  }

  /** The remainder after a segment asked for `asked` pieces and delivered `count`. */
  function NextRemainder(remainder: int, count: int, asked: int): int {
    remainder - if count == asked then 1 else count - asked
  }

  /**
   * The loop of `Path.segmented` over `segments.dropFirst()`, with its
   * mutable remainder; the precondition excludes a trap in any element.
   */
  method ResegmentLoop(rest: seq<PathElement>, baseAmount: int, remainder0: int) returns (newSegments: seq<PathElement>)
    requires ResegmentFrom(rest, baseAmount, remainder0).Some?
    ensures newSegments == ResegmentFrom(rest, baseAmount, remainder0).value
  {
    newSegments := [];
    var remainder := remainder0;
    var addExtraPart := false;
    ghost var total := ResegmentFrom(rest, baseAmount, remainder0).value;
    for i := 0 to |rest|
      invariant ResegmentFrom(rest[i..], baseAmount, remainder).Some?
      invariant newSegments + ResegmentFrom(rest[i..], baseAmount, remainder).value == total
    {
      var segment := rest[i];
      addExtraPart := remainder > 0;
      var segmentAmount := baseAmount + if addExtraPart then 1 else 0;
      ghost var suffix, tail := rest[i..], rest[i + 1..];
      assert suffix[0] == segment && suffix[1..] == tail;
      StepSegmentable(suffix, baseAmount, remainder, segmentAmount);
      var subSegments := ElementSegmented(segment, segmentAmount);
      var next := remainder - if |subSegments| == segmentAmount then 1 else |subSegments| - segmentAmount;
      StepValue(suffix, tail, baseAmount, remainder, segmentAmount, subSegments, next);
      Reassociate(newSegments, subSegments, ResegmentFrom(tail, baseAmount, next).value,
                  ResegmentFrom(suffix, baseAmount, remainder).value, total);
      newSegments := newSegments + subSegments;
      remainder := next;
    }
  }

  /** Moving one part from what is left to what is done keeps the whole. */
  lemma Reassociate<T>(done: seq<T>, part: seq<T>, later: seq<T>, left: seq<T>, total: seq<T>)
    requires done + left == total && left == part + later
    ensures (done + part) + later == total
  {
    Utilities.ConcatAssociative(done, part, later);
  }

  /** A segment the loop reaches without a trap can take the count it is asked for. */
  lemma StepSegmentable(segs: seq<PathElement>, base: int, remainder: int, amount: int)
    requires segs != [] && ResegmentFrom(segs, base, remainder).Some?
    requires amount == base + if remainder > 0 then 1 else 0
    ensures SegmentableBy(segs[0], amount)
  {
  }

  /** One pass of the loop: the first segment's pieces, then the rest with the updated remainder. */
  lemma StepValue(segs: seq<PathElement>, tail: seq<PathElement>, base: int, remainder: int, amount: int,
                  sub: seq<PathElement>, next: int)
    requires segs != [] && tail == segs[1..] && ResegmentFrom(segs, base, remainder).Some?
    requires amount == base + (if remainder > 0 then 1 else 0) && SegmentableBy(segs[0], amount)
    requires sub == ElementSegments(segs[0], amount) && next == NextRemainder(remainder, |sub|, amount)
    ensures ResegmentFrom(tail, base, next).Some?
    ensures ResegmentFrom(segs, base, remainder).value == sub + ResegmentFrom(tail, base, next).value
  {
  }

  /**
   * The full `segmented(by:)` of a path with the given cache, as a value:
   * the cache entry or the segments themselves when the count already
   * matches or a cache entry exists; the segments when the base is at most
   * one and nothing remains; otherwise the first segment followed by the
   * resampled rest.  None is a trap: division by zero for a one-segment
   * path, or a trap while segmenting an element.
   */
  function Resegmented(segments: seq<PathElement>, cache: map<int, seq<PathElement>>, amount: int): Option<seq<PathElement>> {
    if !(amount != |segments| && amount !in cache) then
      Some(if amount in cache then cache[amount] else segments)
    else if |segments| == 1 then None
    else Resampled(segments, amount)
  }

  /** The part of `segmented(by:)` after the cache guard, once the divisor is known to be non-zero. */
  function Resampled(segments: seq<PathElement>, amount: int): Option<seq<PathElement>>
    requires |segments| != 1
  {
    var remainder := Utilities.SwiftRem(amount - 1, |segments| - 1);
    var baseAmount := Utilities.SwiftQuot(amount - 1, |segments| - 1);
    if !(baseAmount > 1 || remainder > 0) then Some(segments)
    else
      var first := if |segments| > 0 then segments[0] else Init();
      var rest := if |segments| > 0 then segments[1..] else [];
      match ResegmentFrom(rest, baseAmount, remainder)
      case None => None
      case Some(pieces) => Some([first] + pieces)
  }

  /** Whether the resampling really takes place (the slow path that writes the cache). */
  predicate Resamples(segments: seq<PathElement>, cache: map<int, seq<PathElement>>, amount: int) {
    amount != |segments| && amount !in cache && |segments| != 1
    && (Utilities.SwiftQuot(amount - 1, |segments| - 1) > 1 || Utilities.SwiftRem(amount - 1, |segments| - 1) > 0)
  }

  /** An element that can take some number of pieces can take more. */
  lemma SegmentableMore(e: PathElement, amount: int, more: int)
    requires SegmentableBy(e, amount) && amount <= more
    ensures SegmentableBy(e, more)
  {
  }

  /** No segment is a move, and each can take `base` pieces without trapping. */
  predicate Drawable(segs: seq<PathElement>, base: int) {
    forall i :: 0 <= i < |segs| ==> segs[i].operation != Move && SegmentableBy(segs[i], base)
  }

  lemma DrawableTail(segs: seq<PathElement>, base: int)
    requires Drawable(segs, base) && segs != []
    ensures Drawable(segs[1..], base)
  {
    forall i | 0 <= i < |segs[1..]|
      ensures segs[1..][i].operation != Move && SegmentableBy(segs[1..][i], base)
    {
      assert segs[1..][i] == segs[i + 1];
    }
  }

  /** The reference distribution: the first `extra` segments get `base + 1` pieces, the others `base`. */
  function Distributed(segs: seq<PathElement>, base: int, extra: int): seq<PathElement>
    requires Drawable(segs, base)
    decreases |segs|
  {
    if segs == [] then []
    else
      var amount := base + if 0 < extra then 1 else 0;
      SegmentableMore(segs[0], base, amount);
      DrawableTail(segs, base);
      ElementSegments(segs[0], amount) + Distributed(segs[1..], base, extra - 1)
  }

  /**
   * When no later segment is a move, every segment delivers what it is asked
   * for, so the remainder simply counts down: the first `remainder`
   * segments get one extra piece.
   */
  lemma {:induction false} ResegmentDistributes(segs: seq<PathElement>, base: int, remainder: int)
    requires Drawable(segs, base)
    ensures ResegmentFrom(segs, base, remainder) == Some(Distributed(segs, base, remainder))
    decreases |segs|
  {
    if segs != [] {
      var segmentAmount := base + if remainder > 0 then 1 else 0;
      SegmentableMore(segs[0], base, segmentAmount);
      assert |ElementSegments(segs[0], segmentAmount)| == segmentAmount;
      DrawableTail(segs, base);
      ResegmentDistributes(segs[1..], base, remainder - 1);
    }
  }

  /** The reference distribution delivers `base` pieces per segment plus one per extra. */
  lemma {:induction false} DistributedLength(segs: seq<PathElement>, base: int, extra: int)
    requires Drawable(segs, base) && 0 <= extra <= |segs|
    ensures |Distributed(segs, base, extra)| == |segs| * base + extra
    decreases |segs|
  {
    if segs != [] {
      DistributedStep(segs, base, extra);
      if extra > 0 {
        DistributedLength(segs[1..], base, extra - 1);
      } else {
        DistributedNoExtra(segs[1..], base, extra - 1);
        DistributedLength(segs[1..], base, 0);
      }
      CountStep(|segs|, |segs[1..]|, base, extra, |Distributed(segs, base, extra)|,
                |Distributed(segs[1..], base, extra - 1)|);
    }
  }

  /** One more segment adds the base count, plus one while extras remain. */
  lemma CountStep(n: int, m: int, base: int, extra: int, total: int, rest: int)
    requires n == m + 1 && 0 <= extra <= n
    requires total == (base + if 0 < extra then 1 else 0) + rest
    requires rest == m * base + (if 0 < extra then extra - 1 else 0)
    ensures total == n * base + extra
  {
    MulSucc(m, base);
  }

  lemma DistributedStep(segs: seq<PathElement>, base: int, extra: int)
    requires Drawable(segs, base) && segs != []
    ensures Drawable(segs[1..], base)
    ensures |Distributed(segs, base, extra)|
         == (base + if 0 < extra then 1 else 0) + |Distributed(segs[1..], base, extra - 1)|
  {
    DrawableTail(segs, base);
  }

  lemma MulSucc(n: int, b: int)
    ensures (n + 1) * b == n * b + b
  {
  }

  /** A non-positive extra count gives no segment an extra piece. */
  lemma {:induction false} DistributedNoExtra(segs: seq<PathElement>, base: int, extra: int)
    requires extra <= 0 && Drawable(segs, base)
    ensures Distributed(segs, base, extra) == Distributed(segs, base, 0)
    decreases |segs|
  {
    if segs != [] {
      DrawableTail(segs, base);
      DistributedNoExtra(segs[1..], base, extra - 1);
      DistributedNoExtra(segs[1..], base, -1);
    }
  }

  /** A cached count is answered from the cache, so asking again after a resample gives the stored pieces. */
  lemma ResegmentedCached(segments: seq<PathElement>, cache: map<int, seq<PathElement>>, amount: int, pieces: seq<PathElement>)
    ensures Resegmented(segments, cache[amount := pieces], amount) == Some(pieces)
  {
  }

  /** Asking for the count the path already has gives its segments back, unless the cache says otherwise. */
  lemma ResegmentedSameCount(segments: seq<PathElement>, cache: map<int, seq<PathElement>>)
    requires |segments| !in cache
    ensures Resegmented(segments, cache, |segments|) == Some(segments)
  {
  }

  /** Only a line, curve or close can be split into any positive number of pieces. */
  predicate Drawing(e: PathElement) {
    e.operation in {AddLine, AddQuadCurve, AddCurve, CloseSubpath}
  }

  /**
   * When every segment after the first draws, asking for more pieces than
   * there are segments gives exactly that many: the first segment, then the
   * base count for each later one and one more for the first `remainder`.
   */
  lemma ResegmentedLength(segments: seq<PathElement>, cache: map<int, seq<PathElement>>, amount: int)
    requires |segments| >= 2 && amount > |segments| && amount !in cache
    requires forall i :: 1 <= i < |segments| ==> Drawing(segments[i])
    ensures Resegmented(segments, cache, amount).Some?
    ensures |Resegmented(segments, cache, amount).value| == amount
    ensures Resegmented(segments, cache, amount).value[0] == segments[0]
  {
    var rest := segments[1..];
    var n := |rest|;
    var remainder := Utilities.SwiftRem(amount - 1, n);
    var base := Utilities.SwiftQuot(amount - 1, n);
    SplitCount(amount - 1, n);
    DrawingTailDrawable(segments, base);
    ResegmentDistributes(rest, base, remainder);
    DistributedLength(rest, base, remainder);
    ResampledFromParts(segments, cache, amount, rest, base, remainder);
  }

  /** The slow path of `segmented(by:)`: the first segment, then the loop over the rest. */
  lemma ResampledFromParts(segments: seq<PathElement>, cache: map<int, seq<PathElement>>, amount: int,
                           rest: seq<PathElement>, base: int, remainder: int)
    requires |segments| >= 2 && amount != |segments| && amount !in cache && rest == segments[1..]
    requires base == Utilities.SwiftQuot(amount - 1, |rest|)
    requires remainder == Utilities.SwiftRem(amount - 1, |rest|)
    requires (base > 1 || remainder > 0) && ResegmentFrom(rest, base, remainder).Some?
    ensures Resegmented(segments, cache, amount) == Some([segments[0]] + ResegmentFrom(rest, base, remainder).value)
  {
    assert |rest| == |segments| - 1;
  }

  lemma DrawingTailDrawable(segments: seq<PathElement>, base: int)
    requires segments != [] && base >= 1
    requires forall i :: 1 <= i < |segments| ==> Drawing(segments[i])
    ensures Drawable(segments[1..], base)
  {
    var rest := segments[1..];
    forall i | 0 <= i < |rest|
      ensures rest[i].operation != Move && SegmentableBy(rest[i], base)
    {
      assert rest[i] == segments[i + 1];
    }
  }

  /** Dividing a count above `n` among `n` segments: a positive base, and more than one piece somewhere. */
  lemma SplitCount(a: int, n: int)
    requires a > n >= 1
    ensures var base, remainder := Utilities.SwiftQuot(a, n), Utilities.SwiftRem(a, n);
      base >= 1 && 0 <= remainder < n && a == n * base + remainder && (base > 1 || remainder > 0)
  {
    var base, remainder := Utilities.SwiftQuot(a, n), Utilities.SwiftRem(a, n);
    assert base == a / n;
    assert a == base * n + remainder;
    if base == 1 {
      assert a == n + remainder;
    }
  }
}
