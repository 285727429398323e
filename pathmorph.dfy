/**
 * Morphing one path into another: both sides are read into `Path`s, two
 * paths with different segment counts are re-segmented to the larger count
 * and cyclically reordered so that each starts with its segment nearest to
 * its anchor, and then the segments are lerped pairwise.
 */
module PathMorph {
  import opened Wrappers
  import opened Vectors
  import opened PathElements
  import opened Folds
  import opened Segmentable
  import opened PathGeometry
  import opened PathCommands
  import opened PathObjects
  import Utilities

  // Reordering.

  /**
   * The comparator key of `reorder`: the distance from the reference
   * origin, or 0 without a reference.  Squared, which orders the same.
   */
  function NearKey(compared: Option<PathElement>, e: PathElement): real {
    if compared.None? then 0.0 else DistanceSquared(compared.value.origin, e.origin)
  }

  function NearLess(compared: Option<PathElement>): (PathElement, PathElement) -> bool {
    (a, b) => NearKey(compared, a) < NearKey(compared, b)
  }

  /** `firstIndex(of:)`: the first position holding `x`. */
  function FirstIndex<T(==)>(s: seq<T>, x: T): (r: Option<nat>)
    ensures r.Some? <==> x in s
    ensures r.Some? ==> r.value < |s| && s[r.value] == x && forall j :: 0 <= j < r.value ==> s[j] != x
  {
    if s == [] then None
    else if s[0] == x then Some(0)
    else
      var r := FirstIndex(s[1..], x);
      if r.None? then None else Some(r.value + 1)
  }

  /** `k` left rotations: `removeFirst` then `append`, `k` times. */
  function Rotated<T>(s: seq<T>, k: nat): (r: seq<T>)
    requires k <= |s|
    ensures |r| == |s|
    ensures forall i :: 0 <= i < |s| ==> r[i] == if i + k < |s| then s[i + k] else s[i + k - |s|]
  {
    s[k..] + s[..k]
  }

  /** One more left rotation moves the new head to the back. */
  lemma RotatedStep<T>(s: seq<T>, k: nat)
    requires k < |s|
    ensures Rotated(s, k)[1..] + [Rotated(s, k)[0]] == Rotated(s, k + 1)
  {
    var a, b := Rotated(s, k), Rotated(s, k + 1);
    assert a[1..] + [a[0]] == s[k + 1..] + s[..k + 1];
  }

  /** Every left rotation keeps the elements. */
  lemma RotatedPermutes<T>(s: seq<T>, k: nat)
    requires k <= |s|
    ensures multiset(Rotated(s, k)) == multiset(s)
  {
    assert s == s[..k] + s[k..];
  }

  /**
   * `reorder(segments:whereFirstElementIsMostSimilarTo:)`: the segment
   * `min(by:)` picks, at the first position that holds it, becomes an
   * `openSubpath`, and the list is rotated left until it comes first.  An
   * empty list is left alone.
   */
  function Reordered(segments: seq<PathElement>, compared: Option<PathElement>): (r: seq<PathElement>)
    ensures |r| == |segments|
    ensures segments == [] ==> r == []
  {
    var closest := MinBy(segments, NearLess(compared));
    if closest.None? then segments
    else
      var index := FirstIndex(segments, closest.value).value;
      Rotated(segments[index := closest.value.(operation := OpenSubpath)], index)
  }

  /** `k` is the first position of a segment nearest to the reference. */
  ghost predicate FirstNearest(segments: seq<PathElement>, compared: Option<PathElement>, k: nat) {
    k < |segments|
    && (forall i :: 0 <= i < |segments| ==> NearKey(compared, segments[k]) <= NearKey(compared, segments[i]))
    && (forall i :: 0 <= i < k ==> NearKey(compared, segments[k]) < NearKey(compared, segments[i]))
  }

  /**
   * The reordered list is the marked list rotated by the first position of
   * a nearest segment: that segment, now an `openSubpath`, comes first.
   */
  lemma ReorderedRotatesNearest(segments: seq<PathElement>, compared: Option<PathElement>, k: nat)
    requires FirstNearest(segments, compared, k)
    ensures var marked := segments[k := segments[k].(operation := OpenSubpath)];
      Reordered(segments, compared) == Rotated(marked, k)
      && Reordered(segments, compared)[0] == segments[k].(operation := OpenSubpath)
      && multiset(Reordered(segments, compared)) == multiset(marked)
  {
    var key := (e: PathElement) => NearKey(compared, e);
    assert ComparesKey(NearLess(compared), key);
    MinByFirstLeast(segments, NearLess(compared), key, k);
    assert FirstIndex(segments, segments[k]).value == k;
    RotatedPermutes(segments[k := segments[k].(operation := OpenSubpath)], k);
  }

  /** A non-empty list always has a first nearest segment. */
  lemma {:induction false} FirstNearestExists(segments: seq<PathElement>, compared: Option<PathElement>)
    requires segments != []
    ensures exists k :: FirstNearest(segments, compared, k)
    decreases |segments|
  {
    var n := |segments|;
    if n > 1 {
      var init := segments[..n - 1];
      FirstNearestExists(init, compared);
      var k: nat :| FirstNearest(init, compared, k);
      if NearKey(compared, segments[n - 1]) < NearKey(compared, segments[k]) {
        assert FirstNearest(segments, compared, n - 1);
      } else {
        assert FirstNearest(segments, compared, k);
      }
    } else {
      assert FirstNearest(segments, compared, 0);
    }
  }

  /** Without a reference every key is 0, so the head is marked and nothing rotates. */
  lemma ReorderedWithoutReference(segments: seq<PathElement>)
    requires segments != []
    ensures Reordered(segments, None) == segments[0 := segments[0].(operation := OpenSubpath)]
  {
    assert FirstNearest(segments, None, 0);
    ReorderedRotatesNearest(segments, None, 0);
    assert Rotated(segments[0 := segments[0].(operation := OpenSubpath)], 0) == segments[0 := segments[0].(operation := OpenSubpath)];
  }

  /** `remove(at: i)` then `insert(x, at: i)` replaces the element at `i`. */
  lemma RemoveInsert<T>(s: seq<T>, i: nat, x: T)
    requires i < |s|
    ensures var removed := s[..i] + s[i + 1..];
      removed[..i] + [x] + removed[i..] == s[i := x]
  {
    var removed := s[..i] + s[i + 1..];
    assert removed[..i] == s[..i];
    assert removed[i..] == s[i + 1..];
  }

  /** The reordered list is the marked list rotated by the position `firstIndex(of:)` finds. */
  lemma ReorderedAtFound(segments: seq<PathElement>, compared: Option<PathElement>, closest: PathElement, index: nat)
    requires MinBy(segments, NearLess(compared)) == Some(closest) && FirstIndex(segments, closest) == Some(index)
    ensures index < |segments|
    ensures Reordered(segments, compared) == Rotated(segments[index := closest.(operation := OpenSubpath)], index)
  {
  }

  /** No rotation leaves the list as it is. */
  lemma RotatedNone<T>(s: seq<T>)
    ensures Rotated(s, 0) == s
  {
    assert s[0..] + s[..0] == s;
  }

  /** `reorder` on its `inout` list: mark, remove, insert, then rotate one step at a time. */
  method Reorder(segments: seq<PathElement>, compared: Option<PathElement>) returns (r: seq<PathElement>)
    ensures r == Reordered(segments, compared)
  {
    r := segments;
    var closest := MinBy(r, NearLess(compared));
    if closest.None? {
      return;
    }
    var found := FirstIndex(r, closest.value);
    var closestToSegment := closest.value.(operation := OpenSubpath);
    var closestIndex := found.value;
    ghost var total := closestIndex;
    r := r[..closestIndex] + r[closestIndex + 1..];
    r := r[..closestIndex] + [closestToSegment] + r[closestIndex..];
    ghost var marked := segments[total := closestToSegment];
    RemoveInsert(segments, total, closestToSegment);
    ReorderedAtFound(segments, compared, closest.value, total);
    RotatedNone(marked);
    while closestIndex > 0
      invariant 0 <= closestIndex <= total
      invariant r == Rotated(marked, total - closestIndex)
    {
      RotatedStep(marked, total - closestIndex);
      r := r[1..] + [r[0]];
      closestIndex := closestIndex - 1;
    }
  }

  // The path lerp.

  /** What `lerp(to:with:)` hands back: the target path itself, or a new path of lerped elements. */
  datatype MorphedPath = TargetPath | NewPath(elements: seq<PathElement>)

  /** `zip(from, to)` with each pair lerped, in order. */
  function Paired(from: seq<PathElement>, to: seq<PathElement>, progress: real): seq<PathElement> {
    seq(if |from| <= |to| then |from| else |to|, i requires 0 <= i < |from| && i < |to| => ElementLerp(from[i], to[i], progress))
  }

  /**
   * The larger of two counts, `Swift.max` on `Int`.  Swift's `max` is one
   * generic function over `Comparable`; without that protocol here it has
   * this integer instance beside the `CGFloat` one, `Utilities.Max`.
   */
  function MaxCount(a: int, b: int): (r: int)
    ensures r >= a && r >= b && (r == a || r == b)
  {
    if b >= a then b else a
  }

  /**
   * The box a freshly read path holds after `segmented(by:)`: recomputed
   * when the call resampled, otherwise still the origin box of `init`.
   */
  function BoxAfterSegmented(segments: seq<PathElement>, amount: int): BoundingBox {
    if Resamples(segments, map[], amount) then BoxOf(segments) else MakeBox(Zero(), Zero())
  }

  /**
   * `CGPath.lerp(to:with:)` on the command lists both paths enumerate:
   * the target when either side has no segments; equal counts pair the
   * segments by index; otherwise both are re-segmented to the larger count,
   * each reordered to start nearest to its path's anchor, and then paired.
   * `None` stands for the trap of re-segmenting a one-segment path.
   */
  function PathLerp(from: seq<DrawCommand>, to: seq<DrawCommand>, progress: real): (r: Option<MorphedPath>)
    ensures r == Some(TargetPath) <==> Read(from).segments == [] || Read(to).segments == []
  {
    var fromSegments, toSegments := Read(from).segments, Read(to).segments;
    if fromSegments == [] || toSegments == [] then Some(TargetPath)
    else if |fromSegments| == |toSegments| then Some(NewPath(Paired(fromSegments, toSegments, progress)))
    else MorphResampled(fromSegments, toSegments, progress)
  }

  /**
   * The branch for different counts: both sides re-segmented to the larger
   * count, each reordered to start nearest to its anchor, then paired.
   */
  function MorphResampled(fromSegments: seq<PathElement>, toSegments: seq<PathElement>, progress: real): Option<MorphedPath> {
    var partCount := MaxCount(|fromSegments|, |toSegments|);
    var fromParts, toParts := Resegmented(fromSegments, map[], partCount), Resegmented(toSegments, map[], partCount);
    if fromParts.None? || toParts.None? then None
    else
      var fromAnchor := HighestCentered(fromSegments, BoxAfterSegmented(fromSegments, partCount));
      var toAnchor := HighestCentered(toSegments, BoxAfterSegmented(toSegments, partCount));
      Some(NewPath(Paired(Reordered(fromParts.value, fromAnchor), Reordered(toParts.value, toAnchor), progress)))
  }

  /** `zip(from, to).forEach`: each pair lerped and added to the new path in turn. */
  method LerpPairs(from: seq<PathElement>, to: seq<PathElement>, progress: real) returns (elements: seq<PathElement>)
    ensures elements == Paired(from, to, progress)
  {
    var n := if |from| <= |to| then |from| else |to|;
    elements := [];
    for i := 0 to n
      invariant |elements| == i
      invariant forall j :: 0 <= j < i ==> elements[j] == ElementLerp(from[j], to[j], progress)
    {
      elements := elements + [ElementLerp(from[i], to[i], progress)];
    }
  }

  /** The morph on `Path` objects, with the pairs lerped one at a time. */
  method LerpPath(from: seq<DrawCommand>, to: seq<DrawCommand>, progress: real) returns (r: MorphedPath)
    requires PathLerp(from, to, progress).Some?
    ensures r == PathLerp(from, to, progress).value
  {
    var fromPath := PathFromCommands(from);
    var toPath := PathFromCommands(to);
    if fromPath.segments == [] || toPath.segments == [] {
      return TargetPath;
    }
    var fromSegments, toSegments := fromPath.segments, toPath.segments;
    if |fromSegments| != |toSegments| {
      var partCount := MaxCount(|fromSegments|, |toSegments|);
      fromSegments := fromPath.Segmented(partCount);
      toSegments := toPath.Segmented(partCount);
      var fromAnchor := fromPath.HighestCenteredElement();
      var toAnchor := toPath.HighestCenteredElement();
      fromSegments := Reorder(fromSegments, fromAnchor);
      toSegments := Reorder(toSegments, toAnchor);
    }
    var elements := LerpPairs(fromSegments, toSegments, progress);
    r := NewPath(elements);
  }

  /** Equal non-zero counts pair the read segments by index; at progress 1 the result is the target's segments. */
  lemma PathLerpSameCount(from: seq<DrawCommand>, to: seq<DrawCommand>, progress: real)
    requires Read(from).segments != [] && |Read(from).segments| == |Read(to).segments|
    ensures PathLerp(from, to, progress).Some? && PathLerp(from, to, progress).value.NewPath?
    ensures var e := PathLerp(from, to, progress).value.elements;
      |e| == |from|
      && (forall i :: 0 <= i < |e| ==> e[i] == ElementLerp(Read(from).segments[i], Read(to).segments[i], progress))
      && (progress == 1.0 ==> e == Read(to).segments)
  {
    var t := Read(to).segments;
    assert Read(from).segments == Built(from).segments;
    if progress == 1.0 {
      assert Paired(Read(from).segments, t, progress) == t;
    }
  }

  /** A one-segment path facing a longer one traps: `segmented(by:)` divides by zero. */
  lemma PathLerpTrapsOnSingle(from: seq<DrawCommand>, to: seq<DrawCommand>, progress: real)
    requires |Read(from).segments| == 1 && |Read(to).segments| > 1
    ensures PathLerp(from, to, progress).None?
  {
  }

  /**
   * Different counts of at least two segments, where the shorter path
   * draws after its first segment: both sides are brought to the larger
   * count, and at progress 1 the result is the target's re-segmented list
   * rotated so that an `openSubpath` comes first.
   */
  lemma PathLerpResampled(from: seq<DrawCommand>, to: seq<DrawCommand>, progress: real)
    requires var f, t := Read(from).segments, Read(to).segments;
      |f| >= 2 && |t| >= 2 && |f| != |t|
      && (|f| < |t| ==> forall i :: 1 <= i < |f| ==> Drawing(f[i]))
      && (|t| < |f| ==> forall i :: 1 <= i < |t| ==> Drawing(t[i]))
    ensures PathLerp(from, to, progress).Some? && PathLerp(from, to, progress).value.NewPath?
    ensures var e := PathLerp(from, to, progress).value.elements;
      |e| == MaxCount(|Read(from).segments|, |Read(to).segments|)
      && (progress == 1.0 ==> e[0].operation == OpenSubpath)
  {
    MorphResampledShape(Read(from).segments, Read(to).segments, progress);
  }

  /** The resampled morph of two segment lists, as `PathLerpResampled` states it for paths. */
  lemma MorphResampledShape(f: seq<PathElement>, t: seq<PathElement>, progress: real)
    requires |f| >= 2 && |t| >= 2 && |f| != |t|
    requires |f| < |t| ==> forall i :: 1 <= i < |f| ==> Drawing(f[i])
    requires |t| < |f| ==> forall i :: 1 <= i < |t| ==> Drawing(t[i])
    ensures MorphResampled(f, t, progress).Some? && MorphResampled(f, t, progress).value.NewPath?
    ensures var e := MorphResampled(f, t, progress).value.elements;
      |e| == MaxCount(|f|, |t|) && (progress == 1.0 ==> e[0].operation == OpenSubpath)
  {
    var n := MaxCount(|f|, |t|);
    if |f| < |t| {
      ResegmentedLength(f, map[], n);
      ResegmentedSameCount(t, map[]);
    } else {
      ResegmentedLength(t, map[], n);
      ResegmentedSameCount(f, map[]);
    }
    var fromParts, toParts := Resegmented(f, map[], n).value, Resegmented(t, map[], n).value;
    var toAnchor := HighestCentered(t, BoxAfterSegmented(t, n));
    var source := Reordered(fromParts, HighestCentered(f, BoxAfterSegmented(f, n)));
    var target := Reordered(toParts, toAnchor);
    assert |source| == n && |target| == n;
    assert MorphResampled(f, t, progress) == Some(NewPath(Paired(source, target, progress)));
    if progress == 1.0 {
      PairedStartsOpen(source, toParts, toAnchor);
    }
  }

  /** At progress 1 the first pair is the reordered target's head, an `openSubpath`. */
  lemma PairedStartsOpen(source: seq<PathElement>, toParts: seq<PathElement>, toAnchor: Option<PathElement>)
    requires |source| == |toParts| > 0
    ensures Paired(source, Reordered(toParts, toAnchor), 1.0)[0].operation == OpenSubpath
  {
    var target := Reordered(toParts, toAnchor);
    FirstNearestExists(toParts, toAnchor);
    var k: nat :| FirstNearest(toParts, toAnchor, k);
    ReorderedRotatesNearest(toParts, toAnchor, k);
    assert Paired(source, target, 1.0)[0] == target[0];
  }
}
