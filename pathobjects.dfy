/**
 * The `Path` class: the segments read from a `CGPath`, their grouping into
 * subpaths, the cache of re-segmentations by count, and the bounding box
 * the last re-segmentation computed.
 */
module PathObjects {
  import opened Wrappers
  import opened Vectors
  import opened PathElements
  import opened Segmentable
  import opened PathGeometry
  import opened PathCommands
  import Utilities

  class Path {
    var segments: seq<PathElement>
    var subpaths: seq<seq<PathElement>>
    var segmentedCache: map<int, seq<PathElement>>
    var boundingBox: BoundingBox

    /** `init(elements:)`: the other fields start empty, the box at the origin. */
    constructor(elements: seq<PathElement>)
      ensures segments == elements && subpaths == [] && segmentedCache == map[]
      ensures boundingBox == MakeBox(Zero(), Zero())
    {
      segments := elements;
      subpaths := [];
      segmentedCache := map[];
      boundingBox := MakeBox(Zero(), Zero());
    }

    /** The fields a command fold writes, as a value. */
    function State(): Builder
      reads this
    {
      Builder(segments, subpaths)
    }

    /** `highestCenteredElement`, read against the box currently stored. */
    function HighestCenteredElement(): (r: Option<PathElement>)
      reads this
      ensures r.None? <==> segments == []
      ensures r.Some? ==> r.value in segments
    {
      HighestCentered(segments, boundingBox)
    }

    /** `updateBoundingBox`: only the box changes. */
    method UpdateBoundingBox()
      modifies this
      ensures boundingBox == BoxOf(segments)
      ensures segments == old(segments) && subpaths == old(subpaths) && segmentedCache == old(segmentedCache)
    {
      boundingBox := BoxOf(segments);
    }

    /**
     * `CGPath.appendElement(cgPathElement:path:)`: pop the last subpath,
     * put the default zero-move in front when the first command draws,
     * append the new element, push the subpath back, append the element to
     * `segments`, and open an empty subpath after a close.
     */
    method AppendElement(cmd: DrawCommand)
      modifies this
      ensures State() == Appended(old(State()), cmd)
      ensures segmentedCache == old(segmentedCache) && boundingBox == old(boundingBox)
    {
      var previous := if |segments| > 0 then segments[|segments| - 1] else Init();
      var pathSegment := SegmentFor(State(), cmd);
      ghost var front := if !cmd.MoveTo? && segments == [] then [Previous(segments)] else [];
      ghost var grown := PushLast(subpaths, front + [pathSegment]);
      ghost var popped := if subpaths == [] then [] else subpaths[..|subpaths| - 1];
      ghost var oldLast := if subpaths == [] then [] else subpaths[|subpaths| - 1];
      var lastSubpath: seq<PathElement> := [];
      if |subpaths| > 0 {
        lastSubpath := subpaths[|subpaths| - 1];
        subpaths := subpaths[..|subpaths| - 1];
      }
      Utilities.ConcatAssociative(lastSubpath, front, [pathSegment]);
      if !cmd.MoveTo? && |segments| == 0 {
        lastSubpath := lastSubpath + [previous];
      }
      assert lastSubpath == oldLast + front;
      lastSubpath := lastSubpath + [pathSegment];
      assert grown == popped + [lastSubpath];
      subpaths := subpaths + [lastSubpath];
      segments := segments + [pathSegment];
      if cmd.Close? {
        subpaths := subpaths + [[]];
      }
    }

    /** The trailing-subpath cleanup at the end of `CGPath.path`. */
    method RemoveTrailingEmptySubpath()
      modifies this
      ensures State() == Cleaned(old(State()))
      ensures segmentedCache == old(segmentedCache) && boundingBox == old(boundingBox)
    {
      if |subpaths| > 0 && subpaths[|subpaths| - 1] == [] {
        subpaths := subpaths[..|subpaths| - 1];
      }
    }

    /**
     * `segmented(by:)`: the cached or unchanged segments on the fast paths;
     * otherwise the first segment followed by each later one cut into the
     * base count, plus one while the remainder is positive, after which the
     * box is recomputed and the result cached.  The division traps for a
     * one-segment path, which the precondition excludes with every other
     * trap.
     */
    method Segmented(amount: int) returns (result: seq<PathElement>)
      requires Resegmented(segments, segmentedCache, amount).Some?
      modifies this
      ensures result == Resegmented(old(segments), old(segmentedCache), amount).value
      ensures segments == old(segments) && subpaths == old(subpaths)
      ensures Resamples(old(segments), old(segmentedCache), amount) ==>
        segmentedCache == old(segmentedCache)[amount := result] && boundingBox == BoxOf(segments)
      ensures !Resamples(old(segments), old(segmentedCache), amount) ==>
        segmentedCache == old(segmentedCache) && boundingBox == old(boundingBox)
    {
      if !(amount != |segments| && amount !in segmentedCache) {
        return if amount in segmentedCache then segmentedCache[amount] else segments;
      }
      assert Resegmented(segments, segmentedCache, amount) == Resampled(segments, amount);
      var remainder := Utilities.SwiftRem(amount - 1, |segments| - 1);
      var baseAmount := Utilities.SwiftQuot(amount - 1, |segments| - 1);
      if !(baseAmount > 1 || remainder > 0) {
        return segments;
      }
      var first := if |segments| > 0 then segments[0] else Init();
      var rest := if |segments| > 0 then segments[1..] else [];
      var pieces := ResegmentLoop(rest, baseAmount, remainder);
      var newSegments := [first] + pieces;
      UpdateBoundingBox();
      segmentedCache := segmentedCache[amount := newSegments];
      result := newSegments;
    }
  }

  /**
   * `CGPath.path`: a fresh path, every command appended in order, then the
   * trailing empty subpath removed.
   */
  method PathFromCommands(cmds: seq<DrawCommand>) returns (path: Path)
    ensures fresh(path)
    ensures path.State() == Read(cmds)
    ensures path.segmentedCache == map[] && path.boundingBox == MakeBox(Zero(), Zero())
  {
    path := new Path([]);
    for i := 0 to |cmds|
      invariant path.State() == Built(cmds[..i])
      invariant path.segmentedCache == map[] && path.boundingBox == MakeBox(Zero(), Zero())
    {
      assert cmds[..i + 1][..i] == cmds[..i];
      path.AppendElement(cmds[i]);
    }
    assert cmds[..|cmds|] == cmds;
    path.RemoveTrailingEmptySubpath();
  }
}
