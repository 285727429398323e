/**
 * Reading a `CGPath` into a `Path`: every draw command the path enumerates
 * becomes one `PathElement`, appended to `segments` and to the current
 * subpath, and a close starts a new subpath.  This module holds the
 * command type and the fold as values; the `Path` class performs the same
 * steps on its fields.
 */
module PathCommands {
  import opened Wrappers
  import opened Vectors
  import opened PathElements
  import Utilities

  /** The elements `CGPath.applyWithBlock` hands over, with the points each carries. */
  datatype DrawCommand =
    | MoveTo(point: Point)
    | LineTo(point: Point)
    | QuadCurveTo(control: Point, point: Point)
    | CurveTo(control1: Point, control2: Point, point: Point)
    | Close

  /** The two fields `appendElement` writes. */
  datatype Builder = Builder(segments: seq<PathElement>, subpaths: seq<seq<PathElement>>)

  /** `path.segments.last ?? .init()`. */
  function Previous(segments: seq<PathElement>): (r: PathElement)
    ensures segments == [] ==> r == PathElement(Move, Zero(), Zero(), Zero(), Zero())
    ensures segments != [] ==> r == segments[|segments| - 1]
  {
    if segments == [] then Init() else segments[|segments| - 1]
  }

  /** `path.subpaths.last?.first?.destination ?? .zero`. */
  function SubpathStart(subpaths: seq<seq<PathElement>>): Point {
    if subpaths == [] || subpaths[|subpaths| - 1] == [] then Zero()
    else subpaths[|subpaths| - 1][0].destination
  }

  /** The element one command turns into, given what has been read so far. */
  function SegmentFor(b: Builder, cmd: DrawCommand): (e: PathElement)
    ensures !cmd.MoveTo? ==> e.origin == Previous(b.segments).destination
    ensures cmd.Close? ==> e.operation == CloseSubpath && e.destination == SubpathStart(b.subpaths)
    ensures !cmd.Close? ==> e.destination == cmd.point
  {
    var previous := Previous(b.segments);
    match cmd
    case MoveTo(p) => Init(Move, destination := Some(p))
    case LineTo(p) => Init(AddLine, Some(previous.destination), destination := Some(p))
    case QuadCurveTo(c, p) => Init(AddQuadCurve, Some(previous.destination), Some(c), destination := Some(p))
    case CurveTo(c1, c2, p) => Init(AddCurve, Some(previous.destination), Some(c1), Some(c2), Some(p))
    case Close => Init(CloseSubpath, Some(previous.destination), destination := Some(SubpathStart(b.subpaths)))
  }

  /**
   * `appendElement`: pop the last subpath (or start one), put the default
   * zero-move in front of it when the very first command is not a move,
   * append the new element to it and to `segments`, push it back, and push
   * an empty subpath after a close.
   */
  function Appended(b: Builder, cmd: DrawCommand): (r: Builder)
    ensures r.segments == b.segments + [SegmentFor(b, cmd)]
  {
    Pushed(b, cmd, SegmentFor(b, cmd))
  }

  /** The bookkeeping half of `appendElement`, for the element `e` the command turned into. */
  function Pushed(b: Builder, cmd: DrawCommand, e: PathElement): (r: Builder)
    ensures r.segments == b.segments + [e]
  {
    var front := if !cmd.MoveTo? && b.segments == [] then [Previous(b.segments)] else [];
    Builder(b.segments + [e], PushLast(b.subpaths, front + [e]) + if cmd.Close? then [[]] else [])
  }

  /** `popLast() ?? []`, append `items`, push back. */
  function PushLast<T>(subpaths: seq<seq<T>>, items: seq<T>): (r: seq<seq<T>>)
    ensures |r| == if subpaths == [] then 1 else |subpaths|
    ensures forall i :: 0 <= i < |r| - 1 ==> r[i] == subpaths[i]
    ensures r[|r| - 1] == (if subpaths == [] then [] else subpaths[|subpaths| - 1]) + items
  {
    var popped := if subpaths == [] then [] else subpaths[..|subpaths| - 1];
    var last := if subpaths == [] then [] else subpaths[|subpaths| - 1];
    popped + [last + items]
  }

  /** Every command in turn, from an empty path. */
  function Built(cmds: seq<DrawCommand>): (b: Builder)
    ensures |b.segments| == |cmds|
    decreases |cmds|
  {
    if cmds == [] then Builder([], []) else Appended(Built(cmds[..|cmds| - 1]), cmds[|cmds| - 1])
  }

  /** The cleanup after the fold: a trailing empty subpath is dropped. */
  function Cleaned(b: Builder): (r: Builder)
    ensures r.segments == b.segments
    ensures b.subpaths != [] && b.subpaths[|b.subpaths| - 1] == [] ==> r.subpaths == b.subpaths[..|b.subpaths| - 1]
    ensures !(b.subpaths != [] && b.subpaths[|b.subpaths| - 1] == []) ==> r.subpaths == b.subpaths
  {
    if b.subpaths != [] && b.subpaths[|b.subpaths| - 1] == [] then b.(subpaths := b.subpaths[..|b.subpaths| - 1]) else b
  }

  /** The path a command list reads into. */
  function Read(cmds: seq<DrawCommand>): Builder {
    Cleaned(Built(cmds))
  }

  // What the fold keeps.

  /** Reading more commands only extends what earlier commands produced. */
  lemma {:induction false} BuiltPrefix(cmds: seq<DrawCommand>, i: nat)
    requires i <= |cmds|
    ensures Built(cmds[..i]).segments == Built(cmds).segments[..i]
    decreases |cmds|
  {
    if i < |cmds| {
      assert cmds[..|cmds| - 1][..i] == cmds[..i];
      BuiltPrefix(cmds[..|cmds| - 1], i);
    } else {
      assert cmds[..i] == cmds;
    }
  }

  /**
   * Segment i is what command i turns into: a line, curve or close starts
   * where the previous segment ended (at zero for the first command), and
   * every command but a close ends at its own point.
   */
  lemma SegmentsFollowCommands(cmds: seq<DrawCommand>, i: nat)
    requires i < |cmds|
    ensures var segs := Built(cmds).segments;
      segs[i] == SegmentFor(Built(cmds[..i]), cmds[i])
      && (!cmds[i].MoveTo? ==> segs[i].origin == if i == 0 then Zero() else segs[i - 1].destination)
      && (!cmds[i].Close? ==> segs[i].destination == cmds[i].point)
  {
    var segs := Built(cmds).segments;
    var before := Built(cmds[..i]);
    BuiltAt(cmds, i);
    BuiltPrefix(cmds, i);
    assert before.segments == segs[..i];
    if i > 0 {
      assert Previous(before.segments) == segs[i - 1];
    }
  }

  /** Segment i is what command i turns into after the commands before it. */
  lemma BuiltAt(cmds: seq<DrawCommand>, i: nat)
    requires i < |cmds|
    ensures Built(cmds).segments[i] == SegmentFor(Built(cmds[..i]), cmds[i])
  {
    var before := Built(cmds[..i]);
    BuiltPrefix(cmds, i + 1);
    assert cmds[..i + 1][..i] == cmds[..i];
    assert Built(cmds[..i + 1]).segments == before.segments + [SegmentFor(before, cmds[i])];
    assert Built(cmds).segments[i] == Built(cmds[..i + 1]).segments[i];
  }

  /** Concatenation of a list of subpaths. */
  function Flatten<T>(subpaths: seq<seq<T>>): (r: seq<T>)
    decreases |subpaths|
  {
    if subpaths == [] then [] else Flatten(subpaths[..|subpaths| - 1]) + subpaths[|subpaths| - 1]
  }

  /** The default zero-move that heads the first subpath when the first command draws. */
  function Head(cmds: seq<DrawCommand>): seq<PathElement> {
    if cmds != [] && !cmds[0].MoveTo? then [Init()] else []
  }

  /**
   * The subpaths hold exactly the segments, in order, behind the default
   * zero-move when the first command is not a move; only the last subpath
   * can be empty, and it is empty exactly when the last command was a close.
   */
  ghost predicate Shaped(cmds: seq<DrawCommand>, b: Builder) {
    Grouped(b.subpaths, Head(cmds) + b.segments, cmds == [], cmds != [] && cmds[|cmds| - 1].Close?)
  }

  /**
   * `subpaths` concatenate to `all`, none but the last is empty, there are
   * none exactly when nothing was read, and the last is empty exactly after
   * a close.
   */
  ghost predicate Grouped<T>(subpaths: seq<seq<T>>, all: seq<T>, none: bool, closed: bool) {
    Flatten(subpaths) == all
    && (forall i :: 0 <= i < |subpaths| - 1 ==> subpaths[i] != [])
    && (!none ==> subpaths != [] && (subpaths[|subpaths| - 1] == [] <==> closed))
    && (none ==> subpaths == [])
  }

  lemma FlattenAppend<T>(subpaths: seq<seq<T>>, last: seq<T>)
    ensures Flatten(subpaths + [last]) == Flatten(subpaths) + last
  {
    assert (subpaths + [last])[..|subpaths|] == subpaths;
  }

  /** Growing the last subpath grows the concatenation by the same elements. */
  lemma FlattenPushLast<T>(subpaths: seq<seq<T>>, items: seq<T>)
    ensures Flatten(PushLast(subpaths, items)) == Flatten(subpaths) + items
  {
    if subpaths == [] {
      assert PushLast(subpaths, items) == [[] + items];
      assert Flatten([[] + items]) == Flatten([[] + items][..0]) + ([] + items);
    } else {
      var popped, last := subpaths[..|subpaths| - 1], subpaths[|subpaths| - 1];
      FlattenAppend(popped, last + items);
      assert subpaths == popped + [last];
      FlattenAppend(popped, last);
      Utilities.ConcatAssociative(Flatten(popped), last, items);
    }
  }

  /** Growing the last subpath, and possibly opening an empty one, on a concatenation of `head + segments`. */
  lemma FlattenGrown<T>(subpaths: seq<seq<T>>, head: seq<T>, segments: seq<T>, front: seq<T>, e: T, close: bool)
    requires Flatten(subpaths) == head + segments
    requires front == [] || segments == []
    ensures Flatten(PushLast(subpaths, front + [e]) + if close then [[]] else []) == (head + front) + (segments + [e])
  {
    var grown := PushLast(subpaths, front + [e]);
    FlattenPushLast(subpaths, front + [e]);
    if front == [] {
      assert head + front == head && front + [e] == [e];
      Utilities.ConcatAssociative(head, segments, [e]);
    } else {
      assert head + segments == head && segments + [e] == [e];
      Utilities.ConcatAssociative(head, front, [e]);
    }
    assert Flatten(grown) == (head + front) + (segments + [e]);
    if close {
      FlattenAppend(grown, []);
    } else {
      assert grown + [] == grown;
    }
  }

  /** Growing the last subpath, and opening an empty one after a close, keeps the grouping. */
  lemma PushLastGrouped<T>(subpaths: seq<seq<T>>, head: seq<T>, segments: seq<T>, front: seq<T>, e: T, none: bool, closed: bool, close: bool)
    requires Grouped(subpaths, head + segments, none, closed)
    requires front == [] || segments == []
    ensures Grouped(PushLast(subpaths, front + [e]) + (if close then [[]] else []), (head + front) + (segments + [e]), false, close)
  {
    FlattenGrown(subpaths, head, segments, front, e, close);
    var grown := PushLast(subpaths, front + [e]);
    var r := grown + if close then [[]] else [];
    assert grown[|grown| - 1] != [];
    forall i | 0 <= i < |r| - 1
      ensures r[i] != []
    {
      if i < |grown| - 1 {
        assert r[i] == subpaths[i];
      } else {
        assert r[i] == grown[|grown| - 1];
      }
    }
  }

  /** The last command keeps the shape the commands before it left. */
  lemma PushedShaped(cmds: seq<DrawCommand>, b: Builder, e: PathElement)
    requires cmds != []
    requires Shaped(cmds[..|cmds| - 1], b) && |b.segments| == |cmds| - 1
    ensures Shaped(cmds, Pushed(b, cmds[|cmds| - 1], e))
  {
    var init, cmd := cmds[..|cmds| - 1], cmds[|cmds| - 1];
    var front := if !cmd.MoveTo? && b.segments == [] then [Previous(b.segments)] else [];
    PushLastGrouped(b.subpaths, Head(init), b.segments, front, e, init == [],
      init != [] && init[|init| - 1].Close?, cmd.Close?);
    assert Head(init) + front == Head(cmds) by {
      if init != [] {
        assert init[0] == cmds[0];
      }
    }
    assert Pushed(b, cmd, e).subpaths == PushLast(b.subpaths, front + [e]) + (if cmd.Close? then [[]] else []);
  }

  lemma {:induction false} BuiltShaped(cmds: seq<DrawCommand>)
    ensures Shaped(cmds, Built(cmds))
    decreases |cmds|
  {
    if cmds != [] {
      var init := cmds[..|cmds| - 1];
      BuiltShaped(init);
      PushedShaped(cmds, Built(init), SegmentFor(Built(init), cmds[|cmds| - 1]));
    }
  }

  /**
   * After the cleanup no subpath is empty, and the subpaths still hold the
   * segments in order behind the default zero-move.
   */
  lemma ReadSubpaths(cmds: seq<DrawCommand>)
    ensures var r := Read(cmds);
      |r.segments| == |cmds|
      && (forall i :: 0 <= i < |r.subpaths| ==> r.subpaths[i] != [])
      && Flatten(r.subpaths) == Head(cmds) + r.segments
  {
    var b := Built(cmds);
    BuiltShaped(cmds);
    if b.subpaths != [] && b.subpaths[|b.subpaths| - 1] == [] {
      assert b.subpaths == b.subpaths[..|b.subpaths| - 1] + [[]];
      FlattenAppend(b.subpaths[..|b.subpaths| - 1], []);
    }
  }

  /**
   * A close returns to the start of the subpath it closes: the subpath it
   * ends, now second to last, starts with an element whose destination is
   * the close's destination.
   */
  lemma CloseReturnsToStart(b: Builder, cmd: DrawCommand)
    requires cmd.Close?
    ensures var r := Appended(b, cmd);
      |r.subpaths| >= 2 && r.subpaths[|r.subpaths| - 2] != []
      && r.subpaths[|r.subpaths| - 2][0].destination == r.segments[|r.segments| - 1].destination
  {
  }
}
