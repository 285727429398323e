/**
 * The example app's `lineEndpoints(for:at:currentEndpoints:)`: the lines
 * of De Casteljau's construction at time t.  Each level joins consecutive
 * points with a line and then continues with the points lerped at t
 * between them, until fewer than two points remain.
 */
module GraphContainer {
  import opened Vectors
  import opened QuartzCore

  /** A line's start and end, `LineEndpoints`. */
  datatype LineEndpoints = LineEndpoints(start: Point, end: Point)

  /** The lines of one level: point i - 1 to point i, for each i ≥ 1. */
  function Lines(p: seq<Point>): (r: seq<LineEndpoints>)
    requires |p| >= 2
    ensures |r| == |p| - 1
  {
    seq(|p| - 1, i requires 0 <= i < |p| - 1 => LineEndpoints(p[i], p[i + 1]))
  }

  /** The next level's points: the lerp at t of each consecutive pair. */
  function Lerped(p: seq<Point>, t: real): (r: seq<Point>)
    requires |p| >= 2
    ensures |r| == |p| - 1
  {
    seq(|p| - 1, i requires 0 <= i < |p| - 1 => PointLerp(p[i], p[i + 1], t))
  }

  /** The endpoints the recursion produces after `current`. */
  function AllLines(p: seq<Point>, t: real, current: seq<LineEndpoints>): seq<LineEndpoints>
    decreases |p|
  {
    if |p| < 2 then current else AllLines(Lerped(p, t), t, current + Lines(p))
  }

  /** `lineEndpoints(for:at:currentEndpoints:)`. */
  method LineEndpointsFor(p: seq<Point>, t: real, currentEndpoints: seq<LineEndpoints>) returns (r: seq<LineEndpoints>)
    ensures r == AllLines(p, t, currentEndpoints)
    decreases |p|
  {
    if |p| < 2 {
      return currentEndpoints;
    }
    var newEndpoints := currentEndpoints;
    for index := 1 to |p|
      invariant newEndpoints == currentEndpoints + Lines(p)[..index - 1]
    {
      newEndpoints := newEndpoints + [LineEndpoints(p[index - 1], p[index])];
    }
    assert Lines(p)[..|p| - 1] == Lines(p);
    var newPoints: seq<Point> := [];
    for i := 0 to |p| - 1
      invariant newPoints == Lerped(p, t)[..i]
    {
      newPoints := newPoints + [PointLerp(p[i], p[i + 1], t)];
    }
    assert Lerped(p, t)[..|p| - 1] == Lerped(p, t);
    r := LineEndpointsFor(newPoints, t, newEndpoints);
  }

  /**
   * The recursion adds n(n-1)/2 lines for n points whatever t is, so the
   * lines drawn at one time can be updated index by index at another.
   */
  lemma {:induction false} AllLinesCount(p: seq<Point>, t: real, current: seq<LineEndpoints>)
    ensures |AllLines(p, t, current)| == |current| + |p| * (|p| - 1) / 2
    decreases |p|
  {
    if |p| >= 2 {
      var n := |p|;
      AllLinesCount(Lerped(p, t), t, current + Lines(p));
      var a := (n - 1) * (n - 2);
      assert a + 2 * (n - 1) == n * (n - 1);
      ConsecutiveEven(n - 1);
      Halves(a, n - 1);
      assert |AllLines(p, t, current)| == |current| + (n - 1) + a / 2;
    }
  }

  /** With an even a, (a + 2b) / 2 == a / 2 + b. */
  lemma Halves(a: int, b: int)
    requires a % 2 == 0
    ensures (a + 2 * b) / 2 == a / 2 + b
  {
  }

  /** The product of consecutive integers is even. */
  lemma ConsecutiveEven(m: int)
    ensures (m * (m - 1)) % 2 == 0
  {
    var k := m / 2;
    assert m == 2 * k || m == 2 * k + 1;
    if m == 2 * k {
      var q := k * (m - 1);
      assert m * (m - 1) == 2 * q;
    } else {
      var q := m * k;
      assert m * (m - 1) == 2 * q;
    }
  }

  /** The first level's lines come first: the consecutive pairs of the given points, after `current`. */
  lemma {:induction false} AllLinesStartWithFirstLevel(p: seq<Point>, t: real, current: seq<LineEndpoints>)
    requires |p| >= 2
    ensures |AllLines(p, t, current)| >= |current| + |p| - 1
    ensures AllLines(p, t, current)[..|current| + |p| - 1] == current + Lines(p)
  {
    KeepsPrefix(Lerped(p, t), t, current + Lines(p));
  }

  /** The recursion only ever appends. */
  lemma {:induction false} KeepsPrefix(p: seq<Point>, t: real, current: seq<LineEndpoints>)
    ensures |AllLines(p, t, current)| >= |current|
    ensures AllLines(p, t, current)[..|current|] == current
    decreases |p|
  {
    if |p| >= 2 {
      KeepsPrefix(Lerped(p, t), t, current + Lines(p));
      assert (current + Lines(p))[..|current|] == current;
    }
  }
}
