/**
 * Two-component vectors (CGPoint and friends) and their componentwise
 * arithmetic.  Scalar operands are first broadcast to `(s, s)`; subtraction
 * is addition of the negation and negation is multiplication by -1, exactly
 * the way the operators are chained in the library.
 */
module Vectors {

  datatype Point = Point(x: real, y: real)

  /** `CGPoint.zero`, also what `Vector.init()` produces. */
  function Zero(): Point { Point(0.0, 0.0) }

  /** `s.vector()`: the scalar on both axes. */
  function Broadcast(s: real): (r: Point)
    ensures r.x == r.y == s
  {
    Point(s, s)
  }

  function Add(lhs: Point, rhs: Point): Point {
    Point(lhs.x + rhs.x, lhs.y + rhs.y)
  }

  function Mul(lhs: Point, rhs: Point): Point {
    Point(lhs.x * rhs.x, lhs.y * rhs.y)
  }

  /** Real division has no infinities, so both divisor components must be non-zero. */
  function Div(lhs: Point, rhs: Point): (r: Point)
    requires rhs.x != 0.0 && rhs.y != 0.0
    ensures Mul(r, rhs) == lhs
  {
    Point(lhs.x / rhs.x, lhs.y / rhs.y)
  }

  /** Prefix `-`: multiplication by the broadcast -1. */
  function Neg(p: Point): (r: Point)
    ensures r == Point(-p.x, -p.y)
  {
    Mul(p, Broadcast(-1.0))
  }

  /** `lhs - rhs` is `lhs + -rhs`. */
  function Sub(lhs: Point, rhs: Point): (r: Point)
    ensures r == Point(lhs.x - rhs.x, lhs.y - rhs.y)
    ensures Add(r, rhs) == lhs
  {
    Add(lhs, Neg(rhs))
  }

  // Mixed scalar/vector forms: the scalar is broadcast to a vector first.

  function ScalarAdd(s: real, p: Point): (r: Point)
    ensures r == Point(s + p.x, s + p.y)
  {
    Add(Broadcast(s), p)
  }

  function AddScalar(p: Point, s: real): (r: Point)
    ensures r == Point(p.x + s, p.y + s)
  {
    Add(p, Broadcast(s))
  }

  function ScalarSub(s: real, p: Point): (r: Point)
    ensures r == Point(s - p.x, s - p.y)
  {
    Sub(Broadcast(s), p)
  }

  function SubScalar(p: Point, s: real): (r: Point)
    ensures r == Point(p.x - s, p.y - s)
  {
    Sub(p, Broadcast(s))
  }

  function ScalarMul(s: real, p: Point): (r: Point)
    ensures r == Point(s * p.x, s * p.y)
  {
    Mul(Broadcast(s), p)
  }

  function MulScalar(p: Point, s: real): (r: Point)
    ensures r == Point(p.x * s, p.y * s)
  {
    Mul(p, Broadcast(s))
  }

  function ScalarDiv(s: real, p: Point): (r: Point)
    requires p.x != 0.0 && p.y != 0.0
    ensures r == Point(s / p.x, s / p.y)
  {
    Div(Broadcast(s), p)
  }

  function DivScalar(p: Point, s: real): (r: Point)
    requires s != 0.0
    ensures r == Point(p.x / s, p.y / s)
  {
    Div(p, Broadcast(s))
  }

  /**
   * The compound assignments `lhs += rhs` and `lhs -= rhs` (vector and
   * scalar forms), as the value they store back into `lhs`.
   */
  method AddAssign(lhs: Point, rhs: Point) returns (r: Point)
    ensures r == Add(lhs, rhs)
  {
    r := lhs;
    r := Add(r, rhs);
  }

  method AddAssignScalar(lhs: Point, s: real) returns (r: Point)
    ensures r == AddScalar(lhs, s)
  {
    r := AddAssign(lhs, Broadcast(s));
  }

  method SubAssign(lhs: Point, rhs: Point) returns (r: Point)
    ensures r == Point(lhs.x - rhs.x, lhs.y - rhs.y)
  {
    r := lhs;
    r := Sub(r, rhs);
  }

  method SubAssignScalar(lhs: Point, s: real) returns (r: Point)
    ensures r == SubScalar(lhs, s)
  {
    r := SubAssign(lhs, Broadcast(s));
  }

  /** `slope(to:)`: zero for a vertical pair, otherwise rise over run. */
  function Slope(p: Point, q: Point): (r: real)
    ensures q.x == p.x ==> r == 0.0
    ensures q.x != p.x ==> r * (q.x - p.x) == q.y - p.y
  {
    if q.x == p.x then 0.0 else (q.y - p.y) / (q.x - p.x)
  }

  /**
   * The squared Euclidean distance.  `distance(to:)` itself takes a square
   * root; every use in the library only compares distances, and the squared
   * distance orders pairs the same way.
   */
  function DistanceSquared(p: Point, q: Point): (r: real)
    ensures r >= 0.0
  {
    var dx, dy := q.x - p.x, q.y - p.y;
    SquareNonneg(dx);
    SquareNonneg(dy);
    dx * dx + dy * dy
  }

  lemma SquareNonneg(d: real)
    ensures d * d >= 0.0
  {
    if d > 0.0 {
      MulPos(d, d);
    } else if d < 0.0 {
      MulPos(-d, -d);
    }
  }

  lemma MulPos(x: real, y: real)
    requires x > 0.0 && y > 0.0
    ensures x * y > 0.0
  {
  }

  // Laws the componentwise definitions give.

  /** `+` is commutative and associative, with the zero vector as unit, and `v - v` is zero. */
  lemma AddLaws(a: Point, b: Point, c: Point)
    ensures Add(a, b) == Add(b, a)
    ensures Add(Add(a, b), c) == Add(a, Add(b, c))
    ensures Add(a, Zero()) == a
    ensures Sub(a, a) == Zero()
    ensures Add(a, Neg(a)) == Zero()
  {
  }

  /** `*` is commutative and the broadcast 1 is its unit; negating twice gives the vector back. */
  lemma MulLaws(a: Point, b: Point)
    ensures Mul(a, b) == Mul(b, a)
    ensures Mul(a, Broadcast(1.0)) == a
    ensures Neg(Neg(a)) == a
  {
  }

  /** `p.slope(to: q) == q.slope(to: p)`. */
  lemma SlopeSymmetric(p: Point, q: Point)
    ensures Slope(p, q) == Slope(q, p)
  {
    if q.x != p.x {
      var dx, dy := q.x - p.x, q.y - p.y;
      assert Slope(p, q) * dx == dy;
      assert Slope(q, p) * (-dx) == -dy;
      assert Slope(q, p) * dx == dy;
      CancelFactor(Slope(p, q), Slope(q, p), dx);
    }
  }

  lemma CancelFactor(u: real, v: real, d: real)
    requires d != 0.0 && u * d == v * d
    ensures u == v
  {
    assert (u - v) * d == 0.0;
  }

  /** Distance is symmetric and zero from a point to itself. */
  lemma DistanceSymmetric(p: Point, q: Point)
    ensures DistanceSquared(p, q) == DistanceSquared(q, p)
    ensures DistanceSquared(p, p) == 0.0
  {
    var dx, dy := q.x - p.x, q.y - p.y;
    assert (-dx) * (-dx) == dx * dx;
    assert (-dy) * (-dy) == dy * dy;
  }
}
