/**
 * Interpolation of the QuartzCore value types: points, vectors and control
 * points through their `x`/`y` key paths, sizes clamped at zero, rectangles
 * by origin and size, and the two transform types through all their
 * matrix entries.
 */
module QuartzCore {
  import opened Animatable
  import opened KeyPaths
  import opened Vectors
  import Utilities

  function Components(p: Point): seq<real> { [p.x, p.y] }

  /** The key paths `[\x, \y]` of ControlPoint and CGPoint (and `[\dx, \dy]` of CGVector). */
  const PointKeyPaths: seq<nat> := [0, 1]

  /** ControlPoint, CGPoint and CGVector lerp: exactly the two coordinates. */
  function PointLerp(a: Point, b: Point, progress: real): (r: Point)
    ensures r == Point(Lerp(a.x, b.x, progress), Lerp(a.y, b.y, progress))
  {
    var c := KeyPathLerped(Components(a), Components(b), PointKeyPaths, progress);
    Point(c[0], c[1])
  }

  datatype Size = Size(width: real, height: real)

  datatype Rect = Rect(origin: Point, size: Size)

  /** `CGSize.lerp`: each dimension is lerped and then floored at zero by `max(0.0, …)`. */
  function SizeLerp(a: Size, b: Size, progress: real): (r: Size)
    ensures r.width >= 0.0 && r.height >= 0.0
    ensures Lerp(a.width, b.width, progress) >= 0.0 ==> r.width == Lerp(a.width, b.width, progress)
    ensures Lerp(a.height, b.height, progress) >= 0.0 ==> r.height == Lerp(a.height, b.height, progress)
    ensures Lerp(a.width, b.width, progress) < 0.0 ==> r.width == 0.0
    ensures Lerp(a.height, b.height, progress) < 0.0 ==> r.height == 0.0
  {
    Size(Utilities.Max(0.0, Lerp(a.width, b.width, progress)),
         Utilities.Max(0.0, Lerp(a.height, b.height, progress)))
  }

  /** Between two real sizes with progress in [0, 1] the clamp never engages. */
  lemma SizeLerpUnclampedBetween(a: Size, b: Size, progress: real)
    requires a.width >= 0.0 && a.height >= 0.0 && b.width >= 0.0 && b.height >= 0.0
    requires 0.0 <= progress <= 1.0
    ensures SizeLerp(a, b, progress)
         == Size(Lerp(a.width, b.width, progress), Lerp(a.height, b.height, progress))
  {
    LerpNonneg(a.width, b.width, progress);
    LerpNonneg(a.height, b.height, progress);
  }

  lemma LerpNonneg(a: real, b: real, progress: real)
    requires a >= 0.0 && b >= 0.0 && 0.0 <= progress <= 1.0
    ensures Lerp(a, b, progress) >= 0.0
  {
    if a <= b {
      LerpBetween(a, b, progress);
    } else {
      LerpBetween(b, a, 1.0 - progress);
      assert Lerp(b, a, 1.0 - progress) == Lerp(a, b, progress);
    }
  }

  /** `CGRect.lerp`: origin lerped by coordinates, size through the clamped size lerp. */
  function RectLerp(a: Rect, b: Rect, progress: real): (r: Rect)
    ensures r.origin == Point(Lerp(a.origin.x, b.origin.x, progress), Lerp(a.origin.y, b.origin.y, progress))
    ensures r.size.width >= 0.0 && r.size.height >= 0.0
    ensures Lerp(a.size.width, b.size.width, progress) >= 0.0 ==> r.size.width == Lerp(a.size.width, b.size.width, progress)
    ensures Lerp(a.size.height, b.size.height, progress) >= 0.0 ==> r.size.height == Lerp(a.size.height, b.size.height, progress)
  {
    Rect(PointLerp(a.origin, b.origin, progress), SizeLerp(a.size, b.size, progress))
  }

  /** `[\a, \b, \c, \d, \tx, \ty]` of CGAffineTransform, a six-entry value. */
  const AffineKeyPaths: seq<nat> := [0, 1, 2, 3, 4, 5]

  /** `[\m11 … \m44]` of CATransform3D, a sixteen-entry value in row order. */
  const Transform3DKeyPaths: seq<nat> := [0, 1, 2, 3, 4, 5, 6, 7, 8, 9, 10, 11, 12, 13, 14, 15]

  /** An affine transform lerp interpolates all six entries. */
  lemma AffineLerpsEveryEntry(a: seq<real>, b: seq<real>, progress: real)
    requires |a| == |b| == 6
    ensures forall i :: 0 <= i < 6 ==> KeyPathLerped(a, b, AffineKeyPaths, progress)[i] == Lerp(a[i], b[i], progress)
  {
    forall i | 0 <= i < 6
      ensures KeyPathLerped(a, b, AffineKeyPaths, progress)[i] == Lerp(a[i], b[i], progress)
    {
      assert AffineKeyPaths[i] == i;
    }
  }

  /** A 3D transform lerp interpolates all sixteen entries. */
  lemma Transform3DLerpsEveryEntry(a: seq<real>, b: seq<real>, progress: real)
    requires |a| == |b| == 16
    ensures forall i :: 0 <= i < 16 ==> KeyPathLerped(a, b, Transform3DKeyPaths, progress)[i] == Lerp(a[i], b[i], progress)
  {
    forall i | 0 <= i < 16
      ensures KeyPathLerped(a, b, Transform3DKeyPaths, progress)[i] == Lerp(a[i], b[i], progress)
    {
      assert Transform3DKeyPaths[i] == i;
    }
  }
}
