/**
 * The example app's `Movement` option set and `CGPoint.moved(_:by:)`: each
 * direction in the set moves the point by the distance along its axis, in
 * screen coordinates, where upwards is towards smaller y.
 */
module GraphView {
  import opened Vectors

  /** `Movement`, an option set over a machine word. */
  datatype Movement = Movement(rawValue: bv64)

  const ToTheLeft: Movement := Movement(1 << 0)
  const ToTheRight: Movement := Movement(1 << 1)
  const Upwards: Movement := Movement(1 << 2)
  const Downwards: Movement := Movement(1 << 3)

  /** `OptionSet.contains`: every bit of the member is set. */
  predicate Contains(movement: Movement, member: Movement) {
    movement.rawValue & member.rawValue == member.rawValue
  }

  /** The set union `[a, b]`. */
  function Union(a: Movement, b: Movement): Movement {
    Movement(a.rawValue | b.rawValue)
  }

  /** Where each contained direction, taken on its own, puts the point. */
  function MovedBy(position: Point, movement: Movement, distance: real): Point {
    Point(position.x - (if Contains(movement, ToTheLeft) then distance else 0.0)
                     + (if Contains(movement, ToTheRight) then distance else 0.0),
          position.y - (if Contains(movement, Upwards) then distance else 0.0)
                     + (if Contains(movement, Downwards) then distance else 0.0))
  }

  /** `moved(_:by:)`: the four conditional updates, in order. */
  method Moved(point: Point, movement: Movement, distance: real) returns (position: Point)
    ensures position == MovedBy(point, movement, distance)
  {
    position := point;
    if Contains(movement, ToTheLeft) {
      position := position.(x := position.x - distance);
    }
    if Contains(movement, ToTheRight) {
      position := position.(x := position.x + distance);
    }
    if Contains(movement, Upwards) {
      position := position.(y := position.y - distance);
    }
    if Contains(movement, Downwards) {
      position := position.(y := position.y + distance);
    }
  }

  /** The empty set leaves the point where it is. */
  lemma EmptyMovementStays(point: Point, distance: real)
    ensures MovedBy(point, Movement(0), distance) == point
  {
    assert !Contains(Movement(0), ToTheLeft) && !Contains(Movement(0), ToTheRight);
    assert !Contains(Movement(0), Upwards) && !Contains(Movement(0), Downwards);
  }

  /** Each single direction moves along one axis only: left and up by minus the distance. */
  lemma SingleDirections(point: Point, distance: real)
    ensures MovedBy(point, ToTheLeft, distance) == Point(point.x - distance, point.y)
    ensures MovedBy(point, ToTheRight, distance) == Point(point.x + distance, point.y)
    ensures MovedBy(point, Upwards, distance) == Point(point.x, point.y - distance)
    ensures MovedBy(point, Downwards, distance) == Point(point.x, point.y + distance)
  {
    assert !Contains(ToTheLeft, ToTheRight) && !Contains(ToTheLeft, Upwards) && !Contains(ToTheLeft, Downwards);
    assert !Contains(ToTheRight, ToTheLeft) && !Contains(ToTheRight, Upwards) && !Contains(ToTheRight, Downwards);
    assert !Contains(Upwards, ToTheLeft) && !Contains(Upwards, ToTheRight) && !Contains(Upwards, Downwards);
    assert !Contains(Downwards, ToTheLeft) && !Contains(Downwards, ToTheRight) && !Contains(Downwards, Upwards);
  }

  /** Opposite directions cancel: left with right keeps x, upwards with downwards keeps y. */
  lemma OppositesCancel(point: Point, movement: Movement, distance: real)
    ensures Contains(movement, ToTheLeft) && Contains(movement, ToTheRight) ==>
      MovedBy(point, movement, distance).x == point.x
    ensures Contains(movement, Upwards) && Contains(movement, Downwards) ==>
      MovedBy(point, movement, distance).y == point.y
  {
  }

  /** In particular `[.toTheLeft, .toTheRight]` and `[.upwards, .downwards]` do not move the point. */
  lemma OppositePairsStay(point: Point, distance: real)
    ensures MovedBy(point, Union(ToTheLeft, ToTheRight), distance) == point
    ensures MovedBy(point, Union(Upwards, Downwards), distance) == point
  {
    assert Union(ToTheLeft, ToTheRight).rawValue == 3;
    assert Union(Upwards, Downwards).rawValue == 12;
    assert Contains(Movement(3), ToTheLeft) && Contains(Movement(3), ToTheRight);
    assert !Contains(Movement(3), Upwards) && !Contains(Movement(3), Downwards);
    assert Contains(Movement(12), Upwards) && Contains(Movement(12), Downwards);
    assert !Contains(Movement(12), ToTheLeft) && !Contains(Movement(12), ToTheRight);
  }

  /** Moving upwards by a positive distance lowers y. */
  lemma UpwardsDecreasesY(point: Point, movement: Movement, distance: real)
    requires Contains(movement, Upwards) && !Contains(movement, Downwards) && distance > 0.0
    ensures MovedBy(point, movement, distance).y < point.y
  {
  }
}
