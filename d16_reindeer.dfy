/** Day 16 reindeer: a heading and a tile, with the headings it may take
    next. The class declares its default heading as `Right`, the fourth
    enumerator of the other direction type; the compass enumerator with the
    same value is `East`. */
module ReindeerHeading {
  import opened Compass

  /** `get_opposite_direction`: straight back. */
  function Opposite(d: Direction): (r: Direction)
    ensures r == LeftOf(LeftOf(d)) && r == RightOf(RightOf(d))
  {
    match d
    case East => West
    case West => East
    case South => North
    case North => South
  }

  /** Turning round twice faces the reindeer the way it started. */
  lemma OppositeInvolution(d: Direction)
    ensures Opposite(Opposite(d)) == d && Opposite(d) != d
  {
  }

  class Reindeer {
    var direction: Direction
    var coordinates: Coordinates

    /** The defaulted constructor: facing east at the origin. */
    constructor ()
      ensures direction == East && coordinates == Coordinates(0, 0)
    {
      direction := East;
      coordinates := Coordinates(0, 0);
    }

    /** `update_coordinates`: only the position changes. */
    method UpdateCoordinates(newCoordinates: Coordinates)
      modifies this
      ensures GetCoordinates() == newCoordinates && direction == old(direction)
    {
      coordinates := newCoordinates;
    }

    /** `update_direction`: only the heading changes. */
    method UpdateDirection(newDirection: Direction)
      modifies this
      ensures direction == newDirection && GetCoordinates() == old(GetCoordinates())
    {
      direction := newDirection;
    }

    /** `get_coordinates`. */
    function GetCoordinates(): Coordinates
      reads this
    {
      coordinates
    }

    /** `Reindeer::get_relative_directions`: ahead, left, right and back,
        which between them are every heading once. */
    function RelativeDirections(): (r: seq<Direction>)
      reads this
      ensures |r| == 4 && r[..3] == Compass.RelativeDirections(direction) && r[3] == Opposite(direction)
      ensures forall i, j :: 0 <= i < j < 4 ==> r[i] != r[j]
    {
      [direction, LeftOf(direction), RightOf(direction), Opposite(direction)]
    }

    /** The four relative directions cover every heading. */
    lemma RelativeCoversAll()
      ensures forall e :: e in RelativeDirections()
    {
      forall e
        ensures e in RelativeDirections()
      {
        match e
        case North =>
        case South =>
        case West =>
        case East =>
      }
    }
  }
}
