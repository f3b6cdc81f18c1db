/** Day 16 compass helpers: the four compass directions, quarter turns, and
    one-cell steps on `size_t` coordinates, which wrap modulo 2^64. */
module Compass {
  import Text

  /** `std::size_t`. */
  type size = n: int | 0 <= n < Text.ULongLimit

  /** The enumerators in declaration order: their values index the per-tile
      direction flags. */
  datatype Direction = North | South | West | East

  /** A tile as (column, row). */
  datatype Coordinates = Coordinates(x: size, y: size)

  /** The enumerator's value. */
  function Index(d: Direction): (i: nat)
    ensures i < 4
  {
    match d
    case North => 0
    case South => 1
    case West => 2
    case East => 3
  }

  /** `static_cast<Direction>(i)`. */
  function FromIndex(i: nat): (d: Direction)
    requires i < 4
    ensures Index(d) == i
  {
    if i == 0 then North else if i == 1 then South else if i == 2 then West else East
  }

  /** Every direction is the cast of its own value. */
  lemma FromIndexOfIndex(d: Direction)
    ensures FromIndex(Index(d)) == d
  {
  }

  /** `get_direction_to_left`: a quarter turn anticlockwise. */
  function LeftOf(d: Direction): Direction
  {
    match d
    case North => West
    case South => East
    case East => North
    case West => South
  }

  /** `get_direction_to_right`: a quarter turn clockwise. */
  function RightOf(d: Direction): Direction
  {
    match d
    case South => West
    case North => East
    case West => North
    case East => South
  }

  /** A left turn and a right turn undo each other, in either order. */
  lemma LeftRightInverse(d: Direction)
    ensures RightOf(LeftOf(d)) == d
    ensures LeftOf(RightOf(d)) == d
  {
  }

  /** Four left turns come back round; a turn always changes the heading. */
  lemma LeftCycle(d: Direction)
    ensures LeftOf(LeftOf(LeftOf(LeftOf(d)))) == d
    ensures LeftOf(d) != d && RightOf(d) != d && LeftOf(d) != RightOf(d)
  {
  }

  /** `get_relative_directions`: ahead, then left, then right. These are
      the three headings other than straight back. */
  function RelativeDirections(d: Direction): (r: seq<Direction>)
    ensures |r| == 3 && r[0] == d
    ensures r[0] != r[1] && r[1] != r[2] && r[0] != r[2]
  {
    [d, LeftOf(d), RightOf(d)]
  }

  /** The relative directions are exactly the headings that do not turn
      straight back. */
  lemma RelativeNotBack(d: Direction)
    ensures forall e :: e in RelativeDirections(d) <==> e != LeftOf(LeftOf(d))
  {
    forall e
      ensures e in RelativeDirections(d) <==> e != LeftOf(LeftOf(d))
    {
      match e
      case North =>
      case South =>
      case West =>
      case East =>
    }
  }

  /** One more, modulo 2^64. */
  function Inc(n: size): size {
    if n == Text.ULongLimit - 1 then 0 else n + 1
  }

  /** One less, modulo 2^64. */
  function Dec(n: size): size {
    if n == 0 then Text.ULongLimit - 1 else n - 1
  }

  /** `Coordinates::operator+`: one tile in the direction given; north is
      one row up. */
  function Plus(c: Coordinates, d: Direction): (r: Coordinates)
    ensures r != c
  {
    match d
    case North => Coordinates(c.x, Dec(c.y))
    case South => Coordinates(c.x, Inc(c.y))
    case West => Coordinates(Dec(c.x), c.y)
    case East => Coordinates(Inc(c.x), c.y)
  }

  /** `Coordinates::operator-`: one tile against the direction given. */
  function Minus(c: Coordinates, d: Direction): (r: Coordinates)
    ensures r != c
  {
    match d
    case North => Coordinates(c.x, Inc(c.y))
    case South => Coordinates(c.x, Dec(c.y))
    case West => Coordinates(Inc(c.x), c.y)
    case East => Coordinates(Dec(c.x), c.y)
  }

  /** A step forward and a step back cancel, in either order, even where
      the unsigned arithmetic wraps. */
  lemma MinusPlus(c: Coordinates, d: Direction)
    ensures Minus(Plus(c, d), d) == c
    ensures Plus(Minus(c, d), d) == c
  {
  }

  /** Away from the wrap-around, a step changes one coordinate by one. */
  lemma PlusExact(c: Coordinates, d: Direction)
    requires 0 < c.x < Text.ULongLimit - 1 && 0 < c.y < Text.ULongLimit - 1
    ensures Plus(c, d) == match d
      case North => Coordinates(c.x, c.y - 1)
      case South => Coordinates(c.x, c.y + 1)
      case West => Coordinates(c.x - 1, c.y)
      case East => Coordinates(c.x + 1, c.y)
  {
  }
}
