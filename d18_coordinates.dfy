/** Day 18 memory coordinates: cells of the 71 by 71 memory space, the
    directions a step may take from a cell without leaving the space, and the
    neighbours reached that way. */
module MemoryCoordinates {
  import Compass

  /** `max_width` and `max_height`. */
  const MaxWidth: nat := 71
  const MaxHeight: nat := 71

  datatype Direction = Left | Right | Down | Up

  /** A cell as (column, row); both are `size_t`. */
  datatype Coordinates = Coordinates(x: Compass.size, y: Compass.size)

  predicate InGrid(c: Coordinates) {
    c.x < MaxWidth && c.y < MaxHeight
  }

  /** Two cells side by side, horizontally or vertically. */
  predicate Touches(c: Coordinates, w: Coordinates) {
    (c.x == w.x && (c.y == w.y + 1 || w.y == c.y + 1)) ||
    (c.y == w.y && (c.x == w.x + 1 || w.x == c.x + 1))
  }

  /** `Coordinates::available_directions`: every direction but the ones that
      would cross an edge of the space. */
  function AvailableDirections(c: Coordinates): (r: set<Direction>)
    ensures Left in r <==> c.x != 0
    ensures Up in r <==> c.y != 0
    ensures Down in r <==> c.y != MaxHeight - 1
    ensures Right in r <==> c.x != MaxWidth - 1
  {
    (if c.x != 0 then {Left} else {}) +
    (if c.y != 0 then {Up} else {}) +
    (if c.y != MaxHeight - 1 then {Down} else {}) +
    (if c.x != MaxWidth - 1 then {Right} else {})
  }

  /** `Coordinates::operator==`: componentwise, which is value equality. */
  predicate Equals(a: Coordinates, b: Coordinates)
    ensures Equals(a, b) <==> a == b
  {
    a.x == b.x && a.y == b.y
  }

  /** `Coordinates::operator+`: one cell in the direction given, with
      `size_t` arithmetic; up is one row less. */
  function Plus(c: Coordinates, d: Direction): (r: Coordinates)
    ensures r != c
    ensures d == Left || d == Right ==> r.y == c.y
    ensures d == Up || d == Down ==> r.x == c.x
  {
    match d
    case Left => Coordinates(Compass.Dec(c.x), c.y)
    case Up => Coordinates(c.x, Compass.Dec(c.y))
    case Down => Coordinates(c.x, Compass.Inc(c.y))
    case Right => Coordinates(Compass.Inc(c.x), c.y)
  }

  /** From a cell of the space, an available direction leads to a
      neighbouring cell of the space, without wrapping. */
  lemma PlusAvailable(c: Coordinates, d: Direction)
    requires InGrid(c) && d in AvailableDirections(c)
    ensures InGrid(Plus(c, d)) && Touches(c, Plus(c, d))
    ensures Plus(c, d) == match d
      case Left => Coordinates(c.x - 1, c.y)
      case Up => Coordinates(c.x, c.y - 1)
      case Down => Coordinates(c.x, c.y + 1)
      case Right => Coordinates(c.x + 1, c.y)
  {
  }

  /** The cell reached in `d`, as a sequence of one, when `d` is available. */
  function StepTo(c: Coordinates, d: Direction): (r: seq<Coordinates>)
    ensures |r| <= 1 && (r != [] <==> d in AvailableDirections(c))
    ensures InGrid(c) ==> forall w :: w in r ==> InGrid(w) && Touches(c, w)
  {
    if d !in AvailableDirections(c) then []
    else if InGrid(c) then PlusAvailable(c, d); [Plus(c, d)]
    else [Plus(c, d)]
  }

  /** `Coordinates::adjacent_coordinates`: the cell one step away in each
      available direction. The directions come out of an
      `std::unordered_set`, whose order is unspecified; the model takes them
      in the order they are inserted. */
  function AdjacentCoordinates(c: Coordinates): (r: seq<Coordinates>)
    ensures forall d :: Plus(c, d) in r <==> d in AvailableDirections(c)
    ensures forall i, j :: 0 <= i < j < |r| ==> r[i] != r[j]
    ensures InGrid(c) ==> forall w :: w in r <==> InGrid(w) && Touches(c, w)
    ensures InGrid(c) ==> 2 <= |r| <= 4
  {
    var r := StepTo(c, Left) + StepTo(c, Up) + StepTo(c, Down) + StepTo(c, Right);
    NeighboursPerDirection(c, r);
    NeighboursDistinct(c, r);
    if InGrid(c) then NeighboursInGrid(c, r); r else r
  }

  /** Different directions lead to different cells, even where `size_t`
      wraps. */
  lemma PlusInjective(c: Coordinates, d: Direction, e: Direction)
    requires Plus(c, d) == Plus(c, e)
    ensures d == e
  {
  }

  lemma NeighboursPerDirection(c: Coordinates, r: seq<Coordinates>)
    requires r == StepTo(c, Left) + StepTo(c, Up) + StepTo(c, Down) + StepTo(c, Right)
    ensures forall d :: Plus(c, d) in r <==> d in AvailableDirections(c)
  {
    forall d
      ensures Plus(c, d) in r <==> d in AvailableDirections(c)
    {
      if Plus(c, d) in r {
        var e :| e in {Left, Up, Down, Right} && Plus(c, d) in StepTo(c, e);
        PlusInjective(c, d, e);
      }
    }
  }

  lemma NeighboursDistinct(c: Coordinates, r: seq<Coordinates>)
    requires r == StepTo(c, Left) + StepTo(c, Up) + StepTo(c, Down) + StepTo(c, Right)
    ensures forall i, j :: 0 <= i < j < |r| ==> r[i] != r[j]
  {
    assert Plus(c, Left) != Plus(c, Up) && Plus(c, Left) != Plus(c, Down) && Plus(c, Left) != Plus(c, Right);
    assert Plus(c, Up) != Plus(c, Down) && Plus(c, Up) != Plus(c, Right) && Plus(c, Down) != Plus(c, Right);
  }

  lemma NeighboursInGrid(c: Coordinates, r: seq<Coordinates>)
    requires InGrid(c)
    requires r == StepTo(c, Left) + StepTo(c, Up) + StepTo(c, Down) + StepTo(c, Right)
    ensures forall w :: w in r <==> InGrid(w) && Touches(c, w)
    ensures 2 <= |r| <= 4
  {
    forall w | w in r
      ensures InGrid(w) && Touches(c, w)
    {
      var d :| d in {Left, Up, Down, Right} && w in StepTo(c, d);
      PlusAvailable(c, d);
    }
    forall w | InGrid(w) && Touches(c, w)
      ensures w in r
    {
      if w.x + 1 == c.x {
        PlusAvailable(c, Left);
      } else if w.y + 1 == c.y {
        PlusAvailable(c, Up);
      } else if w.y == c.y + 1 {
        PlusAvailable(c, Down);
      } else {
        PlusAvailable(c, Right);
      }
    }
  }

  /** Neighbourhood is symmetric inside the space. */
  lemma AdjacentSymmetric(c: Coordinates, w: Coordinates)
    requires InGrid(c) && InGrid(w)
    ensures w in AdjacentCoordinates(c) <==> c in AdjacentCoordinates(w)
  {
  }
}
