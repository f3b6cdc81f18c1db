/** Day 6: the guard's room. The layout is read into a fixed 130 by 130 room
    of cells; the guard's start and heading are taken from the arrow
    character, whose cell stays open floor. */
module GuardRoom {
  import opened Outcomes

  datatype Direction = Up | Down | Left | Right

  /** A cell of the room as (column, row). */
  datatype Position = Position(x: nat, y: nat)

  /** The two flags of a room cell; only the first, "obstacle", is ever set
      by reading the layout. */
  datatype Cell = Cell(obstacle: bool, visited: bool)

  const Height: nat := 130
  const Width: nat := 130

  /** `Guard::turn`: a quarter turn clockwise. */
  function Clockwise(d: Direction): Direction
  {
    match d
    case Up => Right
    case Right => Down
    case Down => Left
    case Left => Up
  }

  /** Four quarter turns face the guard the way it started. */
  lemma FourTurns(d: Direction)
    ensures Clockwise(Clockwise(Clockwise(Clockwise(d)))) == d
  {
  }

  /** A turn always changes the heading, and two turns reverse it. */
  lemma TurnChangesHeading(d: Direction)
    ensures Clockwise(d) != d
    ensures Clockwise(Clockwise(d)) == Reverse(d)
  {
  }

  function Reverse(d: Direction): Direction
  {
    match d
    case Up => Down
    case Down => Up
    case Left => Right
    case Right => Left
  }

  /** The guard: a heading and a position. */
  class Guard {
    var direction: Direction
    var position: Position

    constructor (direction: Direction, position: Position)
      ensures this.direction == direction && this.position == position
    {
      this.direction := direction;
      this.position := position;
    }

    /** The defaulted `operator==`: field by field. */
    predicate Same(other: Guard)
      reads this, other
    {
      direction == other.direction && position == other.position
    }

    /** `turn`: the heading moves a quarter clockwise; the position stays. */
    method Turn()
      modifies this
      ensures direction == Clockwise(old(direction))
      ensures position == old(position)
    {
      match direction
      case Up => direction := Right;
      case Down => direction := Left;
      case Left => direction := Up;
      case Right => direction := Down;
    }
  }

  /** What one character of the layout stands for. */
  datatype Tile = Obstacle | Floor | GuardFacing(facing: Direction)

  /** The characters `interpret_position` accepts; any other is an error. */
  function DecodeTile(c: char): (r: Result<Tile>)
    ensures r.Ok? <==> c in "#.^v><"
  {
    match c
    case '#' => Ok(Obstacle)
    case '.' => Ok(Floor)
    case '^' => Ok(GuardFacing(Up))
    case 'v' => Ok(GuardFacing(Down))
    case '>' => Ok(GuardFacing(Right))
    case '<' => Ok(GuardFacing(Left))
    case _ => Err("Unexpected character")
  }

  /** Where the guard starts and which way it faces, once an arrow is seen. */
  type Start = Option<(Position, Direction)>

  /** `interpret_position`: an obstacle or floor character writes the cell;
      an arrow writes the guard's start and heading and leaves the cell as it
      was; anything else is an error. */
  method InterpretPosition(c: char, current: Position, layout: array2<Cell>, start: Start)
    returns (r: Result<Start>)
    requires current.y < layout.Length0 && current.x < layout.Length1
    modifies layout
    ensures r.Ok? <==> DecodeTile(c).Ok?
    ensures r.Ok? ==> r.value == NextStart(DecodeTile(c).value, current, start)
    ensures forall y, x ::
      (0 <= y < layout.Length0 && 0 <= x < layout.Length1 && (y != current.y || x != current.x)) ==>
      layout[y, x] == old(layout[y, x])
    ensures layout[current.y, current.x] ==
      match DecodeTile(c)
      case Ok(Obstacle) => Cell(true, false)
      case Ok(Floor) => Cell(false, false)
      case _ => old(layout[current.y, current.x])
  {
    match c
    case '#' =>
      layout[current.y, current.x] := Cell(true, false);
      r := Ok(start);
    case '.' =>
      layout[current.y, current.x] := Cell(false, false);
      r := Ok(start);
    case '^' => r := Ok(Some((current, Up)));
    case 'v' => r := Ok(Some((current, Down)));
    case '>' => r := Ok(Some((current, Right)));
    case '<' => r := Ok(Some((current, Left)));
    case _ => r := Err("Unexpected character");
  }

  /** The guard start after one decoded tile: an arrow replaces it. */
  function NextStart(t: Tile, current: Position, start: Start): Start
  {
    if t.GuardFacing? then Some((current, t.facing)) else start
  }

  /** Every character of the layout is one `interpret_position` accepts. */
  predicate AllKnown(lines: seq<string>)
  {
    forall y, x :: 0 <= y < |lines| && 0 <= x < |lines[y]| ==> DecodeTile(lines[y][x]).Ok?
  }

  /** The guard start after the first `w` characters of row `y`. */
  function RowStart(lines: seq<string>, y: nat, w: nat, start: Start): Start
    requires y < |lines| && w <= |lines[y]| && AllKnown(lines)
  {
    if w == 0 then start
    else NextStart(DecodeTile(lines[y][w - 1]).value, Position(w - 1, y), RowStart(lines, y, w - 1, start))
  }

  /** The guard start after the first `h` rows: the last arrow in reading
      order wins. */
  function GridStart(lines: seq<string>, h: nat): Start
    requires h <= |lines| && AllKnown(lines)
  {
    if h == 0 then None else RowStart(lines, h - 1, |lines[h - 1]|, GridStart(lines, h - 1))
  }

  /** The cell the layout holds at (x, y) after reading: an obstacle exactly
      where a '#' was read. */
  function LayoutCell(lines: seq<string>, y: nat, x: nat): Cell
  {
    if y < |lines| && x < |lines[y]| && lines[y][x] == '#' then Cell(true, false) else Cell(false, false)
  }

  /** The arrow's cell is open floor: the guard is not part of the layout. */
  lemma GuardCellIsFloor(lines: seq<string>, y: nat, x: nat)
    requires y < |lines| && x < |lines[y]|
    requires DecodeTile(lines[y][x]).Ok? && DecodeTile(lines[y][x]).value.GuardFacing?
    ensures !LayoutCell(lines, y, x).obstacle
  {
  }

  /** An arrow is where the guard starts unless a later arrow replaces it. */
  lemma {:induction false} RowStartLastArrow(lines: seq<string>, y: nat, w: nat, start: Start)
    requires y < |lines| && w <= |lines[y]| && AllKnown(lines)
    ensures RowStart(lines, y, w, start).Some? && RowStart(lines, y, w, start) != start ==>
      var (p, d) := RowStart(lines, y, w, start).value;
      p.y == y && p.x < w && DecodeTile(lines[y][p.x]) == Ok(GuardFacing(d)) &&
      forall x :: p.x < x < w ==> !DecodeTile(lines[y][x]).value.GuardFacing?
  {
    if w > 0 {
      RowStartLastArrow(lines, y, w - 1, start);
    }
  }

  /** Cells from row `y`, column `x` on have not been read yet. */
  predicate ReadUpTo(layout: array2<Cell>, lines: seq<string>, y: nat, x: nat)
    reads layout
  {
    forall i, j :: 0 <= i < layout.Length0 && 0 <= j < layout.Length1 ==>
      layout[i, j] == if i < y || (i == y && j < x) then LayoutCell(lines, i, j) else Cell(false, false)
  }

  /** `read_layout_from_file` over the lines already read: the room holds an
      obstacle where each '#' is, and the guard starts at the last arrow. The
      guard's heading is never initialised without an arrow, and a line longer
      than the room, or more lines than it has, would write outside it. */
  method ReadLayout(lines: seq<string>) returns (r: Result<Guard>, layout: array2<Cell>)
    requires |lines| <= Height && forall y :: 0 <= y < |lines| ==> |lines[y]| <= Width
    requires AllKnown(lines) ==> GridStart(lines, |lines|).Some?
    ensures fresh(layout) && layout.Length0 == Height && layout.Length1 == Width
    ensures r.Ok? <==> AllKnown(lines)
    ensures r.Ok? ==> fresh(r.value) && ReadUpTo(layout, lines, |lines|, 0)
    ensures r.Ok? ==> (r.value.position, r.value.direction) == GridStart(lines, |lines|).value
  {
    layout := new Cell[Height, Width]((_, _) => Cell(false, false));
    var start: Start := None;
    var y := 0;
    while y < |lines|
      invariant y <= |lines|
      invariant forall i, j :: 0 <= i < y && 0 <= j < |lines[i]| ==> DecodeTile(lines[i][j]).Ok?
      invariant ReadUpTo(layout, lines, y, 0)
      invariant AllKnown(lines) ==> start == GridStart(lines, y)
    {
      var x := 0;
      while x < |lines[y]|
        invariant x <= |lines[y]|
        invariant forall j :: 0 <= j < x ==> DecodeTile(lines[y][j]).Ok?
        invariant ReadUpTo(layout, lines, y, x)
        invariant AllKnown(lines) ==> start == RowStart(lines, y, x, GridStart(lines, y))
      {
        var next := InterpretPosition(lines[y][x], Position(x, y), layout, start);
        if next.Err? {
          return Err(next.message), layout;
        }
        start := next.value;
        x := x + 1;
      }
      y := y + 1;
    }
    assert AllKnown(lines);
    var guard := new Guard(start.value.1, start.value.0);
    r := Ok(guard);
  }
}
