/** Day 15: warehouse woes. A robot walks through a walled warehouse,
    pushing boxes ahead of it. Before each step a recursive check collects
    every box the push would move; the moves are committed all together or
    not at all. A second, wide warehouse doubles every cell, so that each box
    becomes a left and a right half that move as one. The answer is the sum
    of the boxes' GPS coordinates. */
module WarehouseWoes {
  import opened Outcomes
  import opened Text

  /** One more than the largest `unsigned int`. */
  const UIntLimit: int := 0x1_0000_0000

  /** The fixed number of rows of every warehouse. */
  const WarehouseHeight: int := 50

  /** The columns of the warehouse read from the input. */
  const WarehouseWidth: int := 50

  type uint = n: int | 0 <= n < UIntLimit

  datatype Entity = Wall | Box | Empty | BoxLeft | BoxRight

  datatype Direction = Up | Down | Left | Right

  datatype Coordinates = Coordinates(x: uint, y: uint)

  /** One relocation a push implies: the entity at `oldPos` goes to `newPos`. */
  datatype EntityMovement = EntityMovement(oldPos: Coordinates, newPos: Coordinates, entityType: Entity)

  /** A warehouse as a value: its rows, top to bottom. */
  type Grid = seq<seq<Entity>>

  predicate IsBox(e: Entity) {
    e == Box || e == BoxLeft || e == BoxRight
  }

  // ---------------------------------------------------------------------------
  // Coordinates and directions
  // ---------------------------------------------------------------------------

  /** `Coordinates::operator+`: one step, in `unsigned int` arithmetic. */
  function Step(c: Coordinates, d: Direction): (r: Coordinates)
  {
    match d
    case Up => Coordinates(c.x, if c.y == 0 then UIntLimit - 1 else c.y - 1)
    case Down => Coordinates(c.x, if c.y == UIntLimit - 1 then 0 else c.y + 1)
    case Left => Coordinates(if c.x == 0 then UIntLimit - 1 else c.x - 1, c.y)
    case Right => Coordinates(if c.x == UIntLimit - 1 then 0 else c.x + 1, c.y)
  }

  /** A step changes one component by one, modulo 2^32: Up and Down the
      row, Left and Right the column. */
  lemma StepComponents(c: Coordinates, d: Direction)
    ensures d == Up ==> Step(c, d) == Coordinates(c.x, (c.y - 1) % UIntLimit)
    ensures d == Down ==> Step(c, d) == Coordinates(c.x, (c.y + 1) % UIntLimit)
    ensures d == Left ==> Step(c, d) == Coordinates((c.x - 1) % UIntLimit, c.y)
    ensures d == Right ==> Step(c, d) == Coordinates((c.x + 1) % UIntLimit, c.y)
  {
  }

  function Opposite(d: Direction): Direction {
    match d
    case Up => Down
    case Down => Up
    case Left => Right
    case Right => Left
  }

  /** Stepping back the other way undoes a step, wrap-around included. */
  lemma StepBack(c: Coordinates, d: Direction)
    ensures Step(Step(c, d), Opposite(d)) == c
  {
  }

  /** Steps from different cells in the same direction end in different
      cells. */
  lemma StepInjective(a: Coordinates, b: Coordinates, d: Direction)
    ensures Step(a, d) == Step(b, d) ==> a == b
  {
    if Step(a, d) == Step(b, d) {
      StepBack(a, d);
      StepBack(b, d);
    }
  }

  // ---------------------------------------------------------------------------
  // Reading the input
  // ---------------------------------------------------------------------------

  /** `entity_from_char`: the robot's own cell holds nothing. */
  function EntityFromChar(c: char): (r: Result<Entity>)
    ensures r == Ok(Wall) <==> c == '#'
    ensures r == Ok(Empty) <==> c == '@' || c == '.'
    ensures r == Ok(Box) <==> c == 'O'
    ensures r.Err? <==> c !in {'#', '@', '.', 'O'}
    ensures r.Ok? ==> !r.value.BoxLeft? && !r.value.BoxRight?
  {
    match c
    case '#' => Ok(Wall)
    case '@' => Ok(Empty)
    case '.' => Ok(Empty)
    case 'O' => Ok(Box)
    case _ => Err("Unknown entity character")
  }

  /** The `read_direction` lambda of `read_directions_from_file`. */
  function DirectionFromChar(c: char): (r: Result<Direction>)
    ensures r == Ok(Up) <==> c == '^'
    ensures r == Ok(Down) <==> c == 'v'
    ensures r == Ok(Right) <==> c == '>'
    ensures r == Ok(Left) <==> c == '<'
    ensures r.Err? <==> c !in {'^', 'v', '>', '<'}
  {
    match c
    case '^' => Ok(Up)
    case 'v' => Ok(Down)
    case '>' => Ok(Right)
    case '<' => Ok(Left)
    case _ => Err("Unknown direction character")
  }

  function DirectionChar(d: Direction): char {
    match d
    case Up => '^'
    case Down => 'v'
    case Left => '<'
    case Right => '>'
  }

  /** Every direction reads back from its character. */
  lemma DirectionRoundTrip(d: Direction)
    ensures DirectionFromChar(DirectionChar(d)) == Ok(d)
  {
  }

  // ---------------------------------------------------------------------------
  // Grids
  // ---------------------------------------------------------------------------

  /** Every row of the grid has the same width, and a coordinate can name
      every cell. */
  predicate Rect(g: Grid) {
    |g| == WarehouseHeight && 0 < |g[0]| < UIntLimit &&
    forall y :: 0 <= y < |g| ==> |g[y]| == |g[0]|
  }

  function Width(g: Grid): nat
    requires Rect(g)
  {
    |g[0]|
  }

  predicate InBounds(g: Grid, c: Coordinates)
    requires Rect(g)
  {
    c.y < |g| && c.x < Width(g)
  }

  function At(g: Grid, c: Coordinates): Entity
    requires Rect(g) && InBounds(g, c)
  {
    g[c.y][c.x]
  }

  predicate Interior(g: Grid, c: Coordinates)
    requires Rect(g)
  {
    0 < c.y < |g| - 1 && 0 < c.x < Width(g) - 1
  }

  /** A cell off the border, or a wall. */
  predicate WallOrInside(g: Grid, y: int, x: int)
    requires Rect(g) && 0 <= y < |g| && 0 <= x < Width(g)
  {
    (0 < y < |g| - 1 && 0 < x < Width(g) - 1) || g[y][x] == Wall
  }

  /** A wide-box half with its other half beside it, or no half at all. */
  predicate HalfPaired(g: Grid, y: int, x: int)
    requires Rect(g) && 0 <= y < |g| && 0 <= x < Width(g)
  {
    (g[y][x] == BoxLeft ==> x + 1 < Width(g) && g[y][x + 1] == BoxRight) &&
    (g[y][x] == BoxRight ==> 0 < x && g[y][x - 1] == BoxLeft)
  }

  /** Walls line the border, and each wide-box half has its other half
      beside it: the conditions under which every read of the push check
      stays inside the grid. */
  predicate Valid(g: Grid) {
    Rect(g) &&
    forall y, x :: 0 <= y < |g| && 0 <= x < Width(g) ==> WallOrInside(g, y, x) && HalfPaired(g, y, x)
  }

  /** A cell that is not a wall is inside the border, so a step from it
      stays in the grid and does not wrap. */
  lemma StepInside(g: Grid, c: Coordinates, d: Direction)
    requires Valid(g) && InBounds(g, c) && At(g, c) != Wall
    ensures Interior(g, c) && InBounds(g, Step(c, d))
    ensures Step(c, d) == match d
      case Up => Coordinates(c.x, c.y - 1)
      case Down => Coordinates(c.x, c.y + 1)
      case Left => Coordinates(c.x - 1, c.y)
      case Right => Coordinates(c.x + 1, c.y)
  {
    assert WallOrInside(g, c.y, c.x);
  }

  /** The other half of a wide-box half stands beside it, one step away. */
  lemma OtherHalf(g: Grid, c: Coordinates)
    requires Valid(g) && InBounds(g, c)
    ensures At(g, c) == BoxLeft ==>
      InBounds(g, Step(c, Right)) && At(g, Step(c, Right)) == BoxRight && Step(Step(c, Right), Left) == c
    ensures At(g, c) == BoxRight ==>
      InBounds(g, Step(c, Left)) && At(g, Step(c, Left)) == BoxLeft && Step(Step(c, Left), Right) == c
  {
    assert HalfPaired(g, c.y, c.x);
    StepBack(c, Right);
    StepBack(c, Left);
  }

  /** How far the grid reaches beyond `c` in direction `d`. */
  function Remaining(g: Grid, c: Coordinates, d: Direction): nat
    requires Rect(g) && InBounds(g, c)
  {
    match d
    case Up => c.y
    case Down => |g| - c.y
    case Left => c.x
    case Right => Width(g) - c.x
  }

  // ---------------------------------------------------------------------------
  // The push check
  // ---------------------------------------------------------------------------

  /** The `simple_push` lambda's movement: `entity` from `pos` one step on. */
  function Push(pos: Coordinates, d: Direction, entity: Entity): (m: EntityMovement)
    ensures m.newPos != m.oldPos && Step(m.newPos, Opposite(d)) == m.oldPos == pos
    ensures m.entityType == entity
  {
    StepBack(pos, d);
    EntityMovement(pos, Step(pos, d), entity)
  }

  /** The two pushes for a wide box one of whose halves is at `dest`: that
      half's movement first, then the other half's. */
  function HalfMoves(g: Grid, dest: Coordinates, d: Direction): (r: (EntityMovement, EntityMovement))
    requires Valid(g) && InBounds(g, dest) && (At(g, dest) == BoxLeft || At(g, dest) == BoxRight)
    ensures Sound(g, r.0, d) && Sound(g, r.1, d) && r.0.oldPos == dest
    ensures At(g, dest) == BoxLeft ==> r.1.oldPos == Step(dest, Right) && Step(r.1.oldPos, Left) == dest
    ensures At(g, dest) == BoxRight ==> r.1.oldPos == Step(dest, Left) && Step(r.1.oldPos, Right) == dest
    ensures var (l, rt) := if At(g, dest) == BoxLeft then r else (r.1, r.0);
      l.newPos.y == rt.newPos.y && l.newPos.x + 1 == rt.newPos.x &&
      Remaining(g, if d == Right then rt.newPos else l.newPos, d) < Remaining(g, dest, d)
    ensures (At(g, dest) == BoxLeft && d == Right) || (At(g, dest) == BoxRight && d == Left) ==>
      r.0.newPos == r.1.oldPos
  {
    OtherHalf(g, dest);
    var side := if At(g, dest) == BoxLeft then Right else Left;
    var other := Step(dest, side);
    StepInside(g, dest, side);
    StepInside(g, dest, d);
    StepInside(g, other, d);
    (Push(dest, d, At(g, dest)), Push(other, d, if At(g, dest) == BoxLeft then BoxRight else BoxLeft))
  }

  /** `check_entity_movement` on a grid value: whether whatever stands at
      `dest` can move one step in direction `d`, and the movements pushed
      onto the stack `ms` on the way. A box pushes its own movement and then
      checks the cell beyond; a wide-box half pushes its own movement and
      its other half's and hands both destinations on. */
  function Check(g: Grid, dest: Coordinates, d: Direction, ms: seq<EntityMovement>): (r: (bool, seq<EntityMovement>))
    requires Valid(g) && InBounds(g, dest)
    ensures |r.1| >= |ms|
    ensures At(g, dest) == Wall ==> !r.0
    ensures At(g, dest) == Empty ==> r.0 && r.1 == ms
    ensures At(g, dest) != Empty ==> |r.1| > |ms| || !r.0
    decreases Remaining(g, dest, d), 1
  {
    match At(g, dest)
    case Wall => (false, ms)
    case Empty => (true, ms)
    case Box =>
      var m := Push(dest, d, Box);
      StepInside(g, dest, d);
      Check(g, m.newPos, d, ms + [m])
    case BoxLeft =>
      var (mL, mR) := HalfMoves(g, dest, d);
      CheckLargeBox(g, mL.newPos, mR.newPos, d, ms + [mL, mR])
    case BoxRight =>
      var (mR, mL) := HalfMoves(g, dest, d);
      CheckLargeBox(g, mL.newPos, mR.newPos, d, ms + [mR, mL])
  }

  /** The `check_large_box_movement` lambda: both halves going up or down
      (the right one only if the left one can), the right half going right,
      the left half going left. */
  function CheckLargeBox(g: Grid, leftDest: Coordinates, rightDest: Coordinates, d: Direction,
                         ms: seq<EntityMovement>): (r: (bool, seq<EntityMovement>))
    requires Valid(g) && InBounds(g, leftDest) && InBounds(g, rightDest)
    requires leftDest.y == rightDest.y && leftDest.x + 1 == rightDest.x
    ensures |r.1| >= |ms|
    decreases Remaining(g, if d == Right then rightDest else leftDest, d), 2
  {
    match d
    case Up | Down =>
      var (leftOk, afterLeft) := Check(g, leftDest, d, ms);
      if !leftOk then (false, afterLeft)
      else Check(g, rightDest, d, afterLeft)
    case Right => Check(g, rightDest, d, ms)
    case Left => Check(g, leftDest, d, ms)
  }

  // ---------------------------------------------------------------------------
  // What the check pushes
  // ---------------------------------------------------------------------------

  /** `long` is `short` with more movements pushed on top. */
  predicate Extends(long: seq<EntityMovement>, short: seq<EntityMovement>) {
    |long| >= |short| && long[..|short|] == short
  }

  lemma ExtendsTrans(a: seq<EntityMovement>, b: seq<EntityMovement>, c: seq<EntityMovement>)
    requires Extends(a, b) && Extends(b, c)
    ensures Extends(a, c)
  {
    assert a[..|c|] == a[..|b|][..|c|];
  }

  /** The check only ever pushes: the stack it is given stays underneath. */
  lemma {:induction false} CheckExtends(g: Grid, dest: Coordinates, d: Direction, ms: seq<EntityMovement>)
    requires Valid(g) && InBounds(g, dest)
    ensures Extends(Check(g, dest, d, ms).1, ms)
    decreases Remaining(g, dest, d), 1
  {
    match At(g, dest)
    case Wall =>
    case Empty =>
    case Box =>
      var m := Push(dest, d, Box);
      StepInside(g, dest, d);
      CheckExtends(g, m.newPos, d, ms + [m]);
      ExtendsTrans(Check(g, m.newPos, d, ms + [m]).1, ms + [m], ms);
    case BoxLeft =>
      var (mL, mR) := HalfMoves(g, dest, d);
      CheckLargeBoxExtends(g, mL.newPos, mR.newPos, d, ms + [mL, mR]);
      ExtendsTrans(CheckLargeBox(g, mL.newPos, mR.newPos, d, ms + [mL, mR]).1, ms + [mL, mR], ms);
    case BoxRight =>
      var (mR, mL) := HalfMoves(g, dest, d);
      CheckLargeBoxExtends(g, mL.newPos, mR.newPos, d, ms + [mR, mL]);
      ExtendsTrans(CheckLargeBox(g, mL.newPos, mR.newPos, d, ms + [mR, mL]).1, ms + [mR, mL], ms);
  }

  lemma {:induction false} CheckLargeBoxExtends(g: Grid, leftDest: Coordinates, rightDest: Coordinates, d: Direction,
                                                ms: seq<EntityMovement>)
    requires Valid(g) && InBounds(g, leftDest) && InBounds(g, rightDest)
    requires leftDest.y == rightDest.y && leftDest.x + 1 == rightDest.x
    ensures Extends(CheckLargeBox(g, leftDest, rightDest, d, ms).1, ms)
    decreases Remaining(g, if d == Right then rightDest else leftDest, d), 2
  {
    match d
    case Up | Down =>
      var (leftOk, afterLeft) := Check(g, leftDest, d, ms);
      CheckExtends(g, leftDest, d, ms);
      if leftOk {
        CheckExtends(g, rightDest, d, afterLeft);
        ExtendsTrans(Check(g, rightDest, d, afterLeft).1, afterLeft, ms);
      }
    case Right => CheckExtends(g, rightDest, d, ms);
    case Left => CheckExtends(g, leftDest, d, ms);
  }

  /** Some movement of `ms` from index `lo` on starts at `c`. */
  predicate MovesFrom(ms: seq<EntityMovement>, c: Coordinates, lo: int) {
    exists j :: 0 <= j < |ms| && lo <= j && ms[j].oldPos == c
  }

  lemma MovesFromLift(long: seq<EntityMovement>, short: seq<EntityMovement>, c: Coordinates, lo: int, lo': int)
    requires Extends(long, short) && lo' <= lo && MovesFrom(short, c, lo)
    ensures MovesFrom(long, c, lo')
  {
    var j :| 0 <= j < |short| && lo <= j && short[j].oldPos == c;
    assert long[j] == short[j];
  }

  /** A movement as the check pushes it: the box standing at `oldPos`, one
      step in direction `d`. */
  predicate Sound(g: Grid, m: EntityMovement, d: Direction)
    requires Rect(g)
  {
    InBounds(g, m.oldPos) && IsBox(At(g, m.oldPos)) && m.entityType == At(g, m.oldPos) &&
    m.newPos == Step(m.oldPos, d) && InBounds(g, m.newPos)
  }

  /** The other half of a wide box that movement `i` moves is moved too,
      by a movement from index `lo` on. */
  predicate Partnered(g: Grid, ms: seq<EntityMovement>, i: int, lo: int)
    requires Rect(g) && 0 <= i < |ms| && InBounds(g, ms[i].oldPos)
  {
    (At(g, ms[i].oldPos) == BoxLeft ==> MovesFrom(ms, Step(ms[i].oldPos, Right), lo)) &&
    (At(g, ms[i].oldPos) == BoxRight ==> MovesFrom(ms, Step(ms[i].oldPos, Left), lo))
  }

  /** Every movement of `ms` from index `lo` on is sound and partnered. */
  predicate Pushes(g: Grid, ms: seq<EntityMovement>, lo: int, d: Direction)
    requires Rect(g)
  {
    forall i :: 0 <= i < |ms| && lo <= i ==> Sound(g, ms[i], d) && Partnered(g, ms, i, lo)
  }

  lemma PushesLift(g: Grid, long: seq<EntityMovement>, short: seq<EntityMovement>, lo: int, d: Direction)
    requires Rect(g) && 0 <= lo <= |short| && Extends(long, short)
    requires Pushes(g, short, lo, d) && Pushes(g, long, |short|, d)
    ensures Pushes(g, long, lo, d)
  {
    forall i | lo <= i < |long|
      ensures Sound(g, long[i], d) && Partnered(g, long, i, lo)
    {
      var m := long[i];
      if i < |short| {
        assert m == short[i];
        assert Partnered(g, short, i, lo);
        if At(g, m.oldPos) == BoxLeft {
          MovesFromLift(long, short, Step(m.oldPos, Right), lo, lo);
        }
        if At(g, m.oldPos) == BoxRight {
          MovesFromLift(long, short, Step(m.oldPos, Left), lo, lo);
        }
      } else {
        assert Partnered(g, long, i, |short|);
        if At(g, m.oldPos) == BoxLeft {
          MovesFromLift(long, long, Step(m.oldPos, Right), |short|, lo);
        }
        if At(g, m.oldPos) == BoxRight {
          MovesFromLift(long, long, Step(m.oldPos, Left), |short|, lo);
        }
      }
    }
  }

  /** The two movements of a wide box, pushed on top of `ms`, are sound and
      each has its partner. */
  lemma HalfPushes(g: Grid, dest: Coordinates, d: Direction, ms: seq<EntityMovement>)
    requires Valid(g) && InBounds(g, dest) && (At(g, dest) == BoxLeft || At(g, dest) == BoxRight)
    ensures var (m0, m1) := HalfMoves(g, dest, d); Pushes(g, ms + [m0, m1], |ms|, d)
  {
    var (m0, m1) := HalfMoves(g, dest, d);
    var pushed := ms + [m0, m1];
    OtherHalf(g, dest);
    assert pushed[|ms|] == m0 && pushed[|ms| + 1] == m1;
    assert Partnered(g, pushed, |ms|, |ms|);
    assert Partnered(g, pushed, |ms| + 1, |ms|);
  }

  /** Every movement the check pushes is sound, and a wide-box half is
      pushed with its other half. */
  lemma {:induction false} CheckPushes(g: Grid, dest: Coordinates, d: Direction, ms: seq<EntityMovement>)
    requires Valid(g) && InBounds(g, dest)
    ensures Pushes(g, Check(g, dest, d, ms).1, |ms|, d)
    decreases Remaining(g, dest, d), 1
  {
    match At(g, dest)
    case Wall =>
    case Empty =>
    case Box =>
      var m := Push(dest, d, Box);
      StepInside(g, dest, d);
      var r := Check(g, m.newPos, d, ms + [m]);
      CheckPushes(g, m.newPos, d, ms + [m]);
      CheckExtends(g, m.newPos, d, ms + [m]);
      assert r.1[|ms|] == (ms + [m])[|ms|] == m;
      PushesLift(g, r.1, ms + [m], |ms|, d);
    case BoxLeft =>
      var (mL, mR) := HalfMoves(g, dest, d);
      HalfPushes(g, dest, d, ms);
      CheckLargeBoxPushes(g, mL.newPos, mR.newPos, d, ms + [mL, mR]);
      CheckLargeBoxExtends(g, mL.newPos, mR.newPos, d, ms + [mL, mR]);
      PushesLift(g, CheckLargeBox(g, mL.newPos, mR.newPos, d, ms + [mL, mR]).1, ms + [mL, mR], |ms|, d);
    case BoxRight =>
      var (mR, mL) := HalfMoves(g, dest, d);
      HalfPushes(g, dest, d, ms);
      CheckLargeBoxPushes(g, mL.newPos, mR.newPos, d, ms + [mR, mL]);
      CheckLargeBoxExtends(g, mL.newPos, mR.newPos, d, ms + [mR, mL]);
      PushesLift(g, CheckLargeBox(g, mL.newPos, mR.newPos, d, ms + [mR, mL]).1, ms + [mR, mL], |ms|, d);
  }

  lemma {:induction false} CheckLargeBoxPushes(g: Grid, leftDest: Coordinates, rightDest: Coordinates, d: Direction,
                                               ms: seq<EntityMovement>)
    requires Valid(g) && InBounds(g, leftDest) && InBounds(g, rightDest)
    requires leftDest.y == rightDest.y && leftDest.x + 1 == rightDest.x
    ensures Pushes(g, CheckLargeBox(g, leftDest, rightDest, d, ms).1, |ms|, d)
    decreases Remaining(g, if d == Right then rightDest else leftDest, d), 2
  {
    match d
    case Up | Down =>
      var (leftOk, afterLeft) := Check(g, leftDest, d, ms);
      CheckPushes(g, leftDest, d, ms);
      if leftOk {
        CheckPushes(g, rightDest, d, afterLeft);
        CheckExtends(g, leftDest, d, ms);
        CheckExtends(g, rightDest, d, afterLeft);
        PushesLift(g, Check(g, rightDest, d, afterLeft).1, afterLeft, |ms|, d);
      }
    case Right => CheckPushes(g, rightDest, d, ms);
    case Left => CheckPushes(g, leftDest, d, ms);
  }

  // ---------------------------------------------------------------------------
  // A successful check leaves nothing in the way
  // ---------------------------------------------------------------------------

  /** Whatever stands at `c` is no obstacle: not a wall, and a box there is
      moved away by a movement from index `lo` on. */
  predicate Reaches(g: Grid, ms: seq<EntityMovement>, c: Coordinates, lo: int)
    requires Rect(g) && InBounds(g, c)
  {
    At(g, c) != Wall && (IsBox(At(g, c)) ==> MovesFrom(ms, c, lo))
  }

  /** Every movement from index `lo` on leads into a cell that is no
      obstacle for the movements above it. */
  predicate Complete(g: Grid, ms: seq<EntityMovement>, lo: int)
    requires Rect(g)
  {
    forall i :: 0 <= i < |ms| && lo <= i ==> InBounds(g, ms[i].newPos) && Reaches(g, ms, ms[i].newPos, i + 1)
  }

  /** The push into `dest` does not come from the other half of a wide box
      standing at `dest`. */
  predicate Approach(g: Grid, dest: Coordinates, d: Direction)
    requires Rect(g) && InBounds(g, dest)
  {
    !(d == Left && At(g, dest) == BoxLeft) && !(d == Right && At(g, dest) == BoxRight)
  }

  lemma ReachesLift(g: Grid, long: seq<EntityMovement>, short: seq<EntityMovement>, c: Coordinates, lo: int, lo': int)
    requires Rect(g) && InBounds(g, c) && Extends(long, short) && lo' <= lo && Reaches(g, short, c, lo)
    ensures Reaches(g, long, c, lo')
  {
    if IsBox(At(g, c)) {
      MovesFromLift(long, short, c, lo, lo');
    }
  }

  lemma CompleteLift(g: Grid, long: seq<EntityMovement>, short: seq<EntityMovement>, lo: int)
    requires Rect(g) && 0 <= lo <= |short| && Extends(long, short)
    requires Complete(g, short, lo) && Complete(g, long, |short|)
    ensures Complete(g, long, lo)
  {
    forall i | lo <= i < |short|
      ensures InBounds(g, long[i].newPos) && Reaches(g, long, long[i].newPos, i + 1)
    {
      assert long[i] == short[i];
      ReachesLift(g, long, short, short[i].newPos, i + 1, i + 1);
    }
  }

  /** After a successful check the cell `dest` is no obstacle, and neither
      is any cell a pushed movement leads into: each box in the way is
      itself moved by a movement pushed later. */
  lemma {:induction false} CheckComplete(g: Grid, dest: Coordinates, d: Direction, ms: seq<EntityMovement>)
    requires Valid(g) && InBounds(g, dest) && Approach(g, dest, d)
    ensures var r := Check(g, dest, d, ms);
      r.0 ==> Reaches(g, r.1, dest, |ms|) && Complete(g, r.1, |ms|)
    decreases Remaining(g, dest, d), 1
  {
    match At(g, dest)
    case Wall =>
    case Empty =>
    case Box => BoxComplete(g, dest, d, ms);
    case BoxLeft => LeftHalfComplete(g, dest, d, ms);
    case BoxRight => RightHalfComplete(g, dest, d, ms);
  }

  lemma {:induction false} BoxComplete(g: Grid, dest: Coordinates, d: Direction, ms: seq<EntityMovement>)
    requires Valid(g) && InBounds(g, dest) && At(g, dest) == Box
    ensures var r := Check(g, dest, d, ms);
      r.0 ==> Reaches(g, r.1, dest, |ms|) && Complete(g, r.1, |ms|)
    decreases Remaining(g, dest, d), 0
  {
    var m := Push(dest, d, Box);
    StepInside(g, dest, d);
    StepBack(dest, d);
    OtherHalf(g, m.newPos);
    var r := Check(g, m.newPos, d, ms + [m]);
    CheckComplete(g, m.newPos, d, ms + [m]);
    CheckExtends(g, m.newPos, d, ms + [m]);
    assert r.1[|ms|] == (ms + [m])[|ms|] == m;
    if r.0 {
      assert MovesFrom(r.1, dest, |ms|);
    }
  }

  lemma {:induction false} LeftHalfComplete(g: Grid, dest: Coordinates, d: Direction, ms: seq<EntityMovement>)
    requires Valid(g) && InBounds(g, dest) && At(g, dest) == BoxLeft && d != Left
    ensures var r := Check(g, dest, d, ms);
      r.0 ==> Reaches(g, r.1, dest, |ms|) && Complete(g, r.1, |ms|)
    decreases Remaining(g, dest, d), 0
  {
    var (mL, mR) := HalfMoves(g, dest, d);
    var pushed := ms + [mL, mR];
    StepBack(mR.oldPos, d);
    OtherHalf(g, mR.newPos);
    var r := CheckLargeBox(g, mL.newPos, mR.newPos, d, pushed);
    CheckLargeBoxComplete(g, mL.newPos, mR.newPos, d, pushed);
    CheckLargeBoxExtends(g, mL.newPos, mR.newPos, d, pushed);
    assert r.1[|ms|] == pushed[|ms|] == mL && r.1[|ms| + 1] == pushed[|ms| + 1] == mR;
    if r.0 {
      assert MovesFrom(r.1, dest, |ms|);
      if d == Right {
        assert MovesFrom(r.1, mL.newPos, |ms| + 1);
      } else {
        ReachesLift(g, r.1, r.1, mL.newPos, |ms| + 2, |ms| + 1);
      }
    }
  }

  lemma {:induction false} RightHalfComplete(g: Grid, dest: Coordinates, d: Direction, ms: seq<EntityMovement>)
    requires Valid(g) && InBounds(g, dest) && At(g, dest) == BoxRight && d != Right
    ensures var r := Check(g, dest, d, ms);
      r.0 ==> Reaches(g, r.1, dest, |ms|) && Complete(g, r.1, |ms|)
    decreases Remaining(g, dest, d), 0
  {
    var (mR, mL) := HalfMoves(g, dest, d);
    var pushed := ms + [mR, mL];
    StepBack(mL.oldPos, d);
    OtherHalf(g, mL.newPos);
    var r := CheckLargeBox(g, mL.newPos, mR.newPos, d, pushed);
    CheckLargeBoxComplete(g, mL.newPos, mR.newPos, d, pushed);
    CheckLargeBoxExtends(g, mL.newPos, mR.newPos, d, pushed);
    assert r.1[|ms|] == pushed[|ms|] == mR && r.1[|ms| + 1] == pushed[|ms| + 1] == mL;
    if r.0 {
      assert MovesFrom(r.1, dest, |ms|);
      if d == Left {
        assert MovesFrom(r.1, mR.newPos, |ms| + 1);
      } else {
        ReachesLift(g, r.1, r.1, mR.newPos, |ms| + 2, |ms| + 1);
      }
    }
  }

  lemma {:induction false} CheckLargeBoxComplete(g: Grid, leftDest: Coordinates, rightDest: Coordinates, d: Direction,
                                                 ms: seq<EntityMovement>)
    requires Valid(g) && InBounds(g, leftDest) && InBounds(g, rightDest)
    requires leftDest.y == rightDest.y && leftDest.x + 1 == rightDest.x
    requires d == Right ==> Approach(g, rightDest, d)
    requires d == Left ==> Approach(g, leftDest, d)
    ensures var r := CheckLargeBox(g, leftDest, rightDest, d, ms);
      r.0 ==> Complete(g, r.1, |ms|) &&
              (d != Right ==> Reaches(g, r.1, leftDest, |ms|)) &&
              (d != Left ==> Reaches(g, r.1, rightDest, |ms|))
    decreases Remaining(g, if d == Right then rightDest else leftDest, d), 2
  {
    match d
    case Up | Down =>
      var (leftOk, afterLeft) := Check(g, leftDest, d, ms);
      CheckComplete(g, leftDest, d, ms);
      if leftOk {
        var r := Check(g, rightDest, d, afterLeft);
        CheckComplete(g, rightDest, d, afterLeft);
        CheckExtends(g, leftDest, d, ms);
        CheckExtends(g, rightDest, d, afterLeft);
        if r.0 {
          CompleteLift(g, r.1, afterLeft, |ms|);
          ReachesLift(g, r.1, afterLeft, leftDest, |ms|, |ms|);
          ReachesLift(g, r.1, r.1, rightDest, |afterLeft|, |ms|);
        }
      }
    case Right => CheckComplete(g, rightDest, d, ms);
    case Left => CheckComplete(g, leftDest, d, ms);
  }

  // ---------------------------------------------------------------------------
  // Committing the movements
  // ---------------------------------------------------------------------------

  /** The grid with cell `c` replaced by `e`. */
  function Write(g: Grid, c: Coordinates, e: Entity): (h: Grid)
    requires Rect(g) && InBounds(g, c)
    ensures Rect(h) && Width(h) == Width(g)
    ensures forall c' :: InBounds(h, c') ==> At(h, c') == if c' == c then e else At(g, c')
  {
    g[c.y := g[c.y][c.x := e]]
  }

  /** Every movement of `ms` starts and ends inside the grid. */
  predicate InGrid(g: Grid, ms: seq<EntityMovement>)
    requires Rect(g)
  {
    forall i :: 0 <= i < |ms| ==> InBounds(g, ms[i].oldPos) && InBounds(g, ms[i].newPos)
  }

  /** `move_entities` on a grid value: pops the movements below index `k`
      off the stack, top first. One whose destination is among the
      `visited` ones already filled is skipped; any other empties its old
      cell, then fills its new one. */
  function Commit(g: Grid, ms: seq<EntityMovement>, k: nat, visited: set<Coordinates>): (h: Grid)
    requires Rect(g) && k <= |ms| && InGrid(g, ms)
    ensures Rect(h) && Width(h) == Width(g)
    decreases k
  {
    if k == 0 then g
    else
      var m := ms[k - 1];
      if m.newPos in visited then Commit(g, ms, k - 1, visited)
      else Commit(Write(Write(g, m.oldPos, Empty), m.newPos, m.entityType), ms, k - 1, visited + {m.newPos})
  }

  /** The cells the movements from index `k` on leave. */
  function OldsFrom(ms: seq<EntityMovement>, k: nat): set<Coordinates> {
    set i | k <= i < |ms| :: ms[i].oldPos
  }

  /** The cells the movements from index `k` on fill. */
  function NewsFrom(ms: seq<EntityMovement>, k: nat): set<Coordinates> {
    set i | k <= i < |ms| :: ms[i].newPos
  }

  /** Cell `c` of `g` after every box standing on a cell of `moved` has
      stepped once in direction `d`: it holds the box from the cell behind
      it if that box moved, is empty if its own box left, and is unchanged
      otherwise. */
  function Shift(g: Grid, moved: set<Coordinates>, d: Direction, c: Coordinates): Entity
    requires Rect(g) && InBounds(g, c) && forall o :: o in moved ==> InBounds(g, o)
  {
    var from := Step(c, Opposite(d));
    if from in moved then At(g, from) else if c in moved then Empty else At(g, c)
  }

  /** `h` is `g` with the boxes at the cells `moved` shifted in direction `d`. */
  ghost predicate ShiftedBy(g: Grid, h: Grid, moved: set<Coordinates>, d: Direction)
    requires Rect(g) && forall o :: o in moved ==> InBounds(g, o)
  {
    Rect(h) && Width(h) == Width(g) &&
    forall c {:trigger At(h, c)} :: InBounds(g, c) ==> At(h, c) == Shift(g, moved, d, c)
  }

  /** Popping the movements below index `k`, once those above it are
      committed, completes the shift of every box the movements name. */
  lemma {:induction false} CommitShifts(g: Grid, ms: seq<EntityMovement>, d: Direction, k: nat, cur: Grid)
    requires Rect(g) && AllSound(g, ms, d) && PopOrdered(ms, d) && k <= |ms|
    requires ShiftedBy(g, cur, OldsFrom(ms, k), d) && InGrid(cur, ms)
    ensures ShiftedBy(g, Commit(cur, ms, k, NewsFrom(ms, k)), OldsFrom(ms, 0), d)
    decreases k, 1
  {
    if k == 0 {
      assert Commit(cur, ms, k, NewsFrom(ms, k)) == cur;
    } else if ms[k - 1].newPos in NewsFrom(ms, k) {
      CommitSkip(g, ms, d, k, cur);
    } else {
      CommitWrite(g, ms, d, k, cur);
    }
  }

  lemma {:induction false} CommitSkip(g: Grid, ms: seq<EntityMovement>, d: Direction, k: nat, cur: Grid)
    requires Rect(g) && AllSound(g, ms, d) && PopOrdered(ms, d) && 0 < k <= |ms|
    requires ShiftedBy(g, cur, OldsFrom(ms, k), d) && InGrid(cur, ms)
    requires ms[k - 1].newPos in NewsFrom(ms, k)
    ensures ShiftedBy(g, Commit(cur, ms, k, NewsFrom(ms, k)), OldsFrom(ms, 0), d)
    decreases k, 0
  {
    SkipKeepsShift(g, ms, d, k);
    CommitShifts(g, ms, d, k - 1, cur);
    CommitSkipStep(cur, ms, k);
  }

  /** Committing a movement whose new cell is already written changes
      nothing and carries on below it. */
  lemma CommitSkipStep(cur: Grid, ms: seq<EntityMovement>, k: nat)
    requires Rect(cur) && 0 < k <= |ms| && InGrid(cur, ms)
    requires ms[k - 1].newPos in NewsFrom(ms, k)
    ensures Commit(cur, ms, k, NewsFrom(ms, k)) == Commit(cur, ms, k - 1, NewsFrom(ms, k - 1))
  {
    assert NewsFrom(ms, k - 1) == NewsFrom(ms, k);
  }

  lemma {:induction false} CommitWrite(g: Grid, ms: seq<EntityMovement>, d: Direction, k: nat, cur: Grid)
    requires Rect(g) && AllSound(g, ms, d) && PopOrdered(ms, d) && 0 < k <= |ms|
    requires ShiftedBy(g, cur, OldsFrom(ms, k), d) && InGrid(cur, ms)
    requires ms[k - 1].newPos !in NewsFrom(ms, k)
    ensures ShiftedBy(g, Commit(cur, ms, k, NewsFrom(ms, k)), OldsFrom(ms, 0), d)
    decreases k, 0
  {
    var m := ms[k - 1];
    var cur' := Write(Write(cur, m.oldPos, Empty), m.newPos, m.entityType);
    CommitWriteStep(cur, ms, k);
    WriteShifts(g, ms, d, k, cur);
    CommitShifts(g, ms, d, k - 1, cur');
  }

  /** Committing a movement whose new cell is not yet written writes it and
      carries on below it with that cell marked. */
  lemma CommitWriteStep(cur: Grid, ms: seq<EntityMovement>, k: nat)
    requires Rect(cur) && 0 < k <= |ms| && InGrid(cur, ms)
    requires ms[k - 1].newPos !in NewsFrom(ms, k)
    ensures var m := ms[k - 1];
      var cur' := Write(Write(cur, m.oldPos, Empty), m.newPos, m.entityType);
      Rect(cur') && InGrid(cur', ms) &&
      Commit(cur, ms, k, NewsFrom(ms, k)) == Commit(cur', ms, k - 1, NewsFrom(ms, k - 1))
  {
    var m := ms[k - 1];
    assert NewsFrom(ms, k - 1) == NewsFrom(ms, k) + {m.newPos};
  }

  /** A movement skipped as already done repeats a movement above it, so
      it adds no cell to the moved ones. */
  lemma SkipKeepsShift(g: Grid, ms: seq<EntityMovement>, d: Direction, k: nat)
    requires Rect(g) && AllSound(g, ms, d) && 0 < k <= |ms|
    requires ms[k - 1].newPos in NewsFrom(ms, k)
    ensures OldsFrom(ms, k - 1) == OldsFrom(ms, k)
  {
    var m := ms[k - 1];
    var j :| k <= j < |ms| && ms[j].newPos == m.newPos;
    assert Sound(g, m, d) && Sound(g, ms[j], d);
    StepInjective(ms[j].oldPos, m.oldPos, d);
  }

  /** Emptying the old cell of a movement no box moves into, then filling
      its new cell, extends the shift by that movement. */
  lemma WriteShifts(g: Grid, ms: seq<EntityMovement>, d: Direction, k: nat, cur: Grid)
    requires Rect(g) && AllSound(g, ms, d) && 0 < k <= |ms|
    requires ShiftedBy(g, cur, OldsFrom(ms, k), d) && InGrid(cur, ms)
    requires PopOrdered(ms, d) && ms[k - 1].newPos !in NewsFrom(ms, k)
    ensures var m := ms[k - 1];
      ShiftedBy(g, Write(Write(cur, m.oldPos, Empty), m.newPos, m.entityType), OldsFrom(ms, k - 1), d)
  {
    var m := ms[k - 1];
    assert Step(m.oldPos, Opposite(d)) !in OldsFrom(ms, k);
    assert Sound(g, m, d);
    assert OldsFrom(ms, k - 1) == OldsFrom(ms, k) + {m.oldPos};
    ShiftOneMore(g, cur, OldsFrom(ms, k), m, d);
  }

  lemma ShiftOneMore(g: Grid, cur: Grid, moved: set<Coordinates>, m: EntityMovement, d: Direction)
    requires Rect(g) && (forall o :: o in moved ==> InBounds(g, o)) && ShiftedBy(g, cur, moved, d)
    requires Sound(g, m, d) && Step(m.oldPos, Opposite(d)) !in moved
    ensures ShiftedBy(g, Write(Write(cur, m.oldPos, Empty), m.newPos, m.entityType), moved + {m.oldPos}, d)
  {
    var cur' := Write(Write(cur, m.oldPos, Empty), m.newPos, m.entityType);
    StepBack(m.oldPos, d);
    forall c | InBounds(g, c)
      ensures At(cur', c) == Shift(g, moved + {m.oldPos}, d, c)
    {
      StepBack(c, Opposite(d));
    }
  }

  /** Every movement of `ms` is sound. */
  predicate AllSound(g: Grid, ms: seq<EntityMovement>, d: Direction)
    requires Rect(g)
  {
    forall i :: 0 <= i < |ms| ==> Sound(g, ms[i], d)
  }

  /** Popping from the top, the last copy of a movement comes before any
      movement of a box into the cell it empties. */
  predicate PopOrdered(ms: seq<EntityMovement>, d: Direction) {
    forall k :: 0 < k <= |ms| && ms[k - 1].newPos !in NewsFrom(ms, k) ==>
      Step(ms[k - 1].oldPos, Opposite(d)) !in OldsFrom(ms, k)
  }

  /** The check pushes in pop order: the box behind a box is pushed before
      it, so every box that moves into a cell is popped after the last copy
      of the movement emptying that cell. */
  lemma CheckedInOrder(g: Grid, ms: seq<EntityMovement>, d: Direction)
    requires Rect(g) && Pushes(g, ms, 0, d) && Complete(g, ms, 0)
    ensures AllSound(g, ms, d) && PopOrdered(ms, d)
  {
    forall k | 0 < k <= |ms| && ms[k - 1].newPos !in NewsFrom(ms, k)
      ensures Step(ms[k - 1].oldPos, Opposite(d)) !in OldsFrom(ms, k)
    {
      NothingComesBack(g, ms, d, k);
    }
  }

  /** Nothing above the last copy of a movement moves a box into the cell
      that movement empties: the box behind it is pushed first and so
      popped later. */
  lemma NothingComesBack(g: Grid, ms: seq<EntityMovement>, d: Direction, k: nat)
    requires Rect(g) && Pushes(g, ms, 0, d) && Complete(g, ms, 0) && 0 < k <= |ms|
    requires ms[k - 1].newPos !in NewsFrom(ms, k)
    ensures Step(ms[k - 1].oldPos, Opposite(d)) !in OldsFrom(ms, k)
  {
    var m := ms[k - 1];
    var o := Step(m.oldPos, Opposite(d));
    assert Sound(g, m, d);
    if o in OldsFrom(ms, k) {
      var j :| k <= j < |ms| && ms[j].oldPos == o;
      assert Sound(g, ms[j], d);
      StepBack(m.oldPos, Opposite(d));
      assert false;
    }
  }

  // ---------------------------------------------------------------------------
  // One robot step
  // ---------------------------------------------------------------------------

  /** Box `o` of `moved` can step in direction `d` along with the rest of
      `moved`: the cell ahead is no wall, a box there is in `moved` too, and
      so is the other half of a wide box. */
  predicate PushableCell(g: Grid, moved: set<Coordinates>, d: Direction, o: Coordinates)
    requires Rect(g)
  {
    InBounds(g, o) && IsBox(At(g, o)) && InBounds(g, Step(o, d)) && At(g, Step(o, d)) != Wall &&
    (IsBox(At(g, Step(o, d))) ==> Step(o, d) in moved) &&
    (At(g, o) == BoxLeft ==> Step(o, Right) in moved) &&
    (At(g, o) == BoxRight ==> Step(o, Left) in moved)
  }

  /** The boxes at the cells `moved` can all step in direction `d` at once,
      and nothing else has to move with them. */
  predicate Pushable(g: Grid, moved: set<Coordinates>, d: Direction)
    requires Rect(g)
  {
    forall o :: o in moved ==> PushableCell(g, moved, d, o)
  }

  /** A movement pushed by a successful check leaves a pushable cell. */
  lemma PushedCell(g: Grid, ms: seq<EntityMovement>, d: Direction, i: int)
    requires Rect(g) && Pushes(g, ms, 0, d) && Complete(g, ms, 0) && 0 <= i < |ms|
    ensures PushableCell(g, OldsFrom(ms, 0), d, ms[i].oldPos)
  {
    var m := ms[i];
    assert Sound(g, m, d) && Partnered(g, ms, i, 0) && Reaches(g, ms, m.newPos, i + 1);
    forall c | MovesFrom(ms, c, 0)
      ensures c in OldsFrom(ms, 0)
    {
      var j :| 0 <= j < |ms| && ms[j].oldPos == c;
    }
  }

  /** A successful check from an empty stack names a pushable set of boxes
      that holds the box in front of the robot, if there is one. */
  lemma CheckedPushable(g: Grid, dest: Coordinates, d: Direction)
    requires Valid(g) && InBounds(g, dest) && Approach(g, dest, d)
    ensures var (ok, ms) := Check(g, dest, d, []);
      ok ==> AllSound(g, ms, d) && PopOrdered(ms, d) && Pushable(g, OldsFrom(ms, 0), d) &&
             At(g, dest) != Wall && (IsBox(At(g, dest)) ==> dest in OldsFrom(ms, 0))
  {
    var (ok, ms) := Check(g, dest, d, []);
    CheckPushes(g, dest, d, []);
    CheckComplete(g, dest, d, []);
    if ok {
      CheckedInOrder(g, ms, d);
      forall o | o in OldsFrom(ms, 0)
        ensures PushableCell(g, OldsFrom(ms, 0), d, o)
      {
        var i :| 0 <= i < |ms| && ms[i].oldPos == o;
        PushedCell(g, ms, d, i);
      }
      if IsBox(At(g, dest)) {
        assert Reaches(g, ms, dest, 0);
        var j :| 0 <= j < |ms| && ms[j].oldPos == dest;
      }
    }
  }

  /** Cell `c` is empty or holds a box of `moved`. */
  predicate Clear(g: Grid, moved: set<Coordinates>, c: Coordinates)
    requires Rect(g) && InBounds(g, c)
  {
    At(g, c) == Empty || c in moved
  }

  /** The converse: whenever some pushable set of boxes clears `dest`, the
      check succeeds. */
  lemma {:induction false} CheckSucceeds(g: Grid, dest: Coordinates, d: Direction, ms: seq<EntityMovement>,
                                         moved: set<Coordinates>)
    requires Valid(g) && InBounds(g, dest) && Pushable(g, moved, d) && Clear(g, moved, dest)
    ensures Check(g, dest, d, ms).0
    decreases Remaining(g, dest, d), 1
  {
    if dest in moved {
      assert PushableCell(g, moved, d, dest);
      match At(g, dest)
      case Box =>
        var m := Push(dest, d, Box);
        StepInside(g, dest, d);
        CheckSucceeds(g, m.newPos, d, ms + [m], moved);
      case BoxLeft =>
        var (mL, mR) := HalfMoves(g, dest, d);
        assert PushableCell(g, moved, d, mR.oldPos);
        CheckLargeBoxSucceeds(g, mL.newPos, mR.newPos, d, ms + [mL, mR], moved);
      case BoxRight =>
        var (mR, mL) := HalfMoves(g, dest, d);
        assert PushableCell(g, moved, d, mL.oldPos);
        CheckLargeBoxSucceeds(g, mL.newPos, mR.newPos, d, ms + [mR, mL], moved);
    }
  }

  lemma {:induction false} CheckLargeBoxSucceeds(g: Grid, leftDest: Coordinates, rightDest: Coordinates, d: Direction,
                                                 ms: seq<EntityMovement>, moved: set<Coordinates>)
    requires Valid(g) && InBounds(g, leftDest) && InBounds(g, rightDest)
    requires leftDest.y == rightDest.y && leftDest.x + 1 == rightDest.x
    requires Pushable(g, moved, d) && Clear(g, moved, leftDest) && Clear(g, moved, rightDest)
    ensures CheckLargeBox(g, leftDest, rightDest, d, ms).0
    decreases Remaining(g, if d == Right then rightDest else leftDest, d), 2
  {
    match d
    case Up | Down =>
      var (leftOk, afterLeft) := Check(g, leftDest, d, ms);
      CheckSucceeds(g, leftDest, d, ms, moved);
      CheckSucceeds(g, rightDest, d, afterLeft, moved);
    case Right => CheckSucceeds(g, rightDest, d, ms, moved);
    case Left => CheckSucceeds(g, leftDest, d, ms, moved);
  }

  /** A cell the robot may stand on: inside the grid and empty. */
  predicate RobotOk(g: Grid, robot: Coordinates)
    requires Rect(g)
  {
    InBounds(g, robot) && At(g, robot) == Empty
  }

  /** One turn of the loop of `process_robot_movements`: the robot tries to
      step in direction `d`; when the check succeeds, its movements are
      committed and the robot moves, otherwise nothing changes. */
  function Move(g: Grid, robot: Coordinates, d: Direction): (r: (Grid, Coordinates))
    requires Valid(g) && RobotOk(g, robot)
  {
    StepInside(g, robot, d);
    var dest := Step(robot, d);
    var (ok, ms) := Check(g, dest, d, []);
    if ok then
      CheckPushes(g, dest, d, []);
      assert InGrid(g, ms);
      (Commit(g, ms, |ms|, {}), dest)
    else (g, robot)
  }

  /** The robot is in front of nothing it could be pushing itself. */
  lemma RobotApproach(g: Grid, robot: Coordinates, d: Direction)
    requires Valid(g) && RobotOk(g, robot)
    ensures InBounds(g, Step(robot, d)) && Approach(g, Step(robot, d), d)
  {
    StepInside(g, robot, d);
    StepBack(robot, d);
    OtherHalf(g, Step(robot, d));
  }

  /** A step moves the robot exactly when some pushable set of boxes clears
      the cell in front of it, and then shifts such a set one cell along;
      otherwise nothing changes. */
  lemma MoveShifts(g: Grid, robot: Coordinates, d: Direction)
    requires Valid(g) && RobotOk(g, robot)
    ensures var (h, r) := Move(g, robot, d);
      InBounds(g, Step(robot, d)) &&
      (r == Step(robot, d) <==> exists moved :: Pushable(g, moved, d) && Clear(g, moved, Step(robot, d))) &&
      (r == Step(robot, d) ==> exists moved :: Pushable(g, moved, d) && Clear(g, moved, Step(robot, d)) &&
                                                ShiftedBy(g, h, moved, d)) &&
      (r != Step(robot, d) ==> h == g && r == robot)
  {
    RobotApproach(g, robot, d);
    var dest := Step(robot, d);
    StepInside(g, robot, d);
    var (ok, ms) := Check(g, dest, d, []);
    CheckedPushable(g, dest, d);
    var (h, r) := Move(g, robot, d);
    if ok {
      var moved := OldsFrom(ms, 0);
      assert Clear(g, moved, dest);
      CommitShifts(g, ms, d, |ms|, g);
      assert NewsFrom(ms, |ms|) == {};
      assert ShiftedBy(g, h, moved, d);
    } else {
      forall moved | Pushable(g, moved, d) && Clear(g, moved, dest)
        ensures false
      {
        CheckSucceeds(g, dest, d, [], moved);
      }
    }
  }

  /** Every cell of a pushable set is inside the grid. */
  lemma PushableInBounds(g: Grid, moved: set<Coordinates>, d: Direction)
    requires Rect(g) && Pushable(g, moved, d)
    ensures forall o :: o in moved ==> InBounds(g, o)
  {
    forall o | o in moved
      ensures InBounds(g, o)
    {
      assert PushableCell(g, moved, d, o);
    }
  }

  /** A shift never moves a wall, nor a box onto one. */
  lemma ShiftKeepsWall(g: Grid, h: Grid, moved: set<Coordinates>, d: Direction, c: Coordinates)
    requires Valid(g) && Pushable(g, moved, d) && InBounds(g, c) && At(g, c) == Wall
    requires (forall o :: o in moved ==> InBounds(g, o)) && ShiftedBy(g, h, moved, d)
    ensures At(h, c) == Wall
  {
    StepBack(c, Opposite(d));
  }

  /** After a shift a left half still has its right half beside it. */
  lemma ShiftKeepsLeftHalf(g: Grid, h: Grid, moved: set<Coordinates>, d: Direction, c: Coordinates)
    requires Valid(g) && Pushable(g, moved, d) && InBounds(g, c)
    requires (forall o :: o in moved ==> InBounds(g, o)) && ShiftedBy(g, h, moved, d)
    requires At(h, c) == BoxLeft
    ensures c.x + 1 < Width(g) && h[c.y][c.x + 1] == BoxRight
  {
    var from := Step(c, Opposite(d));
    StepBack(c, Opposite(d));
    if from in moved {
      assert PushableCell(g, moved, d, from);
      OtherHalf(g, from);
      var fromRight := Step(from, Right);
      assert PushableCell(g, moved, d, fromRight);
      StepInside(g, from, d);
      StepInside(g, from, Right);
      StepInside(g, fromRight, d);
      var c' := Step(fromRight, d);
      StepBack(fromRight, d);
      assert At(h, c') == Shift(g, moved, d, c');
    } else {
      assert c !in moved && At(g, c) == BoxLeft;
      OtherHalf(g, c);
      var cr := Step(c, Right);
      StepInside(g, c, Right);
      var fromRight := Step(cr, Opposite(d));
      StepBack(cr, Opposite(d));
      assert At(h, cr) == Shift(g, moved, d, cr);
    }
  }

  /** After a shift a right half still has its left half beside it. */
  lemma ShiftKeepsRightHalf(g: Grid, h: Grid, moved: set<Coordinates>, d: Direction, c: Coordinates)
    requires Valid(g) && Pushable(g, moved, d) && InBounds(g, c)
    requires (forall o :: o in moved ==> InBounds(g, o)) && ShiftedBy(g, h, moved, d)
    requires At(h, c) == BoxRight
    ensures 0 < c.x && h[c.y][c.x - 1] == BoxLeft
  {
    var from := Step(c, Opposite(d));
    StepBack(c, Opposite(d));
    if from in moved {
      assert PushableCell(g, moved, d, from);
      OtherHalf(g, from);
      var fromLeft := Step(from, Left);
      assert PushableCell(g, moved, d, fromLeft);
      StepInside(g, from, d);
      StepInside(g, from, Left);
      StepInside(g, fromLeft, d);
      var c' := Step(fromLeft, d);
      StepBack(fromLeft, d);
      assert At(h, c') == Shift(g, moved, d, c');
    } else {
      assert c !in moved && At(g, c) == BoxRight;
      OtherHalf(g, c);
      var cl := Step(c, Left);
      StepInside(g, c, Left);
      var fromLeft := Step(cl, Opposite(d));
      StepBack(cl, Opposite(d));
      assert At(h, cl) == Shift(g, moved, d, cl);
    }
  }

  /** Shifting a pushable set keeps the warehouse valid. */
  lemma ShiftKeepsValid(g: Grid, h: Grid, moved: set<Coordinates>, d: Direction)
    requires Valid(g) && Pushable(g, moved, d)
    requires (forall o :: o in moved ==> InBounds(g, o)) && ShiftedBy(g, h, moved, d)
    ensures Valid(h)
  {
    forall y, x | 0 <= y < |h| && 0 <= x < Width(h)
      ensures WallOrInside(h, y, x) && HalfPaired(h, y, x)
    {
      var c := Coordinates(x, y);
      assert WallOrInside(g, y, x);
      if At(g, c) == Wall {
        ShiftKeepsWall(g, h, moved, d, c);
      }
      if At(h, c) == BoxLeft {
        ShiftKeepsLeftHalf(g, h, moved, d, c);
      }
      if At(h, c) == BoxRight {
        ShiftKeepsRightHalf(g, h, moved, d, c);
      }
    }
  }

  /** A step keeps the warehouse valid and the robot on an empty cell. */
  lemma MoveKeepsValid(g: Grid, robot: Coordinates, d: Direction)
    requires Valid(g) && RobotOk(g, robot)
    ensures Valid(Move(g, robot, d).0) && RobotOk(Move(g, robot, d).0, Move(g, robot, d).1)
  {
    var (h, r) := Move(g, robot, d);
    MoveShifts(g, robot, d);
    if r == Step(robot, d) {
      var moved :| Pushable(g, moved, d) && Clear(g, moved, r) && ShiftedBy(g, h, moved, d);
      PushableInBounds(g, moved, d);
      ShiftKeepsValid(g, h, moved, d);
      StepBack(robot, d);
      if robot in moved {
        assert PushableCell(g, moved, d, robot);
      }
      assert At(h, r) == Shift(g, moved, d, r);
    }
  }

  // ---------------------------------------------------------------------------
  // Runs of steps
  // ---------------------------------------------------------------------------

  /** The warehouse and the robot after the robot has tried each step of
      `ds` in turn; every step keeps the warehouse valid and the robot on
      an empty cell. */
  function Run(g: Grid, robot: Coordinates, ds: seq<Direction>): (r: (Grid, Coordinates))
    requires Valid(g) && RobotOk(g, robot)
    ensures Valid(r.0) && RobotOk(r.0, r.1) && |r.0| == |g| && Width(r.0) == Width(g)
    decreases |ds|
  {
    if ds == [] then (g, robot)
    else
      var (h, p) := Run(g, robot, ds[..|ds| - 1]);
      MoveKeepsValid(h, p, ds[|ds| - 1]);
      Move(h, p, ds[|ds| - 1])
  }

  /** Running two lists of steps one after the other is running their
      concatenation. */
  lemma {:induction false} RunAppend(g: Grid, robot: Coordinates, first: seq<Direction>, second: seq<Direction>)
    requires Valid(g) && RobotOk(g, robot)
    ensures Run(g, robot, first + second) == Run(Run(g, robot, first).0, Run(g, robot, first).1, second)
    decreases |second|
  {
    var (h, p) := Run(g, robot, first);
    if second == [] {
      assert first + second == first;
    } else {
      var init := second[..|second| - 1];
      assert (first + second)[..|first + second| - 1] == first + init;
      RunAppend(g, robot, first, init);
    }
  }

  // ---------------------------------------------------------------------------
  // The warehouse array
  // ---------------------------------------------------------------------------

  /** The array `w` holds the grid `g`, cell by cell. */
  predicate Holds(w: array2<Entity>, g: Grid)
    reads w
  {
    Rect(g) && w.Length0 == |g| && w.Length1 == Width(g) &&
    forall y, x :: 0 <= y < w.Length0 && 0 <= x < w.Length1 ==> w[y, x] == g[y][x]
  }

  /** `check_entity_movement` on the warehouse array: whatever stands at
      `dest` can move in direction `d`, with the movements pushed on the
      stack `ms`. */
  method CheckEntityMovement(w: array2<Entity>, ghost g: Grid, dest: Coordinates, d: Direction,
                             ms: seq<EntityMovement>) returns (ok: bool, ms': seq<EntityMovement>)
    requires Valid(g) && Holds(w, g) && InBounds(g, dest)
    ensures (ok, ms') == Check(g, dest, d, ms)
    decreases Remaining(g, dest, d), 1
  {
    match w[dest.y, dest.x]
    case Box =>
      var m := Push(dest, d, Box);
      StepInside(g, dest, d);
      ok, ms' := CheckEntityMovement(w, g, m.newPos, d, ms + [m]);
    case BoxLeft =>
      var mL := Push(dest, d, BoxLeft);
      var mR := Push(Step(dest, Right), d, BoxRight);
      assert HalfMoves(g, dest, d) == (mL, mR);
      ok, ms' := CheckLargeBoxMovement(w, g, mL.newPos, mR.newPos, d, ms + [mL, mR]);
    case BoxRight =>
      var mR := Push(dest, d, BoxRight);
      var mL := Push(Step(dest, Left), d, BoxLeft);
      assert HalfMoves(g, dest, d) == (mR, mL);
      ok, ms' := CheckLargeBoxMovement(w, g, mL.newPos, mR.newPos, d, ms + [mR, mL]);
    case Wall =>
      ok, ms' := false, ms;
    case Empty =>
      ok, ms' := true, ms;
  }

  /** The `check_large_box_movement` lambda on the warehouse array. */
  method CheckLargeBoxMovement(w: array2<Entity>, ghost g: Grid, leftDest: Coordinates, rightDest: Coordinates,
                               d: Direction, ms: seq<EntityMovement>) returns (ok: bool, ms': seq<EntityMovement>)
    requires Valid(g) && Holds(w, g) && InBounds(g, leftDest) && InBounds(g, rightDest)
    requires leftDest.y == rightDest.y && leftDest.x + 1 == rightDest.x
    ensures (ok, ms') == CheckLargeBox(g, leftDest, rightDest, d, ms)
    decreases Remaining(g, if d == Right then rightDest else leftDest, d), 2
  {
    match d
    case Up | Down =>
      ok, ms' := CheckEntityMovement(w, g, leftDest, d, ms);
      if ok {
        ok, ms' := CheckEntityMovement(w, g, rightDest, d, ms');
      }
    case Right =>
      ok, ms' := CheckEntityMovement(w, g, rightDest, d, ms);
    case Left =>
      ok, ms' := CheckEntityMovement(w, g, leftDest, d, ms);
  }

  /** `move_entities`: pops every movement off the stack and commits it to
      the warehouse array, as `Commit` does to a grid value. */
  method MoveEntities(w: array2<Entity>, ghost g: Grid, ms: seq<EntityMovement>)
    modifies w
    requires Holds(w, g) && InGrid(g, ms)
    ensures Holds(w, Commit(g, ms, |ms|, {}))
  {
    var visited: set<Coordinates> := {};
    var k := |ms|;
    ghost var cur := g;
    while k > 0
      invariant 0 <= k <= |ms| && Holds(w, cur) && |cur| == |g| && Width(cur) == Width(g) && InGrid(cur, ms)
      invariant Commit(cur, ms, k, visited) == Commit(g, ms, |ms|, {})
    {
      var m := ms[k - 1];
      k := k - 1;
      if m.newPos !in visited {
        visited := visited + {m.newPos};
        w[m.oldPos.y, m.oldPos.x] := Empty;
        w[m.newPos.y, m.newPos.x] := m.entityType;
        cur := Write(Write(cur, m.oldPos, Empty), m.newPos, m.entityType);
      }
    }
  }

  /** One pass of the loop of `process_robot_movements`: the robot tries
      to step in direction `d`, pushing what the check allows. */
  method MoveRobot(w: array2<Entity>, ghost g: Grid, robot: Coordinates, d: Direction) returns (robot': Coordinates)
    modifies w
    requires Valid(g) && Holds(w, g) && RobotOk(g, robot)
    ensures Holds(w, Move(g, robot, d).0) && robot' == Move(g, robot, d).1
  {
    StepInside(g, robot, d);
    var next := Step(robot, d);
    var ok, ms := CheckEntityMovement(w, g, next, d, []);
    robot' := robot;
    if ok {
      CheckPushes(g, next, d, []);
      assert InGrid(g, ms);
      MoveEntities(w, g, ms);
      robot' := next;
    }
  }

  /** A fresh copy of the warehouse array. */
  method CopyWarehouse(start: array2<Entity>, ghost g: Grid) returns (w: array2<Entity>)
    requires Holds(start, g)
    ensures fresh(w) && Holds(w, g)
  {
    w := new Entity[start.Length0, start.Length1]((y, x) reads start =>
      if 0 <= y < start.Length0 && 0 <= x < start.Length1 then start[y, x] else Wall);
  }

  /** `process_robot_movements`: a copy of the warehouse after the robot,
      starting at `robotStart`, has tried every step of `ds`. */
  method ProcessRobotMovements(start: array2<Entity>, ghost g: Grid, robotStart: Coordinates, ds: seq<Direction>)
    returns (w: array2<Entity>)
    requires Valid(g) && Holds(start, g) && RobotOk(g, robotStart)
    ensures fresh(w) && Holds(w, Run(g, robotStart, ds).0)
  {
    w := CopyWarehouse(start, g);
    var robot := robotStart;
    var i := 0;
    while i < |ds|
      invariant 0 <= i <= |ds| && fresh(w)
      invariant Holds(w, Run(g, robotStart, ds[..i]).0) && robot == Run(g, robotStart, ds[..i]).1
    {
      robot := MoveRobot(w, Run(g, robotStart, ds[..i]).0, robot, ds[i]);
      assert ds[..i + 1][..i] == ds[..i];
      i := i + 1;
    }
    assert ds[..|ds|] == ds;
  }

  // ---------------------------------------------------------------------------
  // GPS coordinates
  // ---------------------------------------------------------------------------

  /** What the cell in row `y`, column `x` adds to the GPS sum: a box or
      the left half of a wide box counts `100 * y + x`, anything else 0. */
  function CellGps(g: Grid, y: nat, x: nat): nat
    requires y < |g| && x < |g[y]|
  {
    if g[y][x] == Box || g[y][x] == BoxLeft then 100 * y + x else 0
  }

  /** The GPS sum of the first `n` cells of row `y`. */
  function RowGps(g: Grid, y: nat, n: nat): nat
    requires y < |g| && n <= |g[y]|
  {
    if n == 0 then 0 else RowGps(g, y, n - 1) + CellGps(g, y, n - 1)
  }

  /** The GPS sum of the first `n` rows. */
  function GridGps(g: Grid, n: nat): nat
    requires Rect(g) && n <= |g|
  {
    if n == 0 then 0 else GridGps(g, n - 1) + RowGps(g, n - 1, Width(g))
  }

  /** A row of at most 100 cells in one of the 50 rows sums to less than
      5000 per cell. */
  lemma {:induction false} RowGpsBound(g: Grid, y: nat, n: nat)
    requires y < |g| == WarehouseHeight && n <= |g[y]| && n <= 2 * WarehouseWidth
    ensures RowGps(g, y, n) <= 5000 * n
  {
    if n > 0 {
      RowGpsBound(g, y, n - 1);
    }
  }

  /** The GPS sum of a warehouse at most twice as wide as the input one
      fits an `unsigned int`, so the wrap-around of `gps_sum` never
      happens. */
  lemma {:induction false} GridGpsBound(g: Grid, n: nat)
    requires Rect(g) && n <= |g| && Width(g) <= 2 * WarehouseWidth
    ensures GridGps(g, n) <= 500000 * n < UIntLimit
  {
    if n > 0 {
      GridGpsBound(g, n - 1);
      RowGpsBound(g, n - 1, Width(g));
    }
  }

  /** Adding to a remainder and reducing again is reducing the whole sum. */
  lemma AddMod(a: nat, b: nat)
    ensures (a % UIntLimit + b) % UIntLimit == (a + b) % UIntLimit
  {
    var q := a / UIntLimit;
    assert a + b == q * UIntLimit + (a % UIntLimit + b);
    var r := (a % UIntLimit + b) % UIntLimit;
    var q' := (a % UIntLimit + b) / UIntLimit;
    assert a + b == (q + q') * UIntLimit + r;
  }

  /** `calculate_box_gps_sum`: the GPS sum of the warehouse, accumulated in
      an `unsigned int`. */
  method CalculateBoxGpsSum(w: array2<Entity>, ghost g: Grid) returns (sum: uint)
    requires Holds(w, g)
    ensures sum == GridGps(g, |g|) % UIntLimit
  {
    sum := 0;
    var y := 0;
    while y < WarehouseHeight
      invariant 0 <= y <= |g| && sum == GridGps(g, y) % UIntLimit
    {
      var x := 0;
      while x < w.Length1
        invariant 0 <= x <= w.Length1 && sum == (GridGps(g, y) + RowGps(g, y, x)) % UIntLimit
      {
        var entity := w[y, x];
        if entity == Box || entity == BoxLeft {
          AddMod(GridGps(g, y) + RowGps(g, y, x), 100 * y + x);
          sum := (sum + 100 * y + x) % UIntLimit;
        }
        x := x + 1;
      }
      y := y + 1;
    }
  }

  // ---------------------------------------------------------------------------
  // The wide warehouse
  // ---------------------------------------------------------------------------

  /** One of the two wide cells a cell becomes: a box splits into its left
      (`half == 0`) and right half, anything else is doubled. */
  function WideCell(e: Entity, half: nat): Entity {
    if e == Box then (if half == 0 then BoxLeft else BoxRight) else e
  }

  /** The wide warehouse of `create_wide_warehouse`: every cell doubled. */
  function Widen(g: Grid): (h: Grid)
    requires Rect(g) && 2 * Width(g) < UIntLimit
    ensures Rect(h) && |h| == |g| && Width(h) == 2 * Width(g)
  {
    seq(|g|, y requires 0 <= y < |g| =>
      seq(2 * Width(g), x requires 0 <= x < 2 * Width(g) => WideCell(g[y][x / 2], x % 2)))
  }

  /** The two wide cells of cell `(x, y)` sit at columns `2x` and `2x + 1`. */
  lemma WidenCells(g: Grid, y: nat, x: nat)
    requires Rect(g) && 2 * Width(g) < UIntLimit && y < |g| && x < Width(g)
    ensures Widen(g)[y][2 * x] == WideCell(g[y][x], 0) && Widen(g)[y][2 * x + 1] == WideCell(g[y][x], 1)
  {
    assert (2 * x) / 2 == x && (2 * x + 1) / 2 == x;
  }

  /** The warehouse read from the input holds no wide-box halves. */
  predicate NoHalves(g: Grid) {
    forall y, x :: 0 <= y < |g| && 0 <= x < |g[y]| ==> g[y][x] != BoxLeft && g[y][x] != BoxRight
  }

  /** The cell of the narrow warehouse a pair of wide cells came from. */
  function NarrowCell(e: Entity): Entity {
    if e == BoxLeft then Box else e
  }

  /** The narrow warehouse read back from the left cells of a wide one. */
  function Narrow(h: Grid): (g: Grid)
    requires Rect(h)
  {
    seq(|h|, y requires 0 <= y < |h| =>
      seq(Width(h) / 2, x requires 0 <= x < Width(h) / 2 => NarrowCell(h[y][2 * x])))
  }

  /** Widening loses nothing: the narrow warehouse comes back from the
      wide one. */
  lemma NarrowWiden(g: Grid)
    requires Rect(g) && 2 * Width(g) < UIntLimit && NoHalves(g)
    ensures Narrow(Widen(g)) == g
  {
    var n := Narrow(Widen(g));
    forall y | 0 <= y < |g|
      ensures n[y] == g[y]
    {
      forall x | 0 <= x < Width(g)
        ensures n[y][x] == g[y][x]
      {
        WidenCells(g, y, x);
      }
    }
  }

  /** A valid warehouse without halves widens to a valid one: walls stay on
      the border and each box becomes a left half with its right half
      beside it. */
  lemma WidenValid(g: Grid)
    requires Valid(g) && 2 * Width(g) < UIntLimit && NoHalves(g)
    ensures Valid(Widen(g))
  {
    var h := Widen(g);
    forall y, x | 0 <= y < |h| && 0 <= x < Width(h)
      ensures WallOrInside(h, y, x) && HalfPaired(h, y, x)
    {
      var x0 := x / 2;
      assert WallOrInside(g, y, x0);
      if x % 2 == 0 {
        WidenCells(g, y, x0);
        assert x == 2 * x0;
      } else {
        WidenCells(g, y, x0);
        assert x == 2 * x0 + 1;
      }
    }
  }

  /** The robot keeps its row and doubles its column, and still stands on
      an empty cell. */
  lemma WidenRobot(g: Grid, robot: Coordinates)
    requires Rect(g) && 2 * Width(g) < UIntLimit && RobotOk(g, robot)
    ensures RobotOk(Widen(g), Coordinates(robot.x * 2 % UIntLimit, robot.y))
  {
    WidenCells(g, robot.y, robot.x);
  }

  /** `create_wide_warehouse`: the wide warehouse array and the robot's
      place in it. */
  method CreateWideWarehouse(w: array2<Entity>, ghost g: Grid, robotStart: Coordinates)
    returns (wide: array2<Entity>, wideRobot: Coordinates)
    requires Holds(w, g) && 2 * w.Length1 < UIntLimit
    ensures fresh(wide) && Holds(wide, Widen(g))
    ensures wideRobot == Coordinates(robotStart.x * 2 % UIntLimit, robotStart.y)
  {
    wide := new Entity[WarehouseHeight, 2 * w.Length1];
    var y := 0;
    while y < WarehouseHeight
      invariant 0 <= y <= |g|
      invariant forall y', x' :: 0 <= y' < y && 0 <= x' < 2 * w.Length1 ==> wide[y', x'] == Widen(g)[y'][x']
    {
      var x := 0;
      while x < w.Length1
        invariant 0 <= x <= w.Length1
        invariant forall y', x' :: 0 <= y' < y && 0 <= x' < 2 * w.Length1 ==> wide[y', x'] == Widen(g)[y'][x']
        invariant forall x' :: 0 <= x' < 2 * x ==> wide[y, x'] == Widen(g)[y][x']
      {
        var small := w[y, x];
        var wideX := x * 2;
        WidenCells(g, y, x);
        if small == Box {
          wide[y, wideX] := BoxLeft;
          wide[y, wideX + 1] := BoxRight;
        } else {
          wide[y, wideX] := small;
          wide[y, wideX + 1] := small;
        }
        x := x + 1;
      }
      y := y + 1;
    }
    wideRobot := Coordinates(robotStart.x * 2 % UIntLimit, robotStart.y);
  }

  // ---------------------------------------------------------------------------
  // Reading the input
  // ---------------------------------------------------------------------------

  /** The character that marks the robot's starting cell. */
  const RobotChar: char := '@'

  /** How many lines `read_warehouse_from_file` takes as warehouse rows:
      every line up to the first empty one. */
  function RowCount(lines: seq<string>): (n: nat)
    ensures n <= |lines|
  {
    if lines == [] || lines[0] == [] then 0 else 1 + RowCount(lines[1..])
  }

  /** The rows end at the first empty line. */
  lemma {:induction false} RowCountStops(lines: seq<string>)
    ensures forall i :: 0 <= i < RowCount(lines) ==> lines[i] != []
    ensures RowCount(lines) < |lines| ==> lines[RowCount(lines)] == []
  {
    if lines != [] && lines[0] != [] {
      RowCountStops(lines[1..]);
    }
  }

  /** The entities of a line, or the error for its first unknown character. */
  function DecodeLine(line: string): Result<seq<Entity>> {
    MapAll(EntityFromChar, line, |line|)
  }

  /** The warehouse rows decoded from `rows`. */
  function DecodeLines(rows: seq<string>): Result<seq<seq<Entity>>> {
    MapAll(DecodeLine, rows, |rows|)
  }

  /** The decoded warehouse has the shape of its lines and no wide halves. */
  lemma DecodedShape(rows: seq<string>)
    requires DecodeLines(rows).Ok?
    ensures |DecodeLines(rows).value| == |rows|
    ensures forall y :: 0 <= y < |rows| ==> |DecodeLines(rows).value[y]| == |rows[y]|
    ensures forall y, x :: 0 <= y < |rows| && 0 <= x < |rows[y]| ==>
      EntityFromChar(rows[y][x]).Ok? && DecodeLines(rows).value[y][x] == EntityFromChar(rows[y][x]).value
    ensures NoHalves(DecodeLines(rows).value)
  {
    MapAllOk(DecodeLine, rows, |rows|);
    forall y | 0 <= y < |rows|
      ensures |DecodeLines(rows).value[y]| == |rows[y]|
      ensures forall x :: 0 <= x < |rows[y]| ==>
        EntityFromChar(rows[y][x]).Ok? && DecodeLines(rows).value[y][x] == EntityFromChar(rows[y][x]).value
    {
      assert DecodeLine(rows[y]).Ok?;
      MapAllOk(EntityFromChar, rows[y], |rows[y]|);
    }
  }

  /** Where `read_warehouse_from_file` leaves the robot: at the last '@',
      row by row. */
  function FindRobot(rows: seq<string>): (r: Option<Coordinates>)
    requires |rows| <= WarehouseHeight && forall y :: 0 <= y < |rows| ==> |rows[y]| <= WarehouseWidth
    ensures r.Some? ==> r.value.y < |rows| && r.value.x < |rows[r.value.y]| && rows[r.value.y][r.value.x] == RobotChar
  {
    if rows == [] then None
    else match LastIndexOf(rows[|rows| - 1], RobotChar, |rows[|rows| - 1]|)
      case Some(x) => Some(Coordinates(x, |rows| - 1))
      case None => FindRobot(rows[..|rows| - 1])
  }

  /** Cell `(x, y)` comes after `p` in row-major order. */
  predicate Later(y: int, x: int, p: Coordinates) {
    y > p.y || (y == p.y && x > p.x)
  }

  /** The robot found is the last '@'; no '@' at all means none is found. */
  lemma {:induction false} FindRobotLast(rows: seq<string>)
    requires |rows| <= WarehouseHeight && forall y :: 0 <= y < |rows| ==> |rows[y]| <= WarehouseWidth
    ensures FindRobot(rows).Some? ==>
      forall y, x :: 0 <= y < |rows| && 0 <= x < |rows[y]| && Later(y, x, FindRobot(rows).value) ==> rows[y][x] != RobotChar
    ensures FindRobot(rows).None? ==> forall y, x :: 0 <= y < |rows| && 0 <= x < |rows[y]| ==> rows[y][x] != RobotChar
  {
    if rows != [] {
      var last := rows[|rows| - 1];
      LastIndexOfLast(last, RobotChar, |last|);
      if LastIndexOf(last, RobotChar, |last|).None? {
        FindRobotLast(rows[..|rows| - 1]);
      }
    }
  }

  /** Reading one more row moves the robot to that row's last '@', if
      there is one. */
  lemma FindRobotNext(lines: seq<string>, y: nat)
    requires y < |lines| && y < WarehouseHeight && forall i :: 0 <= i <= y ==> |lines[i]| <= WarehouseWidth
    ensures FindRobot(lines[..y + 1]) == match LastIndexOf(lines[y], RobotChar, |lines[y]|)
      case Some(x) => Some(Coordinates(x, y))
      case None => FindRobot(lines[..y])
  {
    assert lines[..y + 1][..y] == lines[..y];
  }

  /** The robot's cell reads as empty. */
  lemma RobotOnEmpty(rows: seq<string>)
    requires |rows| == WarehouseHeight && forall y :: 0 <= y < |rows| ==> |rows[y]| == WarehouseWidth
    requires DecodeLines(rows).Ok? && FindRobot(rows).Some?
    ensures Rect(DecodeLines(rows).value) && RobotOk(DecodeLines(rows).value, FindRobot(rows).value)
  {
    DecodedShape(rows);
    var p := FindRobot(rows).value;
    MapAllOk(EntityFromChar, rows[p.y], |rows[p.y]|);
  }

  /** Exactly 50 warehouse rows of 50 cells each before the empty line:
      the array has no room for more, and a cell left unwritten would be
      read uninitialised. */
  predicate Shaped(lines: seq<string>) {
    RowCount(lines) == WarehouseHeight &&
    forall y :: 0 <= y < WarehouseHeight ==> |lines[y]| == WarehouseWidth
  }

  /** What the input demands of the program: a warehouse of the right shape
      with a robot in it (otherwise the robot's coordinates are read
      uninitialised). */
  predicate WellSized(lines: seq<string>) {
    Shaped(lines) && FindRobot(lines[..WarehouseHeight]).Some?
  }

  /** The array agrees with `rows` wherever `rows` has a cell. */
  predicate Written(w: array2<Entity>, rows: seq<seq<Entity>>)
    reads w
  {
    |rows| <= w.Length0 && (forall y :: 0 <= y < |rows| ==> |rows[y]| <= w.Length1) &&
    forall y, x :: 0 <= y < |rows| && 0 <= x < |rows[y]| ==> w[y, x] == rows[y][x]
  }

  /** One more row written after the rows already written. */
  lemma WrittenSnoc(w: array2<Entity>, rows: seq<seq<Entity>>, row: seq<Entity>)
    requires Written(w, rows) && |rows| < w.Length0 && |row| <= w.Length1
    requires forall i :: 0 <= i < |row| ==> w[|rows|, i] == row[i]
    ensures Written(w, rows + [row])
  {
  }

  /** The inner loop of `read_warehouse_from_file`: the next row of the
      array from `line`, with the robot moved to each '@' met. */
  method ReadRow(w: array2<Entity>, ghost rows: seq<seq<Entity>>, y: nat, line: string, robot: Coordinates)
    returns (r: Result<Coordinates>)
    modifies w
    requires Written(w, rows) && y == |rows| < w.Length0 == WarehouseHeight
    requires w.Length1 == WarehouseWidth && |line| <= w.Length1
    ensures r.Ok? <==> DecodeLine(line).Ok?
    ensures r.Err? ==> r.message == DecodeLine(line).message
    ensures r.Ok? ==> Written(w, rows + [DecodeLine(line).value])
    ensures r.Ok? ==> r.value == match LastIndexOf(line, RobotChar, |line|)
      case Some(x) => Coordinates(x, y)
      case None => robot
  {
    var found := robot;
    var x := 0;
    while x < |line|
      invariant 0 <= x <= |line| && MapAll(EntityFromChar, line, x).Ok?
      invariant forall i :: 0 <= i < x ==> w[y, i] == MapAll(EntityFromChar, line, x).value[i]
      invariant forall y', x' :: 0 <= y' < y && 0 <= x' < w.Length1 ==> w[y', x'] == old(w[y', x'])
      invariant found == match LastIndexOf(line, RobotChar, x)
        case Some(i) => Coordinates(i, y)
        case None => robot
    {
      var c := line[x];
      var e := EntityFromChar(c);
      if e.Err? {
        MapAllErr(EntityFromChar, line, x + 1, |line|);
        return Err(e.message);
      }
      ghost var part := MapAll(EntityFromChar, line, x).value;
      w[y, x] := e.value;
      assert MapAll(EntityFromChar, line, x + 1) == Ok(part + [e.value]);
      if c == RobotChar {
        found := Coordinates(x, y);
      }
      x := x + 1;
    }
    forall y', x' | 0 <= y' < |rows| && 0 <= x' < |rows[y']|
      ensures w[y', x'] == rows[y'][x']
    {
      assert old(w[y', x']) == rows[y'][x'];
    }
    WrittenSnoc(w, rows, MapAll(EntityFromChar, line, x).value);
    r := Ok(found);
  }

  /** Once the loop of `read_warehouse_from_file` stops, the array holds the
      whole warehouse. */
  lemma ReadAll(w: array2<Entity>, lines: seq<string>, y: nat)
    requires Shaped(lines) && w.Length0 == WarehouseHeight && w.Length1 == WarehouseWidth
    requires y <= WarehouseHeight && !(y < |lines| && lines[y] != [])
    requires MapAll(DecodeLine, lines, y).Ok? && Written(w, MapAll(DecodeLine, lines, y).value)
    ensures DecodeLines(lines[..WarehouseHeight]).Ok?
    ensures Holds(w, DecodeLines(lines[..WarehouseHeight]).value)
    ensures lines[..y] == lines[..WarehouseHeight]
  {
    RowCountStops(lines);
    MapAllPrefix(DecodeLine, lines, lines[..WarehouseHeight], WarehouseHeight);
    DecodedShape(lines[..WarehouseHeight]);
  }

  /** `read_warehouse_from_file`: the warehouse array and the robot's
      position, or the error for an unknown character. */
  method ReadWarehouseFromFile(lines: seq<string>) returns (r: Result<(array2<Entity>, Coordinates)>)
    requires Shaped(lines)
    ensures r.Ok? <==> DecodeLines(lines[..WarehouseHeight]).Ok?
    ensures r.Err? ==> r.message == DecodeLines(lines[..WarehouseHeight]).message
    ensures r.Ok? ==> fresh(r.value.0) && Holds(r.value.0, DecodeLines(lines[..WarehouseHeight]).value)
    ensures r.Ok? && FindRobot(lines[..WarehouseHeight]).Some? ==> r.value.1 == FindRobot(lines[..WarehouseHeight]).value
  {
    RowCountStops(lines);
    MapAllPrefix(DecodeLine, lines, lines[..WarehouseHeight], WarehouseHeight);
    var w := new Entity[WarehouseHeight, WarehouseWidth];
    var robot := Coordinates(0, 0);
    var y := 0;
    while y < |lines| && lines[y] != []
      invariant 0 <= y <= WarehouseHeight && MapAll(DecodeLine, lines, y).Ok?
      invariant fresh(w) && Written(w, MapAll(DecodeLine, lines, y).value)
      invariant FindRobot(lines[..y]).Some? ==> robot == FindRobot(lines[..y]).value
    {
      ghost var rows := MapAll(DecodeLine, lines, y).value;
      assert y < WarehouseHeight;
      assert |rows| == y;
      assert |lines[y]| <= WarehouseWidth;
      var found := ReadRow(w, rows, y, lines[y], robot);
      if found.Err? {
        MapAllErr(DecodeLine, lines, y + 1, WarehouseHeight);
        return Err(found.message);
      }
      robot := found.value;
      FindRobotNext(lines, y);
      y := y + 1;
    }
    ReadAll(w, lines, y);
    r := Ok((w, robot));
  }

  /** The lines `read_directions_from_file` reads: all after the empty line
      that ends the warehouse. */
  function DirectionLines(lines: seq<string>): seq<string> {
    if RowCount(lines) < |lines| then lines[RowCount(lines) + 1..] else []
  }

  /** The directions of `read_directions_from_file`: every character of
      every line in order, or the error for an unknown one. */
  function DecodeDirections(lines: seq<string>): (r: Result<seq<Direction>>)
  {
    if lines == [] then Ok([])
    else
      var front :- DecodeDirections(lines[..|lines| - 1]);
      var last :- MapAll(DirectionFromChar, lines[|lines| - 1], |lines[|lines| - 1]|);
      Ok(front + last)
  }

  /** A line that fails fails the whole input. */
  lemma {:induction false} DecodeDirectionsErr(lines: seq<string>, k: nat)
    requires k <= |lines| && DecodeDirections(lines[..k]).Err?
    ensures DecodeDirections(lines) == DecodeDirections(lines[..k])
  {
    if k < |lines| {
      var front := lines[..|lines| - 1];
      assert front[..k] == lines[..k];
      DecodeDirectionsErr(front, k);
    } else {
      assert lines[..k] == lines;
    }
  }

  /** The line of characters for a list of directions. */
  function DirectionLine(ds: seq<Direction>): (line: string)
    ensures |line| == |ds|
  {
    seq(|ds|, i requires 0 <= i < |ds| => DirectionChar(ds[i]))
  }

  /** Reading back the characters of a list of directions gives the list. */
  lemma DirectionsRoundTrip(ds: seq<Direction>)
    ensures DecodeDirections([DirectionLine(ds)]) == Ok(ds)
  {
    var line := DirectionLine(ds);
    var lines: seq<string> := [line];
    assert lines[..0] == [];
    MapAllOk(DirectionFromChar, line, |line|);
    forall k | 0 <= k < |ds|
      ensures DirectionFromChar(line[k]) == Ok(ds[k])
    {
      DirectionRoundTrip(ds[k]);
    }
    assert MapAll(DirectionFromChar, line, |line|).value == ds;
    assert DecodeDirections(lines[..0]) == Ok([]);
    assert lines[|lines| - 1] == line;
    assert [] + ds == ds;
  }

  /** `read_directions_from_file`: the directions on `lines`, or the error
      for the first unknown character. */
  method ReadDirectionsFromFile(lines: seq<string>) returns (r: Result<seq<Direction>>)
    ensures r == DecodeDirections(lines)
  {
    var ds: seq<Direction> := [];
    var i := 0;
    while i < |lines|
      invariant 0 <= i <= |lines| && DecodeDirections(lines[..i]) == Ok(ds)
    {
      var line := lines[i];
      ghost var front := ds;
      var j := 0;
      while j < |line|
        invariant 0 <= j <= |line| && MapAll(DirectionFromChar, line, j).Ok?
        invariant ds == front + MapAll(DirectionFromChar, line, j).value
      {
        var d := DirectionFromChar(line[j]);
        if d.Err? {
          MapAllErr(DirectionFromChar, line, j + 1, |line|);
          assert lines[..i + 1][..i] == lines[..i];
          DecodeDirectionsErr(lines, i + 1);
          return Err(d.message);
        }
        ds := ds + [d.value];
        j := j + 1;
      }
      assert lines[..i + 1][..i] == lines[..i];
      i := i + 1;
    }
    assert lines[..i] == lines;
    r := Ok(ds);
  }

  /** `process_warehouse`: the GPS sum after the robot's run. */
  method ProcessWarehouse(w: array2<Entity>, ghost g: Grid, robotStart: Coordinates, ds: seq<Direction>)
    returns (sum: uint)
    requires Valid(g) && Holds(w, g) && RobotOk(g, robotStart)
    ensures sum == GridGps(Run(g, robotStart, ds).0, |g|) % UIntLimit
  {
    var moved := ProcessRobotMovements(w, g, robotStart, ds);
    sum := CalculateBoxGpsSum(moved, Run(g, robotStart, ds).0);
  }

  /** What the input must give beyond its shape: a warehouse whose border is
      walls (otherwise a push reads outside the array). */
  predicate Walled(lines: seq<string>)
    requires WellSized(lines)
  {
    DecodeLines(lines[..WarehouseHeight]).Ok? ==> Valid(DecodeLines(lines[..WarehouseHeight]).value)
  }

  /** The two answers for a warehouse, its robot and the directions: the
      GPS sums after the robot's run in the warehouse and in its wide
      version. Both fit an `unsigned int`. */
  function Outcome(g: Grid, robot: Coordinates, ds: seq<Direction>): (r: (uint, uint))
    requires Valid(g) && NoHalves(g) && Width(g) == WarehouseWidth && RobotOk(g, robot)
  {
    WidenValid(g);
    WidenRobot(g, robot);
    var small := Run(g, robot, ds).0;
    var wide := Run(Widen(g), Coordinates(robot.x * 2 % UIntLimit, robot.y), ds).0;
    GridGpsBound(small, |small|);
    GridGpsBound(wide, |wide|);
    (GridGps(small, |small|), GridGps(wide, |wide|))
  }

  /** The answers for an input, or the error for its first unknown
      character. */
  function Answers(lines: seq<string>): (r: Result<(uint, uint)>)
    requires WellSized(lines) && Walled(lines)
    ensures r.Ok? <==> DecodeLines(lines[..WarehouseHeight]).Ok? && DecodeDirections(DirectionLines(lines)).Ok?
  {
    var g :- DecodeLines(lines[..WarehouseHeight]);
    var ds :- DecodeDirections(DirectionLines(lines));
    RobotOnEmpty(lines[..WarehouseHeight]);
    DecodedShape(lines[..WarehouseHeight]);
    Ok(Outcome(g, FindRobot(lines[..WarehouseHeight]).value, ds))
  }

  /** `process_warehouse` on the warehouse and on its wide version. */
  method ProcessBoth(w: array2<Entity>, ghost g: Grid, robot: Coordinates, ds: seq<Direction>)
    returns (small: uint, wideSum: uint)
    requires Valid(g) && NoHalves(g) && Width(g) == WarehouseWidth && RobotOk(g, robot) && Holds(w, g)
    ensures (small, wideSum) == Outcome(g, robot, ds)
  {
    small := ProcessWarehouse(w, g, robot, ds);
    var wide, wideRobot := CreateWideWarehouse(w, g, robot);
    WidenValid(g);
    WidenRobot(g, robot);
    wideSum := ProcessWarehouse(wide, Widen(g), wideRobot, ds);
    GridGpsBound(Run(g, robot, ds).0, |g|);
    GridGpsBound(Run(Widen(g), wideRobot, ds).0, |g|);
  }

  /** `main` without its file and console: the answers for the input lines. */
  method Solve(lines: seq<string>) returns (r: Result<(uint, uint)>)
    requires WellSized(lines) && Walled(lines)
    ensures r == Answers(lines)
  {
    var setup :- ReadWarehouseFromFile(lines);
    var (w, robot) := setup;
    var ds :- ReadDirectionsFromFile(DirectionLines(lines));
    ghost var g := DecodeLines(lines[..WarehouseHeight]).value;
    RobotOnEmpty(lines[..WarehouseHeight]);
    DecodedShape(lines[..WarehouseHeight]);
    var small, wideSum := ProcessBoth(w, g, robot, ds);
    r := Ok((small, wideSum));
  }
}
