/** Day 16 reindeer maze. A 15 by 15 maze of tiles is read from text; a
    queue-driven search then scores each tile (a step costs one point, a
    quarter turn a thousand more) and records, per tile, the directions from
    which its best score arrived; finally a walk back from the end along
    those records counts the tiles on the best paths. */
module ReindeerMaze {
  import opened Outcomes
  import opened Text
  import opened Compass

  datatype Entity = Wall | End | Empty

  const UIntLimit: int := 0x1_0000_0000

  /** `unsigned int`. */
  type uint = n: int | 0 <= n < UIntLimit

  /** `direction_visited_from`: one flag per direction, indexed by the
      direction's value. */
  type Flags = s: seq<bool> | |s| == 4 witness [false, false, false, false]

  const NoFlags: Flags := [false, false, false, false]
  const AllFlags: Flags := [true, true, true, true]

  datatype Tile = Tile(entity: Entity, minScore: uint, visited: bool, from: Flags)

  const MazeHeight: nat := 15
  const MazeWidth: nat := 15
  const StartChar: char := 'S'
  const EndChar: char := 'E'

  /** The points added for a step ahead, for a quarter turn and step, and
      for the first westward step out of the start. */
  const StepPoints: nat := 1
  const TurnPoints: nat := 1001
  const FirstWestPoints: nat := 2001

  type Grid = seq<seq<Tile>>

  // ---------------------------------------------------------------------
  // Reading the maze

  /** `char_to_entity`. */
  function CharToEntity(c: char): (r: Result<Entity>)
    ensures r.Ok? <==> c in "S.#E"
    ensures r.Ok? ==> (r.value == Wall <==> c == '#') && (r.value == End <==> c == EndChar)
  {
    match c
    case 'S' => Ok(Empty)
    case '.' => Ok(Empty)
    case '#' => Ok(Wall)
    case 'E' => Ok(End)
    case _ => Err("Invalid entity character provided")
  }

  /** The tile `read_maze_from_file` stores for one character: unscored
      and unvisited, except that the start is visited from every
      direction. */
  function CharToTile(c: char): (r: Result<Tile>)
    ensures r.Ok? <==> CharToEntity(c).Ok?
    ensures r.Ok? ==> r.value.entity == CharToEntity(c).value && r.value.minScore == 0
    ensures r.Ok? ==> (r.value.visited <==> c == StartChar)
    ensures r.Ok? ==> r.value.from == if c == StartChar then AllFlags else NoFlags
  {
    var e :- CharToEntity(c);
    Ok(Tile(e, 0, c == StartChar, if c == StartChar then AllFlags else NoFlags))
  }

  function DecodeLine(line: string): Result<seq<Tile>> {
    MapAll(CharToTile, line, |line|)
  }

  /** The maze of the whole input, or the error for the first unknown
      character. */
  function DecodeMaze(lines: seq<string>): Result<Grid> {
    MapAll(DecodeLine, lines, |lines|)
  }

  /** Exactly 15 lines of 15 characters: the array has no room for more,
      and a tile left unwritten would be read uninitialised. */
  predicate Shaped(lines: seq<string>) {
    |lines| == MazeHeight && forall y :: 0 <= y < |lines| ==> |lines[y]| == MazeWidth
  }

  predicate Rect(g: Grid) {
    |g| == MazeHeight && forall y :: 0 <= y < |g| ==> |g[y]| == MazeWidth
  }

  predicate InMaze(g: Grid, c: Coordinates) {
    c.y < |g| && c.x < |g[c.y]|
  }

  function At(g: Grid, c: Coordinates): Tile
    requires InMaze(g, c)
  {
    g[c.y][c.x]
  }

  /** A decoded maze has the input's shape, tile for character. */
  lemma DecodedShape(lines: seq<string>)
    requires Shaped(lines) && DecodeMaze(lines).Ok?
    ensures Rect(DecodeMaze(lines).value)
    ensures forall y, x :: 0 <= y < MazeHeight && 0 <= x < MazeWidth ==>
      CharToTile(lines[y][x]).Ok? && DecodeMaze(lines).value[y][x] == CharToTile(lines[y][x]).value
  {
    MapAllOk(DecodeLine, lines, |lines|);
    forall y | 0 <= y < MazeHeight
      ensures |DecodeMaze(lines).value[y]| == MazeWidth
      ensures forall x :: 0 <= x < MazeWidth ==>
        CharToTile(lines[y][x]).Ok? && DecodeMaze(lines).value[y][x] == CharToTile(lines[y][x]).value
    {
      MapAllOk(CharToTile, lines[y], |lines[y]|);
    }
  }

  /** The last position of `c` in the first `n` lines, row by row. */
  function LastAt(lines: seq<string>, c: char, n: nat): (r: Option<Coordinates>)
    requires n <= |lines| <= MazeHeight && forall y :: 0 <= y < |lines| ==> |lines[y]| <= MazeWidth
    ensures r.Some? ==> r.value.y < n && r.value.x < |lines[r.value.y]| && lines[r.value.y][r.value.x] == c
  {
    if n == 0 then None
    else match LastIndexOf(lines[n - 1], c, |lines[n - 1]|)
      case Some(x) => Some(Coordinates(x, n - 1))
      case None => LastAt(lines, c, n - 1)
  }

  /** Nothing after the position found holds `c`; nothing at all does when
      none is found. */
  lemma {:induction false} LastAtLast(lines: seq<string>, c: char, n: nat)
    requires n <= |lines| <= MazeHeight && forall y :: 0 <= y < |lines| ==> |lines[y]| <= MazeWidth
    ensures LastAt(lines, c, n).Some? ==> forall y, x :: 0 <= y < n && 0 <= x < |lines[y]| && lines[y][x] == c ==>
      y < LastAt(lines, c, n).value.y || (y == LastAt(lines, c, n).value.y && x <= LastAt(lines, c, n).value.x)
    ensures LastAt(lines, c, n).None? ==> forall y, x :: 0 <= y < n && 0 <= x < |lines[y]| ==> lines[y][x] != c
  {
    if n > 0 {
      LastIndexOfLast(lines[n - 1], c, |lines[n - 1]|);
      LastAtLast(lines, c, n - 1);
    }
  }

  /** Where the reading loop leaves a position it tracks: at the last `c`,
      or at the value-initialised origin when there is none. */
  function Located(lines: seq<string>, c: char, n: nat): Coordinates
    requires n <= |lines| <= MazeHeight && forall y :: 0 <= y < |lines| ==> |lines[y]| <= MazeWidth
  {
    match LastAt(lines, c, n)
    case Some(p) => p
    case None => Coordinates(0, 0)
  }

  /** A tracked position after the first `n` characters of row `y`. */
  function SeenIn(line: string, c: char, n: nat, y: size, before: Coordinates): Coordinates
    requires n <= |line| <= MazeWidth
  {
    match LastIndexOf(line, c, n)
    case Some(x) => Coordinates(x, y)
    case None => before
  }

  /** Reading row `y` moves a tracked position to that row's last `c`, if
      it has one. */
  lemma LocatedNext(lines: seq<string>, c: char, y: nat)
    requires y < |lines| <= MazeHeight && forall i :: 0 <= i < |lines| ==> |lines[i]| <= MazeWidth
    ensures Located(lines, c, y + 1) == SeenIn(lines[y], c, |lines[y]|, y, Located(lines, c, y))
  {
  }

  /** The array agrees with `rows` wherever `rows` has a tile. */
  predicate Written(w: array2<Tile>, rows: seq<seq<Tile>>)
    reads w
  {
    |rows| <= w.Length0 && (forall y :: 0 <= y < |rows| ==> |rows[y]| <= w.Length1) &&
    forall y, x :: 0 <= y < |rows| && 0 <= x < |rows[y]| ==> w[y, x] == rows[y][x]
  }

  /** The array holds the maze `g`. */
  predicate Holds(w: array2<Tile>, g: Grid)
    reads w
  {
    Rect(g) && w.Length0 == MazeHeight && w.Length1 == MazeWidth &&
    forall y, x :: 0 <= y < MazeHeight && 0 <= x < MazeWidth ==> w[y, x] == g[y][x]
  }

  lemma WrittenSnoc(w: array2<Tile>, rows: seq<seq<Tile>>, row: seq<Tile>)
    requires Written(w, rows) && |rows| < w.Length0 && |row| <= w.Length1
    requires forall i :: 0 <= i < |row| ==> w[|rows|, i] == row[i]
    ensures Written(w, rows + [row])
  {
  }

  /** Row `y` of the array starts with `row`. */
  predicate RowHolds(w: array2<Tile>, y: nat, row: seq<Tile>)
    reads w
  {
    y < w.Length0 && |row| <= w.Length1 && forall i :: 0 <= i < |row| ==> w[y, i] == row[i]
  }

  /** One tile stored after the ones already in row `y`. */
  method StoreTile(w: array2<Tile>, ghost rows: seq<seq<Tile>>, y: nat, ghost row: seq<Tile>, x: nat, t: Tile)
    modifies w
    requires Written(w, rows) && y == |rows| && RowHolds(w, y, row) && x == |row| < w.Length1
    ensures Written(w, rows) && RowHolds(w, y, row + [t])
  {
    w[y, x] := t;
  }

  /** The inner loop of `read_maze_from_file`: row `y` of the array from
      `line`, with the start and the end moved to each 'S' and 'E' met. */
  method ReadRow(w: array2<Tile>, ghost rows: seq<seq<Tile>>, y: size, line: string, start: Coordinates, end: Coordinates)
    returns (r: Result<(Coordinates, Coordinates)>)
    modifies w
    requires Written(w, rows) && y == |rows| < w.Length0 == MazeHeight
    requires w.Length1 == MazeWidth && |line| <= w.Length1
    ensures r.Ok? <==> DecodeLine(line).Ok?
    ensures r.Err? ==> r.message == DecodeLine(line).message
    ensures r.Ok? ==> Written(w, rows + [DecodeLine(line).value])
    ensures r.Ok? ==> r.value == (SeenIn(line, StartChar, |line|, y, start), SeenIn(line, EndChar, |line|, y, end))
  {
    var s, e := start, end;
    ghost var row: seq<Tile> := [];
    var x := 0;
    while x < |line|
      invariant 0 <= x <= |line| && x == |row| && MapAll(CharToTile, line, x) == Ok(row)
      invariant Written(w, rows) && RowHolds(w, y, row)
      invariant s == SeenIn(line, StartChar, x, y, start) && e == SeenIn(line, EndChar, x, y, end)
    {
      var c := line[x];
      var t := CharToTile(c);
      if t.Err? {
        MapAllErr(CharToTile, line, x + 1, |line|);
        return Err(t.message);
      }
      StoreTile(w, rows, y, row, x, t.value);
      row := row + [t.value];
      assert LastIndexOf(line, StartChar, x + 1) == if c == StartChar then Some(x) else LastIndexOf(line, StartChar, x);
      assert LastIndexOf(line, EndChar, x + 1) == if c == EndChar then Some(x) else LastIndexOf(line, EndChar, x);
      if c == StartChar {
        s := Coordinates(x, y);
      } else if c == EndChar {
        e := Coordinates(x, y);
      }
      x := x + 1;
    }
    WrittenSnoc(w, rows, row);
    r := Ok((s, e));
  }

  /** Once every line is read, the array holds the whole maze. */
  lemma ReadAll(w: array2<Tile>, lines: seq<string>)
    requires Shaped(lines) && w.Length0 == MazeHeight && w.Length1 == MazeWidth
    requires DecodeMaze(lines).Ok? && Written(w, DecodeMaze(lines).value)
    ensures Holds(w, DecodeMaze(lines).value)
  {
    DecodedShape(lines);
  }

  /** `read_maze_from_file`: the maze array with the start and the end, or
      the error for an unknown character. */
  method ReadMaze(lines: seq<string>) returns (r: Result<(array2<Tile>, Coordinates, Coordinates)>)
    requires Shaped(lines)
    ensures r.Ok? <==> DecodeMaze(lines).Ok?
    ensures r.Err? ==> r.message == DecodeMaze(lines).message
    ensures r.Ok? ==> fresh(r.value.0) && Holds(r.value.0, DecodeMaze(lines).value)
    ensures r.Ok? ==> r.value.1 == Located(lines, StartChar, |lines|) && r.value.2 == Located(lines, EndChar, |lines|)
  {
    var w := new Tile[MazeHeight, MazeWidth];
    var start, end := Coordinates(0, 0), Coordinates(0, 0);
    ghost var rows: seq<seq<Tile>> := [];
    var y := 0;
    while y < |lines|
      invariant 0 <= y <= |lines| && y == |rows| && MapAll(DecodeLine, lines, y) == Ok(rows)
      invariant fresh(w) && Written(w, rows)
      invariant start == Located(lines, StartChar, y) && end == Located(lines, EndChar, y)
    {
      var found := ReadRow(w, rows, y, lines[y], start, end);
      if found.Err? {
        MapAllErr(DecodeLine, lines, y + 1, |lines|);
        return Err(found.message);
      }
      rows := rows + [DecodeLine(lines[y]).value];
      start, end := found.value.0, found.value.1;
      LocatedNext(lines, StartChar, y);
      LocatedNext(lines, EndChar, y);
      y := y + 1;
    }
    ReadAll(w, lines);
    r := Ok((w, start, end));
  }

  // ---------------------------------------------------------------------
  // The scoring search

  /** Off the outer ring of the maze. */
  predicate Interior(c: Coordinates) {
    0 < c.x < MazeWidth - 1 && 0 < c.y < MazeHeight - 1
  }

  /** Walls all round, so that no step from an open tile leaves the maze
      (the search reads its neighbours unchecked). */
  ghost predicate Walled(g: Grid) {
    Rect(g) && forall c :: InMaze(g, c) && !Interior(c) ==> At(g, c).entity == Wall
  }

  /** A tile as reading leaves every 'S': open, no points, visited from
      every direction. */
  predicate Origin(t: Tile) {
    t == Tile(Empty, 0, true, AllFlags)
  }

  /** Tile `p` may be the one a flag of a tile scored `score` points back
      to: visited, open, not an end, scored lower, and either the start or
      a tile reached with points (never another 'S', which the search does
      not leave from). */
  predicate Feeds(g: Grid, s: Coordinates, p: Coordinates, score: int) {
    InMaze(g, p) && At(g, p).visited && At(g, p).entity == Empty && At(g, p).minScore < score &&
    (p == s || At(g, p).minScore > 0)
  }

  /** Tile `c` as the search leaves every tile but the 'S' tiles:
      unvisited with no flags, or open with at least one flag, each leading
      back one step to a tile that feeds it. */
  predicate Settled(g: Grid, s: Coordinates, c: Coordinates)
    requires InMaze(g, c)
  {
    var t := At(g, c);
    if t.visited then
      t.entity != Wall && true in t.from &&
      forall i :: 0 <= i < 4 && t.from[i] ==> Feeds(g, s, Minus(c, FromIndex(i)), t.minScore)
    else t.from == NoFlags
  }

  /** What the search keeps of the maze: walled, the start as read, and
      every other tile settled or an 'S' as read. */
  ghost predicate Traced(g: Grid, s: Coordinates) {
    Walled(g) && InMaze(g, s) && Origin(At(g, s)) &&
    forall c :: InMaze(g, c) && c != s ==> Settled(g, s, c) || Origin(At(g, c))
  }

  ghost predicate Bounded(g: Grid, bound: int) {
    forall c :: InMaze(g, c) ==> At(g, c).minScore <= bound
  }

  ghost predicate Searching(g: Grid, s: Coordinates, bound: int) {
    Traced(g, s) && Bounded(g, bound)
  }

  /** `g2` has the layout of `g`: the same shape and the same entities. */
  ghost predicate SameLayout(g: Grid, g2: Grid) {
    Rect(g) && Rect(g2) && forall c :: InMaze(g, c) ==> At(g2, c).entity == At(g, c).entity
  }

  lemma WalledLayout(g: Grid, g2: Grid)
    requires Walled(g) && SameLayout(g, g2)
    ensures Walled(g2)
  {
    forall c | InMaze(g2, c) && !Interior(c)
      ensures At(g2, c).entity == Wall
    {
      assert InMaze(g, c);
    }
  }

  /** `g2` is `g` after more search: the same layout, no visited tile
      forgotten, no score raised, and no score brought down to nothing. */
  ghost predicate Improves(g: Grid, g2: Grid) {
    SameLayout(g, g2) &&
    forall c :: InMaze(g, c) ==>
      (At(g, c).visited ==> At(g2, c).visited && At(g2, c).minScore <= At(g, c).minScore) &&
      (At(g, c).minScore > 0 ==> At(g2, c).minScore > 0)
  }

  lemma ImprovesTrans(g: Grid, g2: Grid, g3: Grid)
    requires Improves(g, g2) && Improves(g2, g3)
    ensures Improves(g, g3)
  {
  }

  /** A tile that is not a wall is off the outer ring, so each step from it
      stays in the maze. */
  lemma StepInMaze(g: Grid, c: Coordinates, d: Direction)
    requires Walled(g) && InMaze(g, c) && At(g, c).entity != Wall
    ensures Interior(c) && InMaze(g, Plus(c, d))
  {
    PlusExact(c, d);
  }

  /** The body of `add_tile_to_queue` for the tile reached: whether it is
      queued, and what it becomes. */
  function Relax(t: Tile, d: Direction, points: uint): (r: (Tile, bool))
    ensures r.1 <==> t.entity != Wall && (!t.visited || points <= t.minScore)
    ensures !r.1 ==> r.0 == t
    ensures r.1 ==> r.0.entity == t.entity && r.0.visited && r.0.minScore == points && r.0.from[Index(d)]
    ensures r.1 ==> forall i :: 0 <= i < 4 && i != Index(d) ==>
      (r.0.from[i] <==> t.from[i] && t.minScore <= points)
  {
    if t.entity != Wall && (!t.visited || t.minScore >= points) then
      var kept := if points < t.minScore then NoFlags else t.from;
      (Tile(t.entity, points, true, kept[Index(d) := true]), true)
    else (t, false)
  }

  /** Relaxing a tile twice with the same offer queues it both times and
      leaves it as the first time did: equal scores are queued again. */
  lemma RelaxRequeues(t: Tile, d: Direction, points: uint)
    requires Relax(t, d, points).1
    ensures Relax(Relax(t, d, points).0, d, points) == (Relax(t, d, points).0, true)
  {
    var t' := Relax(t, d, points).0;
    assert t'.from[Index(d) := true] == t'.from;
  }

  /** `add_tile_to_queue(base, d, points)` on the whole maze. */
  function RelaxAt(g: Grid, base: Coordinates, d: Direction, points: uint): (r: (Grid, bool))
    requires InMaze(g, Plus(base, d))
  {
    var c := Plus(base, d);
    var (t, queued) := Relax(At(g, c), d, points);
    if queued then (g[c.y := g[c.y][c.x := t]], true) else (g, false)
  }

  /** A relaxation keeps the layout and changes no tile but the one
      reached. */
  lemma RelaxLayout(g: Grid, base: Coordinates, d: Direction, points: uint)
    requires Rect(g) && InMaze(g, Plus(base, d))
    ensures SameLayout(g, RelaxAt(g, base, d, points).0)
    ensures forall p :: InMaze(g, p) && p != Plus(base, d) ==> At(RelaxAt(g, base, d, points).0, p) == At(g, p)
  {
  }

  /** A relaxation with an offer of some points changes at most the tile
      reached, and only improves it. */
  lemma RelaxImproves(g: Grid, base: Coordinates, d: Direction, points: uint)
    requires Rect(g) && InMaze(g, Plus(base, d)) && points > 0
    ensures Improves(g, RelaxAt(g, base, d, points).0)
    ensures forall p :: InMaze(g, p) && p != Plus(base, d) ==> At(RelaxAt(g, base, d, points).0, p) == At(g, p)
  {
    RelaxLayout(g, base, d, points);
  }

  /** A tile that was settled stays settled while the tiles its flags
      point to only improve. */
  lemma SettledImproves(g: Grid, g2: Grid, s: Coordinates, p: Coordinates)
    requires Improves(g, g2) && InMaze(g, p) && At(g2, p) == At(g, p) && Settled(g, s, p)
    ensures Settled(g2, s, p)
  {
    var t := At(g, p);
    forall i | 0 <= i < 4 && t.from[i]
      ensures Feeds(g2, s, Minus(p, FromIndex(i)), t.minScore)
    {
      var q := Minus(p, FromIndex(i));
      assert Feeds(g, s, q, t.minScore);
    }
  }

  /** The tile a relaxation queues is neither the start nor another 'S',
      and is settled afterwards: its new flag points back to the tile
      relaxed from, and the flags it keeps were set at the same score. */
  lemma RelaxedSettled(g: Grid, s: Coordinates, base: Coordinates, d: Direction, points: uint)
    requires Traced(g, s) && InMaze(g, base) && At(g, base).visited && At(g, base).entity == Empty
    requires At(g, base).minScore < points && (base == s || At(g, base).minScore > 0)
    requires InMaze(g, Plus(base, d)) && RelaxAt(g, base, d, points).1
    requires Improves(g, RelaxAt(g, base, d, points).0)
    ensures Plus(base, d) != s && !Origin(At(g, Plus(base, d)))
    ensures Settled(RelaxAt(g, base, d, points).0, s, Plus(base, d))
  {
    var c := Plus(base, d);
    var g' := RelaxAt(g, base, d, points).0;
    var t := At(g', c);
    assert t == Relax(At(g, c), d, points).0;
    MinusPlus(base, d);
    assert At(g', base) == At(g, base);
    assert c != s && !Origin(At(g, c));
    forall i | 0 <= i < 4 && t.from[i]
      ensures Feeds(g', s, Minus(c, FromIndex(i)), t.minScore)
    {
      if i != Index(d) {
        assert Settled(g, s, c);
        assert Feeds(g, s, Minus(c, FromIndex(i)), At(g, c).minScore);
      }
    }
    assert t.from[Index(d)];
  }

  /** A relaxation from a visited open tile that is the start or was
      reached with points, with an offer above its score, keeps the
      search's invariant, raises the bound to the offer, and only improves
      the maze. */
  lemma RelaxKeepsSearching(g: Grid, s: Coordinates, bound: int, bound': int,
                            base: Coordinates, d: Direction, points: uint)
    requires Searching(g, s, bound) && bound <= bound' && points <= bound'
    requires InMaze(g, base) && At(g, base).visited && At(g, base).entity == Empty
    requires At(g, base).minScore < points && (base == s || At(g, base).minScore > 0)
    ensures InMaze(g, Plus(base, d))
    ensures Searching(RelaxAt(g, base, d, points).0, s, bound')
    ensures Improves(g, RelaxAt(g, base, d, points).0)
  {
    StepInMaze(g, base, d);
    var c := Plus(base, d);
    var g' := RelaxAt(g, base, d, points).0;
    RelaxImproves(g, base, d, points);
    WalledLayout(g, g');
    if RelaxAt(g, base, d, points).1 {
      RelaxedSettled(g, s, base, d, points);
      forall p | InMaze(g', p) && p != s
        ensures Settled(g', s, p) || Origin(At(g', p))
      {
        if p != c && !Origin(At(g, p)) {
          SettledImproves(g, g', s, p);
        }
      }
    }
  }

  /** The largest score after `n` rounds of the search. */
  function Bound(n: nat): nat {
    FirstWestPoints + TurnPoints * n
  }

  lemma BoundGrows(m: nat, n: nat)
    requires m <= n
    ensures Bound(m) <= Bound(n)
  {
  }

  /** The rounds the properties below cover; the scores then stay below
      2^32. */
  const MaxRounds: nat := 4000000

  /** A tile the queue may hold: in the maze, visited and open, and the
      start or reached with points. */
  predicate Queued(g: Grid, s: Coordinates, c: Coordinates) {
    InMaze(g, c) && At(g, c).visited && At(g, c).entity != Wall && (c == s || At(g, c).minScore > 0)
  }

  predicate AllQueued(g: Grid, s: Coordinates, q: seq<(Coordinates, Direction)>) {
    forall i :: 0 <= i < |q| ==> Queued(g, s, q[i].0)
  }

  lemma AllQueuedImproves(g: Grid, g2: Grid, s: Coordinates, q: seq<(Coordinates, Direction)>)
    requires Improves(g, g2) && AllQueued(g, s, q)
    ensures AllQueued(g2, s, q)
  {
    forall i | 0 <= i < |q|
      ensures Queued(g2, s, q[i].0)
    {
      assert Queued(g, s, q[i].0);
    }
  }

  /** Every tile the queue holds is in the maze and open. */
  predicate OpenQueue(g: Grid, q: seq<(Coordinates, Direction)>) {
    forall i :: 0 <= i < |q| ==> InMaze(g, q[i].0) && At(g, q[i].0).entity != Wall
  }

  // ---------------------------------------------------------------------
  // The search as a function of the maze and the queue

  /** `add_tile_to_queue(base, d, points)` with the queue it feeds. */
  function AddTile(g: Grid, q: seq<(Coordinates, Direction)>, base: Coordinates, d: Direction, points: uint)
    : (r: (Grid, seq<(Coordinates, Direction)>))
    requires InMaze(g, Plus(base, d))
  {
    var relaxed := RelaxAt(g, base, d, points);
    (relaxed.0, if relaxed.1 then q + [(Plus(base, d), d)] else q)
  }

  /** An offer keeps the layout, and the queue holds open tiles only. */
  lemma AddTileLayout(g: Grid, q: seq<(Coordinates, Direction)>, base: Coordinates, d: Direction, points: uint)
    requires Rect(g) && InMaze(g, Plus(base, d)) && OpenQueue(g, q)
    ensures SameLayout(g, AddTile(g, q, base, d, points).0)
    ensures OpenQueue(AddTile(g, q, base, d, points).0, AddTile(g, q, base, d, points).1)
  {
    RelaxLayout(g, base, d, points);
  }

  /** The points of an offer in `unsigned int` arithmetic, which wraps
      round. */
  function AddPoints(score: uint, points: nat): (r: uint)
    ensures score + points < UIntLimit ==> r == score + points
  {
    (score + points) % UIntLimit
  }

  /** The loop body of `calculate_least_points` for a tile that is not an
      end: offers ahead at one point more, left and right at 1001 more, all
      from the score the tile has when taken off the queue. */
  function ExpandTile(g: Grid, q: seq<(Coordinates, Direction)>, c: Coordinates, heading: Direction)
    : (Grid, seq<(Coordinates, Direction)>)
    requires Walled(g) && InMaze(g, c) && At(g, c).entity != Wall && OpenQueue(g, q)
  {
    var score := At(g, c).minScore;
    var ds := RelativeDirections(heading);
    StepInMaze(g, c, ds[0]);
    AddTileLayout(g, q, c, ds[0], AddPoints(score, StepPoints));
    var r1 := AddTile(g, q, c, ds[0], AddPoints(score, StepPoints));
    WalledLayout(g, r1.0);
    StepInMaze(r1.0, c, ds[1]);
    AddTileLayout(r1.0, r1.1, c, ds[1], AddPoints(score, TurnPoints));
    var r2 := AddTile(r1.0, r1.1, c, ds[1], AddPoints(score, TurnPoints));
    WalledLayout(r1.0, r2.0);
    StepInMaze(r2.0, c, ds[2]);
    AddTileLayout(r2.0, r2.1, c, ds[2], AddPoints(score, TurnPoints));
    var r3 := AddTile(r2.0, r2.1, c, ds[2], AddPoints(score, TurnPoints));
    WalledLayout(r2.0, r3.0);
    r3
  }

  /** The three offers of a tile that is not an end keep the walls and the
      layout, and queue open tiles only. */
  lemma ExpandTileLayout(g: Grid, q: seq<(Coordinates, Direction)>, c: Coordinates, heading: Direction)
    requires Walled(g) && InMaze(g, c) && At(g, c).entity != Wall && OpenQueue(g, q)
    ensures Walled(ExpandTile(g, q, c, heading).0) && SameLayout(g, ExpandTile(g, q, c, heading).0)
    ensures OpenQueue(ExpandTile(g, q, c, heading).0, ExpandTile(g, q, c, heading).1)
  {
    var score := At(g, c).minScore;
    var ds := RelativeDirections(heading);
    StepInMaze(g, c, ds[0]);
    AddTileLayout(g, q, c, ds[0], AddPoints(score, StepPoints));
    var r1 := AddTile(g, q, c, ds[0], AddPoints(score, StepPoints));
    WalledLayout(g, r1.0);
    StepInMaze(r1.0, c, ds[1]);
    AddTileLayout(r1.0, r1.1, c, ds[1], AddPoints(score, TurnPoints));
    var r2 := AddTile(r1.0, r1.1, c, ds[1], AddPoints(score, TurnPoints));
    WalledLayout(r1.0, r2.0);
    StepInMaze(r2.0, c, ds[2]);
    AddTileLayout(r2.0, r2.1, c, ds[2], AddPoints(score, TurnPoints));
    var r3 := AddTile(r2.0, r2.1, c, ds[2], AddPoints(score, TurnPoints));
    WalledLayout(r2.0, r3.0);
  }

  /** Where a search stands: the maze, the least score among the end
      tiles taken off the queue (0 while there is none), those scores in
      order, and whether the queue ran empty. */
  datatype Search = Search(grid: Grid, least: uint, ends: seq<uint>, done: bool)

  lemma OpenQueueTail(g: Grid, q: seq<(Coordinates, Direction)>)
    requires OpenQueue(g, q) && q != []
    ensures OpenQueue(g, q[1..])
  {
    forall i | 0 <= i < |q[1..]|
      ensures InMaze(g, q[1..][i].0) && At(g, q[1..][i].0).entity != Wall
    {
      assert q[1..][i] == q[i + 1];
    }
  }

  /** One round of the loop of `calculate_least_points`: the tile at the
      head of the queue taken off; an end tile updates the least score, any
      other tile is expanded. Gives the maze, the queue, the least score and
      the end scores after the round. */
  function Round(g: Grid, q: seq<(Coordinates, Direction)>, least: uint, ends: seq<uint>)
    : (Grid, seq<(Coordinates, Direction)>, uint, seq<uint>)
    requires Walled(g) && OpenQueue(g, q) && q != []
  {
    var c := q[0].0;
    var t := At(g, c);
    OpenQueueTail(g, q);
    if t.entity == End then
      (g, q[1..], if least == 0 || least > t.minScore then t.minScore else least, ends + [t.minScore])
    else
      var next := ExpandTile(g, q[1..], c, q[0].1);
      (next.0, next.1, least, ends)
  }

  /** One round of the loop keeps the walls and a queue of open tiles. */
  lemma RoundLayout(g: Grid, q: seq<(Coordinates, Direction)>, least: uint, ends: seq<uint>)
    requires Walled(g) && OpenQueue(g, q) && q != []
    ensures Walled(Round(g, q, least, ends).0) && OpenQueue(Round(g, q, least, ends).0, Round(g, q, least, ends).1)
  {
    OpenQueueTail(g, q);
    if At(g, q[0].0).entity != End {
      ExpandTileLayout(g, q[1..], q[0].0, q[0].1);
    }
  }

  /** The loop of `calculate_least_points` from queue `q`, for at most
      `fuel` more rounds. */
  function SearchFrom(g: Grid, q: seq<(Coordinates, Direction)>, least: uint, ends: seq<uint>, fuel: nat): Search
    requires Walled(g) && OpenQueue(g, q)
    decreases fuel
  {
    if q == [] then Search(g, least, ends, true)
    else if fuel == 0 then Search(g, least, ends, false)
    else
      var n := Round(g, q, least, ends);
      RoundLayout(g, q, least, ends);
      SearchFrom(n.0, n.1, n.2, n.3, fuel - 1)
  }

  /** With fuel left and a non-empty queue, the search is one round and
      then the search from where that round leaves it. */
  lemma SearchFromRound(g: Grid, q: seq<(Coordinates, Direction)>, least: uint, ends: seq<uint>, fuel: nat)
    requires Walled(g) && OpenQueue(g, q) && q != [] && fuel > 0
    ensures Walled(Round(g, q, least, ends).0) && OpenQueue(Round(g, q, least, ends).0, Round(g, q, least, ends).1)
    ensures var n := Round(g, q, least, ends);
      SearchFrom(g, q, least, ends, fuel) == SearchFrom(n.0, n.1, n.2, n.3, fuel - 1)
  {
    RoundLayout(g, q, least, ends);
  }

  /** With the queue empty or no fuel left, the search stops where it
      stands. */
  lemma SearchFromStop(g: Grid, q: seq<(Coordinates, Direction)>, least: uint, ends: seq<uint>, fuel: nat)
    requires Walled(g) && OpenQueue(g, q) && (q == [] || fuel == 0)
    ensures SearchFrom(g, q, least, ends, fuel) == Search(g, least, ends, q == [])
  {
  }

  /** `calculate_least_points` from the start, for at most `fuel` rounds:
      the start queued facing east, and a first offer west at 2001
      points. */
  function LeastPoints(g: Grid, s: Coordinates, fuel: nat): Search
    requires Walled(g) && InMaze(g, s) && At(g, s).entity != Wall
  {
    StepInMaze(g, s, West);
    AddTileLayout(g, [(s, East)], s, West, FirstWestPoints);
    var first := AddTile(g, [(s, East)], s, West, FirstWestPoints);
    WalledLayout(g, first.0);
    SearchFrom(first.0, first.1, 0, [], fuel)
  }

  /** Some end tile has been reached with at most `score` points. */
  ghost predicate ReachedEnd(g: Grid, score: int) {
    exists c :: InMaze(g, c) && At(g, c).entity == End && At(g, c).visited && At(g, c).minScore <= score
  }

  lemma ReachedEndImproves(g: Grid, g2: Grid, score: int)
    requires Improves(g, g2) && ReachedEnd(g, score)
    ensures ReachedEnd(g2, score)
  {
    var c :| InMaze(g, c) && At(g, c).entity == End && At(g, c).visited && At(g, c).minScore <= score;
    assert InMaze(g2, c);
  }

  /** `least` is 0 while `ends` is empty, and otherwise the least of
      `ends`. */
  predicate LeastOf(least: uint, ends: seq<uint>) {
    (least == 0 <==> ends == []) && (ends != [] ==> least in ends && forall e :: e in ends ==> least <= e)
  }

  /** What the search promises of where it stands, seen from the maze
      `g` it started on: the invariant with scores up to `bound`, a maze
      that only improved on `g`, and `least` the least of the end scores
      taken off the queue, an end having been reached with it. */
  ghost predicate SearchKept(g: Grid, s: Coordinates, r: Search, bound: int) {
    Searching(r.grid, s, bound) && Improves(g, r.grid) && LeastOf(r.least, r.ends) &&
    (r.least != 0 ==> ReachedEnd(r.grid, r.least))
  }

  /** An offer from a queued open tile above its score keeps the search's
      invariant and the queue's. */
  lemma AddTileKeeps(g: Grid, s: Coordinates, bound: int, bound': int, q: seq<(Coordinates, Direction)>,
                     base: Coordinates, d: Direction, points: uint)
    requires Searching(g, s, bound) && bound <= bound' && points <= bound'
    requires Queued(g, s, base) && At(g, base).entity == Empty && At(g, base).minScore < points
    requires AllQueued(g, s, q)
    ensures InMaze(g, Plus(base, d))
    ensures Searching(AddTile(g, q, base, d, points).0, s, bound')
    ensures Improves(g, AddTile(g, q, base, d, points).0)
    ensures AllQueued(AddTile(g, q, base, d, points).0, s, AddTile(g, q, base, d, points).1)
  {
    RelaxKeepsSearching(g, s, bound, bound', base, d, points);
    var r := AddTile(g, q, base, d, points);
    AllQueuedImproves(g, r.0, s, q);
  }

  /** Expanding a queued open tile keeps the search's invariant, with the
      bound raised by one turn. */
  lemma ExpandTileKeeps(g: Grid, s: Coordinates, bound: int, q: seq<(Coordinates, Direction)>,
                        c: Coordinates, heading: Direction)
    requires Searching(g, s, bound) && bound + TurnPoints < UIntLimit
    requires Queued(g, s, c) && At(g, c).entity == Empty && AllQueued(g, s, q)
    ensures Walled(g) && OpenQueue(g, q)
    ensures Searching(ExpandTile(g, q, c, heading).0, s, bound + TurnPoints)
    ensures Improves(g, ExpandTile(g, q, c, heading).0)
    ensures AllQueued(ExpandTile(g, q, c, heading).0, s, ExpandTile(g, q, c, heading).1)
  {
    var score := At(g, c).minScore;
    var ds := RelativeDirections(heading);
    AddTileKeeps(g, s, bound, bound + TurnPoints, q, c, ds[0], AddPoints(score, StepPoints));
    var r1 := AddTile(g, q, c, ds[0], AddPoints(score, StepPoints));
    AddTileKeeps(r1.0, s, bound + TurnPoints, bound + TurnPoints, r1.1, c, ds[1], AddPoints(score, TurnPoints));
    var r2 := AddTile(r1.0, r1.1, c, ds[1], AddPoints(score, TurnPoints));
    AddTileKeeps(r2.0, s, bound + TurnPoints, bound + TurnPoints, r2.1, c, ds[2], AddPoints(score, TurnPoints));
    var r3 := AddTile(r2.0, r2.1, c, ds[2], AddPoints(score, TurnPoints));
    ImprovesTrans(g, r1.0, r2.0);
    ImprovesTrans(g, r2.0, r3.0);
  }

  lemma AllQueuedTail(g: Grid, s: Coordinates, q: seq<(Coordinates, Direction)>)
    requires AllQueued(g, s, q) && q != []
    ensures AllQueued(g, s, q[1..])
  {
    forall i | 0 <= i < |q[1..]|
      ensures Queued(g, s, q[1..][i].0)
    {
      assert q[1..][i] == q[i + 1];
    }
  }

  /** An end scored `m` taken off the queue: the least becomes `m` when
      there was none or it was more. */
  lemma LeastOfSnoc(least: uint, ends: seq<uint>, m: uint)
    requires LeastOf(least, ends) && m > 0
    ensures LeastOf(if least == 0 || least > m then m else least, ends + [m])
  {
    var least' := if least == 0 || least > m then m else least;
    forall e | e in ends + [m]
      ensures least' <= e
    {
      if e in ends {
        assert least <= e;
      }
    }
  }

  /** A round keeps the search's invariant with the bound raised by one
      turn, only improves the maze, and keeps `least` the least of the end
      scores taken off the queue, each reached. */
  lemma RoundKeeps(g: Grid, s: Coordinates, q: seq<(Coordinates, Direction)>, least: uint, ends: seq<uint>,
                   rounds: nat)
    requires Searching(g, s, Bound(rounds)) && AllQueued(g, s, q) && q != [] && rounds < MaxRounds
    requires LeastOf(least, ends) && (least != 0 ==> ReachedEnd(g, least))
    ensures Walled(g) && OpenQueue(g, q)
    ensures Searching(Round(g, q, least, ends).0, s, Bound(rounds + 1))
    ensures Improves(g, Round(g, q, least, ends).0)
    ensures AllQueued(Round(g, q, least, ends).0, s, Round(g, q, least, ends).1)
    ensures LeastOf(Round(g, q, least, ends).2, Round(g, q, least, ends).3)
    ensures Round(g, q, least, ends).2 != 0 ==> ReachedEnd(Round(g, q, least, ends).0, Round(g, q, least, ends).2)
  {
    var c := q[0].0;
    assert Queued(g, s, c);
    AllQueuedTail(g, s, q);
    var t := At(g, c);
    if t.entity == End {
      assert c != s;
      assert ReachedEnd(g, if least == 0 || least > t.minScore then t.minScore else least);
      LeastOfSnoc(least, ends, t.minScore);
    } else {
      ExpandTileKeeps(g, s, Bound(rounds), q[1..], c, q[0].1);
      if least != 0 {
        ReachedEndImproves(g, ExpandTile(g, q[1..], c, q[0].1).0, least);
      }
    }
  }

  /** The search from the maze as read, for at most `MaxRounds` rounds,
      keeps the maze traced, with scores below 2^32, and returns the least
      score among the end tiles it took off the queue (0 if none), an end
      tile having been reached with that score. */
  lemma LeastPointsSearches(g: Grid, s: Coordinates, fuel: nat)
    requires Searching(g, s, 0) && fuel <= MaxRounds
    ensures Walled(g) && InMaze(g, s) && At(g, s).entity != Wall
    ensures SearchKept(g, s, LeastPoints(g, s, fuel), Bound(fuel))
  {
    assert Queued(g, s, s);
    AddTileKeeps(g, s, 0, Bound(0), [(s, East)], s, West, FirstWestPoints);
    var first := AddTile(g, [(s, East)], s, West, FirstWestPoints);
    var g', q, least, ends := first.0, first.1, 0, [];
    var rounds := 0;
    while q != [] && rounds < fuel
      invariant rounds <= fuel && Searching(g', s, Bound(rounds)) && Improves(g, g') && AllQueued(g', s, q)
      invariant LeastOf(least, ends) && (least != 0 ==> ReachedEnd(g', least))
      invariant Walled(g') && OpenQueue(g', q)
      invariant SearchFrom(g', q, least, ends, fuel - rounds) == LeastPoints(g, s, fuel)
      decreases fuel - rounds
    {
      RoundKeeps(g', s, q, least, ends, rounds);
      RoundLayout(g', q, least, ends);
      var n := Round(g', q, least, ends);
      ImprovesTrans(g, g', n.0);
      g', q, least, ends := n.0, n.1, n.2, n.3;
      rounds := rounds + 1;
    }
    BoundGrows(rounds, fuel);
  }

  // ---------------------------------------------------------------------
  // The search on the maze array

  /** The array-updating form of `add_tile_to_queue`. */
  method RelaxTile(maze: array2<Tile>, ghost g: Grid, base: Coordinates, d: Direction, points: uint)
    returns (queued: bool)
    modifies maze
    requires Holds(maze, g) && InMaze(g, Plus(base, d))
    ensures Holds(maze, RelaxAt(g, base, d, points).0) && queued == RelaxAt(g, base, d, points).1
  {
    var c := Plus(base, d);
    var t := maze[c.y, c.x];
    if t.entity != Wall && (!t.visited || t.minScore >= points) {
      if points < t.minScore {
        t := t.(from := NoFlags);
      }
      t := t.(from := t.from[Index(d) := true], visited := true, minScore := points);
      maze[c.y, c.x] := t;
      queued := true;
    } else {
      queued := false;
    }
  }

  /** One relaxation together with the queue it feeds. */
  method Offer(maze: array2<Tile>, ghost g: Grid, base: Coordinates, d: Direction, points: uint,
               queue: seq<(Coordinates, Direction)>)
    returns (ghost g': Grid, queue': seq<(Coordinates, Direction)>)
    modifies maze
    requires Holds(maze, g) && InMaze(g, Plus(base, d))
    ensures Holds(maze, g') && (g', queue') == AddTile(g, queue, base, d, points)
  {
    var queued := RelaxTile(maze, g, base, d, points);
    g' := RelaxAt(g, base, d, points).0;
    queue' := if queued then queue + [(Plus(base, d), d)] else queue;
  }

  /** The loop body of `calculate_least_points` for a tile that is not an
      end, on the array. */
  method Expand(maze: array2<Tile>, ghost g: Grid, c: Coordinates, heading: Direction,
                queue: seq<(Coordinates, Direction)>)
    returns (ghost g': Grid, queue': seq<(Coordinates, Direction)>)
    modifies maze
    requires Holds(maze, g) && Walled(g) && InMaze(g, c) && At(g, c).entity != Wall && OpenQueue(g, queue)
    ensures Holds(maze, g') && (g', queue') == ExpandTile(g, queue, c, heading)
  {
    var score := maze[c.y, c.x].minScore;
    var ds := RelativeDirections(heading);
    ghost var g1, g2;
    var q1, q2;
    StepInMaze(g, c, ds[0]);
    AddTileLayout(g, queue, c, ds[0], AddPoints(score, StepPoints));
    g1, q1 := Offer(maze, g, c, ds[0], AddPoints(score, StepPoints), queue);
    WalledLayout(g, g1);
    StepInMaze(g1, c, ds[1]);
    AddTileLayout(g1, q1, c, ds[1], AddPoints(score, TurnPoints));
    g2, q2 := Offer(maze, g1, c, ds[1], AddPoints(score, TurnPoints), q1);
    WalledLayout(g1, g2);
    StepInMaze(g2, c, ds[2]);
    g', queue' := Offer(maze, g2, c, ds[2], AddPoints(score, TurnPoints), q2);
  }

  /** Where the loop of `calculate_least_points` stands: the array holds
      the maze `g`, walled, with open tiles queued, and the search still to
      run, for at most `fuel` rounds, ends at `search`. */
  ghost predicate Pending(maze: array2<Tile>, g: Grid, q: seq<(Coordinates, Direction)>, least: uint,
                          ends: seq<uint>, fuel: nat, search: Search)
    reads maze
  {
    Holds(maze, g) && Walled(g) && OpenQueue(g, q) && SearchFrom(g, q, least, ends, fuel) == search
  }

  /** The start of `calculate_least_points`: the start tile queued
      facing east and offered west at 2001 points, after which the search
      still to run is `LeastPoints`. */
  method StartSearch(maze: array2<Tile>, ghost g: Grid, start: Coordinates, ghost fuel: nat)
    returns (ghost g': Grid, queue: seq<(Coordinates, Direction)>)
    modifies maze
    requires Holds(maze, g) && Walled(g) && InMaze(g, start) && At(g, start).entity != Wall
    ensures Pending(maze, g', queue, 0, [], fuel, LeastPoints(g, start, fuel))
  {
    StepInMaze(g, start, West);
    AddTileLayout(g, [(start, East)], start, West, FirstWestPoints);
    g', queue := Offer(maze, g, start, West, FirstWestPoints, [(start, East)]);
    WalledLayout(g, g');
  }

  /** One pass of the loop of `calculate_least_points`, as `Round`
      states it: the search still to run is one round shorter and ends
      where it did. */
  method TakeRound(maze: array2<Tile>, ghost g: Grid, queue: seq<(Coordinates, Direction)>,
                   least: uint, ghost ends: seq<uint>, ghost fuel: nat, ghost search: Search)
    returns (ghost g': Grid, queue': seq<(Coordinates, Direction)>, least': uint, ghost ends': seq<uint>)
    modifies maze
    requires Pending(maze, g, queue, least, ends, fuel, search) && queue != [] && fuel > 0
    ensures (g', queue', least', ends') == Round(g, queue, least, ends)
    ensures Pending(maze, g', queue', least', ends', fuel - 1, search)
  {
    SearchFromRound(g, queue, least, ends, fuel);
    RoundLayout(g, queue, least, ends);
    var (c, heading) := queue[0];
    var rest := queue[1..];
    OpenQueueTail(g, queue);
    var t := maze[c.y, c.x];
    least', ends' := least, ends;
    if t.entity == End {
      if least == 0 || least > t.minScore {
        least' := t.minScore;
      }
      ends' := ends + [t.minScore];
      g', queue' := g, rest;
    } else {
      g', queue' := Expand(maze, g, c, heading, rest);
    }
  }

  /** `calculate_least_points`, run for at most `fuel` rounds: exactly the
      search `LeastPoints` describes, on the array. */
  method CalculateLeastPoints(maze: array2<Tile>, ghost g: Grid, start: Coordinates, fuel: nat)
    returns (least: uint, done: bool, ghost g': Grid)
    modifies maze
    requires Holds(maze, g) && Walled(g) && InMaze(g, start) && At(g, start).entity != Wall
    ensures Holds(maze, g') && g' == LeastPoints(g, start, fuel).grid
    ensures least == LeastPoints(g, start, fuel).least && done == LeastPoints(g, start, fuel).done
  {
    ghost var search := LeastPoints(g, start, fuel);
    var queue;
    g', queue := StartSearch(maze, g, start, fuel);
    least := 0;
    ghost var ends: seq<uint> := [];
    var rounds := 0;
    while queue != [] && rounds < fuel
      invariant rounds <= fuel && Pending(maze, g', queue, least, ends, fuel - rounds, search)
      decreases fuel - rounds
    {
      g', queue, least, ends := TakeRound(maze, g', queue, least, ends, fuel - rounds, search);
      rounds := rounds + 1;
    }
    SearchFromStop(g', queue, least, ends, fuel - rounds);
    done := queue == [];
  }

  // ---------------------------------------------------------------------
  // Counting the tiles on the best paths

  /** A tile the walk back may reach: the start, or a settled tile. */
  ghost predicate Walkable(g: Grid, s: Coordinates, c: Coordinates) {
    InMaze(g, c) && (c == s || Settled(g, s, c))
  }

  /** Each flag of a walkable tile other than the start leads to a
      walkable tile scored lower. */
  lemma FlagWalkable(g: Grid, s: Coordinates, c: Coordinates, i: nat)
    requires Traced(g, s) && Walkable(g, s, c) && c != s && i < 4 && At(g, c).from[i]
    ensures Feeds(g, s, Minus(c, FromIndex(i)), At(g, c).minScore)
    ensures Walkable(g, s, Minus(c, FromIndex(i)))
  {
    assert At(g, c).visited;
  }

  /** The tiles the walk back from `c` counts: `c` itself, and unless `c`
      is the start, the walks back from each tile its flags point to. */
  ghost function PathTiles(g: Grid, s: Coordinates, c: Coordinates): nat
    requires Traced(g, s) && Walkable(g, s, c)
    decreases At(g, c).minScore, 1, 0
  {
    1 + if c == s then 0 else BranchTiles(g, s, c, 0)
  }

  /** The walks back through the flags of `c` from the `i`-th on. */
  ghost function BranchTiles(g: Grid, s: Coordinates, c: Coordinates, i: nat): nat
    requires Traced(g, s) && Walkable(g, s, c) && c != s && i <= 4
    decreases At(g, c).minScore, 0, 4 - i
  {
    if i == 4 then 0
    else
      (if At(g, c).from[i] then FlagWalkable(g, s, c, i); PathTiles(g, s, Minus(c, FromIndex(i))) else 0) +
      BranchTiles(g, s, c, i + 1)
  }

  ghost function QueueTiles(g: Grid, s: Coordinates, q: seq<Coordinates>): nat
    requires Traced(g, s) && forall i :: 0 <= i < |q| ==> Walkable(g, s, q[i])
  {
    if q == [] then 0 else PathTiles(g, s, q[0]) + QueueTiles(g, s, q[1..])
  }

  lemma {:induction false} QueueTilesSnoc(g: Grid, s: Coordinates, q: seq<Coordinates>, c: Coordinates)
    requires Traced(g, s) && (forall i :: 0 <= i < |q| ==> Walkable(g, s, q[i])) && Walkable(g, s, c)
    ensures QueueTiles(g, s, q + [c]) == QueueTiles(g, s, q) + PathTiles(g, s, c)
  {
    if q != [] {
      assert (q + [c])[1..] == q[1..] + [c];
      QueueTilesSnoc(g, s, q[1..], c);
    }
  }

  /** The inner loop of `calculate_tile_num_on_path`: the tile one step
      back against each flag of `c`, in the order of the directions. */
  method PushPredecessors(maze: array2<Tile>, ghost g: Grid, ghost start: Coordinates, c: Coordinates,
                          queue: seq<Coordinates>) returns (queue': seq<Coordinates>)
    requires Holds(maze, g) && Traced(g, start) && Walkable(g, start, c) && c != start
    requires forall k :: 0 <= k < |queue| ==> Walkable(g, start, queue[k])
    ensures forall k :: 0 <= k < |queue'| ==> Walkable(g, start, queue'[k])
    ensures QueueTiles(g, start, queue') == QueueTiles(g, start, queue) + BranchTiles(g, start, c, 0)
  {
    var flags := maze[c.y, c.x].from;
    queue' := queue;
    var i := 0;
    while i < 4
      invariant 0 <= i <= 4 && forall k :: 0 <= k < |queue'| ==> Walkable(g, start, queue'[k])
      invariant QueueTiles(g, start, queue') + BranchTiles(g, start, c, i) == QueueTiles(g, start, queue) + BranchTiles(g, start, c, 0)
    {
      if flags[i] {
        FlagWalkable(g, start, c, i);
        var p := Minus(c, FromIndex(i));
        QueueTilesSnoc(g, start, queue', p);
        queue' := queue' + [p];
      }
      i := i + 1;
    }
  }

  /** `calculate_tile_num_on_path`: every tile taken off the queue is
      counted, repeats included, so the count is the size of the walk back
      from the end (kept as an `unsigned int`). */
  method CalculateTileNumOnPath(maze: array2<Tile>, ghost g: Grid, end: Coordinates, start: Coordinates)
    returns (num: uint)
    requires Holds(maze, g) && Traced(g, start) && Walkable(g, start, end)
    ensures num == PathTiles(g, start, end) % UIntLimit
  {
    num := 0;
    ghost var count := 0;
    var queue := [end];
    while queue != []
      invariant forall i :: 0 <= i < |queue| ==> Walkable(g, start, queue[i])
      invariant count + QueueTiles(g, start, queue) == PathTiles(g, start, end)
      invariant num == count % UIntLimit
      decreases QueueTiles(g, start, queue)
    {
      num := (num + 1) % UIntLimit;
      count := count + 1;
      var c := queue[0];
      queue := queue[1..];
      if c == start {
        continue;
      }
      queue := PushPredecessors(maze, g, start, c, queue);
    }
  }

  /** The first direction flagged. */
  function FirstFlag(f: Flags): (i: nat)
    requires true in f
    ensures i < 4 && f[i] && forall k :: 0 <= k < i ==> !f[k]
  {
    if f[0] then 0 else if f[1] then 1 else if f[2] then 2 else 3
  }

  /** The walk back goes from `a` to `b` through the first flag of `a`,
      which is not the start, to a visited tile scored lower. */
  ghost predicate BackStep(g: Grid, s: Coordinates, a: Coordinates, b: Coordinates) {
    InMaze(g, a) && a != s && At(g, a).visited && true in At(g, a).from &&
    b == Minus(a, FromIndex(FirstFlag(At(g, a).from))) &&
    InMaze(g, b) && At(g, b).visited && At(g, b).minScore < At(g, a).minScore
  }

  /** A walk back from a visited tile through first flags: each step goes
      to a tile flagged as a predecessor and scored lower, and the walk ends
      at the start. */
  ghost function BackPath(g: Grid, s: Coordinates, c: Coordinates): (p: seq<Coordinates>)
    requires Traced(g, s) && Walkable(g, s, c) && At(g, c).visited
    ensures |p| >= 1 && p[0] == c && p[|p| - 1] == s
    ensures forall k :: 0 <= k < |p| - 1 ==> BackStep(g, s, p[k], p[k + 1])
    decreases At(g, c).minScore
  {
    if c == s then [c]
    else
      var q := Minus(c, FromIndex(FirstFlag(At(g, c).from)));
      FlagWalkable(g, s, c, FirstFlag(At(g, c).from));
      assert BackStep(g, s, c, q);
      [c] + BackPath(g, s, q)
  }

  /** One branch counts no more than all branches from it on. */
  lemma {:induction false} BranchAtLeast(g: Grid, s: Coordinates, c: Coordinates, i: nat, j: nat)
    requires Traced(g, s) && Walkable(g, s, c) && c != s && i <= j < 4 && At(g, c).from[j]
    requires Walkable(g, s, Minus(c, FromIndex(j)))
    requires At(g, Minus(c, FromIndex(j))).minScore < At(g, c).minScore
    ensures BranchTiles(g, s, c, i) >= PathTiles(g, s, Minus(c, FromIndex(j)))
    decreases j - i
  {
    if i < j {
      BranchAtLeast(g, s, c, i + 1, j);
    }
  }

  /** The count of the walk back covers at least one whole path from the
      tile to the start. */
  lemma {:induction false} PathTilesCoverBackPath(g: Grid, s: Coordinates, c: Coordinates)
    requires Traced(g, s) && Walkable(g, s, c) && At(g, c).visited
    ensures PathTiles(g, s, c) >= |BackPath(g, s, c)|
    decreases At(g, c).minScore
  {
    if c != s {
      var i := FirstFlag(At(g, c).from);
      var p := Minus(c, FromIndex(i));
      FlagWalkable(g, s, c, i);
      PathTilesCoverBackPath(g, s, p);
      BranchAtLeast(g, s, c, 0, i);
    }
  }

  /** The start counts once and is not walked past. */
  lemma PathTilesStart(g: Grid, s: Coordinates)
    requires Traced(g, s)
    ensures PathTiles(g, s, s) == 1
  {
  }

  // ---------------------------------------------------------------------
  // The whole program

  /** What the input demands of the program: walls all round and at least
      one start (the last 'S' is the one searched from). */
  predicate Enclosed(lines: seq<string>)
    requires Shaped(lines)
  {
    (forall y, x :: 0 <= y < MazeHeight && 0 <= x < MazeWidth && !Interior(Coordinates(x, y)) ==> lines[y][x] == '#') &&
    LastAt(lines, StartChar, MazeHeight).Some?
  }

  /** The maze as read is ready for the search, and the end is not an 'S'
      tile: an 'E' tile, or the wall in the corner when there is no 'E'. */
  lemma InitialSearching(lines: seq<string>)
    requires Shaped(lines) && Enclosed(lines) && DecodeMaze(lines).Ok?
    ensures Searching(DecodeMaze(lines).value, Located(lines, StartChar, |lines|), 0)
    ensures InMaze(DecodeMaze(lines).value, Located(lines, EndChar, |lines|))
    ensures At(DecodeMaze(lines).value, Located(lines, EndChar, |lines|)).entity != Empty
  {
    DecodedShape(lines);
    var g := DecodeMaze(lines).value;
    var s := Located(lines, StartChar, |lines|);
    forall c | InMaze(g, c) && !Interior(c)
      ensures At(g, c).entity == Wall
    {
      assert lines[c.y][c.x] == '#';
    }
    forall c | InMaze(g, c) && c != s
      ensures Settled(g, s, c) || Origin(At(g, c))
    {
      if lines[c.y][c.x] != StartChar {
        assert At(g, c).from == NoFlags;
      }
    }
    var e := Located(lines, EndChar, |lines|);
    if e == Coordinates(0, 0) {
      assert !Interior(e);
    }
  }

  /** The end the walk back starts from is walkable once the search has
      run. */
  lemma EndWalkable(g: Grid, g2: Grid, s: Coordinates, e: Coordinates)
    requires Improves(g, g2) && Traced(g2, s) && InMaze(g, e) && At(g, e).entity != Empty
    requires At(g, s).entity == Empty
    ensures Walkable(g2, s, e)
  {
  }

  /** The program: the least score and the count of tiles walked back from
      the end, or the error for an unknown character; the search runs for
      at most `fuel` rounds. */
  method Solve(lines: seq<string>, fuel: nat) returns (r: Result<(uint, uint)>, ghost final: Grid)
    requires Shaped(lines) && Enclosed(lines) && fuel <= MaxRounds
    ensures r.Ok? <==> DecodeMaze(lines).Ok?
    ensures r.Ok? ==> Searching(DecodeMaze(lines).value, Located(lines, StartChar, |lines|), 0)
    ensures r.Ok? ==> final == LeastPoints(DecodeMaze(lines).value, Located(lines, StartChar, |lines|), fuel).grid
    ensures r.Ok? ==> r.value.0 == LeastPoints(DecodeMaze(lines).value, Located(lines, StartChar, |lines|), fuel).least
    ensures r.Ok? ==> Traced(final, Located(lines, StartChar, |lines|))
    ensures r.Ok? ==> Walkable(final, Located(lines, StartChar, |lines|), Located(lines, EndChar, |lines|))
    ensures r.Ok? ==> r.value.1 == PathTiles(final, Located(lines, StartChar, |lines|), Located(lines, EndChar, |lines|)) % UIntLimit
  {
    var read := ReadMaze(lines);
    if read.Err? {
      return Err(read.message), [];
    }
    var (maze, start, end) := read.value;
    InitialSearching(lines);
    ghost var g := DecodeMaze(lines).value;
    LeastPointsSearches(g, start, fuel);
    var least, done;
    least, done, final := CalculateLeastPoints(maze, g, start, fuel);
    EndWalkable(g, final, start, end);
    var tiles := CalculateTileNumOnPath(maze, final, end, start);
    r := Ok((least, tiles));
  }
}
