/** Day 14: restroom redoubt. Robots walk in straight lines across a 101 by 103
    room whose edges wrap around. After 100 seconds the room is cut into four
    quadrants by its middle column and middle row, the robots of each
    quadrant are counted, and the safety factor is the product of the counts. */
module RestroomRedoubt {
  import opened Outcomes
  import opened Text

  const RoomWidth: int := 101
  const RoomHeight: int := 103

  /** The middle column and row, which belong to no quadrant. */
  const MiddleColumn: int := RoomWidth / 2
  const MiddleRow: int := RoomHeight / 2

  /** How long `main` lets the robots walk. */
  const Seconds: nat := 100

  datatype Quadrant = TopLeft | TopRight | BottomLeft | BottomRight | NoQuadrant

  datatype Coordinates = Coordinates(x: int, y: int)

  predicate InRoom(c: Coordinates) {
    0 <= c.x < RoomWidth && 0 <= c.y < RoomHeight
  }

  // ---------------------------------------------------------------------------
  // Positions on the torus
  // ---------------------------------------------------------------------------

  /** The `wrap_around` helper of `operator+`: one step back into [0, limit)
      from either side. */
  function WrapAround(sum: int, limit: int): (r: int)
    ensures r == sum || r == sum - limit || r == sum + limit
    ensures 0 < limit && -limit <= sum < 2 * limit ==> 0 <= r < limit
  {
    if sum >= limit then sum - limit
    else if sum < 0 then sum + limit
    else sum
  }

  /** Within one lap of the room, wrapping agrees with the remainder. */
  lemma WrapIsRemainder(sum: int, limit: int)
    requires 0 < limit && -limit <= sum < 2 * limit
    ensures WrapAround(sum, limit) == sum % limit
  {
    if sum >= limit {
      RemainderUnique(sum, limit, 1, sum - limit);
    } else if sum < 0 {
      RemainderUnique(sum, limit, -1, sum + limit);
    } else {
      RemainderUnique(sum, limit, 0, sum);
    }
  }

  /** Euclidean remainder: any quotient that leaves a remainder in
      [0, m) gives the remainder `%` computes. */
  lemma RemainderUnique(a: int, m: int, q: int, r: int)
    requires 0 < m && 0 <= r < m && a == q * m + r
    ensures a % m == r
  {
    var q', r' := a / m, a % m;
    assert (q - q') * m == r' - r;
    if q > q' {
      MulAtLeast(q - q', m);
    } else if q < q' {
      MulAtLeast(q' - q, m);
    }
  }

  lemma {:induction false} MulAtLeast(k: int, m: int)
    requires k >= 1 && m > 0
    ensures k * m >= m
    decreases k
  {
    if k > 1 {
      MulAtLeast(k - 1, m);
      assert k * m == (k - 1) * m + m;
    }
  }

  /** `Coordinates::operator+`: add, then wrap each axis. */
  function Add(c: Coordinates, rhs: Coordinates): Coordinates
  {
    Coordinates(WrapAround(c.x + rhs.x, RoomWidth), WrapAround(c.y + rhs.y, RoomHeight))
  }

  /** A velocity slower than the room is wide and high keeps a robot in the
      room, and the step is addition modulo the room's size. */
  predicate Slow(v: Coordinates) {
    -RoomWidth < v.x < RoomWidth && -RoomHeight < v.y < RoomHeight
  }

  lemma AddInRoom(c: Coordinates, v: Coordinates)
    requires InRoom(c) && Slow(v)
    ensures InRoom(Add(c, v))
    ensures Add(c, v) == Coordinates((c.x + v.x) % RoomWidth, (c.y + v.y) % RoomHeight)
  {
    WrapIsRemainder(c.x + v.x, RoomWidth);
    WrapIsRemainder(c.y + v.y, RoomHeight);
  }

  /** `get_quadrant`: the strict comparisons with the middle column and row. */
  function QuadrantOf(c: Coordinates): (q: Quadrant)
    ensures q == NoQuadrant <==> c.x == MiddleColumn || c.y == MiddleRow
    ensures q == TopLeft <==> c.x < MiddleColumn && c.y < MiddleRow
    ensures q == TopRight <==> c.x > MiddleColumn && c.y < MiddleRow
    ensures q == BottomLeft <==> c.x < MiddleColumn && c.y > MiddleRow
    ensures q == BottomRight <==> c.x > MiddleColumn && c.y > MiddleRow
  {
    var isTop, isLeft := c.y < MiddleRow, c.x < MiddleColumn;
    var isRight, isBottom := c.x > MiddleColumn, c.y > MiddleRow;
    if isTop && isLeft then TopLeft
    else if isBottom && isLeft then BottomLeft
    else if isTop && isRight then TopRight
    else if isBottom && isRight then BottomRight
    else NoQuadrant
  }

  /** Where a robot is after `n` steps. */
  function After(p: Coordinates, v: Coordinates, n: nat): Coordinates
  {
    if n == 0 then p else Add(After(p, v, n - 1), v)
  }

  /** A slow robot that starts in the room is, after n steps, at its start
      plus n times its velocity, modulo the room. */
  lemma {:induction false} AfterIsRemainder(p: Coordinates, v: Coordinates, n: nat)
    requires InRoom(p) && Slow(v)
    ensures InRoom(After(p, v, n))
    ensures After(p, v, n) == Coordinates((p.x + n * v.x) % RoomWidth, (p.y + n * v.y) % RoomHeight)
  {
    if n > 0 {
      var q := After(p, v, n - 1);
      AfterIsRemainder(p, v, n - 1);
      AddInRoom(q, v);
      RemainderShift(p.x + (n - 1) * v.x, v.x);
      RemainderShift(p.y + (n - 1) * v.y, v.y);
      assert p.x + (n - 1) * v.x + v.x == p.x + n * v.x;
      assert p.y + (n - 1) * v.y + v.y == p.y + n * v.y;
    }
  }

  /** Adding to a remainder, along either side of the room. */
  lemma RemainderShift(a: int, b: int)
    ensures (a % RoomWidth + b) % RoomWidth == (a + b) % RoomWidth
    ensures (a % RoomHeight + b) % RoomHeight == (a + b) % RoomHeight
  {
    ShiftBy(a, b, RoomWidth);
    ShiftBy(a, b, RoomHeight);
  }

  lemma ShiftBy(a: int, b: int, m: int)
    requires 0 < m
    ensures (a % m + b) % m == (a + b) % m
  {
    var q1, q2 := a / m, (a % m + b) / m;
    assert a + b == (q1 + q2) * m + (a % m + b) % m;
    RemainderUnique(a + b, m, q1 + q2, (a % m + b) % m);
  }

  // ---------------------------------------------------------------------------
  // Reading a robot
  // ---------------------------------------------------------------------------

  /** The characters of `[\-0-9]`. */
  predicate InClass(c: char) {
    c == '-' || IsDigit(c)
  }

  /** Length of the run of class characters starting at i. */
  function ClassRun(s: string, i: nat): (n: nat)
    requires i <= |s|
    ensures i + n <= |s|
    decreases |s| - i
  {
    if i == |s| || !InClass(s[i]) then 0 else 1 + ClassRun(s, i + 1)
  }

  /** The run is made of class characters and ends at the first other
      character. */
  lemma {:induction false} ClassRunMaximal(s: string, i: nat)
    requires i <= |s|
    ensures forall k :: i <= k < i + ClassRun(s, i) ==> InClass(s[k])
    ensures i + ClassRun(s, i) < |s| ==> !InClass(s[i + ClassRun(s, i)])
    decreases |s| - i
  {
    if i < |s| && InClass(s[i]) {
      ClassRunMaximal(s, i + 1);
    }
  }

  /** The end of the match of `[\-0-9]+,[\-0-9]+` that starts at i, if one
      does: the first run cannot contain the comma, so it is the whole run at
      i, and the greedy second run is the whole run after the comma. */
  function MatchEnd(s: string, i: nat): (r: Option<nat>)
    requires i <= |s|
    ensures r.Some? ==> i < r.value <= |s|
  {
    var first := ClassRun(s, i);
    if first == 0 || i + first == |s| || s[i + first] != ',' then None
    else
      var second := ClassRun(s, i + first + 1);
      if second == 0 then None else Some(i + first + 1 + second)
  }

  /** The next match a `std::regex_iterator` finds from `from` on, as the
      pair of its start and end. */
  function FindMatch(s: string, from: nat): (r: Option<(nat, nat)>)
    requires from <= |s|
    ensures r.Some? ==> from <= r.value.0 < r.value.1 <= |s|
    decreases |s| - from
  {
    var m := MatchEnd(s, from);
    if m.Some? then Some((from, m.value))
    else if from == |s| then None
    else FindMatch(s, from + 1)
  }

  /** The match found is the leftmost one. */
  lemma {:induction false} FindMatchLeftmost(s: string, from: nat)
    requires from <= |s|
    ensures var r := FindMatch(s, from);
      (r.Some? ==> MatchEnd(s, r.value.0) == Some(r.value.1) &&
                   forall j :: from <= j < r.value.0 ==> MatchEnd(s, j).None?) &&
      (r.None? ==> forall j :: from <= j <= |s| ==> MatchEnd(s, j).None?)
    decreases |s| - from
  {
    if MatchEnd(s, from).None? && from < |s| {
      FindMatchLeftmost(s, from + 1);
    }
  }

  /** The line holds two matches, the position and the velocity. The source
      dereferences the iterator without checking, so a line without them is
      outside its behaviour. */
  predicate TwoMatches(line: string) {
    var first := FindMatch(line, 0);
    first.Some? && FindMatch(line, first.value.1).Some?
  }

  /** `extract_coordinates`: split at the first comma and read both halves
      with `std::stoi`. Without a comma `find` gives `npos`, the first half is
      the whole text and so is the second (`npos + 1` wraps to 0). */
  function ExtractCoordinates(s: string): (r: Result<Coordinates>)
  {
    var pos := IndexOf(s, ',');
    var xParam := s[..pos];
    var yParam := if pos == |s| then s else s[pos + 1..];
    var x :- ParseInt(xParam);
    var y :- ParseInt(yParam);
    Ok(Coordinates(x, y))
  }

  /** A written pair reads back. */
  lemma ExtractWritten(c: Coordinates)
    ensures ExtractCoordinates(IntToString(c.x) + "," + IntToString(c.y)) == Ok(c)
  {
    var xs, ys := IntToString(c.x), IntToString(c.y);
    var s := xs + [','] + ys;
    assert xs + "," + ys == s;
    assert ',' !in xs by {
      IntToStringShape(c.x);
    }
    assert IndexOf(s, ',') == |xs| by {
      IndexOfAfter(xs, ',', ys);
    }
    assert s[..|xs|] == xs + "" && s[|xs| + 1..] == ys + "";
    assert ParseInt(xs + "") == Ok(c.x) by {
      ParseIntPrefix(c.x, "");
    }
    assert ParseInt(ys + "") == Ok(c.y) by {
      ParseIntPrefix(c.y, "");
    }
  }

  /** The position and velocity `from_string` reads from a line. */
  function ParseRobot(line: string): (r: Result<(Coordinates, Coordinates)>)
    requires TwoMatches(line)
  {
    var (i, e) := FindMatch(line, 0).value;
    var (j, f) := FindMatch(line, e).value;
    var position :- ExtractCoordinates(line[i..e]);
    var velocity :- ExtractCoordinates(line[j..f]);
    Ok((position, velocity))
  }

  /** The input's line format reads back as written. */
  lemma ParseWrittenRobot(p: Coordinates, v: Coordinates)
    ensures TwoMatches(RobotLine(p, v))
    ensures ParseRobot(RobotLine(p, v)) == Ok((p, v))
  {
    NumeralOf(p.x);
    NumeralOf(p.y);
    NumeralOf(v.x);
    NumeralOf(v.y);
    ExtractWritten(p);
    ExtractWritten(v);
    ParseLine(RobotLine(p, v), IntToString(p.x), IntToString(p.y), IntToString(v.x), IntToString(v.y), p, v);
  }

  /** A rendered integer is a numeral. */
  lemma NumeralOf(x: int)
    ensures Numeral(IntToString(x))
  {
    IntToStringShape(x);
  }

  /** A line in the input's format whose pairs read back reads back. */
  lemma ParseLine(line: string, xs: string, ys: string, us: string, ws: string, p: Coordinates, v: Coordinates)
    requires Numeral(xs) && Numeral(ys) && Numeral(us) && Numeral(ws)
    requires line == "p=" + (xs + "," + ys) + " v=" + (us + "," + ws)
    requires ExtractCoordinates(xs + "," + ys) == Ok(p) && ExtractCoordinates(us + "," + ws) == Ok(v)
    ensures TwoMatches(line) && ParseRobot(line) == Ok((p, v))
  {
    LineMatches(line, xs, ys, us, ws);
  }

  /** An input line, `p=x,y v=dx,dy`. */
  function RobotLine(p: Coordinates, v: Coordinates): string
  {
    "p=" + (IntToString(p.x) + "," + IntToString(p.y)) + " v=" + (IntToString(v.x) + "," + IntToString(v.y))
  }

  /** A non-empty text of class characters, as a rendered integer is. */
  predicate Numeral(t: string) {
    |t| >= 1 && forall k :: 0 <= k < |t| ==> InClass(t[k])
  }

  /** The two matches of a line in the input's format are its two pairs. */
  lemma LineMatches(line: string, xs: string, ys: string, us: string, ws: string)
    requires Numeral(xs) && Numeral(ys) && Numeral(us) && Numeral(ws)
    requires line == "p=" + (xs + "," + ys) + " v=" + (us + "," + ws)
    ensures var e := 2 + |xs + "," + ys|;
      FindMatch(line, 0) == Some((2, e)) && FindMatch(line, e) == Some((e + 3, |line|)) &&
      line[2..e] == xs + "," + ys && line[e + 3..|line|] == us + "," + ws
  {
    var pos, vel := xs + "," + ys, us + "," + ws;
    var e := 2 + |pos|;
    assert e == |xs| + |ys| + 3 && |line| == e + |us| + |ws| + 4 &&
           line[0] == 'p' && line[1] == '=' && line[2..e] == pos &&
           line[e] == ' ' && line[e + 1] == 'v' && line[e + 2] == '=' &&
           line[e + 3..|line|] == vel by {
      LineSlices(line, pos, vel);
    }
    MatchesIn(line, xs, ys, us, ws, e);
  }

  /** Where the parts of a line in the input's format lie. */
  lemma LineSlices(line: string, pos: string, vel: string)
    requires line == "p=" + pos + " v=" + vel
    ensures |line| == |pos| + |vel| + 5
    ensures line[0] == 'p' && line[1] == '=' && line[2..|pos| + 2] == pos
    ensures line[|pos| + 2] == ' ' && line[|pos| + 3] == 'v' && line[|pos| + 4] == '='
    ensures line[|pos| + 5..] == vel && line[|pos| + 5..|line|] == vel
  {
  }

  lemma MatchesIn(line: string, xs: string, ys: string, us: string, ws: string, e: nat)
    requires Numeral(xs) && Numeral(ys) && Numeral(us) && Numeral(ws)
    requires e == |xs| + |ys| + 3 && |line| == e + |us| + |ws| + 4
    requires line[0] == 'p' && line[1] == '=' && line[2..e] == xs + "," + ys
    requires line[e] == ' ' && line[e + 1] == 'v' && line[e + 2] == '='
    requires line[e + 3..|line|] == us + "," + ws
    ensures FindMatch(line, 0) == Some((2, e)) && FindMatch(line, e) == Some((e + 3, |line|))
  {
    assert MatchEnd(line, 2) == Some(e) by {
      PairAt(line, 2, xs, ys);
    }
    NoMatchIn(line, 0, 2);
    assert MatchEnd(line, e + 3) == Some(|line|) by {
      PairAt(line, e + 3, us, ws);
    }
    NoMatchIn(line, e, e + 3);
  }

  /** A pair `xs,ys` at i, not followed by a class character, is the match
      that starts at i. */
  lemma PairAt(s: string, i: nat, xs: string, ys: string)
    requires Numeral(xs) && Numeral(ys)
    requires i + |xs| + 1 + |ys| <= |s| && s[i..i + |xs| + 1 + |ys|] == xs + "," + ys
    requires i + |xs| + 1 + |ys| == |s| || !InClass(s[i + |xs| + 1 + |ys|])
    ensures MatchEnd(s, i) == Some(i + |xs| + 1 + |ys|)
  {
    var t := xs + "," + ys;
    var j := i + |xs| + 1;
    assert s[i..i + |xs|] == t[..|xs|] == xs;
    assert s[i + |xs|] == t[|xs|] == ',';
    assert s[j..j + |ys|] == t[|xs| + 1..] == ys;
    RunOfRendered(s, i, xs);
    RunOfRendered(s, j, ys);
  }

  /** A numeral placed at i, followed by a non-class character or the end, is
      exactly the run at i. */
  lemma {:induction false} RunOfRendered(s: string, i: nat, t: string)
    requires i + |t| <= |s| && s[i..i + |t|] == t && Numeral(t)
    requires i + |t| == |s| || !InClass(s[i + |t|])
    ensures ClassRun(s, i) == |t|
    decreases |t|
  {
    assert s[i] == t[0];
    if |t| > 1 {
      assert s[i + 1..i + |t|] == t[1..];
      RunOfRendered(s, i + 1, t[1..]);
    }
  }

  lemma NoMatchIn(s: string, from: nat, to: nat)
    requires from <= to <= |s|
    requires forall j :: from <= j < to ==> MatchEnd(s, j).None?
    requires MatchEnd(s, to).Some?
    ensures FindMatch(s, from) == Some((to, MatchEnd(s, to).value))
    decreases (to as int) - (from as int)
  {
    if from < to {
      NoMatchIn(s, from + 1, to);
    }
  }

  // ---------------------------------------------------------------------------
  // Robots
  // ---------------------------------------------------------------------------

  /** A robot: where it stands and how far it walks each second. */
  class Robot {
    var position: Coordinates
    var velocity: Coordinates

    constructor (position: Coordinates, velocity: Coordinates)
      ensures this.position == position && this.velocity == velocity
    {
      this.position := position;
      this.velocity := velocity;
    }

    /** `Robot::from_string`: the first match is the position, the second the
        velocity; `std::stoi` failing on either ends the reading. */
    static method FromString(line: string) returns (r: Result<Robot>)
      requires TwoMatches(line)
      ensures r.Ok? <==> ParseRobot(line).Ok?
      ensures r.Ok? ==> fresh(r.value) && Ok((r.value.position, r.value.velocity)) == ParseRobot(line)
    {
      var parsed := ParseRobot(line);
      if parsed.Err? {
        return Err(parsed.message);
      }
      var robot := new Robot(parsed.value.0, parsed.value.1);
      return Ok(robot);
    }

    /** `move`: one second's walk, wrapping at the walls; the velocity
        stays. */
    method Move()
      modifies this
      ensures position == Add(old(position), old(velocity))
      ensures velocity == old(velocity)
    {
      position := Add(position, velocity);
    }

    /** `get_quadrant`: the quadrant of the robot's position. */
    function GetQuadrant(): (q: Quadrant)
      reads this
      ensures q == QuadrantOf(position)
      ensures q == NoQuadrant <==> position.x == MiddleColumn || position.y == MiddleRow
    {
      QuadrantOf(position)
    }
  }

  /** The robots are separate objects, as the elements of a vector are. */
  predicate Separate(robots: seq<Robot>) {
    forall i, j :: 0 <= i < j < |robots| ==> robots[i] != robots[j]
  }

  lemma SeparateSnoc(robots: seq<Robot>, next: Robot)
    requires Separate(robots) && next !in robots
    ensures Separate(robots + [next])
  {
  }

  /** The positions and velocities the lines describe, when each reads. */
  function Described(lines: seq<string>): (robots: seq<(Coordinates, Coordinates)>)
    requires forall k :: 0 <= k < |lines| ==> TwoMatches(lines[k]) && ParseRobot(lines[k]).Ok?
    ensures |robots| == |lines|
  {
    seq(|lines|, k requires 0 <= k < |lines| => ParseRobot(lines[k]).value)
  }

  /** The robots hold, in order, the positions and velocities of the first
      parse results. */
  ghost predicate ReadFrom(robots: seq<Robot>, parsed: seq<Result<(Coordinates, Coordinates)>>)
    reads set r | r in robots
  {
    |robots| <= |parsed| &&
    forall j :: 0 <= j < |robots| ==> Ok((robots[j].position, robots[j].velocity)) == parsed[j]
  }

  lemma ReadFromSnoc(robots: seq<Robot>, next: Robot, parsed: seq<Result<(Coordinates, Coordinates)>>)
    requires ReadFrom(robots, parsed) && |robots| < |parsed|
    requires Ok((next.position, next.velocity)) == parsed[|robots|]
    ensures ReadFrom(robots + [next], parsed)
  {
    var grown := robots + [next];
    forall j | 0 <= j < |grown|
      ensures Ok((grown[j].position, grown[j].velocity)) == parsed[j]
    {
      if j < |robots| {
        assert grown[j] == robots[j];
      }
    }
  }

  /** `read_robots_from_file`: a robot per line. */
  method ReadRobots(lines: seq<string>) returns (r: Result<seq<Robot>>)
    requires forall k :: 0 <= k < |lines| ==> TwoMatches(lines[k])
    ensures r.Ok? <==> forall k :: 0 <= k < |lines| ==> ParseRobot(lines[k]).Ok?
    ensures r.Ok? ==> |r.value| == |lines| && Separate(r.value)
    ensures r.Ok? ==> forall k :: 0 <= k < |lines| ==>
      fresh(r.value[k]) && Ok((r.value[k].position, r.value[k].velocity)) == ParseRobot(lines[k])
  {
    ghost var parsed := seq(|lines|, j requires 0 <= j < |lines| => ParseRobot(lines[j]));
    var robots: seq<Robot> := [];
    var k := 0;
    while k < |lines|
      invariant 0 <= k <= |lines| && |robots| == k && Separate(robots)
      invariant forall j :: 0 <= j < k ==> fresh(robots[j])
      invariant ReadFrom(robots, parsed)
    {
      var robot := Robot.FromString(lines[k]);
      if robot.Err? {
        return Err(robot.message);
      }
      var next := robot.value;
      SeparateSnoc(robots, next);
      ReadFromSnoc(robots, next, parsed);
      robots := robots + [next];
      k := k + 1;
    }
    forall j | 0 <= j < |lines|
      ensures Ok((robots[j].position, robots[j].velocity)) == ParseRobot(lines[j])
    {
      assert parsed[j] == ParseRobot(lines[j]);
    }
    return Ok(robots);
  }

  /** One second: every robot moves once. */
  method MoveAll(robots: seq<Robot>)
    requires Separate(robots)
    modifies set r | r in robots
    ensures forall k :: 0 <= k < |robots| ==>
      robots[k].position == Add(old(robots[k].position), old(robots[k].velocity)) &&
      robots[k].velocity == old(robots[k].velocity)
  {
    for i := 0 to |robots|
      invariant forall k :: 0 <= k < i ==>
        robots[k].position == Add(old(robots[k].position), old(robots[k].velocity)) &&
        robots[k].velocity == old(robots[k].velocity)
      invariant forall k :: i <= k < |robots| ==>
        robots[k].position == old(robots[k].position) && robots[k].velocity == old(robots[k].velocity)
    {
      robots[i].Move();
    }
  }

  /** The hundred seconds of `main`: afterwards every robot stands where its
      velocity takes it in that many steps. */
  method Simulate(robots: seq<Robot>)
    requires Separate(robots)
    modifies set r | r in robots
    ensures forall k :: 0 <= k < |robots| ==>
      robots[k].position == After(old(robots[k].position), old(robots[k].velocity), Seconds) &&
      robots[k].velocity == old(robots[k].velocity)
  {
    for i := 0 to Seconds
      invariant forall k :: 0 <= k < |robots| ==>
        robots[k].position == After(old(robots[k].position), old(robots[k].velocity), i) &&
        robots[k].velocity == old(robots[k].velocity)
    {
      MoveAll(robots);
    }
  }

  // ---------------------------------------------------------------------------
  // The safety factor
  // ---------------------------------------------------------------------------

  /** The quadrant of each robot, in order. */
  function QuadrantsOf(robots: seq<Robot>): (qs: seq<Quadrant>)
    reads set r | r in robots
    ensures |qs| == |robots|
    ensures forall k :: 0 <= k < |robots| ==> qs[k] == QuadrantOf(robots[k].position)
  {
    if robots == [] then []
    else QuadrantsOf(robots[..|robots| - 1]) + [robots[|robots| - 1].GetQuadrant()]
  }

  /** The quadrant map `main` builds: a quadrant is a key exactly when a
      robot is in it, and maps to the number of them. */
  function Tally(qs: seq<Quadrant>): (counts: map<Quadrant, nat>)
  {
    map q | q in multiset(qs) && q != NoQuadrant :: multiset(qs)[q]
  }

  /** Every robot is in one quadrant or on a middle line. */
  lemma {:induction false} QuadrantsPartition(qs: seq<Quadrant>)
    ensures var m := multiset(qs);
      m[TopLeft] + m[TopRight] + m[BottomLeft] + m[BottomRight] + m[NoQuadrant] == |qs|
  {
    if qs != [] {
      var front := qs[..|qs| - 1];
      var last := qs[|qs| - 1];
      QuadrantsPartition(front);
      assert qs == front + [last];
      assert multiset(qs) == multiset(front) + multiset{last};
      match last
      case TopLeft => assert multiset{last}[TopLeft] == 1;
      case TopRight => assert multiset{last}[TopRight] == 1;
      case BottomLeft => assert multiset{last}[BottomLeft] == 1;
      case BottomRight => assert multiset{last}[BottomRight] == 1;
      case NoQuadrant => assert multiset{last}[NoQuadrant] == 1;
    }
  }

  /** The map's counts, with the robots on the middle lines, account for
      every robot, and the map never holds a zero. */
  lemma TallyCounts(qs: seq<Quadrant>)
    ensures NoQuadrant !in Tally(qs)
    ensures forall q :: q in Tally(qs) ==> Tally(qs)[q] > 0
    ensures var t := Tally(qs);
      Count(t, TopLeft) + Count(t, TopRight) + Count(t, BottomLeft) + Count(t, BottomRight) +
      multiset(qs)[NoQuadrant] == |qs|
  {
    QuadrantsPartition(qs);
  }

  /** The count of a quadrant, zero when it is no key. */
  function Count(counts: map<Quadrant, nat>, q: Quadrant): nat {
    if q in counts then counts[q] else 0
  }

  /** Counting one more robot: a robot on a middle line changes nothing,
      any other adds one to its quadrant's count. */
  lemma TallySnoc(front: seq<Quadrant>, q: Quadrant)
    ensures Tally(front + [q]) ==
      if q == NoQuadrant then Tally(front) else Tally(front)[q := Count(Tally(front), q) + 1]
  {
    assert multiset(front + [q]) == multiset(front) + multiset{q};
  }

  /** The counting loop of `main`. */
  method CountQuadrants(robots: seq<Robot>) returns (counts: map<Quadrant, nat>)
    ensures counts == Tally(QuadrantsOf(robots))
  {
    ghost var qs := QuadrantsOf(robots);
    counts := map[];
    for i := 0 to |robots|
      invariant counts == Tally(qs[..i])
    {
      var quadrant := robots[i].GetQuadrant();
      assert qs[..i + 1] == qs[..i] + [quadrant];
      TallySnoc(qs[..i], quadrant);
      if quadrant == NoQuadrant {
        continue;
      }
      counts := counts[quadrant := Count(counts, quadrant) + 1];
    }
    assert qs[..|robots|] == qs;
  }

  /** Some key of `ks`, the one a product takes first. */
  ghost function Pick(ks: set<Quadrant>): (k: Quadrant)
    requires ks != {}
    ensures k in ks
  {
    var k :| k in ks; k
  }

  /** The product of the counts of the keys `ks`, taken in any order. */
  ghost function Product(counts: map<Quadrant, nat>, ks: set<Quadrant>): nat
    requires ks <= counts.Keys
    decreases |ks|
  {
    if ks == {} then 1
    else
      var k := Pick(ks);
      counts[k] * Product(counts, ks - {k})
  }

  /** Any key can be multiplied in first. */
  lemma {:induction false} ProductRemove(counts: map<Quadrant, nat>, ks: set<Quadrant>, k: Quadrant)
    requires ks <= counts.Keys && k in ks
    ensures Product(counts, ks) == counts[k] * Product(counts, ks - {k})
    decreases |ks|
  {
    var j := Pick(ks);
    if j != k {
      var rest := ks - {j} - {k};
      assert ks - {k} - {j} == rest;
      assert Product(counts, ks) == counts[j] * Product(counts, ks - {j});
      ProductRemove(counts, ks - {j}, k);
      ProductRemove(counts, ks - {k}, j);
      MulSwap(counts[j], counts[k], Product(counts, rest));
    }
  }

  lemma MulSwap(a: int, b: int, c: int)
    ensures a * (b * c) == b * (a * c)
  {
    calc {
      a * (b * c);
      (a * b) * c;
      (b * a) * c;
      b * (a * c);
    }
  }

  /** `main`'s safety factor, written with a fixed order: the product of the
      counts of the four quadrants, where a quadrant without a key counts as
      1 rather than 0. */
  function SafetyFactorOf(counts: map<Quadrant, nat>): (f: nat)
    ensures (forall q :: q in counts ==> counts[q] > 0) ==> f > 0
  {
    Filled(counts, TopLeft) * (Filled(counts, TopRight) *
      (Filled(counts, BottomLeft) * Filled(counts, BottomRight)))
  }

  /** The count of a quadrant, one when it is no key. */
  function Filled(counts: map<Quadrant, nat>, q: Quadrant): nat {
    if q in counts then counts[q] else 1
  }

  /** Multiplying the values of a map of quadrant counts in whatever order
      the map yields them gives the fixed-order factor. */
  lemma ProductIsSafetyFactor(counts: map<Quadrant, nat>)
    requires NoQuadrant !in counts
    ensures Product(counts, counts.Keys) == SafetyFactorOf(counts)
  {
    var all := {TopLeft, TopRight, BottomLeft, BottomRight};
    var filled := map q | q in all :: Filled(counts, q);
    forall q | q in counts
      ensures q in all
    {
      assert q != NoQuadrant;
    }
    assert Product(filled, all) == Product(filled, counts.Keys) by {
      ProductOfOnes(filled, counts.Keys, all - counts.Keys);
      assert counts.Keys + (all - counts.Keys) == all;
    }
    ProductSame(counts, filled, counts.Keys);
    ProductOfFour(filled);
  }

  /** The product over the four quadrants, in the fixed order. */
  lemma ProductOfFour(f: map<Quadrant, nat>)
    requires f.Keys == {TopLeft, TopRight, BottomLeft, BottomRight}
    ensures Product(f, f.Keys) == f[TopLeft] * (f[TopRight] * (f[BottomLeft] * f[BottomRight]))
  {
    var s1, s2, s3 := f.Keys - {TopLeft}, f.Keys - {TopLeft, TopRight}, {BottomRight};
    assert Product(f, s3) == f[BottomRight] by {
      ProductRemove(f, s3, BottomRight);
      assert s3 - {BottomRight} == {};
    }
    assert Product(f, s2) == f[BottomLeft] * f[BottomRight] by {
      ProductRemove(f, s2, BottomLeft);
      assert s2 - {BottomLeft} == s3;
    }
    assert Product(f, s1) == f[TopRight] * (f[BottomLeft] * f[BottomRight]) by {
      ProductRemove(f, s1, TopRight);
      assert s1 - {TopRight} == s2;
    }
    ProductRemove(f, f.Keys, TopLeft);
  }

  /** Keys whose count is 1 do not change a product. */
  lemma {:induction false} ProductOfOnes(counts: map<Quadrant, nat>, ks: set<Quadrant>, ones: set<Quadrant>)
    requires ks <= counts.Keys && ones <= counts.Keys && ks !! ones
    requires forall q :: q in ones ==> counts[q] == 1
    ensures Product(counts, ks + ones) == Product(counts, ks)
    decreases |ones|
  {
    if ones != {} {
      var e :| e in ones;
      ProductRemove(counts, ks + ones, e);
      assert ks + ones - {e} == ks + (ones - {e});
      ProductOfOnes(counts, ks, ones - {e});
    }
  }

  /** Two maps that agree on `ks` have the same product over it. */
  lemma {:induction false} ProductSame(a: map<Quadrant, nat>, b: map<Quadrant, nat>, ks: set<Quadrant>)
    requires ks <= a.Keys && ks <= b.Keys
    requires forall q :: q in ks ==> a[q] == b[q]
    ensures Product(a, ks) == Product(b, ks)
    decreases |ks|
  {
    if ks != {} {
      var k :| k in ks;
      ProductRemove(a, ks, k);
      ProductRemove(b, ks, k);
      ProductSame(a, b, ks - {k});
    }
  }

  /** `std::accumulate` over the map's values with `std::multiplies`,
      starting from 1, in the map's own (unspecified) order. */
  method SafetyFactor(counts: map<Quadrant, nat>) returns (factor: int)
    ensures factor == Product(counts, counts.Keys)
    ensures NoQuadrant !in counts ==> factor == SafetyFactorOf(counts)
  {
    factor := 1;
    var keys := counts.Keys;
    while keys != {}
      invariant keys <= counts.Keys
      invariant factor * Product(counts, keys) == Product(counts, counts.Keys)
      decreases |keys|
    {
      var q :| q in keys;
      ProductRemove(counts, keys, q);
      factor := factor * counts[q];
      keys := keys - {q};
    }
    if NoQuadrant !in counts {
      ProductIsSafetyFactor(counts);
    }
  }

  /** Where each robot described stands after the hundred seconds. */
  function FinalQuadrants(robots: seq<(Coordinates, Coordinates)>): (qs: seq<Quadrant>)
    ensures |qs| == |robots|
  {
    seq(|robots|, k requires 0 <= k < |robots| => QuadrantOf(After(robots[k].0, robots[k].1, Seconds)))
  }

  /** `main`: read the robots, let them walk, count them by quadrant and
      multiply the counts. */
  method Solve(lines: seq<string>) returns (r: Result<int>)
    requires forall k :: 0 <= k < |lines| ==> TwoMatches(lines[k])
    ensures r.Ok? <==> forall k :: 0 <= k < |lines| ==> ParseRobot(lines[k]).Ok?
    ensures r.Ok? ==> r.value == SafetyFactorOf(Tally(FinalQuadrants(Described(lines))))
  {
    var robots :- ReadRobots(lines);
    ghost var described := Described(lines);
    Simulate(robots);
    var counts := CountQuadrants(robots);
    assert QuadrantsOf(robots) == FinalQuadrants(described);
    TallyCounts(QuadrantsOf(robots));
    var factor := SafetyFactor(counts);
    return Ok(factor);
  }
}
