/** Day 10: hiking trails on a 60 by 60 topographic map. A trail starts at
    height 0 and climbs by exactly one per step to height 9, moving up, down,
    left or right. The score of a trailhead counts the distinct height-9
    cells it reaches, its rating the distinct trails. */
module HoofIt {
  import opened Outcomes

  const MapWidth: nat := 60
  const MapHeight: nat := 60
  const MaxHeight: nat := 9
  /** `uint` arithmetic wraps modulo 2^32. */
  const UIntLimit: nat := 0x1_0000_0000

  datatype Coordinates = Coordinates(x: nat, y: nat)

  /** `std::array<std::array<uint8_t, 60>, 60>`, indexed by row then column. */
  type TopographicMap = seq<seq<nat>>

  predicate WellFormed(g: TopographicMap)
  {
    |g| == MapHeight &&
    forall y :: 0 <= y < |g| ==> |g[y]| == MapWidth && forall x :: 0 <= x < |g[y]| ==> g[y][x] < 256
  }

  predicate InMap(c: Coordinates)
  {
    c.x < MapWidth && c.y < MapHeight
  }

  function Height(g: TopographicMap, c: Coordinates): (h: nat)
    requires WellFormed(g) && InMap(c)
    ensures h < 256
  {
    g[c.y][c.x]
  }

  // ---------------------------------------------------------------------
  // Reading the map

  /** `uint8_t height = c - '0'`: the difference truncated to eight bits. */
  function HeightOf(c: char): (h: nat)
    ensures h < 256
    ensures '0' <= c <= '9' ==> h == c as int - '0' as int
  {
    (c as int - '0' as int) % 256
  }

  /** The map after the text is written over `init`, the indeterminate
      contents of the array: the cell of every character holds its height,
      every other cell keeps its old value. */
  function MapOf(init: TopographicMap, lines: seq<string>): (g: TopographicMap)
    requires WellFormed(init)
    ensures WellFormed(g)
  {
    seq(MapHeight, y requires 0 <= y < MapHeight =>
      seq(MapWidth, x requires 0 <= x < MapWidth =>
        if y < |lines| && x < |lines[y]| then HeightOf(lines[y][x]) else init[y][x]))
  }

  /** The map once line `y` has been written up to column `x`. */
  function PartialMap(init: TopographicMap, lines: seq<string>, y: nat, x: nat): (g: TopographicMap)
    requires WellFormed(init)
    ensures WellFormed(g)
  {
    seq(MapHeight, r requires 0 <= r < MapHeight =>
      seq(MapWidth, c requires 0 <= c < MapWidth =>
        if (r < y && r < |lines| && c < |lines[r]|) || (r == y && r < |lines| && c < x && c < |lines[r]|)
        then HeightOf(lines[r][c]) else init[r][c]))
  }

  /** The coordinates of the height-0 characters of line `y` left of `x`. */
  function RowTrailheads(line: string, y: nat, x: nat): seq<Coordinates>
    requires x <= |line|
  {
    if x == 0 then []
    else RowTrailheads(line, y, x - 1) + (if HeightOf(line[x - 1]) == 0 then [Coordinates(x - 1, y)] else [])
  }

  /** The trailheads of the first `h` lines, in reading order. */
  function Trailheads(lines: seq<string>, h: nat): seq<Coordinates>
    requires h <= |lines|
  {
    if h == 0 then [] else Trailheads(lines, h - 1) + RowTrailheads(lines[h - 1], h - 1, |lines[h - 1]|)
  }

  /** The text fits the array; writing past it is undefined. */
  predicate Fits(lines: seq<string>)
  {
    |lines| <= MapHeight && forall y :: 0 <= y < |lines| ==> |lines[y]| <= MapWidth
  }

  /** `read_map_from_file` over the lines of the input. */
  method ReadMap(init: TopographicMap, lines: seq<string>) returns (g: TopographicMap, trailheads: seq<Coordinates>)
    requires WellFormed(init) && Fits(lines)
    ensures g == MapOf(init, lines)
    ensures trailheads == Trailheads(lines, |lines|)
  {
    g := init;
    trailheads := [];
    PartialStart(init, lines);
    var row := 0;
    while row < |lines|
      invariant row <= |lines|
      invariant g == PartialMap(init, lines, row, 0)
      invariant trailheads == Trailheads(lines, row)
    {
      g, trailheads := ReadLine(init, lines, row, g, trailheads);
      PartialRow(init, lines, row);
      row := row + 1;
    }
    PartialEnd(init, lines);
  }

  /** The column loop of `read_map_from_file` over line `row`. */
  method ReadLine(init: TopographicMap, lines: seq<string>, row: nat, g0: TopographicMap, t0: seq<Coordinates>)
    returns (g: TopographicMap, trailheads: seq<Coordinates>)
    requires WellFormed(init) && Fits(lines) && row < |lines| && g0 == PartialMap(init, lines, row, 0)
    ensures g == PartialMap(init, lines, row, |lines[row]|)
    ensures trailheads == t0 + RowTrailheads(lines[row], row, |lines[row]|)
  {
    g, trailheads := g0, t0;
    var line := lines[row];
    var col := 0;
    while col < |line|
      invariant col <= |line|
      invariant g == PartialMap(init, lines, row, col)
      invariant trailheads == t0 + RowTrailheads(line, row, col)
    {
      var height := HeightOf(line[col]);
      if height == 0 {
        trailheads := trailheads + [Coordinates(col, row)];
      }
      PartialStep(init, lines, row, col);
      g := g[row := g[row][col := height]];
      col := col + 1;
    }
  }

  lemma PartialStart(init: TopographicMap, lines: seq<string>)
    requires WellFormed(init)
    ensures PartialMap(init, lines, 0, 0) == init
  {
    var m := PartialMap(init, lines, 0, 0);
    forall r | 0 <= r < MapHeight
      ensures m[r] == init[r]
    {
    }
  }

  /** Writing the height of character `x` of line `y` moves the front on by one. */
  lemma PartialStep(init: TopographicMap, lines: seq<string>, y: nat, x: nat)
    requires WellFormed(init) && Fits(lines) && y < |lines| && x < |lines[y]|
    ensures var m := PartialMap(init, lines, y, x); var row: seq<nat> := m[y][x := HeightOf(lines[y][x])];
      PartialMap(init, lines, y, x + 1) == m[y := row]
  {
    var m := PartialMap(init, lines, y, x);
    var m' := PartialMap(init, lines, y, x + 1);
    var row: seq<nat> := m[y][x := HeightOf(lines[y][x])];
    var w := m[y := row];
    forall r | 0 <= r < MapHeight
      ensures m'[r] == w[r]
    {
    }
  }

  lemma PartialRow(init: TopographicMap, lines: seq<string>, y: nat)
    requires WellFormed(init) && Fits(lines) && y < |lines|
    ensures PartialMap(init, lines, y, |lines[y]|) == PartialMap(init, lines, y + 1, 0)
  {
    var m := PartialMap(init, lines, y, |lines[y]|);
    var m' := PartialMap(init, lines, y + 1, 0);
    forall r | 0 <= r < MapHeight
      ensures m[r] == m'[r]
    {
    }
  }

  lemma PartialEnd(init: TopographicMap, lines: seq<string>)
    requires WellFormed(init) && Fits(lines)
    ensures PartialMap(init, lines, |lines|, 0) == MapOf(init, lines)
  {
    var m := PartialMap(init, lines, |lines|, 0);
    var m' := MapOf(init, lines);
    forall r | 0 <= r < MapHeight
      ensures m[r] == m'[r]
    {
    }
  }

  /** Line `y` contributes exactly its height-0 characters. */
  lemma {:induction false} RowTrailheadsIff(line: string, y: nat, x: nat, p: Coordinates)
    requires x <= |line|
    ensures p in RowTrailheads(line, y, x) <==> p.y == y && p.x < x && HeightOf(line[p.x]) == 0
  {
    if x > 0 {
      RowTrailheadsIff(line, y, x - 1, p);
    }
  }

  /** The trailheads are exactly the characters of height 0. */
  lemma {:induction false} TrailheadsIff(lines: seq<string>, h: nat, p: Coordinates)
    requires h <= |lines|
    ensures p in Trailheads(lines, h) <==> p.y < h && p.x < |lines[p.y]| && HeightOf(lines[p.y][p.x]) == 0
  {
    if h > 0 {
      TrailheadsIff(lines, h - 1, p);
      RowTrailheadsIff(lines[h - 1], h - 1, |lines[h - 1]|, p);
    }
  }

  /** On the map that was read, every trailhead lies inside the array on a
      cell of height 0. */
  lemma TrailheadsOnMap(init: TopographicMap, lines: seq<string>, p: Coordinates)
    requires WellFormed(init) && Fits(lines) && p in Trailheads(lines, |lines|)
    ensures InMap(p) && Height(MapOf(init, lines), p) == 0
  {
    TrailheadsIff(lines, |lines|, p);
  }

  // ---------------------------------------------------------------------
  // Climbing

  /** The four offsets, in the order the search tries them. */
  const Directions: seq<(int, int)> := [(-1, 0), (1, 0), (0, -1), (0, 1)]

  /** The test of the neighbour loop: the neighbour of `c` in direction
      `i`, when it lies inside the map and is exactly one higher. */
  function Step(g: TopographicMap, c: Coordinates, i: nat): (r: Option<Coordinates>)
    requires WellFormed(g) && InMap(c) && i < 4
    ensures r.Some? ==> InMap(r.value) && Height(g, r.value) == Height(g, c) + 1
  {
    var x := c.x as int + Directions[i].0;
    var y := c.y as int + Directions[i].1;
    if !(x >= 0 && y >= 0 && x < MapWidth && y < MapHeight) || Height(g, c) + 1 != g[y][x] then None
    else Some(Coordinates(x, y))
  }

  /** The neighbours the first `k` directions push onto the queue. */
  function Pushed(g: TopographicMap, c: Coordinates, k: nat): (r: seq<Coordinates>)
    requires WellFormed(g) && InMap(c) && k <= 4
    ensures |r| <= k
    ensures forall i :: 0 <= i < |r| ==> InMap(r[i]) && Height(g, r[i]) == Height(g, c) + 1
  {
    if k == 0 then []
    else Pushed(g, c, k - 1) + (match Step(g, c, k - 1) case Some(n) => [n] case None => [])
  }

  /** The number of trails from `c` up to height 9 that never pass a
      height-9 cell before their end. */
  function Rating(g: TopographicMap, c: Coordinates): nat
    requires WellFormed(g) && InMap(c)
    decreases 256 - Height(g, c), 1, 0
  {
    if Height(g, c) == MaxHeight then 1 else RatingBranches(g, c, 4)
  }

  /** The trails through the first `k` neighbours. */
  function RatingBranches(g: TopographicMap, c: Coordinates, k: nat): nat
    requires WellFormed(g) && InMap(c) && k <= 4
    decreases 256 - Height(g, c), 0, k
  {
    if k == 0 then 0
    else RatingBranches(g, c, k - 1) + match Step(g, c, k - 1) case Some(n) => Rating(g, n) case None => 0
  }

  /** The height-9 cells reached from `c`. */
  function Peaks(g: TopographicMap, c: Coordinates): set<Coordinates>
    requires WellFormed(g) && InMap(c)
    decreases 256 - Height(g, c), 1, 0
  {
    if Height(g, c) == MaxHeight then {c} else PeakBranches(g, c, 4)
  }

  function PeakBranches(g: TopographicMap, c: Coordinates, k: nat): set<Coordinates>
    requires WellFormed(g) && InMap(c) && k <= 4
    decreases 256 - Height(g, c), 0, k
  {
    if k == 0 then {}
    else PeakBranches(g, c, k - 1) + match Step(g, c, k - 1) case Some(n) => Peaks(g, n) case None => {}
  }

  /** The trails of every queued cell together. */
  function QueueRating(g: TopographicMap, q: seq<Coordinates>): nat
    requires WellFormed(g) && forall i :: 0 <= i < |q| ==> InMap(q[i])
  {
    if q == [] then 0 else Rating(g, q[0]) + QueueRating(g, q[1..])
  }

  /** The peaks of every queued cell together. */
  function QueuePeaks(g: TopographicMap, q: seq<Coordinates>): set<Coordinates>
    requires WellFormed(g) && forall i :: 0 <= i < |q| ==> InMap(q[i])
  {
    if q == [] then {} else Peaks(g, q[0]) + QueuePeaks(g, q[1..])
  }

  lemma {:induction false} QueueAppend(g: TopographicMap, a: seq<Coordinates>, b: seq<Coordinates>)
    requires WellFormed(g) && forall i :: 0 <= i < |a| ==> InMap(a[i])
    requires forall i :: 0 <= i < |b| ==> InMap(b[i])
    ensures QueueRating(g, a + b) == QueueRating(g, a) + QueueRating(g, b)
    ensures QueuePeaks(g, a + b) == QueuePeaks(g, a) + QueuePeaks(g, b)
  {
    if a != [] {
      assert (a + b)[0] == a[0] && (a + b)[1..] == a[1..] + b;
      QueueAppend(g, a[1..], b);
    } else {
      assert a + b == b;
    }
  }

  /** Queueing the neighbours of `c` hands on exactly its trails and peaks. */
  lemma {:induction false} PushedBranches(g: TopographicMap, c: Coordinates, k: nat)
    requires WellFormed(g) && InMap(c) && k <= 4
    ensures QueueRating(g, Pushed(g, c, k)) == RatingBranches(g, c, k)
    ensures QueuePeaks(g, Pushed(g, c, k)) == PeakBranches(g, c, k)
  {
    if k > 0 {
      PushedBranches(g, c, k - 1);
      var last := match Step(g, c, k - 1) case Some(n) => [n] case None => [];
      QueueAppend(g, Pushed(g, c, k - 1), last);
      if last != [] {
        assert last[1..] == [];
      }
    }
  }

  /** Above height 9 no peak is reachable: heights only grow along a trail. */
  lemma {:induction false} NoPeaksAbove(g: TopographicMap, c: Coordinates)
    requires WellFormed(g) && InMap(c) && Height(g, c) > MaxHeight
    ensures Peaks(g, c) == {}
    decreases 256 - Height(g, c), 1
  {
    NoPeakBranchesAbove(g, c, 4);
  }

  lemma {:induction false} NoPeakBranchesAbove(g: TopographicMap, c: Coordinates, k: nat)
    requires WellFormed(g) && InMap(c) && k <= 4 && Height(g, c) >= MaxHeight
    ensures PeakBranches(g, c, k) == {}
    decreases 256 - Height(g, c), 0, k
  {
    if k > 0 {
      NoPeakBranchesAbove(g, c, k - 1);
      match Step(g, c, k - 1) {
        case Some(n) => NoPeaksAbove(g, n);
        case None =>
      }
    }
  }

  // ---------------------------------------------------------------------
  // Trails, defined directly

  /** `a` and `b` are side by side: one apart in exactly one coordinate. */
  predicate Adjacent(a: Coordinates, b: Coordinates)
  {
    (a.x == b.x && (a.y + 1 == b.y || b.y + 1 == a.y)) ||
    (a.y == b.y && (a.x + 1 == b.x || b.x + 1 == a.x))
  }

  /** One step of a trail: to a neighbour on the map exactly one higher. */
  predicate Climb(g: TopographicMap, a: Coordinates, b: Coordinates)
    requires WellFormed(g)
  {
    InMap(a) && InMap(b) && Adjacent(a, b) && Height(g, b) == Height(g, a) + 1
  }

  /** The search's neighbour test agrees with the direct definition. */
  lemma StepIff(g: TopographicMap, a: Coordinates, b: Coordinates)
    requires WellFormed(g) && InMap(a)
    ensures (exists i :: 0 <= i < 4 && Step(g, a, i) == Some(b)) <==> Climb(g, a, b)
  {
    if Climb(g, a, b) {
      var i := if b.x + 1 == a.x then 0 else if a.x + 1 == b.x then 1 else if b.y + 1 == a.y then 2 else 3;
      assert Step(g, a, i) == Some(b);
    }
  }

  /** A sequence of cells each a climb from the one before. */
  predicate IsTrail(g: TopographicMap, t: seq<Coordinates>)
    requires WellFormed(g)
  {
    |t| >= 1 && InMap(t[0]) && forall k :: 0 <= k < |t| - 1 ==> Climb(g, t[k], t[k + 1])
  }

  lemma {:induction false} TrailHeights(g: TopographicMap, t: seq<Coordinates>, k: nat)
    requires WellFormed(g) && IsTrail(g, t) && k < |t|
    ensures InMap(t[k]) && Height(g, t[k]) == Height(g, t[0]) + k
  {
    if k > 0 {
      TrailHeights(g, t, k - 1);
    }
  }

  /** A peak found by `PeakBranches` comes from one climbing neighbour. */
  lemma {:induction false} PeakBranchesFrom(g: TopographicMap, c: Coordinates, k: nat, p: Coordinates)
    returns (i: nat, n: Coordinates)
    requires WellFormed(g) && InMap(c) && k <= 4 && p in PeakBranches(g, c, k)
    ensures i < k && Step(g, c, i) == Some(n) && p in Peaks(g, n)
  {
    if p in PeakBranches(g, c, k - 1) {
      i, n := PeakBranchesFrom(g, c, k - 1, p);
    } else {
      i, n := k - 1, Step(g, c, k - 1).value;
    }
  }

  lemma {:induction false} PeakBranchesHas(g: TopographicMap, c: Coordinates, k: nat, i: nat, n: Coordinates)
    requires WellFormed(g) && InMap(c) && i < k <= 4 && Step(g, c, i) == Some(n)
    ensures Peaks(g, n) <= PeakBranches(g, c, k)
  {
    if i < k - 1 {
      PeakBranchesHas(g, c, k - 1, i, n);
    }
  }

  /** Every peak reached ends a trail from `c`. */
  lemma {:induction false} PeaksSound(g: TopographicMap, c: Coordinates, p: Coordinates) returns (t: seq<Coordinates>)
    requires WellFormed(g) && InMap(c) && p in Peaks(g, c)
    ensures IsTrail(g, t) && t[0] == c && t[|t| - 1] == p && InMap(p) && Height(g, p) == MaxHeight
    decreases 256 - Height(g, c)
  {
    if Height(g, c) == MaxHeight {
      t := [c];
    } else {
      var i, n := PeakBranchesFrom(g, c, 4, p);
      var rest := PeaksSound(g, n, p);
      t := [c] + rest;
      forall k | 0 <= k < |t| - 1
        ensures Climb(g, t[k], t[k + 1])
      {
        if k == 0 {
          StepIff(g, c, n);
        } else {
          assert t[k] == rest[k - 1] && t[k + 1] == rest[k];
        }
      }
    }
  }

  /** Every trail from `c` that ends at height 9 ends at a peak reached. */
  lemma {:induction false} PeaksComplete(g: TopographicMap, t: seq<Coordinates>)
    requires WellFormed(g) && IsTrail(g, t)
    requires InMap(t[|t| - 1]) && Height(g, t[|t| - 1]) == MaxHeight
    ensures t[|t| - 1] in Peaks(g, t[0])
    decreases |t|
  {
    if |t| > 1 {
      var c, n := t[0], t[1];
      TrailHeights(g, t, |t| - 1);
      assert Climb(g, c, n);
      StepIff(g, c, n);
      var i :| 0 <= i < 4 && Step(g, c, i) == Some(n);
      var rest := t[1..];
      assert forall k :: 0 <= k < |rest| ==> rest[k] == t[k + 1];
      PeaksComplete(g, rest);
      PeakBranchesHas(g, c, 4, i, n);
    }
  }

  /** The peaks reached from `c` are exactly the height-9 ends of trails
      starting at `c`. */
  lemma PeaksIff(g: TopographicMap, c: Coordinates, p: Coordinates)
    requires WellFormed(g) && InMap(c)
    ensures p in Peaks(g, c) <==>
      InMap(p) && Height(g, p) == MaxHeight && exists t :: IsTrail(g, t) && t[0] == c && t[|t| - 1] == p
  {
    if p in Peaks(g, c) {
      var t := PeaksSound(g, c, p);
      TrailHeights(g, t, |t| - 1);
    }
    if InMap(p) && Height(g, p) == MaxHeight && exists t :: IsTrail(g, t) && t[0] == c && t[|t| - 1] == p {
      var t :| IsTrail(g, t) && t[0] == c && t[|t| - 1] == p;
      PeaksComplete(g, t);
    }
  }

  /** Each peak reached ends at least one trail, so the score never exceeds
      the rating. */
  lemma {:induction false} ScoreAtMostRating(g: TopographicMap, c: Coordinates)
    requires WellFormed(g) && InMap(c)
    ensures |Peaks(g, c)| <= Rating(g, c)
    decreases 256 - Height(g, c), 1
  {
    if Height(g, c) != MaxHeight {
      BranchesScoreAtMostRating(g, c, 4);
    }
  }

  lemma {:induction false} BranchesScoreAtMostRating(g: TopographicMap, c: Coordinates, k: nat)
    requires WellFormed(g) && InMap(c) && k <= 4
    ensures |PeakBranches(g, c, k)| <= RatingBranches(g, c, k)
    decreases 256 - Height(g, c), 0, k
  {
    if k > 0 {
      BranchesScoreAtMostRating(g, c, k - 1);
      match Step(g, c, k - 1) {
        case Some(n) =>
          ScoreAtMostRating(g, n);
          UnionBound(PeakBranches(g, c, k - 1), Peaks(g, n));
        case None =>
      }
    }
  }

  lemma UnionBound<T>(a: set<T>, b: set<T>)
    ensures |a + b| <= |a| + |b|
  {
    assert |a + b| == |a| + |b - a|;
    assert b - a <= b;
  }

  // ---------------------------------------------------------------------
  // The breadth-first search

  /** The two callbacks of `main`. */
  datatype Metric = ScoreCalculation | RatingCalculation

  /** One call of the callback: whether the cell ends its branch, and the
      new count and set of peaks reached. */
  function Requirement(metric: Metric, count: nat, height: nat, c: Coordinates, peaks: set<Coordinates>)
    : (r: (bool, nat, set<Coordinates>))
    ensures r.0 <==> height == MaxHeight && (metric == RatingCalculation || c !in peaks)
    ensures r.1 == if r.0 then (count + 1) % UIntLimit else count
    ensures r.2 == if r.0 && metric == ScoreCalculation then peaks + {c} else peaks
  {
    match metric
    case ScoreCalculation =>
      if height == MaxHeight && c !in peaks then (true, (count + 1) % UIntLimit, peaks + {c})
      else (false, count, peaks)
    case RatingCalculation =>
      if height == MaxHeight then (true, (count + 1) % UIntLimit, peaks)
      else (false, count, peaks)
  }

  /** 5^k, the weight that bounds the remaining work below a queued cell. */
  function Pow5(k: nat): (p: nat)
    ensures p >= 1
  {
    if k == 0 then 1 else 5 * Pow5(k - 1)
  }

  function Weight(g: TopographicMap, q: seq<Coordinates>): nat
    requires WellFormed(g) && forall i :: 0 <= i < |q| ==> InMap(q[i])
  {
    if q == [] then 0 else Pow5(256 - Height(g, q[0])) + Weight(g, q[1..])
  }

  lemma {:induction false} WeightAppend(g: TopographicMap, a: seq<Coordinates>, b: seq<Coordinates>)
    requires WellFormed(g) && forall i :: 0 <= i < |a| ==> InMap(a[i])
    requires forall i :: 0 <= i < |b| ==> InMap(b[i])
    ensures Weight(g, a + b) == Weight(g, a) + Weight(g, b)
  {
    if a != [] {
      assert (a + b)[0] == a[0] && (a + b)[1..] == a[1..] + b;
      WeightAppend(g, a[1..], b);
    } else {
      assert a + b == b;
    }
  }

  /** Cells all one step above `c` weigh `|q|` times a fifth of `c`. */
  lemma {:induction false} WeightUniform(g: TopographicMap, q: seq<Coordinates>, h: nat)
    requires WellFormed(g) && h < 256
    requires forall i :: 0 <= i < |q| ==> InMap(q[i]) && Height(g, q[i]) == h
    ensures Weight(g, q) == |q| * Pow5(256 - h)
  {
    if q != [] {
      WeightUniform(g, q[1..], h);
      assert |q| * Pow5(256 - h) == Pow5(256 - h) + (|q| - 1) * Pow5(256 - h);
    }
  }

  /** Replacing a cell by its neighbours lowers the weight of the queue. */
  lemma {:induction false} ExpandLighter(g: TopographicMap, c: Coordinates, rest: seq<Coordinates>)
    requires WellFormed(g) && InMap(c) && forall i :: 0 <= i < |rest| ==> InMap(rest[i])
    ensures Weight(g, rest + Pushed(g, c, 4)) < Weight(g, [c] + rest)
  {
    var p := Pushed(g, c, 4);
    var h := Height(g, c);
    WeightAppend(g, rest, p);
    assert ([c] + rest)[0] == c && ([c] + rest)[1..] == rest;
    assert Weight(g, [c] + rest) == Pow5(256 - h) + Weight(g, rest);
    if p != [] {
      assert Height(g, p[0]) == h + 1;
      var x := Pow5(256 - (h + 1));
      WeightUniform(g, p, h + 1);
      assert Pow5(256 - h) == 5 * x;
      MulBound(|p|, x);
    }
  }

  lemma MulBound(n: nat, x: nat)
    requires n <= 4 && x >= 1
    ensures n * x < 5 * x
  {
  }

  lemma ModSucc(n: nat)
    ensures (n % UIntLimit + 1) % UIntLimit == (n + 1) % UIntLimit
  {
  }

  /** The neighbour loop of `calculate_trailhead_metric`. */
  method PushNeighbours(g: TopographicMap, c: Coordinates, queue: seq<Coordinates>) returns (r: seq<Coordinates>)
    requires WellFormed(g) && InMap(c)
    ensures r == queue + Pushed(g, c, 4)
  {
    r := queue;
    for i := 0 to 4
      invariant r == queue + Pushed(g, c, i)
    {
      match Step(g, c, i) {
        case None =>
        case Some(n) =>
          assert queue + Pushed(g, c, i + 1) == r + [n];
          r := r + [n];
      }
    }
  }

  /** Taking `c` off the front of the queue: as a peak it is counted,
      otherwise its neighbours replace it and carry on its trails. */
  lemma {:induction false} RatingStep(g: TopographicMap, c: Coordinates, rest: seq<Coordinates>, n: nat, target: nat)
    requires WellFormed(g) && InMap(c) && forall i :: 0 <= i < |rest| ==> InMap(rest[i])
    requires n + QueueRating(g, [c] + rest) == target
    ensures Height(g, c) == MaxHeight ==> n + 1 + QueueRating(g, rest) == target
    ensures Height(g, c) != MaxHeight ==> n + QueueRating(g, rest + Pushed(g, c, 4)) == target
  {
    assert ([c] + rest)[0] == c && ([c] + rest)[1..] == rest;
    QueueAppend(g, rest, Pushed(g, c, 4));
    PushedBranches(g, c, 4);
  }

  /** The same for the peaks: a peak met again is expanded, but all its
      neighbours lie above height 9 and reach no peak. */
  lemma {:induction false} PeaksStep(g: TopographicMap, c: Coordinates, rest: seq<Coordinates>,
                                     peaks: set<Coordinates>, target: set<Coordinates>)
    requires WellFormed(g) && InMap(c) && forall i :: 0 <= i < |rest| ==> InMap(rest[i])
    requires peaks + QueuePeaks(g, [c] + rest) == target
    ensures Height(g, c) == MaxHeight && c !in peaks ==> (peaks + {c}) + QueuePeaks(g, rest) == target
    ensures !(Height(g, c) == MaxHeight && c !in peaks) ==> peaks + QueuePeaks(g, rest + Pushed(g, c, 4)) == target
  {
    assert ([c] + rest)[0] == c && ([c] + rest)[1..] == rest;
    QueueAppend(g, rest, Pushed(g, c, 4));
    PushedBranches(g, c, 4);
    if Height(g, c) >= MaxHeight {
      NoPeakBranchesAbove(g, c, 4);
    }
  }

  /** `calculate_trailhead_metric`: a breadth-first walk that queues every
      climbing neighbour without remembering visited cells, so each trail
      is walked once. The rating callback counts every arrival at height 9;
      the score callback counts each height-9 cell once. */
  method TrailheadMetric(g: TopographicMap, start: Coordinates, metric: Metric) returns (count: nat)
    requires WellFormed(g) && InMap(start)
    ensures metric == RatingCalculation ==> count == Rating(g, start) % UIntLimit
    ensures metric == ScoreCalculation ==> count == |Peaks(g, start)| % UIntLimit
  {
    var queue := [start];
    count := 0;
    var peaks: set<Coordinates> := {};
    ghost var arrivals := 0;
    assert [start][0] == start && [start][1..] == [];
    while queue != []
      invariant forall i :: 0 <= i < |queue| ==> InMap(queue[i])
      invariant count == arrivals % UIntLimit
      invariant metric == RatingCalculation ==> arrivals + QueueRating(g, queue) == Rating(g, start)
      invariant metric == ScoreCalculation ==> arrivals == |peaks|
      invariant metric == ScoreCalculation ==> peaks + QueuePeaks(g, queue) == Peaks(g, start)
      decreases Weight(g, queue)
    {
      var c := queue[0];
      var rest := queue[1..];
      assert queue == [c] + rest;
      var height := Height(g, c);
      if metric == RatingCalculation {
        RatingStep(g, c, rest, arrivals, Rating(g, start));
      } else {
        PeaksStep(g, c, rest, peaks, Peaks(g, start));
      }
      var outcome := Requirement(metric, count, height, c, peaks);
      var stop := outcome.0;
      count, peaks := outcome.1, outcome.2;
      if stop {
        ModSucc(arrivals);
        arrivals := arrivals + 1;
        queue := rest;
        continue;
      }
      ExpandLighter(g, c, rest);
      queue := PushNeighbours(g, c, rest);
    }
  }

  // ---------------------------------------------------------------------
  // The sums of `main`

  /** The scores of the first `n` trailheads, without wrap-around. */
  function ScoreTotal(g: TopographicMap, trailheads: seq<Coordinates>, n: nat): nat
    requires WellFormed(g) && n <= |trailheads| && forall i :: 0 <= i < |trailheads| ==> InMap(trailheads[i])
  {
    if n == 0 then 0 else ScoreTotal(g, trailheads, n - 1) + |Peaks(g, trailheads[n - 1])|
  }

  /** The ratings of the first `n` trailheads, without wrap-around. */
  function RatingTotal(g: TopographicMap, trailheads: seq<Coordinates>, n: nat): nat
    requires WellFormed(g) && n <= |trailheads| && forall i :: 0 <= i < |trailheads| ==> InMap(trailheads[i])
  {
    if n == 0 then 0 else RatingTotal(g, trailheads, n - 1) + Rating(g, trailheads[n - 1])
  }

  lemma ModAdd(a: nat, b: nat)
    ensures (a % UIntLimit + b % UIntLimit) % UIntLimit == (a + b) % UIntLimit
  {
  }

  /** The loop of `main`: both metrics of every trailhead, summed in `uint`. */
  method SumMetrics(g: TopographicMap, trailheads: seq<Coordinates>) returns (scoreSum: nat, ratingSum: nat)
    requires WellFormed(g) && forall i :: 0 <= i < |trailheads| ==> InMap(trailheads[i])
    ensures scoreSum == ScoreTotal(g, trailheads, |trailheads|) % UIntLimit
    ensures ratingSum == RatingTotal(g, trailheads, |trailheads|) % UIntLimit
  {
    scoreSum, ratingSum := 0, 0;
    for i := 0 to |trailheads|
      invariant scoreSum == ScoreTotal(g, trailheads, i) % UIntLimit
      invariant ratingSum == RatingTotal(g, trailheads, i) % UIntLimit
    {
      var score := TrailheadMetric(g, trailheads[i], ScoreCalculation);
      var rating := TrailheadMetric(g, trailheads[i], RatingCalculation);
      ModAdd(ScoreTotal(g, trailheads, i), |Peaks(g, trailheads[i])|);
      ModAdd(RatingTotal(g, trailheads, i), Rating(g, trailheads[i]));
      scoreSum := (scoreSum + score) % UIntLimit;
      ratingSum := (ratingSum + rating) % UIntLimit;
    }
  }

  /** Summed over all trailheads, the score never exceeds the rating. */
  lemma {:induction false} TotalScoreAtMostRating(g: TopographicMap, trailheads: seq<Coordinates>, n: nat)
    requires WellFormed(g) && n <= |trailheads| && forall i :: 0 <= i < |trailheads| ==> InMap(trailheads[i])
    ensures ScoreTotal(g, trailheads, n) <= RatingTotal(g, trailheads, n)
  {
    if n > 0 {
      TotalScoreAtMostRating(g, trailheads, n - 1);
      ScoreAtMostRating(g, trailheads[n - 1]);
    }
  }
}
