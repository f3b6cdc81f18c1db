/** Day 12: garden groups. A 140 by 140 garden of plots, each growing one plant
    type, splits into regions: maximal groups of same-type plots joined
    horizontally or vertically. Every region is found by a breadth-first flood
    fill that marks plots visited in place and counts the region's area, its
    perimeter (plot sides facing a different type or the outside) and its
    number of sides (counted as corners). */
module GardenGroups {

  const PlotWidth: nat := 140
  const PlotHeight: nat := 140

  /** One more than the largest `unsigned int`. */
  const UIntLimit: nat := 0x1_0000_0000

  datatype Coordinates = Coordinates(x: int, y: int)

  /** An entry of the plot array: its plant type and whether a region has
      claimed it yet. */
  datatype Plot = Plot(plantType: char, visited: bool)

  datatype Region = Region(perimeter: nat, area: nat, sides: nat)

  /** The plant types of the garden, row by row. */
  type Garden = seq<seq<char>>

  predicate WellFormed(g: Garden) {
    |g| == PlotHeight && forall y :: 0 <= y < |g| ==> |g[y]| == PlotWidth
  }

  predicate InBounds(c: Coordinates) {
    0 <= c.x < PlotWidth && 0 <= c.y < PlotHeight
  }

  function PlantAt(g: Garden, c: Coordinates): char
    requires WellFormed(g) && InBounds(c)
  {
    g[c.y][c.x]
  }

  /** The four directions in the order of the flood fill. */
  const Directions: seq<(int, int)> := [(1, 0), (0, 1), (-1, 0), (0, -1)]

  /** The pairs of directions that meet at each of a plot's four corners. */
  const CornerDirections: seq<((int, int), (int, int))> :=
    [((1, 0), (0, 1)), ((0, 1), (-1, 0)), ((-1, 0), (0, -1)), ((0, -1), (1, 0))]

  /** `Coordinates::operator+`. */
  function Add(c: Coordinates, d: (int, int)): Coordinates {
    Coordinates(c.x + d.0, c.y + d.1)
  }

  // ---------------------------------------------------------------------------
  // Regions as sets of joined plots
  // ---------------------------------------------------------------------------

  /** `is_empty_coordinate`: outside the garden or growing another plant. */
  predicate IsEmpty(g: Garden, plant: char, c: Coordinates)
    requires WellFormed(g)
  {
    !InBounds(c) || PlantAt(g, c) != plant
  }

  predicate Adjacent(a: Coordinates, b: Coordinates) {
    (a.x == b.x && (a.y - b.y == 1 || b.y - a.y == 1)) ||
    (a.y == b.y && (a.x - b.x == 1 || b.x - a.x == 1))
  }

  /** Two plots of the garden that touch along a side and grow the same plant. */
  predicate Joined(g: Garden, a: Coordinates, b: Coordinates)
    requires WellFormed(g)
  {
    InBounds(a) && InBounds(b) && Adjacent(a, b) && PlantAt(g, a) == PlantAt(g, b)
  }

  /** The four directions reach exactly the adjacent coordinates. */
  lemma AdjacentIff(a: Coordinates, b: Coordinates)
    ensures Adjacent(a, b) <==> exists i :: 0 <= i < 4 && b == Add(a, Directions[i])
  {
    if Adjacent(a, b) {
      if b.x == a.x + 1 {
        assert b == Add(a, Directions[0]);
      } else if b.y == a.y + 1 {
        assert b == Add(a, Directions[1]);
      } else if b.x == a.x - 1 {
        assert b == Add(a, Directions[2]);
      } else {
        assert b == Add(a, Directions[3]);
      }
    }
  }

  /** A walk through joined plots. */
  predicate IsPath(g: Garden, p: seq<Coordinates>)
    requires WellFormed(g)
  {
    |p| >= 1 && InBounds(p[0]) && forall k :: 0 <= k < |p| - 1 ==> Joined(g, p[k], p[k + 1])
  }

  ghost predicate Reachable(g: Garden, s: Coordinates, c: Coordinates)
    requires WellFormed(g)
  {
    exists p :: IsPath(g, p) && p[0] == s && p[|p| - 1] == c
  }

  lemma ReachableSelf(g: Garden, s: Coordinates)
    requires WellFormed(g) && InBounds(s)
    ensures Reachable(g, s, s)
  {
    assert IsPath(g, [s]);
  }

  lemma ReachableExtend(g: Garden, s: Coordinates, c: Coordinates, n: Coordinates)
    requires WellFormed(g) && Reachable(g, s, c) && Joined(g, c, n)
    ensures Reachable(g, s, n)
  {
    var p :| IsPath(g, p) && p[0] == s && p[|p| - 1] == c;
    var q := p + [n];
    assert forall k :: 0 <= k < |q| - 1 ==> q[k] == p[k];
    assert IsPath(g, q);
  }

  /** Joining is symmetric, so a path can be walked backwards. */
  lemma ReachableReverse(g: Garden, s: Coordinates, c: Coordinates)
    requires WellFormed(g) && Reachable(g, s, c)
    ensures Reachable(g, c, s)
  {
    var p :| IsPath(g, p) && p[0] == s && p[|p| - 1] == c;
    var q := seq(|p|, i requires 0 <= i < |p| => p[|p| - 1 - i]);
    forall k | 0 <= k < |q| - 1
      ensures Joined(g, q[k], q[k + 1])
    {
      assert Joined(g, p[|p| - 2 - k], p[|p| - 1 - k]);
    }
    PathSamePlant(g, p, |p| - 1);
    assert IsPath(g, q);
  }

  lemma ReachableTrans(g: Garden, s: Coordinates, c: Coordinates, d: Coordinates)
    requires WellFormed(g) && Reachable(g, s, c) && Reachable(g, c, d)
    ensures Reachable(g, s, d)
  {
    var p :| IsPath(g, p) && p[0] == s && p[|p| - 1] == c;
    var q :| IsPath(g, q) && q[0] == c && q[|q| - 1] == d;
    var r := p + q[1..];
    forall k | 0 <= k < |r| - 1
      ensures Joined(g, r[k], r[k + 1])
    {
      if k < |p| - 1 {
        assert r[k] == p[k] && r[k + 1] == p[k + 1];
      } else {
        assert r[k] == q[k - |p| + 1] && r[k + 1] == q[k - |p| + 2];
      }
    }
    assert IsPath(g, r);
  }

  /** Every plot reachable from s lies in the garden and grows the plant of s. */
  lemma ReachableSamePlant(g: Garden, s: Coordinates, c: Coordinates)
    requires WellFormed(g) && Reachable(g, s, c)
    ensures InBounds(s) && InBounds(c) && PlantAt(g, c) == PlantAt(g, s)
  {
    var p :| IsPath(g, p) && p[0] == s && p[|p| - 1] == c;
    PathSamePlant(g, p, |p| - 1);
  }

  lemma {:induction false} PathSamePlant(g: Garden, p: seq<Coordinates>, k: nat)
    requires WellFormed(g) && IsPath(g, p) && k < |p|
    ensures InBounds(p[k]) && PlantAt(g, p[k]) == PlantAt(g, p[0])
  {
    if k > 0 {
      PathSamePlant(g, p, k - 1);
      assert Joined(g, p[k - 1], p[k]);
    }
  }

  /** A set of plots closed under joining holds everything reachable from
      its members. */
  lemma ClosedHoldsReachable(g: Garden, order: seq<Coordinates>, s: Coordinates, c: Coordinates)
    requires WellFormed(g) && s in order && Reachable(g, s, c)
    requires forall a, b :: a in order && Joined(g, a, b) ==> b in order
    ensures c in order
  {
    var p :| IsPath(g, p) && p[0] == s && p[|p| - 1] == c;
    var k := 0;
    while k < |p| - 1
      invariant 0 <= k < |p| && p[k] in order
    {
      assert Joined(g, p[k], p[k + 1]);
      k := k + 1;
    }
  }

  predicate Distinct(s: seq<Coordinates>) {
    forall i, j :: 0 <= i < j < |s| ==> s[i] != s[j]
  }

  /** `order` lists the region of `start` once each, beginning with `start`:
      exactly the plots reachable from it. */
  ghost predicate IsRegion(g: Garden, start: Coordinates, order: seq<Coordinates>)
    requires WellFormed(g)
  {
    |order| >= 1 && order[0] == start && Distinct(order) &&
    forall c :: c in order <==> Reachable(g, start, c)
  }

  // ---------------------------------------------------------------------------
  // Perimeter and corners
  // ---------------------------------------------------------------------------

  /** How many of the first k directions from c lead to an empty coordinate. */
  function EmptySides(g: Garden, plant: char, c: Coordinates, k: nat): (n: nat)
    requires WellFormed(g) && k <= 4
    ensures n <= k
  {
    if k == 0 then 0
    else EmptySides(g, plant, c, k - 1) + (if IsEmpty(g, plant, Add(c, Directions[k - 1])) then 1 else 0)
  }

  /** The corner between the k-th pair of directions is convex (both sides
      empty) or concave (both sides full, the diagonal empty). */
  predicate IsCorner(g: Garden, plant: char, c: Coordinates, k: nat)
    requires WellFormed(g) && k < 4
  {
    var (d1, d2) := CornerDirections[k];
    var empty1 := IsEmpty(g, plant, Add(c, d1));
    var empty2 := IsEmpty(g, plant, Add(c, d2));
    (empty1 && empty2) || (!empty1 && !empty2 && IsEmpty(g, plant, Add(Add(c, d1), d2)))
  }

  function Corners(g: Garden, plant: char, c: Coordinates, k: nat): (n: nat)
    requires WellFormed(g) && k <= 4
    ensures n <= k
  {
    if k == 0 then 0 else Corners(g, plant, c, k - 1) + (if IsCorner(g, plant, c, k - 1) then 1 else 0)
  }

  /** The fence length of the listed plots: their sides that face an empty
      coordinate. */
  function Perimeter(g: Garden, plant: char, order: seq<Coordinates>): (n: nat)
    requires WellFormed(g)
    ensures n <= 4 * |order|
  {
    if order == [] then 0
    else Perimeter(g, plant, order[..|order| - 1]) + EmptySides(g, plant, order[|order| - 1], 4)
  }

  /** The side count of the listed plots: their corners. */
  function Sides(g: Garden, plant: char, order: seq<Coordinates>): (n: nat)
    requires WellFormed(g)
    ensures n <= 4 * |order|
  {
    if order == [] then 0
    else Sides(g, plant, order[..|order| - 1]) + Corners(g, plant, order[|order| - 1], 4)
  }

  function Stats(g: Garden, plant: char, order: seq<Coordinates>): Region
    requires WellFormed(g)
  {
    Region(Perimeter(g, plant, order), |order|, Sides(g, plant, order))
  }

  /** A plot's fence sides are the directions in which it has no partner:
      the side towards a neighbour is fenced exactly when the two are not
      joined. */
  lemma FenceIffUnjoined(g: Garden, c: Coordinates, i: nat)
    requires WellFormed(g) && InBounds(c) && i < 4
    ensures IsEmpty(g, PlantAt(g, c), Add(c, Directions[i])) <==> !Joined(g, c, Add(c, Directions[i]))
  {
    assert Adjacent(c, Add(c, Directions[i]));
  }

  /** A plot surrounded by other plants is a region of area 1 with a fence of
      4 and 4 sides. */
  lemma IsolatedPlot(g: Garden, c: Coordinates)
    requires WellFormed(g) && InBounds(c)
    requires forall i :: 0 <= i < 4 ==> IsEmpty(g, PlantAt(g, c), Add(c, Directions[i]))
    ensures Stats(g, PlantAt(g, c), [c]) == Region(4, 1, 4)
  {
    var plant := PlantAt(g, c);
    assert [c][..0] == [];
    assert EmptySides(g, plant, c, 4) == 4 by {
      assert EmptySides(g, plant, c, 2) == 2 by {
        assert IsEmpty(g, plant, Add(c, Directions[0])) && IsEmpty(g, plant, Add(c, Directions[1]));
      }
      assert IsEmpty(g, plant, Add(c, Directions[2])) && IsEmpty(g, plant, Add(c, Directions[3]));
    }
    assert Corners(g, plant, c, 4) == 4 by {
      assert IsEmpty(g, plant, Add(c, Directions[0])) && IsEmpty(g, plant, Add(c, Directions[1]));
      assert IsEmpty(g, plant, Add(c, Directions[2])) && IsEmpty(g, plant, Add(c, Directions[3]));
      assert Corners(g, plant, c, 2) == 2 by {
        assert IsCorner(g, plant, c, 0) && IsCorner(g, plant, c, 1);
      }
      assert IsCorner(g, plant, c, 2) && IsCorner(g, plant, c, 3);
    }
  }

  /** A plot whose four sides and four diagonals all grow its plant adds
      neither fence nor sides. */
  lemma InteriorPlot(g: Garden, c: Coordinates)
    requires WellFormed(g) && InBounds(c)
    requires forall i :: 0 <= i < 4 ==> !IsEmpty(g, PlantAt(g, c), Add(c, Directions[i]))
    requires forall i :: 0 <= i < 4 ==>
      !IsEmpty(g, PlantAt(g, c), Add(Add(c, CornerDirections[i].0), CornerDirections[i].1))
    ensures EmptySides(g, PlantAt(g, c), c, 4) == 0 && Corners(g, PlantAt(g, c), c, 4) == 0
  {
    var plant := PlantAt(g, c);
    assert EmptySides(g, plant, c, 2) == 0 by {
      assert !IsEmpty(g, plant, Add(c, Directions[0])) && !IsEmpty(g, plant, Add(c, Directions[1]));
    }
    assert !IsEmpty(g, plant, Add(c, Directions[2])) && !IsEmpty(g, plant, Add(c, Directions[3]));
    assert Corners(g, plant, c, 2) == 0 by {
      assert !IsCorner(g, plant, c, 0) by {
        assert !IsEmpty(g, plant, Add(Add(c, CornerDirections[0].0), CornerDirections[0].1));
      }
      assert !IsCorner(g, plant, c, 1) by {
        assert !IsEmpty(g, plant, Add(Add(c, CornerDirections[1].0), CornerDirections[1].1));
      }
    }
    assert !IsCorner(g, plant, c, 2) by {
      assert !IsEmpty(g, plant, Add(Add(c, CornerDirections[2].0), CornerDirections[2].1));
    }
    assert !IsCorner(g, plant, c, 3) by {
      assert !IsEmpty(g, plant, Add(Add(c, CornerDirections[3].0), CornerDirections[3].1));
    }
  }

  // ---------------------------------------------------------------------------
  // The plot array
  // ---------------------------------------------------------------------------

  /** The plot array holds the garden's plant types. */
  predicate Holds(a: array2<Plot>, g: Garden)
    reads a
  {
    a.Length0 == PlotHeight && a.Length1 == PlotWidth && WellFormed(g) &&
    forall y, x :: 0 <= y < PlotHeight && 0 <= x < PlotWidth ==> a[y, x].plantType == g[y][x]
  }

  predicate Visited(a: array2<Plot>, c: Coordinates)
    reads a
    requires a.Length0 == PlotHeight && a.Length1 == PlotWidth && InBounds(c)
  {
    a[c.y, c.x].visited
  }

  /** The garden `read_plots_from_file` builds: row y holds the characters of
      line y, and a plot no line reaches keeps its indeterminate plant type,
      given here as `init`. */
  function GardenOf(init: Garden, lines: seq<string>): (g: Garden)
    requires WellFormed(init) && Fits(lines)
    ensures WellFormed(g)
  {
    seq(PlotHeight, y requires 0 <= y < PlotHeight =>
      seq(PlotWidth, x requires 0 <= x < PlotWidth =>
        if y < |lines| && x < |lines[y]| then lines[y][x] else init[y][x]))
  }

  /** Input that stays inside the array. */
  predicate Fits(lines: seq<string>) {
    |lines| <= PlotHeight && forall y :: 0 <= y < |lines| ==> |lines[y]| <= PlotWidth
  }

  /** `read_plots_from_file`: every plot unvisited, the input's characters
      written row by row over the array's initial contents. */
  method ReadPlots(init: Garden, lines: seq<string>) returns (a: array2<Plot>)
    requires WellFormed(init) && Fits(lines)
    ensures fresh(a) && Holds(a, GardenOf(init, lines))
    ensures forall c :: InBounds(c) ==> !Visited(a, c)
  {
    a := new Plot[PlotHeight, PlotWidth]((y, x) requires 0 <= y < PlotHeight && 0 <= x < PlotWidth =>
      Plot(init[y][x], false));
    ghost var g := GardenOf(init, lines);
    for row := 0 to |lines|
      invariant a.Length0 == PlotHeight && a.Length1 == PlotWidth
      invariant forall y, x :: 0 <= y < PlotHeight && 0 <= x < PlotWidth ==>
        a[y, x] == Plot(if y < row then g[y][x] else init[y][x], false)
    {
      var column := 0;
      while column < |lines[row]|
        invariant 0 <= column <= |lines[row]|
        invariant forall y, x :: 0 <= y < PlotHeight && 0 <= x < PlotWidth ==>
          a[y, x] == Plot(if y < row || (y == row && x < column) then g[y][x] else init[y][x], false)
      {
        a[row, column] := Plot(lines[row][column], false);
        column := column + 1;
      }
    }
  }

  /** `is_empty_coordinate` as the flood fill evaluates it, on the array. */
  predicate IsEmptyCoordinate(a: array2<Plot>, plant: char, c: Coordinates)
    reads a
    requires a.Length0 == PlotHeight && a.Length1 == PlotWidth
  {
    !InBounds(c) || a[c.y, c.x].plantType != plant
  }

  // ---------------------------------------------------------------------------
  // The flood fill
  // ---------------------------------------------------------------------------

  /** The perimeter step of `new_plot_region` for one dequeued plot: count the
      empty directions, mark and queue every unvisited joined neighbour. */
  method ExploreNeighbours(a: array2<Plot>, ghost g: Garden, plant: char, curr: Coordinates,
                           queue: seq<Coordinates>)
    returns (queue': seq<Coordinates>, empties: nat)
    modifies a
    requires Holds(a, g) && InBounds(curr) && PlantAt(g, curr) == plant
    ensures Holds(a, g)
    ensures empties == EmptySides(g, plant, curr, 4)
    ensures |queue| <= |queue'| && queue'[..|queue|] == queue
    ensures forall k :: |queue| <= k < |queue'| ==>
      Joined(g, curr, queue'[k]) && !old(Visited(a, queue'[k]))
    ensures Distinct(queue'[|queue|..])
    ensures forall c :: InBounds(c) ==> (Visited(a, c) <==> old(Visited(a, c)) || c in queue'[|queue|..])
    ensures forall n :: Joined(g, curr, n) ==> Visited(a, n)
  {
    queue' := queue;
    empties := 0;
    for i := 0 to 4
      invariant Holds(a, g)
      invariant empties == EmptySides(g, plant, curr, i)
      invariant |queue| <= |queue'| && queue'[..|queue|] == queue
      invariant forall k :: |queue| <= k < |queue'| ==>
        Joined(g, curr, queue'[k]) && !old(Visited(a, queue'[k]))
      invariant Distinct(queue'[|queue|..])
      invariant forall c :: InBounds(c) ==> (Visited(a, c) <==> old(Visited(a, c)) || c in queue'[|queue|..])
      invariant forall k :: 0 <= k < i && Joined(g, curr, Add(curr, Directions[k])) ==>
        Visited(a, Add(curr, Directions[k]))
    {
      var n := Add(curr, Directions[i]);
      if IsEmptyCoordinate(a, plant, n) {
        empties := empties + 1;
        continue;
      }
      assert Joined(g, curr, n);
      if a[n.y, n.x].visited {
        continue;
      }
      a[n.y, n.x] := a[n.y, n.x].(visited := true);
      assert (queue' + [n])[|queue|..] == queue'[|queue|..] + [n];
      queue' := queue' + [n];
    }
    forall n | Joined(g, curr, n)
      ensures Visited(a, n)
    {
      AdjacentIff(curr, n);
    }
  }

  /** The corner step of `new_plot_region` for one dequeued plot. */
  method CountCorners(a: array2<Plot>, ghost g: Garden, plant: char, curr: Coordinates)
    returns (corners: nat)
    requires Holds(a, g)
    ensures corners == Corners(g, plant, curr, 4)
  {
    corners := 0;
    for k := 0 to 4
      invariant corners == Corners(g, plant, curr, k)
    {
      var (d1, d2) := CornerDirections[k];
      var coord1, coord2 := Add(curr, d1), Add(curr, d2);
      var empty1 := IsEmptyCoordinate(a, plant, coord1);
      var empty2 := IsEmptyCoordinate(a, plant, coord2);
      if empty1 && empty2 {
        corners := corners + 1;
        continue;
      }
      var corner := Add(coord1, d2);
      if !empty1 && !empty2 && IsEmptyCoordinate(a, plant, corner) {
        corners := corners + 1;
      }
    }
  }

  /** The visited plots other than `start` are closed under joining: a region
      already found is complete. */
  ghost predicate ClosedExcept(a: array2<Plot>, g: Garden, start: Coordinates)
    reads a
    requires Holds(a, g)
  {
    forall c, n :: InBounds(c) && c != start && Visited(a, c) && Joined(g, c, n) ==>
      Visited(a, n) && n != start
  }

  /** Every plot of the garden. */
  ghost function AllPlots(): (all: set<Coordinates>)
    ensures forall c :: c in all <==> InBounds(c)
  {
    var all := set x: int, y: int | 0 <= x < PlotWidth && 0 <= y < PlotHeight :: Coordinates(x, y);
    assert forall c :: InBounds(c) ==> Coordinates(c.x, c.y) in all;
    all
  }

  /** The state of the flood fill from `start` between two dequeues, apart
      from the array: `seen` were visited before it began; `order` was
      dequeued and `queue` waits, each plot once, all reachable from `start`
      and new; every joined neighbour of a dequeued plot is dequeued or
      waiting. */
  ghost predicate Frontier(g: Garden, start: Coordinates, seen: set<Coordinates>,
                           order: seq<Coordinates>, queue: seq<Coordinates>)
    requires WellFormed(g)
  {
    (forall c :: c in order || c in queue ==> InBounds(c) && c !in seen && Reachable(g, start, c)) &&
    Distinct(order) && Distinct(queue) &&
    (forall c :: c in queue ==> c !in order) &&
    (forall c, n :: c in order && Joined(g, c, n) ==> n in order || n in queue) &&
    (if order == [] then queue == [start] else order[0] == start)
  }

  /** Dequeueing the head and queueing its new joined neighbours keeps the
      frontier. */
  lemma FrontierStep(g: Garden, start: Coordinates, seen: set<Coordinates>,
                     order: seq<Coordinates>, queue: seq<Coordinates>, pushed: seq<Coordinates>)
    requires WellFormed(g) && Frontier(g, start, seen, order, queue) && queue != []
    requires forall c, n :: c in seen && Joined(g, c, n) ==> n in seen
    requires forall n :: n in pushed ==> Joined(g, queue[0], n) && n !in seen && n !in order && n !in queue
    requires Distinct(pushed)
    requires forall n :: Joined(g, queue[0], n) ==> n in seen || n in order || n in queue || n in pushed
    ensures Frontier(g, start, seen, order + [queue[0]], queue[1..] + pushed)
  {
    var curr := queue[0];
    var order', queue' := order + [curr], queue[1..] + pushed;
    forall c | c in order' || c in queue'
      ensures InBounds(c) && c !in seen && Reachable(g, start, c)
    {
      if c in pushed {
        ReachableExtend(g, start, curr, c);
      }
    }
    assert Distinct(order') by {
      forall i, j | 0 <= i < j < |order'|
        ensures order'[i] != order'[j]
      {
        if j == |order| {
          assert order'[i] in order;
        } else {
          assert order'[i] == order[i] && order'[j] == order[j];
        }
      }
    }
    assert Distinct(queue') by {
      forall i, j | 0 <= i < j < |queue'|
        ensures queue'[i] != queue'[j]
      {
        if j >= |queue| - 1 && i < |queue| - 1 {
          assert queue'[i] == queue[i + 1] && queue'[j] in pushed;
        } else if i < |queue| - 1 {
          assert queue'[i] == queue[i + 1] && queue'[j] == queue[j + 1];
        } else {
          assert queue'[i] == pushed[i - |queue| + 1] && queue'[j] == pushed[j - |queue| + 1];
        }
      }
    }
    forall c | c in queue'
      ensures c !in order'
    {
      if c in queue[1..] {
        var i :| 0 <= i < |queue[1..]| && queue[1..][i] == c;
        assert queue[i + 1] == c;
      }
    }
    forall c, n | c in order' && Joined(g, c, n)
      ensures n in order' || n in queue'
    {
      if c == curr && n in seen {
        assert Joined(g, n, c);
      }
    }
  }

  /** One turn of the queue loop of `new_plot_region`: dequeue the head,
      count its fence sides and corners and queue its unvisited joined
      neighbours. */
  method VisitNext(a: array2<Plot>, ghost g: Garden, ghost start: Coordinates, plant: char,
                   ghost seen: set<Coordinates>, ghost order: seq<Coordinates>, queue: seq<Coordinates>)
    returns (queue': seq<Coordinates>, empties: nat, corners: nat)
    modifies a
    requires Holds(a, g) && queue != [] && InBounds(start) && PlantAt(g, start) == plant
    requires forall c, n :: c in seen && Joined(g, c, n) ==> n in seen
    requires forall c :: InBounds(c) ==> (Visited(a, c) <==> c in seen || c in order || c in queue)
    requires Frontier(g, start, seen, order, queue)
    ensures Holds(a, g)
    ensures forall c :: InBounds(c) ==> (Visited(a, c) <==> c in seen || c in order + [queue[0]] || c in queue')
    ensures Frontier(g, start, seen, order + [queue[0]], queue')
    ensures empties == EmptySides(g, plant, queue[0], 4) && corners == Corners(g, plant, queue[0], 4)
  {
    var curr := queue[0];
    ReachableSamePlant(g, start, curr);
    queue', empties := ExploreNeighbours(a, g, plant, curr, queue[1..]);
    corners := CountCorners(a, g, plant, curr);
    ghost var pushed := queue'[|queue| - 1..];
    assert queue' == queue[1..] + pushed;
    FrontierStep(g, start, seen, order, queue, pushed);
  }

  /** A finished frontier, with nothing left waiting, lists the region of
      `start`. */
  lemma FrontierDone(g: Garden, start: Coordinates, seen: set<Coordinates>, order: seq<Coordinates>)
    requires WellFormed(g) && Frontier(g, start, seen, order, [])
    ensures IsRegion(g, start, order)
  {
    forall c | Reachable(g, start, c)
      ensures c in order
    {
      ClosedHoldsReachable(g, order, start, c);
    }
  }

  /** `new_plot_region`: a breadth-first flood fill from `start` (already
      marked visited) over the plots of its plant type. It returns the
      region's perimeter, area and sides; `order` is the dequeue order. */
  method NewPlotRegion(a: array2<Plot>, ghost g: Garden, start: Coordinates, plant: char)
    returns (region: Region, ghost order: seq<Coordinates>)
    modifies a
    requires Holds(a, g) && InBounds(start) && PlantAt(g, start) == plant
    requires Visited(a, start) && ClosedExcept(a, g, start)
    ensures Holds(a, g)
    ensures IsRegion(g, start, order)
    ensures region == Stats(g, plant, order)
    ensures forall c :: InBounds(c) ==> (Visited(a, c) <==> old(Visited(a, c)) || c in order)
  {
    ghost var seen := set c | c in AllPlots() && Visited(a, c) && c != start;
    assert forall c, n :: c in seen && Joined(g, c, n) ==> n in seen;
    ReachableSelf(g, start);
    assert Frontier(g, start, seen, [], [start]);
    var area, perimeter, sides;
    area, perimeter, sides, order := Flood(a, g, start, plant, seen);
    FrontierDone(g, start, seen, order);
    region := Region(perimeter, area, sides);
  }

  /** The queue loop of `new_plot_region`. */
  method Flood(a: array2<Plot>, ghost g: Garden, start: Coordinates, plant: char, ghost seen: set<Coordinates>)
    returns (area: nat, perimeter: nat, sides: nat, ghost order: seq<Coordinates>)
    modifies a
    requires Holds(a, g) && InBounds(start) && PlantAt(g, start) == plant
    requires forall c, n :: c in seen && Joined(g, c, n) ==> n in seen
    requires forall c :: InBounds(c) ==> (Visited(a, c) <==> c in seen || c == start)
    requires Frontier(g, start, seen, [], [start])
    ensures Holds(a, g) && Frontier(g, start, seen, order, [])
    ensures forall c :: InBounds(c) ==> (Visited(a, c) <==> c in seen || c in order)
    ensures area == |order| && perimeter == Perimeter(g, plant, order) && sides == Sides(g, plant, order)
  {
    area, perimeter, sides := 0, 0, 0;
    var queue := [start];
    order := [];
    ghost var done: set<Coordinates> := {};
    while queue != []
      invariant Holds(a, g)
      invariant forall c :: InBounds(c) ==> (Visited(a, c) <==> c in seen || c in order || c in queue)
      invariant Frontier(g, start, seen, order, queue)
      invariant forall c :: c in done <==> c in order
      invariant area == |order| && perimeter == Perimeter(g, plant, order) && sides == Sides(g, plant, order)
      decreases AllPlots() - done, |queue|
    {
      area := area + 1;
      var curr := queue[0];
      var queue', empties, corners := VisitNext(a, g, start, plant, seen, order, queue);
      perimeter := perimeter + empties;
      sides := sides + corners;
      assert (order + [curr])[..|order|] == order;
      order := order + [curr];
      done := done + {curr};
      queue := queue';
    }
  }

  // ---------------------------------------------------------------------------
  // All regions and the prices
  // ---------------------------------------------------------------------------

  /** Plots before (col, row) in the row-major scan. */
  predicate Before(c: Coordinates, row: int, col: int) {
    c.y < row || (c.y == row && c.x < col)
  }

  /** The plots of all regions found so far. */
  ghost function Covered(orders: seq<seq<Coordinates>>): set<Coordinates>
  {
    if orders == [] then {}
    else
      var last := orders[|orders| - 1];
      Covered(orders[..|orders| - 1]) + set c | c in last
  }

  lemma {:induction false} CoveredIff(orders: seq<seq<Coordinates>>, c: Coordinates)
    ensures c in Covered(orders) <==> exists k :: 0 <= k < |orders| && c in orders[k]
  {
    if orders != [] {
      var init := orders[..|orders| - 1];
      CoveredIff(init, c);
      if c in Covered(init) {
        var k :| 0 <= k < |init| && c in init[k];
        assert orders[k] == init[k];
      }
      if exists k :: 0 <= k < |orders| && c in orders[k] {
        var k :| 0 <= k < |orders| && c in orders[k];
        if k < |init| {
          assert init[k] == orders[k];
        }
      }
    }
  }

  /** `region` was flooded from `start`, a plot outside the `earlier`
      regions, and lists its whole region. */
  ghost predicate Found(g: Garden, region: Region, start: Coordinates, order: seq<Coordinates>,
                        earlier: seq<seq<Coordinates>>)
    requires WellFormed(g)
  {
    InBounds(start) && start !in Covered(earlier) &&
    IsRegion(g, start, order) && region == Stats(g, PlantAt(g, start), order)
  }

  /** The regions found so far, in the order the scan found them. */
  ghost predicate Scanned(g: Garden, regions: seq<Region>, starts: seq<Coordinates>,
                          orders: seq<seq<Coordinates>>)
    requires WellFormed(g)
    decreases |orders|
  {
    |regions| == |starts| == |orders| &&
    (orders != [] ==>
      var n := |orders| - 1;
      Scanned(g, regions[..n], starts[..n], orders[..n]) &&
      Found(g, regions[n], starts[n], orders[n], orders[..n]))
  }

  /** Every region found is the whole region of its start plot, with its
      perimeter, area and sides. */
  lemma {:induction false} ScannedRegion(g: Garden, regions: seq<Region>, starts: seq<Coordinates>,
                                         orders: seq<seq<Coordinates>>, k: nat)
    requires WellFormed(g) && Scanned(g, regions, starts, orders) && k < |orders|
    ensures Found(g, regions[k], starts[k], orders[k], orders[..k])
    decreases |orders|
  {
    var n := |orders| - 1;
    if k < n {
      ScannedRegion(g, regions[..n], starts[..n], orders[..n], k);
      assert regions[..n][k] == regions[k] && starts[..n][k] == starts[k] && orders[..n][k] == orders[k];
      assert orders[..n][..k] == orders[..k];
    }
  }

  /** No region reaches the start of a later one: each plot is counted in one
      region only. */
  lemma ScannedApart(g: Garden, regions: seq<Region>, starts: seq<Coordinates>,
                     orders: seq<seq<Coordinates>>, j: nat, k: nat)
    requires WellFormed(g) && Scanned(g, regions, starts, orders) && j < k < |orders|
    ensures !Reachable(g, starts[j], starts[k])
  {
    ScannedRegion(g, regions, starts, orders, j);
    ScannedRegion(g, regions, starts, orders, k);
    if Reachable(g, starts[j], starts[k]) {
      assert orders[..k][j] == orders[j];
      CoveredIff(orders[..k], starts[k]);
    }
  }

  /** No plot lies in two of the regions found. */
  lemma ScannedDisjoint(g: Garden, regions: seq<Region>, starts: seq<Coordinates>,
                        orders: seq<seq<Coordinates>>, j: nat, k: nat, c: Coordinates)
    requires WellFormed(g) && Scanned(g, regions, starts, orders) && j < |orders| && k < |orders|
    requires c in orders[j] && c in orders[k]
    ensures j == k
  {
    if j != k {
      var (j, k) := if j < k then (j, k) else (k, j);
      ScannedRegion(g, regions, starts, orders, j);
      ScannedRegion(g, regions, starts, orders, k);
      ReachableReverse(g, starts[k], c);
      ReachableTrans(g, starts[j], c, starts[k]);
      ScannedApart(g, regions, starts, orders, j, k);
    }
  }

  /** What the scan of `plot_array_to_regions` has established so far: the
      regions found, and the visited plots are exactly theirs. */
  ghost predicate ScanState(a: array2<Plot>, g: Garden, regions: seq<Region>,
                            starts: seq<Coordinates>, orders: seq<seq<Coordinates>>)
    reads a
    requires Holds(a, g)
  {
    Scanned(g, regions, starts, orders) &&
    forall c :: InBounds(c) ==> (Visited(a, c) <==> c in Covered(orders))
  }

  /** The plots of whole regions are closed under joining. */
  lemma CoveredClosed(g: Garden, regions: seq<Region>, starts: seq<Coordinates>,
                      orders: seq<seq<Coordinates>>, c: Coordinates, n: Coordinates)
    requires WellFormed(g) && Scanned(g, regions, starts, orders)
    requires c in Covered(orders) && Joined(g, c, n)
    ensures n in Covered(orders)
  {
    CoveredIff(orders, c);
    var k :| 0 <= k < |orders| && c in orders[k];
    ScannedRegion(g, regions, starts, orders, k);
    ReachableExtend(g, starts[k], c, n);
    CoveredIff(orders, n);
  }

  /** A region flooded from a plot outside every earlier region extends the
      scan. */
  lemma ScannedSnoc(g: Garden, regions: seq<Region>, starts: seq<Coordinates>,
                    orders: seq<seq<Coordinates>>, curr: Coordinates, order: seq<Coordinates>)
    requires WellFormed(g) && Scanned(g, regions, starts, orders)
    requires InBounds(curr) && curr !in Covered(orders) && IsRegion(g, curr, order)
    ensures Scanned(g, regions + [Stats(g, PlantAt(g, curr), order)], starts + [curr], orders + [order])
    ensures Covered(orders + [order]) == Covered(orders) + set c | c in order
  {
    var regions', starts', orders' := regions + [Stats(g, PlantAt(g, curr), order)], starts + [curr], orders + [order];
    assert regions'[..|regions|] == regions && starts'[..|starts|] == starts && orders'[..|orders|] == orders;
  }

  /** `plot_array_to_regions`: scans the plots row by row and floods a new
      region from every plot still unvisited. */
  method PlotArrayToRegions(a: array2<Plot>, ghost g: Garden)
    returns (regions: seq<Region>, ghost starts: seq<Coordinates>, ghost orders: seq<seq<Coordinates>>)
    modifies a
    requires Holds(a, g) && forall c :: InBounds(c) ==> !Visited(a, c)
    ensures Holds(a, g) && ScanState(a, g, regions, starts, orders)
    ensures forall c :: InBounds(c) ==> Visited(a, c)
  {
    regions, starts, orders := [], [], [];
    for row := 0 to PlotHeight
      invariant Holds(a, g) && ScanState(a, g, regions, starts, orders)
      invariant forall c :: InBounds(c) && Before(c, row, 0) ==> c in Covered(orders)
    {
      regions, starts, orders := ScanRow(a, g, row, regions, starts, orders);
    }
  }

  /** One row of the scan of `plot_array_to_regions`. */
  method ScanRow(a: array2<Plot>, ghost g: Garden, row: int, regions: seq<Region>,
                 ghost starts: seq<Coordinates>, ghost orders: seq<seq<Coordinates>>)
    returns (regions': seq<Region>, ghost starts': seq<Coordinates>, ghost orders': seq<seq<Coordinates>>)
    modifies a
    requires 0 <= row < PlotHeight
    requires Holds(a, g) && ScanState(a, g, regions, starts, orders)
    requires forall c :: InBounds(c) && Before(c, row, 0) ==> c in Covered(orders)
    ensures Holds(a, g) && ScanState(a, g, regions', starts', orders')
    ensures forall c :: InBounds(c) && Before(c, row + 1, 0) ==> c in Covered(orders')
  {
    regions', starts', orders' := regions, starts, orders;
    for col := 0 to PlotWidth
      invariant Holds(a, g) && ScanState(a, g, regions', starts', orders')
      invariant forall c :: InBounds(c) && Before(c, row, col) ==> c in Covered(orders')
    {
      regions', starts', orders' := ScanPlot(a, g, row, col, regions', starts', orders');
    }
  }

  /** One plot of the scan: an unvisited plot starts a new region. */
  method ScanPlot(a: array2<Plot>, ghost g: Garden, row: int, col: int, regions: seq<Region>,
                  ghost starts: seq<Coordinates>, ghost orders: seq<seq<Coordinates>>)
    returns (regions': seq<Region>, ghost starts': seq<Coordinates>, ghost orders': seq<seq<Coordinates>>)
    modifies a
    requires 0 <= row < PlotHeight && 0 <= col < PlotWidth
    requires Holds(a, g) && ScanState(a, g, regions, starts, orders)
    requires forall c :: InBounds(c) && Before(c, row, col) ==> c in Covered(orders)
    ensures Holds(a, g) && ScanState(a, g, regions', starts', orders')
    ensures forall c :: InBounds(c) && Before(c, row, col + 1) ==> c in Covered(orders')
  {
    var curr := Coordinates(col, row);
    if a[row, col].visited {
      assert Visited(a, curr);
      regions', starts', orders' := regions, starts, orders;
    } else {
      regions', starts', orders' := StartRegion(a, g, curr, regions, starts, orders);
    }
    assert curr in Covered(orders') && Covered(orders) <= Covered(orders');
    forall c | InBounds(c) && Before(c, row, col + 1)
      ensures c in Covered(orders')
    {
      if c != curr {
        assert Before(c, row, col);
      }
    }
  }

  /** The body of the scan for an unvisited plot: mark it and flood its
      region. */
  method StartRegion(a: array2<Plot>, ghost g: Garden, curr: Coordinates, regions: seq<Region>,
                     ghost starts: seq<Coordinates>, ghost orders: seq<seq<Coordinates>>)
    returns (regions': seq<Region>, ghost starts': seq<Coordinates>, ghost orders': seq<seq<Coordinates>>)
    modifies a
    requires Holds(a, g) && ScanState(a, g, regions, starts, orders)
    requires InBounds(curr) && !Visited(a, curr)
    ensures Holds(a, g) && ScanState(a, g, regions', starts', orders')
    ensures |regions'| == |regions| + 1 && regions'[..|regions|] == regions && starts' == starts + [curr]
    ensures Covered(orders) <= Covered(orders') && curr in Covered(orders')
  {
    a[curr.y, curr.x] := a[curr.y, curr.x].(visited := true);
    assert forall c :: InBounds(c) ==> (Visited(a, c) <==> c in Covered(orders) || c == curr);
    assert ClosedExcept(a, g, curr) by {
      forall c, n | InBounds(c) && c != curr && Visited(a, c) && Joined(g, c, n)
        ensures Visited(a, n) && n != curr
      {
        CoveredClosed(g, regions, starts, orders, c, n);
      }
    }
    var region;
    ghost var order;
    region, order := NewPlotRegion(a, g, curr, a[curr.y, curr.x].plantType);
    ScannedSnoc(g, regions, starts, orders, curr, order);
    regions' := regions + [region];
    starts' := starts + [curr];
    orders' := orders + [order];
  }

  /** The fencing prices of `main`: the sums of perimeter times area and of
      area times sides, in `unsigned int`. */
  function FencingPrice(regions: seq<Region>): nat
  {
    if regions == [] then 0
    else FencingPrice(regions[..|regions| - 1]) + regions[|regions| - 1].perimeter * regions[|regions| - 1].area
  }

  function DiscountedPrice(regions: seq<Region>): nat
  {
    if regions == [] then 0
    else DiscountedPrice(regions[..|regions| - 1]) + regions[|regions| - 1].area * regions[|regions| - 1].sides
  }

  lemma ModAdd(a: nat, b: nat)
    ensures (a % UIntLimit + b % UIntLimit) % UIntLimit == (a + b) % UIntLimit
  {
  }

  /** The price loop of `main`, with `unsigned int` wrap-around. */
  method FencePrices(regions: seq<Region>) returns (price: nat, discounted: nat)
    ensures price == FencingPrice(regions) % UIntLimit
    ensures discounted == DiscountedPrice(regions) % UIntLimit
  {
    price, discounted := 0, 0;
    for k := 0 to |regions|
      invariant price == FencingPrice(regions[..k]) % UIntLimit
      invariant discounted == DiscountedPrice(regions[..k]) % UIntLimit
    {
      var r := regions[k];
      assert regions[..k + 1][..k] == regions[..k];
      ModAdd(FencingPrice(regions[..k]), r.perimeter * r.area);
      ModAdd(DiscountedPrice(regions[..k]), r.area * r.sides);
      price := (price + (r.perimeter * r.area) % UIntLimit) % UIntLimit;
      discounted := (discounted + (r.area * r.sides) % UIntLimit) % UIntLimit;
    }
    assert regions[..|regions|] == regions;
  }

  /** `main`: read the garden, split it into regions and price their
      fences. Every plot ends up in exactly one region (`ScannedDisjoint`). */
  method Solve(init: Garden, lines: seq<string>)
    returns (regions: seq<Region>, price: nat, discounted: nat,
             ghost starts: seq<Coordinates>, ghost orders: seq<seq<Coordinates>>)
    requires WellFormed(init) && Fits(lines)
    ensures Scanned(GardenOf(init, lines), regions, starts, orders)
    ensures forall c :: InBounds(c) ==> c in Covered(orders)
    ensures price == FencingPrice(regions) % UIntLimit
    ensures discounted == DiscountedPrice(regions) % UIntLimit
  {
    var a := ReadPlots(init, lines);
    regions, starts, orders := PlotArrayToRegions(a, GardenOf(init, lines));
    price, discounted := FencePrices(regions);
  }
}
