/** Day 18's breadth-first search, stated on values: which cells are
    corrupted, the labels (path lengths) given to the cells reached so far,
    the cell each was reached from, and the queue of cells still to expand.
    Both revisions of the search keep these facts about their arrays. */
module MemorySearch {
  import opened MemoryCoordinates

  const Start: Coordinates := Coordinates(0, 0)

  /** The bottom-right cell, `{max_width - 1, max_height - 1}`. */
  const Exit: Coordinates := Coordinates(MaxWidth - 1, MaxHeight - 1)

  /** Every cell of the memory space. */
  ghost const Cells: set<Coordinates> :=
    set x: nat, y: nat | x < MaxWidth && y < MaxHeight :: Coordinates(x, y)

  /** Labelling a new cell of the space leaves fewer cells unlabelled. */
  lemma FewerUnlabelled(labelled: set<Coordinates>, labelled': set<Coordinates>)
    requires labelled < labelled'
    requires forall c :: c in labelled' ==> InGrid(c)
    ensures Cells - labelled' < Cells - labelled
  {
    assert !(labelled' <= labelled);
    var c :| c in labelled' && c !in labelled;
    assert c == Coordinates(c.x, c.y);
  }

  /** A queue is its front followed by the rest. */
  lemma FrontAndRest(q: seq<Coordinates>)
    requires q != []
    ensures [q[0]] + q[1..] == q
  {
  }

  /** Taking the front off a queue that `x` heads, or pushing `y` behind
      it, leaves `x` at its head. */
  lemma HeadedQueue(x: Coordinates, q: seq<Coordinates>, y: Coordinates)
    ensures ([x] + q)[1..] == q
    ensures ([x] + q) + [y] == [x] + (q + [y])
  {
  }

  function Last(p: seq<Coordinates>): Coordinates
    requires p != []
  {
    p[|p| - 1]
  }

  /** `w` is a cell of the space beside `c`; for a cell `c` of the space
      these are exactly its `AdjacentCoordinates`. */
  predicate Neighbour(c: Coordinates, w: Coordinates) {
    InGrid(w) && Touches(c, w)
  }

  /** A walk from the start, one neighbour at a time, through cells no byte
      has corrupted; the search never looks at the start cell itself. */
  predicate Walk(corrupted: set<Coordinates>, p: seq<Coordinates>) {
    |p| >= 1 && p[0] == Start &&
    forall i :: 0 < i < |p| ==> Neighbour(p[i - 1], p[i]) && p[i] !in corrupted
  }

  predicate Reaches(corrupted: set<Coordinates>, p: seq<Coordinates>) {
    Walk(corrupted, p) && Last(p) == Exit
  }

  ghost predicate Reachable(corrupted: set<Coordinates>) {
    exists p :: Reaches(corrupted, p)
  }

  /** `n` steps reach the exit, and no walk reaches it in fewer. */
  ghost predicate ShortestWalk(corrupted: set<Coordinates>, n: nat) {
    (exists p :: Reaches(corrupted, p) && |p| == n + 1) &&
    forall p :: Reaches(corrupted, p) ==> n + 1 <= |p|
  }

  /** Every cell reached has a label; the start has 0, any other cell is not
      corrupted and has one more than the neighbour it was reached from. */
  ghost predicate Labelled(corrupted: set<Coordinates>, labels: map<Coordinates, nat>, parent: map<Coordinates, Coordinates>) {
    Start in labels && labels[Start] == 0 &&
    (forall c :: c in labels ==> InGrid(c)) &&
    (forall c :: c in parent <==> c in labels && c != Start) &&
    forall c {:trigger parent[c]} :: c in parent ==>
      c !in corrupted && parent[c] in labels && Neighbour(parent[c], c) &&
      labels[c] == labels[parent[c]] + 1
  }

  /** Every labelled cell outside `open` has been expanded: each of its
      neighbours that is not corrupted is labelled, at most one more. */
  ghost predicate Closed(corrupted: set<Coordinates>, labels: map<Coordinates, nat>, open: seq<Coordinates>) {
    forall c, w :: c in labels && c !in open && Neighbour(c, w) && w !in corrupted ==>
      w in labels && labels[w] <= labels[c] + 1
  }

  /** The search at level `m`: the cells still open are labelled m or m + 1
      in queue order, every other labelled cell is expanded and labelled at
      most m, and the exit is not reached yet. */
  ghost predicate Level(corrupted: set<Coordinates>, labels: map<Coordinates, nat>, parent: map<Coordinates, Coordinates>,
                        open: seq<Coordinates>, m: nat) {
    Labelled(corrupted, labels, parent) && Exit !in labels &&
    Closed(corrupted, labels, open) && Queued(labels, open, m)
  }

  /** The open cells are labelled m or m + 1, in queue order, and every
      other labelled cell at most m. */
  ghost predicate Queued(labels: map<Coordinates, nat>, open: seq<Coordinates>, m: nat) {
    (forall i :: 0 <= i < |open| ==> open[i] in labels && m <= labels[open[i]] <= m + 1) &&
    (forall i, j :: 0 <= i < j < |open| ==> labels[open[i]] <= labels[open[j]]) &&
    (forall c :: c in labels && c !in open ==> labels[c] <= m)
  }

  /** Only the start is labelled, and it is the one cell to expand. */
  lemma Initial(corrupted: set<Coordinates>)
    ensures Level(corrupted, map[Start := 0], map[], [Start], 0)
  {
  }

  /** Any walk meets an open cell, or ends at an expanded one; up to there
      every label is at most the number of steps taken. */
  lemma {:induction false} Frontier(corrupted: set<Coordinates>, labels: map<Coordinates, nat>,
                                    parent: map<Coordinates, Coordinates>, open: seq<Coordinates>,
                                    p: seq<Coordinates>) returns (i: nat)
    requires Labelled(corrupted, labels, parent) && Closed(corrupted, labels, open)
    requires Walk(corrupted, p)
    ensures i < |p| && p[i] in labels && labels[p[i]] <= i
    ensures p[i] in open || i == |p| - 1
  {
    if |p| == 1 {
      i := 0;
    } else {
      var front := p[..|p| - 1];
      assert Walk(corrupted, front) by {
        forall k | 0 < k < |front|
          ensures Neighbour(front[k - 1], front[k]) && front[k] !in corrupted
        {
          assert front[k] == p[k] && front[k - 1] == p[k - 1];
        }
      }
      var j := Frontier(corrupted, labels, parent, open, front);
      assert front[j] == p[j];
      if p[j] in open {
        i := j;
      } else {
        i := |p| - 1;
        assert Neighbour(p[i - 1], p[i]) && p[i] !in corrupted;
      }
    }
  }

  /** The walk back along the parents, from the start to `c`. */
  ghost function BackWalk(corrupted: set<Coordinates>, labels: map<Coordinates, nat>,
                          parent: map<Coordinates, Coordinates>, c: Coordinates): (p: seq<Coordinates>)
    requires Labelled(corrupted, labels, parent) && c in labels
    ensures Walk(corrupted, p) && Last(p) == c && |p| == labels[c] + 1
    ensures forall k :: 0 <= k < |p| ==> p[k] in labels && labels[p[k]] == k
    decreases labels[c]
  {
    if c == Start then [Start]
    else
      var front := BackWalk(corrupted, labels, parent, parent[c]);
      front + [c]
  }

  /** Along the walk back, each cell but the start follows its parent. */
  lemma {:induction false} BackWalkParent(corrupted: set<Coordinates>, labels: map<Coordinates, nat>,
                                          parent: map<Coordinates, Coordinates>, c: Coordinates, k: nat)
    requires Labelled(corrupted, labels, parent) && c in labels && 0 < k <= labels[c]
    ensures var p := BackWalk(corrupted, labels, parent, c);
      p[k] in parent && p[k - 1] == parent[p[k]]
    decreases labels[c]
  {
    if k < labels[c] {
      BackWalkParent(corrupted, labels, parent, parent[c], k);
    }
  }

  /** Labelling an unlabelled, uncorrupted neighbour of `u` with one more
      than `u`'s label keeps the labels consistent. */
  lemma MarkLabelled(corrupted: set<Coordinates>, labels: map<Coordinates, nat>,
                     parent: map<Coordinates, Coordinates>, u: Coordinates, w: Coordinates, n: nat)
    requires Labelled(corrupted, labels, parent) && u in labels && n == labels[u] + 1
    requires Neighbour(u, w) && w !in corrupted && w !in labels
    ensures Labelled(corrupted, labels[w := n], parent[w := u])
  {
  }

  /** Labelling a new neighbour of the cell being expanded and queueing it
      keeps the level, unless the neighbour is the exit. */
  lemma MarkKeepsLevel(corrupted: set<Coordinates>, labels: map<Coordinates, nat>,
                       parent: map<Coordinates, Coordinates>, open: seq<Coordinates>, m: nat, w: Coordinates)
    requires Level(corrupted, labels, parent, open, m) && open != [] && labels[open[0]] == m
    requires Neighbour(open[0], w) && w !in corrupted && w !in labels && w != Exit
    ensures Level(corrupted, labels[w := m + 1], parent[w := open[0]], open + [w], m)
  {
    MarkLabelled(corrupted, labels, parent, open[0], w, m + 1);
    MarkClosed(corrupted, labels, open, w, m + 1);
    MarkQueued(labels, open, m, w);
  }

  /** A new label on a cell that joins the open cells leaves the expanded
      cells expanded. */
  lemma MarkClosed(corrupted: set<Coordinates>, labels: map<Coordinates, nat>, open: seq<Coordinates>,
                   w: Coordinates, n: nat)
    requires Closed(corrupted, labels, open) && w !in labels
    ensures Closed(corrupted, labels[w := n], open + [w])
  {
    var labels' := labels[w := n];
    forall c, v | c in labels' && c !in open + [w] && Neighbour(c, v) && v !in corrupted
      ensures v in labels' && labels'[v] <= labels'[c] + 1
    {
      assert c !in open;
    }
  }

  /** A cell labelled m + 1 queued behind the open cells keeps the queue in
      label order within [m, m + 1]. */
  lemma MarkQueued(labels: map<Coordinates, nat>, open: seq<Coordinates>, m: nat, w: Coordinates)
    requires w !in labels && Queued(labels, open, m)
    ensures Queued(labels[w := m + 1], open + [w], m)
  {
    var labels', open' := labels[w := m + 1], open + [w];
    forall i | 0 <= i < |open'|
      ensures open'[i] in labels' && m <= labels'[open'[i]] <= m + 1
    {
      if i < |open| {
        assert open'[i] == open[i];
      }
    }
    forall i, j | 0 <= i < j < |open'|
      ensures labels'[open'[i]] <= labels'[open'[j]]
    {
      assert open'[i] == open[i];
      if j < |open| {
        assert open'[j] == open[j];
      }
    }
    forall c | c in labels' && c !in open'
      ensures labels'[c] <= m
    {
      assert c != w && c !in open;
    }
  }

  /** While the exit is unlabelled, a walk to it has at least one more cell
      than the label of the cell being expanded. */
  lemma NoShorterWalk(corrupted: set<Coordinates>, labels: map<Coordinates, nat>,
                      parent: map<Coordinates, Coordinates>, open: seq<Coordinates>, m: nat,
                      p: seq<Coordinates>)
    requires Level(corrupted, labels, parent, open, m)
    requires Reaches(corrupted, p)
    ensures m + 2 <= |p|
  {
    var i := Frontier(corrupted, labels, parent, open, p);
    assert p[i] != Exit;
    var k :| 0 <= k < |open| && open[k] == p[i];
  }

  /** The exit found as a new neighbour of the cell being expanded is found
      along a shortest walk. */
  lemma ExitShortest(corrupted: set<Coordinates>, labels: map<Coordinates, nat>,
                     parent: map<Coordinates, Coordinates>, open: seq<Coordinates>, m: nat)
    requires Level(corrupted, labels, parent, open, m) && open != [] && labels[open[0]] == m
    requires Neighbour(open[0], Exit) && Exit !in corrupted
    ensures ShortestWalk(corrupted, m + 1)
  {
    var labels', parent' := labels[Exit := m + 1], parent[Exit := open[0]];
    MarkLabelled(corrupted, labels, parent, open[0], Exit, m + 1);
    var found := BackWalk(corrupted, labels', parent', Exit);
    assert Reaches(corrupted, found) && |found| == m + 2;
    forall p | Reaches(corrupted, p)
      ensures m + 2 <= |p|
    {
      NoShorterWalk(corrupted, labels, parent, open, m, p);
    }
  }

  /** Once every neighbour of the cell being expanded is labelled, it is
      expanded, and the search moves on to the next open cell. */
  lemma CloseFirst(corrupted: set<Coordinates>, labels: map<Coordinates, nat>,
                   parent: map<Coordinates, Coordinates>, open: seq<Coordinates>, m: nat)
    requires Level(corrupted, labels, parent, open, m) && open != [] && labels[open[0]] == m
    requires forall w :: Neighbour(open[0], w) && w !in corrupted ==> w in labels && labels[w] <= m + 1
    ensures Level(corrupted, labels, parent, open[1..], if |open| == 1 then m else labels[open[1]])
  {
    var u, rest := open[0], open[1..];
    var m' := if |open| == 1 then m else labels[open[1]];
    forall c, w | c in labels && c !in rest && Neighbour(c, w) && w !in corrupted
      ensures w in labels && labels[w] <= labels[c] + 1
    {
      if c != u {
        assert c !in open;
      }
    }
    forall i | 0 <= i < |rest|
      ensures rest[i] in labels && m' <= labels[rest[i]] <= m' + 1
    {
      assert rest[i] == open[i + 1];
      if i > 0 {
        assert rest[0] == open[1];
      }
    }
    forall i, j | 0 <= i < j < |rest|
      ensures labels[rest[i]] <= labels[rest[j]]
    {
      assert rest[i] == open[i + 1] && rest[j] == open[j + 1];
    }
    forall c | c in labels && c !in rest
      ensures labels[c] <= m'
    {
      if |open| > 1 {
        assert open[1] == rest[0];
      }
    }
  }

  /** A search that runs out of cells to expand has labelled every cell any
      walk reaches, so the exit is unreachable. */
  lemma Exhausted(corrupted: set<Coordinates>, labels: map<Coordinates, nat>,
                  parent: map<Coordinates, Coordinates>, m: nat)
    requires Level(corrupted, labels, parent, [], m)
    ensures !Reachable(corrupted)
  {
    forall p | Reaches(corrupted, p)
      ensures false
    {
      var i := Frontier(corrupted, labels, parent, [], p);
    }
  }

  /** A labelled exit is reached along a walk of its label's length. */
  lemma LabelledExit(corrupted: set<Coordinates>, labels: map<Coordinates, nat>,
                     parent: map<Coordinates, Coordinates>)
    requires Labelled(corrupted, labels, parent) && Exit in labels
    ensures Reaches(corrupted, BackWalk(corrupted, labels, parent, Exit))
    ensures labels[Exit] > 0
  {
  }
}
