/** Day 18, the revision that records how each cell was reached. Falling
    bytes corrupt cells of a 71 by 71 memory space. A breadth-first search
    finds the fewest steps from the top-left cell to the bottom-right one.
    The path is unwound back from the exit, and the first falling byte that
    lands on it is reported. */
module RamRun {
  import opened Outcomes
  import opened MemoryCoordinates
  import opened MemorySearch

  /** One more than the largest `unsigned int`. */
  const UIntLimit: nat := 0x1_0000_0000

  const NoPath: string := "No path found to exit"
  const NoBlock: string := "No falling bytes block the best path"

  datatype SpaceStatus = Safe | Corrupted

  /** One cell's search record: whether it was reached, in how many steps,
      and the cells it was reached from. */
  datatype SpaceRecord = SpaceRecord(isPathed: bool, pathLength: nat, previousSpaces: set<Coordinates>)

  /** The path found: the depth of each of its cells, and how many of its
      cells lie at each depth. */
  datatype BestPath = BestPath(pathCoords: map<Coordinates, nat>, spacesByDepth: seq<nat>)

  /** An array indexed `[x, y]` over the whole memory space. */
  predicate SpaceSized<T>(a: array2<T>) {
    a.Length0 == MaxWidth && a.Length1 == MaxHeight
  }

  /** `corrupted` is the set of cells the memory space marks corrupted. */
  ghost predicate Marks(memory: array2<SpaceStatus>, corrupted: set<Coordinates>)
    reads memory
  {
    SpaceSized(memory) &&
    forall c {:trigger memory[c.x, c.y]} :: InGrid(c) ==> (memory[c.x, c.y] == Corrupted <==> c in corrupted)
  }

  /** The cells a byte has corrupted. */
  ghost function CorruptedSet(memory: array2<SpaceStatus>): (s: set<Coordinates>)
    reads memory
    requires SpaceSized(memory)
    ensures Marks(memory, s) && forall c :: c in s ==> InGrid(c)
  {
    var s := set x: nat, y: nat | x < MaxWidth && y < MaxHeight && memory[x, y] == Corrupted :: Coordinates(x, y);
    assert forall c :: InGrid(c) ==> c == Coordinates(c.x, c.y);
    s
  }

  /** `simulate_falling_byte`: the byte at the front of the queue is taken
      off it and corrupts its own cell, and no other. An empty queue or a
      byte outside the space is undefined behaviour in the source, so the
      model demands neither happens. */
  method SimulateFallingByte(fallingBytes: seq<Coordinates>, memory: array2<SpaceStatus>) returns (rest: seq<Coordinates>)
    requires SpaceSized(memory)
    requires fallingBytes != [] && InGrid(fallingBytes[0])
    modifies memory
    ensures rest == fallingBytes[1..]
    ensures memory[fallingBytes[0].x, fallingBytes[0].y] == Corrupted
    ensures forall x, y :: 0 <= x < MaxWidth && 0 <= y < MaxHeight && (x != fallingBytes[0].x || y != fallingBytes[0].y) ==>
      memory[x, y] == old(memory[x, y])
    ensures CorruptedSet(memory) == old(CorruptedSet(memory)) + {fallingBytes[0]}
  {
    var position := fallingBytes[0];
    rest := fallingBytes[1..];
    memory[position.x, position.y] := Corrupted;
  }

  /** The loop of `main` that lets the first `count` bytes fall. */
  method SimulateFallingBytes(fallingBytes: seq<Coordinates>, memory: array2<SpaceStatus>, count: nat)
    returns (rest: seq<Coordinates>)
    requires SpaceSized(memory)
    requires count <= |fallingBytes| && forall i :: 0 <= i < count ==> InGrid(fallingBytes[i])
    modifies memory
    ensures rest == fallingBytes[count..]
    ensures CorruptedSet(memory) == old(CorruptedSet(memory)) + set i | 0 <= i < count :: fallingBytes[i]
  {
    rest := fallingBytes;
    var simulated := 0;
    while simulated < count
      invariant simulated <= count && rest == fallingBytes[simulated..]
      invariant CorruptedSet(memory) == old(CorruptedSet(memory)) + set i | 0 <= i < simulated :: fallingBytes[i]
    {
      rest := SimulateFallingByte(rest, memory);
      assert (set i | 0 <= i < simulated + 1 :: fallingBytes[i]) == (set i | 0 <= i < simulated :: fallingBytes[i]) + {fallingBytes[simulated]};
      simulated := simulated + 1;
    }
  }

  /** The record a cell holds for a labelling: reached cells hold their
      label and the cell they were reached from. */
  function RecordOf(labels: map<Coordinates, nat>, parent: map<Coordinates, Coordinates>, c: Coordinates): SpaceRecord {
    if c in labels then SpaceRecord(true, labels[c], if c in parent then {parent[c]} else {})
    else SpaceRecord(false, 0, {})
  }

  /** The records of the whole space are those of the labelling. */
  ghost predicate Mirrors(records: array2<SpaceRecord>, labels: map<Coordinates, nat>, parent: map<Coordinates, Coordinates>)
    reads records
  {
    SpaceSized(records) &&
    forall c {:trigger records[c.x, c.y]} :: InGrid(c) ==> records[c.x, c.y] == RecordOf(labels, parent, c)
  }

  /** The record of `adjacentCoord` marked reached, one step further than
      `coordinate`, with `coordinate` added to its previous spaces. */
  method MarkReached(records: array2<SpaceRecord>, ghost labels: map<Coordinates, nat>,
                     ghost parent: map<Coordinates, Coordinates>, coordinate: Coordinates, adjacentCoord: Coordinates)
    requires Mirrors(records, labels, parent)
    requires InGrid(coordinate) && coordinate in labels && InGrid(adjacentCoord) && adjacentCoord !in labels
    modifies records
    ensures Mirrors(records, labels[adjacentCoord := labels[coordinate] + 1], parent[adjacentCoord := coordinate])
  {
    var record := records[adjacentCoord.x, adjacentCoord.y];
    var length := records[coordinate.x, coordinate.y].pathLength + 1;
    records[adjacentCoord.x, adjacentCoord.y] :=
      record.(isPathed := true, pathLength := length, previousSpaces := record.previousSpaces + {coordinate});
    forall c | InGrid(c) && c != adjacentCoord
      ensures records[c.x, c.y] == old(records[c.x, c.y])
    {
      assert c.x != adjacentCoord.x || c.y != adjacentCoord.y;
    }
  }

  /** One pass of the loop of `queue_adjacent_spaces`: a neighbour of
      `coordinate` that is neither reached nor corrupted is marked reached
      and queued; if it is the exit, the queue is emptied and the search
      has found a shortest walk. */
  method QueueAdjacentSpace(memory: array2<SpaceStatus>, records: array2<SpaceRecord>, queue: seq<Coordinates>,
                            coordinate: Coordinates, adjacentCoord: Coordinates, ghost corrupted: set<Coordinates>,
                            ghost labels: map<Coordinates, nat>, ghost parent: map<Coordinates, Coordinates>, ghost m: nat)
    returns (queue': seq<Coordinates>, ghost labels': map<Coordinates, nat>,
             ghost parent': map<Coordinates, Coordinates>, exitFound: bool)
    requires Marks(memory, corrupted) && Mirrors(records, labels, parent)
    requires Level(corrupted, labels, parent, [coordinate] + queue, m) && coordinate in labels && labels[coordinate] == m
    requires Neighbour(coordinate, adjacentCoord)
    modifies records
    ensures Mirrors(records, labels', parent') && Labelled(corrupted, labels', parent')
    ensures labels.Keys <= labels'.Keys && (queue' == queue || labels.Keys < labels'.Keys)
    ensures forall c :: c in labels ==> labels'[c] == labels[c]
    ensures adjacentCoord !in corrupted ==> adjacentCoord in labels' && labels'[adjacentCoord] <= m + 1
    ensures exitFound ==> queue' == [] && Exit in labels' && ShortestWalk(corrupted, labels'[Exit])
    ensures !exitFound ==> Level(corrupted, labels', parent', [coordinate] + queue', m)
  {
    queue', labels', parent', exitFound := queue, labels, parent, false;
    var record := records[adjacentCoord.x, adjacentCoord.y];
    if record.isPathed || memory[adjacentCoord.x, adjacentCoord.y] == Corrupted {
      return;
    }
    MarkReached(records, labels, parent, coordinate, adjacentCoord);
    MarkLabelled(corrupted, labels, parent, coordinate, adjacentCoord, m + 1);
    if adjacentCoord == Exit {
      ExitShortest(corrupted, labels, parent, [coordinate] + queue, m);
    } else {
      MarkKeepsLevel(corrupted, labels, parent, [coordinate] + queue, m, adjacentCoord);
      HeadedQueue(coordinate, queue, adjacentCoord);
    }
    labels', parent' := labels[adjacentCoord := m + 1], parent[adjacentCoord := coordinate];
    queue' := queue + [adjacentCoord];
    if adjacentCoord == Exit {
      queue' := [];
      exitFound := true;
    }
  }

  /** `queue_adjacent_spaces`: every neighbour of `coordinate` that is
      neither reached nor corrupted is marked reached, one step further than
      `coordinate`, with `coordinate` as its previous space, and is queued.
      Reaching the exit empties the queue and stops. The neighbours come in
      the order `AdjacentCoordinates` gives them. */
  method QueueAdjacentSpaces(memory: array2<SpaceStatus>, records: array2<SpaceRecord>, queue: seq<Coordinates>,
                             coordinate: Coordinates, ghost corrupted: set<Coordinates>,
                             ghost labels: map<Coordinates, nat>, ghost parent: map<Coordinates, Coordinates>, ghost m: nat)
    returns (queue': seq<Coordinates>, ghost labels': map<Coordinates, nat>,
             ghost parent': map<Coordinates, Coordinates>, ghost m': nat)
    requires Marks(memory, corrupted) && Mirrors(records, labels, parent)
    requires Level(corrupted, labels, parent, [coordinate] + queue, m) && coordinate in labels && labels[coordinate] == m
    modifies records
    ensures Mirrors(records, labels', parent') && Labelled(corrupted, labels', parent')
    ensures labels.Keys <= labels'.Keys && (queue' == queue || labels.Keys < labels'.Keys)
    ensures Exit in labels' ==> queue' == [] && ShortestWalk(corrupted, labels'[Exit])
    ensures Exit !in labels' ==> Level(corrupted, labels', parent', queue', m') && (queue' != [] ==> labels'[queue'[0]] == m')
  {
    var exitFound;
    queue', labels', parent', exitFound := ScanAdjacent(memory, records, queue, coordinate, corrupted, labels, parent, m);
    m' := m;
    if !exitFound {
      CloseFirst(corrupted, labels', parent', [coordinate] + queue', m);
      HeadedQueue(coordinate, queue', coordinate);
      m' := if queue' == [] then m else labels'[queue'[0]];
    }
  }

  /** The loop of `queue_adjacent_spaces` over the neighbours of
      `coordinate`, stopping early when the exit is reached. */
  method ScanAdjacent(memory: array2<SpaceStatus>, records: array2<SpaceRecord>, queue: seq<Coordinates>,
                      coordinate: Coordinates, ghost corrupted: set<Coordinates>,
                      ghost labels: map<Coordinates, nat>, ghost parent: map<Coordinates, Coordinates>, ghost m: nat)
    returns (queue': seq<Coordinates>, ghost labels': map<Coordinates, nat>,
             ghost parent': map<Coordinates, Coordinates>, exitFound: bool)
    requires Marks(memory, corrupted) && Mirrors(records, labels, parent)
    requires Level(corrupted, labels, parent, [coordinate] + queue, m) && coordinate in labels && labels[coordinate] == m
    modifies records
    ensures Mirrors(records, labels', parent') && Labelled(corrupted, labels', parent')
    ensures labels.Keys <= labels'.Keys && (queue' == queue || labels.Keys < labels'.Keys)
    ensures exitFound ==> queue' == [] && Exit in labels' && ShortestWalk(corrupted, labels'[Exit])
    ensures !exitFound ==> Level(corrupted, labels', parent', [coordinate] + queue', m)
    ensures !exitFound ==> coordinate in labels' && labels'[coordinate] == m
    ensures !exitFound ==> forall w :: Neighbour(coordinate, w) && w !in corrupted ==> w in labels' && labels'[w] <= m + 1
  {
    var adjacent := AdjacentCoordinates(coordinate);
    queue', labels', parent', exitFound := queue, labels, parent, false;
    for i := 0 to |adjacent|
      invariant Marks(memory, corrupted) && Mirrors(records, labels', parent')
      invariant labels.Keys <= labels'.Keys && (queue' == queue || labels.Keys < labels'.Keys)
      invariant Level(corrupted, labels', parent', [coordinate] + queue', m) && coordinate in labels' && labels'[coordinate] == m
      invariant forall j :: 0 <= j < i && adjacent[j] !in corrupted ==> adjacent[j] in labels' && labels'[adjacent[j]] <= m + 1
    {
      ghost var before := labels';
      queue', labels', parent', exitFound :=
        QueueAdjacentSpace(memory, records, queue', coordinate, adjacent[i], corrupted, labels', parent', m);
      if exitFound {
        return;
      }
      ScanStep(adjacent, i, corrupted, before, labels', m);
    }
    ScannedNeighbours(coordinate, corrupted, labels', m);
  }

  /** Scanning one more neighbour keeps every scanned, uncorrupted
      neighbour labelled at most one past `coordinate`. */
  lemma ScanStep(adjacent: seq<Coordinates>, i: nat, corrupted: set<Coordinates>,
                 labels: map<Coordinates, nat>, labels': map<Coordinates, nat>, m: nat)
    requires i < |adjacent|
    requires forall j :: 0 <= j < i && adjacent[j] !in corrupted ==> adjacent[j] in labels && labels[adjacent[j]] <= m + 1
    requires labels.Keys <= labels'.Keys && forall c :: c in labels ==> labels'[c] == labels[c]
    requires adjacent[i] !in corrupted ==> adjacent[i] in labels' && labels'[adjacent[i]] <= m + 1
    ensures forall j :: 0 <= j < i + 1 && adjacent[j] !in corrupted ==> adjacent[j] in labels' && labels'[adjacent[j]] <= m + 1
  {
  }

  /** Every neighbour is among `AdjacentCoordinates`, so having scanned
      them all covers every neighbour. */
  lemma ScannedNeighbours(coordinate: Coordinates, corrupted: set<Coordinates>, labels: map<Coordinates, nat>, m: nat)
    requires forall j :: 0 <= j < |AdjacentCoordinates(coordinate)| && AdjacentCoordinates(coordinate)[j] !in corrupted ==>
               AdjacentCoordinates(coordinate)[j] in labels && labels[AdjacentCoordinates(coordinate)[j]] <= m + 1
    ensures forall w :: Neighbour(coordinate, w) && w !in corrupted ==> w in labels && labels[w] <= m + 1
  {
    var adjacent := AdjacentCoordinates(coordinate);
    forall w | Neighbour(coordinate, w) && w !in corrupted
      ensures w in labels && labels[w] <= m + 1
    {
      var j :| 0 <= j < |adjacent| && adjacent[j] == w;
    }
  }

  /** The records `calculate_best_path` starts from: nothing is reached
      but the start, at no steps and from nowhere. */
  method InitialRecords() returns (records: array2<SpaceRecord>)
    ensures fresh(records) && Mirrors(records, map[Start := 0], map[])
  {
    records := new SpaceRecord[MaxWidth, MaxHeight]((_, _) => SpaceRecord(false, 0, {}));
    records[0, 0] := records[0, 0].(isPathed := true);
    forall c | InGrid(c) && c != Start
      ensures records[c.x, c.y] == SpaceRecord(false, 0, {})
    {
      assert c.x != 0 || c.y != 0;
    }
  }

  /** `calculate_best_path`: the search from the start, which is marked
      reached before anything else, and the unwinding of the path it finds.
      It throws exactly when no walk reaches the exit; otherwise it gives
      the fewest steps to the exit and one walk of that length. */
  method CalculateBestPath(memory: array2<SpaceStatus>) returns (r: Result<(nat, BestPath)>)
    requires SpaceSized(memory)
    ensures r.Err? <==> !Reachable(CorruptedSet(memory))
    ensures r.Err? ==> r.message == NoPath
    ensures r.Ok? ==> ShortestWalk(CorruptedSet(memory), r.value.0) && BestPathOf(CorruptedSet(memory), r.value.0, r.value.1)
  {
    ghost var corrupted := CorruptedSet(memory);
    var records := InitialRecords();
    Initial(corrupted);
    var queue;
    ghost var labels: map<Coordinates, nat>, parent: map<Coordinates, Coordinates>, m: nat;
    queue, labels, parent, m := QueueAdjacentSpaces(memory, records, [], Start, corrupted, map[Start := 0], map[], 0);
    labels, parent, m := SearchQueue(memory, records, queue, corrupted, labels, parent, m);
    r := BestPathFrom(records, corrupted, labels, parent, m);
  }

  /** The loop of `calculate_best_path`: the cell at the front of the queue
      is taken off and its neighbours queued, until the queue is empty. */
  method SearchQueue(memory: array2<SpaceStatus>, records: array2<SpaceRecord>, queue: seq<Coordinates>,
                     ghost corrupted: set<Coordinates>, ghost labels: map<Coordinates, nat>,
                     ghost parent: map<Coordinates, Coordinates>, ghost m: nat)
    returns (ghost labels': map<Coordinates, nat>, ghost parent': map<Coordinates, Coordinates>, ghost m': nat)
    requires Marks(memory, corrupted) && Mirrors(records, labels, parent) && Labelled(corrupted, labels, parent)
    requires Exit in labels ==> queue == [] && ShortestWalk(corrupted, labels[Exit])
    requires Exit !in labels ==> Level(corrupted, labels, parent, queue, m) && (queue != [] ==> labels[queue[0]] == m)
    modifies records
    ensures Mirrors(records, labels', parent') && Labelled(corrupted, labels', parent')
    ensures Exit in labels' ==> ShortestWalk(corrupted, labels'[Exit])
    ensures Exit !in labels' ==> Level(corrupted, labels', parent', [], m')
  {
    var queue' := queue;
    labels', parent', m' := labels, parent, m;
    while queue' != []
      invariant Marks(memory, corrupted)
      invariant Mirrors(records, labels', parent') && Labelled(corrupted, labels', parent')
      invariant Exit in labels' ==> queue' == [] && ShortestWalk(corrupted, labels'[Exit])
      invariant Exit !in labels' ==> Level(corrupted, labels', parent', queue', m') && (queue' != [] ==> labels'[queue'[0]] == m')
      decreases Cells - labels'.Keys, |queue'|
    {
      queue', labels', parent', m' := SearchStep(memory, records, queue', corrupted, labels', parent', m');
    }
  }

  /** One round of the loop of `calculate_best_path`: the front of the
      queue is taken off and its neighbours queued. Either a cell is newly
      reached or the queue gets shorter. */
  method SearchStep(memory: array2<SpaceStatus>, records: array2<SpaceRecord>, queue: seq<Coordinates>,
                    ghost corrupted: set<Coordinates>, ghost labels: map<Coordinates, nat>,
                    ghost parent: map<Coordinates, Coordinates>, ghost m: nat)
    returns (queue': seq<Coordinates>, ghost labels': map<Coordinates, nat>,
             ghost parent': map<Coordinates, Coordinates>, ghost m': nat)
    requires Marks(memory, corrupted) && Mirrors(records, labels, parent)
    requires queue != [] && Exit !in labels && Level(corrupted, labels, parent, queue, m) && labels[queue[0]] == m
    modifies records
    ensures Mirrors(records, labels', parent') && Labelled(corrupted, labels', parent')
    ensures Exit in labels' ==> queue' == [] && ShortestWalk(corrupted, labels'[Exit])
    ensures Exit !in labels' ==> Level(corrupted, labels', parent', queue', m') && (queue' != [] ==> labels'[queue'[0]] == m')
    ensures Cells - labels'.Keys < Cells - labels.Keys || (labels'.Keys == labels.Keys && |queue'| < |queue|)
  {
    var current := queue[0];
    FrontAndRest(queue);
    queue', labels', parent', m' := QueueAdjacentSpaces(memory, records, queue[1..], current, corrupted, labels, parent, m);
    if labels.Keys < labels'.Keys {
      FewerUnlabelled(labels.Keys, labels'.Keys);
    }
  }

  /** The end of `calculate_best_path`, once the queue is empty: the exit's
      path length is 0 exactly when the search never reached it. */
  method BestPathFrom(records: array2<SpaceRecord>, ghost corrupted: set<Coordinates>,
                      ghost labels: map<Coordinates, nat>, ghost parent: map<Coordinates, Coordinates>, ghost m: nat)
    returns (r: Result<(nat, BestPath)>)
    requires Mirrors(records, labels, parent) && Labelled(corrupted, labels, parent)
    requires Exit in labels ==> ShortestWalk(corrupted, labels[Exit])
    requires Exit !in labels ==> Level(corrupted, labels, parent, [], m)
    ensures r.Err? <==> !Reachable(corrupted)
    ensures r.Err? ==> r.message == NoPath
    ensures r.Ok? ==> ShortestWalk(corrupted, r.value.0) && BestPathOf(corrupted, r.value.0, r.value.1)
  {
    var pathDepth := records[Exit.x, Exit.y].pathLength;
    if pathDepth == 0 {
      if Exit in labels {
        LabelledExit(corrupted, labels, parent);
      }
      Exhausted(corrupted, labels, parent, m);
      return Err(NoPath);
    }
    var best := CollateBestPathDetails(pathDepth, records, corrupted, labels, parent);
    ghost var walk := BackWalk(corrupted, labels, parent, Exit);
    assert Reaches(corrupted, walk);
    r := Ok((pathDepth, best));
  }

  /** `depths` gives each of `p`'s cells its index along `p`, and holds no
      other cell. */
  ghost predicate Indexes(depths: map<Coordinates, nat>, p: seq<Coordinates>) {
    (forall k :: 0 <= k < |p| ==> p[k] in depths && depths[p[k]] == k) &&
    forall c :: c in depths ==> c in p
  }

  /** The path of `best` is a walk of `n` steps to the exit, one cell at
      each depth. */
  ghost predicate BestPathOf(corrupted: set<Coordinates>, n: nat, best: BestPath) {
    |best.spacesByDepth| == n + 1 &&
    (forall k :: 0 <= k <= n ==> best.spacesByDepth[k] == 1) &&
    exists p :: Reaches(corrupted, p) && |p| == n + 1 && Indexes(best.pathCoords, p)
  }

  /** `collate_best_path_details`: the path is unwound from the exit at
      depth `pathDepth` through the previous spaces down to the start, each
      cell recorded with its depth and counted at that depth. This is the
      corrected unwinding, which looks at the front of the queue only when
      there is one. */
  method CollateBestPathDetails(pathDepth: nat, records: array2<SpaceRecord>, ghost corrupted: set<Coordinates>,
                                ghost labels: map<Coordinates, nat>, ghost parent: map<Coordinates, Coordinates>)
    returns (best: BestPath)
    requires Mirrors(records, labels, parent) && Labelled(corrupted, labels, parent)
    requires Exit in labels && pathDepth == labels[Exit]
    ensures Indexes(best.pathCoords, BackWalk(corrupted, labels, parent, Exit))
    ensures |best.spacesByDepth| == pathDepth + 1 && forall k :: 0 <= k <= pathDepth ==> best.spacesByDepth[k] == 1
  {
    ghost var walk := BackWalk(corrupted, labels, parent, Exit);
    var pathCoords: map<Coordinates, nat> := map[];
    var spacesByDepth: seq<nat> := seq(pathDepth + 1, _ => 0);
    var pathQueue: seq<(Coordinates, nat)> := [(Exit, pathDepth)];
    while pathQueue != []
      invariant |pathQueue| == 1 && pathQueue[0].1 <= pathDepth && pathQueue[0].0 == walk[pathQueue[0].1]
      invariant Unwound(walk, labels, pathCoords, spacesByDepth, pathQueue[0].1 + 1)
      decreases pathQueue[0].1
    {
      var (current, depth) := pathQueue[0];
      pathQueue := pathQueue[1..];
      UnwindStep(walk, labels, pathCoords, spacesByDepth, depth);
      if current !in pathCoords {
        pathCoords := pathCoords[current := depth];
      }
      spacesByDepth := spacesByDepth[depth := spacesByDepth[depth] + 1];
      if current == Start {
        UnwoundAll(walk, labels, pathCoords, spacesByDepth);
        return BestPath(pathCoords, spacesByDepth);
      }
      BackWalkParent(corrupted, labels, parent, Exit, depth);
      pathQueue := QueuePreviousSpaces(pathQueue, records[current.x, current.y].previousSpaces, depth - 1, parent[current]);
    }
    assert false;
  }

  /** The unwinding has recorded the cells of `walk` from depth `below` up,
      each at its depth and counted once, and nothing else. */
  ghost predicate Unwound(walk: seq<Coordinates>, labels: map<Coordinates, nat>, pathCoords: map<Coordinates, nat>,
                          spacesByDepth: seq<nat>, below: nat) {
    |spacesByDepth| == |walk| &&
    (forall k :: below <= k < |walk| ==> walk[k] in pathCoords && pathCoords[walk[k]] == k) &&
    (forall c :: c in pathCoords ==> c in labels && below <= labels[c] < |walk| && c == walk[labels[c]]) &&
    (forall k :: 0 <= k < |walk| ==> spacesByDepth[k] == if k >= below then 1 else 0)
  }

  /** Recording the cell at depth `depth` extends the unwinding by one. */
  lemma UnwindStep(walk: seq<Coordinates>, labels: map<Coordinates, nat>, pathCoords: map<Coordinates, nat>,
                   spacesByDepth: seq<nat>, depth: nat)
    requires depth < |walk| && Unwound(walk, labels, pathCoords, spacesByDepth, depth + 1)
    requires forall k :: 0 <= k < |walk| ==> walk[k] in labels && labels[walk[k]] == k
    ensures walk[depth] !in pathCoords
    ensures Unwound(walk, labels, pathCoords[walk[depth] := depth], spacesByDepth[depth := spacesByDepth[depth] + 1], depth)
  {
  }

  /** Unwound down to depth 0, every cell of the walk is recorded and
      every depth counted once. */
  lemma UnwoundAll(walk: seq<Coordinates>, labels: map<Coordinates, nat>, pathCoords: map<Coordinates, nat>,
                   spacesByDepth: seq<nat>)
    requires Unwound(walk, labels, pathCoords, spacesByDepth, 0)
    ensures Indexes(pathCoords, walk)
    ensures forall k :: 0 <= k < |spacesByDepth| ==> spacesByDepth[k] == 1
  {
  }

  /** The inner loop of `collate_best_path_details`, on a cell reached
      once and so with one previous space: that space is queued one depth
      lower, unless it is already at the front of the queue. */
  method QueuePreviousSpaces(pathQueue: seq<(Coordinates, nat)>, previousSpaces: set<Coordinates>, depth: nat,
                             ghost previous: Coordinates)
    returns (pathQueue': seq<(Coordinates, nat)>)
    requires previousSpaces == {previous}
    ensures pathQueue' == if pathQueue != [] && pathQueue[0].0 == previous then pathQueue else pathQueue + [(previous, depth)]
  {
    pathQueue' := pathQueue;
    var rest := previousSpaces;
    while rest != {}
      invariant rest <= {previous}
      invariant pathQueue' == if previous in rest || (pathQueue != [] && pathQueue[0].0 == previous) then pathQueue
        else pathQueue + [(previous, depth)]
      decreases |rest|
    {
      var prev :| prev in rest;
      rest := rest - {prev};
      if !(pathQueue' != [] && pathQueue'[0].0 == prev) {
        pathQueue' := pathQueue' + [(prev, depth)];
      }
    }
  }

  /** The guard of the unwinding's inner loop as written: each previous
      space is compared with the front of the path queue. `front` on an
      empty `std::queue` is undefined behaviour, modelled as `None`. */
  function SkipsAsWritten(pathQueue: seq<(Coordinates, nat)>, prev: Coordinates): (r: Option<bool>)
    ensures r.None? <==> pathQueue == []
    ensures r.Some? ==> (r.value <==> pathQueue[0].0 == prev)
  {
    if pathQueue == [] then None else Some(pathQueue[0].0 == prev)
  }

  /** Whenever the search reaches the exit, the unwinding as written takes
      the exit off its queue of one and then asks for the front of the
      emptied queue, once for each of the exit's previous spaces, of which
      there is one. */
  lemma AsWrittenFrontOfEmpty(records: array2<SpaceRecord>, corrupted: set<Coordinates>,
                              labels: map<Coordinates, nat>, parent: map<Coordinates, Coordinates>)
    requires Mirrors(records, labels, parent) && Labelled(corrupted, labels, parent) && Exit in labels
    ensures var previous := records[Exit.x, Exit.y].previousSpaces;
      previous != {} && forall prev :: prev in previous ==> SkipsAsWritten([(Exit, labels[Exit])][1..], prev).None?
  {
    assert InGrid(Exit) && Exit in parent;
  }

  /** Every depth of the path has a slot among the counts. */
  ghost predicate DepthsIndexed(pathCoords: map<Coordinates, nat>, counts: seq<nat>) {
    forall c :: c in pathCoords ==> pathCoords[c] < |counts|
  }

  /** One less, with `unsigned int` wrap-around. */
  function Decrement(n: nat): (r: nat)
    ensures n < UIntLimit ==> r < UIntLimit
    ensures 0 < n ==> r + 1 == n
  {
    if n == 0 then UIntLimit - 1 else n - 1
  }

  /** What `find_blocking_coordinate` reports for the bytes still to fall:
      bytes off the path are skipped; the first byte on the path whose
      depth has one path cell left is the answer; any other byte on the
      path leaves it, and its depth's count drops. */
  function Blocking(bytes: seq<Coordinates>, pathCoords: map<Coordinates, nat>, counts: seq<nat>): (r: Result<Coordinates>)
    requires DepthsIndexed(pathCoords, counts)
    ensures r.Ok? ==> r.value in bytes && r.value in pathCoords
    ensures r.Err? ==> r.message == NoBlock
    decreases |bytes|
  {
    if bytes == [] then Err(NoBlock)
    else if bytes[0] !in pathCoords then Blocking(bytes[1..], pathCoords, counts)
    else
      var depth := pathCoords[bytes[0]];
      if counts[depth] == 1 then Ok(bytes[0])
      else Blocking(bytes[1..], pathCoords - {bytes[0]}, counts[depth := Decrement(counts[depth])])
  }

  /** `find_blocking_coordinate`. Erasing a byte found on the path always
      removes one entry, so the exception for a failed erase is never
      thrown. */
  method FindBlockingCoordinate(fallingBytes: seq<Coordinates>, best: BestPath) returns (r: Result<Coordinates>)
    requires DepthsIndexed(best.pathCoords, best.spacesByDepth)
    ensures r == Blocking(fallingBytes, best.pathCoords, best.spacesByDepth)
  {
    var numSpacesByDepth: seq<nat> := best.spacesByDepth;
    var pathCoords := best.pathCoords;
    var bytes := fallingBytes;
    while bytes != []
      invariant DepthsIndexed(pathCoords, numSpacesByDepth)
      invariant Blocking(bytes, pathCoords, numSpacesByDepth) == Blocking(fallingBytes, best.pathCoords, best.spacesByDepth)
    {
      var newBytePosition := bytes[0];
      bytes := bytes[1..];
      if newBytePosition in pathCoords {
        var coordDepth := pathCoords[newBytePosition];
        if numSpacesByDepth[coordDepth] == 1 {
          return Ok(newBytePosition);
        }
        pathCoords := pathCoords - {newBytePosition};
        numSpacesByDepth := numSpacesByDepth[coordDepth := Decrement(numSpacesByDepth[coordDepth])];
      }
    }
    r := Err(NoBlock);
  }

  /** With one path cell at every depth, as the unwinding leaves it, the
      byte reported is the first to fall on the path, and the search fails
      only if none does. */
  lemma {:induction false} BlockingFirstOnPath(bytes: seq<Coordinates>, pathCoords: map<Coordinates, nat>, counts: seq<nat>)
    requires DepthsIndexed(pathCoords, counts)
    requires forall k :: 0 <= k < |counts| ==> counts[k] == 1
    ensures Blocking(bytes, pathCoords, counts).Ok? <==> exists i :: 0 <= i < |bytes| && bytes[i] in pathCoords
    ensures Blocking(bytes, pathCoords, counts).Ok? ==>
      exists i :: 0 <= i < |bytes| && bytes[i] == Blocking(bytes, pathCoords, counts).value &&
        forall j :: 0 <= j < i ==> bytes[j] !in pathCoords
    decreases |bytes|
  {
    if bytes != [] && bytes[0] !in pathCoords {
      var rest := bytes[1..];
      BlockingFirstOnPath(rest, pathCoords, counts);
      if exists i :: 0 <= i < |bytes| && bytes[i] in pathCoords {
        var i :| 0 <= i < |bytes| && bytes[i] in pathCoords;
        assert rest[i - 1] == bytes[i];
      }
      if Blocking(rest, pathCoords, counts).Ok? {
        var i :| 0 <= i < |rest| && rest[i] == Blocking(rest, pathCoords, counts).value &&
          forall j :: 0 <= j < i ==> rest[j] !in pathCoords;
        assert bytes[i + 1] == rest[i];
        assert forall j :: 1 <= j < i + 1 ==> bytes[j] == rest[j - 1];
      }
    } else if bytes != [] {
      assert bytes[0] in pathCoords;
    }
  }

  /** The best path's depths fit its counts, so the blocking search may
      run on it. */
  lemma BestPathIndexed(corrupted: set<Coordinates>, n: nat, best: BestPath)
    requires BestPathOf(corrupted, n, best)
    ensures DepthsIndexed(best.pathCoords, best.spacesByDepth)
    ensures forall k :: 0 <= k < |best.spacesByDepth| ==> best.spacesByDepth[k] == 1
  {
    var p :| Reaches(corrupted, p) && |p| == n + 1 && Indexes(best.pathCoords, p);
    forall c | c in best.pathCoords
      ensures best.pathCoords[c] < |best.spacesByDepth|
    {
      var k :| 0 <= k < |p| && p[k] == c;
    }
  }
}
