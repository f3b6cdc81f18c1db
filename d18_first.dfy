/** Day 18, the first revision: each cell of the 71 by 71 memory space
    holds its status and its search marks together. After 1024 bytes have
    fallen, a breadth-first search from the top-left cell gives the fewest
    steps to the bottom-right one. */
module RamRunFirst {
  import opened Outcomes
  import opened MemoryCoordinates
  import opened MemorySearch
  import RamRun

  /** How many bytes fall before the search. */
  const BytesToSimulate: nat := 1024

  /** One cell: its status, whether the search reached it, and in how many
      steps. */
  datatype Space = Space(status: RamRun.SpaceStatus, isPathed: bool, pathLength: nat)

  /** The space a cell holds for a set of corrupted cells and a labelling:
      reached cells hold their label, all others a path length of 0. */
  function SpaceOf(corrupted: set<Coordinates>, labels: map<Coordinates, nat>, c: Coordinates): Space {
    Space(if c in corrupted then RamRun.Corrupted else RamRun.Safe, c in labels, if c in labels then labels[c] else 0)
  }

  /** The whole memory space holds `corrupted` and `labels`. */
  ghost predicate Spaces(memory: array2<Space>, corrupted: set<Coordinates>, labels: map<Coordinates, nat>)
    reads memory
  {
    RamRun.SpaceSized(memory) &&
    forall c {:trigger memory[c.x, c.y]} :: InGrid(c) ==> memory[c.x, c.y] == SpaceOf(corrupted, labels, c)
  }

  /** The cells a byte has corrupted. */
  ghost function CorruptedSpaces(memory: array2<Space>): (s: set<Coordinates>)
    reads memory
    requires RamRun.SpaceSized(memory)
    ensures forall c :: c in s ==> InGrid(c)
    ensures forall c {:trigger memory[c.x, c.y]} :: InGrid(c) ==> (memory[c.x, c.y].status == RamRun.Corrupted <==> c in s)
  {
    var s := set x: nat, y: nat | x < MaxWidth && y < MaxHeight && memory[x, y].status == RamRun.Corrupted :: Coordinates(x, y);
    assert forall c :: InGrid(c) ==> c == Coordinates(c.x, c.y);
    s
  }

  /** The marks `main` leaves before the search: only the start reached,
      every path length 0. */
  ghost predicate Unsearched(memory: array2<Space>)
    reads memory
  {
    RamRun.SpaceSized(memory) &&
    forall c {:trigger memory[c.x, c.y]} :: InGrid(c) ==> memory[c.x, c.y].isPathed == (c == Start) && memory[c.x, c.y].pathLength == 0
  }

  /** `simulate_falling_byte`: the byte at the front of the queue is taken
      off it and corrupts its own cell; nothing else changes. An empty queue
      or a byte outside the space is undefined behaviour in the source, so
      the model demands neither happens. */
  method SimulateFallingByte(fallingBytes: seq<Coordinates>, memory: array2<Space>) returns (rest: seq<Coordinates>)
    requires RamRun.SpaceSized(memory)
    requires fallingBytes != [] && InGrid(fallingBytes[0])
    modifies memory
    ensures rest == fallingBytes[1..]
    ensures memory[fallingBytes[0].x, fallingBytes[0].y] == old(memory[fallingBytes[0].x, fallingBytes[0].y]).(status := RamRun.Corrupted)
    ensures forall x, y :: 0 <= x < MaxWidth && 0 <= y < MaxHeight && (x != fallingBytes[0].x || y != fallingBytes[0].y) ==>
      memory[x, y] == old(memory[x, y])
    ensures CorruptedSpaces(memory) == old(CorruptedSpaces(memory)) + {fallingBytes[0]}
    ensures old(Unsearched(memory)) ==> Unsearched(memory)
  {
    var position := fallingBytes[0];
    rest := fallingBytes[1..];
    memory[position.x, position.y] := memory[position.x, position.y].(status := RamRun.Corrupted);
  }

  /** `main`: a fresh memory space with the start marked reached, the
      first 1024 bytes fallen, then `calculate_min_path`. It throws exactly
      when those bytes cut the exit off; otherwise it gives the fewest steps
      to the exit. Fewer than 1024 bytes, or one outside the space, is
      undefined behaviour in the source. */
  method MinPathAfterFalling(fallingBytes: seq<Coordinates>) returns (r: Result<nat>)
    requires BytesToSimulate <= |fallingBytes| && forall i :: 0 <= i < BytesToSimulate ==> InGrid(fallingBytes[i])
    ensures r.Err? <==> !Reachable(set i | 0 <= i < BytesToSimulate :: fallingBytes[i])
    ensures r.Err? ==> r.message == RamRun.NoPath
    ensures r.Ok? ==> ShortestWalk(set i | 0 <= i < BytesToSimulate :: fallingBytes[i], r.value)
  {
    var memory := new Space[MaxWidth, MaxHeight]((_, _) => Space(RamRun.Safe, false, 0));
    memory[0, 0] := memory[0, 0].(isPathed := true);
    assert CorruptedSpaces(memory) == {};
    forall c | InGrid(c) && c != Start
      ensures !memory[c.x, c.y].isPathed
    {
      assert c.x != 0 || c.y != 0;
    }
    var rest := fallingBytes;
    var simulated := 0;
    while simulated < BytesToSimulate
      invariant simulated <= BytesToSimulate && rest == fallingBytes[simulated..]
      invariant Unsearched(memory)
      invariant CorruptedSpaces(memory) == set i | 0 <= i < simulated :: fallingBytes[i]
    {
      rest := SimulateFallingByte(rest, memory);
      assert (set i | 0 <= i < simulated + 1 :: fallingBytes[i]) == (set i | 0 <= i < simulated :: fallingBytes[i]) + {fallingBytes[simulated]};
      simulated := simulated + 1;
    }
    r := CalculateMinPath(memory);
  }

  /** The cell `adjacentCoord` marked reached, one step further than
      `coordinate`; its status is untouched. */
  method MarkPathed(memory: array2<Space>, ghost corrupted: set<Coordinates>, ghost labels: map<Coordinates, nat>,
                    coordinate: Coordinates, adjacentCoord: Coordinates)
    requires Spaces(memory, corrupted, labels)
    requires InGrid(coordinate) && coordinate in labels && InGrid(adjacentCoord) && adjacentCoord !in labels
    modifies memory
    ensures Spaces(memory, corrupted, labels[adjacentCoord := labels[coordinate] + 1])
  {
    var length := memory[coordinate.x, coordinate.y].pathLength + 1;
    memory[adjacentCoord.x, adjacentCoord.y] := memory[adjacentCoord.x, adjacentCoord.y].(isPathed := true, pathLength := length);
    forall c | InGrid(c) && c != adjacentCoord
      ensures memory[c.x, c.y] == old(memory[c.x, c.y])
    {
      assert c.x != adjacentCoord.x || c.y != adjacentCoord.y;
    }
  }

  /** One pass of the loop of `queue_adjacent_spaces`: a neighbour of
      `coordinate` that is neither reached nor corrupted is marked reached
      and queued; if it is the exit, the queue is emptied and the search
      has found a shortest walk. The cell `coordinate` was reached from is
      not stored in this revision; `parent` keeps it as a ghost. */
  method QueueAdjacentSpace(memory: array2<Space>, queue: seq<Coordinates>, coordinate: Coordinates,
                            adjacentCoord: Coordinates, ghost corrupted: set<Coordinates>,
                            ghost labels: map<Coordinates, nat>, ghost parent: map<Coordinates, Coordinates>, ghost m: nat)
    returns (queue': seq<Coordinates>, ghost labels': map<Coordinates, nat>,
             ghost parent': map<Coordinates, Coordinates>, exitFound: bool)
    requires Spaces(memory, corrupted, labels)
    requires Level(corrupted, labels, parent, [coordinate] + queue, m) && coordinate in labels && labels[coordinate] == m
    requires Neighbour(coordinate, adjacentCoord)
    modifies memory
    ensures Spaces(memory, corrupted, labels') && Labelled(corrupted, labels', parent')
    ensures labels.Keys <= labels'.Keys && (queue' == queue || labels.Keys < labels'.Keys)
    ensures forall c :: c in labels ==> labels'[c] == labels[c]
    ensures adjacentCoord !in corrupted ==> adjacentCoord in labels' && labels'[adjacentCoord] <= m + 1
    ensures exitFound ==> queue' == [] && Exit in labels' && ShortestWalk(corrupted, labels'[Exit])
    ensures !exitFound ==> Level(corrupted, labels', parent', [coordinate] + queue', m)
  {
    queue', labels', parent', exitFound := queue, labels, parent, false;
    var space := memory[adjacentCoord.x, adjacentCoord.y];
    if space.isPathed || space.status == RamRun.Corrupted {
      return;
    }
    MarkPathed(memory, corrupted, labels, coordinate, adjacentCoord);
    MarkLabelled(corrupted, labels, parent, coordinate, adjacentCoord, m + 1);
    if adjacentCoord == Exit {
      ExitShortest(corrupted, labels, parent, [coordinate] + queue, m);
    } else {
      MarkKeepsLevel(corrupted, labels, parent, [coordinate] + queue, m, adjacentCoord);
      HeadedQueue(coordinate, queue, adjacentCoord);
    }
    labels', parent' := labels[adjacentCoord := m + 1], parent[adjacentCoord := coordinate];
    queue' := queue + [adjacentCoord];
    if adjacentCoord.x == MaxWidth - 1 && adjacentCoord.y == MaxHeight - 1 {
      queue' := [];
      exitFound := true;
    }
  }

  /** The loop of `queue_adjacent_spaces` over the neighbours of
      `coordinate`, stopping early when the exit is reached. */
  method ScanAdjacent(memory: array2<Space>, queue: seq<Coordinates>, coordinate: Coordinates,
                      ghost corrupted: set<Coordinates>, ghost labels: map<Coordinates, nat>,
                      ghost parent: map<Coordinates, Coordinates>, ghost m: nat)
    returns (queue': seq<Coordinates>, ghost labels': map<Coordinates, nat>,
             ghost parent': map<Coordinates, Coordinates>, exitFound: bool)
    requires Spaces(memory, corrupted, labels)
    requires Level(corrupted, labels, parent, [coordinate] + queue, m) && coordinate in labels && labels[coordinate] == m
    modifies memory
    ensures Spaces(memory, corrupted, labels') && Labelled(corrupted, labels', parent')
    ensures labels.Keys <= labels'.Keys && (queue' == queue || labels.Keys < labels'.Keys)
    ensures exitFound ==> queue' == [] && Exit in labels' && ShortestWalk(corrupted, labels'[Exit])
    ensures !exitFound ==> Level(corrupted, labels', parent', [coordinate] + queue', m)
    ensures !exitFound ==> coordinate in labels' && labels'[coordinate] == m
    ensures !exitFound ==> forall w :: Neighbour(coordinate, w) && w !in corrupted ==> w in labels' && labels'[w] <= m + 1
  {
    var adjacent := AdjacentCoordinates(coordinate);
    queue', labels', parent', exitFound := queue, labels, parent, false;
    for i := 0 to |adjacent|
      invariant Spaces(memory, corrupted, labels')
      invariant labels.Keys <= labels'.Keys && (queue' == queue || labels.Keys < labels'.Keys)
      invariant Level(corrupted, labels', parent', [coordinate] + queue', m) && coordinate in labels' && labels'[coordinate] == m
      invariant forall j :: 0 <= j < i && adjacent[j] !in corrupted ==> adjacent[j] in labels' && labels'[adjacent[j]] <= m + 1
    {
      ghost var before := labels';
      queue', labels', parent', exitFound :=
        QueueAdjacentSpace(memory, queue', coordinate, adjacent[i], corrupted, labels', parent', m);
      if exitFound {
        return;
      }
      RamRun.ScanStep(adjacent, i, corrupted, before, labels', m);
    }
    RamRun.ScannedNeighbours(coordinate, corrupted, labels', m);
  }

  /** `queue_adjacent_spaces`: every neighbour of `coordinate` that is
      neither reached nor corrupted is marked reached, one step further than
      `coordinate`, and is queued. Reaching the exit empties the queue and
      stops. */
  method QueueAdjacentSpaces(memory: array2<Space>, queue: seq<Coordinates>, coordinate: Coordinates,
                             ghost corrupted: set<Coordinates>, ghost labels: map<Coordinates, nat>,
                             ghost parent: map<Coordinates, Coordinates>, ghost m: nat)
    returns (queue': seq<Coordinates>, ghost labels': map<Coordinates, nat>,
             ghost parent': map<Coordinates, Coordinates>, ghost m': nat)
    requires Spaces(memory, corrupted, labels)
    requires Level(corrupted, labels, parent, [coordinate] + queue, m) && coordinate in labels && labels[coordinate] == m
    modifies memory
    ensures Spaces(memory, corrupted, labels') && Labelled(corrupted, labels', parent')
    ensures labels.Keys <= labels'.Keys && (queue' == queue || labels.Keys < labels'.Keys)
    ensures Exit in labels' ==> queue' == [] && ShortestWalk(corrupted, labels'[Exit])
    ensures Exit !in labels' ==> Level(corrupted, labels', parent', queue', m') && (queue' != [] ==> labels'[queue'[0]] == m')
  {
    var exitFound;
    queue', labels', parent', exitFound := ScanAdjacent(memory, queue, coordinate, corrupted, labels, parent, m);
    m' := m;
    if !exitFound {
      CloseFirst(corrupted, labels', parent', [coordinate] + queue', m);
      HeadedQueue(coordinate, queue', coordinate);
      m' := if queue' == [] then m else labels'[queue'[0]];
    }
  }

  /** `calculate_min_path`: the search from the start and the exit's path
      length. The source relies on `main` having left only the start
      reached. It throws exactly when no walk reaches the exit; otherwise it
      gives the fewest steps to the exit. No status changes. */
  method CalculateMinPath(memory: array2<Space>) returns (r: Result<nat>)
    requires Unsearched(memory)
    modifies memory
    ensures CorruptedSpaces(memory) == old(CorruptedSpaces(memory))
    ensures r.Err? <==> !Reachable(old(CorruptedSpaces(memory)))
    ensures r.Err? ==> r.message == RamRun.NoPath
    ensures r.Ok? ==> ShortestWalk(old(CorruptedSpaces(memory)), r.value)
  {
    ghost var corrupted := CorruptedSpaces(memory);
    UnsearchedSpaces(memory);
    Initial(corrupted);
    var queue;
    ghost var labels: map<Coordinates, nat>, parent: map<Coordinates, Coordinates>, m: nat;
    queue, labels, parent, m := QueueAdjacentSpaces(memory, [], Start, corrupted, map[Start := 0], map[], 0);
    labels, parent, m := SearchQueue(memory, queue, corrupted, labels, parent, m);
    r := MinPathFrom(memory, corrupted, labels, parent, m);
    SpacesCorrupted(memory, corrupted, labels);
  }

  /** Before the search, the space holds its corrupted cells and the
      labelling of the start alone. */
  lemma UnsearchedSpaces(memory: array2<Space>)
    requires Unsearched(memory)
    ensures Spaces(memory, CorruptedSpaces(memory), map[Start := 0])
  {
  }

  /** The corrupted cells are read back from a space that holds them. */
  lemma SpacesCorrupted(memory: array2<Space>, corrupted: set<Coordinates>, labels: map<Coordinates, nat>)
    requires Spaces(memory, corrupted, labels) && forall c :: c in corrupted ==> InGrid(c)
    ensures CorruptedSpaces(memory) == corrupted
  {
  }

  /** The loop of `calculate_min_path`: the cell at the front of the queue
      is taken off and its neighbours queued, until the queue is empty. */
  method SearchQueue(memory: array2<Space>, queue: seq<Coordinates>, ghost corrupted: set<Coordinates>,
                     ghost labels: map<Coordinates, nat>, ghost parent: map<Coordinates, Coordinates>, ghost m: nat)
    returns (ghost labels': map<Coordinates, nat>, ghost parent': map<Coordinates, Coordinates>, ghost m': nat)
    requires Spaces(memory, corrupted, labels) && Labelled(corrupted, labels, parent)
    requires Exit in labels ==> queue == [] && ShortestWalk(corrupted, labels[Exit])
    requires Exit !in labels ==> Level(corrupted, labels, parent, queue, m) && (queue != [] ==> labels[queue[0]] == m)
    modifies memory
    ensures Spaces(memory, corrupted, labels') && Labelled(corrupted, labels', parent')
    ensures Exit in labels' ==> ShortestWalk(corrupted, labels'[Exit])
    ensures Exit !in labels' ==> Level(corrupted, labels', parent', [], m')
  {
    var queue' := queue;
    labels', parent', m' := labels, parent, m;
    while queue' != []
      invariant Spaces(memory, corrupted, labels') && Labelled(corrupted, labels', parent')
      invariant Exit in labels' ==> queue' == [] && ShortestWalk(corrupted, labels'[Exit])
      invariant Exit !in labels' ==> Level(corrupted, labels', parent', queue', m') && (queue' != [] ==> labels'[queue'[0]] == m')
      decreases Cells - labels'.Keys, |queue'|
    {
      queue', labels', parent', m' := SearchStep(memory, queue', corrupted, labels', parent', m');
    }
  }

  /** One round of the loop of `calculate_min_path`: the front of the
      queue is taken off and its neighbours queued. Either a cell is newly
      reached or the queue gets shorter. */
  method SearchStep(memory: array2<Space>, queue: seq<Coordinates>, ghost corrupted: set<Coordinates>,
                    ghost labels: map<Coordinates, nat>, ghost parent: map<Coordinates, Coordinates>, ghost m: nat)
    returns (queue': seq<Coordinates>, ghost labels': map<Coordinates, nat>,
             ghost parent': map<Coordinates, Coordinates>, ghost m': nat)
    requires Spaces(memory, corrupted, labels)
    requires queue != [] && Exit !in labels && Level(corrupted, labels, parent, queue, m) && labels[queue[0]] == m
    modifies memory
    ensures Spaces(memory, corrupted, labels') && Labelled(corrupted, labels', parent')
    ensures Exit in labels' ==> queue' == [] && ShortestWalk(corrupted, labels'[Exit])
    ensures Exit !in labels' ==> Level(corrupted, labels', parent', queue', m') && (queue' != [] ==> labels'[queue'[0]] == m')
    ensures Cells - labels'.Keys < Cells - labels.Keys || (labels'.Keys == labels.Keys && |queue'| < |queue|)
  {
    var current := queue[0];
    FrontAndRest(queue);
    queue', labels', parent', m' := QueueAdjacentSpaces(memory, queue[1..], current, corrupted, labels, parent, m);
    if labels.Keys < labels'.Keys {
      FewerUnlabelled(labels.Keys, labels'.Keys);
    }
  }

  /** The end of `calculate_min_path`, once the queue is empty: the exit's
      path length is 0 exactly when the search never reached it. */
  method MinPathFrom(memory: array2<Space>, ghost corrupted: set<Coordinates>, ghost labels: map<Coordinates, nat>,
                     ghost parent: map<Coordinates, Coordinates>, ghost m: nat)
    returns (r: Result<nat>)
    requires Spaces(memory, corrupted, labels) && Labelled(corrupted, labels, parent)
    requires Exit in labels ==> ShortestWalk(corrupted, labels[Exit])
    requires Exit !in labels ==> Level(corrupted, labels, parent, [], m)
    ensures r.Err? <==> !Reachable(corrupted)
    ensures r.Err? ==> r.message == RamRun.NoPath
    ensures r.Ok? ==> ShortestWalk(corrupted, r.value)
  {
    var minPath := memory[MaxWidth - 1, MaxHeight - 1].pathLength;
    assert memory[Exit.x, Exit.y] == SpaceOf(corrupted, labels, Exit);
    if minPath == 0 {
      if Exit in labels {
        LabelledExit(corrupted, labels, parent);
      }
      Exhausted(corrupted, labels, parent, m);
      return Err(RamRun.NoPath);
    }
    LabelledExit(corrupted, labels, parent);
    r := Ok(minPath);
  }
}
