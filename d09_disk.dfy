/** Day 9: disk fragmentation. The dense disk map expands into one block per
    unit of length; compaction then moves file blocks, one at a time or whole
    files at a time, into free space nearer the start, and the checksum
    weighs each file block's id by its position. */
module DiskCompaction {
  import opened Outcomes
  import opened Text

  /** One block of the disk: free or part of file `id`, tagged with the
      length of the run it was created in. */
  datatype Block = Block(isEmpty: bool, id: nat, length: nat)

  // ---------------------------------------------------------------------
  // Expanding the disk map

  /** `c - '0'` as a `size_t`; a character below '0' would wrap to a length
      no vector can hold. */
  function DigitLength(c: char): nat
    requires c >= '0'
  {
    c as int - '0' as int
  }

  predicate DiskMap(disk: string)
  {
    forall k :: 0 <= k < |disk| ==> disk[k] >= '0'
  }

  function Repeat(b: Block, n: nat): (r: seq<Block>)
    ensures |r| == n && forall i :: 0 <= i < n ==> r[i] == b
  {
    seq(n, _ => b)
  }

  /** The block every unit of digit `k` becomes: digits alternate file,
      free, file, ...; the id counts the file digits before it, so a free
      run carries the id of the file after it. */
  function DigitBlock(disk: string, k: nat): Block
    requires DiskMap(disk) && k < |disk|
  {
    Block(k % 2 == 1, (k + 1) / 2, DigitLength(disk[k]))
  }

  /** The blocks of the first `k` digits. */
  function Expand(disk: string, k: nat): seq<Block>
    requires DiskMap(disk) && k <= |disk|
  {
    if k == 0 then [] else Expand(disk, k - 1) + Repeat(DigitBlock(disk, k - 1), DigitLength(disk[k - 1]))
  }

  function DigitSum(disk: string, k: nat): nat
    requires DiskMap(disk) && k <= |disk|
  {
    if k == 0 then 0 else DigitSum(disk, k - 1) + DigitLength(disk[k - 1])
  }

  /** `read_blocks_from_file` on the first line: the id rises after every
      file digit, a zero-length file included. */
  method ReadBlocks(disk: string) returns (blocks: seq<Block>)
    requires DiskMap(disk)
    ensures blocks == Expand(disk, |disk|)
  {
    blocks := [];
    var isFreeSpace := false;
    var id := 0;
    for k := 0 to |disk|
      invariant blocks == Expand(disk, k)
      invariant isFreeSpace == (k % 2 == 1) && id == (k + 1) / 2
    {
      var blockLength := DigitLength(disk[k]);
      for i := 0 to blockLength
        invariant blocks == Expand(disk, k) + Repeat(Block(isFreeSpace, id, blockLength), i)
      {
        blocks := blocks + [Block(isFreeSpace, id, blockLength)];
      }
      if !isFreeSpace {
        id := id + 1;
      }
      isFreeSpace := !isFreeSpace;
    }
  }

  /** The disk has one block per unit of every digit. */
  lemma {:induction false} ExpandLength(disk: string, k: nat)
    requires DiskMap(disk) && k <= |disk|
    ensures |Expand(disk, k)| == DigitSum(disk, k)
  {
    if k > 0 {
      ExpandLength(disk, k - 1);
    }
  }

  // ---------------------------------------------------------------------
  // Whole groups: runs of identical blocks as long as their recorded length

  /** Blocks `lo` to `hi` are all `b`. */
  predicate SameRun(s: seq<Block>, lo: nat, hi: nat, b: Block)
    requires lo <= hi <= |s|
    decreases hi
  {
    hi == lo || (s[hi - 1] == b && SameRun(s, lo, hi - 1, b))
  }

  lemma {:induction false} SameRunIff(s: seq<Block>, lo: nat, hi: nat, b: Block)
    requires lo <= hi <= |s|
    ensures SameRun(s, lo, hi, b) <==> forall i :: lo <= i < hi ==> s[i] == b
    decreases hi
  {
    if hi > lo {
      SameRunIff(s, lo, hi - 1, b);
    }
  }

  /** Blocks `lo` to `q` split into groups, each of `n` identical blocks
      whose recorded length is `n`, as the disk map creates them. */
  predicate GroupedSeg(s: seq<Block>, lo: nat, q: nat)
    requires lo <= q <= |s|
  {
    Groups(s, lo, q)
  }

  predicate Groups(s: seq<Block>, lo: nat, q: nat)
    requires lo <= q <= |s|
    decreases q
  {
    q == lo ||
    (var n := s[q - 1].length;
     1 <= n <= q - lo && SameRun(s, q - n, q, s[q - 1]) && Groups(s, lo, q - n))
  }

  /** Grouping depends only on the blocks inside the segment. */
  lemma {:induction false} GroupedFrame(s: seq<Block>, t: seq<Block>, lo: nat, q: nat)
    requires lo <= q <= |s| && q <= |t|
    requires forall i :: lo <= i < q ==> s[i] == t[i]
    ensures GroupedSeg(s, lo, q) == GroupedSeg(t, lo, q)
    decreases q
  {
    if q > lo {
      var n := s[q - 1].length;
      if 1 <= n <= q - lo {
        SameRunIff(s, q - n, q, s[q - 1]);
        SameRunIff(t, q - n, q, t[q - 1]);
        GroupedFrame(s, t, lo, q - n);
      }
    }
  }

  /** Two grouped segments side by side form one. */
  lemma {:induction false} GroupedJoin(s: seq<Block>, lo: nat, m: nat, q: nat)
    requires lo <= m <= q <= |s| && GroupedSeg(s, lo, m) && GroupedSeg(s, m, q)
    ensures GroupedSeg(s, lo, q)
    decreases q
  {
    if q > m {
      GroupedJoin(s, lo, m, q - s[q - 1].length);
    }
  }

  /** A block that differs from the one before it starts a group: the
      segment splits there, and the group is whole inside the segment. */
  lemma {:induction false} GroupStart(s: seq<Block>, lo: nat, q: nat, i: nat)
    requires lo <= i < q <= |s| && GroupedSeg(s, lo, q)
    requires i == lo || s[i - 1] != s[i]
    ensures GroupedSeg(s, lo, i) && GroupedSeg(s, i, q)
    ensures 1 <= s[i].length && i + s[i].length <= q
    ensures forall j :: i <= j < i + s[i].length ==> s[j] == s[i]
    ensures GroupedSeg(s, i + s[i].length, q)
    decreases q
  {
    var n := s[q - 1].length;
    SameRunIff(s, q - n, q, s[q - 1]);
    if i < q - n {
      GroupStart(s, lo, q - n, i);
      GroupedJoin(s, i + s[i].length, q - n, q) by {
        assert GroupedSeg(s, q - n, q) by {
          assert GroupedSeg(s, q - n, q - n);
        }
      }
      GroupedJoin(s, i, q - n, q) by {
        assert GroupedSeg(s, q - n, q) by {
          assert GroupedSeg(s, q - n, q - n);
        }
      }
    } else {
      assert i == q - n;
      assert GroupedSeg(s, i, i);
    }
  }

  /** Every block of a grouped segment has a positive length. */
  lemma {:induction false} GroupedPositive(s: seq<Block>, lo: nat, q: nat, i: nat)
    requires lo <= i < q <= |s| && GroupedSeg(s, lo, q)
    ensures s[i].length >= 1
    decreases q
  {
    SameRunIff(s, q - s[q - 1].length, q, s[q - 1]);
    if i < q - s[q - 1].length {
      GroupedPositive(s, lo, q - s[q - 1].length, i);
    }
  }

  /** The expanded disk map is grouped: each digit gives one group. */
  lemma {:induction false} ExpandGrouped(disk: string, k: nat)
    requires DiskMap(disk) && k <= |disk|
    ensures GroupedSeg(Expand(disk, k), 0, |Expand(disk, k)|)
  {
    if k > 0 {
      ExpandGrouped(disk, k - 1);
      var e := Expand(disk, k - 1);
      var r := Repeat(DigitBlock(disk, k - 1), DigitLength(disk[k - 1]));
      var s := e + r;
      GroupedFrame(e, s, 0, |e|);
      if |r| > 0 {
        assert s[|s| - 1] == DigitBlock(disk, k - 1);
        SameRunIff(s, |e|, |s|, s[|s| - 1]);
      }
    }
  }

  // ---------------------------------------------------------------------
  // Checksum

  /** `calculate_checksum` over the first `n` blocks: Σ id·i over file
      blocks, in `unsigned long`. */
  function Checksum(s: seq<Block>, n: nat): (c: nat)
    requires n <= |s|
    ensures c < ULongLimit
  {
    if n == 0 then 0
    else if s[n - 1].isEmpty then Checksum(s, n - 1)
    else (Checksum(s, n - 1) + (s[n - 1].id * (n - 1)) % ULongLimit) % ULongLimit
  }

  method CalculateChecksum(s: seq<Block>) returns (checksum: nat)
    ensures checksum == Checksum(s, |s|)
  {
    checksum := 0;
    for i := 0 to |s|
      invariant checksum == Checksum(s, i)
    {
      if s[i].isEmpty {
        continue;
      }
      checksum := (checksum + (s[i].id * i) % ULongLimit) % ULongLimit;
    }
  }

  /** Only which file sits where matters: recorded lengths, and the ids of
      free blocks, do not change the checksum. */
  lemma {:induction false} ChecksumByFiles(s: seq<Block>, t: seq<Block>, n: nat)
    requires n <= |s| && n <= |t|
    requires forall i :: 0 <= i < n ==> s[i].isEmpty == t[i].isEmpty && (!s[i].isEmpty ==> s[i].id == t[i].id)
    ensures Checksum(s, n) == Checksum(t, n)
  {
    if n > 0 {
      ChecksumByFiles(s, t, n - 1);
    }
  }

  /** A disk with no file blocks has checksum 0. */
  lemma {:induction false} ChecksumOfFreeDisk(s: seq<Block>, n: nat)
    requires n <= |s| && forall i :: 0 <= i < n ==> s[i].isEmpty
    ensures Checksum(s, n) == 0
  {
    if n > 0 {
      ChecksumOfFreeDisk(s, n - 1);
    }
  }

  // ---------------------------------------------------------------------
  // Searching for free space (`std::find_if`)

  /** The first free block in `[i, p)` recorded at least `need` long, or
      `p` when there is none. */
  function FindFrom(s: seq<Block>, i: nat, p: nat, need: nat): (e: nat)
    requires i <= p <= |s|
    ensures i <= e <= p
    decreases p - i
  {
    if i == p then p
    else if s[i].isEmpty && s[i].length >= need then i
    else FindFrom(s, i + 1, p, need)
  }

  function FindEmpty(s: seq<Block>, p: nat, need: nat): nat
    requires p <= |s|
  {
    FindFrom(s, 0, p, need)
  }

  predicate Fits(b: Block, need: nat)
  {
    b.isEmpty && b.length >= need
  }

  /** `find_if` finds the first fitting block, and nothing before it fits. */
  lemma {:induction false} FindFromFirst(s: seq<Block>, i: nat, p: nat, need: nat)
    requires i <= p <= |s|
    ensures var e := FindFrom(s, i, p, need);
      (e < p ==> Fits(s[e], need)) && forall j :: i <= j < e ==> !Fits(s[j], need)
    decreases p - i
  {
    if i < p && !Fits(s[i], need) {
      FindFromFirst(s, i + 1, p, need);
    }
  }

  // ---------------------------------------------------------------------
  // Compacting block by block

  /** Block `q` is free, or no free block precedes it. */
  ghost predicate Settled(s: seq<Block>, q: int)
    requires 0 <= q < |s|
  {
    s[q].isEmpty || forall r :: 0 <= r < q ==> !s[r].isEmpty
  }

  /** No free block comes before a file block. */
  predicate FilesFirst(s: seq<Block>)
  {
    forall i, j :: 0 <= i < j < |s| && !s[j].isEmpty ==> !s[i].isEmpty
  }

  /** One pass of `block_compact_disk` at block `q`: a file block trades
      places with the first free block before it, or with itself when there
      is none; a free block is passed over. */
  function BlockStep(s: seq<Block>, q: nat): (t: seq<Block>)
    requires q < |s|
    ensures |t| == |s|
  {
    if s[q].isEmpty then s else Swap(s, q, FindEmpty(s, q, 0))
  }

  /** `block_compact_disk` on the blocks before index `p`, from the last of
      them to the first. */
  function BlockCompact(s: seq<Block>, p: nat): (t: seq<Block>)
    requires p <= |s|
    ensures |t| == |s|
    decreases p
  {
    if p == 0 then s else BlockCompact(BlockStep(s, p - 1), p - 1)
  }

  /** A pass keeps the blocks, and the blocks from `q` on stay settled. */
  lemma BlockStepSettles(s: seq<Block>, q: nat)
    requires q < |s| && forall r :: q < r < |s| ==> Settled(s, r)
    ensures multiset(BlockStep(s, q)) == multiset(s)
    ensures forall r :: q <= r < |s| ==> Settled(BlockStep(s, q), r)
  {
    var t := BlockStep(s, q);
    if !s[q].isEmpty {
      var e := FindEmpty(s, q, 0);
      FindFromFirst(s, 0, q, 0);
      forall r | q <= r < |s|
        ensures Settled(t, r)
      {
        if e == q {
          assert t == s;
        } else if r > q {
          assert Settled(s, r);
          assert s[e].isEmpty;
        }
      }
    }
  }

  /** Compaction keeps the blocks, and leaves no free block before a file
      block. */
  lemma {:induction false} BlockCompactSettles(s: seq<Block>, p: nat)
    requires p <= |s| && forall r :: p <= r < |s| ==> Settled(s, r)
    ensures multiset(BlockCompact(s, p)) == multiset(s)
    ensures FilesFirst(BlockCompact(s, p))
    decreases p
  {
    if p == 0 {
      forall i, j | 0 <= i < j < |s| && !s[j].isEmpty
        ensures !s[i].isEmpty
      {
        assert Settled(s, j);
      }
    } else {
      BlockStepSettles(s, p - 1);
      BlockCompactSettles(BlockStep(s, p - 1), p - 1);
    }
  }

  /** Compacting the whole disk: the same blocks, files first. */
  lemma BlockCompactDiskSettles(s: seq<Block>)
    ensures multiset(BlockCompact(s, |s|)) == multiset(s)
    ensures FilesFirst(BlockCompact(s, |s|))
  {
    BlockCompactSettles(s, |s|);
  }

  /** `block_compact_disk`: from the last block to the first, each file
      block trades places with the first free block before it, or with
      itself when there is none. */
  method BlockCompactDisk(a: array<Block>)
    modifies a
    ensures a[..] == BlockCompact(old(a[..]), a.Length)
  {
    var p := a.Length;
    while p > 0
      invariant 0 <= p <= a.Length
      invariant BlockCompact(a[..], p) == BlockCompact(old(a[..]), a.Length)
    {
      p := p - 1;
      if a[p].isEmpty {
        continue;
      }
      var e := FindEmpty(a[..], p, 0);
      ghost var before := a[..];
      a[p], a[e] := a[e], a[p];
      assert a[..] == BlockStep(before, p);
    }
  }

  /** A free block between files 0 and 1: the last file block, of file 2,
      fills the gap, so file 1 is left after file 2. */
  lemma SampleBlockCompact()
    ensures BlockCompact([F(0), E(1), F(1), F(2)], 4) == [F(0), F(2), F(1), E(1)]
  {
    var s := [F(0), E(1), F(1), F(2)];
    assert FindEmpty(s, 3, 0) == 1;
    assert BlockStep(s, 3) == [F(0), F(2), F(1), E(1)];
    var t := [F(0), F(2), F(1), E(1)];
    assert FindEmpty(t, 2, 0) == 2;
    assert BlockStep(t, 2) == t;
    assert FindEmpty(t, 1, 0) == 1;
    assert BlockStep(t, 1) == t;
    assert FindEmpty(t, 0, 0) == 0;
    assert BlockStep(t, 0) == t;
  }

  // ---------------------------------------------------------------------
  // Compacting file by file

  /** How the scan steps on after moving a file: as written it advances by
      the recorded length of the block now under the iterator, which is the
      free block swapped in; corrected, it advances by the file's length. */
  datatype Mode = AsWritten | Corrected

  /** The scan's state: the blocks and the index the reverse iterator is on
      (-1 once it reaches `rend`). */
  datatype Scan = Scan(blocks: seq<Block>, cursor: int)

  predicate AllPositive(s: seq<Block>)
  {
    forall i :: 0 <= i < |s| ==> s[i].length >= 1
  }

  function Swap(s: seq<Block>, i: nat, j: nat): (t: seq<Block>)
    requires i < |s| && j < |s|
    ensures |t| == |s|
  {
    s[i := s[j]][j := s[i]]
  }

  /** The first `k` swaps of the move loop: block `p - i` with block `e + i`. */
  function SwapRuns(s: seq<Block>, p: nat, e: nat, k: nat): (t: seq<Block>)
    requires k <= p + 1 && e + k <= |s| && p < |s|
    ensures |t| == |s|
  {
    if k == 0 then s else Swap(SwapRuns(s, p, e, k - 1), p - (k - 1), e + (k - 1))
  }

  /** The length loop: the `count` blocks from `start` are given `value`. */
  function SetLengths(s: seq<Block>, start: nat, count: nat, value: nat): (t: seq<Block>)
    requires start + count <= |s|
    ensures |t| == |s|
  {
    if count == 0 then s
    else
      var t := SetLengths(s, start, count - 1, value);
      t[start + count - 1 := t[start + count - 1].(length := value)]
  }

  /** `std::advance(it, n)`; stepping past `rend` is undefined. */
  function Advance(s: seq<Block>, p: nat, n: nat): Result<Scan>
  {
    if p - n < -1 then Err("advance past rend") else Ok(Scan(s, p - n))
  }

  /** The move of the file ending at block `p` into the free run starting
      at block `e`: the swap loop, then the rest of the run re-recorded as
      the shorter run. */
  function Move(s: seq<Block>, p: nat, e: nat): (t: seq<Block>)
    requires p < |s| && e < |s| && s[p].length <= s[e].length
    requires s[p].length <= p + 1 && e + s[e].length <= |s|
    ensures |t| == |s|
  {
    var need, free := s[p].length, s[e].length;
    SetLengths(SwapRuns(s, p, e, need), e + need, free - need, free - need)
  }

  /** One pass of the loop body of `file_compact_disk` at block `p`. An
      access outside the vector is undefined and reported as an error. */
  function FileStep(s: seq<Block>, p: nat, mode: Mode): (r: Result<Scan>)
    requires p < |s| && AllPositive(s)
    ensures r.Ok? ==> |r.value.blocks| == |s| && AllPositive(r.value.blocks) && -1 <= r.value.cursor < p
  {
    var b := s[p];
    if b.isEmpty then Advance(s, p, b.length)
    else
      var need := b.length;
      var e := FindEmpty(s, p, need);
      if e == p then Advance(s, p, need)
      else
        FindFromFirst(s, 0, p, need);
        if p + 1 < need || e + s[e].length > |s| then Err("block index out of range")
        else
          var t := Move(s, p, e);
          MovePositive(s, p, e);
          Advance(t, p, if mode == Corrected then need else t[p].length)
  }

  lemma MovePositive(s: seq<Block>, p: nat, e: nat)
    requires p < |s| && e < |s| && s[p].length <= s[e].length
    requires s[p].length <= p + 1 && e + s[e].length <= |s| && AllPositive(s)
    ensures AllPositive(Move(s, p, e))
  {
    var need, free := s[p].length, s[e].length;
    SwapRunsPositive(s, p, e, need);
    SetLengthsPositive(SwapRuns(s, p, e, need), e + need, free - need, free - need);
  }

  lemma {:induction false} SwapRunsPositive(s: seq<Block>, p: nat, e: nat, k: nat)
    requires k <= p + 1 && e + k <= |s| && p < |s| && AllPositive(s)
    ensures AllPositive(SwapRuns(s, p, e, k))
  {
    if k > 0 {
      SwapRunsPositive(s, p, e, k - 1);
    }
  }

  lemma {:induction false} SetLengthsPositive(s: seq<Block>, start: nat, count: nat, value: nat)
    requires start + count <= |s| && AllPositive(s) && (count == 0 || value >= 1)
    ensures AllPositive(SetLengths(s, start, count, value))
  {
    if count > 0 {
      SetLengthsPositive(s, start, count - 1, value);
    }
  }

  /** The whole loop of `file_compact_disk` from block `p` down. */
  function FileCompact(s: seq<Block>, p: int, mode: Mode): (r: Result<seq<Block>>)
    requires -1 <= p < |s| && AllPositive(s)
    ensures r.Ok? ==> |r.value| == |s|
    decreases p + 1
  {
    if p < 0 then Ok(s)
    else
      var next :- FileStep(s, p, mode);
      FileCompact(next.blocks, next.cursor, mode)
  }

  /** One pass of the scan followed by the rest of it. */
  lemma FileCompactUnfold(s: seq<Block>, p: nat, mode: Mode)
    requires p < |s| && AllPositive(s) && FileStep(s, p, mode).Ok?
    ensures var next := FileStep(s, p, mode).value;
      FileCompact(s, p, mode) == FileCompact(next.blocks, next.cursor, mode)
  {
  }

  // ---------------------------------------------------------------------
  // What a step does to the blocks

  /** Disjoint runs of identical blocks trade places wholesale. */
  lemma {:induction false} SwapRunsAt(s: seq<Block>, p: nat, e: nat, k: nat, n: nat)
    requires k <= n && e + n <= p - n + 1 && p < |s|
    requires forall i :: e <= i < e + n ==> s[i] == s[e]
    requires forall i :: p - n < i <= p ==> s[i] == s[p]
    ensures forall i :: 0 <= i < |s| ==>
      SwapRuns(s, p, e, k)[i] == (if e <= i < e + k then s[p] else if p - k < i <= p then s[e] else s[i])
  {
    if k > 0 {
      SwapRunsAt(s, p, e, k - 1, n);
    }
  }

  lemma {:induction false} SetLengthsAt(s: seq<Block>, start: nat, count: nat, value: nat)
    requires start + count <= |s|
    ensures forall i :: 0 <= i < |s| ==>
      SetLengths(s, start, count, value)[i] == (if start <= i < start + count then s[i].(length := value) else s[i])
  {
    if count > 0 {
      SetLengthsAt(s, start, count - 1, value);
    }
  }

  /** `n` copies of a block recorded `n` long make one group. */
  lemma OneGroup(t: seq<Block>, lo: nat, n: nat)
    requires lo + n <= |t|
    requires forall i :: lo <= i < lo + n ==> t[i] == t[lo] && t[i].length == n
    ensures GroupedSeg(t, lo, lo + n)
  {
    if n > 0 {
      assert GroupedSeg(t, lo, lo);
      SameRunIff(t, lo, lo + n, t[lo + n - 1]);
    }
  }

  /** Where the blocks of a move end up, when the file and the free run
      are disjoint runs of identical blocks. */
  lemma MoveShape(s: seq<Block>, p: nat, e: nat)
    requires p < |s| && e < |s| && s[p].length <= s[e].length && s[p].length <= p + 1
    requires e + s[e].length <= p + 1 - s[p].length
    requires forall i :: e <= i < e + s[e].length ==> s[i] == s[e]
    requires forall i :: p - s[p].length < i <= p ==> s[i] == s[p]
    ensures var t, need, free := Move(s, p, e), s[p].length, s[e].length;
      (forall i :: 0 <= i < e ==> t[i] == s[i]) &&
      (forall i :: e <= i < e + need ==> t[i] == s[p]) &&
      (forall i :: e + need <= i < e + free ==> t[i] == s[e].(length := free - need)) &&
      (forall i :: e + free <= i <= p - need ==> t[i] == s[i]) &&
      (forall i :: p - need < i <= p ==> t[i] == s[e]) &&
      (forall i :: p < i < |s| ==> t[i] == s[i])
  {
    var need, free := s[p].length, s[e].length;
    var t1 := SwapRuns(s, p, e, need);
    SwapRunsAt(s, p, e, need, need);
    SetLengthsAt(t1, e + need, free - need, free - need);
  }

  /** Replacing the front of a whole free run by a whole file, and
      re-recording the rest of the run as a shorter run, keeps a grouped
      segment grouped. */
  lemma SplitRunGrouped(s: seq<Block>, t: seq<Block>, e: nat, need: nat, free: nat, m: nat, b: Block)
    requires 1 <= need <= free && e + free <= m <= |s| == |t| && b.length == need
    requires GroupedSeg(s, 0, e) && GroupedSeg(s, e + free, m)
    requires forall i :: 0 <= i < e ==> t[i] == s[i]
    requires forall i :: e <= i < e + need ==> t[i] == b
    requires forall i :: e + need <= i < e + free ==> t[i] == s[e].(length := free - need)
    requires forall i :: e + free <= i < m ==> t[i] == s[i]
    ensures GroupedSeg(t, 0, m)
  {
    GroupedFrame(s, t, 0, e);
    OneGroup(t, e, need);
    OneGroup(t, e + need, free - need);
    GroupedFrame(s, t, e + free, m);
    GroupedJoin(t, 0, e, e + need);
    GroupedJoin(t, 0, e + need, e + free);
    GroupedJoin(t, 0, e + free, m);
  }

  /** Moving a whole file into the front of a whole free run keeps the
      blocks before the file grouped: the run splits into the file's group
      and a shorter free group. */
  lemma MoveGrouped(s: seq<Block>, p: nat, e: nat)
    requires p < |s| && e < |s| && s[p].length <= s[e].length && 1 <= s[p].length <= p + 1
    requires e + s[e].length <= p + 1 - s[p].length
    requires GroupedSeg(s, 0, e) && GroupedSeg(s, e + s[e].length, p + 1 - s[p].length)
    requires forall i :: e <= i < e + s[e].length ==> s[i] == s[e]
    requires forall i :: p - s[p].length < i <= p ==> s[i] == s[p]
    ensures GroupedSeg(Move(s, p, e), 0, p + 1 - s[p].length)
  {
    var t, need, free := Move(s, p, e), s[p].length, s[e].length;
    var m := p + 1 - need;
    assert (forall i :: 0 <= i < e ==> t[i] == s[i]) &&
      (forall i :: e <= i < e + need ==> t[i] == s[p]) &&
      (forall i :: e + need <= i < e + free ==> t[i] == s[e].(length := free - need)) &&
      (forall i :: e + free <= i < m ==> t[i] == s[i]) by {
      MoveShape(s, p, e);
    }
    SplitRunGrouped(s, t, e, need, free, m, s[p]);
  }

  /** The step that moves a file, given that the move stays inside the
      vector. */
  lemma CorrectedMove(s: seq<Block>, p: nat, e: nat)
    requires p < |s| && AllPositive(s) && !s[p].isEmpty
    requires e == FindEmpty(s, p, s[p].length) && e != p
    requires s[p].length <= s[e].length && s[p].length <= p + 1 && e + s[e].length <= |s|
    ensures FileStep(s, p, Corrected) == Ok(Scan(Move(s, p, e), p - s[p].length))
  {
  }

  /** The corrected scan keeps the blocks up to its iterator grouped, so the
      iterator always rests on the last block of a whole file or free run,
      and no access leaves the vector. */
  lemma CorrectedStep(s: seq<Block>, p: nat)
    requires p < |s| && AllPositive(s) && GroupedSeg(s, 0, p + 1)
    ensures var need := s[p].length; var e := FindEmpty(s, p, need);
      if s[p].isEmpty || e == p then FileStep(s, p, Corrected) == Ok(Scan(s, p - need))
      else
        need <= s[e].length && need <= p + 1 && e + s[e].length <= |s| &&
        FileStep(s, p, Corrected) == Ok(Scan(Move(s, p, e), p - need))
    ensures FileStep(s, p, Corrected).Ok?
    ensures GroupedSeg(FileStep(s, p, Corrected).value.blocks, 0, p + 1 - s[p].length)
  {
    var b := s[p];
    var need := b.length;
    var m := p + 1 - need;
    assert GroupedSeg(s, 0, m) && SameRun(s, m, p + 1, b);
    if b.isEmpty {
      return;
    }
    var e := FindEmpty(s, p, need);
    if e == p {
      return;
    }
    SameRunIff(s, m, p + 1, b);
    FindFromFirst(s, 0, p, need);
    assert e < m by {
      assert forall i :: m <= i <= p ==> !Fits(s[i], need);
    }
    if e > 0 {
      assert !Fits(s[e - 1], need);
    }
    GroupStart(s, 0, m, e);
    MoveGrouped(s, p, e);
    CorrectedMove(s, p, e);
  }

  /** On a grouped disk, as the disk map produces, the corrected scan
      never leaves the vector. */
  lemma {:induction false} CorrectedNeverFails(s: seq<Block>, p: int)
    requires -1 <= p < |s| && AllPositive(s) && GroupedSeg(s, 0, p + 1)
    ensures FileCompact(s, p, Corrected).Ok?
    decreases p + 1
  {
    if p >= 0 {
      CorrectedStep(s, p);
      var next := FileStep(s, p, Corrected).value;
      CorrectedNeverFails(next.blocks, next.cursor);
    }
  }

  /** The expanded disk map satisfies what the corrected scan needs. */
  lemma ExpandReady(disk: string)
    requires DiskMap(disk)
    ensures var s := Expand(disk, |disk|);
      AllPositive(s) && GroupedSeg(s, 0, |s|)
  {
    var s := Expand(disk, |disk|);
    ExpandGrouped(disk, |disk|);
    forall i | 0 <= i < |s|
      ensures s[i].length >= 1
    {
      GroupedPositive(s, 0, |s|, i);
    }
  }

  // ---------------------------------------------------------------------
  // Which file blocks exist never changes

  /** Free or file, and which file: what compaction must keep. */
  function Tags(s: seq<Block>): (t: seq<(bool, nat)>)
    ensures |t| == |s|
  {
    seq(|s|, i requires 0 <= i < |s| => (s[i].isEmpty, s[i].id))
  }

  lemma SwapTags(s: seq<Block>, i: nat, j: nat)
    requires i < |s| && j < |s|
    ensures multiset(Tags(Swap(s, i, j))) == multiset(Tags(s))
  {
    var t := Tags(s);
    assert Tags(Swap(s, i, j)) == t[i := t[j]][j := t[i]];
  }

  lemma {:induction false} SwapRunsTags(s: seq<Block>, p: nat, e: nat, k: nat)
    requires k <= p + 1 && e + k <= |s| && p < |s|
    ensures multiset(Tags(SwapRuns(s, p, e, k))) == multiset(Tags(s))
  {
    if k > 0 {
      SwapRunsTags(s, p, e, k - 1);
      SwapRunsTagsStep(s, p, e, k);
    }
  }

  lemma SwapRunsTagsStep(s: seq<Block>, p: nat, e: nat, k: nat)
    requires 0 < k <= p + 1 && e + k <= |s| && p < |s|
    ensures multiset(Tags(SwapRuns(s, p, e, k))) == multiset(Tags(SwapRuns(s, p, e, k - 1)))
  {
    SwapTags(SwapRuns(s, p, e, k - 1), p - (k - 1), e + (k - 1));
  }

  lemma {:induction false} SetLengthsTags(s: seq<Block>, start: nat, count: nat, value: nat)
    requires start + count <= |s|
    ensures Tags(SetLengths(s, start, count, value)) == Tags(s)
  {
    if count > 0 {
      SetLengthsTags(s, start, count - 1, value);
    }
  }

  lemma MoveTags(s: seq<Block>, p: nat, e: nat)
    requires p < |s| && e < |s| && s[p].length <= s[e].length
    requires s[p].length <= p + 1 && e + s[e].length <= |s|
    ensures multiset(Tags(Move(s, p, e))) == multiset(Tags(s))
  {
    var need, free := s[p].length, s[e].length;
    SwapRunsTags(s, p, e, need);
    SetLengthsTags(SwapRuns(s, p, e, need), e + need, free - need, free - need);
  }

  /** A step only moves blocks around and rewrites recorded lengths. */
  lemma FileStepTags(s: seq<Block>, p: nat, mode: Mode)
    requires p < |s| && AllPositive(s) && FileStep(s, p, mode).Ok?
    ensures multiset(Tags(FileStep(s, p, mode).value.blocks)) == multiset(Tags(s))
  {
    var b := s[p];
    if !b.isEmpty {
      var need := b.length;
      var e := FindEmpty(s, p, need);
      if e != p {
        FindFromFirst(s, 0, p, need);
        MoveTags(s, p, e);
      }
    }
  }

  /** Compaction, as written or corrected, keeps the length of the disk and
      the number of blocks of every file. */
  lemma {:induction false} FileCompactTags(s: seq<Block>, p: int, mode: Mode)
    requires -1 <= p < |s| && AllPositive(s) && FileCompact(s, p, mode).Ok?
    ensures multiset(Tags(FileCompact(s, p, mode).value)) == multiset(Tags(s))
    decreases p + 1
  {
    if p >= 0 {
      FileStepTags(s, p, mode);
      var next := FileStep(s, p, mode).value;
      FileCompactTags(next.blocks, next.cursor, mode);
    }
  }

  // ---------------------------------------------------------------------
  // The imperative scan

  /** `file_compact_disk` with the iterator advanced by the length read
      before the move: each file is tried once, from the last to the first,
      and moved whole into the leftmost free run before it that is long
      enough; the rest of that run is re-recorded as the shorter run. */
  method FileCompactDisk(a: array<Block>)
    requires AllPositive(a[..]) && GroupedSeg(a[..], 0, a.Length)
    modifies a
    ensures FileCompact(old(a[..]), a.Length - 1, Corrected) == Ok(a[..])
  {
    var p := a.Length - 1;
    while p >= 0
      invariant -1 <= p < a.Length
      invariant AllPositive(a[..]) && GroupedSeg(a[..], 0, p + 1)
      invariant FileCompact(a[..], p, Corrected) == FileCompact(old(a[..]), a.Length - 1, Corrected)
      decreases p + 1
    {
      ghost var s := a[..];
      assert FileStep(s, p, Corrected).Ok? by {
        CorrectedStep(s, p);
      }
      ghost var next := FileStep(s, p, Corrected).value;
      assert next.cursor == p - s[p].length && GroupedSeg(next.blocks, 0, next.cursor + 1)
        && FileCompact(s, p, Corrected) == FileCompact(next.blocks, next.cursor, Corrected) by {
        CorrectedStep(s, p);
        FileCompactUnfold(s, p, Corrected);
      }
      var b := a[p];
      var e := p;
      if !b.isEmpty {
        e := FindEmpty(a[..], p, b.length);
      }
      if e != p {
        assert b.length <= a[e].length && b.length <= p + 1 && e + a[e].length <= a.Length
          && next.blocks == Move(s, p, e) by {
          CorrectedStep(s, p);
        }
        MoveFile(a, p, e);
      } else {
        assert next.blocks == s by {
          CorrectedStep(s, p);
        }
      }
      p := p - b.length;
    }
  }

  /** The move of a whole file into the front of a free run, in place. */
  method MoveFile(a: array<Block>, p: nat, e: nat)
    requires p < a.Length && e < a.Length && a[p].length <= a[e].length
    requires a[p].length <= p + 1 && e + a[e].length <= a.Length
    modifies a
    ensures a[..] == Move(old(a[..]), p, e)
  {
    var need, free := a[p].length, a[e].length;
    SwapRunsInPlace(a, p, e, need);
    SetLengthsInPlace(a, e + need, free - need, free - need);
  }

  /** The swap loop: `need` blocks from `p` leftwards trade places with
      `need` blocks from `e` rightwards, pair by pair. */
  method SwapRunsInPlace(a: array<Block>, p: nat, e: nat, need: nat)
    requires need <= p + 1 && e + need <= a.Length && p < a.Length
    modifies a
    ensures a[..] == SwapRuns(old(a[..]), p, e, need)
  {
    var i := 0;
    while i < need
      invariant 0 <= i <= need
      invariant a[..] == SwapRuns(old(a[..]), p, e, i)
    {
      a[p - i], a[e + i] := a[e + i], a[p - i];
      i := i + 1;
    }
  }

  /** The length loop after a move. */
  method SetLengthsInPlace(a: array<Block>, start: nat, count: nat, value: nat)
    requires start + count <= a.Length
    modifies a
    ensures a[..] == SetLengths(old(a[..]), start, count, value)
  {
    var j := 0;
    while j < count
      invariant 0 <= j <= count
      invariant a[..] == SetLengths(old(a[..]), start, j, value)
    {
      a[start + j] := a[start + j].(length := value);
      j := j + 1;
    }
  }

  // ---------------------------------------------------------------------
  // The disk map "13101"

  /** Blocks "0...12": file 0, a free run of three, file 1, an empty free
      run, file 2. */
  const SampleDisk: string := "13101"

  function F(id: nat): Block { Block(false, id, 1) }
  function E(length: nat): Block { Block(true, 1, length) }

  const Sample0: seq<Block> := [F(0), E(3), E(3), E(3), F(1), F(2)]
  /** After file 2 moved into the run of three. */
  const Sample1: seq<Block> := [F(0), F(2), E(2), E(2), F(1), E(3)]
  /** After file 1 moved into the run of two. */
  const Sample2: seq<Block> := [F(0), F(2), F(1), E(1), E(2), E(3)]

  lemma SampleExpands()
    ensures Expand(SampleDisk, 5) == Sample0
  {
  }

  /** The first pass is the same either way: file 2 moves into the run of
      three and the last two blocks of the run are re-recorded as two long. */
  lemma SampleFirstMove()
    ensures Move(Sample0, 5, 1) == Sample1
  {
    var t := [F(0), F(2), E(3), E(3), F(1), E(3)];
    assert SwapRuns(Sample0, 5, 1, 1) == t;
    assert SetLengths(t, 2, 1, 2) == [F(0), F(2), E(2), E(3), F(1), E(3)];
  }

  lemma SampleSecondMove()
    ensures Move(Sample1, 4, 2) == Sample2
  {
    var t := [F(0), F(2), F(1), E(2), E(2), E(3)];
    assert SwapRuns(Sample1, 4, 2, 1) == t;
    assert SetLengths(t, 3, 1, 1) == Sample2;
  }

  /** The first pass is the same either way, but the iterator then moves by
      the length of the block now at `p`: as written, three; corrected, one. */
  lemma SampleFirstStep(mode: Mode)
    ensures FileStep(Sample0, 5, mode) == Ok(Scan(Sample1, if mode == Corrected then 4 else 2))
  {
    assert FindEmpty(Sample0, 5, 1) == 1;
    SampleFirstMove();
  }

  /** As written, moving file 2 into the run of three advances the iterator
      by three, past file 1, onto block 2, the middle of a free run; file 1
      is never tried although two free blocks now lie before it, and the
      checksum is 6. */
  lemma AsWrittenSkipsFile()
    ensures FileCompact(Expand(SampleDisk, 5), 5, AsWritten) == Ok(Sample1)
    ensures !GroupedSeg(Sample1, 0, 3)
  {
    SampleExpands();
    SampleFirstStep(AsWritten);
    FileCompactUnfold(Sample0, 5, AsWritten);
    assert FileStep(Sample1, 2, AsWritten) == Ok(Scan(Sample1, 0));
    FileCompactUnfold(Sample1, 2, AsWritten);
    assert FindEmpty(Sample1, 0, 1) == 0;
    assert FileStep(Sample1, 0, AsWritten) == Ok(Scan(Sample1, -1));
    FileCompactUnfold(Sample1, 0, AsWritten);
    assert Sample1[1] != Sample1[2];
  }

  lemma SampleSecondStep()
    ensures FileStep(Sample1, 4, Corrected) == Ok(Scan(Sample2, 3))
  {
    assert FindEmpty(Sample1, 4, 1) == 2;
    SampleSecondMove();
  }

  /** Nothing moves after file 1: every remaining block is free or already
      leftmost. */
  lemma SampleSettled()
    ensures FileCompact(Sample2, 3, Corrected) == Ok(Sample2)
  {
    assert FileStep(Sample2, 3, Corrected) == Ok(Scan(Sample2, 2));
    FileCompactUnfold(Sample2, 3, Corrected);
    assert FindEmpty(Sample2, 2, 1) == 2;
    assert FileStep(Sample2, 2, Corrected) == Ok(Scan(Sample2, 1));
    FileCompactUnfold(Sample2, 2, Corrected);
    assert FindEmpty(Sample2, 1, 1) == 1;
    assert FileStep(Sample2, 1, Corrected) == Ok(Scan(Sample2, 0));
    FileCompactUnfold(Sample2, 1, Corrected);
    assert FindEmpty(Sample2, 0, 1) == 0;
    assert FileStep(Sample2, 0, Corrected) == Ok(Scan(Sample2, -1));
    FileCompactUnfold(Sample2, 0, Corrected);
  }

  /** Corrected, the iterator steps onto file 1, which moves into the two
      free blocks; the checksum is 4. */
  lemma CorrectedMovesFile()
    ensures FileCompact(Expand(SampleDisk, 5), 5, Corrected) == Ok(Sample2)
  {
    SampleExpands();
    SampleFirstStep(Corrected);
    FileCompactUnfold(Sample0, 5, Corrected);
    SampleSecondStep();
    FileCompactUnfold(Sample1, 4, Corrected);
    SampleSettled();
  }

  /** The checksums of the two results: 6 as written, 4 corrected. */
  lemma SampleChecksums()
    ensures Checksum(Sample1, 6) == 6 && Checksum(Sample2, 6) == 4
  {
    assert Checksum(Sample1, 2) == 2;
    assert Checksum(Sample1, 4) == 2;
    assert Checksum(Sample1, 5) == 6;
    assert Checksum(Sample2, 3) == 4;
    assert Checksum(Sample2, 5) == 4;
  }
}
