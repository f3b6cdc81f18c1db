/** Day 4: the word search. Each cell of the puzzle is the start of up to
    eight occurrences of "XMAS", one per direction. */
module WordSearch {
  /** Rows of characters, read line by line. */
  type Puzzle = seq<seq<char>>

  const Word: string := "XMAS"

  /** The eight direction vectors as (row step, column step), in the order
      `num_adjacent_words` tries them. */
  const Directions: seq<(int, int)> :=
    [(-1, 0), (0, 1), (0, -1), (1, 0), (1, 1), (-1, -1), (-1, 1), (1, -1)]

  /** Row 0 fixes the width the bounds test uses; a shorter later row would be
      read past its end, so every row must be at least that wide. */
  predicate WellFormed(p: Puzzle)
  {
    |p| > 0 && forall r :: 0 <= r < |p| ==> |p[r]| >= |p[0]|
  }

  /** `valid_coords`: inside the rows and inside the width of row 0. */
  predicate ValidCoords(p: Puzzle, y: int, x: int)
    requires |p| > 0
  {
    0 <= y < |p| && 0 <= x < |p[0]|
  }

  /** Letter `i` of the word lies at step `i` along direction `d`. */
  predicate LetterAt(p: Puzzle, y: int, x: int, d: (int, int), i: nat)
    requires WellFormed(p) && i < |Word|
  {
    var ny, nx := y + d.0 * i, x + d.1 * i;
    ValidCoords(p, ny, nx) && p[ny][nx] == Word[i]
  }

  /** The whole word reads from (y, x) along `d`. */
  predicate WordAlong(p: Puzzle, y: int, x: int, d: (int, int))
    requires WellFormed(p)
  {
    forall i :: 0 <= i < |Word| ==> LetterAt(p, y, x, d, i)
  }

  /** How many of the first `k` directions carry the word. */
  function CountAlong(p: Puzzle, y: int, x: int, k: nat): (n: nat)
    requires WellFormed(p) && k <= |Directions|
    ensures n <= k
  {
    if k == 0 then 0
    else CountAlong(p, y, x, k - 1) + (if WordAlong(p, y, x, Directions[k - 1]) then 1 else 0)
  }

  /** `num_adjacent_words`: for every direction, read letters until one is out
      of bounds or differs, and count the directions where all four matched. */
  method NumAdjacentWords(p: Puzzle, y: int, x: int) returns (n: nat)
    requires WellFormed(p)
    ensures n == CountAlong(p, y, x, |Directions|)
    ensures n <= 8
  {
    n := 0;
    for k := 0 to |Directions|
      invariant n == CountAlong(p, y, x, k)
    {
      var letters := MatchedLetters(p, y, x, Directions[k]);
      if letters == |Word| {
        n := n + 1;
      }
    }
  }

  /** The inner loop of `num_adjacent_words`: the number of leading letters
      of the word found along `d`, stopping at the first miss. */
  method MatchedLetters(p: Puzzle, y: int, x: int, d: (int, int)) returns (letters: nat)
    requires WellFormed(p)
    ensures letters <= |Word|
    ensures forall j :: 0 <= j < letters ==> LetterAt(p, y, x, d, j)
    ensures letters < |Word| ==> !LetterAt(p, y, x, d, letters)
    ensures letters == |Word| <==> WordAlong(p, y, x, d)
  {
    letters := 0;
    var i := 0;
    while i < |Word|
      invariant 0 <= i <= |Word| && letters == i
      invariant forall j :: 0 <= j < i ==> LetterAt(p, y, x, d, j)
    {
      var ny, nx := y + d.0 * i, x + d.1 * i;
      if !(ny < |p| && nx < |p[0]| && ny >= 0 && nx >= 0) || Word[i] != p[ny][nx] {
        assert !LetterAt(p, y, x, d, i);
        break;
      }
      letters := letters + 1;
      i := i + 1;
    }
  }

  /** A cell that is not an 'X' starts no word in any direction. */
  lemma {:induction false} NoWordWithoutX(p: Puzzle, y: int, x: int, k: nat)
    requires WellFormed(p) && k <= |Directions|
    requires !ValidCoords(p, y, x) || p[y][x] != 'X'
    ensures CountAlong(p, y, x, k) == 0
  {
    if k > 0 {
      NoWordWithoutX(p, y, x, k - 1);
      assert !LetterAt(p, y, x, Directions[k - 1], 0);
    }
  }

  /** The sum over the first `w` columns of row `y`. */
  function RowTotal(p: Puzzle, y: nat, w: nat): (t: nat)
    requires WellFormed(p) && y < |p| && w <= |p[y]|
    ensures t <= 8 * w
  {
    if w == 0 then 0 else RowTotal(p, y, w - 1) + CountAlong(p, y, w - 1, |Directions|)
  }

  /** The sum over the first `h` rows, each over its own width. */
  function GridTotal(p: Puzzle, h: nat): nat
    requires WellFormed(p) && h <= |p|
  {
    if h == 0 then 0 else GridTotal(p, h - 1) + RowTotal(p, h - 1, |p[h - 1]|)
  }

  /** The number of cells in the first `h` rows. */
  function Cells(p: Puzzle, h: nat): nat
    requires h <= |p|
  {
    if h == 0 then 0 else Cells(p, h - 1) + |p[h - 1]|
  }

  /** At most eight words start at each cell. */
  lemma {:induction false} GridTotalBound(p: Puzzle, h: nat)
    requires WellFormed(p) && h <= |p|
    ensures GridTotal(p, h) <= 8 * Cells(p, h)
  {
    if h > 0 {
      GridTotalBound(p, h - 1);
    }
  }

  /** The loops of `main`: every row over its own width; a puzzle without
      rows finds nothing. */
  method WordsFound(p: Puzzle) returns (total: nat)
    requires p == [] || WellFormed(p)
    ensures p == [] ==> total == 0
    ensures p != [] ==> total == GridTotal(p, |p|)
  {
    total := 0;
    if p == [] {
      return;
    }
    for y := 0 to |p|
      invariant total == GridTotal(p, y)
    {
      for x := 0 to |p[y]|
        invariant total == GridTotal(p, y) + RowTotal(p, y, x)
      {
        var n := NumAdjacentWords(p, y, x);
        total := total + n;
      }
    }
  }
}
