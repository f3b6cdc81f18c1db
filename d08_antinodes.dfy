/** Day 8: resonant antinodes. Antennas of one frequency pair up; every
    pair projects a line of antinodes outward from both antennas, in steps of
    the pair's offset, for as long as the points stay inside the 50 by 50 map. */
module Antinodes {

  datatype Coordinates = Coordinates(x: int, y: int)

  /** The antenna positions of each frequency, in reading order. */
  type Frequencies = map<char, seq<Coordinates>>

  const MaxX: int := 50
  const MaxY: int := 50

  /** The character of a map cell that holds no antenna. */
  const EmptyPos: char := '.'

  // ---------------------------------------------------------------------
  // Reading the antenna map

  /** `frequencies[c].push_back(p)`, creating the list on first use. */
  function Record(freq: Frequencies, c: char, p: Coordinates): (r: Frequencies)
    ensures r.Keys == freq.Keys + {c}
    ensures forall c' :: c' in freq && c' != c ==> r[c'] == freq[c']
    ensures r[c] == (if c in freq then freq[c] else []) + [p]
  {
    freq[c := (if c in freq then freq[c] else []) + [p]]
  }

  /** The antennas after the first `x` characters of line `y`. */
  function RowFrequencies(freq: Frequencies, line: string, y: int, x: nat): Frequencies
    requires x <= |line|
  {
    if x == 0 then freq
    else
      var before := RowFrequencies(freq, line, y, x - 1);
      if line[x - 1] == EmptyPos then before else Record(before, line[x - 1], Coordinates(x - 1, y))
  }

  /** The antennas of the first `h` lines. */
  function GridFrequencies(lines: seq<string>, h: nat): Frequencies
    requires h <= |lines|
  {
    if h == 0 then map[] else RowFrequencies(GridFrequencies(lines, h - 1), lines[h - 1], h - 1, |lines[h - 1]|)
  }

  /** (x, y) is a cell of the text holding the antenna character `c`. */
  predicate AntennaAt(lines: seq<string>, c: char, p: Coordinates)
  {
    0 <= p.y < |lines| && 0 <= p.x < |lines[p.y]| && lines[p.y][p.x] == c && c != EmptyPos
  }

  /** `read_frequencies_from_file` over the lines of the input: x counts
      characters within a line and y counts lines. */
  method ReadFrequencies(lines: seq<string>) returns (freq: Frequencies)
    ensures freq == GridFrequencies(lines, |lines|)
  {
    freq := map[];
    var y := 0;
    while y < |lines|
      invariant y <= |lines|
      invariant freq == GridFrequencies(lines, y)
    {
      var line := lines[y];
      var x := 0;
      while x < |line|
        invariant x <= |line|
        invariant freq == RowFrequencies(GridFrequencies(lines, y), line, y, x)
      {
        var c := line[x];
        if c != EmptyPos {
          ghost var before := freq;
          var p := Coordinates(x, y);
          if c in freq {
            freq := freq[c := freq[c] + [p]];
          } else {
            freq := freq[c := [p]];
            assert [] + [p] == [p];
          }
          assert freq == Record(before, c, p);
        }
        x := x + 1;
      }
      y := y + 1;
    }
  }

  /** Row `y` adds exactly its own antennas left of column `x`. */
  lemma {:induction false} RowFrequenciesHold(freq: Frequencies, line: string, y: int, x: nat, c: char, p: Coordinates)
    requires x <= |line|
    ensures var r := RowFrequencies(freq, line, y, x);
      (c in r && p in r[c]) <==>
      ((c in freq && p in freq[c]) || (p.y == y && 0 <= p.x < x && line[p.x] == c && c != EmptyPos))
  {
    if x > 0 {
      RowFrequenciesHold(freq, line, y, x - 1, c, p);
    }
  }

  /** Every antenna is recorded under its own character at its own cell, and
      nothing else is. */
  lemma {:induction false} FrequenciesHold(lines: seq<string>, h: nat, c: char, p: Coordinates)
    requires h <= |lines|
    ensures var f := GridFrequencies(lines, h);
      (c in f && p in f[c]) <==> (p.y < h && AntennaAt(lines, c, p))
  {
    if h > 0 {
      FrequenciesHold(lines, h - 1, c, p);
      RowFrequenciesHold(GridFrequencies(lines, h - 1), lines[h - 1], h - 1, |lines[h - 1]|, c, p);
    }
  }

  /** Every recorded frequency has at least one antenna, and '.' is never a
      frequency. */
  lemma {:induction false} FrequenciesNonEmpty(lines: seq<string>, h: nat)
    requires h <= |lines|
    ensures var f := GridFrequencies(lines, h);
      EmptyPos !in f && forall c :: c in f ==> |f[c]| >= 1
  {
    if h > 0 {
      FrequenciesNonEmpty(lines, h - 1);
      RowNonEmpty(GridFrequencies(lines, h - 1), lines[h - 1], h - 1, |lines[h - 1]|);
    }
  }

  lemma {:induction false} RowNonEmpty(freq: Frequencies, line: string, y: int, x: nat)
    requires x <= |line|
    requires EmptyPos !in freq && forall c :: c in freq ==> |freq[c]| >= 1
    ensures var r := RowFrequencies(freq, line, y, x);
      EmptyPos !in r && forall c :: c in r ==> |r[c]| >= 1
  {
    if x > 0 {
      RowNonEmpty(freq, line, y, x - 1);
    }
  }

  // ---------------------------------------------------------------------
  // Antinode walks

  /** `within_bounds`. */
  predicate InBounds(p: Coordinates)
  {
    0 <= p.x < MaxX && 0 <= p.y < MaxY
  }

  /** The point `k` steps of `d` away from `s`. */
  function Shift(s: Coordinates, d: Coordinates, k: int): Coordinates
  {
    Coordinates(s.x + d.x * k, s.y + d.y * k)
  }

  /** The next point of a walk is one more step of `d` on. */
  lemma ShiftNext(s: Coordinates, d: Coordinates, k: int)
    ensures Shift(s, d, k + 1) == Coordinates(Shift(s, d, k).x + d.x, Shift(s, d, k).y + d.y)
  {
    assert d.x * (k + 1) == d.x * k + d.x;
    assert d.y * (k + 1) == d.y * k + d.y;
  }

  /** How far a point inside the map is from leaving it along `d`: a nonzero
      component of `d` carries the point towards one edge. */
  function Span(p: Coordinates, d: Coordinates): int
  {
    if d.x > 0 then MaxX - p.x
    else if d.x < 0 then p.x + 1
    else if d.y > 0 then MaxY - p.y
    else p.y + 1
  }

  /** The do-while of `count_antinodes` from step `k` on: points are inserted
      until the first one outside the map. */
  function Walk(s: Coordinates, d: Coordinates, k: nat): set<Coordinates>
    requires d != Coordinates(0, 0)
    decreases if InBounds(Shift(s, d, k)) then Span(Shift(s, d, k), d) else 0
  {
    var p := Shift(s, d, k);
    if !InBounds(p) then {}
    else
      assert Span(Shift(s, d, k + 1), d) < Span(p, d) by {
        ShiftNext(s, d, k);
      }
      {p} + Walk(s, d, k + 1)
  }

  /** The antinodes one pair of antennas projects, from both ends. */
  function PairAntinodes(c1: Coordinates, c2: Coordinates): set<Coordinates>
    requires c1 != c2
  {
    var diff := Coordinates(c2.x - c1.x, c2.y - c1.y);
    Walk(c1, Coordinates(-diff.x, -diff.y), 0) + Walk(c2, diff, 0)
  }

  /** A walk holds only points of the map, each a whole number of steps
      from its start. */
  lemma {:induction false} WalkSound(s: Coordinates, d: Coordinates, k: nat, p: Coordinates)
    requires d != Coordinates(0, 0)
    requires p in Walk(s, d, k)
    ensures InBounds(p) && exists j: nat :: j >= k && p == Shift(s, d, j)
    decreases if InBounds(Shift(s, d, k)) then Span(Shift(s, d, k), d) else 0
  {
    var q := Shift(s, d, k);
    assert InBounds(q);
    if p != q {
      assert Span(Shift(s, d, k + 1), d) < Span(q, d) by {
        ShiftNext(s, d, k);
      }
      WalkSound(s, d, k + 1, p);
    }
  }

  /** The map is convex: between two points inside it, every step of the
      line joining them is inside too. */
  lemma Between(s: Coordinates, d: Coordinates, i: nat, j: nat)
    requires i <= j && InBounds(s) && InBounds(Shift(s, d, j))
    ensures InBounds(Shift(s, d, i))
  {
    if d.x >= 0 {
      assert 0 <= d.x * i <= d.x * j by { ScaleMono(d.x, i, j); }
    } else {
      assert d.x * j <= d.x * i <= 0 by { ScaleMono(-d.x, i, j); }
    }
    if d.y >= 0 {
      assert 0 <= d.y * i <= d.y * j by { ScaleMono(d.y, i, j); }
    } else {
      assert d.y * j <= d.y * i <= 0 by { ScaleMono(-d.y, i, j); }
    }
  }

  lemma ScaleMono(a: nat, i: nat, j: nat)
    requires i <= j
    ensures 0 <= a * i <= a * j
  {
    assert a * j - a * i == a * (j - i);
  }

  /** A point of the map a whole number of steps from an in-map start is on
      the walk. */
  lemma {:induction false} WalkComplete(s: Coordinates, d: Coordinates, k: nat, j: nat)
    requires d != Coordinates(0, 0)
    requires k <= j && InBounds(s) && InBounds(Shift(s, d, j))
    ensures Shift(s, d, j) in Walk(s, d, k)
    decreases j - k
  {
    Between(s, d, k, j);
    if k < j {
      WalkComplete(s, d, k + 1, j);
    }
  }

  /** The walk from an in-map start is exactly the points of the map on the
      ray from it. */
  lemma WalkIff(s: Coordinates, d: Coordinates, p: Coordinates)
    requires d != Coordinates(0, 0)
    ensures p in Walk(s, d, 0) <==> InBounds(s) && InBounds(p) && exists j: nat :: p == Shift(s, d, j)
  {
    if p in Walk(s, d, 0) {
      WalkSound(s, d, 0, p);
      assert Shift(s, d, 0) == s;
    }
    if InBounds(s) && InBounds(p) && exists j: nat :: p == Shift(s, d, j) {
      var j: nat :| p == Shift(s, d, j);
      WalkComplete(s, d, 0, j);
    }
  }

  /** Both antennas of a pair inside the map are antinodes of it. */
  lemma AntennasAreAntinodes(c1: Coordinates, c2: Coordinates)
    requires c1 != c2 && InBounds(c1) && InBounds(c2)
    ensures c1 in PairAntinodes(c1, c2) && c2 in PairAntinodes(c1, c2)
  {
    var diff := Coordinates(c2.x - c1.x, c2.y - c1.y);
    assert Shift(c1, Coordinates(-diff.x, -diff.y), 0) == c1;
    assert Shift(c2, diff, 0) == c2;
  }

  /** Which of the two antennas comes first does not matter. */
  lemma PairSymmetric(c1: Coordinates, c2: Coordinates)
    requires c1 != c2
    ensures PairAntinodes(c1, c2) == PairAntinodes(c2, c1)
  {
  }

  // ---------------------------------------------------------------------
  // Counting

  /** The antinodes of the pairs (i, b) for i < b < j; pairs of identical
      coordinates are skipped. */
  function PairsFrom(cs: seq<Coordinates>, i: nat, j: nat): set<Coordinates>
    requires i < j <= |cs|
  {
    if j == i + 1 then {}
    else PairsFrom(cs, i, j - 1) + (if cs[i] == cs[j - 1] then {} else PairAntinodes(cs[i], cs[j - 1]))
  }

  /** The antinodes of all pairs whose first antenna is among the first `n`. */
  function ListAntinodes(cs: seq<Coordinates>, n: nat): set<Coordinates>
    requires n <= |cs|
  {
    if n == 0 then {} else ListAntinodes(cs, n - 1) + PairsFrom(cs, n - 1, |cs|)
  }

  /** The antinodes of one frequency's antennas, named pair by pair. */
  ghost predicate PairWitness(cs: seq<Coordinates>, i: int, j: int, p: Coordinates)
  {
    0 <= i < j < |cs| && cs[i] != cs[j] && p in PairAntinodes(cs[i], cs[j])
  }

  lemma {:induction false} PairsFromIff(cs: seq<Coordinates>, i: nat, j: nat, p: Coordinates)
    requires i < j <= |cs|
    ensures p in PairsFrom(cs, i, j) <==> exists b :: i < b < j && PairWitness(cs, i, b, p)
  {
    if j > i + 1 {
      PairsFromIff(cs, i, j - 1, p);
      if p in PairsFrom(cs, i, j) && p !in PairsFrom(cs, i, j - 1) {
        assert PairWitness(cs, i, j - 1, p);
      }
      if exists b :: i < b < j && PairWitness(cs, i, b, p) {
        var b :| i < b < j && PairWitness(cs, i, b, p);
        if b == j - 1 {
          assert p in PairsFrom(cs, i, j);
        }
      }
    }
  }

  /** The antinodes of a frequency come from exactly its pairs of distinct
      antennas. */
  lemma ListAntinodesIff(cs: seq<Coordinates>, n: nat, p: Coordinates)
    requires n <= |cs|
    ensures p in ListAntinodes(cs, n) <==> exists a, b :: a < n && PairWitness(cs, a, b, p)
  {
    if p in ListAntinodes(cs, n) {
      ListAntinodesSound(cs, n, p);
    }
    if exists a, b :: a < n && PairWitness(cs, a, b, p) {
      var a, b :| a < n && PairWitness(cs, a, b, p);
      ListAntinodesComplete(cs, n, a, b, p);
    }
  }

  lemma {:induction false} ListAntinodesSound(cs: seq<Coordinates>, n: nat, p: Coordinates)
    requires n <= |cs| && p in ListAntinodes(cs, n)
    ensures exists a, b :: a < n && PairWitness(cs, a, b, p)
  {
    if p in ListAntinodes(cs, n - 1) {
      ListAntinodesSound(cs, n - 1, p);
    } else {
      PairsFromIff(cs, n - 1, |cs|, p);
      var b :| n - 1 < b < |cs| && PairWitness(cs, n - 1, b, p);
      assert n - 1 < n;
    }
  }

  lemma {:induction false} ListAntinodesComplete(cs: seq<Coordinates>, n: nat, a: nat, b: nat, p: Coordinates)
    requires n <= |cs| && a < n && PairWitness(cs, a, b, p)
    ensures p in ListAntinodes(cs, n)
  {
    if a == n - 1 {
      PairsFromIff(cs, n - 1, |cs|, p);
    } else {
      ListAntinodesComplete(cs, n - 1, a, b, p);
    }
  }

  /** Every antinode lies inside the map. */
  lemma AntinodesInBounds(cs: seq<Coordinates>, p: Coordinates)
    requires p in ListAntinodes(cs, |cs|)
    ensures InBounds(p)
  {
    ListAntinodesIff(cs, |cs|, p);
    var a, b :| a < |cs| && PairWitness(cs, a, b, p);
    var diff := Coordinates(cs[b].x - cs[a].x, cs[b].y - cs[a].y);
    if p in Walk(cs[a], Coordinates(-diff.x, -diff.y), 0) {
      WalkSound(cs[a], Coordinates(-diff.x, -diff.y), 0, p);
    } else {
      WalkSound(cs[b], diff, 0, p);
    }
  }

  /** An antenna inside the map that shares its frequency with another
      antenna elsewhere is an antinode. */
  lemma AntennaAntinode(cs: seq<Coordinates>, a: nat, b: nat)
    requires a < |cs| && b < |cs| && cs[a] != cs[b] && InBounds(cs[a]) && InBounds(cs[b])
    ensures cs[a] in ListAntinodes(cs, |cs|)
  {
    AntennasAreAntinodes(cs[a], cs[b]);
    if a < b {
      assert PairWitness(cs, a, b, cs[a]);
    } else {
      assert PairWitness(cs, b, a, cs[a]);
    }
    ListAntinodesIff(cs, |cs|, cs[a]);
  }

  /** The antinodes of every frequency together. */
  ghost function AllAntinodes(freq: Frequencies): set<Coordinates>
  {
    set c, p | c in freq && p in ListAntinodes(freq[c], |freq[c]|) :: p
  }

  /** One step of a walk from a point inside the map. */
  lemma WalkStep(s: Coordinates, d: Coordinates, k: nat)
    requires d != Coordinates(0, 0) && InBounds(Shift(s, d, k))
    ensures Walk(s, d, k) == {Shift(s, d, k)} + Walk(s, d, k + 1)
    ensures Span(Shift(s, d, k + 1), d) < Span(Shift(s, d, k), d)
  {
    ShiftNext(s, d, k);
  }

  /** One walk of the do-while: `try_insert_antinode` from step 0 until it
      reports a point outside the map. */
  method InsertWalk(antinodes: set<Coordinates>, s: Coordinates, d: Coordinates) returns (after: set<Coordinates>)
    requires d != Coordinates(0, 0)
    ensures after == antinodes + Walk(s, d, 0)
  {
    after := antinodes;
    var k := 0;
    while InBounds(Shift(s, d, k))
      invariant after + Walk(s, d, k) == antinodes + Walk(s, d, 0)
      decreases Span(Shift(s, d, k), d)
    {
      WalkStep(s, d, k);
      after := after + {Shift(s, d, k)};
      k := k + 1;
    }
  }

  /** The inner iterator loop: the pairs of antenna `i` with every later one. */
  method InsertPairs(antinodes: set<Coordinates>, cs: seq<Coordinates>, i: nat) returns (after: set<Coordinates>)
    requires i < |cs|
    ensures after == antinodes + PairsFrom(cs, i, |cs|)
  {
    after := antinodes;
    for j := i + 1 to |cs|
      invariant after == antinodes + PairsFrom(cs, i, j)
    {
      var c1, c2 := cs[i], cs[j];
      if c1 == c2 {
        continue;
      }
      after := InsertPair(after, c1, c2);
    }
  }

  /** The two do-while walks of one pair: from the first antenna away from
      the second, and from the second away from the first. */
  method InsertPair(antinodes: set<Coordinates>, c1: Coordinates, c2: Coordinates) returns (after: set<Coordinates>)
    requires c1 != c2
    ensures after == antinodes + PairAntinodes(c1, c2)
  {
    var diff := Coordinates(c2.x - c1.x, c2.y - c1.y);
    after := InsertWalk(antinodes, c1, Coordinates(-diff.x, -diff.y));
    after := InsertWalk(after, c2, diff);
  }

  /** The outer iterator loop over one frequency's antennas. */
  method InsertFrequency(antinodes: set<Coordinates>, cs: seq<Coordinates>) returns (after: set<Coordinates>)
    ensures after == antinodes + ListAntinodes(cs, |cs|)
  {
    after := antinodes;
    for i := 0 to |cs|
      invariant after == antinodes + ListAntinodes(cs, i)
    {
      after := InsertPairs(after, cs, i);
    }
  }

  /** The antinodes of the frequencies in `keys`. */
  ghost function SomeAntinodes(freq: Frequencies, keys: set<char>): set<Coordinates>
  {
    set c, p | c in keys && c in freq && p in ListAntinodes(freq[c], |freq[c]|) :: p
  }

  lemma SomeAntinodesStep(freq: Frequencies, keys: set<char>, c: char)
    requires c in freq
    ensures SomeAntinodes(freq, keys + {c}) == SomeAntinodes(freq, keys) + ListAntinodes(freq[c], |freq[c]|)
  {
    forall p | p in SomeAntinodes(freq, keys + {c})
      ensures p in SomeAntinodes(freq, keys) + ListAntinodes(freq[c], |freq[c]|)
    {
      var c' :| c' in keys + {c} && c' in freq && p in ListAntinodes(freq[c'], |freq[c']|);
      if c' != c {
        assert c' in keys;
      }
    }
  }

  /** `count_antinodes`: the number of distinct antinode positions over all
      frequencies, taken in any order. */
  method CountAntinodes(freq: Frequencies) returns (n: nat)
    ensures n == |AllAntinodes(freq)|
  {
    var antinodes: set<Coordinates> := {};
    var todo := freq.Keys;
    while todo != {}
      invariant todo <= freq.Keys
      invariant antinodes == SomeAntinodes(freq, freq.Keys - todo)
      decreases |todo|
    {
      var c :| c in todo;
      SomeAntinodesStep(freq, freq.Keys - todo, c);
      assert freq.Keys - (todo - {c}) == (freq.Keys - todo) + {c};
      antinodes := InsertFrequency(antinodes, freq[c]);
      todo := todo - {c};
    }
    assert freq.Keys - todo == freq.Keys;
    assert antinodes == AllAntinodes(freq);
    n := |antinodes|;
  }

  /** Every counted antinode is inside the map, so at most 2500 exist. */
  lemma AllAntinodesInBounds(freq: Frequencies, p: Coordinates)
    requires p in AllAntinodes(freq)
    ensures InBounds(p)
  {
    var c :| c in freq && p in ListAntinodes(freq[c], |freq[c]|);
    AntinodesInBounds(freq[c], p);
  }
}
