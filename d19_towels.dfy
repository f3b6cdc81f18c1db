/** Day 19: the linen layout. The first input line lists the available towel
    patterns, separated by commas; every later non-empty line is a design.
    A design is possible when it can be laid out as a sequence of patterns,
    each pattern usable any number of times. */
module LinenLayout {
  import opened Outcomes
  import opened Text

  /** Every pattern has at least one stripe. */
  predicate AllNonEmpty(patterns: seq<string>)
  {
    forall k :: 0 <= k < |patterns| ==> patterns[k] != []
  }

  /** Longer patterns come first. */
  predicate LongestFirst(patterns: seq<string>)
  {
    forall i, j :: 0 <= i < j < |patterns| ==> |patterns[i]| >= |patterns[j]|
  }

  /** One token with one leading space dropped, if it has one. */
  function DropSpace(token: string): (p: string)
    ensures p == token || (token != [] && token[0] == ' ' && p == token[1..])
  {
    if token != [] && token[0] == ' ' then token[1..] else token
  }

  /** The pattern loop of `towel_details_from_file` as written: it stops at
      the first empty token and then drops a leading space, so a token made
      of one space is kept as an empty pattern. */
  function PatternsAsWritten(tokens: seq<string>): (ps: seq<string>)
    ensures |ps| <= |tokens|
    ensures forall k :: 0 <= k < |ps| ==> tokens[k] != [] && ps[k] == DropSpace(tokens[k])
  {
    if tokens == [] || tokens[0] == [] then []
    else [DropSpace(tokens[0])] + PatternsAsWritten(tokens[1..])
  }

  /** The pattern loop with the emptiness test applied to the pattern left
      after the space is dropped, so that no empty pattern is ever kept. */
  function Patterns(tokens: seq<string>): (ps: seq<string>)
    ensures |ps| <= |tokens|
    ensures forall k :: 0 <= k < |ps| ==> ps[k] == DropSpace(tokens[k]) && ps[k] != []
  {
    if tokens == [] || DropSpace(tokens[0]) == [] then []
    else [DropSpace(tokens[0])] + Patterns(tokens[1..])
  }

  /** The corrected loop stops exactly at the first token that would give
      an empty pattern. */
  lemma {:induction false} PatternsStop(tokens: seq<string>)
    ensures |Patterns(tokens)| < |tokens| ==> DropSpace(tokens[|Patterns(tokens)|]) == []
  {
    if tokens != [] && DropSpace(tokens[0]) != [] {
      PatternsStop(tokens[1..]);
    }
  }

  /** Where no token is empty once its space is dropped, the two loops agree. */
  lemma {:induction false} PatternsAgree(tokens: seq<string>)
    requires forall k :: 0 <= k < |tokens| ==> DropSpace(tokens[k]) != []
    ensures PatternsAsWritten(tokens) == Patterns(tokens)
    ensures |Patterns(tokens)| == |tokens|
  {
    if tokens != [] {
      PatternsAgree(tokens[1..]);
    }
  }

  /** The pattern line "r, ,b" is read as the tokens "r", " " and "b". */
  lemma SampleTokens()
    ensures Tokens("r, ,b", ',') == ["r", " ", "b"]
  {
    assert "r, ,b"[1..] == ", ,b";
    assert IndexOf("r, ,b", ',') == 1;
    assert "r, ,b"[..1] == "r" && "r, ,b"[2..] == " ,b";
    assert " ,b"[1..] == ",b";
    assert IndexOf(" ,b", ',') == 1;
    assert " ,b"[..1] == " " && " ,b"[2..] == "b";
    assert "b"[1..] == "";
    assert IndexOf("b", ',') == 1;
    assert Tokens("b", ',') == ["b"];
    TokensStep(" ,b", ',');
    TokensStep("r, ,b", ',');
  }

  /** For those tokens the loop as written keeps the middle one, a single
      space, as the empty pattern, where the corrected loop stops. */
  lemma AsWrittenKeepsEmptyPattern()
    ensures PatternsAsWritten(Tokens("r, ,b", ',')) == ["r", "", "b"]
    ensures Patterns(Tokens("r, ,b", ',')) == ["r"]
  {
    SampleTokens();
    var tokens: seq<string> := ["r", " ", "b"];
    assert tokens[1..] == [" ", "b"] && tokens[1..][1..] == ["b"] && tokens[1..][1..][1..] == [];
    assert DropSpace(" ") == "";
    assert DropSpace("r") == "r" && DropSpace("b") == "b";
  }

  /** The first occurrence of `p` in `s` (`std::string::find`), or `None`
      where the source gets `npos`. */
  function Find(s: string, p: string): (r: Option<nat>)
    ensures r.Some? ==> r.value + |p| <= |s| && s[r.value..r.value + |p|] == p
    decreases |s|
  {
    if |p| > |s| then None
    else if p <= s then Some(0)
    else match Find(s[1..], p)
      case None => None
      case Some(i) => Some(i + 1)
  }

  /** `find` reports the earliest occurrence. */
  lemma {:induction false} FindFirst(s: string, p: string, j: nat)
    requires j + |p| <= |s| && s[j..j + |p|] == p
    ensures Find(s, p).Some? && Find(s, p).value <= j
    decreases |s|
  {
    if !(p <= s) {
      assert j > 0;
      assert s[1..][j - 1..j - 1 + |p|] == s[j..j + |p|];
      FindFirst(s[1..], p, j - 1);
    }
  }

  /** The test `is_best_pattern` applies to one pattern: it must occur in the
      design, and the parts of the design on either side of its first
      occurrence that are not empty must be possible. */
  predicate BestPattern(design: string, p: string, patterns: seq<string>)
    requires AllNonEmpty(patterns) && p in patterns
    decreases |design|, 0
  {
    if |p| > |design| then false
    else match Find(design, p)
      case None => false
      case Some(start) =>
        var end := start + |p|;
        if start == 0 && end == |design| then true
        else if start == 0 then Possible(design[end..], patterns)
        else if end == |design| then Possible(design[..start], patterns)
        else Possible(design[..start], patterns) && Possible(design[end..], patterns)
  }

  /** The value `is_possible_design` computes, without its caches: some
      pattern is a best pattern for the design. */
  predicate Possible(design: string, patterns: seq<string>)
    requires AllNonEmpty(patterns)
    decreases |design|, 1
  {
    exists k :: 0 <= k < |patterns| && BestPattern(design, patterns[k], patterns)
  }

  /** Stripes joined end to end. */
  function Concat(ws: seq<string>): string
  {
    if ws == [] then [] else ws[0] + Concat(ws[1..])
  }

  lemma {:induction false} ConcatAppend(a: seq<string>, b: seq<string>)
    ensures Concat(a + b) == Concat(a) + Concat(b)
  {
    if a == [] {
      assert a + b == b;
    } else {
      assert (a + b)[0] == a[0] && (a + b)[1..] == a[1..] + b;
      ConcatAppend(a[1..], b);
    }
  }

  /** Every word is one of the patterns. */
  ghost predicate Drawn(ws: seq<string>, patterns: seq<string>)
  {
    forall k :: 0 <= k < |ws| ==> ws[k] in patterns
  }

  /** The puzzle's notion of a possible design: a sequence of available
      patterns whose stripes, end to end, are the design. */
  ghost predicate Arrangeable(design: string, patterns: seq<string>)
  {
    exists ws :: Drawn(ws, patterns) && Concat(ws) == design
  }

  /** Arrangements of two parts and a pattern between them make one of the
      whole. */
  lemma ArrangeAround(left: string, p: string, right: string, patterns: seq<string>)
    requires p in patterns
    requires left == [] || Arrangeable(left, patterns)
    requires right == [] || Arrangeable(right, patterns)
    ensures Arrangeable(left + p + right, patterns)
  {
    var lw: seq<string> := [];
    if left != [] {
      lw :| Drawn(lw, patterns) && Concat(lw) == left;
    }
    var rw: seq<string> := [];
    if right != [] {
      rw :| Drawn(rw, patterns) && Concat(rw) == right;
    }
    var ws := lw + ([p] + rw);
    ConcatAppend(lw, [p] + rw);
    assert ([p] + rw)[0] == p && ([p] + rw)[1..] == rw;
    assert Concat(ws) == left + (p + right);
    assert Drawn(ws, patterns);
  }

  /** A design split around an occurrence is the left part, the pattern and
      the right part. */
  lemma SplitAround(design: string, start: nat, end: nat)
    requires start <= end <= |design|
    ensures design == design[..start] + design[start..end] + design[end..]
  {
  }

  /** A best pattern is laid between two arrangeable parts, so the design is
      arrangeable. */
  lemma {:induction false} BestPatternArrangeable(design: string, p: string, patterns: seq<string>)
    requires AllNonEmpty(patterns) && p in patterns && BestPattern(design, p, patterns)
    ensures Arrangeable(design, patterns)
    decreases |design|, 0
  {
    var start := Find(design, p).value;
    var end := start + |p|;
    SplitAround(design, start, end);
    var left, right := design[..start], design[end..];
    if left != [] {
      PossibleArrangeable(left, patterns);
    }
    if right != [] {
      PossibleArrangeable(right, patterns);
    }
    ArrangeAround(left, p, right, patterns);
  }

  /** What `is_possible_design` reports true is arrangeable from the
      patterns. */
  lemma {:induction false} PossibleArrangeable(design: string, patterns: seq<string>)
    requires AllNonEmpty(patterns) && Possible(design, patterns)
    ensures Arrangeable(design, patterns)
    decreases |design|, 1
  {
    var k :| 0 <= k < |patterns| && BestPattern(design, patterns[k], patterns);
    BestPatternArrangeable(design, patterns[k], patterns);
  }

  /** Every arrangeable design with at least one stripe is possible: the
      first pattern of an arrangement occurs at the start, which is where
      `find` sees it first, and the rest is arrangeable and shorter. */
  lemma {:induction false} ArrangeablePossible(design: string, patterns: seq<string>, ws: seq<string>)
    requires AllNonEmpty(patterns) && design != []
    requires Drawn(ws, patterns) && Concat(ws) == design
    ensures Possible(design, patterns)
    decreases |design|
  {
    var p := ws[0];
    var k :| 0 <= k < |patterns| && patterns[k] == p;
    assert design == p + Concat(ws[1..]);
    assert design[0..|p|] == p;
    FindFirst(design, p, 0);
    var rest := design[|p|..];
    assert rest == Concat(ws[1..]);
    if rest != [] {
      assert Drawn(ws[1..], patterns);
      ArrangeablePossible(rest, patterns, ws[1..]);
    }
    assert BestPattern(design, patterns[k], patterns);
  }

  /** `is_possible_design` answers the puzzle's question exactly: a design
      with at least one stripe is possible iff the patterns arrange it. */
  lemma PossibleIff(design: string, patterns: seq<string>)
    requires AllNonEmpty(patterns)
    ensures Possible(design, patterns) <==> design != [] && Arrangeable(design, patterns)
  {
    if Possible(design, patterns) {
      PossibleArrangeable(design, patterns);
      var k :| 0 <= k < |patterns| && BestPattern(design, patterns[k], patterns);
      assert |patterns[k]| <= |design|;
    }
    if design != [] && Arrangeable(design, patterns) {
      var ws :| Drawn(ws, patterns) && Concat(ws) == design;
      ArrangeablePossible(design, patterns, ws);
    }
  }

  /** The answer does not depend on the order of the patterns, which the
      unstable sort leaves open among patterns of equal length. */
  lemma PossibleIgnoresOrder(design: string, patterns: seq<string>, other: seq<string>)
    requires AllNonEmpty(patterns) && AllNonEmpty(other)
    requires multiset(patterns) == multiset(other)
    ensures Possible(design, patterns) == Possible(design, other)
  {
    PossibleIff(design, patterns);
    PossibleIff(design, other);
    forall ws | Drawn(ws, patterns)
      ensures Drawn(ws, other)
    {
      forall k | 0 <= k < |ws|
        ensures ws[k] in other
      {
        assert ws[k] in multiset(patterns);
      }
    }
    forall ws | Drawn(ws, other)
      ensures Drawn(ws, patterns)
    {
      forall k | 0 <= k < |ws|
        ensures ws[k] in patterns
      {
        assert ws[k] in multiset(other);
      }
    }
  }

  /** The two caches hold only correct answers. */
  predicate CachesValid(possible: set<string>, impossible: set<string>, patterns: seq<string>)
    requires AllNonEmpty(patterns)
  {
    (forall d :: d in possible ==> Possible(d, patterns)) &&
    (forall d :: d in impossible ==> !Possible(d, patterns))
  }

  /** `is_possible_design`: a cached answer is returned as is; otherwise the
      patterns are tried in order (`std::ranges::any_of`) and the design is
      recorded in the cache that matches the answer. */
  method IsPossibleDesign(design: string, patterns: seq<string>, possible: set<string>, impossible: set<string>)
    returns (r: bool, possible': set<string>, impossible': set<string>)
    requires AllNonEmpty(patterns) && CachesValid(possible, impossible, patterns)
    ensures r == Possible(design, patterns)
    ensures CachesValid(possible', impossible', patterns)
    ensures possible <= possible' && impossible <= impossible'
    ensures design in (if r then possible' else impossible')
    ensures design in possible ==> possible' == possible && impossible' == impossible
    ensures design in impossible ==> possible' == possible && impossible' == impossible
    decreases |design|, 1
  {
    if design in possible {
      return true, possible, impossible;
    }
    if design in impossible {
      return false, possible, impossible;
    }
    possible', impossible' := possible, impossible;
    var k := 0;
    while k < |patterns|
      invariant k <= |patterns|
      invariant CachesValid(possible', impossible', patterns)
      invariant possible <= possible' && impossible <= impossible'
      invariant forall j :: 0 <= j < k ==> !BestPattern(design, patterns[j], patterns)
    {
      var best;
      best, possible', impossible' := IsBestPattern(design, patterns[k], patterns, possible', impossible');
      if best {
        return true, possible' + {design}, impossible';
      }
      k := k + 1;
    }
    return false, possible', impossible' + {design};
  }

  /** The lambda `is_best_pattern`: the pattern's first occurrence splits the
      design, and the non-empty sides are checked recursively, the left one
      first, the right one only when the left is possible. */
  method IsBestPattern(design: string, p: string, patterns: seq<string>, possible: set<string>, impossible: set<string>)
    returns (r: bool, possible': set<string>, impossible': set<string>)
    requires AllNonEmpty(patterns) && p in patterns && CachesValid(possible, impossible, patterns)
    ensures r == BestPattern(design, p, patterns)
    ensures CachesValid(possible', impossible', patterns)
    ensures possible <= possible' && impossible <= impossible'
    decreases |design|, 0
  {
    possible', impossible' := possible, impossible;
    if |p| > |design| {
      return false, possible', impossible';
    }
    var found := Find(design, p);
    if found.None? {
      return false, possible', impossible';
    }
    var start := found.value;
    var end := start + |p|;
    var isStart, isEnd := start == 0, end == |design|;
    if isStart && isEnd {
      return true, possible', impossible';
    }
    if isStart {
      r, possible', impossible' := IsPossibleDesign(design[end..], patterns, possible', impossible');
      return;
    }
    if isEnd {
      r, possible', impossible' := IsPossibleDesign(design[..start], patterns, possible', impossible');
      return;
    }
    r, possible', impossible' := IsPossibleDesign(design[..start], patterns, possible', impossible');
    if r {
      r, possible', impossible' := IsPossibleDesign(design[end..], patterns, possible', impossible');
    }
  }

  /** The empty pattern the loop as written can keep: `find` places it at
      the start of any design, and the part to its right is the whole design,
      so `is_possible_design` calls itself on the same design with the same
      caches, without end, once every longer pattern has failed. */
  lemma EmptyPatternRecursesOnItself(design: string)
    requires design != []
    ensures Find(design, "") == Some(0)
    ensures var end := Find(design, "").value + |""|; end != |design| && design[end..] == design
  {
  }

  /** `std::ranges::sort` by non-increasing length, done here as an
      insertion sort: the patterns end up longest first, and they are the
      same patterns. */
  method SortLongestFirst(a: array<string>)
    modifies a
    ensures LongestFirst(a[..])
    ensures multiset(a[..]) == multiset(old(a[..]))
  {
    var i := 1;
    while i < a.Length
      invariant 1 <= i || a.Length == 0
      invariant i <= a.Length || a.Length == 0
      invariant forall x, y :: 0 <= x < y < i && y < a.Length ==> |a[x]| >= |a[y]|
      invariant multiset(a[..]) == multiset(old(a[..]))
    {
      var j := i;
      while j > 0 && |a[j - 1]| < |a[j]|
        invariant 0 <= j <= i
        invariant forall x, y :: 0 <= x < y <= i && y != j ==> |a[x]| >= |a[y]|
        invariant forall x, y :: 0 <= x < j < y <= i ==> |a[x]| >= |a[y]|
        invariant multiset(a[..]) == multiset(old(a[..]))
      {
        a[j - 1], a[j] := a[j], a[j - 1];
        j := j - 1;
      }
      i := i + 1;
    }
  }

  /** The designs: every line after the pattern line that is not empty, in
      order. */
  function Designs(lines: seq<string>): (ds: seq<string>)
    ensures |ds| <= |lines|
    ensures forall k :: 0 <= k < |ds| ==> ds[k] != []
  {
    if lines == [] then []
    else Designs(lines[..|lines| - 1]) + (if lines[|lines| - 1] == [] then [] else [lines[|lines| - 1]])
  }

  /** Every non-empty line is a design, and every design is one of the lines. */
  lemma {:induction false} DesignsAreLines(lines: seq<string>, d: string)
    ensures d in Designs(lines) <==> d != [] && d in lines
  {
    if lines != [] {
      var front := lines[..|lines| - 1];
      DesignsAreLines(front, d);
      assert lines == front + [lines[|lines| - 1]];
    }
  }

  /** The pattern line: the first line, or nothing when the input is empty. */
  function PatternLine(lines: seq<string>): string
  {
    if lines == [] then [] else lines[0]
  }

  /** `towel_details_from_file`, after the lines are read: the patterns of
      the first line, longest first, and the non-empty later lines. */
  method TowelDetails(lines: seq<string>) returns (patterns: seq<string>, designs: seq<string>)
    ensures LongestFirst(patterns) && AllNonEmpty(patterns)
    ensures multiset(patterns) == multiset(Patterns(Tokens(PatternLine(lines), ',')))
    ensures designs == Designs(if lines == [] then [] else lines[1..])
  {
    var read := ReadPatterns(Tokens(PatternLine(lines), ','));
    patterns := SortedPatterns(read);
    designs := ReadDesigns(if lines == [] then [] else lines[1..]);
  }

  /** The pattern loop over the tokens of the first line. */
  method ReadPatterns(tokens: seq<string>) returns (read: seq<string>)
    ensures read == Patterns(tokens)
  {
    read := [];
    var i := 0;
    assert tokens[0..] == tokens;
    while i < |tokens|
      invariant i <= |tokens|
      invariant read + Patterns(tokens[i..]) == Patterns(tokens)
    {
      var pattern := DropSpace(tokens[i]);
      PatternsAt(tokens, i);
      if pattern == [] {
        assert read == Patterns(tokens);
        break;
      }
      assert (read + [pattern]) + Patterns(tokens[i + 1..]) == read + ([pattern] + Patterns(tokens[i + 1..]));
      read := read + [pattern];
      i := i + 1;
    }
  }

  /** One step of the pattern loop: the token at `i` either ends it or
      gives the next pattern. */
  lemma PatternsAt(tokens: seq<string>, i: nat)
    requires i < |tokens|
    ensures Patterns(tokens[i..]) ==
      if DropSpace(tokens[i]) == [] then [] else [DropSpace(tokens[i])] + Patterns(tokens[i + 1..])
  {
    assert tokens[i..][0] == tokens[i] && tokens[i..][1..] == tokens[i + 1..];
  }

  /** The patterns copied into a vector and sorted there. */
  method SortedPatterns(read: seq<string>) returns (patterns: seq<string>)
    requires AllNonEmpty(read)
    ensures LongestFirst(patterns) && AllNonEmpty(patterns)
    ensures multiset(patterns) == multiset(read)
  {
    var a := new string[|read|](k requires 0 <= k < |read| => read[k]);
    assert a[..] == read;
    SortLongestFirst(a);
    patterns := a[..];
    forall k | 0 <= k < |patterns|
      ensures patterns[k] != []
    {
      assert patterns[k] in multiset(read);
    }
  }

  /** The design loop: empty lines are skipped. */
  method ReadDesigns(lines: seq<string>) returns (designs: seq<string>)
    ensures designs == Designs(lines)
  {
    designs := [];
    for k := 0 to |lines|
      invariant designs == Designs(lines[..k])
    {
      assert lines[..k + 1][..k] == lines[..k];
      if lines[k] != [] {
        designs := designs + [lines[k]];
      }
    }
    assert lines[..|lines|] == lines;
  }

  /** How many of the designs are possible. */
  function CountPossible(designs: seq<string>, patterns: seq<string>): (n: nat)
    requires AllNonEmpty(patterns)
    ensures n <= |designs|
  {
    if designs == [] then 0
    else
      var last := if Possible(designs[|designs| - 1], patterns) then 1 else 0;
      CountPossible(designs[..|designs| - 1], patterns) + last
  }

  /** Every design counted is arrangeable, and every arrangeable design is
      counted: one design more adds one exactly when it is arrangeable. */
  lemma CountPossibleSnoc(designs: seq<string>, d: string, patterns: seq<string>)
    requires AllNonEmpty(patterns) && d != []
    ensures CountPossible(designs + [d], patterns) ==
      CountPossible(designs, patterns) + (if Arrangeable(d, patterns) then 1 else 0)
  {
    assert (designs + [d])[..|designs|] == designs;
    PossibleIff(d, patterns);
  }

  /** The count does not depend on the order of the patterns either. */
  lemma {:induction false} CountIgnoresOrder(designs: seq<string>, patterns: seq<string>, other: seq<string>)
    requires AllNonEmpty(patterns) && AllNonEmpty(other)
    requires multiset(patterns) == multiset(other)
    ensures CountPossible(designs, patterns) == CountPossible(designs, other)
  {
    if designs != [] {
      CountIgnoresOrder(designs[..|designs| - 1], patterns, other);
      PossibleIgnoresOrder(designs[|designs| - 1], patterns, other);
    }
  }

  /** `main`: the number of possible designs, with both caches shared by
      every design. */
  method CountPossibleDesigns(lines: seq<string>) returns (count: nat)
    ensures count == CountPossible(Designs(if lines == [] then [] else lines[1..]),
      Patterns(Tokens(PatternLine(lines), ',')))
  {
    var patterns, designs := TowelDetails(lines);
    count := CountWithCaches(designs, patterns);
    CountIgnoresOrder(designs, patterns, Patterns(Tokens(PatternLine(lines), ',')));
  }

  /** The loop of `main`: every design is checked in turn, and what one
      check records in the caches serves the later ones. */
  method CountWithCaches(designs: seq<string>, patterns: seq<string>) returns (count: nat)
    requires AllNonEmpty(patterns)
    ensures count == CountPossible(designs, patterns)
  {
    count := 0;
    var possible: set<string> := {};
    var impossible: set<string> := {};
    for k := 0 to |designs|
      invariant CachesValid(possible, impossible, patterns)
      invariant count == CountPossible(designs[..k], patterns)
    {
      var r;
      r, possible, impossible := IsPossibleDesign(designs[k], patterns, possible, impossible);
      assert designs[..k + 1][..k] == designs[..k];
      if r {
        count := count + 1;
      }
    }
    assert designs[..|designs|] == designs;
  }
}
