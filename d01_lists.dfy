/** Day 1: two columns of location ids. The total distance pairs the i-th
    smallest of each list; the similarity score weighs each id of the left list
    by how often it occurs in the right list. Three revisions exist
    (d01/src, d01/part1, d01/part2); they share the line format. */
module LocationLists {
  import opened Outcomes
  import opened Text

  function Abs(x: int): (r: nat)
    ensures r == x || r == -x
  {
    if x < 0 then -x else x
  }

  /** One input line: the text before the first space and the text after it.
      Without a space, `find_first_of` yields npos and `substr(npos + 1)`
      wraps to the whole line, so both numbers are read from the full line. */
  function SplitLine(line: string): (r: Result<(int, int)>)
    ensures r.Err? ==> r.message == "stoi: no conversion"
    ensures ' ' !in line ==> (r.Ok? <==> ParseInt(line).Ok?) && (r.Ok? ==> r.value.0 == r.value.1)
  {
    var delim := IndexOf(line, ' ');
    var token1 := line[..delim];
    var token2 := if delim == |line| then line else line[delim + 1..];
    assert ' ' !in line ==> delim == |line| && token1 == line;
    var a :- ParseInt(token1);
    var b :- ParseInt(token2);
    Ok((a, b))
  }

  predicate AllSpaces(s: string) {
    forall i :: 0 <= i < |s| ==> s[i] == ' '
  }

  lemma {:induction false} SkipPadding(pad: string, s: string)
    requires AllSpaces(pad)
    requires s == [] || !IsSpace(s[0])
    ensures SkipSpaces(pad + s) == s
  {
    if pad != [] {
      assert (pad + s)[1..] == pad[1..] + s;
      SkipPadding(pad[1..], s);
    }
  }

  lemma NoSpaceInNumber(x: int)
    ensures ' ' !in IntToString(x)
    ensures !IsSpace(IntToString(x)[0])
  {
    IntToStringShape(x);
    var d := IntToString(x);
    assert forall k :: 0 <= k < |d| ==> d[k] != ' ';
  }

  lemma SplitLineAt(line: string, k: nat, a: int, b: int)
    requires k < |line| && IndexOf(line, ' ') == k
    requires ParseInt(line[..k]) == Ok(a) && ParseInt(line[k + 1..]) == Ok(b)
    ensures SplitLine(line) == Ok((a, b))
  {
  }

  lemma ParseAfterSpaces(s: string, t: string)
    requires SkipSpaces(s) == t
    ensures ParseInt(s) == ParseInt(t)
  {
    assert SkipSpaces(t) == t;
  }

  lemma ParsePadded(pad: string, b: int)
    requires AllSpaces(pad)
    ensures ParseInt(pad + IntToString(b)) == Ok(b)
  {
    var sb := IntToString(b);
    NoSpaceInNumber(b);
    SkipPadding(pad, sb);
    ParseAfterSpaces(pad + sb, sb);
    ParseIntPrefix(b, "");
    assert sb + "" == sb;
  }

  lemma LineFields(a: int, b: int, pad: string)
    requires AllSpaces(pad)
    ensures var line := IntToString(a) + " " + pad + IntToString(b);
      var k := |IntToString(a)|;
      k < |line| && IndexOf(line, ' ') == k &&
      line[..k] == IntToString(a) + "" && line[k + 1..] == pad + IntToString(b)
  {
    var sa, sb := IntToString(a), IntToString(b);
    var line := sa + " " + pad + sb;
    NoSpaceInNumber(a);
    assert line == sa + [' '] + (pad + sb);
    IndexOfAfter(sa, ' ', pad + sb);
  }

  /** A line written as "<a> <padding><b>" reads back as the pair (a, b). */
  lemma SplitLineRoundTrip(a: int, b: int, pad: string)
    requires AllSpaces(pad)
    ensures SplitLine(IntToString(a) + " " + pad + IntToString(b)) == Ok((a, b))
  {
    LineFields(a, b, pad);
    ParseIntPrefix(a, "");
    ParsePadded(pad, b);
    SplitLineAt(IntToString(a) + " " + pad + IntToString(b), |IntToString(a)|, a, b);
  }

  /** The two lists hold, in order, the numbers of the first parse
      results. */
  predicate Listed(list1: seq<int>, list2: seq<int>, pairs: seq<Result<(int, int)>>) {
    |list1| == |list2| <= |pairs| &&
    forall k :: 0 <= k < |list1| ==> pairs[k] == Ok((list1[k], list2[k]))
  }

  lemma ListedSnoc(list1: seq<int>, list2: seq<int>, pairs: seq<Result<(int, int)>>, a: int, b: int)
    requires Listed(list1, list2, pairs) && |list1| < |pairs| && pairs[|list1|] == Ok((a, b))
    ensures Listed(list1 + [a], list2 + [b], pairs)
  {
  }

  /** `read_lists_from_file`: each line contributes its left number to the
      first list and its right number to the second; a bad line throws. */
  method ReadLists(lines: seq<string>) returns (r: Result<(seq<int>, seq<int>)>)
    ensures r.Ok? <==> forall i :: 0 <= i < |lines| ==> SplitLine(lines[i]).Ok?
    ensures r.Ok? ==> |r.value.0| == |lines| && |r.value.1| == |lines|
    ensures r.Ok? ==> forall i :: 0 <= i < |lines| ==>
      SplitLine(lines[i]) == Ok((r.value.0[i], r.value.1[i]))
  {
    ghost var pairs := seq(|lines|, k requires 0 <= k < |lines| => SplitLine(lines[k]));
    var list1, list2 := [], [];
    var i := 0;
    while i < |lines|
      invariant 0 <= i <= |lines|
      invariant |list1| == i && Listed(list1, list2, pairs)
    {
      var pair := SplitLine(lines[i]);
      if pair.Err? {
        return Err(pair.message);
      }
      assert pairs[i] == pair;
      ListedSnoc(list1, list2, pairs, pair.value.0, pair.value.1);
      list1, list2 := list1 + [pair.value.0], list2 + [pair.value.1];
      i := i + 1;
    }
    forall k | 0 <= k < |lines|
      ensures SplitLine(lines[k]) == Ok((list1[k], list2[k]))
    {
      assert pairs[k] == SplitLine(lines[k]);
    }
    r := Ok((list1, list2));
  }

  predicate Sorted(s: seq<int>) {
    forall i, j :: 0 <= i < j < |s| ==> s[i] <= s[j]
  }

  lemma SortedCons(h: int, t: seq<int>)
    requires Sorted(t) && (t == [] || h <= t[0])
    ensures Sorted([h] + t)
  {
    var r := [h] + t;
    forall i, j | 0 <= i < j < |r| ensures r[i] <= r[j] {
      if i > 0 {
        assert r[i] == t[i - 1] && r[j] == t[j - 1];
      } else if j > 1 {
        assert t[0] <= t[j - 1];
      }
    }
  }

  function Insert(x: int, s: seq<int>): (r: seq<int>)
    requires Sorted(s)
    ensures Sorted(r) && multiset(r) == multiset(s) + multiset{x}
    ensures |r| == |s| + 1 && (r[0] == x || (s != [] && r[0] == s[0]))
  {
    if s == [] then [x]
    else if x <= s[0] then
      SortedCons(x, s);
      [x] + s
    else
      assert s == [s[0]] + s[1..];
      var t := Insert(x, s[1..]);
      SortedCons(s[0], t);
      [s[0]] + t
  }

  /** `std::sort` with the default `<`, modelled on values: the result is
      ascending and a permutation of the input. */
  function SortAscending(s: seq<int>): (r: seq<int>)
    ensures Sorted(r) && multiset(r) == multiset(s) && |r| == |s|
  {
    if s == [] then []
    else
      assert s == [s[0]] + s[1..];
      Insert(s[0], SortAscending(s[1..]))
  }

  /** Sum of |l1[i] - l2[i]| over the indices of `l1`. */
  function Distance(l1: seq<int>, l2: seq<int>): int
    requires |l1| <= |l2|
  {
    if l1 == [] then 0
    else Distance(l1[..|l1| - 1], l2) + Abs(l1[|l1| - 1] - l2[|l1| - 1])
  }

  /** `calc_list_distance`: walks both lists in step for as many elements as
      the first one has (the second must be at least as long). */
  method CalcListDistance(l1: seq<int>, l2: seq<int>) returns (total: int)
    requires |l1| <= |l2|
    ensures total == Distance(l1, l2)
  {
    total := 0;
    var i := 0;
    while i < |l1|
      invariant 0 <= i <= |l1|
      invariant total == Distance(l1[..i], l2)
    {
      assert l1[..i + 1][..i] == l1[..i];
      total := total + Abs(l1[i] - l2[i]);
      i := i + 1;
    }
    assert l1[..|l1|] == l1;
  }

  /** The distance is zero exactly when the paired elements coincide. */
  lemma {:induction false} DistanceZeroIff(l1: seq<int>, l2: seq<int>)
    requires |l1| <= |l2|
    ensures Distance(l1, l2) >= 0
    ensures Distance(l1, l2) == 0 <==> l1 == l2[..|l1|]
  {
    if l1 != [] {
      var n := |l1| - 1;
      DistanceZeroIff(l1[..n], l2);
      assert l1 == l1[..n] + [l1[n]];
      assert l2[..|l1|] == l2[..n] + [l2[n]];
    }
  }

  /** The distance does not depend on which list is called the first. */
  lemma {:induction false} DistanceSymmetric(l1: seq<int>, l2: seq<int>)
    requires |l1| == |l2|
    ensures Distance(l1, l2) == Distance(l2, l1)
  {
    if l1 != [] {
      var n := |l1| - 1;
      DistanceSymmetric(l1[..n], l2[..n]);
      DistancePrefix(l1[..n], l2);
      DistancePrefix(l2[..n], l1);
    }
  }

  /** Only the first |l1| elements of the second list matter. */
  lemma {:induction false} DistancePrefix(l1: seq<int>, l2: seq<int>)
    requires |l1| < |l2|
    ensures Distance(l1, l2) == Distance(l1, l2[..|l2| - 1])
  {
    if l1 != [] {
      DistancePrefix(l1[..|l1| - 1], l2);
    }
  }

  /** `calc_similarity_score` (and the part-2 `list2_map`): the count map of
      the second list; every key is an element and maps to its multiplicity. */
  method CountOccurrences(l2: seq<int>) returns (counts: map<int, nat>)
    ensures forall e :: e in counts <==> e in l2
    ensures forall e :: e in counts ==> counts[e] == multiset(l2)[e]
  {
    counts := map[];
    var i := 0;
    while i < |l2|
      invariant 0 <= i <= |l2|
      invariant forall e :: e in counts <==> e in l2[..i]
      invariant forall e :: e in counts ==> counts[e] == multiset(l2[..i])[e]
    {
      var e := l2[i];
      assert l2[..i + 1] == l2[..i] + [e];
      counts := counts[e := if e in counts then counts[e] + 1 else 1];
      i := i + 1;
    }
    assert l2[..|l2|] == l2;
  }

  /** Each element of `l1` weighted by its number of occurrences in `l2`; an
      element absent from `l2` weighs 0. */
  function Similarity(l1: seq<int>, l2: seq<int>): int
  {
    if l1 == [] then 0
    else Similarity(l1[..|l1| - 1], l2) + l1[|l1| - 1] * multiset(l2)[l1[|l1| - 1]]
  }

  /** The score loop over the first list, looking each element up in the
      count map and skipping elements that are not keys. */
  method SimilarityScore(l1: seq<int>, counts: map<int, nat>, ghost l2: seq<int>) returns (score: int)
    requires forall e :: e in counts <==> e in l2
    requires forall e :: e in counts ==> counts[e] == multiset(l2)[e]
    ensures score == Similarity(l1, l2)
  {
    score := 0;
    var i := 0;
    while i < |l1|
      invariant 0 <= i <= |l1|
      invariant score == Similarity(l1[..i], l2)
    {
      assert l1[..i + 1][..i] == l1[..i];
      var e := l1[i];
      if e in counts {
        score := score + e * counts[e];
      } else {
        assert multiset(l2)[e] == 0;
      }
      i := i + 1;
    }
    assert l1[..|l1|] == l1;
  }

  lemma {:induction false} SimilarityAppend(a: seq<int>, b: seq<int>, l2: seq<int>)
    ensures Similarity(a + b, l2) == Similarity(a, l2) + Similarity(b, l2)
    decreases |b|
  {
    if b != [] {
      var n := |b| - 1;
      assert (a + b)[..|a + b| - 1] == a + b[..n];
      SimilarityAppend(a, b[..n], l2);
    } else {
      assert a + b == a;
    }
  }

  /** The score depends only on which ids the first list holds, not on their
      order: sorting it (as d01/src does) or not (as d01/part2 does) gives the
      same answer. */
  lemma {:induction false} SimilarityPermutation(a: seq<int>, b: seq<int>, l2: seq<int>)
    requires multiset(a) == multiset(b)
    ensures Similarity(a, l2) == Similarity(b, l2)
    decreases |a|
  {
    if a != [] {
      var x := a[|a| - 1];
      assert x in multiset(b);
      var j :| 0 <= j < |b| && b[j] == x;
      var a' := a[..|a| - 1];
      var b' := b[..j] + b[j + 1..];
      assert a == a' + [x];
      assert b == b[..j] + [x] + b[j + 1..];
      assert multiset(a') == multiset(b') by {
        assert multiset(a) == multiset(a') + multiset{x};
        assert multiset(b) == multiset(b[..j]) + multiset{x} + multiset(b[j + 1..]);
        assert multiset(b') == multiset(b[..j]) + multiset(b[j + 1..]);
        forall y ensures multiset(a')[y] == multiset(b')[y] {
          assert multiset(a)[y] == multiset(a')[y] + multiset{x}[y];
          assert multiset(b)[y] == multiset(b[..j])[y] + multiset{x}[y] + multiset(b[j + 1..])[y];
        }
      }
      SimilarityPermutation(a', b', l2);
      SimilarityAppend(b[..j], [x], l2);
      SimilarityAppend(b[..j] + [x], b[j + 1..], l2);
      SimilarityAppend(b[..j], b[j + 1..], l2);
      assert Similarity([x], l2) == x * multiset(l2)[x] by { assert [x][..0] == []; }
    }
  }

  /** What `read_lists_from_file` produces: the two columns when every line
      splits, otherwise an error. */
  function ParseLists(lines: seq<string>): Result<(seq<int>, seq<int>)>
  {
    if forall i :: 0 <= i < |lines| ==> SplitLine(lines[i]).Ok? then
      Ok((seq(|lines|, i requires 0 <= i < |lines| => SplitLine(lines[i]).value.0),
          seq(|lines|, i requires 0 <= i < |lines| => SplitLine(lines[i]).value.1)))
    else Err("malformed line")
  }

  /** d01/src `main`: parse, sort both lists, then report the distance and
      the similarity score of the sorted lists, which equals that of the
      lists as read. */
  method DistanceAndSimilarity(lines: seq<string>) returns (r: Result<(int, int)>)
    ensures r.Ok? <==> ParseLists(lines).Ok?
    ensures r.Ok? ==>
      var (l1, l2) := ParseLists(lines).value;
      r.value == (Distance(SortAscending(l1), SortAscending(l2)), Similarity(l1, l2))
  {
    var lists := ReadLists(lines);
    if lists.Err? {
      return Err(lists.message);
    }
    ListsAgree(lines, lists.value);
    var (l1, l2) := lists.value;
    var s1, s2 := SortAscending(l1), SortAscending(l2);
    var distance := CalcListDistance(s1, s2);
    var counts := CountOccurrences(s2);
    var similarity := SimilarityScore(s1, counts, s2);
    SimilarityPermutation(s1, l1, s2);
    SimilarityMultiset(l1, s2, l2);
    r := Ok((distance, similarity));
  }

  lemma ListsAgree(lines: seq<string>, lists: (seq<int>, seq<int>))
    requires |lists.0| == |lines| && |lists.1| == |lines|
    requires forall i :: 0 <= i < |lines| ==> SplitLine(lines[i]) == Ok((lists.0[i], lists.1[i]))
    ensures ParseLists(lines) == Ok(lists)
  {
    var p := ParseLists(lines).value;
    assert p.0 == lists.0;
    assert p.1 == lists.1;
  }

  lemma {:induction false} SimilarityMultiset(l1: seq<int>, l2: seq<int>, l2': seq<int>)
    requires multiset(l2) == multiset(l2')
    ensures Similarity(l1, l2) == Similarity(l1, l2')
  {
    if l1 != [] {
      SimilarityMultiset(l1[..|l1| - 1], l2, l2');
    }
  }

  /** d01/part1 `main`: sort both lists ascending and sum the pairwise
      distances over the first list's length. */
  method Part1Total(lines: seq<string>) returns (r: Result<int>)
    ensures r.Ok? <==> ParseLists(lines).Ok?
    ensures r.Ok? ==>
      var (l1, l2) := ParseLists(lines).value;
      r.value == Distance(SortAscending(l1), SortAscending(l2))
  {
    var lists := ReadLists(lines);
    if lists.Err? {
      return Err(lists.message);
    }
    ListsAgree(lines, lists.value);
    var (l1, l2) := lists.value;
    var s1, s2 := SortAscending(l1), SortAscending(l2);
    var total := CalcListDistance(s1, s2);
    r := Ok(total);
  }

  /** d01/part2 `main`: count the second list into a map, then score the
      unsorted first list against it. */
  method Part2Score(lines: seq<string>) returns (r: Result<int>)
    ensures r.Ok? <==> ParseLists(lines).Ok?
    ensures r.Ok? ==> r.value == Similarity(ParseLists(lines).value.0, ParseLists(lines).value.1)
  {
    var lists := ReadLists(lines);
    if lists.Err? {
      return Err(lists.message);
    }
    ListsAgree(lines, lists.value);
    var (l1, l2) := lists.value;
    var counts := CountOccurrences(l2);
    var score := SimilarityScore(l1, counts, l2);
    r := Ok(score);
  }
}
