/** Day 2: reports of levels, one per line. A report is safe when its levels
    all rise or all fall, by 1 to 3 at each step. The later revision
    (src/d02) also counts reports made safe by removing one level. */
module Reports {
  import opened Outcomes
  import opened Text

  type Report = seq<int>

  function Abs(x: int): nat { if x < 0 then -x else x }

  /** The intended notion of safety: every step rises by 1..3, or every step
      falls by 1..3. */
  predicate Monotone(r: Report) {
    (forall i :: 0 <= i < |r| - 1 ==> r[i] < r[i + 1] <= r[i] + 3) ||
    (forall i :: 0 <= i < |r| - 1 ==> r[i] - 3 <= r[i + 1] < r[i])
  }

  /** The numbers of one line: `std::getline` on ' ' then `std::stoi` on every
      token; an unparsable token (two spaces in a row, say) throws. */
  function ParseAll(tokens: seq<string>): (r: Result<Report>)
    ensures r.Ok? <==> forall k :: 0 <= k < |tokens| ==> ParseInt(tokens[k]).Ok?
    ensures r.Ok? ==> |r.value| == |tokens|
    ensures r.Ok? ==> forall k :: 0 <= k < |tokens| ==> r.value[k] == ParseInt(tokens[k]).value
  {
    if tokens == [] then Ok([])
    else
      var last := |tokens| - 1;
      var rest := ParseAll(tokens[..last]);
      var x := ParseInt(tokens[last]);
      if rest.Err? then Err(rest.message)
      else if x.Err? then Err(x.message)
      else Ok(rest.value + [x.value])
  }

  function ReadReport(line: string): Result<Report>
  {
    ParseAll(Tokens(line, ' '))
  }

  function Render(r: Report): seq<string>
    ensures |Render(r)| == |r|
    ensures forall k :: 0 <= k < |r| ==> Render(r)[k] == IntToString(r[k])
  {
    if r == [] then [] else [IntToString(r[0])] + Render(r[1..])
  }

  /** Writing the levels separated by single spaces and reading the line back
      gives the same report. */
  lemma ReadReportRoundTrip(r: Report)
    ensures ReadReport(Join(Render(r), ' ')) == Ok(r)
  {
    var ts := Render(r);
    forall k | 0 <= k < |ts| ensures ' ' !in ts[k] {
      IntToStringShape(r[k]);
      assert forall j :: 0 <= j < |ts[k]| ==> ts[k][j] != ' ';
    }
    if r != [] {
      IntToStringShape(r[|r| - 1]);
    }
    JoinTokens(ts, ' ');
    forall k | 0 <= k < |r| ensures ParseInt(ts[k]) == Ok(r[k]) {
      ParseIntPrefix(r[k], "");
      assert ts[k] + "" == ts[k];
    }
    var p := ParseAll(ts);
    assert p.value == r;
  }

  /** `read_reports_from_file`: one report per line. */
  function ReadReports(lines: seq<string>): (r: Result<seq<Report>>)
    ensures r.Ok? <==> forall k :: 0 <= k < |lines| ==> ReadReport(lines[k]).Ok?
    ensures r.Ok? ==> |r.value| == |lines|
    ensures r.Ok? ==> forall k :: 0 <= k < |lines| ==> r.value[k] == ReadReport(lines[k]).value
  {
    if lines == [] then Ok([])
    else
      var last := |lines| - 1;
      var rest := ReadReports(lines[..last]);
      var x := ReadReport(lines[last]);
      if rest.Err? then Err(rest.message)
      else if x.Err? then Err(x.message)
      else Ok(rest.value + [x.value])
  }

  /** The two pair tests handed to `std::adjacent_find`: a rising step, and
      the unsafe-step test against a chosen direction. */
  datatype StepTest = Rising | UnsafeStep(increasing: bool)

  /** The unsafe-step lambda of both revisions: a step against the chosen
      direction, or a difference outside 1..3. */
  predicate Holds(test: StepTest, e1: int, e2: int)
  {
    match test
    case Rising => e1 < e2
    case UnsafeStep(increasing) =>
      (e1 < e2) != increasing || Abs(e2 - e1) > 3 || Abs(e2 - e1) < 1
  }

  /** `std::adjacent_find` from position `from`: the first `i` whose pair
      (r[i], r[i + 1]) passes the test, or |r| (the end iterator). */
  function AdjacentFind(r: Report, from: nat, test: StepTest): (i: nat)
    requires from <= |r|
    ensures from <= i <= |r|
    ensures i < |r| ==> i + 1 < |r| && Holds(test, r[i], r[i + 1])
    decreases |r| - from
  {
    if from + 1 >= |r| then |r|
    else if Holds(test, r[from], r[from + 1]) then from
    else AdjacentFind(r, from + 1, test)
  }

  /** No step between `from` and the one found passes the test. */
  lemma {:induction false} AdjacentFindFirst(r: Report, from: nat, test: StepTest)
    requires from <= |r|
    ensures forall k :: from <= k < AdjacentFind(r, from, test) && k + 1 < |r| ==>
      !Holds(test, r[k], r[k + 1])
    decreases |r| - from
  {
    if from + 1 < |r| && !Holds(test, r[from], r[from + 1]) {
      AdjacentFindFirst(r, from + 1, test);
    }
  }

  /** src/d02 `is_report_increasing`: a first rising step, and another one
      after it. */
  function IsReportIncreasing(r: Report): (b: bool)
    ensures b ==> |r| >= 3
  {
    var first := AdjacentFind(r, 0, Rising);
    first != |r| && AdjacentFind(r, first + 1, Rising) != |r|
  }

  predicate Rises(r: Report, i: nat) { i + 1 < |r| && r[i] < r[i + 1] }

  /** The direction test holds exactly when two different steps rise. */
  lemma IsReportIncreasingIff(r: Report)
    ensures IsReportIncreasing(r) <==> exists i, j :: i < j && Rises(r, i) && Rises(r, j)
  {
    var first := AdjacentFind(r, 0, Rising);
    if IsReportIncreasing(r) {
      var second := AdjacentFind(r, first + 1, Rising);
      assert Rises(r, first) && Rises(r, second);
    }
    if exists i, j :: i < j && Rises(r, i) && Rises(r, j) {
      var i, j :| i < j && Rises(r, i) && Rises(r, j);
      TwoRisesFound(r, i, j);
    }
  }

  lemma TwoRisesFound(r: Report, i: nat, j: nat)
    requires i < j && Rises(r, i) && Rises(r, j)
    ensures IsReportIncreasing(r)
  {
    AdjacentFindFirst(r, 0, Rising);
    var first := AdjacentFind(r, 0, Rising);
    assert Holds(Rising, r[i], r[i + 1]);
    assert first <= i;
    AdjacentFindFirst(r, first + 1, Rising);
    assert Holds(Rising, r[j], r[j + 1]);
    assert AdjacentFind(r, first + 1, Rising) <= j;
  }

  /** src/d02 `find_unsafe_level`: the first level of the first bad step, or
      |r| when there is none (always for fewer than two levels). */
  function FindUnsafeLevel(r: Report): (k: nat)
    ensures k <= |r|
    ensures k < |r| ==> k + 1 < |r| && Holds(UnsafeStep(IsReportIncreasing(r)), r[k], r[k + 1])
  {
    if |r| < 2 then |r| else AdjacentFind(r, 0, UnsafeStep(IsReportIncreasing(r)))
  }

  predicate IsSafe(r: Report) { FindUnsafeLevel(r) == |r| }

  /** Every step goes the given way, by 1 to 3. */
  predicate Steady(r: Report, increasing: bool) {
    forall k :: 0 <= k < |r| - 1 ==>
      if increasing then r[k] < r[k + 1] <= r[k] + 3 else r[k] - 3 <= r[k + 1] < r[k]
  }

  /** `adjacent_find` with the unsafe-step test reaches the end exactly when
      every step goes the chosen way by 1 to 3. */
  lemma NoUnsafeStepIff(r: Report, increasing: bool)
    ensures AdjacentFind(r, 0, UnsafeStep(increasing)) == |r| <==> Steady(r, increasing)
  {
    var i := AdjacentFind(r, 0, UnsafeStep(increasing));
    AdjacentFindFirst(r, 0, UnsafeStep(increasing));
    if i == |r| {
      forall k | 0 <= k < |r| - 1
        ensures if increasing then r[k] < r[k + 1] <= r[k] + 3 else r[k] - 3 <= r[k + 1] < r[k]
      {
        assert !Holds(UnsafeStep(increasing), r[k], r[k + 1]);
      }
    } else {
      assert Holds(UnsafeStep(increasing), r[i], r[i + 1]);
    }
  }

  /** A report with at least three levels is safe exactly when it is
      monotone with steps of 1 to 3. */
  lemma IsSafeFromThreeLevels(r: Report)
    requires |r| >= 3
    ensures IsSafe(r) <==> Monotone(r)
  {
    IsReportIncreasingIff(r);
    var inc := IsReportIncreasing(r);
    NoUnsafeStepIff(r, inc);
    if Steady(r, true) {
      assert Rises(r, 0) && Rises(r, 1);
    }
  }

  /** Two levels: the direction test never holds for a single step, so a
      rising pair counts as unsafe and a falling pair by 1..3 as safe. */
  lemma IsSafeTwoLevels(r: Report)
    requires |r| == 2
    ensures IsSafe(r) <==> r[1] < r[0] <= r[1] + 3
  {
    IsReportIncreasingIff(r);
    assert FindUnsafeLevel(r) == if Holds(UnsafeStep(false), r[0], r[1]) then 0 else 2;
  }

  lemma IsSafeShortReports(r: Report)
    requires |r| < 2
    ensures IsSafe(r)
  {
  }

  /** src/d02 `damp_report`: the report without the level at `k`. */
  function DampReport(r: Report, k: nat): (d: Report)
    requires k < |r|
    ensures |d| == |r| - 1
    ensures forall i :: 0 <= i < |d| ==> d[i] == if i < k then r[i] else r[i + 1]
  {
    r[..k] + r[k + 1..]
  }

  /** src/d02 `check_damped_report_safety`: safe as it is, or after removing
      the first or the second level of the first bad step. */
  predicate CheckDampedReportSafety(r: Report)
    ensures IsSafe(r) ==> CheckDampedReportSafety(r)
    ensures |r| <= 2 ==> CheckDampedReportSafety(r)
  {
    var k := FindUnsafeLevel(r);
    k == |r| || IsSafe(DampReport(r, k)) ||
    (k + 1 < |r| && IsSafe(DampReport(r, k + 1)))
  }

  /** The dampener accepts every safe report, and whatever it accepts is safe
      after removing at most one level. */
  lemma DampenerSound(r: Report)
    ensures IsSafe(r) ==> CheckDampedReportSafety(r)
    ensures CheckDampedReportSafety(r) ==>
      IsSafe(r) || exists k :: 0 <= k < |r| && IsSafe(DampReport(r, k))
  {
    var k := FindUnsafeLevel(r);
    if CheckDampedReportSafety(r) && k < |r| {
      if !IsSafe(DampReport(r, k)) {
        assert IsSafe(DampReport(r, k + 1));
      }
    }
  }

  /** d02/src `check_report_safety`: at most two levels are always safe;
      otherwise the direction is that of the first step. */
  predicate CheckReportSafety(r: Report)
    ensures |r| <= 2 ==> CheckReportSafety(r)
    ensures CheckReportSafety(r) && |r| > 2 ==> r[0] != r[1] && Abs(r[1] - r[0]) <= 3
  {
    |r| <= 2 || AdjacentFind(r, 0, UnsafeStep(r[0] < r[1])) == |r|
  }

  /** The earlier revision accepts the reports of at most two levels and the
      monotone ones. */
  lemma CheckReportSafetyIff(r: Report)
    ensures CheckReportSafety(r) <==> |r| <= 2 || Monotone(r)
  {
    if |r| > 2 {
      NoUnsafeStepIff(r, r[0] < r[1]);
    }
  }

  /** From three levels up, both revisions judge a report alike. */
  lemma RevisionsAgree(r: Report)
    requires |r| >= 3
    ensures IsSafe(r) <==> CheckReportSafety(r)
  {
    IsSafeFromThreeLevels(r);
    CheckReportSafetyIff(r);
  }

  /** `std::ranges::count_if` over the reports. */
  function CountSafe(reports: seq<Report>): (n: nat)
    ensures n <= |reports|
  {
    if reports == [] then 0
    else
      var last := reports[|reports| - 1];
      CountSafe(reports[..|reports| - 1]) + if IsSafe(last) then 1 else 0
  }

  function CountDampedSafe(reports: seq<Report>): (n: nat)
    ensures n <= |reports|
  {
    if reports == [] then 0
    else
      var last := reports[|reports| - 1];
      CountDampedSafe(reports[..|reports| - 1]) + if CheckDampedReportSafety(last) then 1 else 0
  }

  function CountSafeOldRevision(reports: seq<Report>): (n: nat)
    ensures n <= |reports|
  {
    if reports == [] then 0
    else
      var last := reports[|reports| - 1];
      CountSafeOldRevision(reports[..|reports| - 1]) + if CheckReportSafety(last) then 1 else 0
  }

  /** The dampener never lowers the count. */
  lemma {:induction false} DampenedCountAtLeast(reports: seq<Report>)
    ensures CountSafe(reports) <= CountDampedSafe(reports)
  {
    if reports != [] {
      DampenedCountAtLeast(reports[..|reports| - 1]);
      DampenerSound(reports[|reports| - 1]);
    }
  }

  /** src/d02 `main`: the two counts over the reports of the input lines. */
  function SafeCounts(lines: seq<string>): (r: Result<(nat, nat)>)
    ensures r.Ok? <==> ReadReports(lines).Ok?
    ensures r.Ok? ==> r.value.0 <= r.value.1 <= |lines|
  {
    var reports :- ReadReports(lines);
    DampenedCountAtLeast(reports);
    Ok((CountSafe(reports), CountDampedSafe(reports)))
  }

  /** d02/src `main`: the number of reports safe under the earlier rule. */
  function SafeCountOldRevision(lines: seq<string>): (r: Result<nat>)
    ensures r.Ok? <==> ReadReports(lines).Ok?
    ensures r.Ok? ==> r.value <= |lines|
  {
    var reports :- ReadReports(lines);
    Ok(CountSafeOldRevision(reports))
  }
}
