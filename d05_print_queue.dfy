/** Day 5: the print queue. The input holds page-ordering rules "a|b" (page b
    must not come before page a), a blank line, then one update per line as
    comma-separated pages. An update that breaks no rule contributes the
    number of its middle page. */
module PrintQueue {
  import opened Outcomes
  import opened Text

  /** For each page, the pages that must not already have been printed. */
  type Rules = map<string, set<string>>

  /** A rule line read as `getline(.., '|')` then `getline(..)`: the text
      before the first '|', and everything after it (nothing when there is
      no '|'). */
  function RuleFields(line: string): (string, string)
  {
    var i := IndexOf(line, '|');
    (line[..i], if i < |line| then line[i + 1..] else "")
  }

  /** The two pages of a rule line written "a|b" with no '|' in `a`. */
  lemma RuleFieldsOf(a: string, b: string)
    requires '|' !in a
    ensures RuleFields(a + ['|'] + b) == (a, b)
  {
    IndexOfAfter(a, '|', b);
    var line := a + ['|'] + b;
    assert line[..|a|] == a;
    assert line[|a| + 1..] == b;
  }

  /** A line without '|' is all first page, with an empty second page. */
  lemma RuleFieldsNoBar(line: string)
    requires '|' !in line
    ensures RuleFields(line) == (line, "")
  {
    assert line[..|line|] == line;
  }

  /** Adding one rule line to the map: the second page joins the set of the
      first, which is created when absent. */
  function AddRule(rules: Rules, line: string): (r: Rules)
    ensures r.Keys == rules.Keys + {RuleFields(line).0}
  {
    var (a, b) := RuleFields(line);
    rules[a := (if a in rules then rules[a] else {}) + {b}]
  }

  /** The rules the first `n` lines add, in order. */
  function RulesOf(lines: seq<string>, n: nat): Rules
    requires n <= |lines|
  {
    if n == 0 then map[] else AddRule(RulesOf(lines, n - 1), lines[n - 1])
  }

  /** One more rule line adds its own pair and keeps the others. */
  lemma AddRulePairs(rules: Rules, line: string, a: string, b: string)
    ensures (a in AddRule(rules, line) && b in AddRule(rules, line)[a]) <==>
      (a in rules && b in rules[a]) || RuleFields(line) == (a, b)
  {
  }

  /** The (first page, second page) pairs of the first `n` rule lines. */
  function RulePairs(lines: seq<string>, n: nat): set<(string, string)>
    requires n <= |lines|
  {
    if n == 0 then {} else RulePairs(lines, n - 1) + {RuleFields(lines[n - 1])}
  }

  /** The rule map records exactly the pairs of the rule lines. */
  lemma {:induction false} RulesOfPairs(lines: seq<string>, n: nat, a: string, b: string)
    requires n <= |lines|
    ensures (a in RulesOf(lines, n) && b in RulesOf(lines, n)[a]) <==> (a, b) in RulePairs(lines, n)
  {
    if n > 0 {
      RulesOfPairs(lines, n - 1, a, b);
      AddRulePairs(RulesOf(lines, n - 1), lines[n - 1], a, b);
    }
  }

  /** `read_printing_rules`: reads rule lines up to the first blank line and
      reports where that line is (or the end of the input). */
  method ReadPrintingRules(lines: seq<string>) returns (rules: Rules, blank: nat)
    ensures blank <= |lines|
    ensures forall k :: 0 <= k < blank ==> lines[k] != ""
    ensures blank < |lines| ==> lines[blank] == ""
    ensures rules == RulesOf(lines, blank)
  {
    rules := map[];
    blank := 0;
    while blank < |lines|
      invariant blank <= |lines|
      invariant forall k :: 0 <= k < blank ==> lines[k] != ""
      invariant rules == RulesOf(lines, blank)
    {
      if lines[blank] == "" {
        break;
      }
      rules := AddRule(rules, lines[blank]);
      blank := blank + 1;
    }
  }

  /** `read_printing_instructions`: every remaining line, split at ','. */
  method ReadPrintingInstructions(lines: seq<string>) returns (updates: seq<seq<string>>)
    ensures |updates| == |lines|
    ensures forall k :: 0 <= k < |lines| ==> updates[k] == Tokens(lines[k], ',')
  {
    updates := [];
    for k := 0 to |lines|
      invariant |updates| == k
      invariant forall j :: 0 <= j < k ==> updates[j] == Tokens(lines[j], ',')
    {
      updates := updates + [Tokens(lines[k], ',')];
    }
  }

  /** Some page has a rule naming a page printed before it, among the first
      `n` pages. */
  predicate BrokenWithin(update: seq<string>, rules: Rules, n: nat)
    requires n <= |update|
  {
    exists i, j :: 0 <= i < j < n && update[j] in rules && update[i] in rules[update[j]]
  }

  predicate Broken(update: seq<string>, rules: Rules)
  {
    BrokenWithin(update, rules, |update|)
  }

  /** `process_instruction`: 0 for an update that breaks a rule, otherwise the
      number on its middle page (which `stoi` may fail to read). The middle
      page of an empty update does not exist. */
  method ProcessInstruction(update: seq<string>, rules: Rules) returns (r: Result<int>)
    requires |update| > 0
    ensures r == if Broken(update, rules) then Ok(0) else ParseInt(update[|update| / 2])
  {
    var readPages: seq<string> := [];
    for j := 0 to |update|
      invariant readPages == update[..j]
      invariant !BrokenWithin(update, rules, j)
    {
      var page := update[j];
      if page in rules {
        var pageRules := rules[page];
        for k := 0 to |readPages|
          invariant forall i :: 0 <= i < k ==> update[i] !in pageRules
        {
          if readPages[k] in pageRules {
            assert BrokenWithin(update, rules, |update|) by {
              assert 0 <= k < j < |update| && update[j] in rules && update[k] in rules[update[j]];
            }
            return Ok(0);
          }
        }
      }
      readPages := readPages + [page];
    }
    return ParseInt(update[|update| / 2]);
  }

  /** An update whose pages, taken in order, never name an earlier page in
      their rules: the same notion as `!Broken`, built page by page. */
  predicate InOrder(update: seq<string>, rules: Rules)
  {
    update == [] ||
    (InOrder(update[..|update| - 1], rules) &&
     var last := update[|update| - 1];
     (last in rules ==> forall i :: 0 <= i < |update| - 1 ==> update[i] !in rules[last]))
  }

  lemma {:induction false} InOrderIff(update: seq<string>, rules: Rules)
    ensures InOrder(update, rules) <==> !Broken(update, rules)
  {
    if update != [] {
      var n := |update| - 1;
      var front := update[..n];
      InOrderIff(front, rules);
      if Broken(update, rules) {
        var i, j :| 0 <= i < j < |update| && update[j] in rules && update[i] in rules[update[j]];
        if j < n {
          assert 0 <= i < j < |front| && front[j] in rules && front[i] in rules[front[j]];
        }
      }
      if !InOrder(update, rules) {
        if !InOrder(front, rules) {
          var i, j :| 0 <= i < j < |front| && front[j] in rules && front[i] in rules[front[j]];
          assert 0 <= i < j < |update| && update[j] in rules && update[i] in rules[update[j]];
        } else {
          var i :| 0 <= i < n && update[i] in rules[update[n]];
          assert 0 <= i < n < |update| && update[n] in rules && update[i] in rules[update[n]];
        }
      }
    }
  }

  /** Printing more pages never repairs a broken update. */
  lemma BrokenPersists(update: seq<string>, more: seq<string>, rules: Rules)
    requires Broken(update, rules)
    ensures Broken(update + more, rules)
  {
    var i, j :| 0 <= i < j < |update| && update[j] in rules && update[i] in rules[update[j]];
    var u := update + more;
    assert 0 <= i < j < |u| && u[j] in rules && u[i] in rules[u[j]];
  }

  /** What one update adds to the sum. */
  function MiddlePage(update: seq<string>, rules: Rules): Result<int>
    requires |update| > 0
  {
    if Broken(update, rules) then Ok(0) else ParseInt(update[|update| / 2])
  }

  /** The sum `main` accumulates over the first `n` updates; a failing `stoi`
      ends the program. */
  function MiddlePageSum(updates: seq<seq<string>>, rules: Rules, n: nat): Result<int>
    requires n <= |updates|
    requires forall k :: 0 <= k < |updates| ==> |updates[k]| > 0
  {
    if n == 0 then Ok(0)
    else
      var front :- MiddlePageSum(updates, rules, n - 1);
      var page :- MiddlePage(updates[n - 1], rules);
      Ok(front + page)
  }

  /** Broken updates add nothing; the sum is the middle pages of the correct
      ones. */
  lemma {:induction false} BrokenAddNothing(updates: seq<seq<string>>, rules: Rules, n: nat)
    requires n <= |updates|
    requires forall k :: 0 <= k < |updates| ==> |updates[k]| > 0
    requires forall k :: 0 <= k < n ==> Broken(updates[k], rules)
    ensures MiddlePageSum(updates, rules, n) == Ok(0)
  {
    if n > 0 {
      BrokenAddNothing(updates, rules, n - 1);
    }
  }

  /** A failure in some update is a failure of the whole sum. */
  lemma {:induction false} MiddlePageSumErr(updates: seq<seq<string>>, rules: Rules, k: nat, n: nat)
    requires k <= n <= |updates|
    requires forall j :: 0 <= j < |updates| ==> |updates[j]| > 0
    requires MiddlePageSum(updates, rules, k).Err?
    ensures MiddlePageSum(updates, rules, n) == MiddlePageSum(updates, rules, k)
  {
    if k < n {
      MiddlePageSumErr(updates, rules, k, n - 1);
    }
  }

  /** Blank lines appear only as the separator: every update has a page. */
  predicate OneSeparator(lines: seq<string>)
  {
    forall k, m :: 0 <= k < m < |lines| && lines[k] == "" ==> lines[m] != ""
  }

  /** The loop of `main` over the updates. */
  method SumMiddlePages(updates: seq<seq<string>>, rules: Rules) returns (r: Result<int>)
    requires forall k :: 0 <= k < |updates| ==> |updates[k]| > 0
    ensures r == MiddlePageSum(updates, rules, |updates|)
  {
    var sum := 0;
    for k := 0 to |updates|
      invariant MiddlePageSum(updates, rules, k) == Ok(sum)
    {
      var page := ProcessInstruction(updates[k], rules);
      if page.Err? {
        MiddlePageSumErr(updates, rules, k + 1, |updates|);
        return Err(page.message);
      }
      sum := sum + page.value;
    }
    r := Ok(sum);
  }

  /** The whole program: rules up to the blank line, updates after it, and
      the sum of the middle pages of the correctly ordered updates. */
  method MiddlePages(lines: seq<string>) returns (r: Result<int>)
    requires OneSeparator(lines)
    ensures var updates := UpdatesOf(lines);
      r == MiddlePageSum(updates, RulesOf(lines, BlankIndex(lines)), |updates|)
  {
    var rules, blank := ReadPrintingRules(lines);
    BlankIndexIs(lines, blank);
    var start := Succ(blank, |lines|);
    var updates := ReadPrintingInstructions(lines[start..]);
    assert updates == UpdatesOf(lines);
    r := SumMiddlePages(updates, rules);
  }

  /** The updates: the lines after the first blank line, split at ','. */
  function UpdatesOf(lines: seq<string>): (updates: seq<seq<string>>)
    requires OneSeparator(lines)
    ensures forall k :: 0 <= k < |updates| ==> |updates[k]| > 0
  {
    var start := Succ(BlankIndex(lines), |lines|);
    var updates := seq(|lines| - start, k requires 0 <= k < |lines| - start => Tokens(lines[start + k], ','));
    assert forall k :: 0 <= k < |updates| ==> |updates[k]| > 0 by {
      forall k | 0 <= k < |updates|
        ensures |updates[k]| > 0
      {
        var b := BlankIndex(lines);
        assert b < |lines| && lines[b] == "";
        assert lines[start + k] != "";
        assert updates[k] == Tokens(lines[start + k], ',');
      }
    }
    updates
  }

  /** The index of the first blank line, or the number of lines. */
  function BlankIndex(lines: seq<string>): (b: nat)
    ensures b <= |lines|
    ensures b < |lines| ==> lines[b] == ""
  {
    if lines == [] then 0
    else if lines[0] == "" then 0
    else 1 + BlankIndex(lines[1..])
  }

  lemma {:induction false} BlankIndexIs(lines: seq<string>, b: nat)
    requires b <= |lines|
    requires forall k :: 0 <= k < b ==> lines[k] != ""
    requires b < |lines| ==> lines[b] == ""
    ensures BlankIndex(lines) == b
  {
    if lines != [] && lines[0] != "" {
      BlankIndexIs(lines[1..], b - 1);
    }
  }

  /** Where the updates start: just past the blank line. */
  function Succ(b: nat, n: nat): (s: nat)
    requires b <= n
    ensures s <= n
  {
    if b < n then b + 1 else n
  }
}
