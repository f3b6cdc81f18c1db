/** Day 7: bridge repair. Each equation is a test value and a list of terms;
    it is valid when some choice of operators, applied strictly left to right,
    turns the terms into the test value. Values are 64-bit unsigned. */
module BridgeRepair {
  import opened Outcomes
  import opened Text

  datatype Equation = Equation(result: nat, terms: seq<nat>)

  datatype Op = Add | Mul | Cat

  /** The three operations of `main`, in the order `any_of` tries them. */
  const Operations: seq<Op> := [Add, Mul, Cat]

  /** The number the decimal text of `a` followed by that of `b` denotes. */
  function Joined(a: nat, b: nat): nat
  {
    a * Pow10(|NatToString(b)|) + b
  }

  /** Writing both numbers to one stream and reading the text back gives
      `Joined`. */
  lemma JoinedReadsBack(a: nat, b: nat)
    ensures ParseUnsigned(NatToString(a) + NatToString(b)) == Ok(Joined(a, b))
  {
    var s := NatToString(a) + NatToString(b);
    DigitsValueAppend(NatToString(a), NatToString(b));
    DigitRunOfDigits(s, []);
    assert s + [] == s;
    assert s[..|s|] == s;
    assert SkipSpaces(s) == s;
  }

  /** The three operations on `unsigned long`: sum and product wrap around;
      the concatenation is read back with `stoul`, which throws when it does
      not fit. */
  function Apply(op: Op, a: nat, b: nat): (r: Result<nat>)
    ensures r.Ok? ==> r.value < ULongLimit
    ensures op != Cat ==> r.Ok?
  {
    match op
    case Add => Ok((a + b) % ULongLimit)
    case Mul => Ok((a * b) % ULongLimit)
    case Cat =>
      var v := Joined(a, b);
      if v < ULongLimit then Ok(v) else Err("stoul: out of range")
  }

  /** The `evaluate` lambda: at the last term compare with the test value,
      otherwise try each operation on the next term in turn. */
  function Evaluate(terms: seq<nat>, result: nat, ops: seq<Op>, i: nat, cur: nat): (r: Result<bool>)
    requires i < |terms|
    ensures r.Err? ==> r.message == "stoul: out of range"
    decreases |terms| - i, 1, 0
  {
    if i == |terms| - 1 then Ok(cur == result)
    else AnyOp(terms, result, ops, i, cur, 0)
  }

  /** `std::ranges::any_of` over the operations from the `j`-th on: stops at
      the first that succeeds; an exception ends it. */
  function AnyOp(terms: seq<nat>, result: nat, ops: seq<Op>, i: nat, cur: nat, j: nat): (r: Result<bool>)
    requires i + 1 < |terms| && j <= |ops|
    ensures r.Err? ==> r.message == "stoul: out of range"
    decreases |terms| - i, 0, |ops| - j
  {
    if j == |ops| then Ok(false)
    else
      var v :- Apply(ops[j], cur, terms[i + 1]);
      var found :- Evaluate(terms, result, ops, i + 1, v);
      if found then Ok(true) else AnyOp(terms, result, ops, i, cur, j + 1)
  }

  /** `is_valid_equation`: an equation with no terms is invalid. */
  function IsValidEquation(eq: Equation, ops: seq<Op>): (r: Result<bool>)
    ensures eq.terms == [] ==> r == Ok(false)
    ensures r.Ok? && eq.terms != [] ==>
      (r.value <==> exists choice :: Reaches(eq.terms, eq.result, ops, 0, eq.terms[0], choice))
    ensures r.Err? ==> r.message == "stoul: out of range"
  {
    if eq.terms == [] then Ok(false)
    else
      var r := Evaluate(eq.terms, eq.result, ops, 0, eq.terms[0]);
      if r.Ok? then EvaluateIff(eq.terms, eq.result, ops, 0, eq.terms[0]); r else r
  }

  /** The value the terms from index `from` on give, starting from `cur`,
      with the operators `choice`, strictly left to right. */
  function ApplyAll(cur: nat, terms: seq<nat>, from: nat, choice: seq<Op>): Result<nat>
    requires from + |choice| == |terms|
    decreases |choice|
  {
    if choice == [] then Ok(cur)
    else
      var v :- Apply(choice[0], cur, terms[from]);
      ApplyAll(v, terms, from + 1, choice[1..])
  }

  /** A choice of operators, all from `ops`, that reaches `result` from the
      terms after index `i` starting at `cur`. */
  predicate Reaches(terms: seq<nat>, result: nat, ops: seq<Op>, i: nat, cur: nat, choice: seq<Op>)
    requires i < |terms|
  {
    |choice| == |terms| - 1 - i && (forall k :: 0 <= k < |choice| ==> choice[k] in ops) &&
    ApplyAll(cur, terms, i + 1, choice) == Ok(result)
  }

  /** When the search finishes, it says whether some choice of operators
      reaches the test value. */
  lemma {:induction false} EvaluateIff(terms: seq<nat>, result: nat, ops: seq<Op>, i: nat, cur: nat)
    requires i < |terms| && Evaluate(terms, result, ops, i, cur).Ok?
    ensures Evaluate(terms, result, ops, i, cur).value <==>
      exists choice :: Reaches(terms, result, ops, i, cur, choice)
    decreases |terms| - i, 1, 0
  {
    if i == |terms| - 1 {
      if Evaluate(terms, result, ops, i, cur).value {
        assert Reaches(terms, result, ops, i, cur, []);
      }
      forall choice | Reaches(terms, result, ops, i, cur, choice)
        ensures cur == result
      {
        assert choice == [];
      }
    } else {
      AnyOpIff(terms, result, ops, i, cur, 0);
    }
  }

  /** The same for the operations from the `j`-th on, for the first
      operator. */
  lemma {:induction false} AnyOpIff(terms: seq<nat>, result: nat, ops: seq<Op>, i: nat, cur: nat, j: nat)
    requires i + 1 < |terms| && j <= |ops| && AnyOp(terms, result, ops, i, cur, j).Ok?
    ensures AnyOp(terms, result, ops, i, cur, j).value <==>
      exists choice :: Reaches(terms, result, ops, i, cur, choice) && choice[0] in ops[j..]
    decreases |terms| - i, 0, |ops| - j
  {
    if j < |ops| {
      var v := Apply(ops[j], cur, terms[i + 1]).value;
      EvaluateIff(terms, result, ops, i + 1, v);
      if Evaluate(terms, result, ops, i + 1, v).value {
        var rest :| Reaches(terms, result, ops, i + 1, v, rest);
        ReachesCons(terms, result, ops, i, cur, ops[j], rest);
        assert ops[j] in ops[j..];
      } else {
        AnyOpIff(terms, result, ops, i, cur, j + 1);
        forall choice | Reaches(terms, result, ops, i, cur, choice) && choice[0] in ops[j..]
          ensures choice[0] in ops[j + 1..]
        {
          if choice[0] == ops[j] {
            ReachesTail(terms, result, ops, i, cur, choice);
            assert false;
          }
          var k :| j <= k < |ops| && ops[k] == choice[0];
          assert ops[k] == ops[j + 1..][k - j - 1];
        }
      }
    }
  }

  /** An operator in front of a choice for the next term gives a choice for
      this one. */
  lemma ReachesCons(terms: seq<nat>, result: nat, ops: seq<Op>, i: nat, cur: nat, op: Op, rest: seq<Op>)
    requires i + 1 < |terms| && op in ops && Apply(op, cur, terms[i + 1]).Ok?
    requires Reaches(terms, result, ops, i + 1, Apply(op, cur, terms[i + 1]).value, rest)
    ensures Reaches(terms, result, ops, i, cur, [op] + rest)
  {
    assert ([op] + rest)[1..] == rest;
  }

  /** A choice for this term starts with an operator that applies, followed
      by a choice for the next term. */
  lemma ReachesTail(terms: seq<nat>, result: nat, ops: seq<Op>, i: nat, cur: nat, choice: seq<Op>)
    requires i + 1 < |terms| && Reaches(terms, result, ops, i, cur, choice)
    ensures Apply(choice[0], cur, terms[i + 1]).Ok?
    ensures Reaches(terms, result, ops, i + 1, Apply(choice[0], cur, terms[i + 1]).value, choice[1..])
  {
  }

  /** Without the concatenation nothing can throw. */
  lemma {:induction false} NoCatNoError(terms: seq<nat>, result: nat, ops: seq<Op>, i: nat, cur: nat)
    requires i < |terms| && Cat !in ops
    ensures Evaluate(terms, result, ops, i, cur).Ok?
    decreases |terms| - i, 1, 0
  {
    if i < |terms| - 1 {
      NoCatNoErrorFrom(terms, result, ops, i, cur, 0);
    }
  }

  lemma {:induction false} NoCatNoErrorFrom(terms: seq<nat>, result: nat, ops: seq<Op>, i: nat, cur: nat, j: nat)
    requires i + 1 < |terms| && j <= |ops| && Cat !in ops
    ensures AnyOp(terms, result, ops, i, cur, j).Ok?
    decreases |terms| - i, 0, |ops| - j
  {
    if j < |ops| {
      var v := Apply(ops[j], cur, terms[i + 1]).value;
      NoCatNoError(terms, result, ops, i + 1, v);
      NoCatNoErrorFrom(terms, result, ops, i, cur, j + 1);
    }
  }

  /** The terms read from the first `n` tokens: empty tokens are skipped,
      every other one goes through `stoul`. */
  function TermsOf(ts: seq<string>, n: nat): Result<seq<nat>>
    requires n <= |ts|
  {
    if n == 0 then Ok([])
    else
      var front :- TermsOf(ts, n - 1);
      if ts[n - 1] == "" then Ok(front)
      else
        var v :- ParseULong(ts[n - 1]);
        Ok(front + [v])
  }

  /** One line of the input: the test value is the text before the first
      ':', the terms are the ' '-separated tokens after it. The terms are read
      before the test value. */
  function EquationOf(line: string): Result<Equation>
  {
    var ts := Tokens(TermText(line), ' ');
    var terms :- TermsOf(ts, |ts|);
    var result :- ParseULong(ValueText(line));
    Ok(Equation(result, terms))
  }

  /** The text after the first ':', or nothing when there is none. */
  function TermText(line: string): string
  {
    var i := IndexOf(line, ':');
    if i < |line| then line[i + 1..] else []
  }

  /** The text before the first ':', or the whole line. */
  function ValueText(line: string): string
  {
    line[..IndexOf(line, ':')]
  }

  /** An equation written the way the puzzle input writes it:
      "190: 10 19". */
  function Render(eq: Equation): string
  {
    NatToString(eq.result) + ":" + Join([""] + Numerals(eq.terms), ' ')
  }

  /** The terms written after an empty token read back in order. */
  lemma {:induction false} TermsOfNumerals(xs: seq<nat>, n: nat)
    requires n <= |xs|
    requires forall k :: 0 <= k < |xs| ==> xs[k] < ULongLimit
    ensures TermsOf([""] + Numerals(xs), n + 1) == Ok(xs[..n])
  {
    if n > 0 {
      TermsOfNumerals(xs, n - 1);
      var ts := [""] + Numerals(xs);
      var t := NatToString(xs[n - 1]);
      assert ts[n] == t;
      ParseULongNumeral(xs[n - 1]);
      TermsOfStep(ts, n + 1, xs[..n - 1], xs[n - 1]);
      assert xs[..n - 1] + [xs[n - 1]] == xs[..n];
    }
  }

  /** A token that is not empty and reads through `stoul` adds its value. */
  lemma TermsOfStep(ts: seq<string>, n: nat, front: seq<nat>, v: nat)
    requires 0 < n <= |ts| && TermsOf(ts, n - 1) == Ok(front)
    requires ts[n - 1] != "" && ParseULong(ts[n - 1]) == Ok(v)
    ensures TermsOf(ts, n) == Ok(front + [v])
  {
  }

  /** A line is read as its test value text, a ':', and the token text. */
  lemma ReadParts(line: string, s: string, rest: string, terms: seq<nat>, v: nat)
    requires line == s + [':'] + rest && ':' !in s
    requires TermsOf(Tokens(rest, ' '), |Tokens(rest, ' ')|) == Ok(terms)
    requires ParseULong(s) == Ok(v)
    ensures EquationOf(line) == Ok(Equation(v, terms))
  {
    IndexOfAfter(s, ':', rest);
    assert line[..|s|] == s;
    assert line[|s| + 1..] == rest;
  }

  /** The term text of a written equation splits and reads back to the
      terms. */
  lemma RenderedTerms(xs: seq<nat>)
    requires |xs| >= 1
    requires forall k :: 0 <= k < |xs| ==> xs[k] < ULongLimit
    ensures var ts := Tokens(Join([""] + Numerals(xs), ' '), ' ');
      TermsOf(ts, |ts|) == Ok(xs)
  {
    var toks := [""] + Numerals(xs);
    NumeralTokensJoinable(xs, toks);
    JoinTokens(toks, ' ');
    NumeralTermsRead(xs, toks);
  }

  /** All the numerals after the empty token read back as the terms. */
  lemma NumeralTermsRead(xs: seq<nat>, toks: seq<string>)
    requires forall k :: 0 <= k < |xs| ==> xs[k] < ULongLimit
    requires toks == [""] + Numerals(xs)
    ensures TermsOf(toks, |toks|) == Ok(xs)
  {
    TermsOfNumerals(xs, |xs|);
    assert xs[..|xs|] == xs;
  }

  /** No numeral, and not the empty token before them, holds a space, and
      the last numeral is not empty. */
  lemma NumeralTokensJoinable(xs: seq<nat>, toks: seq<string>)
    requires |xs| >= 1 && toks == [""] + Numerals(xs)
    ensures Joinable(toks, ' ')
  {
    assert toks[|toks| - 1] == NatToString(xs[|xs| - 1]);
    forall k | 0 <= k < |toks|
      ensures ' ' !in toks[k]
    {
      if k > 0 {
        var d := NatToString(xs[k - 1]);
        assert toks[k] == d;
        assert forall m :: 0 <= m < |d| ==> IsDigit(d[m]);
      }
    }
  }

  /** Reading a written equation gives it back. */
  lemma EquationRoundTrip(eq: Equation)
    requires |eq.terms| >= 1 && eq.result < ULongLimit
    requires forall k :: 0 <= k < |eq.terms| ==> eq.terms[k] < ULongLimit
    ensures EquationOf(Render(eq)) == Ok(eq)
  {
    var s := NatToString(eq.result);
    assert ':' !in s by {
      assert forall k :: 0 <= k < |s| ==> IsDigit(s[k]);
    }
    RenderedTerms(eq.terms);
    ParseULongNumeral(eq.result);
    ReadParts(Render(eq), s, Join([""] + Numerals(eq.terms), ' '), eq.terms, eq.result);
  }

  /** The term loop of `read_equations_from_file`. */
  method ReadTerms(ts: seq<string>) returns (r: Result<seq<nat>>)
    ensures r == TermsOf(ts, |ts|)
  {
    var terms: seq<nat> := [];
    for k := 0 to |ts|
      invariant TermsOf(ts, k) == Ok(terms)
    {
      if ts[k] == "" {
        continue;
      }
      var term := ParseULong(ts[k]);
      if term.Err? {
        TermsOfErr(ts, k + 1, |ts|);
        return Err(term.message);
      }
      terms := terms + [term.value];
    }
    r := Ok(terms);
  }

  /** One line of `read_equations_from_file`. */
  method ReadEquation(line: string) returns (r: Result<Equation>)
    ensures r == EquationOf(line)
  {
    var terms := ReadTerms(Tokens(TermText(line), ' '));
    if terms.Err? {
      return Err(terms.message);
    }
    var result := ParseULong(ValueText(line));
    if result.Err? {
      return Err(result.message);
    }
    r := Ok(Equation(result.value, terms.value));
  }

  lemma {:induction false} TermsOfErr(ts: seq<string>, k: nat, n: nat)
    requires k <= n <= |ts| && TermsOf(ts, k).Err?
    ensures TermsOf(ts, n) == TermsOf(ts, k)
  {
    if k < n {
      TermsOfErr(ts, k, n - 1);
    }
  }

  /** `read_equations_from_file` over the lines of the input: the first
      line that fails to read ends the program. */
  method ReadEquations(lines: seq<string>) returns (r: Result<seq<Equation>>)
    ensures r == MapAll(EquationOf, lines, |lines|)
  {
    var equations: seq<Equation> := [];
    for k := 0 to |lines|
      invariant MapAll(EquationOf, lines, k) == Ok(equations)
    {
      var next := ReadNextEquation(lines, k, equations);
      if next.Err? {
        return next;
      }
      equations := next.value;
    }
    r := Ok(equations);
  }

  /** One pass of the reading loop: the equation of line `k` joins those
      read so far, or its failure ends the reading. */
  method ReadNextEquation(lines: seq<string>, k: nat, equations: seq<Equation>)
    returns (r: Result<seq<Equation>>)
    requires k < |lines| && MapAll(EquationOf, lines, k) == Ok(equations)
    ensures r == MapAll(EquationOf, lines, k + 1)
    ensures r.Err? ==> r == MapAll(EquationOf, lines, |lines|)
  {
    var eq := ReadEquation(lines[k]);
    MapAllStep(EquationOf, lines, k, equations);
    if eq.Err? {
      MapAllErr(EquationOf, lines, k + 1, |lines|);
    }
    r := if eq.Ok? then Ok(equations + [eq.value]) else Err(eq.message);
  }

  /** The sum, wrapping like `unsigned long`, of the test values of the
      valid equations among the first `n`. */
  function ValidSum(eqs: seq<Equation>, ops: seq<Op>, n: nat): Result<nat>
    requires n <= |eqs|
  {
    if n == 0 then Ok(0)
    else
      var front :- ValidSum(eqs, ops, n - 1);
      var valid :- IsValidEquation(eqs[n - 1], ops);
      Ok(if valid then (front + eqs[n - 1].result) % ULongLimit else front)
  }

  /** The loop of `main`. */
  method TestValueSum(eqs: seq<Equation>, ops: seq<Op>) returns (r: Result<nat>)
    ensures r == ValidSum(eqs, ops, |eqs|)
  {
    var sum := 0;
    for k := 0 to |eqs|
      invariant ValidSum(eqs, ops, k) == Ok(sum)
    {
      var valid := IsValidEquation(eqs[k], ops);
      if valid.Err? {
        ValidSumErr(eqs, ops, k + 1, |eqs|);
        return Err(valid.message);
      }
      if valid.value {
        sum := (sum + eqs[k].result) % ULongLimit;
      }
    }
    r := Ok(sum);
  }

  lemma {:induction false} ValidSumErr(eqs: seq<Equation>, ops: seq<Op>, k: nat, n: nat)
    requires k <= n <= |eqs| && ValidSum(eqs, ops, k).Err?
    ensures ValidSum(eqs, ops, n) == ValidSum(eqs, ops, k)
  {
    if k < n {
      ValidSumErr(eqs, ops, k, n - 1);
    }
  }

  /** An equation with a single term is valid exactly when the term is the
      test value. */
  lemma SingleTerm(eq: Equation, ops: seq<Op>)
    requires |eq.terms| == 1
    ensures IsValidEquation(eq, ops) == Ok(eq.terms[0] == eq.result)
  {
  }
}
