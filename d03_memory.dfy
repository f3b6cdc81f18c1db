/** Day 3: corrupted memory. The regular expression scan yields the matches
    `do()`, `don't()` and `mul(a,b)` in order of appearance; the model takes
    that sequence of matches as its input. An enable flag, initially set,
    decides whether each `mul` adds its product to the sum. */
module CorruptedMemory {
  import opened Outcomes
  import opened Text

  const DoFunc: string := "do()"
  const DontFunc: string := "don't()"

  /** `extract_mul_parameters`: the first argument is read from offset 4 with
      a length equal to the comma's index (so it runs past the comma, where
      `std::stoi` stops), the second from just after the comma. A text
      shorter than 4 characters makes `substr` throw; without a comma the
      index is npos and the second read starts at offset 0. */
  function ExtractMulParameters(f: string): Result<(int, int)>
  {
    if |f| < 4 then Err("substr: position out of range")
    else
      var delim := IndexOf(f, ',');
      var arg1 := f[4..Arg1End(f, delim)];
      var arg2 := if delim == |f| then f else f[delim + 1..];
      var a :- ParseInt(arg1);
      var b :- ParseInt(arg2);
      Ok((a, b))
  }

  /** `substr(4, n)` stops at the end of the text. */
  function Arg1End(f: string, n: nat): (end: nat)
    requires |f| >= 4
    ensures 4 <= end <= |f|
  {
    if 4 + n <= |f| then 4 + n else |f|
  }

  function MulText(a: nat, b: nat): string
  {
    "mul(" + (NatToString(a) + ([','] + (NatToString(b) + ")")))
  }

  lemma NoCommaInNumber(n: nat)
    ensures ',' !in NatToString(n)
  {
    var d := NatToString(n);
    assert forall k :: 0 <= k < |d| ==> IsDigit(d[k]);
  }

  lemma MulTextShape(a: nat, b: nat)
    ensures var f := MulText(a, b);
      var sa, sb := NatToString(a), NatToString(b);
      IndexOf(f, ',') == 4 + |sa| && |f| == 6 + |sa| + |sb| &&
      f[4..] == sa + ([','] + (sb + ")"))
  {
    var sa, sb := NatToString(a), NatToString(b);
    var f := MulText(a, b);
    NoCommaInNumber(a);
    assert f == ("mul(" + sa) + [','] + (sb + ")");
    assert ',' !in "mul(" + sa;
    IndexOfAfter("mul(" + sa, ',', sb + ")");
  }

  lemma ExtractAt(f: string, delim: nat, a: int, b: int)
    requires |f| >= 4 && delim < |f| && IndexOf(f, ',') == delim
    requires ParseInt(f[4..Arg1End(f, delim)]) == Ok(a)
    requires ParseInt(f[delim + 1..]) == Ok(b)
    ensures ExtractMulParameters(f) == Ok((a, b))
  {
  }

  lemma TakePastPrefix(s: string, t: string, k: nat)
    requires |s| <= k <= |s| + |t|
    ensures (s + t)[..k] == s + t[..k - |s|]
  {
  }

  lemma DropPastPrefix(s: string, t: string, k: nat)
    requires |s| <= k <= |s| + |t|
    ensures (s + t)[k..] == t[k - |s|..]
  {
  }

  lemma FirstArgument(f: string, sa: string, rest: string)
    requires |f| >= 4 && f[4..] == sa + ([','] + rest)
    requires |sa| >= 1 && AllDigits(sa)
    ensures ParseInt(f[4..Arg1End(f, 4 + |sa|)]) == Ok(DigitsValue(sa))
  {
    var args := f[4..];
    var end := Arg1End(f, 4 + |sa|);
    assert f[4..end] == args[..end - 4];
    TakePastPrefix(sa, [','] + rest, end - 4);
    var tail := ([','] + rest)[..end - 4 - |sa|];
    assert tail[0] == ',';
    ParseDigitsPrefix(f[4..end], sa, tail);
  }

  lemma SecondArgument(f: string, sa: string, sb: string)
    requires |f| >= 4 && f[4..] == sa + ([','] + (sb + ")"))
    requires |sb| >= 1 && AllDigits(sb)
    ensures ParseInt(f[4 + |sa| + 1..]) == Ok(DigitsValue(sb))
  {
    var args := f[4..];
    assert f[4 + |sa| + 1..] == args[|sa| + 1..];
    DropPastPrefix(sa, [','] + (sb + ")"), |sa| + 1);
    ParseDigitsPrefix(f[4 + |sa| + 1..], sb, ")");
  }

  /** Every text the pattern accepts as a `mul` yields its two numbers. */
  lemma ExtractMulRoundTrip(a: nat, b: nat)
    ensures ExtractMulParameters(MulText(a, b)) == Ok((a, b))
  {
    MulTextShape(a, b);
    FirstArgument(MulText(a, b), NatToString(a), NatToString(b) + ")");
    SecondArgument(MulText(a, b), NatToString(a), NatToString(b));
    ExtractAt(MulText(a, b), 4 + |NatToString(a)|, a, b);
  }

  /** The scanning state: the enable flag and the running sum. */
  datatype Scan = Scan(enabled: bool, sum: int)

  /** One iteration of the loop of `process_corrupted_mul`. */
  function Step(st: Scan, m: string): Result<Scan>
  {
    if m == DoFunc then Ok(Scan(true, st.sum))
    else if m == DontFunc then Ok(Scan(false, st.sum))
    else if st.enabled then
      var (a, b) :- ExtractMulParameters(m);
      Ok(Scan(true, st.sum + a * b))
    else Ok(st)
  }

  /** The state after the matches, in order, starting from `st`. */
  function Run(st: Scan, ms: seq<string>): Result<Scan>
  {
    if ms == [] then Ok(st)
    else
      var before :- Run(st, ms[..|ms| - 1]);
      Step(before, ms[|ms| - 1])
  }

  /** `process_corrupted_mul`: starts enabled with sum 0 and returns the sum. */
  method ProcessCorruptedMul(matches: seq<string>) returns (r: Result<int>)
    ensures r.Ok? <==> Run(Scan(true, 0), matches).Ok?
    ensures r.Ok? ==> r.value == Run(Scan(true, 0), matches).value.sum
  {
    var enabled := true;
    var productSum := 0;
    var i := 0;
    while i < |matches|
      invariant 0 <= i <= |matches|
      invariant Run(Scan(true, 0), matches[..i]) == Ok(Scan(enabled, productSum))
    {
      var m := matches[i];
      assert matches[..i + 1][..i] == matches[..i];
      if m == DoFunc {
        enabled := true;
      } else if m == DontFunc {
        enabled := false;
      } else if enabled {
        var params := ExtractMulParameters(m);
        if params.Err? {
          RunErrAppend(Scan(true, 0), matches[..i + 1], matches[i + 1..]);
          assert matches[..i + 1] + matches[i + 1..] == matches;
          return Err(params.message);
        }
        productSum := productSum + params.value.0 * params.value.1;
      }
      i := i + 1;
    }
    assert matches[..|matches|] == matches;
    r := Ok(productSum);
  }

  /** Running a concatenation is running the first part, then the second
      from where the first left off. */
  lemma {:induction false} RunAppend(st: Scan, a: seq<string>, b: seq<string>)
    ensures Run(st, a + b) == (match Run(st, a) case Ok(mid) => Run(mid, b) case Err(e) => Err(e))
    decreases |b|
  {
    if b == [] {
      assert a + b == a;
    } else {
      var b' := b[..|b| - 1];
      assert (a + b)[..|a + b| - 1] == a + b';
      RunAppend(st, a, b');
    }
  }

  /** Once a match fails, nothing after it recovers. */
  lemma RunErrAppend(st: Scan, a: seq<string>, b: seq<string>)
    requires Run(st, a).Err?
    ensures Run(st, a + b).Err?
  {
    RunAppend(st, a, b);
  }

  /** `don't()` switches the flag off whatever it was, `do()` on. */
  lemma SwitchesIgnorePriorState(st: Scan, ms: seq<string>)
    requires Run(st, ms).Ok?
    ensures Run(st, ms + [DontFunc]) == Ok(Scan(false, Run(st, ms).value.sum))
    ensures Run(st, ms + [DoFunc]) == Ok(Scan(true, Run(st, ms).value.sum))
  {
    assert (ms + [DontFunc])[..|ms|] == ms;
    assert (ms + [DoFunc])[..|ms|] == ms;
  }

  predicate IsSwitch(m: string) { m == DoFunc || m == DontFunc }

  /** While disabled, `mul` matches change nothing, well-formed or not. */
  lemma {:induction false} DisabledMulsIgnored(sum: int, ms: seq<string>)
    requires forall k :: 0 <= k < |ms| ==> !IsSwitch(ms[k])
    ensures Run(Scan(false, sum), ms) == Ok(Scan(false, sum))
  {
    if ms != [] {
      DisabledMulsIgnored(sum, ms[..|ms| - 1]);
    }
  }

  /** While enabled, well-formed `mul` matches add exactly their products. */
  lemma {:induction false} EnabledMulsAdd(sum: int, ms: seq<string>)
    requires AllMuls(ms)
    ensures Run(Scan(true, sum), ms) == Ok(Scan(true, sum + MulSum(ms)))
  {
    if ms != [] {
      var n := |ms| - 1;
      EnabledMulsAdd(sum, ms[..n]);
      StepMul(Scan(true, sum + MulSum(ms[..n])), ms[n]);
    }
  }

  /** An enabled scan adds the product of a well-formed `mul`. */
  lemma StepMul(st: Scan, m: string)
    requires st.enabled && IsMul(m)
    ensures Step(st, m) == Ok(Scan(true, st.sum + ExtractMulParameters(m).value.0 * ExtractMulParameters(m).value.1))
  {
  }

  /** A match that is not a switch and whose parameters read. */
  predicate IsMul(m: string)
  {
    !IsSwitch(m) && ExtractMulParameters(m).Ok?
  }

  /** Every match is a well-formed `mul`. */
  predicate AllMuls(ms: seq<string>)
  {
    ms == [] || (AllMuls(ms[..|ms| - 1]) && IsMul(ms[|ms| - 1]))
  }

  /** The sum of the products of the `mul` matches. */
  function MulSum(ms: seq<string>): int
    requires AllMuls(ms)
  {
    if ms == [] then 0
    else
      var p := ExtractMulParameters(ms[|ms| - 1]);
      MulSum(ms[..|ms| - 1]) + p.value.0 * p.value.1
  }

  /** The texts of `mul` matches with the given arguments, in order. */
  function MulTexts(xs: seq<nat>, ys: seq<nat>): (ms: seq<string>)
    requires |xs| == |ys|
    ensures |ms| == |xs|
  {
    if xs == [] then [] else MulTexts(xs[..|xs| - 1], ys[..|ys| - 1]) + [MulText(xs[|xs| - 1], ys[|ys| - 1])]
  }

  function DotProduct(xs: seq<nat>, ys: seq<nat>): int
    requires |xs| == |ys|
  {
    if xs == [] then 0 else DotProduct(xs[..|xs| - 1], ys[..|ys| - 1]) + xs[|xs| - 1] * ys[|ys| - 1]
  }

  /** Texts written as `mul(a,b)` are all well-formed, and their products sum
      to the dot product of the arguments. */
  lemma {:induction false} MulTextsSum(xs: seq<nat>, ys: seq<nat>)
    requires |xs| == |ys|
    ensures AllMuls(MulTexts(xs, ys)) && MulSum(MulTexts(xs, ys)) == DotProduct(xs, ys)
  {
    if xs != [] {
      var n := |xs| - 1;
      MulTextsSum(xs[..n], ys[..n]);
      ExtractMulRoundTrip(xs[n], ys[n]);
      MulTextNotSwitch(xs[n], ys[n]);
    }
  }

  lemma MulTextNotSwitch(a: nat, b: nat)
    ensures !IsSwitch(MulText(a, b))
  {
    var f := MulText(a, b);
    assert f[0] == 'm';
  }
}
