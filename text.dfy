/** Character-level helpers shared by the puzzle parsers: the decimal conversions
    of the C++ standard library (`std::stoi`, `std::stoul`, stream output of a
    number) and the token stream of a `std::getline` loop with a delimiter. */
module Text {
  import opened Outcomes

  predicate IsDigit(c: char) { '0' <= c <= '9' }

  function DigitValue(c: char): (d: nat)
    requires IsDigit(c)
    ensures d < 10
  {
    c as int - '0' as int
  }

  function DigitChar(d: nat): (c: char)
    requires d < 10
    ensures IsDigit(c) && DigitValue(c) == d
  {
    ('0' as int + d) as char
  }

  /** The white space `std::isspace` accepts in the "C" locale. */
  predicate IsSpace(c: char) {
    c == ' ' || c == '\t' || c == '\n' || c == '\r' || c as int == 11 || c as int == 12
  }

  predicate AllDigits(s: string) {
    forall i :: 0 <= i < |s| ==> IsDigit(s[i])
  }

  function Pow10(k: nat): (p: nat)
    ensures p >= 1
  {
    if k == 0 then 1 else 10 * Pow10(k - 1)
  }

  /** The number a string of decimal digits denotes (most significant first). */
  function DigitsValue(s: string): nat
    requires AllDigits(s)
  {
    if s == [] then 0 else DigitsValue(s[..|s| - 1]) * 10 + DigitValue(s[|s| - 1])
  }

  /** Length of the longest prefix of `s` made of decimal digits. */
  function DigitRun(s: string): (n: nat)
    ensures n <= |s| && AllDigits(s[..n])
    ensures n < |s| ==> !IsDigit(s[n])
  {
    if s == [] || !IsDigit(s[0]) then 0
    else
      var m := DigitRun(s[1..]);
      assert s[..m + 1] == [s[0]] + s[1..][..m];
      m + 1
  }

  function SkipSpaces(s: string): (t: string)
    ensures |t| <= |s|
    ensures t != [] ==> !IsSpace(t[0])
    ensures (s == [] || !IsSpace(s[0])) ==> t == s
  {
    if s != [] && IsSpace(s[0]) then SkipSpaces(s[1..]) else s
  }

  /** Skipping drops a prefix made of white space and nothing else. */
  lemma {:induction false} SkipSpacesSuffix(s: string)
    ensures SkipSpaces(s) == s[|s| - |SkipSpaces(s)|..]
    ensures forall k :: 0 <= k < |s| - |SkipSpaces(s)| ==> IsSpace(s[k])
  {
    if s != [] && IsSpace(s[0]) {
      SkipSpacesSuffix(s[1..]);
      assert forall k :: 1 <= k < |s| ==> s[k] == s[1..][k - 1];
    }
  }

  /** The conversion `strtol` and `strtoul` share once the white space is
      skipped: an optional sign, then the longest run of decimal digits,
      negated after a '-'; nothing when no digit follows. */
  function ReadSigned(t: string): Option<int>
  {
    var negative := t != [] && t[0] == '-';
    var u := if t != [] && (t[0] == '+' || t[0] == '-') then t[1..] else t;
    var n := DigitRun(u);
    if n == 0 then None
    else Some(if negative then -(DigitsValue(u[..n]) as int) else DigitsValue(u[..n]))
  }

  /** A bare run of digits reads as the number it denotes, and a '-'
      followed by one as its negation. */
  lemma ReadSignedDigits(s: string)
    ensures s != [] && AllDigits(s) ==> ReadSigned(SkipSpaces(s)) == Some(DigitsValue(s))
    ensures |s| >= 2 && s[0] == '-' && AllDigits(s[1..]) ==>
      ReadSigned(SkipSpaces(s)) == Some(-(DigitsValue(s[1..]) as int))
  {
    if s != [] && AllDigits(s) {
      ReadDigits(s);
    } else if |s| >= 2 && s[0] == '-' && AllDigits(s[1..]) {
      ReadNegatedDigits(s);
    }
  }

  lemma ReadDigits(d: string)
    requires d != [] && AllDigits(d)
    ensures ReadSigned(SkipSpaces(d)) == Some(DigitsValue(d))
  {
    DigitRunOfDigits(d, []);
    assert d + [] == d;
    assert d[..|d|] == d;
    assert SkipSpaces(d) == d;
    assert d[0] != '-' && d[0] != '+';
  }

  lemma ReadNegatedDigits(s: string)
    requires |s| >= 2 && s[0] == '-' && AllDigits(s[1..])
    ensures ReadSigned(SkipSpaces(s)) == Some(-(DigitsValue(s[1..]) as int))
  {
    var d := s[1..];
    DigitRunOfDigits(d, []);
    assert d + [] == d;
    assert d[..|d|] == d;
    assert SkipSpaces(s) == s;
  }

  /** What `std::stoul` reads before its range check: leading white space,
      an optional sign, then the longest run of decimal digits; without any
      digit it throws `invalid_argument`. */
  function ParseUnsigned(s: string): (r: Result<int>)
    ensures r.Err? ==> r.message == "stoul: no conversion"
    ensures s != [] && AllDigits(s) ==> r == Ok(DigitsValue(s))
    ensures |s| >= 2 && s[0] == '-' && AllDigits(s[1..]) ==> r == Ok(-(DigitsValue(s[1..]) as int))
  {
    ReadSignedDigits(s);
    match ReadSigned(SkipSpaces(s))
    case None => Err("stoul: no conversion")
    case Some(v) => Ok(v)
  }

  /** `std::stoi`: leading white space, an optional sign, then the longest run of
      decimal digits; without any digit it throws `invalid_argument`. */
  function ParseInt(s: string): (r: Result<int>)
    ensures r.Err? ==> r.message == "stoi: no conversion"
    ensures s != [] && AllDigits(s) ==> r == Ok(DigitsValue(s))
    ensures |s| >= 2 && s[0] == '-' && AllDigits(s[1..]) ==> r == Ok(-(DigitsValue(s[1..]) as int))
  {
    ReadSignedDigits(s);
    match ReadSigned(SkipSpaces(s))
    case None => Err("stoi: no conversion")
    case Some(v) => Ok(v)
  }

  /** Decimal rendering of a natural number, as `operator<<` writes it. */
  function NatToString(n: nat): (s: string)
    ensures |s| >= 1 && AllDigits(s) && DigitsValue(s) == n
    ensures |s| > 1 ==> s[0] != '0'
  {
    if n < 10 then [DigitChar(n)]
    else
      var p := NatToString(n / 10);
      var s := p + [DigitChar(n % 10)];
      assert s[..|s| - 1] == p;
      s
  }

  function IntToString(x: int): string
  {
    if x < 0 then "-" + NatToString(-x) else NatToString(x)
  }

  lemma {:induction false} DigitRunOfDigits(d: string, rest: string)
    requires AllDigits(d)
    requires rest == [] || !IsDigit(rest[0])
    ensures DigitRun(d + rest) == |d|
  {
    if d != [] {
      assert (d + rest)[1..] == d[1..] + rest;
      DigitRunOfDigits(d[1..], rest);
    }
  }

  /** Parsing stops at the first non-digit, so a rendered number followed by
      anything else reads back as that number. */
  lemma ParseNatPrefix(n: nat, rest: string)
    requires rest == [] || !IsDigit(rest[0])
    ensures ParseUnsigned(NatToString(n) + rest) == Ok(n)
  {
    var d := NatToString(n);
    DigitRunOfDigits(d, rest);
    assert (d + rest)[..|d|] == d;
  }

  lemma ParseIntPrefix(x: int, rest: string)
    requires rest == [] || !IsDigit(rest[0])
    ensures ParseInt(IntToString(x) + rest) == Ok(x)
  {
    if x < 0 { ParseNegativePrefix(x, rest); } else { ParseNonNegativePrefix(x, rest); }
  }

  lemma ParseNegativePrefix(x: int, rest: string)
    requires rest == [] || !IsDigit(rest[0])
    requires x < 0
    ensures ParseInt(IntToString(x) + rest) == Ok(x)
  {
    var d := NatToString(-x);
    DigitRunOfDigits(d, rest);
    assert (d + rest)[..|d|] == d;
    var s := ['-'] + (d + rest);
    assert IntToString(x) + rest == s;
    assert SkipSpaces(s) == s;
    assert s[1..] == d + rest;
    assert DigitRun(s[1..]) == |d|;
  }

  lemma ParseNonNegativePrefix(x: int, rest: string)
    requires rest == [] || !IsDigit(rest[0])
    requires x >= 0
    ensures ParseInt(IntToString(x) + rest) == Ok(x)
  {
    ParseDigitsPrefix(IntToString(x) + rest, NatToString(x), rest);
  }

  /** Any run of digits followed by a non-digit reads as the number the digits
      denote. */
  lemma ParseDigitsPrefix(s: string, d: string, rest: string)
    requires |d| >= 1 && AllDigits(d)
    requires rest == [] || !IsDigit(rest[0])
    requires s == d + rest
    ensures ParseInt(s) == Ok(DigitsValue(d))
  {
    DigitRunOfDigits(d, rest);
    assert s[..|d|] == d;
    assert SkipSpaces(s) == s;
    assert s[0] != '-' && s[0] != '+';
  }

  /** Reading two digit strings written one after the other. */
  lemma {:induction false} DigitsValueAppend(a: string, b: string)
    requires AllDigits(a) && AllDigits(b)
    ensures AllDigits(a + b)
    ensures DigitsValue(a + b) == DigitsValue(a) * Pow10(|b|) + DigitsValue(b)
  {
    if b == [] {
      assert a + b == a;
    } else {
      var b' := b[..|b| - 1];
      assert (a + b)[..|a + b| - 1] == a + b';
      DigitsValueAppend(a, b');
      var x, y, d, p := DigitsValue(a), DigitsValue(b'), DigitValue(b[|b| - 1]), Pow10(|b'|);
      assert DigitsValue(a + b) == (x * p + y) * 10 + d;
      assert DigitsValue(b) == y * 10 + d;
      assert Pow10(|b|) == p * 10;
      ShiftDigit(x, p, y, d);
    }
  }

  lemma ShiftDigit(x: int, p: int, y: int, d: int)
    ensures (x * p + y) * 10 + d == x * (p * 10) + (y * 10 + d)
  {
  }

  /** Index of the first occurrence of `c` in `s` (`find_first_of`), or `|s|`
      where the source gets `std::string::npos`. */
  function IndexOf(s: string, c: char): (i: nat)
    ensures i <= |s| && (i < |s| ==> s[i] == c)
  {
    if s == [] then 0 else if s[0] == c then 0 else 1 + IndexOf(s[1..], c)
  }

  /** No occurrence of `c` precedes the one `IndexOf` finds. */
  lemma {:induction false} IndexOfFirst(s: string, c: char)
    ensures forall j :: 0 <= j < IndexOf(s, c) ==> s[j] != c
  {
    if s != [] && s[0] != c {
      IndexOfFirst(s[1..], c);
      assert forall j :: 1 <= j < IndexOf(s, c) ==> s[j] == s[1..][j - 1];
    }
  }

  /** The tokens a `for (std::string t; std::getline(stream, t, delim);)` loop
      extracts from `s`: the text between delimiters, where a final empty token
      (the input ends with the delimiter, or is empty) is not produced. */
  function Tokens(s: string, delim: char): (ts: seq<string>)
    ensures s != [] <==> |ts| >= 1
    decreases |s|
  {
    if s == [] then []
    else
      var i := IndexOf(s, delim);
      if i == |s| then [s] else [s[..i]] + Tokens(s[i + 1..], delim)
  }

  function Join(ts: seq<string>, delim: char): string
  {
    if ts == [] then [] else if |ts| == 1 then ts[0] else ts[0] + [delim] + Join(ts[1..], delim)
  }

  /** The delimiter never appears inside a token. */
  lemma {:induction false} TokensNoDelim(s: string, delim: char)
    ensures forall k :: 0 <= k < |Tokens(s, delim)| ==> delim !in Tokens(s, delim)[k]
    decreases |s|
  {
    if s != [] {
      var i := IndexOf(s, delim);
      IndexOfFirst(s, delim);
      if i == |s| {
        assert Tokens(s, delim) == [s];
      } else {
        TokensStep(s, delim);
        TokensNoDelim(s[i + 1..], delim);
        assert delim !in s[..i];
      }
    }
  }

  lemma TokensStep(s: string, delim: char)
    requires IndexOf(s, delim) < |s|
    ensures Tokens(s, delim) ==
      [s[..IndexOf(s, delim)]] + Tokens(s[IndexOf(s, delim) + 1..], delim)
  {
  }

  /** Tokenising loses nothing but the delimiters: joining the tokens back
      gives the line, unless the line ends with a delimiter. */
  lemma {:induction false} TokensJoin(s: string, delim: char)
    requires s == [] || s[|s| - 1] != delim
    ensures Join(Tokens(s, delim), delim) == s
    decreases |s|, 1
  {
    if s != [] {
      if IndexOf(s, delim) == |s| {
        TokensJoinWhole(s, delim);
      } else {
        TokensJoinSplit(s, delim);
      }
    }
  }

  /** A line without the delimiter is its own single token. */
  lemma TokensJoinWhole(s: string, delim: char)
    requires s != [] && IndexOf(s, delim) == |s|
    ensures Join(Tokens(s, delim), delim) == s
  {
    assert Tokens(s, delim) == [s];
  }

  /** A line with the delimiter: its first token, the delimiter, and the
      tokens of the rest joined back. */
  lemma {:induction false} TokensJoinSplit(s: string, delim: char)
    requires IndexOf(s, delim) < |s| && s[|s| - 1] != delim
    ensures Join(Tokens(s, delim), delim) == s
    decreases |s|, 0
  {
    TokensRestEnds(s, delim);
    TokensJoin(s[IndexOf(s, delim) + 1..], delim);
    TokensJoinStep(s, delim);
  }

  /** After the first delimiter of a line that does not end with one comes
      a non-empty rest that does not end with one either. */
  lemma TokensRestEnds(s: string, delim: char)
    requires IndexOf(s, delim) < |s| && s[|s| - 1] != delim
    ensures var rest := s[IndexOf(s, delim) + 1..]; rest != [] && rest[|rest| - 1] != delim
  {
    var rest := s[IndexOf(s, delim) + 1..];
    assert rest[|rest| - 1] == s[|s| - 1];
  }

  /** Joining puts the first delimiter back between the first token and the
      rest. */
  lemma TokensJoinStep(s: string, delim: char)
    requires IndexOf(s, delim) + 1 < |s|
    requires Join(Tokens(s[IndexOf(s, delim) + 1..], delim), delim) == s[IndexOf(s, delim) + 1..]
    ensures Join(Tokens(s, delim), delim) == s
  {
    var i := IndexOf(s, delim);
    TokensStep(s, delim);
    var head, rest := s[..i], s[i + 1..];
    var ts := Tokens(rest, delim);
    JoinCons(head, ts, delim);
    SplitAround(s, i);
  }

  lemma SplitAround(s: string, i: nat)
    requires i < |s|
    ensures s == s[..i] + [s[i]] + s[i + 1..]
  {
  }

  lemma JoinCons(t: string, ts: seq<string>, delim: char)
    requires |ts| >= 1
    ensures Join([t] + ts, delim) == t + [delim] + Join(ts, delim)
  {
    assert ([t] + ts)[1..] == ts;
  }

  lemma {:induction false} IndexOfAfter(p: string, c: char, rest: string)
    requires c !in p
    ensures IndexOf(p + [c] + rest, c) == |p|
  {
    if p != [] {
      assert (p + [c] + rest)[1..] == p[1..] + [c] + rest;
      IndexOfAfter(p[1..], c, rest);
    }
  }

  /** Tokens that splitting their join gives back: none holds the delimiter
      and the last one is not empty. */
  predicate Joinable(ts: seq<string>, delim: char) {
    (forall k :: 0 <= k < |ts| ==> delim !in ts[k]) && (ts == [] || ts[|ts| - 1] != [])
  }

  /** Splitting a joined line gives back its tokens. */
  lemma {:induction false} JoinTokens(ts: seq<string>, delim: char)
    requires Joinable(ts, delim)
    ensures Tokens(Join(ts, delim), delim) == ts
  {
    if |ts| == 1 {
      var i := IndexOf(ts[0], delim);
      assert delim !in ts[0];
      assert i == |ts[0]|;
    } else if |ts| > 1 {
      var rest := Join(ts[1..], delim);
      var s := ts[0] + [delim] + rest;
      IndexOfAfter(ts[0], delim, rest);
      assert s[..|ts[0]|] == ts[0];
      assert s[|ts[0]| + 1..] == rest;
      JoinTokens(ts[1..], delim);
    }
  }

  /** A rendered integer is non-empty, starts with '-' or a digit, and every
      later character is a digit. */
  lemma IntToStringShape(x: int)
    ensures |IntToString(x)| >= 1
    ensures IntToString(x)[0] == '-' || IsDigit(IntToString(x)[0])
    ensures forall k :: 1 <= k < |IntToString(x)| ==> IsDigit(IntToString(x)[k])
  {
    if x < 0 { assert IntToString(x) == "-" + NatToString(-x); }
  }

  /** One more than the largest `unsigned long`. */
  const ULongLimit: nat := 0x1_0000_0000_0000_0000

  /** `std::stoul`: `strtoul` reports a magnitude of 2^64 or more as out of
      range, and otherwise negates modulo 2^64 after a '-'. */
  function ParseULong(s: string): (r: Result<nat>)
    ensures r.Ok? <==> ParseUnsigned(s).Ok? && -(ULongLimit as int) < ParseUnsigned(s).value < ULongLimit
    ensures r.Ok? ==> r.value < ULongLimit
    ensures r.Ok? && ParseUnsigned(s).value >= 0 ==> r.value == ParseUnsigned(s).value
    ensures r.Ok? && ParseUnsigned(s).value < 0 ==> r.value == ULongLimit + ParseUnsigned(s).value
  {
    var v :- ParseUnsigned(s);
    if v <= -(ULongLimit as int) || ULongLimit <= v then Err("stoul: out of range")
    else if v < 0 then Ok(ULongLimit + v)
    else Ok(v)
  }

  /** The decimal texts of the numbers. */
  function Numerals(xs: seq<nat>): (ts: seq<string>)
    ensures |ts| == |xs|
  {
    seq(|xs|, k requires 0 <= k < |xs| => NatToString(xs[k]))
  }

  /** A number below the limit reads back through `stoul`. */
  lemma ParseULongNumeral(x: nat)
    requires x < ULongLimit
    ensures ParseULong(NatToString(x)) == Ok(x)
  {
    ParseNatPrefix(x, "");
    assert NatToString(x) + "" == NatToString(x);
  }

  /** After a '-' a number below the limit wraps round: `stoul("-1")` is the
      largest `unsigned long`, and "-0" reads as 0. */
  lemma ParseULongNegated(x: nat)
    requires x < ULongLimit
    ensures ParseULong("-" + NatToString(x)) == Ok((ULongLimit - x) % ULongLimit)
  {
    var d := NatToString(x);
    DigitRunOfDigits(d, []);
    assert d + [] == d && d[..|d|] == d;
    var s := "-" + d;
    assert SkipSpaces(s) == s;
    assert s[1..] == d;
  }

  /** The index of the last `c` among the first `n` characters of `line`. */
  function LastIndexOf(line: string, c: char, n: nat): (r: Option<nat>)
    requires n <= |line|
    ensures r.Some? ==> r.value < n && line[r.value] == c
  {
    if n == 0 then None
    else if line[n - 1] == c then Some(n - 1)
    else LastIndexOf(line, c, n - 1)
  }

  /** No `c` comes after the last one. */
  lemma {:induction false} LastIndexOfLast(line: string, c: char, n: nat)
    requires n <= |line|
    ensures LastIndexOf(line, c, n).Some? ==> forall k :: LastIndexOf(line, c, n).value < k < n ==> line[k] != c
    ensures LastIndexOf(line, c, n).None? ==> forall k :: 0 <= k < n ==> line[k] != c
  {
    if n > 0 && line[n - 1] != c {
      LastIndexOfLast(line, c, n - 1);
    }
  }
}
