/** Day 11: Plutonian pebbles. Every blink replaces each engraved stone by one
    or two stones: 0 becomes 1, a number with an even count of decimal digits
    splits into its two halves, any other number is multiplied by 2024. The
    count of stones after n blinks is computed stone by stone, with a memo of
    (stone, remaining blinks) pairs shared between calls. All arithmetic is
    64-bit unsigned and wraps. */
module PlutonianPebbles {
  import opened Outcomes
  import opened Text

  /** The multiplier applied to a stone that neither is 0 nor splits. */
  const Multiplier: nat := 2024

  // ---------------------------------------------------------------------------
  // Reading the stones
  // ---------------------------------------------------------------------------

  /** `read_stones_from_file`: the text between single spaces, each token read
      with `stoul` (which throws on a token without digits or out of range). */
  function ReadStones(text: string): (r: Result<seq<nat>>)
    ensures r.Ok? ==> |r.value| == |Tokens(text, ' ')|
    ensures r.Ok? ==> forall k :: 0 <= k < |r.value| ==> r.value[k] < ULongLimit
  {
    var ts := Tokens(text, ' ');
    var r := MapAll(ParseULong, ts, |ts|);
    if r.Ok? then MapAllOk(ParseULong, ts, |ts|); r else r
  }

  /** Stones written one after another, separated by single spaces, read back
      as the same stones. */
  lemma ReadWrittenStones(xs: seq<nat>)
    requires forall k :: 0 <= k < |xs| ==> xs[k] < ULongLimit
    ensures ReadStones(Join(Numerals(xs), ' ')) == Ok(xs)
  {
    var ts := Numerals(xs);
    forall k | 0 <= k < |ts|
      ensures ' ' !in ts[k] && ParseULong(ts[k]) == Ok(xs[k])
    {
      var s := NatToString(xs[k]);
      assert ts[k] == s;
      assert forall j :: 0 <= j < |s| ==> IsDigit(s[j]);
      ParseULongNumeral(xs[k]);
    }
    JoinTokens(ts, ' ');
    MapAllOk(ParseULong, ts, |ts|);
    var r := MapAll(ParseULong, ts, |ts|);
    assert r.Ok?;
    assert r.value == xs;
  }

  // ---------------------------------------------------------------------------
  // Decimal digits
  // ---------------------------------------------------------------------------

  /** The count of decimal digits of n, where 0 has none. */
  function Digits(n: nat): nat
  {
    if n == 0 then 0 else 1 + Digits(n / 10)
  }

  /** `get_num_digits`: divides by ten until nothing is left. */
  method GetNumDigits(stone: nat) returns (digits: nat)
    ensures digits == Digits(stone)
    ensures stone == 0 <==> digits == 0
  {
    digits := 0;
    var s := stone;
    while s != 0
      invariant digits + Digits(s) == Digits(stone)
      decreases s
    {
      digits := digits + 1;
      s := s / 10;
    }
  }

  lemma {:induction false} Pow10Monotone(a: nat, b: nat)
    requires a <= b
    ensures Pow10(a) <= Pow10(b)
    decreases b - a
  {
    if a < b {
      Pow10Monotone(a, b - 1);
    }
  }

  lemma {:induction false} Pow10Add(a: nat, b: nat)
    ensures Pow10(a + b) == Pow10(a) * Pow10(b)
  {
    if a > 0 {
      Pow10Add(a - 1, b);
      assert Pow10(a + b) == 10 * Pow10(a - 1 + b);
    }
  }

  /** A positive number with d digits lies between 10^(d-1) and 10^d. */
  lemma {:induction false} DigitsBounds(n: nat)
    requires n > 0
    ensures Digits(n) >= 1
    ensures Pow10(Digits(n) - 1) <= n < Pow10(Digits(n))
  {
    if n >= 10 {
      DigitsBounds(n / 10);
      var d := Digits(n / 10);
      assert Digits(n) == d + 1;
      assert Pow10(d) == 10 * Pow10(d - 1);
      assert Pow10(d + 1) == 10 * Pow10(d);
    }
  }

  /** The digit count is the one power-of-ten interval the number lies in. */
  lemma DigitsIff(n: nat, k: nat)
    requires k >= 1
    ensures Digits(n) == k <==> Pow10(k - 1) <= n < Pow10(k)
  {
    if n == 0 {
      Pow10Monotone(0, k - 1);
    } else {
      DigitsBounds(n);
      var d := Digits(n);
      if Pow10(k - 1) <= n < Pow10(k) && d != k {
        if d < k {
          Pow10Monotone(d, k - 1);
        } else {
          Pow10Monotone(k, d - 1);
        }
      }
    }
  }

  /** The digit count is the length of the number's decimal text. */
  lemma {:induction false} DigitsOfNumeral(n: nat)
    requires n > 0
    ensures Digits(n) == |NatToString(n)|
  {
    if n >= 10 {
      DigitsOfNumeral(n / 10);
    }
  }

  /** An `unsigned long` has at most twenty digits. */
  lemma ULongDigits(n: nat)
    requires n < ULongLimit
    ensures Digits(n) <= 20
  {
    if n > 0 {
      DigitsBounds(n);
      if Digits(n) > 20 {
        Pow10Monotone(20, Digits(n) - 1);
        ULongBelowPow10();
      }
    }
  }

  lemma ULongBelowPow10()
    ensures ULongLimit < Pow10(20)
  {
    assert Pow10(5) == 100_000;
    Pow10Add(5, 5);
    Pow10Add(10, 10);
  }

  // ---------------------------------------------------------------------------
  // One blink
  // ---------------------------------------------------------------------------

  /** `split_stone`: the quotient and remainder by 10^(len/2). The divisor is
      computed with `powl` and cast to `unsigned long`, defined only while the
      power fits. */
  function SplitStone(stone: nat, len: nat): (halves: (nat, nat))
    requires len / 2 < 20
    ensures halves.0 * Pow10(len / 2) + halves.1 == stone
    ensures halves.1 < Pow10(len / 2)
    ensures halves.0 <= stone && halves.1 <= stone
  {
    var divisor := Pow10(len / 2);
    DivMod(stone, divisor);
    (stone / divisor, stone % divisor)
  }

  lemma DivMod(x: nat, p: nat)
    requires p > 0
    ensures (x / p) * p + x % p == x && x % p < p
    ensures x / p <= x && x % p <= x
  {
    var q := x / p;
    assert q * p + x % p == x;
    MulMonotone(1, p, q);
  }

  /** Splitting a number with 2h digits gives a first half of exactly h digits
      and a second half of at most h digits. */
  lemma SplitHalves(stone: nat)
    requires stone > 0 && Digits(stone) % 2 == 0 && Digits(stone) / 2 < 20
    ensures var h := Digits(stone) / 2;
      var halves := SplitStone(stone, Digits(stone));
      Digits(halves.0) == h && Digits(halves.1) <= h
  {
    var d := Digits(stone);
    var h := d / 2;
    DigitsBounds(stone);
    var halves := SplitStone(stone, d);
    var p := Pow10(h);
    assert h >= 1;
    Pow10Add(h - 1, h);
    Pow10Add(h, h);
    assert h - 1 + h == d - 1 && h + h == d;
    QuotientBounds(stone, Pow10(h - 1), p, p);
    assert Pow10(h - 1) <= halves.0 < p;
    DigitsIff(halves.0, h);
    if halves.1 > 0 {
      DigitsBounds(halves.1);
      if Digits(halves.1) > h {
        Pow10Monotone(h, Digits(halves.1) - 1);
      }
    }
  }

  lemma QuotientBounds(x: nat, lo: nat, hi: nat, p: nat)
    requires p > 0 && lo * p <= x < hi * p
    ensures lo <= x / p < hi
  {
    var q, r := x / p, x % p;
    assert x == q * p + r && r < p;
    MulCancel(q, hi, p);
    assert x < (q + 1) * p by {
      assert (q + 1) * p == q * p + p;
    }
    MulCancel(lo, q + 1, p);
  }

  lemma MulMonotone(a: nat, b: nat, c: nat)
    requires a <= b
    ensures a * c <= b * c
  {
  }

  lemma MulCancel(a: nat, b: nat, c: nat)
    requires a * c < b * c
    ensures a < b
  {
    if a >= b {
      MulMonotone(b, a, c);
    }
  }

  /** What one blink turns a stone into. */
  function Blink(stone: nat): (r: seq<nat>)
    requires stone < ULongLimit
    ensures 1 <= |r| <= 2
    ensures forall k :: 0 <= k < |r| ==> r[k] < ULongLimit
  {
    ULongDigits(stone);
    if stone == 0 then [1]
    else if Digits(stone) % 2 == 0 then
      var halves := SplitStone(stone, Digits(stone));
      [halves.0, halves.1]
    else [(stone * Multiplier) % ULongLimit]
  }

  /** The three rules: 0 becomes 1; a stone splits exactly when its digit
      count is even, into halves that put back together give the stone and
      have half its digits; otherwise it is multiplied by 2024, wrapping. */
  lemma BlinkRules(stone: nat)
    requires stone < ULongLimit
    ensures stone == 0 ==> Blink(stone) == [1]
    ensures |Blink(stone)| == 2 <==> stone != 0 && Digits(stone) % 2 == 0
    ensures |Blink(stone)| == 2 ==>
      var h := Digits(stone) / 2;
      var r := Blink(stone);
      r[0] * Pow10(h) + r[1] == stone && Digits(r[0]) == h && Digits(r[1]) <= h
    ensures |Blink(stone)| == 1 && stone != 0 ==>
      Blink(stone)[0] == (stone * Multiplier) % ULongLimit && Digits(stone) % 2 == 1
  {
    ULongDigits(stone);
    if stone != 0 && Digits(stone) % 2 == 0 {
      SplitHalves(stone);
    }
  }

  /** `blink_stone`, counting the digits with `get_num_digits`. */
  method BlinkStone(stone: nat) returns (r: seq<nat>)
    requires stone < ULongLimit
    ensures r == Blink(stone)
  {
    if stone == 0 {
      return [1];
    }
    var digits := GetNumDigits(stone);
    ULongDigits(stone);
    if digits % 2 == 0 {
      var halves := SplitStone(stone, digits);
      r := [halves.0, halves.1];
    } else {
      r := [(stone * Multiplier) % ULongLimit];
    }
  }

  // ---------------------------------------------------------------------------
  // Many blinks
  // ---------------------------------------------------------------------------

  predicate AllULong(stones: seq<nat>) {
    forall k :: 0 <= k < |stones| ==> stones[k] < ULongLimit
  }

  /** One blink of a whole row: every stone replaced in place by its result. */
  function BlinkAll(stones: seq<nat>): (r: seq<nat>)
    requires AllULong(stones)
    ensures AllULong(r)
    ensures |stones| <= |r| <= 2 * |stones|
  {
    if stones == [] then []
    else
      var r := Blink(stones[0]) + BlinkAll(stones[1..]);
      assert forall k :: |Blink(stones[0])| <= k < |r| ==> r[k] == BlinkAll(stones[1..])[k - |Blink(stones[0])|];
      r
  }

  /** The row of stones after n blinks. */
  function Arrangement(stones: seq<nat>, n: nat): (r: seq<nat>)
    requires AllULong(stones)
    ensures AllULong(r)
    decreases n
  {
    if n == 0 then stones else Arrangement(BlinkAll(stones), n - 1)
  }

  function Pow2(n: nat): (p: nat)
    ensures p >= 1
  {
    if n == 0 then 1 else 2 * Pow2(n - 1)
  }

  /** No stone ever disappears, and each blink at most doubles the row. */
  lemma {:induction false} ArrangementGrowth(stones: seq<nat>, n: nat)
    requires AllULong(stones)
    ensures |stones| <= |Arrangement(stones, n)| <= |stones| * Pow2(n)
    decreases n
  {
    if n > 0 {
      var next := BlinkAll(stones);
      ArrangementGrowth(next, n - 1);
      var p := Pow2(n - 1);
      assert |Arrangement(stones, n)| <= |next| * p;
      MulMonotone(|next|, 2 * |stones|, p);
      assert Pow2(n) == 2 * p;
      DoubleShift(|stones|, p);
    }
  }


  lemma DoubleShift(a: nat, b: nat)
    ensures a * (2 * b) == (2 * a) * b
  {
  }

  /** The count of stones `get_num_stones` computes, without wrap-around. */
  function Count(stone: nat, blinks: nat): (c: nat)
    requires stone < ULongLimit
    ensures c >= 1 && (blinks == 0 ==> c == 1)
    decreases blinks, 0, 0
  {
    if blinks == 0 then 1 else CountAll(Blink(stone), blinks - 1)
  }

  function CountAll(stones: seq<nat>, blinks: nat): (c: nat)
    requires AllULong(stones)
    ensures c >= |stones|
    decreases blinks, 1, |stones|
  {
    if stones == [] then 0 else Count(stones[0], blinks) + CountAll(stones[1..], blinks)
  }

  lemma {:induction false} CountAllAppend(a: seq<nat>, b: seq<nat>, blinks: nat)
    requires AllULong(a) && AllULong(b)
    ensures AllULong(a + b)
    ensures CountAll(a + b, blinks) == CountAll(a, blinks) + CountAll(b, blinks)
  {
    assert AllULong(a + b);
    if a == [] {
      assert a + b == b;
    } else {
      assert (a + b)[0] == a[0] && (a + b)[1..] == a[1..] + b;
      CountAllAppend(a[1..], b, blinks);
    }
  }

  /** Counting after one more blink is counting the blinked row. */
  lemma {:induction false} CountAllBlink(stones: seq<nat>, blinks: nat)
    requires AllULong(stones) && blinks > 0
    ensures CountAll(stones, blinks) == CountAll(BlinkAll(stones), blinks - 1)
  {
    if stones != [] {
      var head, rest := Blink(stones[0]), BlinkAll(stones[1..]);
      assert BlinkAll(stones) == head + rest;
      assert CountAll(stones, blinks) == CountAll(head, blinks - 1) + CountAll(stones[1..], blinks);
      CountAllBlink(stones[1..], blinks);
      CountAllAppend(head, rest, blinks - 1);
    }
  }

  lemma {:induction false} CountAllNoBlinks(stones: seq<nat>)
    requires AllULong(stones)
    ensures CountAll(stones, 0) == |stones|
  {
    if stones != [] {
      CountAllNoBlinks(stones[1..]);
    }
  }

  /** The memoised count is the length of the row after that many blinks. */
  lemma {:induction false} CountIsLength(stones: seq<nat>, blinks: nat)
    requires AllULong(stones)
    ensures CountAll(stones, blinks) == |Arrangement(stones, blinks)|
    decreases blinks
  {
    if blinks == 0 {
      CountAllNoBlinks(stones);
    } else {
      CountAllBlink(stones, blinks);
      CountIsLength(BlinkAll(stones), blinks - 1);
    }
  }

  /** A single stone with no blinks left is one stone, and after n blinks a
      stone is between 1 and 2^n stones. */
  lemma CountBounds(stone: nat, blinks: nat)
    requires stone < ULongLimit
    ensures blinks == 0 ==> Count(stone, blinks) == 1
    ensures 1 <= Count(stone, blinks) <= Pow2(blinks)
  {
    assert CountAll([stone], blinks) == Count(stone, blinks) + CountAll([], blinks);
    CountIsLength([stone], blinks);
    ArrangementGrowth([stone], blinks);
  }

  // ---------------------------------------------------------------------------
  // The memoised count
  // ---------------------------------------------------------------------------

  /** Every entry of the memo is the count, wrapped to 64 bits, of its stone
      after its number of blinks. */
  predicate MemoValid(memo: map<(nat, nat), nat>) {
    forall key :: key in memo ==> key.0 < ULongLimit && memo[key] == Count(key.0, key.1) % ULongLimit
  }

  lemma ModAdd(a: nat, b: nat)
    ensures (a % ULongLimit + b % ULongLimit) % ULongLimit == (a + b) % ULongLimit
  {
  }

  lemma CountAllSnoc(stones: seq<nat>, i: nat, blinks: nat)
    requires AllULong(stones) && i < |stones|
    ensures CountAll(stones[..i + 1], blinks) == CountAll(stones[..i], blinks) + Count(stones[i], blinks)
  {
    assert stones[..i + 1] == stones[..i] + [stones[i]];
    CountAllAppend(stones[..i], [stones[i]], blinks);
    assert CountAll([stones[i]], blinks) == Count(stones[i], blinks) + CountAll([], blinks);
  }

  /** Recording a correct count keeps the memo valid. */
  lemma MemoRecord(memo: map<(nat, nat), nat>, stone: nat, blinks: nat, count: nat)
    requires MemoValid(memo) && stone < ULongLimit
    requires count == Count(stone, blinks) % ULongLimit
    ensures MemoValid(memo[(stone, blinks) := count])
  {
  }

  /** `get_num_stones`: the wrapped count of one stone after `remaining`
      blinks, answered from the memo when it holds the pair and otherwise
      computed from the blinked stones and recorded. */
  method GetNumStones(stone: nat, remaining: nat, memo: map<(nat, nat), nat>)
    returns (count: nat, memo': map<(nat, nat), nat>)
    requires stone < ULongLimit && MemoValid(memo)
    ensures count == Count(stone, remaining) % ULongLimit
    ensures MemoValid(memo') && memo.Keys <= memo'.Keys
    ensures remaining > 0 ==> (stone, remaining) in memo'
    decreases remaining, 0
  {
    if remaining == 0 {
      return 1, memo;
    }
    var key := (stone, remaining);
    if key in memo {
      return memo[key], memo;
    }
    var blinked := BlinkStone(stone);
    count, memo' := SumCounts(blinked, remaining - 1, memo);
    if key !in memo' {
      MemoRecord(memo', stone, remaining, count);
      memo' := memo'[key := count];
    }
  }

  /** The loop shared by `get_num_stones` and `n_blinks_on_stone_collection`:
      the counts of the stones after n blinks, added in `unsigned long`. */
  method SumCounts(stones: seq<nat>, n: nat, memo: map<(nat, nat), nat>)
    returns (total: nat, memo': map<(nat, nat), nat>)
    requires AllULong(stones) && MemoValid(memo)
    ensures total == CountAll(stones, n) % ULongLimit
    ensures MemoValid(memo') && memo.Keys <= memo'.Keys
    decreases n, 1
  {
    total := 0;
    memo' := memo;
    for i := 0 to |stones|
      invariant MemoValid(memo') && memo.Keys <= memo'.Keys
      invariant total == CountAll(stones[..i], n) % ULongLimit
    {
      var c;
      c, memo' := GetNumStones(stones[i], n, memo');
      assert (total + c) % ULongLimit == CountAll(stones[..i + 1], n) % ULongLimit by {
        CountAllSnoc(stones, i, n);
        ModAdd(CountAll(stones[..i], n), Count(stones[i], n));
      }
      total := (total + c) % ULongLimit;
    }
    assert stones[..|stones|] == stones;
  }

  /** `n_blinks_on_stone_collection`: the wrapped total of the stones after n
      blinks, with the memo carried over to later calls. */
  method CountStones(stones: seq<nat>, n: nat, memo: map<(nat, nat), nat>)
    returns (total: nat, memo': map<(nat, nat), nat>)
    requires AllULong(stones) && MemoValid(memo)
    ensures total == |Arrangement(stones, n)| % ULongLimit
    ensures MemoValid(memo') && memo.Keys <= memo'.Keys
  {
    total, memo' := SumCounts(stones, n, memo);
    CountIsLength(stones, n);
  }

  /** `main`: the stones read from the input, counted after 25 and then after
      75 blinks with one shared memo. */
  method Solve(text: string) returns (r: Result<(nat, nat)>)
    ensures r.Ok? <==> ReadStones(text).Ok?
    ensures r.Ok? ==> var stones := ReadStones(text).value;
      r.value == (|Arrangement(stones, 25)| % ULongLimit, |Arrangement(stones, 75)| % ULongLimit)
  {
    var read := ReadStones(text);
    if read.Err? {
      return Err(read.message);
    }
    var memo: map<(nat, nat), nat> := map[];
    var after25, after75;
    after25, memo := CountStones(read.value, 25, memo);
    after75, memo := CountStones(read.value, 75, memo);
    r := Ok((after25, after75));
  }

  lemma BlinkAllCons(x: nat, rest: seq<nat>)
    requires x < ULongLimit && AllULong(rest)
    ensures AllULong([x] + rest)
    ensures BlinkAll([x] + rest) == Blink(x) + BlinkAll(rest)
  {
    assert AllULong([x] + rest);
    assert ([x] + rest)[1..] == rest;
  }

  /** The example row "125 17" of the puzzle text is read as two stones. */
  lemma SampleRead()
    ensures ReadStones("125 17") == Ok([125, 17])
  {
    ReadWrittenStones([125, 17]);
    assert NatToString(125) == "125" by {
      assert NatToString(1) == "1";
      assert NatToString(12) == "12";
    }
    assert NatToString(17) == "17" by {
      assert NatToString(1) == "1";
    }
    assert Numerals([125, 17]) == ["125", "17"];
    assert Join(["125", "17"], ' ') == "125 17";
  }

  lemma SampleStone1()
    ensures Blink(1) == [2024]
  {
    assert Digits(1) == 1;
  }

  lemma SampleStone10()
    ensures Blink(10) == [1, 0]
  {
    assert Digits(10) == 2;
    assert Pow10(1) == 10;
  }

  lemma SampleStone99()
    ensures Blink(99) == [9, 9]
  {
    assert Digits(99) == 2;
    assert Pow10(1) == 10;
  }

  lemma SampleStone999()
    ensures Blink(999) == [2021976]
  {
    assert Digits(999) == 3;
  }

  lemma SampleTail()
    ensures AllULong([99, 999])
    ensures BlinkAll([99, 999]) == [9, 9, 2021976]
  {
    SampleStone99();
    SampleStone999();
    assert AllULong([999]) && BlinkAll([999]) == [2021976];
    BlinkAllCons(99, [999]);
    assert [99] + [999] == [99, 999];
  }

  lemma SampleMiddle()
    ensures AllULong([1, 10, 99, 999])
    ensures BlinkAll([1, 10, 99, 999]) == [2024, 1, 0, 9, 9, 2021976]
  {
    SampleTail();
    SampleStone1();
    SampleStone10();
    BlinkAllCons(10, [99, 999]);
    assert [10] + [99, 999] == [10, 99, 999];
    assert Blink(10) + [9, 9, 2021976] == [1, 0, 9, 9, 2021976];
    BlinkAllCons(1, [10, 99, 999]);
    assert [1] + [10, 99, 999] == [1, 10, 99, 999];
    assert Blink(1) + [1, 0, 9, 9, 2021976] == [2024, 1, 0, 9, 9, 2021976];
  }

  /** The puzzle's example row "0 1 10 99 999" becomes
      "1 2024 1 0 9 9 2021976" after one blink. */
  lemma SampleOneBlink()
    ensures BlinkAll([0, 1, 10, 99, 999]) == [1, 2024, 1, 0, 9, 9, 2021976]
  {
    SampleMiddle();
    BlinkAllCons(0, [1, 10, 99, 999]);
    assert [0] + [1, 10, 99, 999] == [0, 1, 10, 99, 999];
    assert Blink(0) + [2024, 1, 0, 9, 9, 2021976] == [1, 2024, 1, 0, 9, 9, 2021976];
  }
}
