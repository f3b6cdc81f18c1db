# Advent of Code 2024 puzzle solutions, modelled in Dafny

The repository holds a set of independent, single-threaded C++ programs, one for each puzzle day. Each reads its puzzle input, computes one or two answers and prints them. This project models the computing core of days 1 to 19, except day 13, after the file reading is stripped off. It states what each core promises, and proves it.

- **Modules.** There is one module per source file, or per day where a day's files are small. A program with two revisions gets one module per revision where they differ: `RamRun` and `RamRunFirst` for day 18. Otherwise both revisions sit in one module: `LocationLists` for day 1, `Reports` for day 2.
- **Shared modules.** `Text` models the standard-library parsing the programs rely on: `std::stoi`, `std::stoul`, `find_first_of` and the `std::getline` loop with a delimiter. `Outcomes` holds the `Result` and `Option` types, and the "read every line until one throws" fold.
- **Value code and state.** Code that only computes values is modelled by functions. Code that updates state is modelled by methods:
  - in-place grid updates work on `array2` fields;
  - in-place vector work, such as disk compaction and pattern sorting, works on `array`;
  - objects whose methods update their fields are classes (`Guard`, `Robot`, `Reindeer`).
  Each method's contract ties its result or its new state to a function of its inputs, and the properties the source promises are proved about that function.
- **Exceptions and undefined behaviour.** A thrown exception becomes an `Err` result with the source's message, or with the exception's type where the library supplies the message. Undefined behaviour the source can reach in a loop becomes an error outcome. Undefined behaviour that depends only on the input becomes a precondition.
- **Fixed-width integers.** Arithmetic is modelled exactly where the answer depends on it:
  - `size_t` steps in the day 16 compass wrap around;
  - the `uint8_t` field of `uint3_t` keeps its value modulo 256;
  - the 64-bit stone counts of day 11, the `unsigned long` operations of day 7, and the `unsigned int` counters of days 10, 12, 15 and 16 wrap.
  Elsewhere integers are unbounded; see "Left out".

## Model

| member | source | states |
|---|---|---|
| `Text.NatToString` | src/d07/main.cpp:76-80 | a decimal numeral without leading zeros whose digits denote the number |
| `Text.ReadSignedDigits` | src/d07/main.cpp:33-37 | after an optional '-', a bare run of digits reads as the number it denotes, negated after the '-' |
| `Text.ReadDigits` | src/d07/main.cpp:33-37 | a bare run of digits reads as the number it denotes |
| `Text.ReadNegatedDigits` | src/d07/main.cpp:33-37 | a '-' and a run of digits read as the negated number |
| `Text.ParseUnsigned` | src/d07/main.cpp:33-37 | before its range check `stoul` reads a run of digits as its value and a '-' before it as a negation, and fails only with `invalid_argument` |
| `Text.ParseInt` | d01/src/main.cpp:51-52 | `stoi` reads a run of digits as its value and a '-' before it as a negation, and fails only with `invalid_argument` |
| `Text.ParseNatPrefix` | src/d07/main.cpp:33-37 | `stoul` reads a rendered number back, whatever non-digit text follows it |
| `Text.ParseIntPrefix` | d01/src/main.cpp:51-52 | `stoi` reads a rendered integer back, sign included, whatever non-digit text follows it |
| `Text.ParseULong` | src/d07/main.cpp:33-37 | `stoul` accepts exactly the readable numbers whose magnitude fits an `unsigned long`, gives a non-negative one as it is and a negative one wrapped round by 2^64, and throws `out_of_range` otherwise |
| `Text.ParseULongNegated` | src/d07/main.cpp:33-37 | a '-' before a number below 2^64 gives its negation modulo 2^64: "-1" is the largest `unsigned long` |
| `Text.ParseULongNumeral` | src/d07/main.cpp:33-37 | every `unsigned long` reads back from its numeral |
| `Text.IndexOf` | d01/src/main.cpp:46 | `find_first_of` gives a position holding the character, or the end when there is none |
| `Text.IndexOfFirst` | d01/src/main.cpp:46 | no earlier position holds the character |
| `Text.Tokens` | src/d07/main.cpp:28 | the `getline` loop with a delimiter yields at least one token exactly when the line is non-empty |
| `Text.TokensNoDelim` | src/d07/main.cpp:28 | no token holds the delimiter |
| `Text.TokensJoin` | src/d07/main.cpp:28 | joining the tokens with the delimiter gives back a line that does not end with it |
| `Text.JoinTokens` | src/d07/main.cpp:28 | splitting a join of tokens without the delimiter, the last non-empty, gives back the tokens |
| `Text.LastIndexOf` | d16/src/main.cpp:53-59 | a position found holds the character and lies within the prefix searched |
| `Text.LastIndexOfLast` | d16/src/main.cpp:53-59 | no later position in the prefix holds the character, and none is found only when none is there |
| `Outcomes.MapAll` | d01/src/main.cpp:40-58 | a reading loop that an exception ends: the results of the elements in order, or the first failure |
| `Outcomes.MapAllErr` | d01/src/main.cpp:40-58 | once an element fails, later elements change nothing |
| `Outcomes.MapAllOk` | d01/src/main.cpp:40-58 | the loop succeeds exactly when every element does, and then holds one result per element, in order |
| `Outcomes.MapAllPrefix` | d01/src/main.cpp:40-58 | the loop over a prefix looks at nothing beyond it |
| `LocationLists.SplitLine` | d01/src/main.cpp:45-52 | a failure is `stoi`'s `invalid_argument`; a line without a space reads both ids from the whole line, so they are equal |
| `LocationLists.SplitLineRoundTrip` | d01/src/main.cpp:45-52 | a line written as the first id, one space, any padding and the second id splits at the first space and reads back as that pair of ids |
| `LocationLists.ReadLists` | d01/src/main.cpp:40-58 | succeeds iff every line splits into two integers; then the two lists have one entry per line, line i giving list1[i] and list2[i]; otherwise the error of the first bad line |
| `LocationLists.SortAscending` | d01/src/main.cpp:30-31 | the sorted list is ascending, has the same length and is a permutation of the input |
| `LocationLists.Insert` | d01/part1/src/main.cpp:33-34 | inserting one id into an ascending list keeps it ascending and adds exactly that id to its multiset |
| `LocationLists.CalcListDistance` | d01/src/main.cpp:60-67 | walks both lists in step over the indices of the first one (requires the second to be at least as long) and returns the sum of the absolute differences |
| `LocationLists.DistanceZeroIff` | d01/src/main.cpp:60-67 | the distance is never negative, and it is zero exactly when the first list equals the matching prefix of the second |
| `LocationLists.DistanceSymmetric` | d01/src/main.cpp:62-64 | for lists of equal length the distance does not depend on which list is the first |
| `LocationLists.DistancePrefix` | d01/src/main.cpp:62 | elements of the second list beyond the first list's length do not contribute |
| `LocationLists.CountOccurrences` | d01/src/main.cpp:70-73 | the count map has exactly the ids of the second list as keys, and each maps to its number of occurrences |
| `LocationLists.SimilarityScore` | d01/src/main.cpp:75-82 | the score loop over the first list, looking ids up in the count map and skipping absent ones, returns the sum of id times occurrences in the second list |
| `LocationLists.SimilarityAppend` | d01/src/main.cpp:76-80 | the score of a concatenation of first lists is the sum of their scores |
| `LocationLists.SimilarityPermutation` | d01/part2/src/main.cpp:37-44 | the score depends only on the multiset of the first list, so the sorted (d01/src) and unsorted (d01/part2) revisions agree |
| `LocationLists.SimilarityMultiset` | d01/src/main.cpp:69-73 | the score depends only on the multiset of the second list, so sorting it first changes nothing |
| `LocationLists.DistanceAndSimilarity` | d01/src/main.cpp:24-37 | fails iff reading fails; otherwise gives the distance of the two sorted lists and the similarity score of the lists as read |
| `LocationLists.Part1Total` | d01/part1/src/main.cpp:31-43 | fails iff reading fails; otherwise the sum of pairwise distances of both lists sorted ascending, over the first list's length |
| `LocationLists.Part2Score` | d01/part2/src/main.cpp:29-48 | fails iff reading fails; otherwise the similarity score of the unsorted first list against the count map of the second |
| `Reports.ParseAll` | src/d02/main.cpp:48-51 | the tokens of a line read as integers succeed iff every token parses, and then give one level per token, in order |
| `Reports.ReadReportRoundTrip` | src/d02/main.cpp:43-54 | levels written with single spaces read back as the same report |
| `Reports.ReadReports` | src/d02/main.cpp:39-57 | succeeds iff every line reads, and then holds one report per line, in order |
| `Reports.AdjacentFind` | src/d02/main.cpp:61 | `std::adjacent_find` returns a position at or after its start, and a position before the end names a pair that passes the test |
| `Reports.AdjacentFindFirst` | src/d02/main.cpp:82 | no earlier pair passes the test than the one found |
| `Reports.IsReportIncreasing` | src/d02/main.cpp:59-67 | a report judged increasing has at least three levels |
| `Reports.IsReportIncreasingIff` | src/d02/main.cpp:59-67 | the direction test holds iff two different adjacent pairs rise |
| `Reports.FindUnsafeLevel` | src/d02/main.cpp:69-83 | the level found is the end, or the first level of a step that is unsafe for the direction test's verdict |
| `Reports.TwoRisesFound` | src/d02/main.cpp:61-66 | any two rising pairs are found by the first search and the one after it |
| `Reports.NoUnsafeStepIff` | src/d02/main.cpp:77-82 | the unsafe-pair search reaches the end iff every step goes the chosen way by 1 to 3 |
| `Reports.IsSafeFromThreeLevels` | src/d02/main.cpp:69-83 | a report of at least three levels has no unsafe level iff it is monotone with steps of 1 to 3 |
| `Reports.IsSafeTwoLevels` | src/d02/main.cpp:59-83 | a two-level report is safe iff it falls by 1 to 3: one rising pair never makes the report increasing |
| `Reports.IsSafeShortReports` | src/d02/main.cpp:70-72 | reports of fewer than two levels have no unsafe level |
| `Reports.DampReport` | src/d02/main.cpp:100-107 | the damped report is one shorter and is the report with exactly the element at the given index removed |
| `Reports.CheckDampedReportSafety` | src/d02/main.cpp:85-98 | the dampener accepts every safe report and every report of at most two levels |
| `Reports.DampenerSound` | src/d02/main.cpp:85-98 | the dampener accepts every safe report, and what it accepts is safe as it is or after removing one level |
| `Reports.CheckReportSafety` | d02/src/main.cpp:28-42 | the earlier revision accepts every report of at most two levels; a longer report it accepts starts with a step of 1 to 3 |
| `Reports.CheckReportSafetyIff` | d02/src/main.cpp:28-42 | the earlier revision calls a report safe iff it has at most two levels or is monotone with steps of 1 to 3 (direction fixed by the first pair) |
| `Reports.RevisionsAgree` | d02/src/main.cpp:28-42 | from three levels up, both revisions judge every report alike |
| `Reports.CountSafe` | src/d02/main.cpp:28-30 | the number of safe reports is at most the number of reports |
| `Reports.DampenedCountAtLeast` | src/d02/main.cpp:28-34 | the dampened count is never below the plain count |
| `Reports.SafeCounts` | src/d02/main.cpp:21-36 | fails iff reading fails; otherwise the plain count is at most the dampened count, which is at most the number of lines |
| `Reports.CountSafeOldRevision` | d02/src/main.cpp:49 | the earlier revision's count is at most the number of reports |
| `Reports.SafeCountOldRevision` | d02/src/main.cpp:45-53 | fails iff reading fails; otherwise at most one safe report per line |
| `CorruptedMemory.ExtractMulRoundTrip` | d03/src/main.cpp:15-25 | the text `mul(a,b)` written with the decimal numerals of two naturals yields exactly the pair (a, b) |
| `CorruptedMemory.ProcessCorruptedMul` | d03/src/main.cpp:27-49 | the loop starts enabled with sum 0 and visits the matches in order; it fails iff an enabled `mul` fails to read, and otherwise returns the sum the step function gives |
| `CorruptedMemory.RunAppend` | d03/src/main.cpp:34-46 | running two runs of matches one after the other is the same as running their concatenation |
| `CorruptedMemory.RunErrAppend` | d03/src/main.cpp:43 | once a match fails to read, no later match recovers |
| `CorruptedMemory.SwitchesIgnorePriorState` | d03/src/main.cpp:38-41 | `don't()` clears and `do()` sets the flag whatever it was, and neither changes the sum |
| `CorruptedMemory.DisabledMulsIgnored` | d03/src/main.cpp:42-45 | while disabled, any run of `mul` matches leaves flag and sum unchanged |
| `CorruptedMemory.EnabledMulsAdd` | d03/src/main.cpp:42-45 | while enabled, a run of well-formed `mul` matches adds exactly the sum of their products |
| `CorruptedMemory.MulTextsSum` | d03/src/main.cpp:43-44 | texts written `mul(x,y)` are all well-formed and their products sum to the dot product of the arguments |
| `CorruptedMemory.MulTextNotSwitch` | d03/src/main.cpp:38-42 | a `mul(a,b)` text is neither `do()` nor `don't()` |
| `WordSearch.NumAdjacentWords` | d04/src/main.cpp:20-62 | the count is the number of the eight direction vectors along which "XMAS" reads from the cell, so it lies in 0..8 |
| `WordSearch.MatchedLetters` | d04/src/main.cpp:46-56 | the inner loop counts the leading letters found in bounds (rows of the puzzle, width of row 0) along the direction and stops at the first miss; it reaches 4 iff the whole word is there |
| `WordSearch.NoWordWithoutX` | d04/src/main.cpp:47-54 | a cell out of bounds or not holding 'X' starts no word in any direction |
| `WordSearch.RowTotal` | d04/src/main.cpp:71-73 | a row of w cells contributes at most 8·w words |
| `WordSearch.GridTotalBound` | d04/src/main.cpp:69-74 | the grid total is at most eight times the number of cells |
| `WordSearch.WordsFound` | d04/src/main.cpp:65-78 | the nested loops of `main` sum the per-cell counts over every row and its own width; an empty puzzle gives 0 |
| `PrintQueue.RuleFieldsOf` | d05/src/main.cpp:21-25 | a rule line "a|b" with no '|' in a splits into the pages a and b |
| `PrintQueue.RuleFieldsNoBar` | d05/src/main.cpp:24-25 | a line without '|' is all first page, with an empty second page |
| `PrintQueue.AddRule` | d05/src/main.cpp:27-32 | adding a rule line creates or extends exactly the entry of its first page |
| `PrintQueue.AddRulePairs` | d05/src/main.cpp:27-32 | after adding a rule line, a pair is recorded iff it was recorded before or is the pair of that line |
| `PrintQueue.RulesOfPairs` | d05/src/main.cpp:16-33 | the rule map records exactly the (first page, second page) pairs of the rule lines |
| `PrintQueue.ReadPrintingRules` | d05/src/main.cpp:13-36 | reads the rule lines up to the first blank line (or the end), returning the rule map of those lines and the index of the blank line |
| `PrintQueue.ReadPrintingInstructions` | d05/src/main.cpp:38-52 | one update per remaining line, each the line split at ',' |
| `PrintQueue.ProcessInstruction` | d05/src/main.cpp:64-86 | for a non-empty update: 0 iff some page has a rule naming a page printed before it; otherwise the number on the middle page `update[size/2]`, or the error of `stoi` |
| `PrintQueue.InOrderIff` | d05/src/main.cpp:70-82 | building the update page by page without meeting an earlier page in the current page's rules is the same as the update not being broken |
| `PrintQueue.BrokenPersists` | d05/src/main.cpp:74-77 | pages printed after a broken pair never repair the update |
| `PrintQueue.BrokenAddNothing` | d05/src/main.cpp:93-96 | broken updates contribute 0 to the sum |
| `PrintQueue.MiddlePageSumErr` | d05/src/main.cpp:94-96 | a failing `stoi` in one update is the outcome of the whole sum |
| `PrintQueue.SumMiddlePages` | d05/src/main.cpp:93-96 | the loop of `main` returns the sum of what each update contributes, or the first failure |
| `PrintQueue.UpdatesOf` | d05/src/main.cpp:38-49 | when blank lines appear only as the separator, every update has at least one page |
| `PrintQueue.BlankIndexIs` | d05/src/main.cpp:16-19 | the index where the rule reading stops is the first blank line |
| `PrintQueue.MiddlePages` | d05/src/main.cpp:54-62 | the whole program: rules from the lines before the first blank line, updates from the lines after it, and the sum of their middle pages |
| `GuardRoom.Guard.constructor` | d06/src/guard.h:25-27 | the guard stores the given heading and position |
| `GuardRoom.Guard.Turn` | d06/src/guard.cpp:3-18 | the heading turns a quarter clockwise (Up→Right→Down→Left→Up) and the position is unchanged |
| `GuardRoom.FourTurns` | d06/src/guard.cpp:3-18 | four turns restore the original heading |
| `GuardRoom.TurnChangesHeading` | d06/src/guard.cpp:3-18 | a turn always changes the heading, and two turns reverse it |
| `GuardRoom.DecodeTile` | d06/src/main.cpp:20-45 | exactly the characters `# . ^ v > <` are accepted; any other is the "Unexpected character" error |
| `GuardRoom.InterpretPosition` | d06/src/main.cpp:13-46 | '#' writes {true,false} and '.' writes {false,false} into the current cell only; an arrow leaves the layout alone and sets the guard start to the current position with its heading; other characters fail |
| `GuardRoom.GuardCellIsFloor` | d06/src/main.cpp:27-42 | the cell of an arrow is never an obstacle |
| `GuardRoom.RowStartLastArrow` | d06/src/main.cpp:57-64 | a start recorded within a row is the last arrow of that row read so far, at (column, row) |
| `GuardRoom.ReadLayout` | d06/src/main.cpp:48-68 | reading succeeds iff every character is known; then the 130×130 room holds an obstacle exactly at each '#' (column x of line y), and the guard starts at the last arrow read with its heading |
| `BridgeRepair.JoinedReadsBack` | src/d07/main.cpp:76-81 | writing two numbers to one stream and reading the text back gives the first number shifted by the second's digit count plus the second |
| `BridgeRepair.Apply` | src/d07/main.cpp:73-82 | sum and product wrap at 2^64 and never fail; concatenation fails exactly when `stoul` would be out of range; every result fits in `unsigned long` |
| `BridgeRepair.Evaluate` | src/d07/main.cpp:55-63 | the only exception the search can end with is `stoul`'s `out_of_range` |
| `BridgeRepair.AnyOp` | src/d07/main.cpp:60-62 | the same for `any_of` over the operations |
| `BridgeRepair.IsValidEquation` | src/d07/main.cpp:46-66 | an equation without terms is invalid; otherwise, when no exception ends the search, it is valid iff some choice of operators, applied left to right from the first term, reaches the test value; the only exception is `stoul`'s `out_of_range` |
| `BridgeRepair.EvaluateIff` | src/d07/main.cpp:55-63 | when the search finishes, it answers true iff some choice of operators from the list, applied strictly left to right from the current value, reaches the test value |
| `BridgeRepair.AnyOpIff` | src/d07/main.cpp:60-62 | `any_of` over the operations from the j-th on answers true iff some reaching choice starts with one of those operations |
| `BridgeRepair.ReachesCons` | src/d07/main.cpp:61 | an operation applied to the next term, followed by a reaching choice from there, is a reaching choice |
| `BridgeRepair.ReachesTail` | src/d07/main.cpp:61 | a reaching choice starts with an operation that applies, and its rest reaches from the next term |
| `BridgeRepair.NoCatNoError` | src/d07/main.cpp:55-65 | with only sum and product the search never throws |
| `BridgeRepair.NoCatNoErrorFrom` | src/d07/main.cpp:60-62 | with only sum and product `any_of` never throws |
| `BridgeRepair.SingleTerm` | src/d07/main.cpp:51-58 | an equation with one term is valid iff the term equals the test value |
| `BridgeRepair.TermsOfNumerals` | src/d07/main.cpp:28-35 | the tokens of written terms, after the empty token that follows ':', read back as those terms |
| `BridgeRepair.ReadParts` | src/d07/main.cpp:21-38 | a line made of the test value text, ':' and the term text reads as that test value and those terms |
| `BridgeRepair.RenderedTerms` | src/d07/main.cpp:28 | the text after ':' of a written equation splits into the empty token and the numerals of the terms |
| `BridgeRepair.NumeralTermsRead` | src/d07/main.cpp:29-34 | the empty token is skipped and every numeral reads back, so the terms come back in order |
| `BridgeRepair.NumeralTokensJoinable` | src/d07/main.cpp:28 | no numeral holds a space, so splitting at ' ' recovers the tokens |
| `BridgeRepair.EquationRoundTrip` | src/d07/main.cpp:16-42 | an equation written "value: t1 t2 ..." reads back as the same equation |
| `BridgeRepair.ReadTerms` | src/d07/main.cpp:28-35 | the term loop skips empty tokens and reads the others with `stoul`, stopping at the first failure |
| `BridgeRepair.ReadEquation` | src/d07/main.cpp:20-39 | one line gives the equation its text denotes, terms read before the test value, or the first `stoul` failure |
| `BridgeRepair.TermsOfErr` | src/d07/main.cpp:33 | once a term fails, the rest of the line changes nothing |
| `BridgeRepair.ReadEquations` | src/d07/main.cpp:16-42 | every line in order gives one equation; the first failing line ends the reading with its error |
| `BridgeRepair.ReadNextEquation` | src/d07/main.cpp:38 | one pass of the reading loop appends the equation of the next line or fails with its error |
| `BridgeRepair.TestValueSum` | src/d07/main.cpp:84-89 | the loop of `main` sums, wrapping at 2^64, the test values of the valid equations, or fails with the first exception |
| `BridgeRepair.ValidSumErr` | src/d07/main.cpp:85-89 | once an equation throws, later equations change nothing |
| `Antinodes.Record` | src/d08/main.cpp:41-45 | recording an antenna creates or extends only its own character's list, appending the position |
| `Antinodes.ReadFrequencies` | src/d08/main.cpp:29-53 | the scan gives the frequency map of all lines, x counting columns and y counting lines |
| `Antinodes.RowFrequenciesHold` | src/d08/main.cpp:35-47 | one line adds exactly its non-'.' cells left of column x, each under its own character |
| `Antinodes.FrequenciesHold` | src/d08/main.cpp:34-50 | a position is recorded under a character iff that cell of the text holds that character and it is not '.' |
| `Antinodes.FrequenciesNonEmpty` | src/d08/main.cpp:36-45 | '.' is never a frequency, and every recorded frequency has at least one antenna |
| `Antinodes.RowNonEmpty` | src/d08/main.cpp:41-45 | one line keeps every list non-empty and never records '.' |
| `Antinodes.ShiftNext` | src/d08/main.cpp:88-89 | the next point of a walk is one more difference vector along |
| `Antinodes.WalkSound` | src/d08/main.cpp:87-93 | every point a walk inserts is inside the 50×50 map and a whole number of steps from its start |
| `Antinodes.Between` | src/d08/main.cpp:58-63 | the map is convex along a walk: between two inside points, every step is inside |
| `Antinodes.WalkComplete` | src/d08/main.cpp:87-102 | every inside point a whole number of steps on from an inside start is inserted |
| `Antinodes.WalkIff` | src/d08/main.cpp:85-102 | a walk from step 0 inserts exactly the inside points k·diff from its start, for k = 0, 1, … (nothing when the start is outside) |
| `Antinodes.AntennasAreAntinodes` | src/d08/main.cpp:88-100 | both antennas of a pair of distinct positions inside the map are antinodes of that pair (the k = 0 case) |
| `Antinodes.PairSymmetric` | src/d08/main.cpp:82-102 | the antinodes of a pair do not depend on which antenna comes first |
| `Antinodes.PairsFromIff` | src/d08/main.cpp:75-103 | the inner iterator loop inserts exactly the antinodes of the pairs (i, b) with i < b and distinct positions |
| `Antinodes.ListAntinodesIff` | src/d08/main.cpp:74-104 | the antinodes of one frequency come from exactly its pairs of distinct positions |
| `Antinodes.ListAntinodesSound` | src/d08/main.cpp:74-104 | every antinode of a frequency is named by some pair of it |
| `Antinodes.ListAntinodesComplete` | src/d08/main.cpp:74-104 | every antinode of some pair is in the frequency's antinodes |
| `Antinodes.AntinodesInBounds` | src/d08/main.cpp:58-71 | every antinode of a frequency lies inside the map |
| `Antinodes.AntennaAntinode` | src/d08/main.cpp:88-100 | an antenna inside the map sharing its frequency with an antenna at another position is itself an antinode |
| `Antinodes.WalkStep` | src/d08/main.cpp:87-93 | from an inside point a walk inserts that point and continues one step on, getting strictly closer to the border |
| `Antinodes.InsertWalk` | src/d08/main.cpp:85-93 | one do-while adds exactly the walk's points to the set and stops at the first point outside |
| `Antinodes.InsertPairs` | src/d08/main.cpp:75-103 | the inner loop adds exactly the antinodes of antenna i paired with each later antenna, skipping identical positions |
| `Antinodes.InsertPair` | src/d08/main.cpp:82-102 | the two walks of a pair add c1 − k·diff and c2 + k·diff while inside the map |
| `Antinodes.InsertFrequency` | src/d08/main.cpp:74-104 | the outer iterator loop adds the antinodes of all pairs of one frequency |
| `Antinodes.SomeAntinodesStep` | src/d08/main.cpp:73 | adding one more frequency adds exactly its antinodes, in whatever order the map yields the frequencies |
| `Antinodes.CountAntinodes` | src/d08/main.cpp:55-108 | the result is the number of distinct antinode positions over all frequencies |
| `Antinodes.AllAntinodesInBounds` | src/d08/main.cpp:58-71 | every counted antinode is inside the 50×50 map |
| `DiskCompaction.Repeat` | d09/src/main.cpp:23-26 | the inner push loop appends exactly `n` copies of the one block |
| `DiskCompaction.ReadBlocks` | d09/src/main.cpp:13-35 | the blocks are the expansion of the disk map: digit k gives that many blocks, free exactly when k is odd, with id (k+1)/2 and the digit as recorded length |
| `DiskCompaction.ExpandLength` | d09/src/main.cpp:21-32 | the disk holds one block per unit of every digit |
| `DiskCompaction.SameRunIff` | d09/src/main.cpp:23-26 | a run of blocks is all equal to one block iff every block in it is |
| `DiskCompaction.GroupedFrame` | d09/src/main.cpp:23-26 | whether a segment splits into whole runs depends only on the blocks inside it |
| `DiskCompaction.GroupedJoin` | d09/src/main.cpp:23-26 | two segments of whole runs side by side form one |
| `DiskCompaction.GroupStart` | d09/src/main.cpp:23-26 | a block that differs from its predecessor starts a whole run inside a grouped segment |
| `DiskCompaction.GroupedPositive` | d09/src/main.cpp:22-24 | every block of a segment of whole runs records a positive length |
| `DiskCompaction.ExpandGrouped` | d09/src/main.cpp:21-32 | the expanded disk splits into whole runs, each as long as the length its blocks record |
| `DiskCompaction.Checksum` | d09/src/main.cpp:92-104 | the checksum is an `unsigned long`, below 2^64 |
| `DiskCompaction.CalculateChecksum` | d09/src/main.cpp:92-104 | the loop adds id·i, modulo 2^64, over the file blocks only |
| `DiskCompaction.ChecksumByFiles` | d09/src/main.cpp:95-100 | two disks with the same file ids at the same positions have the same checksum, whatever the recorded lengths and the ids of free blocks |
| `DiskCompaction.ChecksumOfFreeDisk` | d09/src/main.cpp:96-98 | a disk without file blocks has checksum 0 |
| `DiskCompaction.FindFrom` | d09/src/main.cpp:65-68 | the search result lies between the start and the end of the range searched |
| `DiskCompaction.FindFromFirst` | d09/src/main.cpp:65-71 | `find_if` returns the first free block recorded long enough, and no block before it qualifies |
| `DiskCompaction.BlockStep` | d09/src/main.cpp:40-46 | one pass of the reverse loop keeps the number of blocks |
| `DiskCompaction.BlockCompact` | d09/src/main.cpp:39-47 | the reverse loop over the blocks before an index keeps the number of blocks |
| `DiskCompaction.BlockStepSettles` | d09/src/main.cpp:40-46 | a pass permutes the blocks; when every later block is free or has no free block before it, afterwards the visited block and every later one are so too |
| `DiskCompaction.BlockCompactSettles` | d09/src/main.cpp:39-47 | the loop over a prefix, on a disk whose later blocks are settled, permutes the blocks and leaves no free block before any file block |
| `DiskCompaction.BlockCompactDiskSettles` | d09/src/main.cpp:37-50 | block compaction of a whole disk permutes its blocks and leaves no free block before any file block |
| `DiskCompaction.BlockCompactDisk` | d09/src/main.cpp:37-50 | the in-place loop leaves the array holding the block compaction of its old contents |
| `DiskCompaction.SampleBlockCompact` | d09/src/main.cpp:37-50 | file 0, one free block, file 1, file 2 compacts to file 0, file 2, file 1, free |
| `DiskCompaction.Swap` | d09/src/main.cpp:76 | a swap keeps the disk's length |
| `DiskCompaction.SwapRuns` | d09/src/main.cpp:75-80 | the swap loop keeps the disk's length |
| `DiskCompaction.SetLengths` | d09/src/main.cpp:82-86 | the length loop keeps the disk's length |
| `DiskCompaction.Move` | d09/src/main.cpp:73-86 | moving a file into a free run keeps the disk's length |
| `DiskCompaction.FileStep` | d09/src/main.cpp:53-86 | a pass that stays inside the vector keeps the length and positive recorded lengths, and moves the iterator strictly left |
| `DiskCompaction.MovePositive` | d09/src/main.cpp:73-86 | after a move every block still records a positive length |
| `DiskCompaction.SwapRunsPositive` | d09/src/main.cpp:75-80 | the swap loop keeps every recorded length positive |
| `DiskCompaction.SetLengthsPositive` | d09/src/main.cpp:82-86 | re-recording a non-empty rest of a run with its positive length keeps every length positive |
| `DiskCompaction.FileCompact` | d09/src/main.cpp:52-90 | a scan that stays inside the vector returns a disk of the same length |
| `DiskCompaction.FileCompactUnfold` | d09/src/main.cpp:53 | the scan is one pass followed by the scan from the new iterator position |
| `DiskCompaction.SwapRunsAt` | d09/src/main.cpp:73-80 | two disjoint runs of identical blocks trade places wholesale and nothing else changes |
| `DiskCompaction.SetLengthsAt` | d09/src/main.cpp:82-86 | the length loop changes the recorded length of exactly the blocks it visits |
| `DiskCompaction.OneGroup` | d09/src/main.cpp:82-86 | n copies of a block recorded n long are one whole run |
| `DiskCompaction.MoveShape` | d09/src/main.cpp:73-86 | after a move the file's blocks stand at the front of the old free run, the rest of the run is recorded as the shorter run, and the file's old place holds free blocks |
| `DiskCompaction.SplitRunGrouped` | d09/src/main.cpp:73-86 | replacing the front of a whole free run by a whole file and re-recording the rest keeps a segment of whole runs |
| `DiskCompaction.MoveGrouped` | d09/src/main.cpp:73-86 | a move keeps the blocks before the moved file split into whole runs |
| `DiskCompaction.CorrectedMove` | d09/src/main.cpp:73-86 | with the iterator advanced by the file's length, a move that fits takes the iterator to the block just before the file |
| `DiskCompaction.CorrectedStep` | d09/src/main.cpp:53-86 | with that advance, each pass keeps the blocks up to the iterator in whole runs, so every access stays inside the vector |
| `DiskCompaction.CorrectedNeverFails` | d09/src/main.cpp:52-90 | with that advance, the whole scan of a disk of whole runs never leaves the vector |
| `DiskCompaction.ExpandReady` | d09/src/main.cpp:13-35 | an expanded disk map has positive lengths and whole runs, as the corrected scan needs |
| `DiskCompaction.Tags` | d09/src/main.cpp:7-11 | the free/file tags of a disk, one per block |
| `DiskCompaction.SwapTags` | d09/src/main.cpp:76 | a swap permutes the free/file tags |
| `DiskCompaction.SwapRunsTags` | d09/src/main.cpp:75-80 | the swap loop permutes the free/file tags |
| `DiskCompaction.SwapRunsTagsStep` | d09/src/main.cpp:76 | one more swap keeps the tags a permutation of the original ones |
| `DiskCompaction.SetLengthsTags` | d09/src/main.cpp:82-86 | the length loop leaves every free/file tag unchanged |
| `DiskCompaction.MoveTags` | d09/src/main.cpp:73-86 | a move permutes the free/file tags |
| `DiskCompaction.FileStepTags` | d09/src/main.cpp:53-86 | a pass only moves blocks and rewrites lengths: the tags are permuted |
| `DiskCompaction.FileCompactTags` | d09/src/main.cpp:52-90 | compaction, as written or corrected, keeps the number of blocks of every file and of free space |
| `DiskCompaction.FileCompactDisk` | d09/src/main.cpp:52-90 | the in-place loop (advancing by the file's length) computes the corrected scan of its disk |
| `DiskCompaction.MoveFile` | d09/src/main.cpp:73-86 | the in-place move computes `Move` |
| `DiskCompaction.SwapRunsInPlace` | d09/src/main.cpp:75-80 | the in-place swap loop computes `SwapRuns` |
| `DiskCompaction.SetLengthsInPlace` | d09/src/main.cpp:82-86 | the in-place length loop computes `SetLengths` |
| `DiskCompaction.SampleExpands` | d09/src/main.cpp:13-35 | "13101" expands to file 0, a free run of three, file 1, file 2 |
| `DiskCompaction.SampleFirstMove` | d09/src/main.cpp:73-86 | file 2 moves to the front of the run of three, whose rest is recorded as two long |
| `DiskCompaction.SampleSecondMove` | d09/src/main.cpp:73-86 | file 1 then moves into the run of two |
| `DiskCompaction.SampleFirstStep` | d09/src/main.cpp:53 | after the first move the iterator advances by three as written and by one when corrected |
| `DiskCompaction.AsWrittenSkipsFile` | d09/src/main.cpp:53 | as written, "13101" is compacted without ever trying file 1, leaving the iterator inside a free run |
| `DiskCompaction.SampleSecondStep` | d09/src/main.cpp:53-86 | corrected, the second pass moves file 1 |
| `DiskCompaction.SampleSettled` | d09/src/main.cpp:53-86 | after file 1 nothing moves any more |
| `DiskCompaction.CorrectedMovesFile` | d09/src/main.cpp:52-90 | corrected, "13101" compacts with file 1 moved into the two free blocks |
| `DiskCompaction.SampleChecksums` | d09/src/main.cpp:92-104 | the checksums are 6 as written and 4 corrected |
| `HoofIt.Height` | d10/src/main.cpp:13 | a cell of the map holds an 8-bit height |
| `HoofIt.HeightOf` | d10/src/main.cpp:41 | a character's height is `c - '0'` truncated to eight bits, the digit's value for '0'…'9' |
| `HoofIt.MapOf` | d10/src/main.cpp:34-49 | the map read stays a 60×60 array of 8-bit heights |
| `HoofIt.PartialMap` | d10/src/main.cpp:38-48 | every intermediate state of the reading loops is a 60×60 array of 8-bit heights |
| `HoofIt.ReadMap` | d10/src/main.cpp:30-51 | reading writes each character's height over the array's old contents, and lists the trailheads line by line in reading order |
| `HoofIt.ReadLine` | d10/src/main.cpp:39-48 | the column loop writes one line's heights and appends its height-0 cells in column order |
| `HoofIt.PartialStart` | d10/src/main.cpp:34 | before reading, the array holds its initial contents |
| `HoofIt.PartialStep` | d10/src/main.cpp:46 | each character writes exactly its own cell |
| `HoofIt.PartialRow` | d10/src/main.cpp:38-48 | finishing a line is starting the next one |
| `HoofIt.PartialEnd` | d10/src/main.cpp:38-50 | after the last line the array is the map read |
| `HoofIt.RowTrailheadsIff` | d10/src/main.cpp:40-44 | a line contributes exactly its cells of height 0 |
| `HoofIt.TrailheadsIff` | d10/src/main.cpp:37-49 | the trailheads are exactly the cells of the text whose height is 0 |
| `HoofIt.TrailheadsOnMap` | d10/src/main.cpp:42-46 | every trailhead lies in the array on a cell of height 0 |
| `HoofIt.Step` | d10/src/main.cpp:77-89 | a neighbour passed by the test lies in the map exactly one higher |
| `HoofIt.Pushed` | d10/src/main.cpp:77-89 | the neighbour loop queues at most one cell per direction, each in the map and one higher |
| `HoofIt.QueueAppend` | d10/src/main.cpp:59-90 | the trails and peaks of a queue are those of its parts together |
| `HoofIt.PushedBranches` | d10/src/main.cpp:77-89 | queueing a cell's neighbours hands on exactly that cell's trails and peaks |
| `HoofIt.NoPeaksAbove` | d10/src/main.cpp:81-102 | above height 9 no height-9 cell is reachable |
| `HoofIt.StepIff` | d10/src/main.cpp:58-83 | the four directions and the height test accept exactly the side neighbours one higher |
| `HoofIt.TrailHeights` | d10/src/main.cpp:81 | along a trail the k-th cell is k higher than the first |
| `HoofIt.PeakBranchesFrom` | d10/src/main.cpp:77-89 | a peak reached through the neighbours is reached from one climbing neighbour |
| `HoofIt.PeakBranchesHas` | d10/src/main.cpp:77-89 | every climbing neighbour's peaks are reached |
| `HoofIt.PeaksSound` | d10/src/main.cpp:53-93 | every peak reached ends a trail from the start at height 9 |
| `HoofIt.PeaksComplete` | d10/src/main.cpp:53-93 | the end of every trail from the start at height 9 is a peak reached |
| `HoofIt.PeaksIff` | d10/src/main.cpp:53-93 | the peaks reached are exactly the height-9 ends of trails from the start |
| `HoofIt.ScoreAtMostRating` | d10/src/main.cpp:101-115 | a trailhead's score never exceeds its rating |
| `HoofIt.BranchesScoreAtMostRating` | d10/src/main.cpp:77-89 | through the neighbours, the peaks reached are never more than the trails |
| `HoofIt.Requirement` | d10/src/main.cpp:101-115 | the callback ends a branch exactly at height 9 (for the score: at a peak not yet reached), counts it modulo 2^32, and records the peak for the score |
| `HoofIt.WeightUniform` | d10/src/main.cpp:59-90 | cells of one height weigh the same |
| `HoofIt.ExpandLighter` | d10/src/main.cpp:67-90 | replacing the front cell by its neighbours makes the queue lighter, so the walk ends |
| `HoofIt.PushNeighbours` | d10/src/main.cpp:77-89 | the neighbour loop appends exactly the climbing neighbours, in direction order |
| `HoofIt.RatingStep` | d10/src/main.cpp:67-90 | one pass keeps count + trails of the queue equal to the trailhead's rating |
| `HoofIt.PeaksStep` | d10/src/main.cpp:67-90 | one pass keeps the peaks recorded plus the peaks of the queue equal to the trailhead's peaks |
| `HoofIt.TrailheadMetric` | d10/src/main.cpp:53-93 | with the rating callback the result is `Rating`, the climbing paths to a 9 counted branch by branch, with the score callback the number of distinct peaks reached, both modulo 2^32 |
| `HoofIt.SumMetrics` | d10/src/main.cpp:117-122 | the sums of scores and ratings over all trailheads, modulo 2^32 |
| `HoofIt.TotalScoreAtMostRating` | d10/src/main.cpp:117-122 | summed over the trailheads, the score never exceeds the rating |
| `PlutonianPebbles.ReadStones` | d11/src/main.cpp:52-64 | one stone per space-separated token, each an `unsigned long`, or the `stoul` error |
| `PlutonianPebbles.ReadWrittenStones` | d11/src/main.cpp:52-64 | stones written with single spaces between them read back as the same stones |
| `PlutonianPebbles.GetNumDigits` | d11/src/main.cpp:114-121 | the loop counts the decimal digits, none for 0 |
| `PlutonianPebbles.Pow10Monotone` | d11/src/main.cpp:127 | powers of ten grow with the exponent |
| `PlutonianPebbles.Pow10Add` | d11/src/main.cpp:127 | 10^(a+b) = 10^a · 10^b |
| `PlutonianPebbles.DigitsBounds` | d11/src/main.cpp:114-121 | a positive number with d digits lies in [10^(d-1), 10^d) |
| `PlutonianPebbles.DigitsIff` | d11/src/main.cpp:114-121 | the digit count is k exactly when the number lies in [10^(k-1), 10^k) |
| `PlutonianPebbles.DigitsOfNumeral` | d11/src/main.cpp:114-121 | the digit count of a positive number is the length of its decimal text |
| `PlutonianPebbles.ULongDigits` | d11/src/main.cpp:114-121 | an `unsigned long` has at most twenty digits |
| `PlutonianPebbles.ULongBelowPow10` | d11/src/main.cpp:127 | 2^64 < 10^20, so the divisor of a split always fits |
| `PlutonianPebbles.SplitStone` | d11/src/main.cpp:123-134 | the halves are quotient and remainder by 10^(len/2): first·10^(len/2) + second is the stone |
| `PlutonianPebbles.SplitHalves` | d11/src/main.cpp:106-134 | a stone of 2h digits splits into a first half of exactly h digits and a second of at most h |
| `PlutonianPebbles.Blink` | d11/src/main.cpp:101-112 | one blink gives one or two stones, each an `unsigned long` |
| `PlutonianPebbles.BlinkRules` | d11/src/main.cpp:101-112 | 0 becomes 1; a stone splits exactly when its digit count is even, into halves that rebuild it; otherwise it is multiplied by 2024 modulo 2^64 |
| `PlutonianPebbles.BlinkStone` | d11/src/main.cpp:101-112 | `blink_stone` with `get_num_digits` computes the blink rules |
| `PlutonianPebbles.BlinkAll` | d11/src/main.cpp:101-112 | blinking a row keeps every stone and at most doubles the row |
| `PlutonianPebbles.Arrangement` | d11/src/main.cpp:77-99 | the row after n blinks is made of `unsigned long` stones |
| `PlutonianPebbles.ArrangementGrowth` | d11/src/main.cpp:77-99 | after n blinks the row has between its old length and 2^n times it |
| `PlutonianPebbles.Count` | d11/src/main.cpp:77-99 | a stone counts at least one stone, and exactly one with no blinks left |
| `PlutonianPebbles.CountAll` | d11/src/main.cpp:69-95 | a row counts at least as many stones as it has |
| `PlutonianPebbles.CountAllAppend` | d11/src/main.cpp:69-95 | counting two rows after n blinks adds their counts |
| `PlutonianPebbles.CountAllBlink` | d11/src/main.cpp:90-95 | counting after one more blink is counting the blinked row |
| `PlutonianPebbles.CountAllNoBlinks` | d11/src/main.cpp:80-82 | with no blinks left every stone counts one |
| `PlutonianPebbles.CountIsLength` | d11/src/main.cpp:77-99 | the recursive count is the length of the row after that many blinks |
| `PlutonianPebbles.CountBounds` | d11/src/main.cpp:77-99 | a stone is one stone with no blinks left and between 1 and 2^n stones after n blinks |
| `PlutonianPebbles.CountAllSnoc` | d11/src/main.cpp:69-71 | adding one stone to the row adds its count |
| `PlutonianPebbles.MemoRecord` | d11/src/main.cpp:97 | storing a correct count keeps every memo entry correct |
| `PlutonianPebbles.GetNumStones` | d11/src/main.cpp:77-99 | the count of one stone after the remaining blinks modulo 2^64, from the memo or computed and stored; the memo stays correct and only grows |
| `PlutonianPebbles.SumCounts` | d11/src/main.cpp:69-95 | the loop adds the counts of a row modulo 2^64, keeping the memo correct |
| `PlutonianPebbles.CountStones` | d11/src/main.cpp:66-75 | the total is the length of the row after n blinks modulo 2^64 |
| `PlutonianPebbles.Solve` | d11/src/main.cpp:40-48 | for readable input, the row's lengths after 25 and after 75 blinks with one shared memo; otherwise the read error |
| `PlutonianPebbles.BlinkAllCons` | d11/src/main.cpp:101-112 | blinking a row blinks its first stone and then the rest |
| `PlutonianPebbles.SampleRead` | d11/src/main.cpp:52-64 | "125 17" reads as the stones 125 and 17 |
| `PlutonianPebbles.SampleStone1` | d11/src/main.cpp:111 | 1 becomes 2024 |
| `PlutonianPebbles.SampleStone10` | d11/src/main.cpp:106-108 | 10 splits into 1 and 0 |
| `PlutonianPebbles.SampleStone99` | d11/src/main.cpp:106-108 | 99 splits into 9 and 9 |
| `PlutonianPebbles.SampleStone999` | d11/src/main.cpp:111 | 999 becomes 2021976 |
| `PlutonianPebbles.SampleTail` | d11/src/main.cpp:101-112 | "99 999" becomes "9 9 2021976" |
| `PlutonianPebbles.SampleMiddle` | d11/src/main.cpp:101-112 | "1 10 99 999" becomes "2024 1 0 9 9 2021976" |
| `PlutonianPebbles.SampleOneBlink` | d11/src/main.cpp:101-112 | "0 1 10 99 999" becomes "1 2024 1 0 9 9 2021976" after one blink |
| `GardenGroups.AdjacentIff` | d12/src/main.cpp:48 | the four directions reach exactly the plots one step away horizontally or vertically |
| `GardenGroups.ReachableSelf` | d12/src/main.cpp:149-151 | a plot inside the garden belongs to its own region |
| `GardenGroups.ReachableExtend` | d12/src/main.cpp:160-174 | a joined neighbour of a plot in a region is in the region |
| `GardenGroups.ReachableReverse` | d12/src/main.cpp:160-174 | being in one region is symmetric |
| `GardenGroups.ReachableTrans` | d12/src/main.cpp:160-174 | being in one region is transitive |
| `GardenGroups.ReachableSamePlant` | d12/src/main.cpp:137-146 | every plot of a region grows the start plot's plant |
| `GardenGroups.PathSamePlant` | d12/src/main.cpp:137-146 | every plot along a path of joined plots grows the first plot's plant |
| `GardenGroups.ClosedHoldsReachable` | d12/src/main.cpp:152-195 | a set of plots closed under joined neighbours holds the whole region of each of its plots |
| `GardenGroups.EmptySides` | d12/src/main.cpp:160-165 | a plot has at most four fenced sides |
| `GardenGroups.Corners` | d12/src/main.cpp:177-194 | a plot has at most four corners |
| `GardenGroups.Perimeter` | d12/src/main.cpp:160-165 | a region's perimeter is at most four per plot |
| `GardenGroups.Sides` | d12/src/main.cpp:177-194 | a region's side count is at most four per plot |
| `GardenGroups.FenceIffUnjoined` | d12/src/main.cpp:137-165 | a side is fenced exactly when the neighbour there is outside the garden or of another plant |
| `GardenGroups.IsolatedPlot` | d12/src/main.cpp:152-197 | a plot with no same-plant neighbour is a region of perimeter 4, area 1 and 4 sides |
| `GardenGroups.InteriorPlot` | d12/src/main.cpp:160-194 | a plot surrounded on all eight sides by its own plant has no fence and no corner |
| `GardenGroups.GardenOf` | d12/src/main.cpp:90-105 | the garden read is 140×140 |
| `GardenGroups.ReadPlots` | d12/src/main.cpp:90-105 | reading writes each character over the array's old contents, every plot unvisited |
| `GardenGroups.ExploreNeighbours` | d12/src/main.cpp:160-174 | the neighbour loop counts the plot's fenced sides, and queues exactly its unvisited joined neighbours, marking them visited |
| `GardenGroups.CountCorners` | d12/src/main.cpp:177-194 | the corner loop counts the plot's convex and concave corners |
| `GardenGroups.FrontierStep` | d12/src/main.cpp:152-174 | one pass of the flood fill keeps the queue and the plots taken off it a frontier of the region |
| `GardenGroups.VisitNext` | d12/src/main.cpp:153-194 | one pass takes the front plot into the region, adds its fence and corners, and queues its new neighbours |
| `GardenGroups.FrontierDone` | d12/src/main.cpp:152 | when the queue is empty the plots taken off it are exactly the region |
| `GardenGroups.NewPlotRegion` | d12/src/main.cpp:130-198 | the flood fill lists the whole region of the start plot, each plot once, and returns its perimeter, area and sides |
| `GardenGroups.Flood` | d12/src/main.cpp:152-195 | the breadth-first loop runs until the queue is empty, listing the region and marking it visited |
| `GardenGroups.CoveredIff` | d12/src/main.cpp:107-128 | a plot is covered exactly when some region found so far lists it |
| `GardenGroups.ScannedRegion` | d12/src/main.cpp:107-128 | every region found is the whole region of its start plot with its statistics |
| `GardenGroups.ScannedApart` | d12/src/main.cpp:107-128 | no two regions found are the same region |
| `GardenGroups.ScannedDisjoint` | d12/src/main.cpp:107-128 | no plot lies in two regions found |
| `GardenGroups.CoveredClosed` | d12/src/main.cpp:107-128 | the plots covered so far are closed under joined neighbours |
| `GardenGroups.ScannedSnoc` | d12/src/main.cpp:120-123 | adding a region flooded from an uncovered plot extends the regions found |
| `GardenGroups.PlotArrayToRegions` | d12/src/main.cpp:107-128 | the scan marks every plot visited and finds every region exactly once, each with its statistics |
| `GardenGroups.ScanRow` | d12/src/main.cpp:113-124 | the column loop covers every plot up to the end of its row |
| `GardenGroups.ScanPlot` | d12/src/main.cpp:114-123 | a visited plot is skipped; an unvisited one starts a new region |
| `GardenGroups.StartRegion` | d12/src/main.cpp:120-123 | an unvisited plot is marked and its region appended to the list |
| `GardenGroups.FencePrices` | d12/src/main.cpp:77-82 | the two prices are Σ perimeter·area and Σ area·sides, modulo 2^32 |
| `GardenGroups.Solve` | d12/src/main.cpp:71-87 | every plot of the garden read is covered by exactly one region found, and the prices are computed over those regions |
| `RestroomRedoubt.WrapAround` | d14/src/room.cpp:12-20 | the wrapped coordinate is the sum, or the sum less or plus the limit, and lies in [0, limit) whenever the sum lies in [-limit, 2·limit) |
| `RestroomRedoubt.WrapIsRemainder` | d14/src/room.cpp:12-20 | for a sum within one room width of the room, wrapping gives the sum modulo the limit |
| `RestroomRedoubt.AddInRoom` | d14/src/room.cpp:11-28 | adding a velocity slower than the room to a position in the room stays in the room, at the coordinate sums modulo 101 and 103 |
| `RestroomRedoubt.QuadrantOf` | d14/src/room.cpp:30-49 | the quadrant is determined exactly by the side of the middle column 50 and the middle row 51, and a robot on either middle line is in none |
| `RestroomRedoubt.AfterIsRemainder` | d14/src/room.cpp:11-28 | after n seconds a robot stands at (p + n·v) modulo the room's size |
| `RestroomRedoubt.ClassRun` | d14/src/robot.cpp:24 | a run of `[-0-9]` characters stays inside the text |
| `RestroomRedoubt.ClassRunMaximal` | d14/src/robot.cpp:24 | the run is made of `[-0-9]` characters and ends at the first other one |
| `RestroomRedoubt.MatchEnd` | d14/src/robot.cpp:24 | a match starting at i ends after i and within the text |
| `RestroomRedoubt.FindMatch` | d14/src/robot.cpp:24-25 | the match found starts no earlier than the search and ends within the text |
| `RestroomRedoubt.FindMatchLeftmost` | d14/src/robot.cpp:24-29 | the regex iterator yields the leftmost match, and none starts before it |
| `RestroomRedoubt.ExtractWritten` | d14/src/robot.cpp:6-16 | the text "x,y" of a pair of integers reads back as that pair |
| `RestroomRedoubt.ParseWrittenRobot` | d14/src/robot.cpp:23-35 | a line "p=x,y v=u,w" has two matches and reads back as its position and velocity |
| `RestroomRedoubt.ParseLine` | d14/src/robot.cpp:23-35 | a line of four numerals in the puzzle's layout reads as the pairs its halves read as |
| `RestroomRedoubt.Robot.constructor` | d14/src/robot.cpp:19-21 | a robot starts with the given position and velocity |
| `RestroomRedoubt.Robot.FromString` | d14/src/robot.cpp:23-35 | a robot is made exactly when both matches read as integers, with the first as position and the second as velocity |
| `RestroomRedoubt.Robot.Move` | d14/src/robot.cpp:38-40 | one second moves the position by the velocity, wrapping at the walls, and keeps the velocity |
| `RestroomRedoubt.Robot.GetQuadrant` | d14/src/robot.cpp:42-44 | the robot's quadrant is its position's, none on a middle line |
| `RestroomRedoubt.Described` | d14/src/main.cpp:11-21 | one robot description per line |
| `RestroomRedoubt.ReadRobots` | d14/src/main.cpp:11-21 | a fresh robot per line, each as its line describes, exactly when every line reads |
| `RestroomRedoubt.MoveAll` | d14/src/main.cpp:30-32 | one second moves every robot by its velocity and changes nothing else |
| `RestroomRedoubt.Simulate` | d14/src/main.cpp:28-33 | after 100 seconds every robot stands where 100 steps of its velocity take it |
| `RestroomRedoubt.QuadrantsOf` | d14/src/main.cpp:36-37 | one quadrant per robot, its position's |
| `RestroomRedoubt.QuadrantsPartition` | d14/src/main.cpp:36-43 | every robot is in exactly one quadrant or on a middle line |
| `RestroomRedoubt.TallyCounts` | d14/src/main.cpp:35-43 | the map never holds the no-quadrant key nor a zero, and its counts plus the robots on the middle lines are all the robots |
| `RestroomRedoubt.TallySnoc` | d14/src/main.cpp:38-42 | a robot on a middle line changes nothing; any other adds one to its quadrant's count |
| `RestroomRedoubt.CountQuadrants` | d14/src/main.cpp:35-43 | the loop builds the count of robots per quadrant |
| `RestroomRedoubt.Pick` | d14/src/main.cpp:45-46 | the next key the map yields is one of its keys |
| `RestroomRedoubt.ProductRemove` | d14/src/main.cpp:45-46 | the product of the map's values can start with any key |
| `RestroomRedoubt.ProductOfFour` | d14/src/main.cpp:45-46 | with all four quadrants present the product is their four counts multiplied |
| `RestroomRedoubt.ProductOfOnes` | d14/src/main.cpp:45-46 | absent quadrants act as a factor of one |
| `RestroomRedoubt.ProductSame` | d14/src/main.cpp:45-46 | the product depends only on the values of the keys multiplied |
| `RestroomRedoubt.SafetyFactorOf` | d14/src/main.cpp:45-46 | the safety factor is positive when every count in the map is |
| `RestroomRedoubt.ProductIsSafetyFactor` | d14/src/main.cpp:45-46 | multiplying the values in whatever order the map yields them gives the product of the four quadrant counts, missing quadrants counting one |
| `RestroomRedoubt.SafetyFactor` | d14/src/main.cpp:45-46 | `std::accumulate` from 1 multiplies all the map's values, which is the safety factor |
| `RestroomRedoubt.FinalQuadrants` | d14/src/main.cpp:28-43 | one final quadrant per robot described |
| `RestroomRedoubt.Solve` | d14/src/main.cpp:24-50 | the result is the safety factor of the robots' quadrants after 100 seconds, exactly when every line reads |
| `WarehouseWoes.StepComponents` | d15/src/main.cpp:26-39 | a step changes one coordinate by one, in `unsigned int` arithmetic |
| `WarehouseWoes.StepBack` | d15/src/main.cpp:26-39 | a step followed by the opposite step returns to the start |
| `WarehouseWoes.StepInjective` | d15/src/main.cpp:26-39 | two cells stepping in the same direction land on different cells |
| `WarehouseWoes.EntityFromChar` | d15/src/main.cpp:167-179 | '#' is a wall, '@' and '.' are empty, 'O' a box, any other character an error; the narrow map has no halves |
| `WarehouseWoes.DirectionFromChar` | d15/src/main.cpp:184-201 | '^', 'v', '>', '<' are up, down, right, left, any other character an error |
| `WarehouseWoes.DirectionRoundTrip` | d15/src/main.cpp:184-201 | every direction's arrow reads back as that direction |
| `WarehouseWoes.StepInside` | d15/src/main.cpp:26-39 | on a walled warehouse a step from a non-wall cell stays inside and does not wrap |
| `WarehouseWoes.OtherHalf` | d15/src/main.cpp:275-286 | the other half of a wide box stands one step to the side |
| `WarehouseWoes.Push` | d15/src/main.cpp:237-244 | a movement takes the entity from its cell to the neighbouring cell in the direction, which one step back returns from |
| `WarehouseWoes.HalfMoves` | d15/src/main.cpp:275-286 | a wide box's two pushes move the half at the destination and its partner, each one step on |
| `WarehouseWoes.Check` | d15/src/main.cpp:232-294 | a wall fails at once, an empty cell succeeds at once with nothing pushed, and a box succeeds only after pushing at least one movement; the stack never shrinks |
| `WarehouseWoes.CheckLargeBox` | d15/src/main.cpp:246-265 | the wide-box check never shrinks the stack |
| `WarehouseWoes.ExtendsTrans` | d15/src/main.cpp:220-242 | stacking pushes on stacked pushes keeps the bottom of the stack |
| `WarehouseWoes.CheckExtends` | d15/src/main.cpp:232-294 | the check only pushes: the stack it is given stays underneath |
| `WarehouseWoes.CheckLargeBoxExtends` | d15/src/main.cpp:246-265 | the wide-box check only pushes |
| `WarehouseWoes.MovesFromLift` | d15/src/main.cpp:237-244 | a push recorded on the stack stays recorded as more are pushed |
| `WarehouseWoes.PushesLift` | d15/src/main.cpp:237-244 | sound pushes stay sound as more are pushed |
| `WarehouseWoes.HalfPushes` | d15/src/main.cpp:275-286 | the two pushes of a wide box are sound and each names its partner |
| `WarehouseWoes.CheckPushes` | d15/src/main.cpp:232-294 | every push the check records moves the box at its cell one step on, and a half's partner is pushed too |
| `WarehouseWoes.CheckLargeBoxPushes` | d15/src/main.cpp:246-265 | the same for the wide-box check |
| `WarehouseWoes.ReachesLift` | d15/src/main.cpp:232-294 | a cleared cell stays cleared as more pushes are recorded |
| `WarehouseWoes.CompleteLift` | d15/src/main.cpp:232-294 | pushes into cleared cells stay so as more are recorded |
| `WarehouseWoes.CheckComplete` | d15/src/main.cpp:232-294 | after a successful check the destination is no obstacle, and every recorded push leads into a cell that is no obstacle |
| `WarehouseWoes.BoxComplete` | d15/src/main.cpp:270-274 | a box's check succeeds only when the cell behind it is cleared |
| `WarehouseWoes.LeftHalfComplete` | d15/src/main.cpp:275-280 | a left half's check succeeds only when the cells in front of both halves are cleared |
| `WarehouseWoes.RightHalfComplete` | d15/src/main.cpp:281-286 | a right half's check succeeds only when the cells in front of both halves are cleared |
| `WarehouseWoes.CheckLargeBoxComplete` | d15/src/main.cpp:246-265 | the wide-box check succeeds only when the cells it looks at are cleared |
| `WarehouseWoes.Write` | d15/src/main.cpp:308-309 | writing a cell changes that cell only |
| `WarehouseWoes.Commit` | d15/src/main.cpp:296-311 | committing movements keeps the warehouse's shape |
| `WarehouseWoes.CommitShifts` | d15/src/main.cpp:296-311 | popping all the movements of a successful check shifts exactly the boxes they name one step on |
| `WarehouseWoes.CommitSkip` | d15/src/main.cpp:303-305 | a movement into a cell already written is skipped without spoiling the shift |
| `WarehouseWoes.CommitSkipStep` | d15/src/main.cpp:303-305 | skipping a movement changes nothing |
| `WarehouseWoes.CommitWrite` | d15/src/main.cpp:307-309 | a movement into a fresh cell extends the shift by its box |
| `WarehouseWoes.CommitWriteStep` | d15/src/main.cpp:307-309 | a fresh movement empties its old cell and fills its new one |
| `WarehouseWoes.SkipKeepsShift` | d15/src/main.cpp:303-305 | a skipped movement repeats one above it, so the set of moved boxes is unchanged |
| `WarehouseWoes.WriteShifts` | d15/src/main.cpp:307-309 | emptying then filling keeps the warehouse equal to the shifted boxes so far |
| `WarehouseWoes.ShiftOneMore` | d15/src/main.cpp:307-309 | shifting one more box, with nothing coming into its cell, extends the shift |
| `WarehouseWoes.CheckedInOrder` | d15/src/main.cpp:232-311 | the check pushes in pop order: a box behind another is popped after it, so no move overwrites a box still to move |
| `WarehouseWoes.NothingComesBack` | d15/src/main.cpp:300-310 | nothing popped later moves a box into a cell emptied earlier |
| `WarehouseWoes.PushedCell` | d15/src/main.cpp:232-294 | each box a successful check names can step along with the rest |
| `WarehouseWoes.CheckedPushable` | d15/src/main.cpp:232-294 | a successful check names a set of boxes that can all step at once, including whatever box stands at the destination |
| `WarehouseWoes.CheckSucceeds` | d15/src/main.cpp:232-294 | conversely, whenever some set of boxes that can all step clears the destination, the check succeeds |
| `WarehouseWoes.CheckLargeBoxSucceeds` | d15/src/main.cpp:246-265 | the same for the wide-box check |
| `WarehouseWoes.RobotApproach` | d15/src/main.cpp:221 | the robot never pushes against itself: the cell in front is inside and not the robot's own box |
| `WarehouseWoes.MoveShifts` | d15/src/main.cpp:219-227 | a step moves the robot exactly when some set of boxes that can all step clears the cell in front, and then shifts such a set one cell along; otherwise nothing changes |
| `WarehouseWoes.PushableInBounds` | d15/src/main.cpp:232-294 | boxes that can step all lie inside the warehouse |
| `WarehouseWoes.ShiftKeepsWall` | d15/src/main.cpp:296-311 | walls never move |
| `WarehouseWoes.ShiftKeepsLeftHalf` | d15/src/main.cpp:296-311 | after a shift every left half still has its right half beside it |
| `WarehouseWoes.ShiftKeepsRightHalf` | d15/src/main.cpp:296-311 | after a shift every right half still has its left half beside it |
| `WarehouseWoes.ShiftKeepsValid` | d15/src/main.cpp:296-311 | a shift keeps the walls on the border and every wide box whole |
| `WarehouseWoes.MoveKeepsValid` | d15/src/main.cpp:219-227 | one step keeps the warehouse walled, wide boxes whole, and the robot on an empty cell |
| `WarehouseWoes.Run` | d15/src/main.cpp:212-230 | the whole walk keeps the warehouse walled and its shape, with the robot on an empty cell |
| `WarehouseWoes.RunAppend` | d15/src/main.cpp:219-227 | walking two lists of directions one after the other is walking their concatenation |
| `WarehouseWoes.CheckEntityMovement` | d15/src/main.cpp:232-294 | the recursive check on the array computes the check on the warehouse value |
| `WarehouseWoes.CheckLargeBoxMovement` | d15/src/main.cpp:246-265 | the wide-box lambda on the array computes the wide-box check |
| `WarehouseWoes.MoveEntities` | d15/src/main.cpp:296-311 | popping the stack on the array commits the movements |
| `WarehouseWoes.MoveRobot` | d15/src/main.cpp:220-226 | one turn on the array computes one step of the walk |
| `WarehouseWoes.CopyWarehouse` | d15/src/main.cpp:217 | the copy holds the same warehouse |
| `WarehouseWoes.ProcessRobotMovements` | d15/src/main.cpp:212-230 | the loop leaves a fresh array holding the warehouse after the whole walk |
| `WarehouseWoes.RowGpsBound` | d15/src/main.cpp:318-323 | a row's GPS sum is at most 5000 per cell |
| `WarehouseWoes.GridGpsBound` | d15/src/main.cpp:313-327 | the warehouse's GPS sum fits an `unsigned int` |
| `WarehouseWoes.CalculateBoxGpsSum` | d15/src/main.cpp:313-327 | the sum of 100·y + x over boxes and left halves |
| `WarehouseWoes.Widen` | d15/src/main.cpp:329-349 | the wide warehouse has the same rows and twice the width |
| `WarehouseWoes.WidenCells` | d15/src/main.cpp:337-347 | each cell becomes two: a box becomes a left and a right half, anything else is doubled |
| `WarehouseWoes.NarrowWiden` | d15/src/main.cpp:329-349 | the narrow warehouse can be read back from the wide one |
| `WarehouseWoes.WidenValid` | d15/src/main.cpp:329-349 | the wide warehouse of a walled narrow one is walled and every half has its partner |
| `WarehouseWoes.WidenRobot` | d15/src/main.cpp:351 | the robot's wide start, x doubled, is an empty cell |
| `WarehouseWoes.CreateWideWarehouse` | d15/src/main.cpp:329-353 | the loops write the wide warehouse into a fresh array and double the robot's x |
| `WarehouseWoes.RowCount` | d15/src/main.cpp:149 | the warehouse rows are the lines before the first empty one |
| `WarehouseWoes.RowCountStops` | d15/src/main.cpp:149 | every warehouse row is non-empty and the line after them is empty |
| `WarehouseWoes.DecodedShape` | d15/src/main.cpp:149-161 | decoding keeps every row and cell, and the narrow warehouse holds no halves |
| `WarehouseWoes.FindRobot` | d15/src/main.cpp:154-157 | the robot found stands on an '@' |
| `WarehouseWoes.FindRobotLast` | d15/src/main.cpp:149-161 | the robot is the last '@' in reading order, and none is found only when there is no '@' |
| `WarehouseWoes.FindRobotNext` | d15/src/main.cpp:150-160 | a new row's last '@' overrides the earlier ones |
| `WarehouseWoes.RobotOnEmpty` | d15/src/main.cpp:171-173 | the robot's cell reads as empty |
| `WarehouseWoes.WrittenSnoc` | d15/src/main.cpp:149-161 | writing one more row extends the rows written |
| `WarehouseWoes.ReadRow` | d15/src/main.cpp:150-160 | one row is written cell by cell, or the error of its first unknown character, and the last '@' of the row moves the robot |
| `WarehouseWoes.ReadAll` | d15/src/main.cpp:149-161 | after all rows the array holds the decoded warehouse |
| `WarehouseWoes.ReadWarehouseFromFile` | d15/src/main.cpp:143-165 | the warehouse read is the decoded rows, with the robot at the last '@', or the first decoding error |
| `WarehouseWoes.DecodeDirectionsErr` | d15/src/main.cpp:203-207 | the first unknown arrow ends the reading |
| `WarehouseWoes.DirectionLine` | d15/src/main.cpp:184-201 | one arrow per direction |
| `WarehouseWoes.DirectionsRoundTrip` | d15/src/main.cpp:181-210 | a line of arrows reads back as its directions |
| `WarehouseWoes.ReadDirectionsFromFile` | d15/src/main.cpp:181-210 | the loop reads every arrow of every line after the blank one, or the error of the first unknown character |
| `WarehouseWoes.ProcessWarehouse` | d15/src/main.cpp:125-132 | the GPS sum of the warehouse after the walk |
| `WarehouseWoes.Answers` | d15/src/main.cpp:106-122 | answers exist exactly when the warehouse and the directions decode |
| `WarehouseWoes.ProcessBoth` | d15/src/main.cpp:111-118 | the GPS sums after the walk in the narrow and in the wide warehouse |
| `WarehouseWoes.Solve` | d15/src/main.cpp:106-122 | the two GPS sums of the input, or its first unknown character |
| `Compass.Index` | src/d16/coordinates.h:7-12 | each direction's enumerator value is below 4 |
| `Compass.FromIndex` | src/d16/coordinates.h:7-12 | the direction of an enumerator value has that value |
| `Compass.FromIndexOfIndex` | src/d16/coordinates.h:7-12 | enumerator values name directions one to one |
| `Compass.LeftRightInverse` | src/d16/coordinates.cpp:4-28 | a left turn and a right turn undo each other |
| `Compass.LeftCycle` | src/d16/coordinates.cpp:4-15 | four left turns face the same way again, and left, right and ahead all differ |
| `Compass.RelativeDirections` | src/d16/coordinates.cpp:31-38 | ahead, left and right: three different directions, ahead first |
| `Compass.RelativeNotBack` | src/d16/coordinates.cpp:31-38 | the relative directions are exactly the directions other than straight back |
| `Compass.Plus` | src/d16/coordinates.cpp:40-58 | a step always changes the coordinates |
| `Compass.Minus` | src/d16/coordinates.cpp:60-78 | a step back always changes the coordinates |
| `Compass.MinusPlus` | src/d16/coordinates.cpp:40-78 | `-` undoes `+` and `+` undoes `-`, even across the `size_t` wrap-around |
| `Compass.PlusExact` | src/d16/coordinates.cpp:40-58 | away from the wrap-around a step changes one coordinate by one |
| `ReindeerHeading.Opposite` | d16/src/Reindeer.cpp:30-41 | straight back is two left turns, and two right turns |
| `ReindeerHeading.OppositeInvolution` | d16/src/Reindeer.cpp:30-41 | turning round twice faces the same way, and turning round always changes the heading |
| `ReindeerHeading.Reindeer.constructor` | d16/src/Reindeer.h:9-13 | a new reindeer faces east at the origin |
| `ReindeerHeading.Reindeer.UpdateCoordinates` | d16/src/Reindeer.h:15-17 | only the position changes |
| `ReindeerHeading.Reindeer.UpdateDirection` | d16/src/Reindeer.h:19-21 | only the heading changes |
| `ReindeerHeading.Reindeer.RelativeDirections` | d16/src/Reindeer.cpp:44-52 | ahead, left, right, then back: four different headings |
| `ReindeerHeading.Reindeer.RelativeCoversAll` | d16/src/Reindeer.cpp:44-52 | the four relative directions cover every heading |
| `ReindeerMaze.CharToEntity` | d16/src/main.cpp:26-38 | 'S' and '.' are open, '#' a wall, 'E' the end; any other character is rejected |
| `ReindeerMaze.CharToTile` | d16/src/main.cpp:49-56 | a read tile has no score; exactly the 'S' tiles are visited, and they are flagged from all four directions |
| `ReindeerMaze.DecodedShape` | d16/src/main.cpp:47-63 | the decoded maze is 15 by 15, each tile decoded from the character at its place |
| `ReindeerMaze.LastAt` | d16/src/main.cpp:53-59 | a position found for a character holds that character |
| `ReindeerMaze.LastAtLast` | d16/src/main.cpp:53-59 | the position found is the last occurrence in reading order, and none is found only when the character is absent |
| `ReindeerMaze.LocatedNext` | d16/src/main.cpp:47-63 | reading one more line moves the tracked start or end only to that line's last occurrence |
| `ReindeerMaze.StoreTile` | d16/src/main.cpp:51 | writing one tile extends the row written so far by that tile and leaves the rows above it as they were |
| `ReindeerMaze.ReadRow` | d16/src/main.cpp:48-61 | one line fills its row of the array and moves the start and end, or fails with the first bad character's error |
| `ReindeerMaze.ReadMaze` | d16/src/main.cpp:40-66 | a fresh array holding the decoded maze, with the start and the end at their last occurrences (the origin when absent), or the decoding error |
| `ReindeerMaze.Relax` | d16/src/main.cpp:73-88 | a tile is queued exactly when it is not a wall and is unvisited or scored no lower than the offer; it then takes the offer's score and the arrival flag, keeping its other flags only when the offer ties its score |
| `ReindeerMaze.RelaxRequeues` | d16/src/main.cpp:78-86 | an equal offer queues a tile again without changing it |
| `ReindeerMaze.RelaxTile` | d16/src/main.cpp:73-88 | the in-place update computes `RelaxAt`: the tile reached relaxed as `Relax` says, and whether it was queued |
| `ReindeerMaze.StepInMaze` | d16/src/main.cpp:75-77 | in a walled maze each step from an open tile stays inside the array |
| `ReindeerMaze.RelaxLayout` | d16/src/main.cpp:73-88 | a relaxation keeps every entity and changes no tile but the one reached |
| `ReindeerMaze.WalledLayout` | d16/src/main.cpp:78 | a maze with the same entities as a walled one is walled: relaxing never moves a wall |
| `ReindeerMaze.RelaxImproves` | d16/src/main.cpp:73-88 | an offer of positive points changes no other tile, forgets no visit, raises no score and never brings a positive score to 0 |
| `ReindeerMaze.SettledImproves` | d16/src/main.cpp:78-86 | a tile's flags keep pointing to lower-scored visited tiles while other tiles only improve |
| `ReindeerMaze.RelaxedSettled` | d16/src/main.cpp:78-86 | an offer from a visited open tile above its score (the start, or a tile reached with points) never lands on the start or on an 'S' tile as read, and afterwards every flag of the tile reached points back to a visited open tile with a lower score |
| `ReindeerMaze.RelaxKeepsSearching` | d16/src/main.cpp:73-88 | such an offer keeps the search invariant: walls all round, the start and every other 'S' as read, every flag leading back to a lower score, all scores within the bound |
| `ReindeerMaze.AddTileLayout` | d16/src/main.cpp:73-88 | an offer keeps the layout, and the queue still holds open tiles only |
| `ReindeerMaze.AddPoints` | d16/src/main.cpp:106-108 | the points of an offer are the plain sum whenever it fits an `unsigned int` |
| `ReindeerMaze.ExpandTileLayout` | d16/src/main.cpp:104-108 | the three offers of a tile that is not an end keep the walls and the layout, and queue open tiles only |
| `ReindeerMaze.RoundLayout` | d16/src/main.cpp:92-109 | one round of the loop keeps the walls and a queue of open tiles |
| `ReindeerMaze.AddTileKeeps` | d16/src/main.cpp:73-88 | an offer from a queued open tile above its score keeps the search invariant within the raised bound, only improves the maze, and queues only visited open tiles |
| `ReindeerMaze.ExpandTileKeeps` | d16/src/main.cpp:104-108 | expanding a queued open tile keeps the invariant with the bound raised by 1001, only improves the maze, and queues only visited open tiles |
| `ReindeerMaze.LeastOfSnoc` | d16/src/main.cpp:97-100 | the update `least == 0 or least > score` keeps `least` the least of the positive end scores seen so far |
| `ReindeerMaze.RoundKeeps` | d16/src/main.cpp:92-109 | a round keeps the invariant within the next round's bound, only improves the maze, keeps `least` the least end score dequeued, and some end tile has been reached with it |
| `ReindeerMaze.LeastPointsSearches` | d16/src/main.cpp:68-112 | for up to four million rounds the search from the start keeps the invariant and only improves the maze; its result is 0 exactly when no end tile was dequeued, and otherwise the least score of the end tiles dequeued, an end tile being visited with at most that score |
| `ReindeerMaze.Offer` | d16/src/main.cpp:73-88 | the in-place offer computes `AddTile`: the relaxed maze, and the queue with the tile appended when it was queued |
| `ReindeerMaze.Expand` | d16/src/main.cpp:104-108 | the in-place three offers compute `ExpandTile` |
| `ReindeerMaze.StartSearch` | d16/src/main.cpp:69-90 | queueing the start facing east and offering west at 2001 points leaves the array holding a walled maze with open tiles queued, from which the rest of the loop is exactly `LeastPoints` |
| `ReindeerMaze.TakeRound` | d16/src/main.cpp:92-109 | one pass of the loop on the array computes `Round` and leaves a search one round shorter that ends where the whole search ends |
| `ReindeerMaze.CalculateLeastPoints` | d16/src/main.cpp:68-112 | the in-place loop, run for at most `fuel` rounds, leaves the array, the least score and whether the queue ran empty exactly as the search `LeastPoints` gives them |
| `ReindeerMaze.FlagWalkable` | d16/src/main.cpp:131-139 | every flag of a tile the count may visit leads back one step to a tile with a lower score that the count may visit |
| `ReindeerMaze.PushPredecessors` | d16/src/main.cpp:131-139 | one tile is queued one step back against each flag, in direction order |
| `ReindeerMaze.CalculateTileNumOnPath` | d16/src/main.cpp:114-143 | the count is the size of the walk back from the end through every flag, repeats included, modulo 2^32 |
| `ReindeerMaze.FirstFlag` | d16/src/main.cpp:132-135 | the first direction flagged, no earlier one flagged |
| `ReindeerMaze.BackPath` | d16/src/main.cpp:131-139 | from any visited tile the count may visit, a walk back through flags reaches the start, each step to a lower score |
| `ReindeerMaze.BranchAtLeast` | d16/src/main.cpp:132-139 | the branches from a flag on count at least the walk back through that flag |
| `ReindeerMaze.PathTilesCoverBackPath` | d16/src/main.cpp:114-143 | the count covers at least one whole path back to the start |
| `ReindeerMaze.PathTilesStart` | d16/src/main.cpp:127-129 | the start is counted once and not walked past |
| `ReindeerMaze.InitialSearching` | d16/src/main.cpp:40-66 | a walled maze as read, with at least one 'S', satisfies the search invariant from its last 'S' with every score 0; the end position is in the maze and not open (an 'E', or the corner wall when there is none) |
| `ReindeerMaze.EndWalkable` | d16/src/main.cpp:150-153 | once the search has run, the count may start from the end position |
| `ReindeerMaze.Solve` | d16/src/main.cpp:146-156 | the program fails exactly on a bad character; otherwise the least score is the one the search `LeastPoints` gives from the last 'S' of the maze as read, and the tile count is the size of the walk back from the end through every flag, modulo 2^32, on the maze that search leaves |
| `ChronospatialComputer.InstructionOf` | src/d17/main.cpp:104-105 | every word names the instruction whose enumerator has the word's value |
| `ChronospatialComputer.Write` | src/d17/main.cpp:22-28 | writing a register sets that register alone and leaves the program and the instruction pointer |
| `ChronospatialComputer.Current` | src/d17/main.cpp:104-105 | the instruction under the pointer is the one whose opcode is the word there |
| `ChronospatialComputer.Combo` | src/d17/main.cpp:69-87 | operands 0 to 3 are literal, 4 to 6 read A, B and C, and 7 alone is refused with the reserved-operand error |
| `ChronospatialComputer.Pow2Of64` | src/d17/main.cpp:92-94 | 2^64 is one more than the largest `unsigned long`, so a power from an operand of 64 or more does not fit the cast |
| `ChronospatialComputer.BitXorCancel` | src/d17/main.cpp:112 | xor with the same number twice gives the first back |
| `ChronospatialComputer.BitXorBelow` | src/d17/main.cpp:112 | xor of two 64-bit numbers fits 64 bits |
| `ChronospatialComputer.Xor` | src/d17/main.cpp:112 | the result xored with the second operand gives back the first |
| `ChronospatialComputer.Division` | src/d17/main.cpp:89-95 | the destination receives A divided by 2 to the combo operand, nothing else changes; operand 7 throws and a power of 2^64 or more is undefined |
| `ChronospatialComputer.Quotient` | src/d17/main.cpp:94 | the shifted quotient is A divided by 2 to the power |
| `ChronospatialComputer.Advance` | src/d17/main.cpp:152 | an instruction that did not jump moves the pointer on by two and keeps its output |
| `ChronospatialComputer.Step` | src/d17/main.cpp:103-153 | one pass throws exactly when the operand is missing or a combo operand is 7; Jnz with A nonzero jumps to its operand, anything else moves on by two; only Out prints, one value below 8; the program never changes |
| `ChronospatialComputer.RegisterBInstructions` | src/d17/main.cpp:110-130 | Bxl, Bst and Bxc write only B: literal xor B, combo mod 8, B xor C |
| `ChronospatialComputer.DivisionInstructions` | src/d17/main.cpp:136-147 | Adv, Bdv and Cdv write A, B and C with A divided by 2 to the combo operand |
| `ChronospatialComputer.Run` | src/d17/main.cpp:97-156 | a halted run has its pointer past the program; outputs only grow and stay below 8 |
| `ChronospatialComputer.RunMoreFuel` | src/d17/main.cpp:103-153 | more fuel does not change an outcome already reached |
| `ChronospatialComputer.OperandPastEnd` | src/d17/main.cpp:107 | an instruction in the last word has no operand, and `at` throws |
| `ChronospatialComputer.ExecuteInstruction` | src/d17/main.cpp:104-152 | the `switch` computes exactly one step |
| `ChronospatialComputer.ExecuteInstructions` | src/d17/main.cpp:97-156 | the loop computes exactly the run from the given device with no outputs |
| `ChronospatialComputer.IsProgramCopy` | src/d17/main.cpp:162-173 | true exactly when the outputs are as many as the words and each equals its word |
| `ChronospatialComputer.FindMinCopyingCondition` | src/d17/main.cpp:158-183 | a value found makes the program print itself and every smaller value was rejected; the search stops at the first run that does not halt |
| `ThreeBitWord.Uint3.Get` | d17/src/uint3_t.cpp:13-15 | a word within bounds yields a value of at most 7 |
| `ThreeBitWord.Uint3.ToInt` | d17/src/uint3_t.cpp:17-19 | widening keeps the stored value |
| `ThreeBitWord.FromULongAsWritten` | d17/src/uint3_t.cpp:7-11 | the number is narrowed to 8 bits before the check: accepted exactly when its value modulo 256 is at most 7 |
| `ThreeBitWord.FromULong` | d17/src/uint3_t.cpp:7-11 | a number above 7 is refused with the constructor's message; any other is stored unchanged |
| `ThreeBitWord.FromULongGet` | src/d17/uint3_t.h:12-14 | constructing from a word's value gives the same word |
| `ThreeBitWord.FromULongEquals` | d17/src/uint3_t.cpp:7-23 | a constructed word equals exactly the number it was built from |
| `ThreeBitWord.AsWrittenAgrees` | d17/src/uint3_t.cpp:7-11 | below 256 the constructor as written agrees with the intended one |
| `ThreeBitWord.AsWrittenAccepts256` | d17/src/uint3_t.cpp:7-11 | 256 is accepted as written, as a word that does not equal 256 |
| `MemoryCoordinates.AvailableDirections` | src/d18/coordinates.cpp:8-25 | left exactly off the left edge, up off the top row, down off the bottom row, right off the right edge of the 71 by 71 space |
| `MemoryCoordinates.Equals` | src/d18/coordinates.cpp:27-29 | componentwise comparison is value equality |
| `MemoryCoordinates.Plus` | src/d18/coordinates.cpp:31-52 | a step always reaches another cell, changing the column for left and right and the row for up and down |
| `MemoryCoordinates.PlusAvailable` | src/d18/coordinates.cpp:31-52 | an available direction leads to a neighbouring cell of the space, one coordinate changed by one, without wrapping |
| `MemoryCoordinates.PlusInjective` | src/d18/coordinates.cpp:31-52 | different directions lead to different cells, even where `size_t` wraps |
| `MemoryCoordinates.StepTo` | src/d18/coordinates.cpp:54-63 | a direction contributes one cell exactly when it is available, and from a cell of the space that cell is a neighbour in the space |
| `MemoryCoordinates.AdjacentCoordinates` | src/d18/coordinates.cpp:54-63 | one cell per available direction, no cell twice; from a cell of the space, exactly its 2 to 4 neighbours in the space |
| `MemoryCoordinates.NeighboursPerDirection` | src/d18/coordinates.cpp:54-63 | the cells collected are the steps in the available directions |
| `MemoryCoordinates.NeighboursDistinct` | src/d18/coordinates.cpp:54-63 | the cells collected are distinct |
| `MemoryCoordinates.NeighboursInGrid` | src/d18/coordinates.cpp:54-63 | from a cell of the space the cells collected are exactly its neighbours in the space |
| `MemoryCoordinates.AdjacentSymmetric` | src/d18/coordinates.cpp:8-63 | inside the space, neighbourhood is symmetric |
| `MemorySearch.FewerUnlabelled` | src/d18/main.cpp:94-123 | each newly reached cell leaves fewer cells of the space unreached, so the search ends |
| `MemorySearch.Initial` | src/d18/main.cpp:90-92 | with only the start reached, at no steps, the search invariant holds |
| `MemorySearch.Frontier` | src/d18/main.cpp:119-123 | any walk from the start meets a queued cell or ends at an expanded one, each cell before it labelled with at most its step count |
| `MemorySearch.BackWalk` | src/d18/main.cpp:103-105 | following the recorded previous spaces from a reached cell gives a walk from the start whose i-th cell is labelled i |
| `MemorySearch.BackWalkParent` | src/d18/main.cpp:103-105 | each cell of the walk back but the start follows its recorded previous space |
| `MemorySearch.MarkLabelled` | src/d18/main.cpp:99-105 | marking an unreached, uncorrupted neighbour one step further keeps every label that of a walk |
| `MemorySearch.MarkKeepsLevel` | src/d18/main.cpp:99-107 | marking and queueing a new neighbour other than the exit keeps the queue ordered by steps, within one of each other |
| `MemorySearch.MarkClosed` | src/d18/main.cpp:103-107 | a newly queued cell leaves every expanded cell expanded |
| `MemorySearch.MarkQueued` | src/d18/main.cpp:107 | a cell one step further pushed behind the queue keeps it in step order |
| `MemorySearch.NoShorterWalk` | src/d18/main.cpp:94-123 | while the exit is unreached, any walk to it is longer than the steps of the cell being expanded |
| `MemorySearch.ExitShortest` | src/d18/main.cpp:109-113 | the exit first reached from the cell being expanded is reached along a shortest walk |
| `MemorySearch.CloseFirst` | src/d18/main.cpp:119-122 | once all its neighbours are marked, the front cell is expanded and the search moves to the next queued cell |
| `MemorySearch.Exhausted` | src/d18/main.cpp:119-128 | a search that empties its queue without the exit has reached every reachable cell, so no walk reaches the exit |
| `MemorySearch.LabelledExit` | src/d18/main.cpp:125-128 | a reached exit has a nonzero path length and a walk of that length |
| `RamRun.CorruptedSet` | src/d18/main.cpp:12-16 | the set of cells the memory space marks corrupted, all within the space |
| `RamRun.SimulateFallingByte` | src/d18/main.cpp:47-52 | the front byte is taken off the queue and corrupts its own cell and no other |
| `RamRun.SimulateFallingBytes` | src/d18/main.cpp:169-173 | the first `count` bytes are taken off the queue and the corrupted cells gain exactly those bytes |
| `RamRun.MarkReached` | src/d18/main.cpp:103-105 | the neighbour's record becomes reached, one step further, with the cell added to its previous spaces; no other record changes |
| `RamRun.QueueAdjacentSpace` | src/d18/main.cpp:96-113 | an unreached, uncorrupted neighbour is marked and queued, and reaching the exit empties the queue with the exit on a shortest walk |
| `RamRun.ScanAdjacent` | src/d18/main.cpp:95-114 | after the loop every uncorrupted neighbour is reached at most one step further, or the exit was found on a shortest walk |
| `RamRun.ScanStep` | src/d18/main.cpp:95-114 | scanning one more neighbour keeps every scanned uncorrupted neighbour reached |
| `RamRun.ScannedNeighbours` | src/d18/main.cpp:95 | scanning every adjacent coordinate covers every neighbour in the space |
| `RamRun.QueueAdjacentSpaces` | src/d18/main.cpp:94-115 | the lambda keeps the search invariant, and a reached exit lies on a shortest walk |
| `RamRun.InitialRecords` | src/d18/main.cpp:89-90 | a fresh set of records with nothing reached, no steps and no previous spaces |
| `RamRun.SearchStep` | src/d18/main.cpp:119-123 | one round keeps the invariant and either reaches a new cell or shortens the queue |
| `RamRun.SearchQueue` | src/d18/main.cpp:119-123 | when the queue runs empty the exit is reached along a shortest walk, or the search has reached all it can |
| `RamRun.BestPathFrom` | src/d18/main.cpp:125-131 | no path is an error exactly when the exit is unreachable; otherwise the length is the shortest walk's and the path is one such walk |
| `RamRun.CalculateBestPath` | src/d18/main.cpp:88-132 | fails with "No path found to exit" exactly when no walk avoids the corrupted cells; otherwise the shortest length and a shortest path |
| `RamRun.CollateBestPathDetails` | src/d18/main.cpp:54-86 | the path records each cell of the walk back from the exit at its depth, and each depth counts one cell |
| `RamRun.UnwindStep` | src/d18/main.cpp:66-70 | recording the cell at the next depth extends the unwinding by one new cell |
| `RamRun.UnwoundAll` | src/d18/main.cpp:72-74 | unwound down to the start, every cell of the walk is recorded at its depth and every depth counted once |
| `RamRun.QueuePreviousSpaces` | src/d18/main.cpp:76-82 | the one previous space is queued one depth lower, unless it is already at the front of the queue |
| `RamRun.SkipsAsWritten` | src/d18/main.cpp:77 | the guard as written: undefined on an empty queue, otherwise whether the front is the previous space |
| `RamRun.AsWrittenFrontOfEmpty` | src/d18/main.cpp:64-77 | once the exit is reached, the unwinding as written asks for the front of an empty queue |
| `RamRun.Decrement` | src/d18/main.cpp:158 | one less than a positive count, staying an `unsigned int` |
| `RamRun.Blocking` | src/d18/main.cpp:134-162 | a byte reported is one that falls and lies on the path; otherwise "No falling bytes block the best path" |
| `RamRun.FindBlockingCoordinate` | src/d18/main.cpp:134-162 | the loop reports exactly what `Blocking` describes, and its erase never fails |
| `RamRun.BlockingFirstOnPath` | src/d18/main.cpp:141-161 | with one path cell per depth, the byte reported is the first to fall on the path, and there is one exactly when some byte falls on it |
| `RamRun.BestPathIndexed` | src/d18/main.cpp:26-29 | every depth of the best path has its count, and each count is one |
| `RamRunFirst.CorruptedSpaces` | d18/src/main.cpp:10-21 | the cells whose status is corrupted, all within the space |
| `RamRunFirst.SimulateFallingByte` | d18/src/main.cpp:39-44 | the front byte is taken off the queue and sets its own cell's status to corrupted, nothing else changing |
| `RamRunFirst.MinPathAfterFalling` | d18/src/main.cpp:87-103 | after the first 1024 bytes fall, "No path found to exit" exactly when no walk avoids them, otherwise the length of a shortest walk to the exit |
| `RamRunFirst.MarkPathed` | d18/src/main.cpp:58-59 | the neighbour becomes reached one step further, its status untouched, no other cell changed |
| `RamRunFirst.QueueAdjacentSpace` | d18/src/main.cpp:51-67 | an unreached, uncorrupted neighbour is marked and queued, and reaching the exit empties the queue with the exit on a shortest walk |
| `RamRunFirst.ScanAdjacent` | d18/src/main.cpp:50-68 | after the loop every uncorrupted neighbour is reached at most one step further, or the exit was found on a shortest walk |
| `RamRunFirst.QueueAdjacentSpaces` | d18/src/main.cpp:49-69 | the lambda keeps the search invariant, and a reached exit lies on a shortest walk |
| `RamRunFirst.CalculateMinPath` | d18/src/main.cpp:46-84 | leaves the corrupted cells as they were; fails exactly when the exit is unreachable, else returns the shortest walk's length |
| `RamRunFirst.UnsearchedSpaces` | d18/src/main.cpp:88-89 | before the search only the start is reached, at no steps |
| `RamRunFirst.SpacesCorrupted` | d18/src/main.cpp:15-19 | the corrupted cells are read back from the statuses |
| `RamRunFirst.SearchStep` | d18/src/main.cpp:73-77 | one round keeps the invariant and either reaches a new cell or shortens the queue |
| `RamRunFirst.SearchQueue` | d18/src/main.cpp:73-77 | when the queue runs empty the exit is reached along a shortest walk, or the search has reached all it can |
| `RamRunFirst.MinPathFrom` | d18/src/main.cpp:79-83 | a path length of 0 fails exactly when the exit is unreachable; otherwise it is the shortest walk's length |
| `LinenLayout.DropSpace` | d19/main.cpp:29-31 | the token unchanged, or without its one leading space |
| `LinenLayout.PatternsAsWritten` | d19/main.cpp:25-34 | the loop as written: a prefix of the tokens, each kept non-empty token with its leading space dropped |
| `LinenLayout.Patterns` | d19/main.cpp:25-34 | the corrected loop: a prefix of the tokens, leading spaces dropped, and no pattern empty |
| `LinenLayout.PatternsStop` | d19/main.cpp:26-28 | the corrected loop stops exactly at the first token that would give an empty pattern |
| `LinenLayout.PatternsAgree` | d19/main.cpp:25-34 | where no token is empty once its space is dropped, the two loops agree and keep every token |
| `LinenLayout.SampleTokens` | d19/main.cpp:22-25 | the pattern line "r, ,b" splits at commas into "r", " " and "b" |
| `LinenLayout.AsWrittenKeepsEmptyPattern` | d19/main.cpp:25-34 | for "r, ,b" the loop as written keeps the empty pattern, where the corrected loop stops after "r" |
| `LinenLayout.EmptyPatternRecursesOnItself` | d19/main.cpp:60-74 | an empty pattern is found at the start of any design and leaves the whole design to its right, so the check recurses on the same design |
| `LinenLayout.Find` | d19/main.cpp:60-63 | an occurrence found really is the pattern at that place |
| `LinenLayout.FindFirst` | d19/main.cpp:60-63 | every occurrence is found, at or before its place |
| `LinenLayout.ConcatAppend` | d19/main.cpp:49-101 | joining two runs of stripes joins their stripes |
| `LinenLayout.ArrangeAround` | d19/main.cpp:72-84 | arrangeable parts on either side of a pattern make an arrangeable design |
| `LinenLayout.SplitAround` | d19/main.cpp:65-82 | a design is its left part, the pattern and its right part |
| `LinenLayout.BestPatternArrangeable` | d19/main.cpp:55-85 | a pattern that passes `is_best_pattern` makes the design arrangeable |
| `LinenLayout.PossibleArrangeable` | d19/main.cpp:95-98 | a design reported possible can be made from the patterns |
| `LinenLayout.ArrangeablePossible` | d19/main.cpp:55-98 | a non-empty design that the patterns make is reported possible |
| `LinenLayout.PossibleIff` | d19/main.cpp:49-101 | a design is reported possible exactly when it is non-empty and the patterns, end to end, make it |
| `LinenLayout.PossibleIgnoresOrder` | d19/main.cpp:35 | the answer does not depend on how the sort orders patterns of equal length |
| `LinenLayout.IsPossibleDesign` | d19/main.cpp:49-101 | returns whether the design is possible; the caches only grow, stay correct and record the design on the side of its answer |
| `LinenLayout.IsBestPattern` | d19/main.cpp:55-85 | the lambda returns exactly the `is_best_pattern` test and keeps the caches correct |
| `LinenLayout.SortLongestFirst` | d19/main.cpp:35 | the patterns end longest first and are a permutation of those given |
| `LinenLayout.Designs` | d19/main.cpp:38-44 | the designs are non-empty and no more than the lines |
| `LinenLayout.DesignsAreLines` | d19/main.cpp:38-44 | a string is a design exactly when it is a non-empty line |
| `LinenLayout.TowelDetails` | d19/main.cpp:13-47 | the patterns of the first line, non-empty and longest first, and the non-empty later lines |
| `LinenLayout.ReadPatterns` | d19/main.cpp:25-34 | the loop reads exactly the corrected patterns |
| `LinenLayout.PatternsAt` | d19/main.cpp:25-34 | each token either ends the loop or adds the next pattern |
| `LinenLayout.SortedPatterns` | d19/main.cpp:35 | the vector ends longest first, non-empty, with the same patterns |
| `LinenLayout.ReadDesigns` | d19/main.cpp:39-44 | the loop reads exactly the designs |
| `LinenLayout.CountPossible` | d19/main.cpp:108-115 | never more than the number of designs |
| `LinenLayout.CountPossibleSnoc` | d19/main.cpp:111-115 | one design more adds one exactly when the patterns make it |
| `LinenLayout.CountIgnoresOrder` | d19/main.cpp:35 | the count does not depend on the order of the patterns |
| `LinenLayout.CountWithCaches` | d19/main.cpp:108-115 | sharing the caches across designs gives the count of possible designs |
| `LinenLayout.CountPossibleDesigns` | d19/main.cpp:104-119 | the program counts the possible designs among the non-empty lines after the first |

## Left out

- **File reading and printing.** The model takes the input as a sequence of lines, or a sequence of bytes for day 18, handed to the parsing loops. `main`'s output is the returned values.
- **Day 17 input.** `read_device_data_from_file` in src/d17/main.cpp is not modelled: the model takes the device data as given.
- **Day 18 input.** `read_falling_bytes_from_file` is not modelled: the model takes the falling bytes as a sequence of coordinates.
- **Day 13 (d13/src/main.cpp).** Its core solves Cramer's rule in `double` and tests the result with `std::floor`. Floating point is not modelled.
- **d07/src/main.cpp.** Its `is_valid_equation` is a stub that always returns true, and its parser duplicates src/d07/main.cpp. Only src/d07/main.cpp is modelled.
- **d16/src/Coordinates.cpp and d16/src/Coordinates.h.** The switch there uses bare labels, so `operator+` never moves, and the header's enum conflicts with the code that uses it. The maze is modelled with the compass of src/d16/coordinates.cpp.
- **Day 6 guard stubs.** `Guard::get_front_coordinate` and `Guard::forward` have empty switches, and the first returns no value. Only the constructor, equality and `turn` are modelled.
- **Hash functors.** `CoordinatesHash`, `DirectionHash`, `StoneBlinkHash` and `CoordinatesHasher` only key `unordered_*` containers. The model uses `set` and `map` instead.
- **Regular expressions.**
  - Day 3: the `std::regex` scan is taken as its sequence of matches.
  - Day 14: the pattern `[\-0-9]+,[\-0-9]+` is modelled as a leftmost, greedy search for a character-class run, a comma and another run.
- **Unordered iteration.** An `unordered_set` or `unordered_map` iterates in an unspecified order, so the model fixes one order. `MemoryCoordinates.AdjacentCoordinates` lists neighbours in insertion order (left, up, down, right). Results that depend on that order are proved independent of it where they are stated, such as the day 14 product.
- **Unstable sorts.** `std::sort` and `std::ranges::sort` are modelled by an insertion sort:
  - on values, by `LocationLists.SortAscending`;
  - in place, by `LinenLayout.SortLongestFirst`.
  Only the order and the permutation are stated. For day 19, `LinenLayout.PossibleIgnoresOrder` shows that ties do not change the answer.
- `Text.ParseInt`: does not model the `out_of_range` exception `stoi` throws for a value outside `int`; the value read is unbounded. `Text.ParseULong` models both the sign and the range check of `stoul`.
- `CorruptedMemory.ExtractMulRoundTrip`: covers the numerals `operator<<` writes; a match with leading zeros, such as `mul(007,3)`, is read by the same model of `stoi` but is not an instance of this lemma.
- `LocationLists.CalcListDistance`: the sum of distances is unbounded, without `unsigned int` wrap-around, because realistic lists stay far below the limit.
- `LocationLists.SimilarityScore`: the score is unbounded, without `unsigned int` wrap-around, for the same reason.
- `CorruptedMemory.ProcessCorruptedMul`: the sum of products is unbounded, without `int` overflow, because realistic memory stays far below the limit.
- `PrintQueue.SumMiddlePages`: the sum is unbounded, without `int` overflow, because page numbers are two-digit.
- `PrintQueue.MiddlePages`: the sum is unbounded, without `int` overflow, for the same reason.
- `RestroomRedoubt.SafetyFactor`: the product of the four quadrant counts is unbounded, without `int` overflow, because there are only a few hundred robots.
- `LinenLayout.CountPossibleDesigns`: the count is unbounded, without `uint` wrap-around, because it never exceeds the number of designs.
- `LinenLayout.CountWithCaches`: the count is unbounded, without `uint` wrap-around, for the same reason.
- `RamRun.CalculateBestPath`: path lengths are naturals, not `unsigned int`, because a path in a 71 by 71 space has fewer than 2^32 steps.
- `RamRunFirst.CalculateMinPath`: path lengths are naturals, not `unsigned int`, for the same reason.
- `ChronospatialComputer.ExecuteInstructions`: takes a fuel bound and reports when it runs out, because a `Jnz` cycle can loop forever; what happens past the fuel is not modelled.
- `ChronospatialComputer.FindMinCopyingCondition`: takes a fuel bound and a bound on the values tried, because its search is unbounded; values past the bound are not modelled.
- `ReindeerMaze.CalculateLeastPoints`: takes a fuel bound, because equal scores are queued again and termination is not proved; what happens past the fuel is not modelled.
- `ReindeerMaze.LeastPointsSearches`: covers the first four million rounds, within which every score stays below 2^32 and the `unsigned int` sums never wrap; later rounds are not covered.
- `ChronospatialComputer.Division`: models `std::pow(2, c)` as an exact power of two. A power of 2^64 or more, whose cast to `unsigned long` is undefined, becomes an undefined-behaviour outcome.
- `ReindeerHeading.Reindeer.constructor`: uses `East` for the default heading `Right`. `Right` is the fourth enumerator of the other direction type, and `East` is the compass enumerator with the same value.
- **Undefined behaviour as preconditions.** Behaviour the source leaves undefined is a precondition of these members:
  - `WordSearch.NumAdjacentWords`: every row must be at least as wide as row 0.
  - `PrintQueue.ProcessInstruction`: the update must be non-empty.
  - `PrintQueue.MiddlePages`: no blank line may follow the separating one, since an empty update would make `update[size/2]` read past its end.
  - `GuardRoom.ReadLayout`: the layout must fit 130 by 130, and there must be an arrow when every character is known.
  - `DiskCompaction.ReadBlocks`: no character of the disk map may lie below '0'.
  - `HoofIt.ReadMap`: the map text must fit the array.
  - `GardenGroups.ReadPlots` and `GardenGroups.Solve`: the garden text must fit the array.
  - `RestroomRedoubt.Robot.FromString`: the line must hold the two matches it dereferences.
  - `WarehouseWoes.ReadWarehouseFromFile` and `WarehouseWoes.Solve`: the warehouse must have the array's shape, walls all round, and a robot.
  - `ReindeerMaze.Solve`: the maze must be 15 by 15 and walled, with at least one 'S'. Several 'S' tiles are accepted: the search starts from the last one, and the others stay as read.
  - `RamRun.SimulateFallingByte`: the byte queue must be non-empty and each byte inside the space.

## Findings

| source | as written | input that shows it | evidently intended | confidence | as-written member | corrected member |
|---|---|---|---|---|---|---|
| d09/src/main.cpp:53 | after a move, `std::advance(it, it->length)` reads the length of the free block just swapped into place (the free run's length), not the file's | disk map "13101": file 2 moves into the run of three, the iterator skips past file 1, and the checksum is 6 | advance by the moved file's length, so file 1 is tried and moves; checksum 4 | high; not executed | `DiskCompaction.AsWrittenSkipsFile` | `DiskCompaction.CorrectedMovesFile` |
| d17/src/uint3_t.cpp:7-11 | the number is narrowed into the `uint8_t` field before the bound check, so it is checked modulo 256 | program word 256: accepted as the word 0 | refuse every number above 7, as the message "uint3_t must be between 0 and 7" says | high; not executed | `ThreeBitWord.AsWrittenAccepts256` | `ThreeBitWord.FromULong` |
| src/d18/main.cpp:77 | `path_queue.front()` is called while the exit's previous spaces are walked, right after the pop that emptied the queue: undefined behaviour | any input whose first 1024 bytes leave a path from the start to the exit | compare with the front only when the queue is non-empty | high; not executed | `RamRun.AsWrittenFrontOfEmpty` | `RamRun.CollateBestPathDetails` |
| d19/main.cpp:26-31 | emptiness is tested before the leading space is dropped, so the token " " becomes the empty pattern; `is_possible_design` then finds it at index 0 and recurses on the same design | pattern line "r, ,b" with a design such as "x" that no other pattern fits | test emptiness after dropping the space, so no empty pattern is kept | high; not executed | `LinenLayout.AsWrittenKeepsEmptyPattern` | `LinenLayout.Patterns` |
