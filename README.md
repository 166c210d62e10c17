# Advent of Code 2023, days 1 to 5, in Dafny

This project is a verified model of five puzzle solvers written in Rust
(`src/day1.rs` to `src/day5.rs`). Each solver reads the lines of an input
file, parses them and folds the parsed values into a number. The model
keeps everything between reading a line and printing a result. The input
file becomes a `seq<string>` of lines, and every fold runs over that
sequence.

- `Day1` (`day1.dfy`): calibration values. `first` and `last` search a
  name-to-value table for the leftmost and rightmost occurrence in a line.
  `day1_do` sums `first * 10 + last` over the lines.
- `Day2` (`day2.dfy`): cube games.
  - It parses rounds of `<count> <colour>` tokens and adds them per colour.
  - Part 1 sums the ids of the games that stay within 12 red, 13 green and
    14 blue cubes.
  - Part 2 sums the powers of the colour-wise maxima.
- `Day3` (`day3.dfy`): the engine schematic.
  - `Line::from_str` is a method with a loop. It is proved to compute the
    function `Scan`, and the properties of part numbers and symbol columns
    are lemmas about `Scan`.
  - `find_parts`, `sum_line_p1` and `sum_line_p2` are pinned down part by
    part and symbol by symbol.
  - The three-row window fold of `p1` and `p2` is proved to score every row
    once, with its previous and next row.
- `Day4` (`day4.dfy`): scratch cards.
  - The number-list parser, the match count and the doubling score.
  - The part-2 backlog: `ProcessCard` and `CountCards` are methods with
    loops. They are proved against the functions `Step` and `TotalCards`,
    and slot `k` of the final backlog is proved to be `Copies(k)`, the
    number of copies of card `k` that the puzzle defines.
- `Day5` (`day5.dfy`): the seed almanac.
  - `Range`, `TranslationRange`, `TranslationRanges`, `InputMap` and
    `InputSet` with their `intersect`, `tr`, `tr_range`, `join` and
    `tr_ranges` operations.
  - The header parsers `seeds` and `seed_pairs`.
  - `InputMap::read`: a method with a loop, proved against the function
    `ReadMap`.
  - The part-1 and part-2 drivers: methods proved against the functions
    `Part1` and `Part2`, sharing the map-reading loop `ReadAll`. What runs
    of `p2` only checks the input, so `Part2` only succeeds or fails.
- `Text` (`text.dfy`) and `Seqs` (`seqs.dfy`) model the parts of Rust's
  `str` and iterator libraries that the solvers use. `Text` has `find`,
  `rfind`, `split`, `splitn`, `trim` and `parse`. `Seqs` has `filter_map`,
  `find_map`, `collect` into a `Result`, `try_fold` sums, `concat`, `sum`
  and `min`.

A Rust panic (`unwrap` on `None`, a slice out of range, an unknown colour
or category, an index past the end of a `Vec`) is modelled as an `Err`
result. Its message is the panic's text where the source gives one.

## Model

| member | source | states |
|---|---|---|
| Text.Find | src/day5.rs:214 | `find` gives the leftmost occurrence of the pattern, and `None` exactly when it occurs nowhere |
| Text.RFind | src/day1.rs:22 | `rfind` gives the start of the rightmost occurrence, and `None` exactly when it occurs nowhere |
| Text.FindChar | src/day2.rs:52 | `find(c)` gives the first index holding `c`, and `None` exactly when `c` is not in the text |
| Text.Split | src/day2.rs:46 | `split(c)` gives at least one piece, and no piece contains `c` |
| Text.SplitJoin | src/day2.rs:45-49 | the pieces of `split`, glued back with the separator, give the input: nothing is lost |
| Text.SplitOfJoin | src/day4.rs:8 | separator-free pieces glued with the separator split back into the same pieces |
| Text.SplitN | src/day5.rs:223 | `splitn(n, c)` gives between 1 and `n` pieces, and only the last one may contain `c` |
| Text.SplitNJoin | src/day5.rs:223 | the pieces of `splitn` glue back to the input |
| Text.SplitNOfJoin | src/day5.rs:223 | exactly `n` separator-free pieces, glued, come back from `splitn(n, c)` unchanged |
| Text.SplitNAgrees | src/day5.rs:223 | when there are no more than `n` pieces to give, `splitn(n, c)` is `split(c)` |
| Text.TrimStart | src/day2.rs:51 | a suffix of the input that starts with a non-whitespace character; only whitespace is cut off |
| Text.TrimEnd | src/day2.rs:51 | a prefix of the input that ends with a non-whitespace character; only whitespace is cut off |
| Text.Trim | src/day2.rs:51 | `trim()` is a slice of the input with no whitespace at either end, and only whitespace is cut off |
| Text.ShowNat | src/day5.rs:78-80 | the decimal text of a number is a non-empty digit run |
| Text.DecimalShowNat | src/day5.rs:78-80 | the value of a number's decimal text is the number |
| Text.ParseShowNat | src/day5.rs:78-80 | printing a number and parsing it back, signed or unsigned, gives the number |
| Text.ParseNat | src/day4.rs:10 | characterised by Text.ParseDigits, Text.ParseShowNat and Text.ParsedHasNoSpace: a non-empty digit run, with an optional '+', read as its decimal value |
| Text.ParseDigits | src/day4.rs:10 | every non-empty digit run parses, leading zeros included, to its decimal value |
| Text.ParseIntNonNegative | src/day2.rs:53 | without a leading '-', the signed parse accepts what the unsigned one does, with the same value |
| Text.ParseInt | src/day2.rs:53 | characterised by Text.ParseIntNonNegative and Text.ParseShowNat |
| Text.ParsedHasNoSpace | src/day5.rs:223 | no text that the unsigned parser accepts contains a space |
| Text.ParseNats | src/day5.rs:265-268 | `collect` of the parsed tokens: when it succeeds there is one number per token |
| Text.ParseNatsAll | src/day5.rs:265-268 | the list parses exactly when every token does, and then to the tokens' values in order |
| Text.ParseShowNats | src/day5.rs:265-268 | numbers printed with single spaces, split at spaces and parsed, give back the list |
| Text.PieceThenSeparator | src/day2.rs:52-53 | in a separator-free piece, a separator, then anything, `find` stops right after the piece, and the slices around it are the piece and the rest |
| Text.FindCharAt | src/day2.rs:42 | `find(c)` returns the index of the first `c` |
| Seqs.FilterSome | src/day5.rs:184-189 | `filter_map` keeps at most as many values as it is offered, and none exactly when every item is `None` |
| Seqs.FilterSomeMember | src/day5.rs:184-189 | a value is kept exactly when it was offered |
| Seqs.FilterSomeAppend | src/day5.rs:241-246 | `filter_map` of a concatenation is the concatenation of the kept values, in order |
| Seqs.FirstSomeIndex | src/day5.rs:199-201 | the index of the first `Some`: every item before it is `None` |
| Seqs.FirstSomeIndexUnique | src/day5.rs:199-201 | any index with that description is the first `Some` |
| Seqs.FirstSome | src/day5.rs:199-201 | `find_map` is `None` exactly when every item is, and otherwise the first `Some` |
| Seqs.TryMap | src/day4.rs:10-11 | `collect::<Result<Vec<_>>>` keeps one value per item when it succeeds |
| Seqs.TryMapAll | src/day4.rs:10-11 | the collect fails exactly when some item fails, with the first failing item's error, and is otherwise the items' values in order |
| Seqs.TryMapSingle | src/day4.rs:10-11 | a single item collects to its own value or its own error |
| Seqs.TryMapAppend | src/day4.rs:10-11 | after a good prefix, collecting more items appends their values or fails with their error |
| Seqs.TryMapPrefixErr | src/day4.rs:10-11 | once a prefix has failed, later items do not change the error |
| Seqs.TryMapStep | src/day4.rs:10-11 | the next item extends the collected values or ends the collect with its error |
| Seqs.TrySumIsSumOfMap | src/day4.rs:29-37 | the `try_fold` sum of item scores is the sum of the collected scores, or the first failing item's error |
| Seqs.TrySumAppend | src/day4.rs:29-37 | the `try_fold` sum is additive over the items |
| Seqs.TrySum | src/day4.rs:29-37 | characterised by Seqs.TrySumIsSumOfMap and Seqs.TrySumAppend |
| Seqs.FirstFailureCons | src/day1.rs:44 | after a good item, the first failure of the rest is the first failure of the whole |
| Seqs.AddUp | src/day1.rs:44 | characterised by Seqs.AddUpIsTotal |
| Seqs.AddUpIsTotal | src/day1.rs:44 | `try_fold(0, \|a, b\| Ok(a + b?))` succeeds exactly when every item does and is then the total; otherwise it fails with the first failing item's error |
| Seqs.OkTotalBounds | src/day1.rs:44 | items all between `lo` and `hi` add up to between `lo` and `hi` times their number |
| Seqs.Concat | src/day5.rs:191-196 | characterised by Seqs.ConcatShape and Seqs.ConcatAppend |
| Seqs.ConcatShape | src/day5.rs:191-196 | `concat` keeps every element of every piece and nothing else, and its length is the total length |
| Seqs.ConcatAppend | src/day5.rs:253-258 | `concat` of two lists of pieces is the concatenation of their `concat`s |
| Seqs.TotalLengthBound | src/day5.rs:191-196 | pieces no longer than `m` concatenate to at most `m` times their number |
| Seqs.TotalLengthFloor | src/day5.rs:253-259 | pieces at least `m` long concatenate to at least `m` times their number |
| Seqs.Sum | src/day4.rs:72 | a sum of non-negative terms is non-negative |
| Seqs.SumAppend | src/day4.rs:72 | a sum is additive over concatenation |
| Seqs.SumBounds | src/day4.rs:72 | a sum of non-negative terms is at least each term |
| Seqs.Min | src/day5.rs:290-294 | `min` is `None` exactly on an empty list, and otherwise an element no larger than any other |
| Day1.First | src/day1.rs:4-17 | characterised by Day1.FirstIsLeftmost: fails with "No first" exactly when no entry occurs, otherwise the leftmost entry's value |
| Day1.FoldFirstWinner | src/day1.rs:8-14 | the fold in `first` finds nothing exactly when no entry occurs, and otherwise returns the winner: leftmost, and the later entry on a tie |
| Day1.FirstWinnerUnique | src/day1.rs:10 | the tie rule leaves at most one winner |
| Day1.FoldFirstOfWinner | src/day1.rs:8-14 | whichever entry wins, the fold returns its value and position |
| Day1.FirstIsLeftmost | src/day1.rs:4-17 | `first` fails exactly when no entry occurs in the line, and otherwise gives the value of the entry occurring leftmost, the later entry winning a tie |
| Day1.Last | src/day1.rs:19-32 | characterised by Day1.LastIsRightmost: fails with "No first" exactly when no entry occurs, otherwise the rightmost entry's value |
| Day1.FoldLastWinner | src/day1.rs:23-29 | the fold in `last` finds nothing exactly when no entry occurs, and otherwise returns the winner: rightmost, and the later entry on a tie |
| Day1.LastWinnerUnique | src/day1.rs:25 | the tie rule leaves at most one winner |
| Day1.FoldLastOfWinner | src/day1.rs:23-29 | whichever entry wins, the fold returns its value and position |
| Day1.LastIsRightmost | src/day1.rs:19-32 | `last` fails exactly when no entry occurs in the line, and otherwise gives the value of the entry occurring rightmost, the later entry winning a tie |
| Day1.DigitEntries | src/day1.rs:49-59 | the part-1 table maps each digit 1 to 9 to its value |
| Day1.DigitFound | src/day1.rs:7 | a digit of the line is found by its entry, by `find` at or before it and by `rfind` at or after it |
| Day1.DigitAt | src/day1.rs:7 | wherever a digit entry occurs, the line holds that digit |
| Day1.DigitTableFirst | src/day1.rs:4-17 | with the part-1 table, `first` succeeds exactly when the line has a digit from 1 to 9, and gives the leftmost one's value |
| Day1.DigitTableLast | src/day1.rs:19-32 | with the part-1 table, `last` succeeds exactly when the line has a digit from 1 to 9, and gives the rightmost one's value |
| Day1.OverlappingWords | src/day1.rs:69-88 | with the part-2 table, "oneight" has first value 1 and last value 8 |
| Day1.OneightFirst | src/day1.rs:7 | `find` picks "one" at position 0 in "oneight" |
| Day1.OneightLast | src/day1.rs:22 | `rfind` picks "eight" at position 2 in "oneight" |
| Day1.OneightOccurrence | src/day1.rs:69-88 | no part-2 entry occurs in "oneight" later than "eight" |
| Day1.NoOtherO | src/day1.rs:69-88 | "one" is the only part-2 entry that starts with 'o' |
| Day1.LineValue | src/day1.rs:38-43 | a line's value fails only with the "No first" error of `first` or `last` |
| Day1.LineValueRange | src/day1.rs:38-43 | a line's value fails exactly when no entry occurs in it; with values 1 to 9 it is between 11 and 99 |
| Day1.Day1Do | src/day1.rs:34-45 | characterised by Day1.Day1DoSum: the sum of the line values, or the "No first" error |
| Day1.Day1DoSum | src/day1.rs:34-45 | `day1_do` fails exactly when some line holds no entry, with "No first"; otherwise it is the sum of the line values, between 11 and 99 per line |
| Day2.AddRound | src/day2.rs:14-22 | `add_round` passes an error through, fails on an unknown colour, and otherwise adds the count to exactly the named colour |
| Day2.ParseCube | src/day2.rs:50-54 | characterised by Day2.ParseCubeCases, Day2.ParseShowCube and Day2.FoldCubesFails |
| Day2.ParseCubeCases | src/day2.rs:51-53 | after trimming, a token without a space fails with "no space", one whose text before the first space is not a number fails with the parse error, and otherwise the count is that text's value and the colour is the text after the space |
| Day2.FoldCubes | src/day2.rs:55 | characterised by Day2.FoldCubesTotals and Day2.FoldCubesFails |
| Day2.ParseRound | src/day2.rs:47-56 | characterised by Day2.FoldCubesTotals: each colour's total over the round's tokens, or the first bad token's error |
| Day2.FoldCubesTotals | src/day2.rs:55 | the fold of a round succeeds exactly when every token parses and names a colour; each colour's count is the start plus the sum of that colour's counts, so repeated mentions add up |
| Day2.FoldCubesFails | src/day2.rs:55 | a failed round carries the error of its first bad token |
| Day2.TrimUntouched | src/day2.rs:51 | text with no whitespace at either end is its own trim |
| Day2.ParseShowCube | src/day2.rs:50-54 | a token `<count> <colour>`, for a non-empty colour that does not end in whitespace, parses back to the colour and count |
| Day2.CountSuspect | src/day2.rs:57-61 | the filtered count succeeds exactly when every round parses, and is then the number of rounds over 12 red, 13 green or 14 blue; otherwise it fails with the first failed round's error |
| Day2.NoneExceeding | src/day2.rs:57-60 | no round is counted exactly when every round that parsed stays within the bag |
| Day2.GameIdOfHeader | src/day2.rs:42-43 | a line starting "Game n:" has game id `n`, whatever follows |
| Day2.GameCountedIff | src/day2.rs:45-62 | a game that parses has an impossible-round count of 0 exactly when none of its rounds exceeds the bag |
| Day2.GameOutcome | src/day2.rs:40-63 | characterised by Day2.GameIdOfHeader and Day2.GameCountedIff: the game id and the number of impossible rounds |
| Day2.SumIds | src/day2.rs:64-66 | characterised by Day2.SumIdsIsSum |
| Day2.Part1 | src/day2.rs:35-69 | characterised by Day2.SumIdsIsSum: the sum of the ids of the possible games, or the first failed line's error |
| Day2.SumIdsIsSum | src/day2.rs:64-66 | part 1 succeeds exactly when every line does, and is then the sum of the ids of the games with no impossible round; otherwise it fails with the first failed line's error |
| Day2.MaxFold | src/day2.rs:92-98 | characterised by Day2.MaxFoldFails, Day2.MaxFoldCovers and Day2.MaxFoldLeast: the least round covering every round |
| Day2.MaxFoldFails | src/day2.rs:92-98 | the maximum fold succeeds exactly when every round parses, and otherwise fails with the first failure |
| Day2.MaxFoldCovers | src/day2.rs:92-98 | the maximum fold's result holds, in every colour, at least the start and every round |
| Day2.MaxFoldLeast | src/day2.rs:92-98 | it is the least such: anything covering the start and every round covers it |
| Day2.Power | src/day2.rs:30-32 | characterised by Day2.PowerZero: the product of the three counts, 0 exactly when a colour is missing |
| Day2.PowerZero | src/day2.rs:30-32 | the power is 0 exactly when some colour has no cubes |
| Day2.GamePower | src/day2.rs:76-100 | characterised by Day2.MissingColourPower and Day2.MaxFoldLeast: the power of the least round covering every round |
| Day2.MissingColourPower | src/day2.rs:92-99 | a colour that no round shows leaves the game's power at 0 |
| Day2.Part2 | src/day2.rs:71-104 | characterised by Day2.Part2IsSumOfPowers |
| Day2.Part2IsSumOfPowers | src/day2.rs:101 | part 2 succeeds exactly when every line does, and is then the sum of the powers; otherwise it fails with the first failed line's error |
| Day3.RunEnd | src/day3.rs:45-46 | the end of the digit run starting at `i`: digits up to it, then a non-digit or the end of the row |
| Day3.RunEndAt | src/day3.rs:45-46 | a maximal run of digits ends where `RunEnd` says |
| Day3.PartsAreRuns | src/day3.rs:45-55 | every part is the part recorded for a digit run |
| Day3.MakePartValue | src/day3.rs:49-53 | a part's value is what `parse` reads from its digit run, leading zeros and all |
| Day3.PartsAreMaximal | src/day3.rs:45-55 | no part starts right after a digit: runs are taken whole |
| Day3.PartsOrdered | src/day3.rs:36-75 | parts are in strictly increasing column order and never overlap |
| Day3.PartsCoverDigits | src/day3.rs:45-71 | every digit of the row lies in the run of some part |
| Day3.SymbolsExact | src/day3.rs:56-62 | the symbol columns are exactly the columns holding a symbol, in increasing order |
| Day3.SymbolsAreSymbols | src/day3.rs:56-62 | every recorded column holds a symbol |
| Day3.SymbolsComplete | src/day3.rs:56-62 | every column holding a symbol is recorded |
| Day3.SymbolsIncreasing | src/day3.rs:56-62 | symbol columns are recorded in strictly increasing order |
| Day3.ScanSymbols | src/day3.rs:56-62 | the scanned row's symbols are exactly its symbol columns, no digit is a symbol, and they are in increasing order |
| Day3.PartsFromSkip | src/day3.rs:47-55 | a non-digit adds no part |
| Day3.PartsFromRun | src/day3.rs:45-55 | a digit run gives its part, then the parts after it |
| Day3.CloseRun | src/day3.rs:48-54 | a run closed by a non-digit pushes the part for that run |
| Day3.CloseLastRun | src/day3.rs:64-71 | a run still open at the last column pushes its part with end column equal to the row length |
| Day3.ScanStep | src/day3.rs:44-74 | one step of the `try_fold` keeps the scan invariant: parts and symbols so far, plus those still to come, are the row's |
| Day3.Scan | src/day3.rs:35-77 | characterised by Day3.FromStr, Day3.PartsAreRuns, Day3.PartsCoverDigits and Day3.SymbolsExact |
| Day3.FromStr | src/day3.rs:35-77 | `Line::from_str` computes exactly `Scan`: the row's part numbers and symbol columns |
| Day3.Touched | src/day3.rs:22-28 | a part is kept exactly when some symbol column lies within one column of its span |
| Day3.FindParts | src/day3.rs:19-31 | `find_parts` is at most the sum of all part values |
| Day3.FindPartsAppend | src/day3.rs:19-31 | `find_parts` is additive over the parts: the parts are filtered and summed one by one |
| Day3.FindPartsOne | src/day3.rs:22-29 | a single part adds its value exactly when some symbol is within one column of it, and nothing otherwise |
| Day3.FindPartsExtremes | src/day3.rs:19-31 | with no symbols the sum is 0; all parts count when all are touched and none when none is |
| Day3.TouchedAppend | src/day3.rs:93-97 | a part is touched by chained symbol lists exactly when one of them touches it |
| Day3.FindPartsSameTouch | src/day3.rs:19-31 | only which parts are touched matters, each counted once |
| Day3.FindPartsMonotone | src/day3.rs:19-31 | touching more parts never lowers the sum |
| Day3.SumLineP1 | src/day3.rs:80-99 | a row's part-1 score is at most the sum of its part values; which parts count is stated by Day3.SumLineP1Split and Day3.SumLineP1OnePart |
| Day3.SumLineP1Split | src/day3.rs:80-99 | a row's part-1 score is the sum of its parts' scores, taken part by part |
| Day3.SumLineP1OnePart | src/day3.rs:80-99 | a row with one part scores its value exactly when a symbol of the previous, current or next row is within one column of it, and 0 otherwise |
| Day3.SumLineP1Neighbours | src/day3.rs:80-99 | the previous and next rows play the same role, a missing row adds no symbols, and the row's own symbols always count |
| Day3.TouchedRows | src/day3.rs:93-97 | touching by three rows' symbols does not depend on the outer rows' order and includes the middle row's |
| Day3.TouchedRowsAll | src/day3.rs:93-97 | the same for every part of the row |
| Day3.Matching | src/day3.rs:133-152 | at most one value per part, and none exactly when no part is within one column of the symbol; which values, in which order, is stated by Day3.MatchingAppend and Day3.MatchingOne |
| Day3.MatchingAppend | src/day3.rs:133-152 | the filter and `map(value)` work part by part: the matches in a concatenation are the two lists of matches, in order |
| Day3.MatchingOne | src/day3.rs:123-125 | a single part gives its value exactly when it lies within one column of the symbol, and nothing otherwise |
| Day3.ProductAppend | src/day3.rs:156 | the product fold is multiplicative over concatenation |
| Day3.GearRatio | src/day3.rs:155-156 | a symbol with fewer than two adjacent parts adds 0, and with two or more it adds the product of their values (for two, the two values multiplied) |
| Day3.SumLineP2 | src/day3.rs:127-159 | a row without symbols scores 0; the per-symbol sum is stated by Day3.SumLineP2PerSymbol |
| Day3.SumGearsAppend | src/day3.rs:128-157 | the symbols are scored one by one: the score over a concatenation of symbol lists is the sum of the two scores |
| Day3.SumGearsSameParts | src/day3.rs:127-159 | only the current row's parts, not its symbols, enter a symbol's score |
| Day3.SumLineP2PerSymbol | src/day3.rs:127-159 | a row's part-2 score is the sum over its symbols, and one symbol scores the product of the part values adjacent to it in the previous, next and current rows when there are at least two, and 0 otherwise |
| Day3.SumGearsSymmetric | src/day3.rs:127-159 | swapping the previous and next rows changes no symbol's ratio |
| Day3.SumLineP2Symmetric | src/day3.rs:127-159 | `sum_line_p2` treats the two neighbouring rows alike |
| Day3.LoneSymbolAddsNothing | src/day3.rs:155 | a symbol touching fewer than two parts in the three rows adds nothing |
| Day3.FoldRows | src/day3.rs:104-114 | characterised by Day3.FoldRowsState |
| Day3.FoldRowsState | src/day3.rs:104-114 | before row `i` the fold has scored every earlier row but the last, each with its predecessor and successor, and holds the last two rows |
| Day3.WindowIsSumOfTerms | src/day3.rs:104-118 | the fold plus the final pending row score every row exactly once, the first with no predecessor and the last with no successor |
| Day3.Part1 | src/day3.rs:101-121 | characterised by Day3.WindowIsSumOfTerms and Day3.SumLineP1: every row scored once with its neighbours, only rows that exist supplying symbols |
| Day3.Part2 | src/day3.rs:161-180 | characterised by Day3.WindowIsSumOfTerms and Day3.SumLineP2Symmetric: every row's gear ratios scored once with its neighbours |
| Day4.NonEmpty | src/day4.rs:9 | the filter keeps at most every token |
| Day4.NonEmptyMembers | src/day4.rs:9 | the kept tokens are exactly the non-empty ones |
| Day4.NonEmptyKeepsAll | src/day4.rs:9 | a list with no empty token is kept whole |
| Day4.NumbersIn | src/day4.rs:6-12 | characterised by Day4.NumbersInFails and Day4.NumbersInOfTokens |
| Day4.NumbersInFails | src/day4.rs:6-12 | `numbers_in` fails exactly when some non-empty token is not a number; empty tokens from repeated spaces are ignored |
| Day4.NumbersInOfTokens | src/day4.rs:6-12 | tokens glued with spaces read back as the numbers of the non-empty tokens |
| Day4.NumbersInRoundTrip | src/day4.rs:6-12 | numbers printed with single spaces read back as themselves |
| Day4.ParseCard | src/day4.rs:31-34 | characterised by Day4.ParseCardShape |
| Day4.ParseCardShape | src/day4.rs:31-34 | a card fails with "Colon?" without ':' and with "Pipe?" without '\|'; when it parses, the winners are the numbers between ':' and '\|' and the drawn numbers those after '\|' |
| Day4.MatchCount | src/day4.rs:42-47 | the match count is at most the number of drawn numbers |
| Day4.MatchCountExtremes | src/day4.rs:14-18 | the count is 0 exactly when no drawn number wins, and the number drawn exactly when all win |
| Day4.MatchCountAppend | src/day4.rs:42-47 | the count is additive over the drawn numbers |
| Day4.MatchCountRemove | src/day4.rs:42-47 | removing a drawn number removes its match, if it was one |
| Day4.MatchCountPermutation | src/day4.rs:42-47 | the count depends on which numbers were drawn, with repeats, not on their order |
| Day4.MatchCountSameWinners | src/day4.rs:17 | the count depends on which numbers win, not on how they are listed |
| Day4.Score | src/day4.rs:19-23 | the score is 0 exactly without a match, and 1 for one match |
| Day4.ScoreDoubles | src/day4.rs:19-23 | each match after the first doubles the score |
| Day4.CardScore | src/day4.rs:30-36 | characterised by Day4.Score and Day4.MatchCountExtremes: the card's score, or its parse error |
| Day4.TotalScore | src/day4.rs:26-40 | characterised by Day4.TotalScoreIsSum |
| Day4.TotalScoreIsSum | src/day4.rs:29-37 | part 1 succeeds exactly when every card parses, and is then the sum of the card scores; otherwise it fails with the first failing card's error |
| Day4.Step | src/day4.rs:61-68 | characterised by Day4.StepShape and Day4.ProcessCard |
| Day4.StepShape | src/day4.rs:61-68 | after card `i` the backlog has not shrunk, holds at least `i + 1 + res` slots, holds card `i` at least once, has zeros in new slots out of reach, and is unchanged before `i` and after `i + res` |
| Day4.ProcessCard | src/day4.rs:61-68 | the resize, the increment and the `for` loop compute `Step`: slot `i` up by one, each of the next `res` slots up by the new count of card `i` |
| Day4.ContribSettled | src/day4.rs:64-68 | later cards never hand copies to earlier ones |
| Day4.BacklogCounts | src/day4.rs:61-68 | after `n` cards, every slot holds its original card, if processed, plus the copies won so far |
| Day4.BacklogIsCopies | src/day4.rs:62-68 | after all cards, slot `k` is the number of copies of card `k`, at least one |
| Day4.BacklogLength | src/day4.rs:61 | after `n` cards the backlog has at least `n` slots |
| Day4.BacklogExtend | src/day4.rs:52-70 | one more card extends the backlog by one step |
| Day4.BacklogPrefix | src/day4.rs:52-70 | the backlog after `n` cards depends only on the first `n` cards |
| Day4.MatchCounts | src/day4.rs:55-60 | when every card parses there is one match count per card |
| Day4.TotalCards | src/day4.rs:49-74 | characterised by Day4.CountCards, Day4.BacklogIsCopies and Day4.TotalCardsAtLeastCards |
| Day4.TotalCardsAtLeastCards | src/day4.rs:62-72 | every card is counted at least once, so the total is at least the number of cards |
| Day4.SumAtLeastPrefix | src/day4.rs:72 | slots of at least 1 make the sum at least their number |
| Day4.FoldCard | src/day4.rs:54-70 | one step of the `try_fold`: the card's error, or the backlog after `Step` with its match count |
| Day4.CountCards | src/day4.rs:49-72 | the `try_fold` over the cards, then the sum of the backlog, computes `TotalCards` |
| Day5.CategoryOf | src/day5.rs:18-30 | `Category::of` gives the category with that name, and fails exactly on a name no category has |
| Day5.Range.StartEnd | src/day5.rs:49-54 | `start_end` is `Some` exactly when start ≤ end, and then starts at start and ends at end |
| Day5.Range.StartSize | src/day5.rs:55-57 | `start_size` is `Some` exactly when the size is positive, with the fields unchanged |
| Day5.Range.Intersect | src/day5.rs:43-48 | `intersect` is `None` exactly when the ranges share no value, and otherwise holds exactly the values of both |
| Day5.IntersectCommutes | src/day5.rs:43-48 | `intersect` is commutative |
| Day5.Range.Tr | src/day5.rs:58-60 | `tr` is `Some` exactly on the range's values; the image is `v + dest - from`, lies in `[dest, dest + size - 1]`, and shifts back to `v` |
| Day5.Range.TrRange | src/day5.rs:62-67 | `tr_range` keeps the size and shifts every value by `dest - from` |
| Day5.TranslationRange.Tr | src/day5.rs:86-88 | a rule maps exactly the values of its source, each by the rule's offset |
| Day5.TranslationRange.TrRange | src/day5.rs:89-93 | a rule's image of a range is `None` exactly when source and range are disjoint, and otherwise the shifted intersection |
| Day5.TranslationRange.Join | src/day5.rs:95-98 | `join` is `None` exactly when the two sources are disjoint, and otherwise the intersection of the sources shifted by this rule's offset, with this rule's `dest` |
| Day5.JoinIsNotComposition | src/day5.rs:95-98 | a concrete pair of rules whose `join` differs from applying one rule after the other |
| Day5.TranslationRanges.Intersect | src/day5.rs:184-189 | `intersect` keeps at most one joined rule per rule of the list |
| Day5.IntersectMember | src/day5.rs:184-189 | a rule is in `intersect(y)` exactly when some rule of the list joins with `y` to give it |
| Day5.TranslationRanges.Join | src/day5.rs:190-198 | the join has at most `\|self\| * \|other\|` rules |
| Day5.JoinMembers | src/day5.rs:190-198 | every rule of a join comes from one rule of each list, and every overlapping pair gives one |
| Day5.JoinOuterOrder | src/day5.rs:191-196 | the join runs over the other list in the outer loop: pieces for its earlier rules come first |
| Day5.TranslationRanges.FirstRule | src/day5.rs:199-201 | the index of the first rule covering the value, every earlier rule missing it |
| Day5.TranslationRanges.Tr | src/day5.rs:199-201 | `tr` is the translation by the first rule, in list order, that covers the value, and `None` when none does |
| Day5.InputMap.Tr | src/day5.rs:237-239 | a map translates by its first covering rule and leaves uncovered values unchanged |
| Day5.InputMap.TrRange | src/day5.rs:240-251 | one shifted intersection per intersecting rule, in rule order, and exactly `[range]` when no rule intersects |
| Day5.TrRangeHoldsTr | src/day5.rs:240-251 | a value's image under `tr` lies in some output piece of its range, when some rule covers the value or no rule meets the range |
| Day5.TrRangeSound | src/day5.rs:240-251 | each output piece is accounted for: it is the range itself when no rule meets the range, and otherwise one rule's image of the range, every value of it the shift of a value that lies both in the range and in that rule's source |
| Day5.TrRangeDropsUncovered | src/day5.rs:247-249 | values of a range that no rule covers are dropped once another part of it is covered: `tr_range` does not conserve length |
| Day5.InputMap.TrRanges | src/day5.rs:253-259 | characterised by Day5.TrRangesMembers and Day5.TrRangesAppend |
| Day5.TrRangesAppend | src/day5.rs:253-259 | `tr_ranges` handles its inputs one after another and gives nothing for no input |
| Day5.TrRangesMembers | src/day5.rs:253-259 | `tr_ranges` gives at least one piece per input range, and its pieces are exactly those `tr_range` gives for some input range |
| Day5.SeedToSoilExample | src/day5.rs:237-239 | the seed-to-soil map of the puzzle sends 79, 14, 55, 13 to 81, 14, 57, 13 |
| Day5.InputSet.Tr | src/day5.rs:147-156 | characterised by Day5.InputSetTrIsChain |
| Day5.InputSetTrIsChain | src/day5.rs:147-156 | `InputSet::tr` applies the seven maps seed to humidity, in order |
| Day5.ChainAppend | src/day5.rs:147-156 | a chain of maps can be cut anywhere: the tail runs on what the head produced |
| Day5.FindMap | src/day5.rs:116-121 | `filter` fails exactly when no map starts from the category, and otherwise gives the first one that does |
| Day5.InputSetOf | src/day5.rs:122-146 | `InputSet::of` takes its seven maps from the list, each starting from its own category |
| Day5.InputSetOfFails | src/day5.rs:122-129 | `InputSet::of` fails exactly when one of the seven starting categories has no map |
| Day5.Seeds | src/day5.rs:262-270 | the seeds parse only from a line with a space |
| Day5.SeedsRoundTrip | src/day5.rs:262-270 | a header word, a space and numbers with single spaces parse back to the numbers |
| Day5.Pairs | src/day5.rs:299-315 | taking numbers two at a time gives half as many ranges, a trailing odd number dropped |
| Day5.ParseNatsCons | src/day5.rs:302 | a list of tokens parses one token at a time |
| Day5.PairUpParses | src/day5.rs:302-313 | the `seed_pairs` fold succeeds exactly when every token parses and every size is positive, and then pairs the numbers |
| Day5.PairUpStart | src/day5.rs:310 | the fold step that reads a start |
| Day5.PairUpSize | src/day5.rs:306-309 | the fold step that reads a size, refusing 0 |
| Day5.SeedPairs | src/day5.rs:299-315 | characterised by Day5.SeedPairsAgreeWithSeeds |
| Day5.SeedPairsAgreeWithSeeds | src/day5.rs:299-315 | `seed_pairs` succeeds exactly when `seeds` does with every size positive, and then pairs those numbers as (start, size) |
| Day5.RuleFrom | src/day5.rs:77-85 | a rule line is read as dest, source start, length, and fails on a missing or unparsable field or a length of 0 |
| Day5.RuleLineRoundTrip | src/day5.rs:77-85 | a printed rule, split at most three ways, reads back as the rule |
| Day5.ReadRules | src/day5.rs:217-228 | reading rule lines moves forward and stays within the input |
| Day5.ReadMap | src/day5.rs:211-236 | `None` exactly at the end of input; an error when the title has no "-to-"; a map that was read moves the position forward and stays within the input |
| Day5.ReadRulesStep | src/day5.rs:218-224 | a non-blank line is read as a rule, then the rest |
| Day5.ReadRulesShape | src/day5.rs:217-228 | every rule read comes from the next non-blank line, in order |
| Day5.ReadRulesStop | src/day5.rs:217-228 | reading rules stops at the first blank line, which it consumes, or at the end of input |
| Day5.StopsAtBlankStep | src/day5.rs:217-228 | one more rule line in front of a run that stops at a blank line ends at the same place |
| Day5.ReadMapShape | src/day5.rs:212-232 | a map read from a title: the title holds "-to-", the category is the text before it, and the rules follow |
| Day5.ReadRulesUnfold | src/day5.rs:218-224 | reading one rule line puts its rule in front of the rest, or fails with its error |
| Day5.ReadMaps | src/day5.rs:282-288 | characterised by Day5.ReadMapsUnfold |
| Day5.ReadMapsUnfold | src/day5.rs:282-288 | reading one map puts it in front of the rest, ends at end of input, or fails with its error |
| Day5.Read | src/day5.rs:211-236 | `InputMap::read` computes `ReadMap`: `None` at end of input, an error without "-to-", otherwise the map and the position after it |
| Day5.ReadAll | src/day5.rs:281-288 | the `loop` over `InputMap::read` computes `ReadMaps`: the maps in order, or the first error |
| Day5.LowestLocation | src/day5.rs:290-294 | the minimum fails exactly without seeds, and is otherwise a location no larger than any other |
| Day5.LowestLocationIsMinimum | src/day5.rs:290-294 | the lowest location is attained by some seed and no seed's location is below it |
| Day5.Part1 | src/day5.rs:272-297 | characterised by Day5.SolvePart1 and Day5.LowestLocationIsMinimum |
| Day5.SolvePart1 | src/day5.rs:272-297 | the part-1 driver computes `Part1`: header, one skipped line, every map, the lowest location |
| Day5.Part2 | src/day5.rs:317-341 | characterised by Day5.Part2Outcome and Day5.SolvePart2 |
| Day5.Part2Outcome | src/day5.rs:317-341 | part 2 succeeds exactly when the header holds seed ranges of positive size and the maps read and cover the seven categories, and then part 1 succeeds too unless there are no seeds |
| Day5.SolvePart2 | src/day5.rs:317-341 | the part-2 driver computes `Part2`: seed ranges, one skipped line, every map, the seven-map lookup |

## Left out

- File opening, line reading, `println!` and `src/main.rs` are not modelled: the input is a `seq<string>` of lines and the result is returned. An I/O error on a line cannot happen in the model.
- Machine integers: `u32`, `u64`, `usize` and `i32` are unbounded `nat`/`int`, so overflow (in `parse`, `try_into`, `2u32.pow`, the sums and products, and `from + size - 1` or `value + dest - from` in day 5) is not modelled. In particular `Line::from_str` never fails in the model: its only errors are `try_into` and `parse` overflow.
- Text is ASCII: byte indices and character indices coincide.
- Rust's error messages for `parse` failures are modelled by fixed texts; only the messages the source writes itself ("No first", "no space", "Colon?", "Pipe?", "range?", "size?", "seed?", ...) are kept.
- The debug `join` and `println!` inside `InputSet::of` (src/day5.rs:131-135) have no effect on the result and are not modelled.
- `InputSet::tr_range` and `InputSet::tr_ranges` are stubs, and the range translation and printing at the end of day 5 `p2` (src/day5.rs:335-339) are commented out, so none of them is modelled; the rest of `p2`, whose only outcome is success or an error, is (`Day5.Part2`).
- Iterator laziness is not observable in the results and is not modelled: each `map` becomes a sequence of results that a fold then consumes.
- Day4.TotalScoreIsSum: states the part-1 total as a sum of per-card scores over the whole input; additivity over a split of the lines is the generic `Seqs.TrySumAppend`.
- Day4.CountCards: the part-2 answer sums every backlog slot, including slots past the last card that later cards' matches created; the model keeps that, so the total can exceed the sum of `Copies` over the cards.
- Day2.ParseShowCube: requires a non-empty colour that does not end in whitespace, because a token with nothing after the count trims to the count alone and fails with "no space", and `trim` cuts trailing whitespace off the colour.
- Day5.TrRangeHoldsTr: holds only when some rule covers the value or no rule meets the range, because `tr_range` drops the uncovered values of a partly covered range (`Day5.TrRangeDropsUncovered`).
- Day5.TranslationRange.Join: is what the code computes (the intersection of the two source ranges with this rule's destination), not the composition of the two rules that the name suggests.
- Day1.Last: its error text is "No first", as the source writes it for both `first` and `last`.
