# advent-25 in Dafny

A verified model of the puzzle kernels of `advent-25`, a set of Rust solutions to
the twelve puzzles of Advent of Code 2025. Each `src/dayNN.rs` file turns the
puzzle input text into two answers through `part1`, `part2` and `both`. This model
keeps each day's parser, its algorithm and its error messages. It states what
every answer means in the puzzle's own terms and proves that the source's
algorithm computes it.

- **Day 1** (`day01.dfy`): the dial from 0 to 99. Part 1 counts rotations that
  end on 0. Part 2 uses a closed-form count of zero clicks, proved equal to a
  click-by-click count.
- **Day 2** (`day02.dfy`, `day02_solve.dfy`, `repetition.dfy`, `intervals.dfy`):
  ranges of product IDs. The parser and the range merge feed a per-block-length
  enumeration of repeated-digit IDs. Each ID is counted once, at its shortest
  repeating block.
- **Day 3** (`day03.dfy`): the largest K-digit pick from each line. The
  `DigitStack` class models the greedy monotonic stack, which is proved optimal.
- **Day 4** (`day04.dfy`): rolls with fewer than four neighbouring rolls. Part 1
  counts them. Part 2 models the peeling worklist. It is proved to leave the
  largest set of rolls in which no roll is accessible, the same set that removal
  round by round leaves.
- **Day 5** (`day05.dfy`, `intervals.dfy`): fresh-ingredient ranges. The ranges are
  merged, IDs are looked up by binary search, and the union's size is counted.
- **Day 6** (`day06.dfy`): column worksheets, read by rows for part 1 and by
  columns for part 2.
- **Day 7** (`day07.dfy`): beams through splitters, counting the splits and the
  timelines.
- **Day 8** (`day08*.dfy`): the closest-pair wiring of junction boxes. It uses the
  edge buffer, chunked selection, the LSD radix sort and union-find with path
  compression. Its answers are proved equal to those of connecting every pair in
  one nondecreasing order of distance.
- **Day 9** (`day09*.dfy`): the largest red-cornered rectangle. For part 2 the
  loop is rasterised on a compressed grid and checked with a 2-D prefix sum.
- **Day 10** (`day10*.dfy`): lights by GF(2) elimination. Joltages by fraction-free
  integer elimination, back-substitution and a search over the free buttons.
- **Day 11** (`day11.dfy`): the device graph. Node names are interned, adjacency
  lists are built, and paths are counted by a memoised walk. The part 2 product
  of segment counts is proved to count the routes from `svr` to `out` through
  `dac` and `fft` when `out` has no outputs, and the answers use the graph with
  the outputs of `out` dropped (see Findings).
- **Day 12** (`day12*.dfy`): packing presents. Shape orientations, bitmask
  placements, the area and box shortcuts, and the backtracking search, which is
  proved sound and complete.

Input text is a `string` whose characters stand for the bytes of the input.
`Common` holds the `Result`/`Option` wrappers and models of `str::lines`, `trim`
and `split_whitespace`. `Sorting` holds sortedness and permutation facts. State
that the source updates in place is modelled with Dafny arrays and classes: day 3's
digit stack, day 4's grid and worklist, day 8's edge buffers and union-find arrays,
day 11's memo table and day 12's occupancy words. Loops of the source are `while`
loops proved against specification functions.

## Model

| member | source | states |
|---|---|---|
| `Day01.Turn` | src/day01.rs:43-51 | the dial after one rotation stays in 0..99: `R` adds the distance mod 100, `L` subtracts it, any other letter leaves the dial where it is |
| `Day01.DistModIsDistFullMod100` | src/day01.rs:84-98 | the distance folded mod 100 digit by digit equals the full distance mod 100, so the two accumulators of part 2 agree |
| `Day01.DistFullOfDigits` | src/day01.rs:95-97 | on a body of digits the folded distance is its decimal value |
| `Day01.ClickZeroIffFirstHit` | src/day01.rs:101-113 | click k of a rotation reads 0 exactly when k is at least `first_hit` (100 at position 0, else 100-pos for `R` and pos otherwise) and k - `first_hit` is a multiple of 100 |
| `Day01.ZeroPassesCountsZeroClicks` | src/day01.rs:114-116 | `1 + (dist - first_hit)/100` when `dist >= first_hit`, else 0, is the number of clicks k in 1..dist at which the dial reads 0 |
| `Day01.PassesCountClicks` | src/day01.rs:62-130 | the part 2 sum over a list of rotations equals the click-by-click count of zero readings, the dial moving by the full distance mod 100 |
| `Day01.BlankLinesSkipped` | src/day01.rs:15-22 | a `\n` or `\r` before a record contributes no rotation |
| `Day01.RotationsWellFormed` | src/day01.rs:27-41 | every recorded rotation comes from a non-blank line: its direction is neither `\n` nor `\r` and its body holds no line break |
| `Day01.ScannedIsDist` | src/day01.rs:30-41 | the scanner's digit accumulators over a slice equal the distance folds of that slice |
| `Day01.SkipBlanks` | src/day01.rs:15-22 | the scan moves past `\n` and `\r` bytes to the next record or the end, and the rotations read from there are those read from where it started |
| `Day01.ScanRecord` | src/day01.rs:27-41 | reading one record yields its direction byte, both distances of the bytes up to the next `\n`, and the index after that `\n` |
| `Day01.Part1` | src/day01.rs:6-57 | the count of rotations, started at 50, after which the dial reads 0 |
| `Day01.Part2` | src/day01.rs:62-130 | the closed-form count, which equals the number of single clicks over all rotations at which the dial reads 0 |
| `Day02.DigitLen` | src/day02.rs:58-67 | the number of decimal digits of n (1 for 0): n < 10^d and 10^(d-1) <= n from 10 up |
| `Day02.DigitLenAsWrittenCorrect` | src/day02.rs:58-67 | the power-table search agrees with the digit count for every n below 10^19 |
| `Day02.DigitLenAsWrittenShort` | src/day02.rs:58-67 | for 10^19, a valid `u64`, the power-table search returns 19 while the number has 20 digits |
| `Day02.ParseRanges` | src/day02.rs:69-148 | `parse_ranges` returns exactly the ranges, or the first error, of the scan specification |
| `Day02.ScanRange` | src/day02.rs:89-145 | one record: a non-digit in the start or end, a checked `u64` overflow, a missing start or end, or start > end is an error; otherwise the range and the index after its terminator |
| `Day02.ParsedRangesValid` | src/day02.rs:141-144 | every parsed range has start <= end < 2^64 |
| `Day02.ParseOfFormat` | src/day02.rs:69-148 | round trip: ranges written as `a-b,` one after another parse back to exactly those ranges |
| `Intervals.MergeRanges` | src/day02.rs:150-169 | merged ranges are sorted, pairwise non-overlapping and non-adjacent (next start > previous end + 1), no more numerous than the input, cover exactly the input's IDs, and a list of at most one range is returned unchanged |
| `Intervals.Sweep` | src/day02.rs:155-168 | the sweep over ranges sorted by start yields normalized ranges with the same union |
| `Intervals.SeparatedOrdered` | src/day02.rs:158-165 | in a merged list every later range starts more than one past the end of every earlier one |
| `Day02Solve.SumRange` | src/day02.rs:182-187 | `count * (lo + hi) / 2` is the sum of the integers lo..hi |
| `Day02Solve.Gauss` | src/day02.rs:182-187 | twice the sum of lo..hi is (hi - lo + 1)(lo + hi) |
| `Day02Solve.RepFactorIsRep` | src/day02.rs:202 | `(10^(d*m) - 1)/(10^d - 1)` is the repunit with m ones spaced d digits apart |
| `Day02Solve.DecomposeBlock` | src/day02.rs:189-213 | `Some((d, L/d))` only when d properly divides L and the L-digit block is some d-digit block repeated L/d times; `None` exactly when the block's digits are not a repetition of any shorter block |
| `Day02Solve.HasDoubleRepresentation` | src/day02.rs:215-231 | true iff L is even and the candidate's L digits are one L/2-digit block (no leading zero) written twice |
| `Repetition.PrimitiveRootUnique` | src/day02.rs:189-213 | a digit string has only one shortest repeating block, so each invalid ID is counted under exactly one (block length, repeats) pair |
| `Repetition.RepeatValue` | src/day02.rs:249-250 | a block repeated m times has the value of the block times the repunit `Rep(|w|, m)` |
| `Repetition.BlockTimesRep` | src/day02.rs:290-291 | a d-digit block b times `Rep(d, m)` writes b's digits m times |
| `Day02Solve.HitIff` | src/day02.rs:288-299 | a candidate is counted under the pair (d, m) exactly when it is invalid, d is the length of its shortest repeating block and d*m its digit count |
| `Day02Solve.BlocksAreHits` | src/day02.rs:258-301 | the blocks between the rounded-up start quotient and the end quotient give exactly the candidates of the range |
| `Day02Solve.KeepOneDigit` | src/day02.rs:277-287 | a one-digit block repeated m times is always counted for part 2, and for part 1 exactly when m is even |
| `Day02Solve.PairsSumIsInvalidSum` | src/day02.rs:233-307 | summing over every visited (block length, repeats) pair counts each invalid ID of each range exactly once, when every end is below 10^digits |
| `Day02Solve.SumsForRanges` | src/day02.rs:233-307 | with the true digit count, the two sums are the part 1 and part 2 invalid-ID sums over the ranges |
| `Day02Solve.SumsForRangesAsWritten` | src/day02.rs:233-307 | with `digit_len` as written, the sums are correct when every end is below 10^19 and otherwise miss every pair whose total length is 20 |
| `Day02Solve.TwentyDigitIdMissed` | src/day02.rs:59-67 | 10000000001000000000 is below 2^64 and invalid under both rules, yet the pairs visited with `digit_len` = 19 sum it to 0 |
| `Day02Solve.InvalidSumIsCoveredSum` | src/day02.rs:26-33 | on merged ranges the per-range sums equal the sum over the union of the ranges |
| `Day02Solve.ParseAndMerge` | src/day02.rs:26-27 | the parse error, or merged ranges below 2^64 that cover exactly the parsed IDs |
| `Day02Solve.Both` | src/day02.rs:26-33 | the parse error, or the sums of the invalid IDs covered by the parsed ranges for both rules (0 for no ranges); the sums use the true digit count, the corrected half of the src/day02.rs:58-67 row under Findings |
| `Day02Solve.Part1` | src/day02.rs:5-12 | the parse error, or the sum of the covered IDs written as a block twice, with the true digit count (the corrected half of the src/day02.rs:58-67 row under Findings) |
| `Day02Solve.Part2` | src/day02.rs:16-23 | the parse error, or the sum of the covered IDs written as a block two or more times, with the true digit count (the corrected half of the src/day02.rs:58-67 row under Findings) |
| `Day03.Pick` | src/day03.rs:26-27 | the digits of a line at increasing positions, in order |
| `Day03.StepInv` | src/day03.rs:225-233 | one push keeps the scan invariant: stack length plus the pops so far equals the digits read, pops happen only while budget remains and the top is smaller than the incoming digit |
| `Day03.PopCount` | src/day03.rs:225-231 | the pops end with the budget spent, the stack empty, or a top at least the incoming digit, and each pop spends one unit of budget |
| `Day03.ScanFrom` | src/day03.rs:213-238 | after the scan the stack holds K plus the unspent budget, and so exactly K after the final trim |
| `Day03.GreedyIsLargest` | src/day03.rs:199-245 | the kept digits form a pick of the line, and no pick of K digits in order has a larger value |
| `Day03.FixedBufferOverflows` | src/day03.rs:3-15 | a line of 129 nines with K = 2 pushes a 129th digit onto a stack of `STACK_CAP` = 128 |
| `Day03.LinePickIsLargest` | src/day03.rs:199-245 | a line fails exactly when it is shorter than K (error naming K and the length) or holds a non-digit (error naming the first one); otherwise the value is the largest number formed by K of its digits in order |
| `Day03.DigitStack.Push` | src/day03.rs:225-233 | pops while budget remains and the top is smaller, then pushes the digit, as one scan step |
| `Day03.DigitStack.Trim` | src/day03.rs:236-238 | drops the unspent budget from the top of the stack |
| `Day03.ReadValue` | src/day03.rs:240-244 | reads the kept digits as a decimal number |
| `Day03.MaxNumberFromLinePick` | src/day03.rs:198-245 | `max_number_from_line_pick` returns the line's specified value or error |
| `Day03.LineBothIsPicks` | src/day03.rs:85-161 | a line passes both picks exactly when it passes the 12-digit pick, and yields both picks' values; lines under 2 characters are reported against 2 |
| `Day03.BothRejectsShortLines` | src/day03.rs:92-107 | a digit line of 2 to 11 characters, which the 2-digit pick accepts, is rejected by `max_numbers_from_line` |
| `Day03.MaxNumbersFromLine` | src/day03.rs:85-161 | `max_numbers_from_line` returns the specified pair or error |
| `Day03.RecordsFrom` | src/day03.rs:168-193 | lines split at `\n` with one trailing `\r` stripped; the input is empty iff there are no lines |
| `Day03.SumPicksFails` | src/day03.rs:176-179 | the sum fails exactly when some non-empty line fails, and then with the first failing line's error |
| `Day03.SolveSinglePick` | src/day03.rs:163-196 | the sum of the per-line picks over the non-empty lines, or the first line's error |
| `Day03.Part1` | src/day03.rs:28-30 | `solve_single_pick` with K = 2 |
| `Day03.Part2` | src/day03.rs:34-36 | `solve_single_pick` with K = 12 |
| `Day03.BothIsParts` | src/day03.rs:39-83 | the single pass succeeds exactly when part 2 does, and then returns the part 1 and part 2 answers |
| `Day03.Both` | src/day03.rs:39-83 | `both` returns the specified pair of sums or the first line error |
| `Day04.ParseGrid` | src/day04.rs:65-134 | `parse_grid` returns exactly the grid or the first error of the byte-by-byte scan specification |
| `Day04.ParseShape` | src/day04.rs:65-134 | a parsed grid has positive width and height, exactly width*height cells, those cells are the input's `.`/`@` bytes in reading order, and every input byte is `.`, `@`, `\n` or `\r` |
| `Day04.ParseRejectsStrangeBytes` | src/day04.rs:100-107 | any byte other than `.`, `@`, `\n`, `\r` makes parsing fail |
| `Day04.ParseEmpty` | src/day04.rs:125-127 | parsing reports an empty input exactly when the input holds nothing but line breaks |
| `Day04.ScanFromFails` | src/day04.rs:72-110 | an error raised while scanning is an invalid byte or an inconsistent width, never the empty-input error |
| `Day04.NeighborCount` | src/day04.rs:136-183 | a floor cell gets 0 and a roll gets the number of rolls among its (at most 8) in-grid neighbours |
| `Day04.NeighborCounts` | src/day04.rs:136-183 | the returned counts have one entry per cell, each the cell's neighbour count |
| `Day04.TotalAt` | src/day04.rs:150-177 | the sum over the three rows around a cell, less the cell itself, is the number of rolls around it |
| `Day04.AroundIsAdjacent` | src/day04.rs:202-227 | the cells the update visits are exactly the in-grid cells adjacent to the removed one |
| `Day04.RemovalCount` | src/day04.rs:186-228 | removing a roll lowers by one the count of each adjacent cell and leaves every other count alone |
| `Day04.UpdateNeighbors` | src/day04.rs:186-228 | each adjacent roll's count drops by one (never below 0), nothing else changes, and the queue grows by exactly the adjacent rolls whose count was 4 |
| `Day04.PushNeighbor` | src/day04.rs:192-202 | a roll's count drops by one unless it is 0 and the roll is queued when its new count is 3; a floor cell is left alone |
| `Day04.RollsSub` | src/day04.rs:30-43 | a subset of the rolls has no more rolls, and strictly fewer when it differs |
| `Day04.Core` | src/day04.rs:17-46 | repeatedly removing every accessible roll ends in a subset of the grid |
| `Day04.CoreStable` | src/day04.rs:17-46 | the rolls left at the end are a subset of the grid and none of them is accessible |
| `Day04.CoreKeeps` | src/day04.rs:17-46 | every stable subset of the grid survives the removals, so what remains is the largest stable subset, whatever the removal order |
| `Day04.PeelKeeps` | src/day04.rs:32-42 | one round of removals keeps every stable subset |
| `Day04.AccessibleRemovable` | src/day04.rs:17-46 | part 2's removal count is at least part 1's accessible count |
| `Day04.NothingAccessible` | src/day04.rs:17-46 | no roll is accessible, and none is removed, exactly when the grid is stable |
| `Day04.QueueAccessible` | src/day04.rs:20-29 | the initial queue holds every accessible roll, and their number is the part 1 count |
| `Day04.RemoveStep` | src/day04.rs:32-43 | removing the head of the queue and updating its neighbours keeps the queue invariant: counts agree with the current rolls, every accessible roll is queued, and the core is never touched |
| `Day04.SkipStep` | src/day04.rs:33-37 | skipping an already removed or no longer accessible queue entry keeps the queue invariant |
| `Day04.PeelingDone` | src/day04.rs:32-44 | when the queue is drained the remaining rolls are the core and the removed count is part 2's answer |
| `Day04.DrainQueue` | src/day04.rs:31-43 | the queue loop leaves exactly the core and returns the number of removed rolls |
| `Day04.Both` | src/day04.rs:17-46 | the parse error, or the number of accessible rolls and the number of rolls removed in the end |
| `Day04.SolvePart1` | src/day04.rs:55-63 | the parse error, or the number of rolls with fewer than four rolls around them |
| `Day04.Part1` | src/day04.rs:5-7 | the parse error, or the number of accessible rolls |
| `Day04.Part2` | src/day04.rs:11-14 | the parse error, or the number of rolls removed in the end |
| `Day05.Pieces` | src/day05.rs:56-93 | the input cut at every `\n` with one trailing `\r` stripped from each line; there is always at least one line |
| `Day05.NumberMeaning` | src/day05.rs:154-170 | `parse_number` succeeds exactly on a non-empty run of digits, with its decimal value; an empty field is a missing-number error and otherwise the first non-digit is reported, with the 1-based line |
| `Day05.NumberOfDecimal` | src/day05.rs:154-170 | round trip: the decimal text of n parses back to n |
| `Day05.ParseNumber` | src/day05.rs:154-170 | the loop computes the number or error of the specification |
| `Day05.RangeOfHyphen` | src/day05.rs:68-81 | a range line without `-` is a missing-hyphen error; otherwise the text before the first `-` and after it are parsed, and a start above the end is an error |
| `Day05.RangeOf` | src/day05.rs:68-81 | a parsed range has start <= end |
| `Day05.RangeOfText` | src/day05.rs:68-81 | round trip: `lo-hi` with lo <= hi parses back to that range |
| `Day05.ParseRangeLine` | src/day05.rs:68-81 | the line's range or error, as specified |
| `Day05.InventoryFrom` | src/day05.rs:56-93 | lines before the first blank one add ranges, lines after it only ids |
| `Day05.InputValid` | src/day05.rs:95-102 | a parsed input has at least one range and at least one id, and every range has start <= end |
| `Day05.RangesValid` | src/day05.rs:146-150 | `parse_ranges` returns at least one range, each with start <= end |
| `Day05.InputRanges` | src/day05.rs:105-151 | whenever `parse_input` succeeds, `parse_ranges` returns the same ranges |
| `Day05.InputRoundTrip` | src/day05.rs:47-151 | round trip: ranges written one per line, a blank line and ids one per line parse back to those ranges and ids under both parsers |
| `Day05.ParseInput` | src/day05.rs:47-103 | the scanning loop returns the inventory or first error of the line-based specification |
| `Day05.InputLine` | src/day05.rs:63-87 | one line: blank switches to ids, otherwise a range or an id is appended or its error returned |
| `Day05.LineAt` | src/day05.rs:58-62 | the line ends before the `\n`, without a trailing `\r` |
| `Day05.ParseRanges` | src/day05.rs:105-151 | the scanning loop returns the ranges before the first blank line, or the first error, or the no-ranges error |
| `Day05.RangesLine` | src/day05.rs:119-138 | a blank line stops the scan; otherwise the line's range is appended or its error returned |
| `Intervals.MergedUnionSize` | src/day05.rs:17-27 | the widths of merged ranges add up to the number of IDs covered by the original ranges |
| `Intervals.WidthIsCoverCount` | src/day05.rs:21-24 | on non-overlapping sorted ranges the sum of `end - start + 1` counts the covered IDs |
| `Intervals.CoveredPermutation` | src/day05.rs:177 | reordering the ranges does not change which IDs they cover |
| `Day05.PartitionPoint` | src/day05.rs:197 | the first index whose range starts above the id: every earlier range starts at or below it |
| `Day05.FreshIffCovered` | src/day05.rs:196-203 | on merged ranges `is_fresh` is true exactly when some range contains the id |
| `Day05.FreshCountIsCovered` | src/day05.rs:8-11 | counting fresh ids against the merged ranges gives the count of ids covered by the original ranges |
| `Day05.CountFresh` | src/day05.rs:8-11 | the loop counts the ids `is_fresh` accepts |
| `Day05.SumWidths` | src/day05.rs:21-24 | the loop sums the range widths |
| `Day05.Part1` | src/day05.rs:4-14 | the parse error, or the number of listed ids inside some fresh range |
| `Day05.Part2` | src/day05.rs:17-27 | the parse error, or the number of distinct IDs covered by the ranges |
| `Day05.Both` | src/day05.rs:30-45 | the parse error, or both counts from one parse |
| `Day06.TrimCRs` | src/day06.rs:77 | the line with every trailing `\r` removed: a prefix of it, not ending in `\r`, followed only by `\r`s |
| `Day06.MaxLen` | src/day06.rs:87 | the length of the longest line, 0 for no lines |
| `Day06.SheetErrors` | src/day06.rs:80-90 | fewer than two lines is the too-few-lines error; otherwise all-empty lines is the empty-input error |
| `Day06.SheetShape` | src/day06.rs:74-99 | every line is padded with spaces to the width of the longest line, which some line attains |
| `Day06.SheetOf` | src/day06.rs:74-99 | an accepted sheet has at least two lines, a positive width and every line of that width |
| `Day06.PadLines` | src/day06.rs:92-96 | each shorter line is extended with spaces to the width |
| `Day06.ParseLines` | src/day06.rs:74-99 | `parse_lines` returns the specified sheet or error |
| `Day06.BlankColumns` | src/day06.rs:101-110 | column c is marked blank exactly when every line has a space there |
| `Day06.BlankScan` | src/day06.rs:102-110 | the loop marks exactly the all-space columns |
| `Day06.SegmentsMaximal` | src/day06.rs:112-130 | the segments are maximal runs of non-blank columns, in ascending order, covering every non-blank column; there are none exactly when every column is blank |
| `Day06.FindSegments` | src/day06.rs:101-136 | the loop returns those segments, or the no-problems error when there are none |
| `Day06.MarksMeaning` | src/day06.rs:145-156 | the positions collected are exactly the non-space columns of the segment, in increasing order |
| `Day06.OperatorOfMeaning` | src/day06.rs:138-159 | the missing-operator error exactly when the segment of the last line is all spaces; the operator is c exactly when c is the only non-space there |
| `Day06.OperatorForSegment` | src/day06.rs:138-159 | the loop returns the specified operator or error, a second non-space being the multiple-operators error |
| `Day06.LeftEdge` | src/day06.rs:169-172 | the first non-space column of the segment, or its end |
| `Day06.RightEdge` | src/day06.rs:173-176 | one past the last non-space column at or after the left edge |
| `Day06.RowNumberOfPadded` | src/day06.rs:162-196 | round trip: a decimal number surrounded by spaces is read back as that number |
| `Day06.RowDigitsOnly` | src/day06.rs:184-194 | a row that reads as a number has only spaces and digits in the segment |
| `Day06.ParseRowNumber` | src/day06.rs:162-196 | the loop returns the trimmed digits' value, the missing-number error for an all-space segment, or the first non-digit |
| `Day06.ScanIsNumber` | src/day06.rs:39-57 | reading a column top to bottom, skipping spaces, gives the decimal value of its digits, none when there are none, or the first non-digit with its 1-based row and column |
| `Day06.ColumnValue` | src/day06.rs:39-57 | the column loop returns the specified value or error |
| `Day06.ColumnsNeverFail` | src/day06.rs:46-54 | once every row of a segment has read as a number, no column of it can hit a non-digit |
| `Day06.CombineMeaning` | src/day06.rs:27-34 | `+` sums the values and any other operator multiplies them, starting from 0 and 1 |
| `Day06.RowResult` | src/day06.rs:27-35 | the row answer of a problem: the operator applied to every row's number, or the first row error |
| `Day06.ColResult` | src/day06.rs:37-65 | the column answer: the operator applied to the columns' numbers right to left, skipping empty columns, or the first column error |
| `Day06.ProblemResult` | src/day06.rs:24-68 | a problem's two answers, or its operator, row or column error |
| `Day06.SumProblems` | src/day06.rs:24-69 | the sums of both answers over the problems in order, stopping at the first failing problem |
| `Day06.Both` | src/day06.rs:16-72 | `both` returns the specified pair of grand totals or the first error |
| `Day06.Part1` | src/day06.rs:4-7 | the row-wise grand total, or the error |
| `Day06.Part2` | src/day06.rs:10-13 | the column-wise grand total, or the error |
| `Day07.RowsOf` | src/day07.rs:67-71 | one row per input line, with a single trailing `\r` removed |
| `Day07.HasStartMeaning` | src/day07.rs:89-99 | a start has been seen among the first n rows exactly when one of them contains `S` |
| `Day07.StartFound` | src/day07.rs:89 | the position found is the first `S` of the row, and there is one exactly when the row contains `S` |
| `Day07.FeedMeaning` | src/day07.rs:67-102 | one row is accepted exactly when it is non-empty, as wide as the first row and holds no second start; it is then appended and its first `S` becomes the start |
| `Day07.FeedErrors` | src/day07.rs:72-96 | a row's error names its 1-based line: empty line, width against the first row's, or a second start at the 1-based column of its first `S` |
| `Day07.ScanMeaning` | src/day07.rs:67-102 | the scan over the first n rows succeeds exactly when those rows are non-empty, of one width and hold at most one `S` row |
| `Day07.ScanErrorMeaning` | src/day07.rs:67-102 | a scan error is reported on the first row that breaks those rules, and says how it breaks them |
| `Day07.ParseGridMeaning` | src/day07.rs:61-106 | `parse_grid` succeeds exactly on well-formed rows, returns them, and its start is the first `S` of the only row that holds one |
| `Day07.ParseGridMissing` | src/day07.rs:104 | the missing-start error exactly when the rows are well-formed but none holds `S` |
| `Day07.ParseGridErrors` | src/day07.rs:61-106 | any other error is raised on the first row that breaks the rules |
| `Day07.ParseGrid` | src/day07.rs:61-106 | a parsed grid is rectangular, non-empty, with the start inside it |
| `Day07.ParseGridInput` | src/day07.rs:61-106 | `parse_grid` returns the specified grid or error: the scanned rows and the start, or "missing starting position" when no row holds an `S` |
| `Day07.ScanLines` | src/day07.rs:67-102 | the line loop returns the scan of every line, or the error of the first line that is rejected |
| `Day07.FeedLine` | src/day07.rs:68-101 | one line, less a trailing `\r`, is rejected when empty, when its width differs from the first row's, or when it holds a second `S`; otherwise it is appended and the first row's width is kept |
| `Day07.AddAt` | src/day07.rs:43-52 | adds `count` to one column of the next row's beam counts and leaves the others alone |
| `Day07.StepMeaning` | src/day07.rs:31-55 | one row: a beam count on a splitter moves to both neighbouring columns (dropped at the walls), any other count falls straight down; the hits are the distinct splitter columns reached, the timelines added are the counts reaching splitters, and beams are conserved up to wall losses |
| `Day07.StepConserves` | src/day07.rs:32-54 | after the first n columns the beams placed plus those lost at the walls equal the beams read plus the splits |
| `Day07.RunHits` | src/day07.rs:30-56 | the splitter count grows by the number of distinct (row, column) splitters that a beam reaches |
| `Day07.RunTimelines` | src/day07.rs:30-56 | the timeline count grows by the beams arriving at splitters, and the beams left plus those lost at the walls are the beams started plus those splits |
| `Day07.SimulateMeaning` | src/day07.rs:21-59 | part 1 is the number of splitter cells reached by some beam below the start; part 2 is 1 plus the beams reaching splitters, which equals the beams in the bottom row plus those lost at the walls |
| `Day07.SimulateIgnoresAbove` | src/day07.rs:30 | rows above and on the start row do not affect the answers |
| `Day07.Spread` | src/day07.rs:33-53 | one column of the loop updates the next counts and both totals as specified |
| `Day07.StepRow` | src/day07.rs:31-55 | the column loop computes the next row's beam counts, the splitters hit and the timelines added |
| `Day07.SimulateRows` | src/day07.rs:21-59 | the row loop, swapping the two count buffers, returns both answers of the specification |
| `Day07.SimulateInput` | src/day07.rs:21-59 | `simulate` returns the parse error or both answers |
| `Day07.Both` | src/day07.rs:16-19 | the parse error or both answers |
| `Day07.Part1` | src/day07.rs:4-7 | the parse error or the number of splitters reached |
| `Day07.Part2` | src/day07.rs:10-13 | the parse error or the number of timelines |
| `Day08.ParseInt` | src/day08.rs:248-277 | an optional `-` then at least one digit: the signed value and the index after the digits; end of input or a non-digit first is an error |
| `Day08.ReadCoord` | src/day08.rs:248-277 | round trip: a written coordinate, followed by a non-digit or the end, reads back as its value |
| `Day08.ParseLine` | src/day08.rs:221-239 | three integers separated by commas, then the rest of the line up to and including `\n`, `\r\n` or a lone `\r` |
| `Day08.ReadLine` | src/day08.rs:221-239 | round trip: a written point line reads back as the point, ending after its line break |
| `Day08.PointsOfRender` | src/day08.rs:202-245 | round trip: any mix of blank lines and point lines parses back to exactly the points, in order |
| `Day08.MissingComma` | src/day08.rs:280-286 | a coordinate followed by anything but a comma or more digits is the invalid-format error |
| `Day08.ParseIntAt` | src/day08.rs:248-277 | the loop returns the specified integer or error |
| `Day08.SkipBreaksFrom` | src/day08.rs:209-216 | skips every `\n` and `\r` before the next line |
| `Day08.SkipLine` | src/day08.rs:227-239 | skips to just after the line break |
| `Day08.ParseLineAt` | src/day08.rs:221-239 | reads one point line as specified |
| `Day08.ParsePoints` | src/day08.rs:202-245 | `parse_points` returns the specified points or the first error |
| `Day08Edges.Dist` | src/day08.rs:185-188 | the squared distance computed on 64 bits and read as unsigned: the true value modulo 2^64 |
| `Day08Edges.Wrap` | src/day08.rs:188 | a value reduced into 0..2^64, unchanged when already there |
| `Day08Edges.EdgeListLength` | src/day08.rs:176 | there are n(n-1)/2 edges |
| `Day08Edges.EdgeListAt` | src/day08.rs:180-197 | the pair (a, b) with a < b sits at row offset `Offset(n, a) + (b - a - 1)` with its distance |
| `Day08Edges.EdgeListShape` | src/day08.rs:180-197 | every edge joins two distinct points a < b with their distance |
| `Day08Edges.AllEndsIncreasing` | src/day08.rs:181-183 | the pairs are listed in lexicographic order, so each appears once |
| `Day08Edges.OffsetClosed` | src/day08.rs:176 | the number of pairs before row i is i(2n - i - 1)/2 |
| `Day08Edges.PairTotal` | src/day08.rs:176 | `n * (n - 1) / 2` is the number of pairs |
| `Day08Edges.BuildEdges` | src/day08.rs:174-200 | the buffer holds exactly the specified edge list |
| `Day08Edges.FillRow` | src/day08.rs:183-197 | the inner loop appends the edges from point i to every later point |
| `Day08Radix.PassPermutation` | src/day08.rs:135-142 | one counting pass rearranges the edges without losing or adding any |
| `Day08Radix.PassSorted` | src/day08.rs:114-146 | a pass on the next 16-bit digit of edges sorted on the lower bits leaves them sorted on the lower bits plus that digit, since the pass is stable |
| `Day08Radix.CountDigits` | src/day08.rs:115-120 | `counts[d]` is the number of edges whose current digit is d |
| `Day08Radix.PrefixSums` | src/day08.rs:122-127 | `offsets[d]` is the number of edges whose digit is below d |
| `Day08Radix.Scatter` | src/day08.rs:135-142 | each edge is written at its digit's next free slot, giving the stable pass in the destination and nothing else changed |
| `Day08Radix.CountingPass` | src/day08.rs:114-146 | counting, prefix sums and scattering together write one stable pass into the destination |
| `Day08Radix.RadixRound` | src/day08.rs:114-146 | one round reads whichever buffer holds the data and writes the pass into the other |
| `Day08Radix.ProgressDone` | src/day08.rs:114-146 | after four 16-bit passes 64-bit distances are sorted |
| `Day08Radix.RadixSort` | src/day08.rs:98-151 | the run ends sorted by distance, a permutation of the run, with everything outside the run unchanged |
| `Day08Circuits.Find` | src/day08.rs:289-303 | returns the root of x's tree and points every node on the path straight at it, keeping every tree and every other parent |
| `Day08Circuits.Link` | src/day08.rs:317-320 | one root becomes a child of the other, whose size becomes the sum of both |
| `Day08Circuits.Union` | src/day08.rs:306-322 | true exactly when a and b were in different circuits; then the two circuits become one, the smaller root (the second on a tie) hangs under the larger, whose size is the sum |
| `Day08Circuits.MergeJoins` | src/day08.rs:306-322 | after joining, two nodes share a circuit exactly when they did before or each was in a's or b's circuit |
| `Day08Circuits.MergeClassCount` | src/day08.rs:58-59 | joining two different circuits lowers the circuit count by one |
| `Day08Circuits.OneClass` | src/day08.rs:60 | one circuit is left exactly when every node shares a root |
| `Day08Circuits.ForestRepresentatives` | src/day08.rs:157 | a node is a root exactly when it names its own circuit |
| `Day08Circuits.RootSizesTotal` | src/day08.rs:154-171 | the roots' sizes add up to the number of nodes |
| `Day08Circuits.TopCounts` | src/day08.rs:154-171 | the top three are in descending order and, for every size v, as many of them are at least v as there are circuits (up to three) of size at least v |
| `Day08Circuits.TopThree` | src/day08.rs:154-172 | the loop computes that top three |
| `Day08Circuits.ForestTop` | src/day08.rs:154-172 | the top three of the forest's roots are the top three circuit sizes |
| `Day08Solve.ConnectingSome` | src/day08.rs:58-64 | the edge found for part 2 is the one whose join takes the circuits from two to one |
| `Day08Solve.ConnectingNone` | src/day08.rs:93 | with two or more points and no such edge, at least two circuits remain |
| `Day08Solve.ConnectingExtends` | src/day08.rs:60 | once found, the connecting edge does not change when more edges follow |
| `Day08Solve.EdgeListValid` | src/day08.rs:174-200 | every listed edge joins points a < b < n with a 64-bit distance |
| `Day08Solve.SelectSmallest` | src/day08.rs:53 | the selection keeps the processed prefix, permutes the rest and puts no edge longer than any later one among the first `take` |
| `Day08Solve.ChunkStep` | src/day08.rs:47-54 | selecting then sorting a chunk extends the sorted prefix, which stays no longer than any later edge |
| `Day08Solve.PrepareChunk` | src/day08.rs:47-54 | the next chunk is selected and sorted in place, the edge list staying a permutation |
| `Day08Solve.JoinEdge` | src/day08.rs:57-65 | one edge joins its two circuits, counts one circuit less when it does, and records the X product of the first edge that leaves one circuit |
| `Day08Solve.RunChunk` | src/day08.rs:56-74 | the chunk's edges are joined in order; part 1's top three is taken after exactly `limit` edges; the loop stops early only when both answers are known |
| `Day08Solve.Round` | src/day08.rs:46-86 | one round of the chunk loop keeps the invariant relating the forest to the edges processed in sorted order |
| `Day08Solve.FinishOrder` | src/day08.rs:88-94 | the processed edges followed by the rest in sorted order are all the edges, in nondecreasing distance |
| `Day08Solve.AnswerOfPrefix` | src/day08.rs:88-94 | answers known after a prefix of the edges are the answers for the whole order |
| `Day08Solve.Connect` | src/day08.rs:32-94 | for some nondecreasing ordering of all the edges, the result is the product of the three largest circuits after `min(limit, #edges)` edges (0 for none) and the X product of the connecting edge, or the never-connected error |
| `Day08Solve.SolveWithLimit` | src/day08.rs:25-95 | the parse error, the no-points error, or those answers for the parsed points |
| `Day08Solve.Both` | src/day08.rs:14-16 | `solve_with_limit` with 1000 pairs |
| `Day08Solve.Part1` | src/day08.rs:4-6 | the three-circuit product after 1000 pairs, or the error of `both` |
| `Day08Solve.Part2` | src/day08.rs:10-12 | the X product of the connecting pair, or the error of `both` |
| `Day09.ParseTileLine` | src/day09.rs:52-69 | two integers separated by a comma, then the rest of the line up to and including its break |
| `Day09.ReadTileLine` | src/day09.rs:52-69 | round trip: a written `x,y` line reads back as that tile |
| `Day09.TilesOfText` | src/day09.rs:32-75 | round trip: any mix of blank lines and `x,y` lines parses back to exactly those tiles, in order |
| `Day09.CrlfExample` | src/day09.rs:375-379 | `1,2\r\n\r\n-3,4\n` parses to the tiles (1, 2) and (-3, 4) |
| `Day09.ParseTileLineAt` | src/day09.rs:52-69 | reads one tile line as specified |
| `Day09.ParseTiles` | src/day09.rs:32-75 | `parse_points` returns the specified tiles or the first error |
| `Day09.MaxAreaAny` | src/day09.rs:80-100 | no pair of tiles spans a larger rectangle (both sides counted inclusively) and, with two or more tiles, some pair spans exactly that area; 0 with fewer than two |
| `Day09.ScanRow` | src/day09.rs:89-97 | the inner loop keeps the maximum over every pair seen so far |
| `Day09.LargestPositive` | src/day09.rs:80-100 | with two tiles or more the answer is at least 1 and is the area of some pair |
| `Day09Cover.LowerBound` | src/day09.rs:302-304 | the first index whose value is not below the target; every earlier value is below it |
| `Day09Cover.LowerBoundSorted` | src/day09.rs:302-304 | on sorted values it is the number of values below the target |
| `Day09Cover.LowerBoundBetween` | src/day09.rs:302-304 | on strictly increasing values, index k lies between the bounds of lo and hi exactly when lo <= v[k] < hi |
| `Day09Cover.AxisCell` | src/day09.rs:115-126 | after sorting and dedup, every tile coordinate t and t + 1 are both cut points and t's cell is one compressed unit wide |
| `Day09Cover.TileColumn` | src/day09.rs:245-246 | a tile's X coordinate has its own compressed column, whose right edge is x + 1 |
| `Day09Cover.TileRow` | src/day09.rs:247-248 | a tile's Y coordinate has its own compressed row, whose lower edge is y + 1 |
| `Day09Cover.Axes` | src/day09.rs:115-126 | the cut points of both axes: the sorted distinct values of t and t + 1 over the tiles |
| `Day09Cover.CrossesMeaning` | src/day09.rs:137-149 | a row records a crossing of edge k exactly when the edge is vertical and the row's top lies in [min y, max y) |
| `Day09Cover.LiesOnMeaning` | src/day09.rs:150-157 | a row records edge k as a span exactly when the edge is horizontal and lies on that row's top |
| `Day09Cover.AddCrossing` | src/day09.rs:147-149 | the X coordinate is appended to exactly the rows from start to end |
| `Day09Cover.ScanEdge` | src/day09.rs:135-157 | one loop edge, from tile k to the next (wrapping), adds its crossings or its span |
| `Day09Cover.Scan` | src/day09.rs:134-158 | after every edge each row holds its crossings and spans, in edge order |
| `Day09Cover.PairsProper` | src/day09.rs:168-171 | sorted crossings paired two by two give spans with start <= end |
| `Day09Cover.PushPairs` | src/day09.rs:169-171 | appends the crossing pairs to the row's spans |
| `Day09Cover.MergeSpans` | src/day09.rs:172-185 | the merged spans are sorted, separated and cover exactly the same X values |
| `Day09Cover.ResolveRow` | src/day09.rs:163-186 | one row: crossings sorted and paired, added to its spans, sorted by start and merged |
| `Day09Cover.Resolve` | src/day09.rs:161-187 | fails exactly when some row has an odd number of crossings; otherwise every row is resolved |
| `Day09Cover.OddRows` | src/day09.rs:165-167 | a row with an odd crossing count exists exactly when the loop, read from the tiles, has one |
| `Day09Cover.PaintedMeaning` | src/day09.rs:190-199 | a compressed cell is painted exactly when a merged span covers its left edge |
| `Day09Cover.PaintRange` | src/day09.rs:195-197 | marks the cells from start to end and keeps the rest |
| `Day09Cover.PaintRow` | src/day09.rs:191-198 | a row's painted cells are those some span covers |
| `Day09Cover.Paint` | src/day09.rs:189-199 | the green grid of the whole loop, row by row |
| `Day09Cover.BlockStep` | src/day09.rs:216-221 | the prefix recurrence: a + b - c plus the cell's area when green |
| `Day09Cover.PrefixCell` | src/day09.rs:208-222 | one cell of the prefix table is filled with the green area up to it |
| `Day09Cover.PrefixSums` | src/day09.rs:201-223 | every entry of the table is the green area of the cells above and left of it |
| `Day09Cover.BuildCoverage` | src/day09.rs:110-231 | fewer than three tiles is an error, an odd crossing count is an error, otherwise the axes and the prefix table of the loop's green cells |
| `Day09Fits.BoxOfBlocks` | src/day09.rs:286-290 | four table entries combine to the green area of a box of cells |
| `Day09Fits.BoxFull` | src/day09.rs:290-292 | a box's green area is at most its full area, and equal exactly when every cell in it is green |
| `Day09Fits.PairBox` | src/day09.rs:273-283 | the box chosen for two tiles has the same area as their rectangle |
| `Day09Fits.FitsMeaning` | src/day09.rs:285-292 | the prefix test accepts a pair exactly when every compressed cell of its rectangle is green |
| `Day09Cover.PairGreen` | src/day09.rs:286-290 | the four lookups give the green area of the pair's rectangle |
| `Day09Cover.Indices` | src/day09.rs:243-250 | each tile's four axis indices |
| `Day09Cover.FitRow` | src/day09.rs:260-295 | the inner loop keeps the maximum over the fitting pairs seen so far |
| `Day09Cover.MaxAreaWithinGreen` | src/day09.rs:236-299 | the largest area among pairs whose rectangle is all green, attained by such a pair, 0 when none |
| `Day09Cover.WithinAtMostAny` | src/day09.rs:236-299 | part 2's answer never exceeds part 1's |
| `Day09Cover.Part1` | src/day09.rs:4-10 | the parse error, the need-two error for fewer than two tiles, or the largest rectangle |
| `Day09Cover.Part2` | src/day09.rs:13-17 | the parse error, the need-three error, the odd-crossings error exactly when a scanline crosses the loop an odd number of times, or the largest all-green rectangle |
| `Day09Cover.Both` | src/day09.rs:20-29 | both answers from one parse, with every error case of the parts |
| `Day10.MaskValueInjective` | src/day10.rs:589-590 | two button masks below 16 bits have the same `u16` value exactly when they light the same counters, so sorting and `dedup` by value compare buttons correctly |
| `Day10.SortedMasksMeaning` | src/day10.rs:589 | the sorted button list is strictly increasing by mask value and holds exactly the buttons read |
| `Day10.DedupMeaning` | src/day10.rs:590 | dropping adjacent repeats from a sorted list leaves a strictly increasing list with the same members and the same first element |
| `Day10.LightsMaskMeaning` | src/day10.rs:525-533 | light j of the target is on iff some `#` between `[` and `]` sits at an offset congruent to j mod 16 |
| `Day10.LightsMaskBits` | src/day10.rs:525-533 | for a diagram of at most 16 lights, light j is on exactly when the j-th character of the diagram is `#` |
| `Day10.ReadDigitsSpan` | src/day10.rs:550-553 | a digit run is read up to the first non-digit or the end of the input |
| `Day10.ButtonMaskMeaning` | src/day10.rs:546-558 | a button lights counter j iff some number in its parentheses equals j mod 16, the shift amount wrapping as `1 << val` on `u16` does in a release build |
| `Day10.NextButtonStop` | src/day10.rs:538-540 | the scan for the next button stops at `(`, `{`, `\n` or the end of the input |
| `Day10.ButtonMask` | src/day10.rs:546-558 | the scan of one button ends at its `)` or the end of the input, and keeps the mask within 16 bits |
| `Day10.ButtonsFrom` | src/day10.rs:536-565 | the button list ends at `{`, a line break or the end of the input, and every mask in it is within 16 bits |
| `Day10.JoltagesFrom` | src/day10.rs:575-587 | the joltage list ends at `}` or the end of the input |
| `Day10.NextMachine` | src/day10.rs:516-597 | a machine read from index i, if any, ends strictly after i, so the parse always advances |
| `Day10.ParseMachines` | src/day10.rs:510-601 | `parse` never fails and returns the machines of the specification: text before `[` skipped, the search for `{` running on past the line break (a line without `{` takes the joltages of the next one, whose machine is lost), a machine with no `{` before the end of the input dropped, buttons sorted and deduplicated, empty buttons left out |
| `Day10.ReadMachine` | src/day10.rs:516-597 | one pass of the outer loop reads the next machine as specified, or nothing when no `[` or `{` follows |
| `Day10.ReadLights` | src/day10.rs:525-534 | the light diagram scan stops at `]` and yields the light count and the target mask |
| `Day10.ReadButtons` | src/day10.rs:536-565 | the button loop yields the specified button list and stop index |
| `Day10.ReadMask` | src/day10.rs:546-564 | one button's loop yields the specified mask and the index after `)` |
| `Day10.ReadJoltages` | src/day10.rs:575-587 | the joltage loop yields the specified targets and the index of `}` |
| `Day10.ReadNumber` | src/day10.rs:549-553 | reading a digit run into a wrapping integer gives the run's decimal value mod the integer's range (`u16` for joltages) |
| `Day10Lights.MinPresses` | src/day10.rs:64-167 | for a solvable machine, the least number of distinct buttons whose presses toggle exactly the target lights |
| `Day10Lights.FewestUnique` | src/day10.rs:64-167 | the fewest presses of a machine is a single number |
| `Day10Lights.NothingToToggle` | src/day10.rs:65-67 | with no light to turn on, zero presses suffice and are the fewest |
| `Day10Lights.NoButtonsUnsolvable` | src/day10.rs:68-71 | with a light to turn on and no buttons, no set of presses works |
| `Day10Lights.MatrixSolves` | src/day10.rs:73-82 | a set of buttons solves the machine iff it solves the light-by-button matrix over GF(2) |
| `Day10Lights.SwapSolves` | src/day10.rs:97-101 | swapping two rows together with their target bits keeps the solutions |
| `Day10Lights.XorSolves` | src/day10.rs:105-113 | adding the pivot row to the rows with a bit in the pivot column, and the pivot's target bit to theirs, keeps the solutions |
| `Day10Lights.PivotEquivalent` | src/day10.rs:97-113 | one pivot step (swap, then clear the column) keeps the system equivalent to the original one |
| `Day10Lights.XorEchelon` | src/day10.rs:105-117 | after a pivot step the pivot column is cleared in every other row and the rows below the pivots stay zero in the columns done so far |
| `Day10Lights.EchelonEmptyRows` | src/day10.rs:84-119 | after elimination every row below the rank is empty |
| `Day10Lights.BuildMatrix` | src/day10.rs:73-82 | row l of the matrix holds exactly the buttons that toggle light l |
| `Day10Lights.AddButton` | src/day10.rs:75-81 | entering button `idx` adds its bit to exactly the rows of the lights it toggles |
| `Day10Lights.FindPivot` | src/day10.rs:89-95 | the first row at or after the rank holding the column, or n when none does |
| `Day10Lights.Eliminate` | src/day10.rs:84-119 | elimination ends in reduced echelon form, equivalent to the original system, with as many pivot columns as the rank |
| `Day10Lights.PivotOn` | src/day10.rs:97-113 | the rows and target after one pivot step are the swap then the clearing of the column |
| `Day10Lights.FreeColumns` | src/day10.rs:121-131 | the free columns, in increasing order, are exactly the button columns without a pivot |
| `Day10Lights.PivotRows` | src/day10.rs:133-140 | each pivot row's lowest set bit and the rest of the row |
| `Day10Lights.LeastMeaning` | src/day10.rs:143-164 | the running minimum is at most every cost and is one of them |
| `Day10Lights.FreeChoice` | src/day10.rs:144-150 | the bits of `free_bits` select the free columns it names |
| `Day10Lights.BackSubstitute` | src/day10.rs:152-159 | back substitution from the last pivot row up sets each pivot button whose row parity is odd |
| `Day10Lights.Cheapest` | src/day10.rs:142-164 | the loop over every free-bit pattern returns the least button count among the candidates |
| `Day10Lights.EveryChoice` | src/day10.rs:142-150 | every subset of the free columns is selected by some pattern below 2^free |
| `Day10Lights.CandidatePresses` | src/day10.rs:142-160 | on a solvable machine every candidate built from a pattern solves it |
| `Day10Lights.PressesAreCandidates` | src/day10.rs:142-160 | every solution is the candidate of some pattern |
| `Day10Lights.SearchIsFewest` | src/day10.rs:142-166 | on a solvable machine the least candidate cost is the fewest presses |
| `Day10Lights.SearchBound` | src/day10.rs:142-166 | the least candidate cost never exceeds the number of buttons |
| `Day10Lights.SolveLights` | src/day10.rs:64-167 | 0 with no light on; `u32::MAX` with no buttons; otherwise at most the button count, and the fewest presses whenever the machine is solvable |
| `Day10Joltage.Gcd` | src/day10.rs:497-504 | a positive common divisor of both arguments which, unless both are 0, every common divisor divides |
| `Day10Joltage.BoundSound` | src/day10.rs:182-193 | in any solution a button is pressed at most as often as the smallest target of the counters it feeds |
| `Day10Joltage.InitialMeaning` | src/day10.rs:182-196 | a press vector satisfies the augmented matrix exactly when every counter receives its target |
| `Day10Joltage.BuildSystem` | src/day10.rs:182-196 | the matrix built is the specified augmented system, and each bound is the least target among the button's counters |
| `Day10Reduce.LinHolds` | src/day10.rs:220-223 | for a vector satisfying the pivot row, the combined row is satisfied exactly when the old one is |
| `Day10Reduce.DotScale` | src/day10.rs:235-238 | dividing a row by a common divisor of its entries divides its value at every vector by it |
| `Day10Reduce.ReduceRow` | src/day10.rs:220-239 | the cross-multiplied row divided by the gcd of its entries: a step that keeps the solutions, clears the column, and leaves a primitive row when one entry is non-zero |
| `Day10Reduce.RowGcd` | src/day10.rs:224-234 | the gcd of the row's entries, stopping early at 1, where the row is then primitive |
| `Day10Reduce.SwapSolutions` | src/day10.rs:212 | swapping two rows keeps the solutions |
| `Day10Reduce.ClearSolutions` | src/day10.rs:216-240 | clearing a column against a non-zero pivot keeps the solutions |
| `Day10Reduce.ReducedPivot` | src/day10.rs:202-242 | a pivot step extends the reduced form by one pivot column |
| `Day10Reduce.FindPivot` | src/day10.rs:203-209 | the first row at or after the pivot row with a non-zero entry in the column, or none |
| `Day10Reduce.ClearColumn` | src/day10.rs:216-240 | every other row among the first n becomes its reduced combination with the pivot row; the pivot row and the rows past n are unchanged |
| `Day10Reduce.Eliminate` | src/day10.rs:198-245 | the final matrix is in reduced form with the recorded pivot columns and has the same solutions as the initial one |
| `Day10Backsub.PivotValue` | src/day10.rs:466-481 | the pivot variable's value times the pivot equals the row's right side minus the free terms, or none when the pivot does not divide it |
| `Day10Backsub.EvalOutcome` | src/day10.rs:462-493 | `eval_fast` returns the total of the free and pivot values when every pivot value is a whole number within its bound and the total stays below `best`, else none |
| `Day10Backsub.EvalFast` | src/day10.rs:454-494 | the loop computes that specified outcome |
| `Day10Backsub.NonPivots` | src/day10.rs:248-260 | the non-pivot columns below k in increasing order |
| `Day10Backsub.CollectFree` | src/day10.rs:248-260 | the columns left without a pivot |
| `Day10Backsub.ColToFree` | src/day10.rs:278-282 | each free column maps to its index among the free columns and every other column to `u8::MAX` |
| `Day10Backsub.BuildBacksub` | src/day10.rs:284-315 | `u32::MAX` exactly when some pivot row has a non-zero entry in a column that is neither its pivot nor free; otherwise one table row per pivot row holding its pivot, right side, bound and free terms |
| `Day10Backsub.NoStrayEntry` | src/day10.rs:294-299 | after a full elimination that early return cannot happen |
| `Day10Complete.SolutionCost` | src/day10.rs:284-315 | any non-negative solution within the bounds is reached by the back-substitution table from its own free values, at its total presses |
| `Day10Complete.CostSolution` | src/day10.rs:454-494 | every free-value choice the table accepts completes to a non-negative solution whose total is the accepted cost |
| `Sorting.SortByStable` | src/day10.rs:261 | the sort is stable like `sort_by_key`: on input in increasing rank, elements of equal key come out in increasing rank |
| `Day10Search.SortFree` | src/day10.rs:248-261 | the free columns, each once, ordered by bound, with columns of equal bound in increasing column order |
| `Day10Search.Search0` | src/day10.rs:327-331 | with no free variable, the single evaluation is the answer and covers the whole box |
| `Day10Search.Search1` | src/day10.rs:332-343 | with one free variable: `u32::MAX` or an accepted cost, and, when there is a pivot row, at most every accepted cost over 0..bound |
| `Day10Search.Search2` | src/day10.rs:344-363 | with two free variables: `u32::MAX` or an accepted cost, and, when there is a pivot row, at most every accepted cost in the box of bounds |
| `Day10Search.Search3` | src/day10.rs:364-394 | with three free variables: `u32::MAX` or an accepted cost, and, when there is a pivot row, at most every accepted cost in the box of bounds |
| `Day10Search.SearchDeep` | src/day10.rs:395-447 | the depth-first search terminates with `u32::MAX` or the cost of a point of the box the table accepts |
| `Day10Search.ZeroJoltages` | src/day10.rs:174-176 | with all targets 0, zero presses is the fewest |
| `Day10Search.NoButtons` | src/day10.rs:177-180 | with a non-zero target and no buttons the equations have no solution |
| `Day10Search.Optimal` | src/day10.rs:326-394 | a search that covers the box returns at most the total of every solution |
| `Day10Search.AnswerSound` | src/day10.rs:317-450 | a result other than `u32::MAX` on consistent equations is the total of some solution |
| `Day10Search.SolveJoltage` | src/day10.rs:173-451 | returns the answer and the number of free buttons: 0 for all-zero targets; `u32::MAX` with no buttons; otherwise a real solution's total or `u32::MAX`, and, when the equations have an integer solution, every button names a counter below n, there are n targets and at most three columns are free, the fewest total presses, `u32::MAX` exactly when no non-negative solution exists |
| `Day10Search.Part1` | src/day10.rs:14-24 | the sum of every parsed machine's `solve_lights` answer |
| `Day10Search.Part2` | src/day10.rs:26-36 | the sum of every parsed machine's `solve_joltage` answer |
| `Day10Search.Both` | src/day10.rs:38-48 | both sums in one pass over the machines |
| `Day10Search.EvalStep` | src/day10.rs:454-494 | an answer is the point's total and below best (or, with no pivot rows, the free total); no answer means the point's total, if any, is not below best |
| `Day11.ClassifyMeaning` | src/day11.rs:102-121 | a trimmed line is skipped iff it is empty, rejected with "Invalid line format" iff it is non-empty without a colon, and otherwise read as the trimmed name before its first colon and the whitespace-separated words after it |
| `Day11.EntriesErrorMeaning` | src/day11.rs:102-122 | the first pass fails exactly when some line is rejected |
| `Day11.EntriesSnoc` | src/day11.rs:102-122 | one more line leaves a failure as it is, skips a blank line, fails on a line without a colon and otherwise appends the line's entry |
| `Day11.EntriesPrefix` | src/day11.rs:128-144 | on input the first pass accepts, the entries of the first k lines are a prefix of all entries |
| `Day11.EntriesFailFrom` | src/day11.rs:108 | a rejected line fails the whole parse with "Invalid line format" |
| `Day11.InitialProper` | src/day11.rs:90-99 | `out`, `you`, `svr`, `dac` and `fft` start with the ids 0 to 4 and the next id is 5 |
| `Day11.InternStep` | src/day11.rs:111-120 | interning a name keeps every id given so far; a new name gets the next id and the next id grows by one |
| `Day11.InternAllMeaning` | src/day11.rs:102-122 | interning a list of names gives every one of them an id, keeps the old ids and adds no other name |
| `Day11.FirstSeen` | src/day11.rs:111-120 | a name gets the id that was next when it was first seen |
| `Day11.InternAllAppend` | src/day11.rs:102-122 | interning two lists one after the other is interning their concatenation |
| `Day11.TableMeaning` | src/day11.rs:89-124 | the final table keeps the five fixed ids, numbers exactly the special and mentioned names from 0 to next - 1, and has at least five nodes |
| `Day11.TableKnows` | src/day11.rs:134-141 | every name of every line has an id, so the lookups of the second pass never miss |
| `Day11.LookupAt` | src/day11.rs:138-141 | the target list holds the id of each target word, in order |
| `Day11.AdjMeaning` | src/day11.rs:124-146 | a node no line names has no outputs; otherwise its outputs are the targets of the last line naming it, in order |
| `Day11.OverwriteStep` | src/day11.rs:143 | one line replaces its source's list and leaves every other list as it was |
| `Day11.AdjBounded` | src/day11.rs:124-146 | every output id is a node of the graph |
| `Day11.GraphShape` | src/day11.rs:89-147 | a parsed graph has at least the five special nodes and no dangling output |
| `Day11.SplitLine` | src/day11.rs:103-109 | one line is blank, rejected, or split into the specified source and words |
| `Day11.CollectNames` | src/day11.rs:101-122 | the first pass yields the name table of the entries, or the first line's error |
| `Day11.InternEntry` | src/day11.rs:111-121 | interning one line's names extends the table as the specification does |
| `Day11.InternWords` | src/day11.rs:116-121 | interning the target words extends the table as the specification does |
| `Day11.FillAdjacency` | src/day11.rs:124-144 | the second pass builds exactly the specified adjacency lists |
| `Day11.FillLine` | src/day11.rs:128-144 | one line of the second pass keeps the lists equal to those of the lines read so far |
| `Day11.ParseGraph` | src/day11.rs:89-147 | `parse_graph` returns the specified graph, or "Invalid line format" for the first line without a colon |
| `Day11.PathsIndependent` | src/day11.rs:67-87 | the recursive count does not depend on which termination witness is used |
| `Day11.PathCountIs` | src/day11.rs:67-87 | any termination witness gives the path count |
| `Day11.RoutesMeaning` | src/day11.rs:67-87 | the count from a node equals the number of distinct output choices that lead from it to the target without passing the forbidden node, stopping at the first arrival |
| `Day11.PathCountMeaning` | src/day11.rs:67-87 | `count_paths_to` counts exactly the routes from the start to the target that avoid the forbidden node |
| `Day11.CountPathsTo` | src/day11.rs:66-87 | the memoised walk returns the node's count and leaves every filled memo entry equal to its node's count |
| `Day11.Count` | src/day11.rs:18-19 | a walk with a fresh memo returns the path count |
| `Day11.CountPathsThroughBoth` | src/day11.rs:40-64 | the sum over the two orders of the products of the three segment counts, the first segment avoiding the other special node; when `out` has no outputs this is the number of routes from `svr` to `out` that pass through both `dac` and `fft` |
| `Day11.CountsUnique` | src/day11.rs:22-23 | the number of routes through both `dac` and `fft` is unique: two counts of the same routes agree |
| `Day11.RoutePrefixFree` | src/day11.rs:67-87 | no route to the target extends another, since a route stops at its first arrival |
| `Day11.RouteList` | src/day11.rs:67-87 | the routes counted by `count_paths_to` listed each once: the list has the path count as length and holds exactly the routes |
| `Day11.JoinRoutes` | src/day11.rs:44-51 | a route to the middle node that avoids the target, followed by a route from the middle node to a target without outputs, is a route to that target |
| `Day11.SplitFirst` | src/day11.rs:44-51 | a route that visits a node splits there, at its first visit, into a route to that node and a route on from it |
| `Day11.TermList` | src/day11.rs:44-51 | the three segment lists of one order, and their joined walks each once, as many as the product of the three segment counts |
| `Day11.TermsMember` | src/day11.rs:40-64 | with `out` without outputs, a joined walk of either order is a route through both special nodes, every such route is a joined walk of one order, and no walk belongs to both orders |
| `Day11.ThroughBothMeaning` | src/day11.rs:22-64 | when `out` has no outputs, the part 2 answer is exactly the number of routes from `svr` to `out` through both `dac` and `fft` |
| `Day11.CutRoute` | src/day11.rs:67-87 | dropping the outputs of `out` changes neither the routes to `out` nor the nodes they visit |
| `Day11.ThroughBothCutMeaning` | src/day11.rs:22-64 | the count on the graph without the outputs of `out` is the number of routes from `svr` to `out` through both `dac` and `fft`, and equals the source's answer when `out` has no outputs |
| `Day11.ThroughBothOvercounts` | src/day11.rs:40-64 | on the graph "svr: out", "out: dac", "dac: fft", "fft: out" the source's answer is 1, while the only route from `svr` to `out` is the direct one, which meets neither `dac` nor `fft`; the corrected count is 0 |
| `Day11.LoopBackCounts` | src/day11.rs:40-64 | on the graph "svr: out", "out: dac", "dac: fft", "fft: out" every walk terminates and the source's part 2 answer is 1 |
| `Day11.LoopBackRoutes` | src/day11.rs:67-87 | on that graph the only route from `svr` to `out` is the direct one, which does not meet `dac` |
| `Day11.CountCorrected` | src/day11.rs:22-26 | the corrected count on a parsed graph: the number of routes from `svr` to `out` through both `dac` and `fft`, equal to the source's answer when `out` has no outputs |
| `Day11.Part1` | src/day11.rs:16-20 | the parse error, or the number of paths from `you` to `out` |
| `Day11.Part2` | src/day11.rs:23-26 | the parse error, or the number of routes from `svr` to `out` through both `dac` and `fft`, the corrected half of the src/day11.rs:40-64 row under Findings; equal to the source's answer when `out` has no outputs |
| `Day11.Both` | src/day11.rs:28-38 | the parse error, or the number of paths from `you` to `out` and the corrected part 2 count, as for `Day11.Part2` |
| `Day12.Unplaceable` | src/day12.rs:97-101 | a region that needs a present of a shape with no placement on its board cannot be packed |
| `Day12.TooLarge` | src/day12.rs:51-54 | a region whose presents cover more cells than its board cannot be packed |
| `Day12.NothingToPlace` | src/day12.rs:56-59 | a region with no presents can always be packed |
| `Day12.SearchOrder` | src/day12.rs:103-104 | the search order lists every shape index |
| `Day12.BuildAll` | src/day12.rs:88-95 | the placement list of every shape and the shapes' areas |
| `Day12.FindUnplaceable` | src/day12.rs:97-101 | a shape that is needed yet has no placement, or none exists |
| `Day12.SearchDecides` | src/day12.rs:106-118 | the depth-first search from the empty board succeeds exactly when the presents can be packed with the placements |
| `Day12.CanFitExact` | src/day12.rs:75-119 | `can_fit_exact` answers true exactly when the region's presents can all be put on the board, each in one of its orientations and none overlapping |
| `Day12.SearchPlacements` | src/day12.rs:97-118 | the search answer is true exactly when a packing exists |
| `Day12.MaxDimsMeaning` | src/day12.rs:221-225 | the fold gives the largest orientation width and height of any shape |
| `Day12.DimsFit` | src/day12.rs:221-225 | for parsed shapes both maxima are at least 1 and bound every shape |
| `Day12.TotalZero` | src/day12.rs:56-59 | the present total is 0 exactly when every count is 0 |
| `Day12Region.SlotsSuffice` | src/day12.rs:61-64 | when there are no more presents than `max_w` x `max_h` boxes on the board, the presents can be packed one to a box |
| `Day12.CanFit` | src/day12.rs:45-67 | `can_fit` answers true exactly when the presents can be packed; the area test and the box count are shortcuts that never change the answer |
| `Day12.Passing` | src/day12.rs:36-40 | the count of regions that can be packed is at most the number of regions |
| `Day12.CountPassing` | src/day12.rs:36-40 | the loop over the regions counts exactly those whose presents can be packed |
| `Day12.Part1` | src/day12.rs:27-43 | the parse error, or the number of regions whose presents can all be put on their board |
| `Day12Parse.ParseUsize` | src/day12.rs:327-336 | a `usize` parse yields a value below 2^64, or none |
| `Day12Parse.ParseUsizeDecimal` | src/day12.rs:327-336 | the decimal text of every `usize` parses back to it |
| `Day12Parse.RegionLineFormat` | src/day12.rs:313-339 | round trip: a region written as `WxH: c1 c2 ...` is read back by `parse_region_line` as the same region |
| `Day12Parse.RegionLineParts` | src/day12.rs:313-339 | a trimmed line with one colon, one `x`, two numbers before the colon and counts after it is the region they name |
| `Day12Parse.CountsParse` | src/day12.rs:333-336 | the counts are read word by word, each word a `usize` |
| `Day12Parse.GridFromMeaning` | src/day12.rs:249-264 | a shape's rows are the lines after the header up to a blank line (consumed), a region line or another header (both left for the next step) |
| `Day12Parse.EntriesFromMeaning` | src/day12.rs:231-270 | the shape entries, each with at least one row, end at the first region line or the end of the input |
| `Day12Parse.AssignFromMeaning` | src/day12.rs:279-284 | shapes land at their indices, a repeated index is an error, and every filled slot holds its entry's parsed shape |
| `Day12Parse.CollectFromMeaning` | src/day12.rs:286-290 | the slots are collected in order, and the first empty slot is reported as the missing index |
| `Day12Parse.TableMeaning` | src/day12.rs:276-290 | the shape table has max index + 1 entries, each the parsed grid of the one entry with that index |
| `Day12Parse.ShapesOfMeaning` | src/day12.rs:272-290 | on success the table is non-empty, numbered without gaps or repeats, and every shape in it is well formed |
| `Day12Parse.ClassifyRegion` | src/day12.rs:237-238 | a line counts as a region line exactly when `parse_region_line` reads it, and then as that region |
| `Day12Parse.RegionsFromMeaning` | src/day12.rs:292-308 | the regions after the shapes are the region lines in order; a region whose count list differs in length from the shape table is an error naming both lengths, and other lines are skipped |
| `Day12Parse.ParseMeaning` | src/day12.rs:227-311 | a successful parse has at least one well-formed shape and one count per shape in every region |
| `Day12Parse.ReadRows` | src/day12.rs:249-264 | the row loop reads the specified shape rows |
| `Day12Parse.ReadEntries` | src/day12.rs:231-270 | the header loop reads the specified entries or the first header error |
| `Day12Parse.AssignShapes` | src/day12.rs:276-284 | the table fill loop yields the specified slots or error |
| `Day12Parse.CollectShapes` | src/day12.rs:286-290 | the collection yields the specified shapes or the missing index |
| `Day12Parse.ReadRegions` | src/day12.rs:292-308 | the region loop yields the specified regions or the count mismatch |
| `Day12Parse.ParseInput` | src/day12.rs:227-311 | `parse` returns the specified shapes and regions, or the first error |
| `Day12Grid.FlipFlip` | src/day12.rs:433-437 | flipping twice gives back the grid |
| `Day12Grid.FlipCells` | src/day12.rs:433-437 | the cell (r, c) is filled after the flip iff (r, width - 1 - c) was filled before |
| `Day12Grid.FlipCount` | src/day12.rs:433-437 | flipping keeps the number of filled cells |
| `Day12Grid.RotateFour` | src/day12.rs:421-431 | four quarter turns give back the grid |
| `Day12Grid.RotatedCells` | src/day12.rs:421-431 | the cell (r, c) moves to (c, height - 1 - r), and every filled cell of the turned grid comes from one of the grid |
| `Day12Grid.RotatedCount` | src/day12.rs:421-431 | a quarter turn keeps the number of filled cells |
| `Day12Grid.Rotate` | src/day12.rs:421-431 | `rotate` builds the quarter turn |
| `Day12Grid.TrimMeaning` | src/day12.rs:439-488 | the trimmed box holds every filled cell, and on a grid with a filled cell its outer rows and columns are not empty |
| `Day12Grid.TrimmedCells` | src/day12.rs:439-488 | trimming moves the filled cells to the box's corner and keeps their number |
| `Day12Grid.Trim` | src/day12.rs:439-488 | `trim_grid` builds the specified trimmed grid |
| `Day12Grid.EncodeDecode` | src/day12.rs:490-501 | the `#`/`.` text with `/` between rows decodes back to the grid |
| `Day12Grid.EncodeInjective` | src/day12.rs:490-501 | two non-empty grids have the same text only if they are equal, so the seen set removes exactly repeated orientations |
| `Day12Grid.CellListMeaning` | src/day12.rs:389-396 | the cell list holds exactly the filled cells, in reading order |
| `Day12Grid.CollectCells` | src/day12.rs:389-396 | the loop builds that cell list |
| `Day12Grid.MaxWidthMeaning` | src/day12.rs:397 | the width maximum is at least every orientation's width and is one of them |
| `Day12Grid.MaxHeightMeaning` | src/day12.rs:398 | the height maximum is at least every orientation's height and is one of them |
| `Day12Grid.DistinctMeaning` | src/day12.rs:384-386 | keeping the first of each encoding keeps only candidates, every candidate's encoding and no encoding twice |
| `Day12Grid.OrientationsMeaning` | src/day12.rs:371-411 | a shape has one to eight pairwise distinct orientations, each with as many cells as the shape in reading order, at least 1 x 1 and framed by its width and height |
| `Day12Grid.GridMeaning` | src/day12.rs:347-366 | the rows are read when every line has the first line's width and only `#` or `.`; otherwise the error is the width mismatch or the first bad character's |
| `Day12Grid.ShapeMeaning` | src/day12.rs:341-419 | "Shape rows were empty" exactly when there is no row or the first is empty; on success the area is the filled cell count and the orientations those of the grid; "no orientations" never happens |
| `Day12Grid.ParseShape` | src/day12.rs:341-419 | `parse_shape` returns the specified shape or error |
| `Day12Grid.ReadGrid` | src/day12.rs:347-366 | the row loop reads the specified grid and counts its filled cells |
| `Day12Grid.CollectOrientations` | src/day12.rs:371-407 | the rotation and flip loops collect the specified orientations and their maximum width and height |
| `Day12Bits.OverlapsMeaning` | src/day12.rs:180-182 | two masks overlap exactly when they share a cell |
| `Day12Bits.XorRestores` | src/day12.rs:184-194 | removing a mask by xor after adding it by or restores the occupancy, when the mask did not overlap it |
| `Day12Bits.SpreadDisjoint` | src/day12.rs:180-182 | the cell sets of two word lists are disjoint exactly when every pair of words is |
| `Day12Bits.ApplyMask` | src/day12.rs:184-188 | the occupancy words become their or with the mask |
| `Day12Bits.RemoveMask` | src/day12.rs:190-194 | the occupancy words become their xor with the mask |
| `Day12Place.MaskCells` | src/day12.rs:204-210 | the mask of a placement has exactly the board cells `row * width + col` covered by the orientation at (x, y) |
| `Day12Place.BuildMask` | src/day12.rs:204-210 | the loop builds that mask |
| `Day12Place.BuildPlacements` | src/day12.rs:196-219 | one placement per orientation that fits and per position on the board, in the source's order |
| `Day12Place.AddRows` | src/day12.rs:202-216 | the positions of one orientation, row by row |
| `Day12Place.PlaceOne` | src/day12.rs:204-214 | the placement at one position |
| `Day12Place.ShapeAt` | src/day12.rs:196-219 | every position where an orientation fits on the board gives a placement in the list |
| `Day12Place.AtFits` | src/day12.rs:204-214 | a placement's mask lies on the board and covers as many cells as the shape's area |
| `Day12Place.ParsedWellFormed` | src/day12.rs:341-419 | a parsed shape has positive area, at least one orientation, maxima that match, and orientations with the shape's cell count |
| `Day12Pack.FirstPendingMeaning` | src/day12.rs:138-147 | the first shape in the order with a present still to place, or none when every count is 0 |
| `Day12Pack.FindPending` | src/day12.rs:138-144 | the loop finds that shape |
| `Day12Pack.DfsPack` | src/day12.rs:121-178 | `dfs_pack` answers the search specification and, when it fails, leaves the counts and the occupancy as they were |
| `Day12Pack.Place` | src/day12.rs:150-175 | one placement tried: the search from the board with it added, undone on failure |
| `Day12Pack.SearchSound` | src/day12.rs:121-178 | a successful search comes with a packing of the remaining presents on the free cells |
| `Day12Pack.SearchComplete` | src/day12.rs:121-178 | whenever the remaining presents can be packed on the free cells, the search succeeds, so the area prune and the fixed choice of the next shape lose no packing |
| `Day12Pack.PackedArea` | src/day12.rs:134-136 | a packing never needs more cells than the board has free |
| `Day12Region.AllFit` | src/day12.rs:196-219 | every placement of every parsed shape lies on the board, has the board's word count and covers its shape's area |
| `Day12Region.BoxedPacks` | src/day12.rs:61-64 | presents placed in distinct boxes never overlap |
| `Day12Region.SlotPlacement` | src/day12.rs:61-64 | every shape has a placement inside any `max_w` x `max_h` box of the board |
| `Day12Region.SlotPacking` | src/day12.rs:61-64 | one present per distinct box is a packing of the region's counts |

## Left out

- Reading the input files, the `include_str!` input statics, `main.rs`, `lib.rs`, the benchmark harness, `part1_puzzle` and the puzzle-input runs are not part of this model; each day is modelled from its input text onward.
- Parallel execution: the rayon branches of day 10 (src/day10.rs:16-19, 28-31, 50-58) compute the same sums as the sequential loops, which are the ones modelled.
- Input bytes are modelled as characters; non-ASCII input and UTF-8 boundaries are not modelled.
- `get_unchecked` reads and writes are modelled as ordinary indexing; the preconditions that keep them in bounds are proved where the source guarantees them, and stated as `requires` where the source relies on its caller.
- `sort_unstable` and `select_nth_unstable` leave the order of equal elements unspecified; day 8's answers are stated for some nondecreasing order of the edges, which the model keeps as a ghost output.
- Day01.Part2: the `u64` distance and the `u16` position are unbounded integers; a distance of 2^64 or more, which would wrap, is not modelled.
- Day01.Turn: a direction other than `R` or `L` leaves the dial where it is (as the source's `add`/`sub` do); for the zero count of part 2 the source treats it as `L`, and the model does the same.
- Day02Solve.Both: the `u128` sums and the `+ 1` of the merge on a range ending at `u64::MAX` are unbounded; sums at or above 2^128 do not wrap in the model.
- Day03.Both: the `u64` totals are unbounded; a total at or above 2^64 is not modelled.
- Day03.DigitStack.Reserve: the stack grows past `STACK_CAP` = 128 instead of writing past the fixed buffer; the overflow itself is shown by `Day03.FixedBufferOverflows` (see Findings).
- Day05.NumberMeaning: `parse_number` multiplies in `u64` without a check (src/day05.rs:167), so a number of 2^64 or more wraps in a release build; the model reads the true value.
- Day05.Part2: `merge_ranges`'s `current.1 + 1` and the `end - start + 1` sums (src/day05.rs:23, 41) are unbounded, so a range ending at `u64::MAX` does not overflow in the model.
- Day06.Part1: the `u128` operands, products and totals are unbounded.
- Day07.Part2: the `u128` timeline counts are unbounded.
- Day08.ParseInt: the `i32` coordinates are read as unbounded integers; a coordinate outside the `i32` range, which would wrap, is not modelled. The squared distance does wrap modulo 2^64 (`Day08Edges.Wrap`), and so does the part 2 product.
- Day08Solve.Part1: the point indices, `u16` in the edge buffer, are unbounded, so inputs of more than 65536 points are not limited.
- Day09Cover.Part1: the rectangle areas, the `p[0] + 1` cut and the `u64` prefix sums are unbounded integers.
- Day10Lights.SolveLights: requires at most 16 lights and fewer than 16 buttons, since `1u16 << 16` overflows; with an inconsistent zero row, only an answer of at most the button count is claimed.
- Day10.ReadMachine: the shift amount of `1 << val` is taken modulo 16 as in a release build, joltages wrap as `u16`, and the search for `{` runs on past the line break, so a line without `{` takes its joltages from the next line and that line's machine is lost; only a machine with no `{` before the end of the input is dropped. All of this is as the source does.
- Day10Search.SolveJoltage: the fewest presses is proved only for consistent equations with at most three free buttons; with four or more, the depth-first search's answer is proved to be a real solution's total but not the least one. The search keeps a level's value when it prunes on `partial >= best` (src/day10.rs:417-427), so minimality is not evident from the code.
- Day10Search.SolveJoltage: requires at most 16 buttons and at most 16 lights, and so do Day10Search.Part2 and Day10Search.Both of every parsed machine; the source sizes `bounds` for 16 buttons and `mat` for 16 rows, so a 17th button panics at `bounds[col]` (src/day10.rs:189) and a 17th light at `mat[row]` (src/day10.rs:195), and those panics are not modelled.
- Day10Search.SolveJoltage: the `i32` products of the elimination are unbounded integers; a product outside the `i32` range is not modelled. It requires that every button names a counter below the counter count, because the source reads the targets unchecked.
- Day11.Part1: requires that no cycle is reachable from the start, since the source's walk would otherwise recurse without end; the `u64` path sums are unbounded, and the `u16` limit on node ids is not modelled.
- Day11.ThroughBothMeaning: requires fewer than 65535 nodes, so that the `u16::MAX` used for "no forbidden node" is no node of the graph; the source's `u16` ids cannot tell them apart beyond that, and `Day11.Part2` and `Day11.Both` claim the route count only under the same limit.
- Day12Grid.CellList: the cells of an orientation are exact `nat` offsets, and so are those of Day12Grid.CollectCells; the source stores them as `(r as u8, c as u8)` (src/day12.rs:393), so in a trimmed shape 257 or more rows or columns long an offset of 256 or more would wrap and change the placement masks built at src/day12.rs:204-210. That wrap-around is not modelled.
- Day12.Part1: the `shapes.is_empty()` branch is unreachable after a successful parse (a parse yields at least one shape), so it has no member of its own; the `usize` products of board sizes are unbounded.
- Example answers: only `Day09.CrlfExample` proves a sample input's answer; the sample answers of the other days (day 1: 3 and 6, day 2: 1227775554 and 4174379265, day 3: 357 and 3121910778619, day 4: 13 and 43, day 5: 3 and 14, day 6: 4277556 and 3263827, day 7: 21 and 40, day 8: 40 and 25272, day 9: 50 and 24, day 10: 7 and 33, day 11: 5 and 2, day 12: 2) are not proved, because evaluating the whole pipeline on them is beyond what the verifier unfolds.

## Findings

| source | as written | input that shows it | evidently intended | confidence | as-written member | corrected member |
|---|---|---|---|---|---|---|
| src/day02.rs:58-67 | `digit_len` searches a table whose last power is 10^19 and returns 19 for every n of 10^19 or more | the range `10000000001000000000-10000000001000000000` (below 2^64): its ID is the block 1000000000 written twice, yet no (block length, repeats) pair with total length 20 is visited, so the ID adds 0 to both sums | n of 10^19 or more has 20 digits, and the ID is counted | not executed | `Day02Solve.SumsForRangesAsWritten`, `Day02Solve.TwentyDigitIdMissed`, `Day02.DigitLenAsWrittenShort` | `Day02Solve.SumsForRanges` |
| src/day11.rs:40-64 | the three segment counts of each order are multiplied, and the first or middle segment may pass through `out` and continue past it when `out` has outputs, so a joined walk can visit `out` before it ends | the graph "svr: out", "out: dac", "dac: fft", "fft: out": `svr` to `dac` avoiding `fft` counts the walk svr, out, dac, so the answer is 1, yet the only route from `svr` to `out` is svr, out, which meets neither `dac` nor `fft` | count only routes that stop at `out`, which is the product count on the graph without the outputs of `out` | not executed | `Day11.ThroughBothOvercounts`, `Day11.CountPathsThroughBoth` | `Day11.ThroughBothCutMeaning`, `Day11.CountCorrected` |
| src/day03.rs:3-15 | `DigitStack` holds `STACK_CAP` = 128 digits and pushes with an unchecked write | a line of 129 nines with K = 2: no digit is ever popped, so the 129th push writes past the buffer | a stack sized to the line, or a length check | not executed | `Day03.FixedBufferOverflows` | `Day03.MaxNumberFromLinePick` |
