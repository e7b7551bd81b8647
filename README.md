# Advent of Code 2025 puzzle solvers (Go), days 1 to 6, in Dafny

This project models the puzzle solvers of the repository
`DaneLyttinen/advent-of-code-2025`, one Dafny module per day, and proves what
each solver computes:

- **Day 1** (`Dial`, `day01.dfy`): a dial of 100 positions starts at 50. Each
  line `L<n>` or `R<n>` turns it `n` clicks. The solver counts every click
  that lands on 0, using `n / 100` for the full turns and walking the rest.
  The model proves that this shortcut counts exactly the zeros of the full
  walk. It also gives the count a closed form, `(n + offset) / 100`.
- **Day 2, brute force** (`BruteForce`, `day02_main.dfy`): lines of
  comma-separated `start-end` ranges. The answer is the sum of the "invalid"
  numbers in them, meaning numbers whose decimal text is a block repeated at
  least twice. `isValid` uses the rotation test: `s` occurs inside `(s+s)`
  with its first and last characters removed. `Periodic` (`periodic.dfy`)
  proves that this test holds exactly for proper powers.
- **Day 2, closed-form engine** (`PeriodicEngine`, `BatchEngine`,
  `day02_engine.dfy`, `day02_batch.dfy`): `sumValidInRangeMath`,
  `sumValidExtreme` and `batchProcessRanges`. For each digit length and each
  proper divisor `p` of it, they enumerate the bases `b` with `b * K` in the
  range, where `K = 1 0..01 0..01` repeats a 1 every `p` digits. They
  deduplicate values that several periods produce, with a map or with the
  two-tier `addToSum` accumulator (bitmap plus map). Each engine is proved to
  return the sum of the set of periodic numbers of at most ten digits in
  its ranges. The brute force adds range by range, and so do the benchmark's
  per-range totals of `sumValidInRangeMath` and `sumValidExtreme`: for
  ranges ending below 10^10 those totals equal the brute-force answer.
  `batchProcessRanges` sums the union of the ranges instead, so it never
  exceeds the per-range total, and equals it when the ranges are pairwise
  disjoint; for the range 11-11 listed twice it gives 11 against 22.
- **Day 3** (`Joltage`, `day03.dfy`): `findMaxKDigits` picks `k` digits of a
  line, in order, greedily. It is proved to return the value of some pick
  and a value at least that of every pick.
- **Day 4** (`PaperRolls`, `day04.dfy`): each pass removes in place every
  `@` with fewer than four `@` neighbours. Passes repeat until one removes
  nothing. The model proves that the result is stable (every remaining `@`
  has at least four neighbours), that only `@` cells were changed, and that
  the printed count is the number of cells removed.
- **Day 5** (`FreshRanges`, `day05.dfy`): ranges before the first blank line
  are collected, sorted by start and merged. The printed total is proved to
  be the number of integers the ranges cover.
- **Day 6** (`Worksheet`, `day06.dfy`): a worksheet of four number rows and
  one operator row is scanned right to left, column by column. A blank column
  closes a problem; the problem's numbers are added or multiplied, and the
  result is added to the grand total. The model proves that the grand total
  is the sum of the values of the problems the scan closes, plus the problem
  still open at the end. It also proves that no number read is lost or
  counted twice.

Shared modules hold the Go library behaviour the solvers rely on:

- `GoStrings` (`go_strings.dfy`): `strings.TrimSpace`, `strings.Split`,
  `strconv.Itoa`, and the short-input path of `strconv.Atoi`, which yields 0
  on error because the solvers discard the error.
- `GoInt` (`go_int.dfy`): Go's truncating `/` and `%`.
- `Decimal` (`decimal.dfy`): decimal digit strings.
- `SetSum` (`set_sum.dfy`): the sum of a finite set of integers.
- `Wrappers` (`option.dfy`): `Option`.

Go's integers are 64-bit. The model's integers are unbounded, so it models
runs in which no value the result depends on overflows. Input reading is
replaced by parameters: a sequence of lines, or the ranges themselves.

## Model

| member | source | states |
|---|---|---|
| Periodic.IsValid | day02/main.go:11-15 | the rotation test accepts a number exactly when its decimal text is a block repeated at least twice |
| Periodic.RotationTest | day02/main.go:14 | for a non-empty string, s occurs in (s+s) without its first and last characters if and only if s is a proper power |
| Periodic.NotValidBelowTen | day02/main.go:11-15 | every number below 10, negative numbers included, fails the test |
| Periodic.RepUnitClosedForm | day02/ai_generated_optimized.go:101 | the multiplier K with p-digit blocks repeated r times satisfies K * (10^p - 1) == 10^(pr) - 1 |
| Periodic.BlockTimesRepUnit | day02/ai_generated_optimized.go:116-117 | for a p-digit base b, b * K is written as b's digits repeated r times, has p*r digits and has period p |
| Periodic.RepeatedIsBlockTimesRepUnit | day02/ai_generated_optimized.go:116-117 | every number of p*r digits with period p is its leading p-digit block times K |
| GoStrings.TrimSpaceTrims | day02/main.go:34 | TrimSpace leaves no white space at either end, is empty exactly when the line is all white space, and keeps only characters of the line |
| GoStrings.JoinSplit | day02/main.go:38-40 | joining the pieces of Split with the separator gives back the string |
| GoStrings.SplitJoined | day02/main.go:40 | a piece without the separator followed by the separator splits off as the first piece |
| GoStrings.AtoiItoa | day02/main.go:45-46 | Atoi reads back what Itoa writes |
| GoStrings.Atoi | day05/main.go:33-34 | text without '-' never reads as a negative number |
| Decimal.ValueOfDigits | day02/main.go:12 | the digits Itoa writes for n denote n |
| Decimal.DigitsOfValue | day02/main.go:12 | a digit string without a leading zero is the text of its own value |
| PeriodicEngine.NumDigitsIsLength | day02/ai_generated_optimized.go:485-514 | numDigits is 1 for negative inputs, and otherwise the decimal length capped at 10 |
| PeriodicEngine.Pow10TableCorrect | day02/ai_generated_optimized.go:91 | the table of powers holds 10^0 .. 10^10 |
| PeriodicEngine.IntPow | day02/ai_generated_optimized.go:477-483 | the loop returns base^exp, and 1 for exp <= 0 |
| PeriodicEngine.IntPowFast | day02/ai_generated_optimized.go:462-475 | square-and-multiply returns base^exp, and 1 for exp <= 0 |
| PeriodicEngine.Multiplier | day02/ai_generated_optimized.go:101 | (10^(pr) - 1) divides exactly by 10^p - 1, and the quotient is the repunit K |
| PeriodicEngine.ClampExact | day02/ai_generated_optimized.go:106-114 | after clamping, low <= b <= high holds exactly for the block bases b whose b * K lies in the range |
| PeriodicEngine.MultiplesAreHits | day02/ai_generated_optimized.go:99-122 | the values b * K the base loop visits are exactly the numbers in the range with that length and period |
| PeriodicEngine.CoveredNextPeriod | day02/ai_generated_optimized.go:94-97 | moving to the next period adds exactly that period's hits, and nothing when it does not divide the length |
| PeriodicEngine.CoveredEnd | day02/ai_generated_optimized.go:85-93 | enumerating lengths from numDigits(start) to numDigits(end) reaches every periodic number of at most ten digits in the range |
| PeriodicEngine.SumValidInRangeMath | day02/ai_generated_optimized.go:84-127 | the result is the sum of the distinct periodic numbers of at most ten digits in start..end |
| PeriodicEngine.OfferPeriodToSet | day02/ai_generated_optimized.go:99-122 | one (length, p) step adds that step's hits to the seen set, and the sum stays the sum of the seen set |
| PeriodicEngine.Accumulator.constructor | day02/ai_generated_optimized.go:136-140 | the accumulator starts empty, with a zero sum and an all-clear bitmap |
| PeriodicEngine.Accumulator.Add | day02/ai_generated_optimized.go:379-396 | addToSum adds val to the sum exactly when val was not yet recorded, in whichever tier holds it, and records it |
| PeriodicEngine.OfferBases | day02/ai_generated_optimized.go:367-370 | the base loop records exactly the values b * K for low <= b <= high |
| PeriodicEngine.OfferPeriod | day02/ai_generated_optimized.go:180-201 | one period block of sumValidExtreme records exactly that period's hits in the range |
| PeriodicEngine.UnrolledBlock | day02/ai_generated_optimized.go:158-178 | an unrolled block whose guard holds exactly for proper divisors moves the enumeration on by one period |
| PeriodicEngine.ShortBlocks | day02/ai_generated_optimized.go:158-201 | the blocks for p = 1 and 2 cover periods 1 and 2 of the length |
| PeriodicEngine.MiddleBlocks | day02/ai_generated_optimized.go:203-269 | the blocks for p = 3, 4 and 5 cover periods 3 to 5 of the length |
| PeriodicEngine.UnrolledPeriods | day02/ai_generated_optimized.go:156-269 | the unrolled blocks cover periods 1 to 5 of the length |
| PeriodicEngine.LongPeriods | day02/ai_generated_optimized.go:271-371 | the loop over periods from 6 on covers the remaining periods, completing the length |
| PeriodicEngine.LongPeriodConstants | day02/ai_generated_optimized.go:278-355 | the switches give 10^p, 10^(p-1) and 10^p - 1 for every period |
| PeriodicEngine.PowerConstants | day02/ai_generated_optimized.go:301-354 | the switches' default arms compute 10^p, 10^(p-1) and 10^p - 1 by intPowFast |
| PeriodicEngine.SumValidExtreme | day02/ai_generated_optimized.go:130-375 | the result is the sum of the distinct periodic numbers of at most ten digits in start..end |
| BatchEngine.GlobalBounds | day02/ai_generated_optimized.go:400-410 | globalMin and globalMax are the least start and the greatest end of the ranges |
| BatchEngine.BatchPeriod | day02/ai_generated_optimized.go:427-454 | one (length, p) pass over all ranges records exactly the union of that period's hits in the ranges |
| BatchEngine.BatchLength | day02/ai_generated_optimized.go:422-455 | one length completes the enumeration of every period of that length |
| BatchEngine.BatchProcessRanges | day02/ai_generated_optimized.go:399-459 | the result is the sum of the distinct periodic numbers of at most ten digits lying in any of the ranges, each counted once |
| BatchEngine.MathTotal | day02/ai_generated_optimized.go:21-25 | summing sumValidInRangeMath over the ranges gives the per-range total |
| BatchEngine.ExtremeTotal | day02/ai_generated_optimized.go:29-33 | summing sumValidExtreme over the ranges gives the per-range total |
| BatchEngine.PeriodicInSnoc | day02/ai_generated_optimized.go:435 | the periodic numbers of a list of ranges are the union over its ranges |
| BatchEngine.BatchAtMostPerRange | day02/ai_generated_optimized.go:21-38 | the batch sum never exceeds the per-range sums, and equals them when the ranges are pairwise disjoint |
| BatchEngine.OverlapCountsOnce | day02/ai_generated_optimized.go:21-38 | for two copies of 11-11 the batch sum is 11 while the per-range total is 22 |
| BruteForce.ParseToken | day02/main.go:40-46 | a piece parses exactly when it splits into two parts around '-', and both bounds are then non-negative |
| BruteForce.ParseFormatted | day02/main.go:40-46 | the piece Itoa(a) + "-" + Itoa(b) parses back to the range a..b |
| BruteForce.TokenRangesNonNegative | day02/main.go:40-46 | every parsed bound is non-negative |
| BruteForce.SumValidBruteForce | day02/main.go:48-52 | the inner loop sums exactly the valid integers of start..end |
| BruteForce.ValidSumStep | day02/main.go:48-52 | one more integer adds itself when valid and nothing otherwise |
| BruteForce.LineTotal | day02/main.go:34-53 | one line adds the sums of its parsed ranges, and nothing when it is blank |
| BruteForce.Day02Total | day02/main.go:30-54 | the total is the sum over all parsed ranges of all lines of their valid integers |
| BruteForce.BruteTotalAppend | day02/main.go:32-54 | the total over two runs of ranges is the sum of their totals |
| BruteForce.ValidSetIsPeriodicIn | day02/main.go:48-52 | below 10^10 the valid integers of a range are exactly the engine's periodic numbers in it |
| BruteForce.BruteTotalIsPerRangeTotal | day02/ai_generated_optimized.go:21-25 | below 10^10 the brute-force total equals the engine's per-range total |
| Dial.Click | day01/main.go:35-46 | one click moves the dial one place left or right, wrapping between 0 and 99 |
| Dial.WalkClosedForm | day01/main.go:35-46 | k clicks land on (pos - k) mod 100 or (pos + k) mod 100 |
| Dial.LandsOnZero | day01/main.go:48-50 | the k-th click lands on 0 exactly when k + offset is a multiple of 100 |
| Dial.ZerosClosedForm | day01/main.go:35-51 | the zeros met in k clicks number (k + offset) / 100 |
| Dial.ShortcutIsFullWalk | day01/main.go:32-51 | counting turns / 100 and walking turns % 100 gives the position and the zero count of the full walk |
| Dial.ApplyIsFullWalk | day01/main.go:25-51 | for a non-negative count of turns, a line moves the dial exactly that many clicks and counts every zero on the way |
| Dial.RunInRange | day01/main.go:21-52 | the dial always stays within 0..99 |
| Dial.CountGrows | day01/main.go:30-51 | a line without '-' never lowers the count |
| Dial.Turn | day01/main.go:25-51 | one line of the loop updates position and count as the line's step says |
| Dial.Day01 | day01/main.go:21-53 | the printed count is the count after all lines |
| Joltage.DigitOf | day03/main.go:24 | a digit byte gives its digit; any byte gives a value in 0..255 |
| Joltage.MaxInWindow | day03/main.go:20-29 | the inner loop finds the leftmost greatest digit of the window, or 0 at the window's start when it is empty |
| Joltage.GreedyAdvance | day03/main.go:16-33 | taking the leftmost greatest digit keeps the greedy prefix at least as large as every pick's prefix |
| Joltage.GreedyDone | day03/main.go:16-35 | after k rounds the greedy positions form a pick that no pick beats |
| Joltage.FindMaxKDigits | day03/main.go:10-36 | the result is 0 for k <= 0 and has at most k digits; for a digit line with k <= its length, it is the value of some pick and at least that of every pick |
| PaperRolls.DirectionsAreKingMoves | day04/main.go:21-30 | the eight offsets are exactly the king moves, each once |
| PaperRolls.CountNeighbours | day04/main.go:41-54 | the direction loop counts the neighbouring '@' cells, skipping those out of bounds |
| PaperRolls.RemoveAtCount | day04/main.go:56 | replacing an '@' with 'x' lowers the roll count by one |
| PaperRolls.VisitEffect | day04/main.go:37-59 | a visit only removes rolls, and changes the grid exactly when it lowers the count |
| PaperRolls.VisitKept | day04/main.go:55-59 | a roll a visit keeps has at least four neighbouring rolls |
| PaperRolls.SweepRowEffect | day04/main.go:36-60 | sweeping a row only removes rolls, and a sweep that removes nothing leaves every roll of the row with at least four neighbours |
| PaperRolls.SweepRowsEffect | day04/main.go:35-61 | a pass only removes rolls, and a pass that removes nothing leaves the grid stable |
| PaperRolls.SettleEffect | day04/main.go:33-65 | the repeated passes end in a stable grid reached only by removals |
| PaperRolls.SweepPass | day04/main.go:34-61 | one pass gives the pass's grid, flags removal exactly when a roll was removed, and adds the number removed |
| PaperRolls.RemoveRolls | day04/main.go:32-65 | the loop ends on the settled grid, and the total is the number of rolls removed |
| FreshRanges.RangeOfLine | day05/main.go:30-36 | a line gives at most one range, with non-negative bounds |
| FreshRanges.IgnoredAfterBlank | day05/main.go:25-28 | lines after the first blank line contribute no range |
| FreshRanges.RangesBeforeSnoc | day05/main.go:22-36 | before any blank line, one more line adds its range when it has one |
| FreshRanges.CollectRanges | day05/main.go:22-50 | the reading loop collects exactly the ranges of the lines before the first blank line |
| FreshRanges.Span | day05/main.go:63 | the block lo..hi holds hi - lo + 1 integers, and none when lo > hi |
| FreshRanges.CoverMember | day05/main.go:55-69 | an integer is covered exactly when some range contains it |
| FreshRanges.CoverPermutation | day05/main.go:51-53 | reordering the ranges does not change what they cover |
| FreshRanges.SortByStart | day05/main.go:51-53 | the sort returns a permutation ordered by start |
| FreshRanges.SpanJoin | day05/main.go:60-61 | a range starting at most one past the block's end extends it to the larger end |
| FreshRanges.MergeExtend | day05/main.go:60-61 | extending the open block keeps the merge invariant |
| FreshRanges.MergeClose | day05/main.go:62-65 | closing the open block at a gap adds its size and keeps the merge invariant |
| FreshRanges.MergeCount | day05/main.go:55-69 | for well-formed ranges sorted by start, the total is the number of integers they cover |
| FreshRanges.CountFresh | day05/main.go:18-71 | for well-formed ranges, the printed total is the number of integers the ranges before the first blank line cover |
| Worksheet.ColumnIsBlank | day06/main.go:30-36 | the column is all spaces exactly when no row of the five has a non-space character there |
| Worksheet.ColumnText | day06/main.go:54-59 | numStr collects the column's non-space characters of the four number rows, top to bottom |
| Worksheet.FoldProblem | day06/main.go:39-46 | folding a problem's numbers gives their sum under '+' and their product otherwise |
| Worksheet.Step | day06/main.go:38-68 | a blank column with an open problem adds its value and empties it; any other column appends the number it reads |
| Worksheet.ScanColumn | day06/main.go:30-68 | one column of the loop updates total, numbers and operator as the column's step says |
| Worksheet.BlankColumnReadsNothing | day06/main.go:52-64 | a blank column reads no number and has no operator |
| Worksheet.BlankColumnWithoutProblem | day06/main.go:38-50 | a blank column with no open problem changes nothing |
| Worksheet.BlankColumnTwice | day06/main.go:38-50 | a second blank column in a row changes nothing more |
| Worksheet.RunTotal | day06/main.go:29-69 | the total grows by exactly the values of the problems the scan closes |
| Worksheet.RunNumbers | day06/main.go:29-69 | every number read ends up in exactly one problem closed or in the open one, in order |
| Worksheet.GrandTotalIsSumOfProblems | day06/main.go:29-82 | the grand total is the sum of the values of the closed problems plus that of the open one |
| Worksheet.Day06 | day06/main.go:21-82 | the printed total is what the scan over the operator row's width gives |

## Left out

- Input and output: opening files, the scanner loops' reading and `fmt` printing are not modelled. The solvers take the lines, or the ranges, as parameters and return what they print.
- The benchmark in day02/ai_generated_optimized.go:12-52 (timings, speedups, floating point) is left out. The three sums it prints are `BatchEngine.MathTotal`, `BatchEngine.ExtremeTotal` and `BatchEngine.BatchProcessRanges`.
- `readRanges` (day02/ai_generated_optimized.go:58-81) is not modelled separately. It parses like day02/main.go without skipping blank lines, and a blank line yields no piece with two parts.
- 64-bit overflow: Go's `int` wraps around, and the model's integers do not. The model assumes no overflow only in the values a result depends on. `intPowFast` squares its base once more after the base's last use: `intPowFast(100000, 2)` at day02/ai_generated_optimized.go:251 and :429 computes 10^20 on every ten-digit length. That square is never read, so its wrap-around does not change the result; the model computes it with unbounded integers like every other value.
- Index-out-of-range panics of the source are modelled as preconditions. BatchEngine.BatchProcessRanges requires a non-empty list of ranges (`ranges[0]`, day02/ai_generated_optimized.go:401). FreshRanges.MergeCount and FreshRanges.CountFresh require at least one range (`ranges[0]`, day05/main.go:55). Worksheet.Day06 requires at least five rows (`rows[:4]` and `rows[4]`, day06/main.go:21-22).
- PeriodicEngine.SumValidInRangeMath, PeriodicEngine.SumValidExtreme, BatchEngine.BatchProcessRanges: `numDigits` caps lengths at 10, so these count only numbers of at most ten digits. Their contracts say so, and they agree with the brute force only for ranges below 10^10.
- PeriodicEngine.Accumulator.Add: the bitmap of 16384 64-bit words is modelled as an array of 1048576 booleans, one per value below the dense limit. Bit packing with shifts and masks is not modelled.
- The `switch` arms for p = 1 to 5 in the period loop from 6 on (day02/ai_generated_optimized.go:280-289, 308-317, 333-342) can never run and are not modelled.
- Characters: days 1, 2, 4, 5 and 6 treat lines as Dafny strings of characters. Go indexes bytes, which gives the same results on ASCII input. Day 3 works on bytes so that its wrapping `line[j] - '0'` is modelled exactly.
- Atoi: only the fast path of `strconv.Atoi` is modelled, for fewer than 19 characters. Longer text, which could overflow or go through the slow path, is not modelled.
- FreshRanges.SortByStart: `sort.Slice` is not stable and its algorithm is not specified, so it is modelled as an insertion sort by start. Ranges with equal starts may come out in another order; the merge's result does not depend on that order.
- FreshRanges.MergeCount, FreshRanges.CountFresh: the total is stated only for ranges with lo <= hi. For a reversed range the source adds a non-positive amount, and the contract says nothing about that case.
- The commented-out freshness check (day05/main.go:38-48) does nothing, and so it is not modelled.
- day03's `main` (day03/main.go:38-52), which trims each line and sums `findMaxKDigits(line, 12)`, is not modelled. Only `findMaxKDigits` is.
- The helper members `ScanColumn`, `ColumnIsBlank`, `ColumnText`, `FoldProblem`, `SweepPass`, `CountNeighbours`, `Turn`, `MaxInWindow`, `CollectRanges`, `MergeCount`, `LineTotal`, `SumValidBruteForce`, `OfferBases`, `OfferPeriodToSet`, `OfferPeriod`, `UnrolledBlock`, `ShortBlocks`, `MiddleBlocks`, `UnrolledPeriods`, `LongPeriods`, `LongPeriodConstants`, `PowerConstants`, `GlobalBounds`, `BatchLength` and `BatchPeriod` split inline Go blocks and loops into pieces that can be verified separately. They are not separate functions in the source.
