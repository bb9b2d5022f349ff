# Advent of Code 2023 solutions, modelled in Dafny

This project models the Rust solutions to the Advent of Code 2023 puzzles
(days 1–5, 7–23 and 25) together with the shared 2-D point type of
`utils.rs`: its constructor, the arithmetic `mul`, `div`, `add` and `sub`,
their in-place forms `imul`, `idiv`, `iadd` and `isub`, and the squared
length `euclidian`. Each puzzle's `solveN` functions and the parsing they rely on
are stated in Dafny, and the puzzle's meaning is proved about them: a
loop that mutates state becomes a method proved against a specification
function, a parser gets its round trip or its grammar, and a search gets
soundness (and, where it holds, completeness) against a relation that
defines the legal moves.

There is one Dafny module per source file: `Utils` for `utils.rs` and
`Day01` … `Day25` for `dayNN.rs`. The larger days are split across
companion modules:

- `Day14Cycles`: the load, hashing and spin-cycle detection of day 14;
- `Day20Modules`: the mutable module network of day 20;
- `Day22Stack`: the settled stack of day 22 and its fall counts;
- `Day23Segments`: the junction-to-junction segments of day 23;
- `Day25Info`, `Day25Parse`, `Day25Graph` and `Day25Reach`: the graph
  bookkeeping, the parser, the contraction and minimum-cut phases, and
  the component count of day 25.

`RustStd` states the behaviour of the Rust standard-library operations the
solutions lean on: `split`, `find`, `parse`, `trim`, and stable and
unstable sorting. Where Rust would panic (`unwrap` on `None`, an
out-of-bounds index, `unreachable!`, a failed `parse`), the model mostly
returns `None`, so the panic is part of the contract. Some members instead
exclude the panic with a precondition: `Utils.PointVar.IDiv` (a zero
divisor), `Day04.Solve2` (a copied card index past the list),
`Day07.Solve` (the `unwrap` in `order` on two equal hands),
`Day22.Brick.Prepare`, `Day22.Brick.BelowIds` and
`Day22.Brick.CanBeDesintegrated` (a brick at height 0), the day 23 members
(a grid narrower than two columns) and the grid days that ask for a
rectangle. "Left out" lists each of them.

Each `Findings` row below shows a place where the program as written
disagrees with what the puzzle evidently intends. For each one the model
keeps the as-written behaviour beside the corrected one. The operations
used by the rest of the model (the rows marked "corrected") compute the
intended answer.

## Model

| member | source | states |
|---|---|---|
| `Utils.Euclidian` | src/utils.rs:54-56 | the squared length is never negative and is zero exactly at the origin |
| `Utils.AddSubInverse` | src/utils.rs:30-35 | `sub` undoes `add` and `add` undoes `sub` |
| `Utils.AddCommutes` | src/utils.rs:30-32 | `add` is commutative |
| `Utils.MulDistributes` | src/utils.rs:24-32 | scaling distributes over `add` |
| `Utils.MulDivInverse` | src/utils.rs:24-29 | `div` by a nonzero `k` undoes `mul` by `k` |
| `Utils.PointVar.constructor` | src/utils.rs:20-22 | the new point holds the given coordinates |
| `Utils.PointVar.IMul` | src/utils.rs:37-40 | each field becomes the old field times the matching field of `q` |
| `Utils.PointVar.IDiv` | src/utils.rs:41-44 | each field becomes the old field divided, truncating toward zero, by the matching field of `q` (a zero divisor panics in the source, so it is excluded) |
| `Utils.PointVar.IAdd` | src/utils.rs:45-48 | the new point is the old point `add` `q` |
| `Utils.PointVar.ISub` | src/utils.rs:49-52 | the new point is the old point `sub` `q` |
| `Day01.Solve` | src/day01.rs:31-36 | with single-digit pattern values every line contributes a two-digit value, so the sum lies in 0..99 times the line count |
| `Day01.FirstSpec` | src/day01.rs:4-14 | the first digit is the value of the pattern with the smallest `find` index (absent counts as `usize::MAX`); among equal indices the earliest listed pattern wins |
| `Day01.LastSpec` | src/day01.rs:16-26 | the last digit is the value of the pattern with the largest `rfind` index (absent counts as -1); among equal indices the earliest listed pattern wins |
| `Day01.FirstValueIsListed` | src/day01.rs:4-14 | over a non-empty pattern list the first digit is some pattern's value (the `expect` never fires) |
| `Day01.LastValueIsListed` | src/day01.rs:16-26 | over a non-empty pattern list the last digit is some pattern's value |
| `Day01.PresentBeatsAbsent` | src/day01.rs:6-25 | when some pattern occurs in the line, the chosen first and last patterns both occur in it |
| `Day01.SingleDigit` | src/day01.rs:3-28 | a line with exactly one decimal digit `d` has calibration value `11*d` under the digit patterns |
| `Day01.PatternAtDigit` | src/day01.rs:41-43 | in such a line every digit pattern that occurs is that digit, with its value |
| `Day01.CalibrationValue` | src/day01.rs:3-29 | the value is ten times one listed pattern's value plus a listed pattern's value: both digits come from the pattern list |
| `Day02.ColorId` | src/day02.rs:14-19 | only "red", "green" and "blue" have an index, and it is below 3 |
| `Day02.ParsePiece` | src/day02.rs:11-19 | a parsed piece names a colour index below 3; a missing word, a bad count or an unknown colour panics |
| `Day02.CubeSetOf` | src/day02.rs:8-24 | a parsed cube set has exactly three counts |
| `Day02.NewCubeSet` | src/day02.rs:8-24 | the loop that stores each piece's count at its colour computes `CubeSetOf` |
| `Day02.LastCountStep` | src/day02.rs:20 | one more piece overwrites its own colour's count and no other |
| `Day02.LastCountSpec` | src/day02.rs:10-21 | a colour's count is the count of the last piece that names it |
| `Day02.LastCountUnmentioned` | src/day02.rs:9 | a colour no piece names keeps the count 0 |
| `Day02.ParsePieceRoundTrip` | src/day02.rs:11-19 | the text "n colour" parses back to that colour and count |
| `Day02.ColorNameWord` | src/day02.rs:15-17 | each colour's name is one word and names that colour |
| `Day02.GameNew` | src/day02.rs:33-43 | a parsed game has at least one cube set, each of three counts |
| `Day02.GameNewRoundTrip` | src/day02.rs:33-43 | the line "Game <id>: " followed by cube-set texts joined by "; " parses to that id and to each text's cube set, when the texts parse and hold neither ':' nor ';' |
| `Day02.MaxPerGame` | src/day02.rs:51-57 | the maximum is at least every set's count of that colour and equals one of them |
| `Day02.GetPowerSet` | src/day02.rs:45-49 | the power is never negative and is 0 exactly when some colour shows in no set of the game |
| `Day02.IsGamePossible` | src/day02.rs:59-61 | the result is the game's id or 0, and the id exactly when every count of every set is within the limit (or the id is 0) |
| `Day02.PowerSetIsMinimal` | src/day02.rs:45-61 | the per-colour maxima make the game possible, and lowering any colour below its maximum makes it impossible |
| `Day02.PowerSetIgnoresArgument` | src/day02.rs:45-49 | the power does not depend on its cube-set argument |
| `Day02.SolveAppend` | src/day02.rs:64-66 | the sum over two lists of games is the sum of the two sums |
| `Day02.Solve` | src/day02.rs:64-66 | when every game's value is non-negative, the sum is non-negative and at least each game's value |
| `Day03.RunEnd` | src/day03.rs:30-33 | the scan stops at the first non-digit column at or after `x` (or the line end), and every column before it is a digit |
| `Day03.PushRow` | src/day03.rs:43-55 | the loop over columns `x-1..=cur` of one row pushes exactly that row's window events, in order |
| `Day03.PushNeighbours` | src/day03.rs:38-56 | the loop over rows `y-1..=y+1`, clipped to the grid, pushes exactly the window events of the three rows |
| `Day03.ScanLine` | src/day03.rs:25-61 | one row's scan succeeds exactly when every digit run parses, and then adds exactly the row's events in scan order |
| `Day03.GetSymbols` | src/day03.rs:22-65 | the map is `None` (a panic) exactly when some run does not parse, and otherwise is the grouping of all pushes |
| `Day03.InsideRun` | src/day03.rs:57 | within a run no later column starts a run, so skipping past it loses no number |
| `Day03.RunsSkipped` | src/day03.rs:30-36 | after a run, the next number of the row starts past its end, and a number at the run's start has the run's value |
| `Day03.AddEventsLookup` | src/day03.rs:48-52 | after the pushes each symbol holds its old numbers followed by the numbers pushed for it, in push order, and is a key exactly when it was or got one |
| `Day03.SymbolsSpec` | src/day03.rs:22-65 | each symbol lists exactly the numbers whose neighbourhood holds it, each once, and only touched symbols are keys |
| `Day03.PartNumbers` | src/day03.rs:67-72 | a number is collected exactly when it is listed under some symbol; the set keeps each number once |
| `Day03.PartNumbersSpec` | src/day03.rs:67-72 | a number is summed by `solve1` exactly when it is a maximal digit run next to some symbol |
| `Day03.GearRatio` | src/day03.rs:74-80 | a symbol contributes a positive product exactly when it has exactly two numbers, both nonzero |
| `Day03.GearSpec` | src/day03.rs:74-80 | a symbol with exactly two numbers has two different numbers, both adjacent, no other adjacent, and contributes their product |
| `Day04.ParseSet` | src/day04.rs:25-30 | the set is built exactly when every word parses as an `i32`, and then holds exactly the parsed values |
| `Day04.MatchCount` | src/day04.rs:19-35 | defined exactly when the numbers part splits into at least two '|' pieces that all parse, and then the size of the intersection of the first two |
| `Day04.ThirdPieceParsed` | src/day04.rs:19-30 | "a\|b" with one digit on each side has a match count, while "a\|b\|x" panics: the third piece is parsed though never compared |
| `Day04.GetCard` | src/day04.rs:16-36 | a card exactly when the card number parses and is positive and the numbers part has a match count; the card's id is the number minus one and its `n` the match count |
| `Day04.CardIdIsNumberMinusOne` | src/day04.rs:17-18 | a card's index is its card number minus one |
| `Day04.CardIndex` | src/day04.rs:17-18 | the line "Card k+1:..." has card number k+1 |
| `Day04.MatchesBounded` | src/day04.rs:35 | the match count is at most the size of either number set |
| `Day04.GetCards` | src/day04.rs:13-39 | the cards are built exactly when every line is a card, one card per line, each the card of its own line |
| `Day04.ScoreDoubles` | src/day04.rs:45 | no match scores 0, the first match scores 1, each further match doubles the score |
| `Day04.Score` | src/day04.rs:45 | a card scores 0 exactly when it has no match, and from two matches on each match doubles the score |
| `Day04.Solve1` | src/day04.rs:41-48 | the sum of every card's points |
| `Day04.Solve2` | src/day04.rs:50-60 | the in-place count loop returns the total of the counts after processing every card, which is at least the number of cards |
| `Day04.CountsAtLeastOne` | src/day04.rs:51-57 | every card keeps at least its original copy |
| `Day04.CountsGrow` | src/day04.rs:53-57 | processing one more card never lowers a count |
| `Day05.Intersect` | src/day05.rs:12-20 | an overlap starts at the larger start, ends at the smaller end and is never empty |
| `Day05.IntersectSpec` | src/day05.rs:12-20 | for non-empty ranges, `None` exactly when no value lies in both, and otherwise exactly the common values |
| `Day05.IntersectSymmetric` | src/day05.rs:12-20 | the intersection does not depend on the order of the two ranges |
| `Day05.IntersectUnderflow` | src/day05.rs:18 | `size - 1` can go below zero only for an empty range, and an empty range inside the other does underflow |
| `Day05.NewRangeMap` | src/day05.rs:54-56 | an entry is built exactly when the vector has at least three numbers |
| `Day05.NewRangeMapShift` | src/day05.rs:54-56 | the line "dest src len" sends each `x` of `src..src+len` to `dest + (x - src)`, inside the destination range |
| `Day05.MapRangeSpec` | src/day05.rs:58-67 | `map` succeeds exactly for a range inside `from`, keeps its size, and holds exactly the shifted values |
| `Day05.MapRng` | src/day05.rs:22-42 | the loop over the entries computes `MapRngSpec` (with the guard as a parameter, as written or corrected) |
| `Day05.MapEntry` | src/day05.rs:27-35 | one entry of the loop: the gap (when the guard lets it through) and the mapped overlap are pushed and the current range keeps only what lies after the overlap, as `StepRng` says; a panic gives `None` |
| `Day05.ScanEntriesStaysNone` | src/day05.rs:26-36 | once an entry panics, `map_rng` panics |
| `Day05.ScanStopsAt` | src/day05.rs:26-36 | a panic in any one entry makes the whole call panic |
| `Day05.StepKeepsInv` | src/day05.rs:27-35 | one entry of an ordered map never panics and keeps the scan invariant (pieces cover and are images of the values before the rest) |
| `Day05.GapIsIdentity` | src/day05.rs:28-29 | a value of the rest before the next entry's range is in no entry, so the map leaves it unchanged |
| `Day05.MapRngPoints` | src/day05.rs:22-42 | over an ordered map, no panic; every input value's image lies in some output piece, every output value is an image, the sizes add up to the input size, and with the corrected guard no piece is empty |
| `Day05.MapRngEmptyMap` | src/day05.rs:37-39 | a map without entries returns the range whole, or nothing for an empty range |
| `Day05.MapRngPushesEmptyPiece` | src/day05.rs:28 | on two adjacent entries the guard as written pushes the empty piece `Range(a+n, 0)` between the two mapped pieces; the corrected guard does not |
| `Day05.SolveReportsEmptyPiece` | src/day05.rs:28 | with the guard as written `solve` reports the empty piece's start `a+n`, below every actual location; with the corrected guard it reports `t1` |
| `Day05.MapStage` | src/day05.rs:129-133 | one stage maps every range in order and concatenates the pieces; a panic in any range panics |
| `Day05.Solve` | src/day05.rs:126-137 | the loop over the maps computes `SolveSpec`: the smallest start after the last map, `None` for a panic or no ranges |
| `Day05.MapAllPoints` | src/day05.rs:129-133 | one stage over an ordered map without empty ranges holds exactly the images of the input values, with no empty range under the corrected guard |
| `Day05.ThroughMapsPoints` | src/day05.rs:127-134 | after all maps, with the corrected guard, the ranges hold exactly the images of the seed values under the composition of the maps, none empty |
| `Day05.SolveIsSmallestImage` | src/day05.rs:126-137 | with ordered maps, non-empty seed ranges and the corrected guard, `solve` returns the location of some seed value and no seed value has a smaller location |
| `Day05.SmallestStart` | src/day05.rs:136 | when the ranges are exactly the images and none is empty, the smallest start is the smallest image |
| `Day05.NewAlmanac` | src/day05.rs:79-122 | the line loop computes `AlmanacSpec` |
| `Day05.ReadLine` | src/day05.rs:85-121 | one line's effect on the accumulators is `BuildStep`: a blank line closes the pending block sorted, the seeds line sets the seeds, an entry line extends the block, and a bad number panics |
| `Day05.AlmanacMapsSorted` | src/day05.rs:85-121 | every map closed by a blank line is sorted by `from.start`; a trailing blank line leaves the last map empty |
| `Day05.BuildStepKeepsSorted` | src/day05.rs:86-95 | a blank line closes the pending entries as a sorted permutation of them and clears them |
| `Day05.SortedDisjointOrdered` | src/day05.rs:89-91 | sorted entries with non-empty, pairwise disjoint ranges form an ordered map |
| `Day05.Seeds1` | src/day05.rs:140-143 | each seed number becomes a range of size one |
| `Day05.Seeds2` | src/day05.rs:149-152 | the seed numbers are read in (start, size) pairs; an odd count panics |
| `Day05.Solve1` | src/day05.rs:139-146 | `solve1` is `solve` of the size-one ranges, run with the corrected guard |
| `Day05.Solve2` | src/day05.rs:148-155 | `solve2` panics on an odd seed count and is otherwise `solve` of the pairs, run with the corrected guard |
| `Day05.Solve1IsLowestLocation` | src/day05.rs:139-146 | on ordered maps `solve1` is the smallest location of any seed number |
| `Day07.Distinct` | src/day07.rs:16-24 | the keys of the count map: every card of the hand once, and nothing else |
| `Day07.WithoutJoker` | src/day07.rs:25-33 | the keys of the joker-free count map: the hand's cards other than 'J' |
| `Day07.CountsOf` | src/day07.rs:35-36 | each value of a count map is the number of occurrences of its key |
| `Day07.MaxPos` | src/day07.rs:42-43 | `max` then `position`: a largest count, and the first one |
| `Day07.TallyKeys` | src/day07.rs:19-34 | the loop's maps have the distinct cards, and those without the joker, as their domains |
| `Day07.TallyCounts` | src/day07.rs:19-34 | the loop stores each card's number of occurrences, and `nj` counts the jokers |
| `Day07.TallyValues` | src/day07.rs:35-36 | read in key order, the maps give the counts and the joker-free counts |
| `Day07.CountCards` | src/day07.rs:19-34 | the loop over the cards computes `TallyOf` |
| `Day07.CountVectors` | src/day07.rs:35-36 | the count vectors are the counts of the distinct cards and of the non-joker cards, and `nj` the number of jokers |
| `Day07.AddJokersTo` | src/day07.rs:38-48 | without jokers `counts_j` is `counts`; otherwise the jokers are added to the first largest other count |
| `Day07.NewHand` | src/day07.rs:14-51 | `Hand::new` computes `HandOf(line)` |
| `Day07.CountsSum` | src/day07.rs:19-35 | `counts` adds up to the number of cards and every count is positive |
| `Day07.AddJokersSum` | src/day07.rs:44 | the jokers add their number to the total |
| `Day07.AddJokersMax` | src/day07.rs:42-44 | all jokers join one largest count |
| `Day07.OtherCounts` | src/day07.rs:28-36 | the joker-free counts plus the jokers add up to the cards, are positive, and are empty only for a hand of jokers |
| `Day07.NoJokerSameCounts` | src/day07.rs:46-48 | without a joker `counts_j` equals `counts` |
| `Day07.AllJokersFive` | src/day07.rs:39-40 | a hand of five jokers is five of a kind |
| `Day07.JokerCountsSum` | src/day07.rs:38-48 | `counts_j` adds up to the number of cards |
| `Day07.JokerCountsPositive` | src/day07.rs:38-48 | every entry of `counts_j` is positive |
| `Day07.JokerCountsMax` | src/day07.rs:41-45 | with jokers and other cards a largest other count has gained every joker |
| `Day07.Classify` | src/day07.rs:89-135 | the seven classifiers, strongest first: entry `i` is 0 or `7 - i` |
| `Day07.FirstNonZero` | src/day07.rs:140-142 | `None` exactly when all are zero; otherwise the first nonzero entry |
| `Day07.GetRank` | src/day07.rs:134-143 | the value of the strongest type that applies, between 1 and 7; `None` (a panic) exactly when no type applies |
| `Day07.RankTotal` | src/day07.rs:134-143 | positive counts adding up to five always have a type |
| `Day07.FiveCardsRanked` | src/day07.rs:134-143 | a five-card hand has a type under both `counts` and `counts_j` |
| `Day07.Compare` | src/day07.rs:67-77 | defined exactly for listed cards; 0 exactly for the same card, else 1 or -1 |
| `Day07.CompareByStrength` | src/day07.rs:67-77 | 1 exactly when the first card is stronger (earlier in the list), -1 exactly when weaker |
| `Day07.CompareAntisymmetric` | src/day07.rs:67-77 | swapping the cards negates the result |
| `Day07.FirstDiffSpec` | src/day07.rs:80-85 | the comparison found is `v` exactly when the hands first differ at a position whose cards compare as `v` |
| `Day07.FirstDiffSame` | src/day07.rs:80-85 | two equal hands make `order` panic |
| `Day07.FirstDiffDefined` | src/day07.rs:80-85 | two different listed hands of one length always reach a nonzero comparison |
| `Day07.FirstDiffSwap` | src/day07.rs:80-85 | swapping the hands negates the comparison found |
| `Day07.OrderAsWritten` | src/day07.rs:79-87 | `order` as written: never `Greater` |
| `Day07.Order` | src/day07.rs:79-87 | `order` as evidently intended: never `Equal` for a decided comparison |
| `Day07.OrderAntisymmetric` | src/day07.rs:79-87 | the corrected `order` calls the first hand less exactly when it calls the swapped pair greater |
| `Day07.OrderAsWrittenAgrees` | src/day07.rs:86 | as written, `Less` agrees with the corrected order, and `Equal` is returned exactly where the corrected order says `Greater` |
| `Day07.OrderAsWrittenNotAntisymmetric` | src/day07.rs:86 | as written, "A" against "K" is `Equal` while "K" against "A" is `Less` |
| `Day07.HandCmpLessAgrees` | src/day07.rs:147-151 | the sort comparator as written and the corrected one call the same pairs of hands less |
| `Day07.CardsKeyOrder` | src/day07.rs:79-87 | an integer key of the cards orders hands of one length as `order` does |
| `Day07.HandKeyOrder` | src/day07.rs:147-151 | what the comparator calls less has the smaller key, and for hands with different cards the converse holds |
| `Day07.Solve` | src/day07.rs:145-158 | the winnings of the hands sorted by the comparator's key |
| `Day07.SumWinnings` | src/day07.rs:153-157 | the loop sums each bid times its position plus one |
| `Day07.SolveOrder` | src/day07.rs:146-151 | the order summed over is a permutation of the hands in which no hand is less, by the comparator as written, than one before it |
| `Day08.NodeOf` | src/day08.rs:13-24 | a parsed node came from a line holding " = "; missing pieces panic |
| `Day08.NodeRoundTrip` | src/day08.rs:13-24 | the line "N = (L, R)" parses back into its three names |
| `Day08.NodesOf` | src/day08.rs:28-35 | the map is built exactly when every line parses, and holds every line's name |
| `Day08.NodeMap` | src/day08.rs:31-35 | each key maps to a node of that name taken from the lines, and every line's name is a key |
| `Day08.ParseInput` | src/day08.rs:27-38 | the instructions are the first line; parsing succeeds exactly when there is a first line and every later line is a node |
| `Day08.CountUnique` | src/day08.rs:40-53 | the step count is determined: only one step is the first end, and a walk that reaches an end does not panic before it |
| `Day08.CountSteps` | src/day08.rs:40-53 | an empty instruction string gives 0; otherwise the result is the first step at which the cyclic walk lands on an end node, or `None` when the walk meets a missing node |
| `Day08.Solve1` | src/day08.rs:70-72 | 0 for an empty instruction string; otherwise the first step at which the walk from "AAA" reaches "ZZZ", or a panic on a missing node |
| `Day08.GcdOf` | src/day08.rs:55-64 | `gcd` panics (a `%` by zero) exactly when an argument is 0 |
| `Day08.GcdSymmetric` | src/day08.rs:55-57 | the max/min normalisation makes `gcd` symmetric, and `gcd(x, x) = x` |
| `Day08.GcdIsGreatestCommonDivisor` | src/day08.rs:55-64 | the result divides both arguments and every common divisor divides it |
| `Day08.Gcd` | src/day08.rs:55-64 | the loop reassigning `(n1, n2) = (n2, n1 % n2)` computes `GcdOf` |
| `Day08.EuclidDivides` | src/day08.rs:59-63 | Euclid's remainder loop ends on a common divisor |
| `Day08.EuclidGreatest` | src/day08.rs:59-63 | every common divisor divides what the loop returns |
| `Day08.Lcm` | src/day08.rs:66-68 | `lcm` panics exactly when an argument is 0 |
| `Day08.LcmIsCommonMultiple` | src/day08.rs:66-68 | the result is a multiple of both arguments |
| `Day08.LcmAll` | src/day08.rs:80-81 | reducing no counts panics |
| `Day08.LcmAllMultiple` | src/day08.rs:80-81 | the reduced lcm is a multiple of every count |
| `Day08.EuclidScale` | src/day08.rs:59-63 | scaling both arguments of Euclid's loop by `k` scales its result by `k` |
| `Day08.GcdScale` | src/day08.rs:55-64 | `gcd(k*x, k*y)` is `k * gcd(x, y)` |
| `Day08.LcmTimesGcd` | src/day08.rs:55-68 | for positive arguments the gcd times the lcm is the product of the arguments |
| `Day08.LcmLeast` | src/day08.rs:66-68 | for positive arguments the lcm divides every common multiple |
| `Day08.LcmAllLeast` | src/day08.rs:80-81 | the reduced lcm of positive counts divides every common multiple of them |
| `Day08.LcmAllZeros` | src/day08.rs:55-81 | reducing zero counts gives 0 for one count and panics for more, in the first `gcd(0, 0)` |
| `Day08.AllCounts` | src/day08.rs:77-79 | one step count per start node, in order: all zero for an empty instruction string; otherwise `None` exactly when the walk from some start node panics |
| `Day08.Solve2` | src/day08.rs:74-82 | for an empty instruction string, 0 with one start node and a panic otherwise; for a non-empty one, `None` (a panic) exactly when there is no start node or some walk panics; otherwise a positive common multiple of the start nodes' step counts that divides every other common multiple, so their least common multiple |
| `Day09.Diff` | src/day09.rs:5-12 | one value fewer (none for an empty row), each the difference of two neighbours |
| `Day09.DiffTableRows` | src/day09.rs:14-23 | each row after the first is the difference row of the row above |
| `Day09.DiffTableEnds` | src/day09.rs:18-22 | the last row is all zero and no row between the first and the last is |
| `Day09.DiffTableLength` | src/day09.rs:18-22 | rows shrink by one, so there are at most `|nums| + 2` rows |
| `Day09.DiffTableStep` | src/day09.rs:18-22 | after the first row come the difference row and, unless it is all zero, the rest of its own table |
| `Day09.GetDiffs` | src/day09.rs:14-23 | the loop pushing difference rows returns `DiffTable(nums)` |
| `Day09.GetNext` | src/day09.rs:25-31 | the bottom-up sum of last values, `None` (a panic on `unwrap`) exactly when some row is empty |
| `Day09.GetPrev` | src/day09.rs:33-39 | the bottom-up `v[0] - n`, `None` exactly when some row is empty |
| `Day09.NoneBelow` | src/day09.rs:27-29 | an empty row makes the extrapolation from every row above it fail |
| `Day09.NextExtends` | src/day09.rs:25-31 | the next value extends each row so that its differences are the next row extended by its own next value |
| `Day09.PrevExtends` | src/day09.rs:33-39 | the previous value extends each row on the left in the same way |
| `Day09.BottomExtends` | src/day09.rs:26-29 | at the all-zero bottom row both extrapolations add a zero |
| `Day09.ConstantHistory` | src/day09.rs:14-39 | a constant history of at least two values extrapolates to the same constant at both ends |
| `Day09.ShortHistoryPanics` | src/day09.rs:14-31 | the history 1, 2 gives the rows [1, 2], [1], [] and both extrapolations panic on the empty row |
| `Day09.Solve` | src/day09.rs:41-46 | the sum succeeds exactly when every history's extrapolation does |
| `Day09.SolveSnoc` | src/day09.rs:41-46 | one more history adds its own extrapolated value |
| `Day10.GetNext` | src/day10.rs:8-22 | the neighbour one step in the direction, `None` exactly when it leaves the grid |
| `Day10.OppositeDelta` | src/day10.rs:43 | direction `(dir + 2) % 4` steps back the other way |
| `Day10.Ends` | src/day10.rs:30-40 | each of the seven pipe characters has four end flags; any other character has no entry |
| `Day10.PipeEnds` | src/day10.rs:31-39 | every pipe but '.' has exactly two ends, '.' none, and no two pipes share their ends |
| `Day10.ConnectedSymmetric` | src/day10.rs:42-44 | two pipes connect in `dir` exactly when they connect from the other side in the opposite direction |
| `Day10.FindStart` | src/day10.rs:90-99 | the first 'S' in row-major order |
| `Day10.GetStart` | src/day10.rs:90-99 | the nested loops return the first 'S', and no 'S' panics |
| `Day10.StartEnds` | src/day10.rs:66-76 | per direction, the neighbour's end pointing back at the start, 0 off the grid; a neighbour that is not a pipe panics |
| `Day10.PipeWithEnds` | src/day10.rs:78-82 | the pipe character, if any, whose ends are the start's |
| `Day10.StartCharDetermined` | src/day10.rs:78-82 | at most one pipe has the start's ends, so the map's iteration order does not change `start_char` |
| `Day10.MazeOf` | src/day10.rs:56-88 | the maze's start is the first 'S', its size the first line's length by the line count, and the start's pipe has the start's ends |
| `Day10.GetPipe` | src/day10.rs:101-108 | the start's pipe at the start and the grid's pipe elsewhere, each with four end flags |
| `Day10.Candidate` | src/day10.rs:118-126 | a direction is taken only toward an in-grid, connected neighbour that is not the cell just left |
| `Day10.FirstMove` | src/day10.rs:116-128 | the first direction taken leads to an adjacent cell other than the one just left |
| `Day10.WalkStep` | src/day10.rs:114-131 | one more iteration appends the next move, or panics |
| `Day10.WalkNoBacktrack` | src/day10.rs:121 | the walk never steps straight back to the cell it came from |
| `Day10.WalkAdjacent` | src/day10.rs:116-130 | every step of the walk moves to a neighbouring grid cell |
| `Day10.CycleFound` | src/day10.rs:130-134 | the walk that first comes back to the start is the path returned, with the start at both ends |
| `Day10.CollectCycle` | src/day10.rs:110-136 | the loop returns the walk up to its first return to the start, or `None` when an iteration panics before it |
| `Day10.Solve1` | src/day10.rs:162-165 | the farthest point is half the loop length away, rounded down |
| `Day10.RayFrom` | src/day10.rs:140-157 | a ray crosses at most as many cells as it passes |
| `Day10.RayWithoutLoop` | src/day10.rs:142-150 | only loop cells (or the start) count as crossings |
| `Day10.CastRay` | src/day10.rs:138-158 | the loop counts the '\|', 'J' and 'L' loop cells strictly to the right of `p` |
| `Day10.InsideRow` | src/day10.rs:174-180 | at most as many enclosed cells as cells scanned |
| `Day10.CountRow` | src/day10.rs:174-180 | the inner loop counts the cells of one row that are off the loop with an odd ray |
| `Day10.Solve2` | src/day10.rs:167-184 | the nested loops count the off-loop cells with an odd number of crossings to their right |
| `Day11.EmptyRows` | src/day11.rs:13-17 | exactly the indices of lines without a '#', ascending |
| `Day11.EmptyCols` | src/day11.rs:19-28 | exactly the indices of columns without a '#', ascending |
| `Day11.RowGalaxies` | src/day11.rs:32-36 | exactly the galaxies of one line, left to right |
| `Day11.GalaxiesOf` | src/day11.rs:30-37 | exactly the '#' cells of the lines |
| `Day11.GalaxiesOrdered` | src/day11.rs:30-37 | the galaxies are listed in row-major order without repeats |
| `Day11.Galaxies` | src/day11.rs:30-37 | the nested loops collect `GalaxiesOf(lines)` |
| `Day11.RowScan` | src/day11.rs:32-36 | the inner loop collects `RowGalaxies` of its line: the galaxies of that line, left to right |
| `Day11.UniverseOf` | src/day11.rs:12-40 | the universe is built exactly when there is a first line and no line is shorter than it |
| `Day11.CountRangeSplit` | src/day11.rs:48-51 | the number of empty lines in a span is the sum over two halves |
| `Day11.DistProperties` | src/day11.rs:42-54 | the distance is symmetric, zero from a galaxy to itself, the plain Manhattan distance for `m = 1`, and never shrinks as `m` grows |
| `Day11.DistIsExpandedManhattan` | src/day11.rs:42-54 | `get_dist` is the Manhattan distance between the galaxies' positions after every empty row and column is widened to `m` |
| `Day11.ExpandedOrder` | src/day11.rs:42-54 | expansion keeps the order of coordinates |
| `Day11.Solve` | src/day11.rs:59-68 | twice the answer is the sum over all ordered pairs, so each unordered pair is counted once |
| `Day12.Repeat` | src/day12.rs:18 | `repeat(n)`: `n` copies of the groups, one after another |
| `Day12.LineOf` | src/day12.rs:13 | the row: the `n` copies joined by '?', trailing '.' trimmed, with a '.' in front |
| `Day12.PatternOf` | src/day12.rs:11-21 | a pattern is built exactly when the line has a second part whose groups all parse; its row is `LineOf` and its groups are the parsed groups `n` times over |
| `Day12.InitRow` | src/day12.rs:24-28 | the first table holds 1 for every prefix before the first '#', 0 after |
| `Day12.ChunkRun` | src/day12.rs:32-38 | `chunk` is the maximal run of springs that are not '.' ending at `i` |
| `Day12.ChunkAtLeast` | src/day12.rs:44 | `chunk >= g` exactly when the last `g` springs up to `i` are all not '.' |
| `Day12.RunGuard` | src/day12.rs:44 | the guard `chunk >= g && i >= g && line[i-g] != '#'` holds exactly when a run of `g` can end the prefix at `i` |
| `Day12.NextEntryStep` | src/day12.rs:40-46 | each entry is the entry before it when the spring is not '#', plus the previous table at `i - g` when the guard holds |
| `Day12.NextTable` | src/day12.rs:31-47 | one pass builds the next table |
| `Day12.Count` | src/day12.rs:23-52 | the in-place table updates return the last entry of the table after every group |
| `Day12.TableIsWays` | src/day12.rs:23-52 | with a '.' in front and positive groups, entry `j` of the table after `k` groups is the number of ways to fill the first `j` springs with the first `k` groups |
| `Day12.CountIsWays` | src/day12.rs:23-52 | the count is the number of ways to fill the row's unknown springs so that its damaged runs are exactly the groups |
| `Day12.CountNoGroups` | src/day12.rs:24-28 | without groups the count is 1 when the row has no '#', else 0 |
| `Day12.WaysNoGroups` | src/day12.rs:24-28 | with no groups there is one way exactly when no spring is '#' |
| `Day12.WaysTrailingDot` | src/day12.rs:13 | a trailing '.' does not change the number of ways |
| `Day12.WaysLeadingDot` | src/day12.rs:13 | a leading '.' does not change the number of ways |
| `Day12.TrimmedWays` | src/day12.rs:13 | trimming trailing '.' does not change the number of ways |
| `Day12.PatternCountIsWays` | src/day12.rs:11-52 | a pattern's count is the number of ways for its row as joined, before trimming and the leading '.' |
| `Day12.PatternsOf` | src/day12.rs:57-59 | the patterns are built exactly when every line parses, one per line |
| `Day12.Solve` | src/day12.rs:56-61 | `solve` panics exactly when some line does not parse, and otherwise sums the lines' counts |
| `Day12.AddCounts` | src/day12.rs:59-60 | the loop sums one `count` per pattern |
| `Day13.PatternOf` | src/day13.rs:10-18 | `Pattern::new` panics exactly on an empty block, and otherwise keeps the lines with their height and first line's width |
| `Day13.CountDiff` | src/day13.rs:20-22 | the number of differing zipped positions is at most either length |
| `Day13.CountDiffSelf` | src/day13.rs:20-22 | a sequence differs from itself nowhere |
| `Day13.CountDiffSymmetric` | src/day13.rs:20-22 | the count does not depend on the order of the two sequences |
| `Day13.CountDiffZero` | src/day13.rs:20-22 | the count is 0 exactly when the two agree on every zipped position |
| `Day13.Column` | src/day13.rs:27-29 | column `c` holds the `c`-th character of every line |
| `Day13.DiffDefined` | src/day13.rs:31-37 | rows within the height, and in a rectangular pattern columns within the width, always have a difference |
| `Day13.DiffSymmetric` | src/day13.rs:31-37 | `rows_diff` and `cols_diff` are symmetric |
| `Day13.DiffSelf` | src/day13.rs:31-37 | a row or column differs from itself nowhere |
| `Day13.PairCount` | src/day13.rs:41-42 | the loop compares `x - d` with `x + 1 + d` for exactly as long as both lie within the edge |
| `Day13.IsReflected` | src/day13.rs:39-49 | the loop with its early `return false` computes `ReflectedFrom` |
| `Day13.ReflectedIsLine` | src/day13.rs:39-49 | the early exit agrees with summing every pair: the answer is whether the whole sum is `max` |
| `Day13.ReflectedIffLine` | src/day13.rs:39-49 | for a valid pattern `is_reflected` holds exactly at a line with `max` differences in total |
| `Day13.PerfectMirror` | src/day13.rs:39-49 | with `max` = 0 a line is a perfect mirror: every row within reach equals its image |
| `Day13.FirstFrom` | src/day13.rs:55-66 | a line found is a reflection line within the edge; otherwise the edge is reported |
| `Day13.GetReflection` | src/day13.rs:51-73 | the two loops and the final choice compute `Reflection` |
| `Day13.FirstLine` | src/day13.rs:55-60 | one search loop: the first line across the axis that `is_reflected` accepts, the edge when none does, `None` on a panic (`FirstFrom`) |
| `Day13.FirstIsFirstLine` | src/day13.rs:55-66 | in a rectangular pattern the search finds the first reflection line, or the edge when there is none |
| `Day13.RowsFirst` | src/day13.rs:72 | when a line between rows exists, the answer is 100 times the row count above it |
| `Day13.NoLinePanics` | src/day13.rs:68-70 | the answer is a panic exactly when there is no line of either kind, or the rows are empty |
| `Day13.Blocks` | src/day13.rs:79-86 | the lines cut at every empty line, always at least one block |
| `Day13.BlocksSnocEmpty` | src/day13.rs:80-82 | an empty line starts a new block |
| `Day13.BlocksSnocLine` | src/day13.rs:83-85 | any other line extends the last block |
| `Day13.BlocksHaveNoEmptyLine` | src/day13.rs:79-86 | no block holds an empty line |
| `Day13.BlocksKeepLines` | src/day13.rs:79-86 | the blocks together hold exactly the non-empty lines, in order |
| `Day13.Read` | src/day13.rs:76-92 | the loop builds a pattern of every closed block and of a non-empty last block; an empty block panics |
| `Day13.ClosedBlockPanics` | src/day13.rs:81 | an empty closed block makes all of `read` panic |
| `Day13.SumReflections` | src/day13.rs:94-106 | the sum is defined exactly when every pattern has a reflection |
| `Day13.Solve` | src/day13.rs:94-106 | the answer is defined exactly when every block of the input is a pattern with a reflection line |
| `Day14.Roll` | src/day14.rs:36-40 | a line keeps its length when its rocks roll towards index 0 |
| `Day14.RollSettled` | src/day14.rs:37-40 | after rolling no round rock has an empty cell before it |
| `Day14.RollKeepsFixed` | src/day14.rs:29-31 | cube rocks and every other fixed cell stay put, and loose cells stay loose |
| `Day14.RollCount` | src/day14.rs:24-27 | rolling keeps the number of round rocks |
| `Day14.SettledStays` | src/day14.rs:37 | a settled line does not move |
| `Day14.RollIdempotent` | src/day14.rs:33-43 | rolling twice is rolling once |
| `Day14.TiltedLines` | src/day14.rs:33-79 | each line of the tilted platform is the rolled line |
| `Day14.TiltedKeepsFixed` | src/day14.rs:33-79 | every tilt keeps the cube rocks in place and loose cells loose |
| `Day14.TiltedSettled` | src/day14.rs:33-79 | after a tilt every line is settled towards that edge |
| `Day14.NorthSettled` | src/day14.rs:33-43 | after tilting north no round rock has an empty cell just above it |
| `Day14.TiltedLineRocks` | src/day14.rs:33-79 | every line keeps its number of round rocks |
| `Day14.TiltedIdempotent` | src/day14.rs:33-79 | tilting twice in one direction is tilting once |
| `Day14.SettledGridStays` | src/day14.rs:33-79 | a platform whose lines are settled does not move |
| `Day14.RocksAfterSet` | src/day14.rs:24-27 | overwriting a cell changes the rock count by what left and what came |
| `Day14.CycleOf` | src/day14.rs:81-86 | one cycle keeps the platform's size |
| `Day14.Platform.constructor` | src/day14.rs:13-22 | the lines become the table, with the first line's width and the line count |
| `Day14.Platform.MoveRock` | src/day14.rs:24-27 | the cell left becomes empty, then the cell reached holds a rock; nothing else changes |
| `Day14.Platform.Tilt` | src/day14.rs:33-79 | every line is rolled towards the edge of the direction |
| `Day14.Platform.Pass` | src/day14.rs:35-41 | one sweep across the lines at one distance from the edge leaves every line rolled up to that distance |
| `Day14.Platform.TiltNorth` | src/day14.rs:33-43 | the table becomes the platform tilted north |
| `Day14.Platform.TiltWest` | src/day14.rs:57-67 | the table becomes the platform tilted west |
| `Day14.Platform.TiltSouth` | src/day14.rs:45-55 | the table becomes the platform tilted south |
| `Day14.Platform.TiltEast` | src/day14.rs:69-79 | the table becomes the platform tilted east |
| `Day14.Platform.Cycle` | src/day14.rs:81-86 | the table becomes `CycleOf` the old table: north, west, south, east |
| `Day14.Platform.Slide` | src/day14.rs:36-40 | the inner `while` leaves the line rolled one position further |
| `Day14.Platform.SlideFrom` | src/day14.rs:37-40 | the loop stops the rock where the rolled line puts it |
| `Day14.Platform.Step` | src/day14.rs:38-39 | one pass moves the rock one position towards the edge |
| `Day14Cycles.Weights` | src/day14.rs:88-93 | one weight per row |
| `Day14Cycles.LoadFirstRow` | src/day14.rs:88-93 | the top row weighs the platform's height times its rocks, and the rows below weigh as the platform without it |
| `Day14Cycles.CalcLoad` | src/day14.rs:88-93 | the load is never negative and is zero exactly when there is no round rock |
| `Day14Cycles.Hash` | src/day14.rs:95-100 | a platform whose rows all have `w` cells hashes to `w` characters per row |
| `Day14Cycles.HashCell` | src/day14.rs:95-100 | on a platform of width `w` the cell in row `y` and column `x` is character `y * w + x` of the hash |
| `Day14Cycles.HashInjective` | src/day14.rs:95-100 | for platforms of one size, equal hashes mean equal platforms |
| `Day14Cycles.Solve1` | src/day14.rs:103-106 | the load of the platform tilted north |
| `Day14Cycles.IteratePeriodic` | src/day14.rs:133-134 | once a state comes back after `p` steps, it comes back after any multiple of `p` |
| `Day14Cycles.CorrectedState` | src/day14.rs:133-134 | from the first repeating state, the state after `n` steps is the one at the same place in the period, at index `s + 1 + (n - 1 - s) % p` |
| `Day14Cycles.IterNext` | src/day14.rs:120 | the next platform is one cycle on |
| `Day14Cycles.IterCompatible` | src/day14.rs:81-86 | cycles change only round rocks and empty cells |
| `Day14Cycles.VisitedBound` | src/day14.rs:119-131 | pairwise different platforms after cycles 1 to `i` are at most the finitely many the platform can become, so the loop ends |
| `Day14Cycles.SeenExtend` | src/day14.rs:127-129 | a platform with a new hash is a new platform |
| `Day14Cycles.SeenRepeat` | src/day14.rs:123-126 | a hash seen before means the platform of that cycle repeats, and no earlier cycle repeated |
| `Day14Cycles.RepeatFound` | src/day14.rs:123-126 | the loop stops at the first repeat and `v` holds the platforms up to it |
| `Day14Cycles.FindRepeat` | src/day14.rs:109-131 | the loop finds the first repeat and `v[k]` is the platform after cycle `k + 1` |
| `Day14Cycles.Solve2` | src/day14.rs:108-135 | the corrected `solve2`: the load after a billion cycles, read off the period |
| `Day14Cycles.AsWrittenLoad` | src/day14.rs:133-134 | `solve2` as written panics exactly when `start` is past a billion or `start` and the remainder are both 0 |
| `Day14Cycles.AsWrittenAgrees` | src/day14.rs:133-134 | as written, where the remainder is not 0, the load read is the load after a billion cycles |
| `Day14Cycles.AsWrittenMisreads` | src/day14.rs:133-134 | as written, where `start > 0` and the remainder is 0, the platform read is the one after `start` cycles, which differs from the one after a billion cycles |
| `Day14Cycles.WrapsToPeriodEnd` | src/day14.rs:133 | with remainder 0 a billion cycles end on the last platform of the period |
| `Day14Cycles.AsWrittenPanics` | src/day14.rs:133-134 | on the platform "." (first repeat at 0, period 1) `solve2` as written panics |
| `Day15.HashStep` | src/day15.rs:38 | one step of the fold stays below 256 |
| `Day15.Hash` | src/day15.rs:37-39 | HASH is below 256 |
| `Day15.HashSnoc` | src/day15.rs:37-39 | HASH of the empty string is 0, and one more character takes `((h + code) * 17) % 256` |
| `Day15.Solve1` | src/day15.rs:41-46 | the sum of the steps' HASH values, at most 255 per step |
| `Day15.OpOf` | src/day15.rs:21-28 | `Op::new` panics exactly on an empty step or a one-character digit step; a trailing digit makes an `=` step with that focal length and the label two characters shorter, anything else a `-` step with the label one shorter |
| `Day15.OpRoundTrip` | src/day15.rs:21-28 | parsing the text of a step gives the step back |
| `Day15.LensOf` | src/day15.rs:30-32 | the lens carries the step's label and focal length |
| `Day15.WithoutMembers` | src/day15.rs:60 | removing a label leaves exactly the lenses with other labels |
| `Day15.CutOnly` | src/day15.rs:57-60 | cutting out the only lens with a label keeps the others in order |
| `Day15.RemoveKeepsOrder` | src/day15.rs:59-61 | a `-` step takes out the lens with that label, if any, and keeps the order of the rest |
| `Day15.ApplyContents` | src/day15.rs:57-70 | after a step, its label holds its focal length (`=`) or nothing (`-`), and every other lens is as it was |
| `Day15.AssignPlace` | src/day15.rs:62-68 | `=` on a present label keeps its slot; on a new label it puts the lens at the back |
| `Day15.ApplyKeepsUnique` | src/day15.rs:57-70 | no box ever holds two lenses with one label |
| `Day15.Run` | src/day15.rs:49-71 | there are always 256 boxes |
| `Day15.RunWellFiled` | src/day15.rs:54-71 | every lens sits in the box its label hashes to, and no box holds a label twice |
| `Day15.BoxPowerSnoc` | src/day15.rs:76 | a lens pushed at the back counts with the new slot number |
| `Day15.PowerEmpty` | src/day15.rs:73-78 | empty boxes have no power |
| `Day15.Power` | src/day15.rs:73-78 | the focusing power is never negative and at least each box's share, its number times its lenses' power |
| `Day15.Apply` | src/day15.rs:55-70 | a step changes only the box its label hashes to, as `ApplyOp` says |
| `Day15.RunSnoc` | src/day15.rs:54-71 | one more step changes only its label's box |
| `Day15.Solve2` | src/day15.rs:48-79 | a step that does not parse panics; otherwise the focusing power of the boxes after every step |
| `Day16.Slash` | src/day16.rs:43-51 | a `/` mirror always gives one of the four headings |
| `Day16.Backslash` | src/day16.rs:53-61 | a `\` mirror always gives one of the four headings |
| `Day16.MirrorLaws` | src/day16.rs:43-62 | each mirror undoes itself and turns the beam a quarter turn, never straight on and never back |
| `Day16.Next` | src/day16.rs:23-67 | one or two successor states, each one step from the tile in its own heading |
| `Day16.NextDot` | src/day16.rs:26 | empty space keeps the heading |
| `Day16.NextPipe` | src/day16.rs:27-34 | `\|` passes a vertical beam and splits a horizontal one into up and down |
| `Day16.NextDash` | src/day16.rs:35-42 | `-` passes a horizontal beam and splits a vertical one into left and right |
| `Day16.NextMirror` | src/day16.rs:43-62 | a mirror gives exactly one successor, turned a quarter |
| `Day16.ExtendPath` | src/day16.rs:84 | the successor of a reached in-grid state is reached |
| `Day16.StartReaches` | src/day16.rs:74 | the start is reached |
| `Day16.PathInside` | src/day16.rs:75-86 | a set closed under successors that holds the start holds every in-grid state on any path |
| `Day16.ClosedIsReachSet` | src/day16.rs:75-86 | when the walk stops, the visited set is exactly the set of reachable in-grid states |
| `Day16.RectCard` | src/day16.rs:88 | a w×h grid has w·h tiles |
| `Day16.EnergizedBound` | src/day16.rs:88 | no beam energizes more tiles than the grid has |
| `Day16.CountEnergized` | src/day16.rs:70-89 | the number of distinct tiles among the beam states reachable from the start |
| `Day16.Pop` | src/day16.rs:76 | popping a state loses nothing pending except the popped state |
| `Day16.Visit` | src/day16.rs:84-85 | expanding a new state keeps the visited set closed and shrinks what is left to visit |
| `Day16.Solve1` | src/day16.rs:91-93 | the energy of the beam entering at the top-left heading right |
| `Day16.BestIsMax` | src/day16.rs:95-112 | the best over a list of starts is at least each start's energy and is reached by one of them |
| `Day16.BestAppend` | src/day16.rs:100-109 | the best over two runs of starts is the larger of their bests |
| `Day16.ColStartsMembers` | src/day16.rs:100-104 | the column starts are exactly the top tiles heading down and the bottom tiles heading up |
| `Day16.RowStartsMembers` | src/day16.rs:105-109 | the corrected row starts are the left tiles heading right and the right tiles heading left |
| `Day16.RowStartsAsWrittenMembers` | src/day16.rs:105-109 | the row starts as written are the left tiles heading left and the right tiles heading right |
| `Day16.EdgeStartsEntering` | src/day16.rs:95-112 | the corrected starts are exactly the beams entering the grid from outside |
| `Day16.ScanColumns` | src/day16.rs:100-104 | the first loop yields the best over the column starts |
| `Day16.ScanRowsAsWritten` | src/day16.rs:105-109 | the second loop as written yields the best over its row starts and the first loop's result |
| `Day16.ScanRows` | src/day16.rs:105-109 | the second loop with inward beams yields the best over the inward row starts |
| `Day16.Solve2AsWritten` | src/day16.rs:95-112 | `solve2` as written yields the best over its own starts |
| `Day16.AsWrittenStartsMembers` | src/day16.rs:100-105 | as written, the last column and row are never tried and horizontal beams head outward |
| `Day16.AsWrittenMissesEntering` | src/day16.rs:105-108 | the beam entering at the top-right corner heading left is never tried, and no horizontal start tried enters the grid |
| `Day16.DeadEnd` | src/day16.rs:77-79 | a start whose next step leaves the grid energizes only its own tile |
| `Day16.AsWrittenWasted` | src/day16.rs:107-108 | a horizontal start tried on an empty tile energizes one tile |
| `Day16.Solve2` | src/day16.rs:95-112 | corrected: the most tiles any beam entering the grid energizes, and some entering beam reaches it |
| `Day16.BestEntering` | src/day16.rs:95-112 | every entering beam energizes at most the corrected best, and one attains it |
| `Day17.RotClockwise` | src/day17.rs:40-48 | a clockwise quarter turn (y down): a heading, neither the same nor reversed |
| `Day17.RotCntClockwise` | src/day17.rs:49-57 | a counter-clockwise quarter turn: a heading, neither the same nor reversed |
| `Day17.RotationsInverse` | src/day17.rs:40-57 | the two rotations undo each other |
| `Day17.FourRotations` | src/day17.rs:40-48 | two clockwise turns reverse the heading and four are the identity |
| `Day17.CmpState` | src/day17.rs:28-32 | the order is reversed on `loss + h`, so the greatest state has the smallest priority |
| `Day17.Top` | src/day17.rs:102 | the heap pops a state of least `loss + h` |
| `Day17.GetNext` | src/day17.rs:81-87 | a state exactly when the tile straight ahead is inside, entered with its heat added |
| `Day17.GetRotated` | src/day17.rs:66-80 | each turned state exists exactly when its tile is inside, with budget `maxn - 1` and its heat added |
| `Day17.EnterEachAppend` | src/day17.rs:111-118 | entering two runs of cells is entering each in turn |
| `Day17.EnterEachMembers` | src/day17.rs:111-118 | each state pushed enters one of the cells, and every cell is entered |
| `Day17.TurnsEnter` | src/day17.rs:114-118 | the turn pushes enter the turned cells that lie inside |
| `Day17.ExpandIsEnter` | src/day17.rs:111-118 | an expansion enters exactly the legal moves, in order |
| `Day17.SuccessorsMembers` | src/day17.rs:111-118 | a move is straight on while budget remains, or a quarter turn once at least `minn` steps were taken, always staying inside |
| `Day17.SuccessorLaws` | src/day17.rs:111-118 | no move reverses, each goes one tile, a straight step spends one step of budget and a turn resets it to `maxn - 1` |
| `Day17.PathCells` | src/day17.rs:98-118 | every cell of a run is inside with a heading and a budget below `maxn` |
| `Day17.FrontRun` | src/day17.rs:111-118 | a run without its last move is a run, and its last move is legal |
| `Day17.ClosedVisit` | src/day17.rs:120 | marking a cell visited once its moves are waiting keeps the visited set closed |
| `Day17.PopCells` | src/day17.rs:102 | popping a state loses no waiting cell except its own |
| `Day17.SkipVisited` | src/day17.rs:104-106 | skipping an already-visited state keeps the search invariant |
| `Day17.WitnessStep` | src/day17.rs:111-118 | a state pushed from a witnessed state is witnessed by a legal run |
| `Day17.ExtendRun` | src/day17.rs:111-118 | a run extended by a legal move loses the entered tile's heat on top |
| `Day17.Pushed` | src/day17.rs:111-118 | every legal move from an expanded state is pushed, witnessed |
| `Day17.ExpandVisited` | src/day17.rs:111-120 | expanding an unvisited state keeps the search invariant and visits one more cell |
| `Day17.ClosedRuns` | src/day17.rs:101-122 | when the heap runs dry every run stays among the visited cells, so none reaches the finish |
| `Day17.Consistent` | src/day17.rs:71-83 | with every tile costing at least 1, the Manhattan estimate drops by at most the cost of the tile entered |
| `Day17.Frontier` | src/day17.rs:101-118 | a waiting state's priority bounds every run to an unvisited cell |
| `Day17.BestStart` | src/day17.rs:98-99 | the two starting states set up the least-loss bookkeeping |
| `Day17.BestSkip` | src/day17.rs:104-106 | skipping a visited state keeps the least-loss bookkeeping |
| `Day17.LeastAtPop` | src/day17.rs:102-110 | with positive tiles, a popped state at an unvisited cell lost no more than any run to its cell |
| `Day17.BestExpand` | src/day17.rs:111-120 | expanding the popped state records a loss that is least |
| `Day17.BestAtFinish` | src/day17.rs:107-109 | with positive tiles, the first state popped at the finish lost no more than any run to the finish |
| `Day17.Solve` | src/day17.rs:89-123 | panics on a grid under 2×2; otherwise the returned loss is that of a legal run to the finish, least when every tile is positive, and the unreachable panic means no run reaches the finish |
| `Day17.PushMoves` | src/day17.rs:111-118 | the heap gains exactly the expansion's states, in push order |
| `Day17.StartsWitnessed` | src/day17.rs:98-99 | the two starting states are witnessed by one-move runs |
| `Day18.DirByChar` | src/day18.rs:11-19 | exactly the eight letters and digits name a heading; anything else panics |
| `Day18.DirCodes` | src/day18.rs:11-19 | a heading's letter and digit both read back as it |
| `Day18.DirByCharInjective` | src/day18.rs:11-19 | no two letters, and no two digits, name the same heading |
| `Day18.NewMove` | src/day18.rs:28-35 | a parsed move has a heading and an `i64` length; malformed lines panic |
| `Day18.SplitMoveText` | src/day18.rs:29-32 | the text of a move splits into its letter, length and colour |
| `Day18.NewMoveText` | src/day18.rs:28-35 | parsing the text of a move gives the move back |
| `Day18.Colored` | src/day18.rs:37-42 | the recoded move has a heading and an empty colour; malformed colours panic |
| `Day18.ColoredText` | src/day18.rs:37-42 | a colour `(#` + five hex digits + heading digit `)` decodes to that length and heading |
| `Day18.Corners` | src/day18.rs:46-53 | one corner per trench |
| `Day18.Solve` | src/day18.rs:45-65 | the loop computes the lagoon volume: half the shoelace sum plus half the perimeter plus one |
| `Day18.CrossSumSteps` | src/day18.rs:55-60 | on a closed plan the shoelace sum is the sum over trenches of x·dy − y·dx |
| `Day18.Telescope` | src/day18.rs:46-53 | with axis-aligned trenches, x·y at each corner equals the running sum of x·dy + y·dx |
| `Day18.ShoelaceIsTwiceXDy` | src/day18.rs:55-62 | on a closed axis-aligned plan the shoelace sum is twice the sum of x times each vertical step |
| `Day18.RectangleCorners` | src/day18.rs:46-53 | a rectangle dug clockwise visits its four corners |
| `Day18.RectangleCross` | src/day18.rs:55-62 | the shoelace sum of an a×b rectangle is 2ab |
| `Day18.RectanglePerimeter` | src/day18.rs:64 | the trench around an a×b rectangle is 2a + 2b long |
| `Day18.Rectangle` | src/day18.rs:45-65 | an a×b rectangle holds (a+1)(b+1) cubic metres, trench included |
| `Day19.NewRange` | src/day19.rs:32-34 | a range exists exactly when `l <= r`, and then holds exactly the ratings `l..=r` |
| `Day19.Ratings` | src/day19.rs:27-30 | the ratings of a range, as a set |
| `Day19.LenCounts` | src/day19.rs:35-37 | `len` is the number of ratings the range holds |
| `Day19.NewRule` | src/day19.rs:56-70 | a text without `:` is the unconditional fallback (`'x'`, `'\0'`, 0, the text); a comparison's constant is a `u64`; malformed rules panic |
| `Day19.SplitRuleText` | src/day19.rs:57-64 | the text of a comparison rule splits at `:` into its head and destination |
| `Day19.NewRuleText` | src/day19.rs:56-70 | parsing the text of a comparison rule gives the rule back |
| `Day19.SplitRangeAsWritten` | src/day19.rs:38-44 | as written: a rule that is not a comparison leaves no failing piece |
| `Day19.SplitRange` | src/day19.rs:38-44 | corrected: the passing piece holds exactly the ratings of the range that pass, the failing piece exactly those that fail |
| `Day19.SplitRangeLengths` | src/day19.rs:35-44 | the two corrected pieces' lengths add up to the range's length |
| `Day19.SplitRangeAgrees` | src/day19.rs:38-44 | when the constant lies in the range (or just beside it on the empty side) the code as written gives the corrected pieces |
| `Day19.SplitRangeAsWrittenWidens` | src/day19.rs:40 | as written, a `>` constant below the range yields a passing piece reaching outside the range, and the pieces are longer than the range |
| `Day19.Apply` | src/day19.rs:71-79 | panics exactly when the part lacks the category; otherwise sends the part on exactly when it passes the comparison |
| `Day19.SplitRangesKeys` | src/day19.rs:102-115 | the fallback sends the whole box with no tail; both halves keep the categories, and every range but the compared one |
| `Day19.SplitRangesParts` | src/day19.rs:102-115 | a part of the box is in the passing half exactly when it passes the rule, and in the tail exactly when it fails it |
| `Day19.SplitRangesInside` | src/day19.rs:102-115 | both halves lie inside the box |
| `Day19.SplitRangesAsWritten` | src/day19.rs:102-115 | as written: the fallback keeps everything with no tail, and where the range split agrees so do the halves |
| `Day19.FirstMatch` | src/day19.rs:144-149 | the destination of the first rule that sends the part on |
| `Day19.RoutedUnfold` | src/day19.rs:123-133 | `apply_rules` pushes the first rule's half and goes on with the tail, stopping when the tail is empty |
| `Day19.KnownRest` | src/day19.rs:123-133 | the rules after the first test known categories of the tail too |
| `Day19.ApplyRules` | src/day19.rs:120-135 | the loop yields the boxes the rules send on, in order (corrected split) |
| `Day19.RoutedBoxRoute` | src/day19.rs:120-135 | a part of a box sent on lies in the starting box and the rules route it to that box's destination |
| `Day19.RoutedCovers` | src/day19.rs:120-135 | a part the rules route somewhere lies in a box sent to that destination |
| `Day19.RoutedDisjoint` | src/day19.rs:120-135 | the boxes sent on do not overlap |
| `Day19.RoutedKeys` | src/day19.rs:120-135 | the boxes sent on have the categories of the starting box |
| `Day19.EvalMore` | src/day19.rs:142-151 | an outcome reached with some fuel stays the same with more |
| `Day19.StuckNeverEnds` | src/day19.rs:142-151 | a part that passes no rule of its workflow never reaches "A" or "R" |
| `Day19.Run` | src/day19.rs:141-151 | the loop follows the workflows from "in" to "A" or "R" |
| `Day19.RatingSumRemove` | src/day19.rs:154 | the sum of the ratings does not depend on the order of the categories |
| `Day19.SumRatings` | src/day19.rs:154 | the sum of a part's ratings |
| `Day19.Solve1` | src/day19.rs:138-159 | the sum of the ratings of the accepted parts |
| `Day19.StartBox` | src/day19.rs:162-167 | the start box has exactly the categories x, m, a, s |
| `Day19.GoodEnd` | src/day19.rs:171-182 | when the loop stops the accepted boxes are disjoint and hold only wanted parts, and every wanted part once the pool is empty |
| `Day19.LastWanted` | src/day19.rs:172 | a part of the popped box is wanted exactly when its route from the box's workflow accepts it |
| `Day19.AcceptStep` | src/day19.rs:174-177 | a box at "A" joins the accepted boxes, keeping the loop invariant |
| `Day19.RejectStep` | src/day19.rs:178 | a box at "R" is dropped, keeping the loop invariant: none of its parts is wanted |
| `Day19.ExpandStep` | src/day19.rs:180 | a box at another workflow is replaced by the boxes `apply_rules` sends on, keeping the loop invariant |
| `Day19.ExpandRoutes` | src/day19.rs:180 | a part the workflow leads on to acceptance lies in one of the boxes sent on |
| `Day19.InitGood` | src/day19.rs:169 | the loop starts from the start box at "in" |
| `Day19.TotalAccept` | src/day19.rs:174-177 | the reference total adds an accepted box's volume |
| `Day19.TotalReject` | src/day19.rs:178 | the reference total drops a rejected box |
| `Day19.TotalRoute` | src/day19.rs:180 | the reference total routes a box through its workflow |
| `Day19.TotalStuck` | src/day19.rs:180 | an unknown workflow (or no fuel left) panics |
| `Day19.RoutedAsWrittenKeys` | src/day19.rs:120-135 | the boxes sent on as written keep the categories |
| `Day19.OverRoutedClipped` | src/day19.rs:120-135 | with the rules `x>10:R,x>20:R,A` on x in 1..=20 the corrected split sends x 11..=20 to R and x 1..=10 to A |
| `Day19.OverRoutedAsWritten` | src/day19.rs:40 | on the same rules as written, `x>20` on x in 1..=10 widens the tail back to 1..=20, so A receives the whole box |
| `Day19.Solve2AsWrittenOverCounts` | src/day19.rs:161-183 | on that workflow as written `solve2` counts 160000 parts; the corrected split counts 80000 |
| `Day19.CountAccepted` | src/day19.rs:174-177 | a box at "A" is popped and its volume added, keeping the loop invariant |
| `Day19.DropRejected` | src/day19.rs:178 | a box at "R" is popped and dropped, keeping the loop invariant |
| `Day19.RouteBox` | src/day19.rs:180 | a box at another workflow is popped and replaced by the boxes sent on |
| `Day19.Solve2` | src/day19.rs:161-183 | corrected: the total volume of disjoint accepted boxes that hold exactly the wanted parts, equal to the reference total |
| `Day20.Flip` | src/day20.rs:21-28 | flipping always changes the state |
| `Day20.FlipInvolution` | src/day20.rs:21-28 | flipping twice gives the state back |
| `Day20.NewModule` | src/day20.rs:48-64 | a parsed module starts fresh (off, silent, empty memory), is never a sink and has at least one destination; a line without ` -> ` panics |
| `Day20.HeadOfLine` | src/day20.rs:50-60 | `broadcaster`, `%name` and `&name` read back as their type and name |
| `Day20.SplitLine` | src/day20.rs:49-61 | a declaring line splits at ` -> ` into its two sides |
| `Day20.NewModuleLine` | src/day20.rs:48-64 | parsing the line of a module gives back its name, a fresh module of its type and its destinations |
| `Day20.Reset` | src/day20.rs:66-71 | a reset keeps the type and the remembered inputs, all LOW |
| `Day20.ResetForgets` | src/day20.rs:66-71 | a reset module depends only on its type and its inputs, not on earlier pulses |
| `Day20.Process` | src/day20.rs:73-111 | panics exactly when a conjunction does not remember the sender; never changes the type or the remembered inputs |
| `Day20.FlipFlopIgnores` | src/day20.rs:85-87 | a flip-flop ignores HIGH and no pulse |
| `Day20.FlipFlopToggles` | src/day20.rs:88-96 | on LOW a flip-flop toggles and sends HIGH exactly when it was off |
| `Day20.ConjunctionRemembers` | src/day20.rs:99-109 | a conjunction overwrites only the sender's memory and sends LOW exactly when every remembered input is HIGH |
| `Day20.BroadcastAndSink` | src/day20.rs:75-84 | the broadcaster sends on what it took in; a sink absorbs and sends nothing |
| `Day20.WiredShape` | src/day20.rs:73-111 | pulses never undo the wiring |
| `Day20.ResetAll` | src/day20.rs:214-216 | resetting all modules keeps their shape |
| `Day20.ResetAllForgets` | src/day20.rs:214-216 | after a reset, whatever earlier presses did is forgotten |
| `Day20.Declare` | src/day20.rs:127-133 | the declared modules and destination lists have the same names; an unreadable line panics |
| `Day20.WithInputs` | src/day20.rs:155-174 | the shape changes exactly by conjunctions learning inputs they did not remember |
| `Day20.DeclareFresh` | src/day20.rs:127-133 | every declared module starts fresh and is not a sink |
| `Day20.DeclarePrefixNone` | src/day20.rs:127-133 | one unreadable line makes the whole declaration panic |
| `Day20.SinksClose` | src/day20.rs:135-148 | after adding the sinks every destination is a module |
| `Day20.InputsWire` | src/day20.rs:155-174 | each conjunction then remembers exactly the modules that send to it, all LOW |
| `Day20.SetupWired` | src/day20.rs:123-154 | `Modules::new` leaves every destination a module and every conjunction remembering exactly its senders, all LOW |
| `Day20.Hop` | src/day20.rs:193-202 | one delivery keeps the set of modules |
| `Day20.Fanout` | src/day20.rs:193-203 | delivering to every destination keeps the set of modules |
| `Day20.HopOf` | src/day20.rs:194-202 | a delivery counts the pulse by its signal and queues the receiver unless it absorbed it |
| `Day20.FanoutSnoc` | src/day20.rs:193-203 | the fan-out to one more destination is one more delivery |
| `Day20.FanoutPrefixNone` | src/day20.rs:193-203 | a delivery that panics makes the fan-out panic |
| `Day20.PressShape` | src/day20.rs:176-207 | a press changes no module's type and no conjunction's inputs |
| `Day20.PressTally` | src/day20.rs:179-198 | in every press that ends, the counters hold the button pulse plus each delivered pulse exactly once, by its signal |
| `Day20.CarryingSplit` | src/day20.rs:194-198 | every delivered pulse is LOW or HIGH |
| `Day20.PressSafe` | src/day20.rs:176-207 | on wired modules a press from the broadcaster never panics |
| `Day20.PressLoopNeverFinds` | src/day20.rs:187-192 | looking for no pulse never stops the queue loop early |
| `Day20.PressNeverFinds` | src/day20.rs:176-207 | so the presses of `solve1` run to the end |
| `Day20.TotalsNoneLater` | src/day20.rs:249-252 | once a press fails, every longer run of presses fails |
| `Day20.TotalsStep` | src/day20.rs:249-252 | one more press adds its low and high counts |
| `Day20.TotalsLow` | src/day20.rs:249-252 | k presses count at least k low pulses |
| `Day20.FirstHit` | src/day20.rs:218-225 | the press found lies within the limit |
| `Day20.FirstHitIsFirst` | src/day20.rs:218-225 | the press `count_presses` returns is the first in which the module sends the signal |
| `Day20.FirstHitFinds` | src/day20.rs:218-225 | conversely, a first such press within the limit is found |
| `Day20.ViaSnoc` | src/day20.rs:236-239 | a path can be continued from a module that is not a conjunction |
| `Day20.AfterStep` | src/day20.rs:221-223 | a press that does not see the signal adds one to the presses counted |
| `Day20.CountStep` | src/day20.rs:221-223 | one loop turn either finds the press or moves on to the next |
| `Day20Modules.ViaStep` | src/day20.rs:233-240 | a path from a conjunction ends there; from any other module it goes on through a destination |
| `Day20Modules.StackStart` | src/day20.rs:230 | the search starts with the start module on the stack |
| `Day20Modules.PopConjunction` | src/day20.rs:234-236 | a conjunction popped is a main one |
| `Day20Modules.PopOther` | src/day20.rs:237-239 | another module popped is replaced by its destinations |
| `Day20Modules.SinksOf` | src/day20.rs:141-148 | adding the sinks one by one gives the sink-completed maps |
| `Day20Modules.DeclareAll` | src/day20.rs:127-133 | the loop over the lines inserts each line's module and destinations by name |
| `Day20Modules.AddSinks` | src/day20.rs:135-148 | every undeclared destination gets a sink module and no destinations |
| `Day20Modules.GatherFrom` | src/day20.rs:158-166 | the conjunction destinations of one module record it as a sender |
| `Day20Modules.Gather` | src/day20.rs:157-167 | every conjunction gets the list of its senders |
| `Day20Modules.RememberAll` | src/day20.rs:169-173 | extending a memory by the gathered senders remembers each as LOW |
| `Day20Modules.InputsOf` | src/day20.rs:169-173 | after the second loop every conjunction remembers its inputs |
| `Day20Modules.Modules.constructor` | src/day20.rs:150 | the object holds the given modules |
| `Day20Modules.Modules.New` | src/day20.rs:123-154 | the modules and destination lists the lines declare, completed and wired, started at `broadcaster`; an unreadable line panics |
| `Day20Modules.Modules.PrepareConj` | src/day20.rs:155-174 | every conjunction remembers a LOW from each sender |
| `Day20Modules.Modules.Processed` | src/day20.rs:209-212 | the receiver takes in the sender's output, everything else unchanged; a missing module or an unknown sender panics |
| `Day20Modules.Modules.PressButton` | src/day20.rs:176-207 | the press the reference model describes: its counts, whether the signal was seen and the modules after |
| `Day20Modules.Modules.Deliver` | src/day20.rs:193-203 | counts and delivers the output to every destination in order, queueing the receivers that did not absorb it |
| `Day20Modules.Modules.Forward` | src/day20.rs:193-204 | sending the front module's pulse to its destinations and clearing its input keeps the loop in step with the reference press for one more turn, or ends the press in `None` (no destination list, a panicking delivery) |
| `Day20Modules.Modules.Reset` | src/day20.rs:214-216 | every module reset |
| `Day20Modules.Modules.CountPresses` | src/day20.rs:218-225 | from a reset, the number of the first press in which the module sends the signal |
| `Day20Modules.MainSearch` | src/day20.rs:227-244 | the stack search's result contains what it had already found |
| `Day20Modules.MainSearchMoreFuel` | src/day20.rs:231-241 | a search that comes back within some number of pops comes back with the same set given more pops |
| `Day20Modules.Modules.MainConjunctions` | src/day20.rs:227-244 | the loop computes `MainSearch` from the start; a set it returns holds exactly the conjunctions reached from the start without passing another conjunction |
| `Day20Modules.LcmCovers` | src/day20.rs:256-262 | the lcm of the counts is a multiple of every main conjunction's first LOW press |
| `Day20Modules.Solve1` | src/day20.rs:248-254 | the product of the low and high pulses over the presses |
| `Day20Modules.CountMains` | src/day20.rs:257-259 | a count for every main conjunction, each its first LOW press from a reset; `None` only when some main conjunction has no LOW press within the limit |
| `Day20Modules.CountedMiss` | src/day20.rs:257-259 | a search that found no LOW press from modules of the same shape finds none from the reset modules |
| `Day20Modules.Solve2` | src/day20.rs:256-262 | the ghost `searched` is true exactly when `MainSearch` from the start comes back, and a failed search gives `None`; once the main conjunctions are found, `None` exactly when there is none or one has no LOW press within the limit; otherwise a positive common multiple of their first LOW presses that divides every other, so their lcm |
| `Day21.Nbrs` | src/day21.rs:13-15 | four neighbours |
| `Day21.NbrsAreSteps` | src/day21.rs:13-15 | the neighbours are exactly the points one step away |
| `Day21.WrapCoord` | src/day21.rs:28-29 | `((a % n) + n) % n` with truncating `%` is the Euclidean remainder, in `0..n` |
| `Day21.WrapShift` | src/day21.rs:28-29 | adding `n` to a truncated remainder of either sign keeps its class |
| `Day21.Wrapped` | src/day21.rs:25-31 | the garden repeated in every direction |
| `Day21.WrappedInGrid` | src/day21.rs:25-31 | inside the garden the repeated garden is the garden |
| `Day21.WrappedPeriodic` | src/day21.rs:25-31 | the repeated garden has period w across and h down |
| `Day21.AvailableAgree` | src/day21.rs:17-23 | `available1` holds exactly inside the garden where `available2` holds |
| `Day21.StepExactly` | src/day21.rs:50-55 | a step reaches exactly the allowed points one step from a current position |
| `Day21.StepInGrid` | src/day21.rs:17-19 | with `available1` every point reached is a plot of the garden |
| `Day21.ReachBounded` | src/day21.rs:44-61 | with `available1` never more positions than the garden has plots |
| `Day21.ReachDistance` | src/day21.rs:44-61 | after k steps every position is at most k from the start, with the parity of k |
| `Day21.StepFrom` | src/day21.rs:50-55 | every point after a step has a neighbour before it |
| `Day21.DistStep` | src/day21.rs:50-55 | one more step changes the distance by one |
| `Day21.ReachBoundedRepeats` | src/day21.rs:17-23 | whatever `available1` reaches, `available2` reaches too |
| `Day21.StepBoundedRepeats` | src/day21.rs:50-55 | one step keeps that inclusion |
| `Day21.CellsCard` | src/day21.rs:17-19 | a w×h garden has w·h plots |
| `Day21.CountSteps` | src/day21.rs:44-61 | the k-th entry is the number of positions reachable in exactly k+1 steps |
| `Day21.StartUnique` | src/day21.rs:33-42 | there is only one first 'S' |
| `Day21.GetStart` | src/day21.rs:33-42 | the first 'S' row by row; panics exactly when there is none |
| `Day21.Solve1` | src/day21.rs:63-65 | the plots reachable in exactly n steps from 'S', at most the garden's size; panics without 'S' or for n = 0 |
| `Day22.ParseBricks` | src/day22.rs:114-117 | the bricks exactly when every line parses, one brick per line in order; otherwise a panic |
| `Day22.ParsePosText` | src/day22.rs:15-32 | the text of a corner reads back as the corner |
| `Day22.ParseShapeText` | src/day22.rs:29-35 | the text of a brick whose coordinates fit in `u32` reads back as the brick |
| `Day22.CellsCorners` | src/day22.rs:62-69 | the fill loops cover the brick from corner to corner when p1 <= p2, and nothing otherwise |
| `Day22.RecordHas` | src/day22.rs:62-69 | recording a brick's cubes maps each to its id and leaves the other cubes as they were |
| `Day22.RecordMore` | src/day22.rs:62-69 | recording two sets of cubes one after the other records their union |
| `Day22.OccupiedIds` | src/day22.rs:46-101 | a layer under a footprint is occupied exactly when some id is found there |
| `Day22.RestStops` | src/day22.rs:43-60 | a brick comes to rest on the ground or on an occupied cube |
| `Day22.RestFalls` | src/day22.rs:43-60 | every level it passes on the way down is free, it never moves up and never below 1 |
| `Day22.Brick.constructor` | src/day22.rs:29-35 | a new brick has the parsed corners and no neighbours |
| `Day22.Brick.Prepare` | src/day22.rs:37-40 | records the ids just above and just below the brick, corners unchanged |
| `Day22.Brick.AboveIds` | src/day22.rs:72-86 | the ids recorded just above the top of the brick |
| `Day22.Brick.BelowIds` | src/day22.rs:87-101 | the ids recorded just under the bottom of the brick |
| `Day22.Brick.CanBeDesintegrated` | src/day22.rs:103-110 | exactly when every brick resting on it has more than one brick under it |
| `Day22.Brick.Drop` | src/day22.rs:42-70 | the brick falls to its resting level and its cubes are recorded under its id, nothing else changes |
| `Day22.AnyOccupied` | src/day22.rs:46-55 | whether some cube under the footprint is occupied |
| `Day22.FillBox` | src/day22.rs:62-69 | every cube of the box is recorded under the id |
| `Day22.CollectIds` | src/day22.rs:75-98 | the ids found in one layer under the footprint |
| `Day22Stack.DroppedPlaceable` | src/day22.rs:42-60 | dropping keeps the footprint and moves the brick down, never below 1 |
| `Day22Stack.PermutationOfIds` | src/day22.rs:119-122 | a reordering of the ids holds each id once |
| `Day22Stack.DropOrder` | src/day22.rs:119-127 | a permutation of the ids, sorted by the lowest z of the bricks |
| `Day22Stack.DropOrderAscends` | src/day22.rs:119-127 | every brick is dropped once, in ascending order of lowest z |
| `Day22Stack.TraceStep` | src/day22.rs:131-133 | each drop extends the trace of drops |
| `Day22Stack.TraceWaiting` | src/day22.rs:131-133 | before its drop a brick stands as the input put it |
| `Day22Stack.TraceGrows` | src/day22.rs:131-133 | the map of cubes only grows |
| `Day22Stack.DropRests` | src/day22.rs:42-70 | a dropped brick rests on the ground or on the map it fell onto |
| `Day22Stack.TraceRests` | src/day22.rs:131-133 | bricks dropped earlier still rest after later drops |
| `Day22Stack.TraceOwned` | src/day22.rs:131-133 | every recorded cube holds the id of its own brick |
| `Day22Stack.RestingBelow` | src/day22.rs:87-101 | a resting brick off the ground has a brick below it |
| `Day22Stack.SettledStack` | src/day22.rs:129-133 | after all drops every brick lies on the ground or on another brick, and every cube holds its own brick's id |
| `Day22Stack.IdsAtOwned` | src/day22.rs:72-101 | the ids found in the map are bricks |
| `Day22Stack.Prepare` | src/day22.rs:113-140 | one brick per line, dropped in order of lowest z into an empty map, then each brick's above and below sets recorded |
| `Day22Stack.MakeBricks` | src/day22.rs:114-117 | a fresh brick per line with that line's corners |
| `Day22Stack.DropAll` | src/day22.rs:131-133 | every brick dropped in the sorted order |
| `Day22Stack.PrepareAll` | src/day22.rs:135-137 | every brick's above and below sets recorded |
| `Day22Stack.RemovableLeavesSupport` | src/day22.rs:103-110 | a removable brick leaves every brick it holds up with another supporter |
| `Day22Stack.CountRemovableAtMost` | src/day22.rs:142-148 | no more removable bricks than bricks |
| `Day22Stack.Solve1` | src/day22.rs:142-148 | the number of bricks that can be removed |
| `Day22Stack.CountFalls` | src/day22.rs:150-164 | every brick counted falls when `id` is removed, and (with consistent links) every brick that would fall is counted; `id` itself is left out |
| `Day22Stack.PushAbove` | src/day22.rs:156-161 | the bricks above the popped one are gathered only when all their supporters are, every stacked brick is gathered, and with consistent links no brick lying on a gathered one is missed |
| `Day22Stack.StartGathered` | src/day22.rs:151-153 | the walk starts with only `id` falling and waiting |
| `Day22Stack.PopGathered` | src/day22.rs:155-156 | popping hands over the bricks waiting on the popped one |
| `Day22Stack.PushGathered` | src/day22.rs:157-160 | a brick whose supporters all fall is pushed and counted |
| `Day22Stack.SkipGathered` | src/day22.rs:157 | a brick with a supporter that does not fall is passed over |
| `Day22Stack.EndGathered` | src/day22.rs:154-163 | when the stack is empty no falling brick is missed |
| `Day22Stack.Solve2` | src/day22.rs:166-171 | the sum of the falls over every brick, each sound (and closed under consistent links) |
| `Day23.Neighbour` | src/day23.rs:166-171 | a neighbour that passes the bounds test is on the map and one step away |
| `Day23.NeighbourComplete` | src/day23.rs:166-171 | the four directions reach every neighbour on the map |
| `Day23.AddNew` | src/day23.rs:24-31 | the extended path is queued at the back exactly when `next` is not yet one of its tiles |
| `Day23.ExtendGrows` | src/day23.rs:24-31 | an extended path has one tile more, stands on `next` and keeps its finish |
| `Day23.ComparePaths` | src/day23.rs:33-45 | paths are ordered by their number of tiles |
| `Day23.ComparePathsOrder` | src/day23.rs:38-51 | the order is a total preorder |
| `Day23.SimplePoints` | src/day23.rs:33-35 | a walk that never repeats a tile has as many tiles as steps plus one |
| `Day23.Expand` | src/day23.rs:156-180 | a slope pushes the one tile downhill, a plain tile every open neighbour; any other tile panics |
| `Day23.StartQueued` | src/day23.rs:146-147 | the queue starts with the one-tile path at the start, which covers every hike |
| `Day23.GrowQueued` | src/day23.rs:156-180 | every path queued records a hike from the start |
| `Day23.FinishCovered` | src/day23.rs:151-154 | a path at the finish leaves the queue and raises the maximum to cover its hikes |
| `Day23.NextPrefix` | src/day23.rs:156-180 | the next prefix of a longer hike is among the paths the expansion pushes |
| `Day23.GrowCovered` | src/day23.rs:149-181 | expanding the head keeps every complete hike represented in the queue |
| `Day23.Solve1` | src/day23.rs:139-183 | the number of steps of the longest complete hike: one is reached, and none is longer |
| `Day23Segments.LocAddNew` | src/day23.rs:69-78 | the extended path is pushed exactly when `next` has not been passed |
| `Day23Segments.LocExtendSkipsFirst` | src/day23.rs:69-78 | the first tile is never recorded; extending adds the tile left behind when it is not the first |
| `Day23Segments.BetweenAvoidsEnds` | src/day23.rs:69-78 | neither end is among the tiles a trail passes |
| `Day23Segments.ExtendTracks` | src/day23.rs:69-78 | an extended path still tracks a walk from `p1` |
| `Day23Segments.FindPath` | src/day23.rs:81-109 | a non-empty answer is the set of tiles some way from `p1` to `p2` passes between its ends |
| `Day23Segments.PutBothSymmetric` | src/day23.rs:121-132 | filing a segment under both ends keeps the table symmetric |
| `Day23Segments.PutBothSegments` | src/day23.rs:121-132 | the table holds only segments between key tiles |
| `Day23Segments.CollectPaths` | src/day23.rs:111-137 | a symmetric table of segments between key tiles; every pair `i < j` is searched and its answer logged, each non-empty answer is a way between the two tiles, and for distinct key tiles each one is filed under both ends |
| `Day23Segments.FiledStep` | src/day23.rs:118-131 | filing one pair's answer under both ends keeps every earlier pair filed, for distinct key tiles |
| `Day25Info.GraphInfo.constructor` | src/day25.rs:45-47 | the bookkeeping starts empty |
| `Day25Info.GraphInfo.InsertNode` | src/day25.rs:23-32 | a known name keeps its id and changes nothing; a new name gets the next id, which names it from then on |
| `Day25Info.GraphInfo.GetNewNodeId` | src/day25.rs:15-21 | the next id, unused before, named by the two names one after the other |
| `Day25Parse.Words` | src/day25.rs:51 | the words of a line split on single spaces, trailing colons trimmed |
| `Day25Parse.LineEdges` | src/day25.rs:56-66 | a line declares one wire from its first name to each further name |
| `Day25Parse.BuiltInsertKnown` | src/day25.rs:52-59 | inserting a known name changes nothing |
| `Day25Parse.BuiltInsertNew` | src/day25.rs:52-59 | a new name gets the next id and a node with no edges |
| `Day25Parse.IncidentAddEdge` | src/day25.rs:61-63 | a new edge listed at both its ends keeps every edge listed at both ends |
| `Day25Parse.BuiltEdge` | src/day25.rs:61-65 | edge `|el|` joins the two names of the next wire |
| `Day25Parse.EdgeListSnoc` | src/day25.rs:50-67 | the wires of one more line follow those before it |
| `Day25Parse.LineStart` | src/day25.rs:52-55 | a line's first name is known and has a node |
| `Day25Parse.WireStep` | src/day25.rs:56-66 | one more wire of the line: its name inserted and an edge from the first name to it |
| `Day25Parse.LineEnd` | src/day25.rs:56-66 | a line adds one edge per name after the first |
| `Day25Parse.AddWire` | src/day25.rs:57-65 | one pass of the inner loop keeps the graph built from the wires so far |
| `Day25Parse.ParseLine` | src/day25.rs:51-66 | one line's names and wires added, with consecutive edge ids |
| `Day25Parse.ParseGraph` | src/day25.rs:42-70 | edge ids run from 0 in order of the wires, each joining its wire's names and listed at both ends; the names known are the names written |
| `Day25Graph.MergedListsEnd` | src/day25.rs:113-134 | after merging every listed edge still ends at the node listing it |
| `Day25Graph.MergedEndsList` | src/day25.rs:113-134 | after merging every edge is listed by both its ends |
| `Day25Graph.MergedIncident` | src/day25.rs:113-134 | merging keeps the lists consistent and leaves one node fewer |
| `Day25Graph.JoinMerged` | src/day25.rs:116-133 | dropping the shared edges and renaming the ends of the others merges `u` and `v` into the new node |
| `Day25Graph.CutCovers` | src/day25.rs:187-193 | the edges from one side of the contracted graph to the rest are original edges, and include every original edge with exactly one end on that side |
| `Day25Graph.Identity` | src/day25.rs:186 | before any merge every node stands for itself |
| `Day25Graph.RenamedAll` | src/day25.rs:126-133 | a merge renames what each original node stands for |
| `Day25Graph.ContractsStart` | src/day25.rs:186 | the graph is a contraction of itself |
| `Day25Graph.ContractsStep` | src/day25.rs:191 | each merge keeps the graph a contraction of the original one |
| `Day25Graph.ContractedCut` | src/day25.rs:186-194 | the edges from a merged node to the rest are a cut of the original graph |
| `Day25Graph.DistinctCard` | src/day25.rs:143-174 | a list without repeats has as many members as entries |
| `Day25Graph.MostAdjacentSnoc` | src/day25.rs:152-174 | adding a node with most edges into the added ones keeps the maximum-adjacency order |
| `Day25Graph.MostConnected` | src/day25.rs:155-167 | a node not yet added with most edges into the added ones, and those edges |
| `Day25Graph.CutStep` | src/day25.rs:189 | one more edge listed with its names |
| `Day25Graph.CutNames` | src/day25.rs:179-189 | every edge of the set listed once, with the names of its parsed ends |
| `Day25Graph.PhaseStep` | src/day25.rs:169-173 | one step of a phase adds a most-connected node |
| `Day25Graph.PhaseEnd` | src/day25.rs:152-176 | a phase lists every node once; `t` is last, `s` the one before, `es` the edges from `t` to all others |
| `Day25Graph.PickCut` | src/day25.rs:81-90 | one shared edge per pair of names, collected; an unknown name or a pair without a shared edge panics |
| `Day25Graph.Reach` | src/day25.rs:92-110 | the nodes added hold the start, are closed under the uncut edges and are each reached from the start |
| `Day25Graph.Graph.constructor` | src/day25.rs:69 | the graph holds the given nodes and edges |
| `Day25Graph.Graph.RemoveEdges` | src/day25.rs:119-121 | the shared edges are removed and nothing else changes |
| `Day25Graph.Graph.RenameEnds` | src/day25.rs:126-133 | every end `u` or `v` becomes the new node, the edge set unchanged |
| `Day25Graph.Graph.Join` | src/day25.rs:113-134 | merges `u` and `v` into a node with the next id, named by their two names joined, with both name maps updated and every earlier name kept |
| `Day25Graph.Graph.MergeInto` | src/day25.rs:116-133 | removes `u` and `v`, drops their shared edges and gives node `n` their other edges, keeping the lists consistent and leaving one node fewer |
| `Day25Graph.Graph.GetMinSlice` | src/day25.rs:142-177 | one maximum-adjacency phase: every node added once, `t` last, `s` before it, and `es` the edges from `t` to the rest |
| `Day25Graph.Graph.CountComp` | src/day25.rs:78-111 | the size of the component of the first named node once the picked edges are cut; panics on an unknown name or an empty list |
| `Day25Graph.Graph.Contract` | src/day25.rs:190-192 | one `join` of the last two nodes of a phase keeps the graph a contraction of the original, keeps every node name and leaves one node fewer |
| `Day25Graph.Graph.FindTriplet` | src/day25.rs:185-195 | three edges, by their parsed names, that cut the original graph in two; panics when the graph shrinks to one node; every node name is kept |
| `Day25Reach.WalkSnoc` | src/day25.rs:102-107 | a walk extended by an uncut edge is a walk |
| `Day25Reach.ClosedHoldsWalk` | src/day25.rs:96-108 | a closed set holding the start holds every node reached from it |
| `Day25Reach.ClosedIsComponent` | src/day25.rs:96-110 | a closed set of reached nodes holding the start is exactly the component |
| `Day25Reach.PendingPop` | src/day25.rs:97-100 | popping a new node adds it with all its edges still to do |
| `Day25Reach.PendingPush` | src/day25.rs:105-106 | pushing an end keeps every node accounted for |
| `Day25Reach.PendingDone` | src/day25.rs:102-107 | a cut edge, or one whose ends are added or waiting, is done |
| `Day25Reach.PendingClosed` | src/day25.rs:96-108 | with the stack empty and nothing left, the set is closed |
| `Day25Reach.SearchEnd` | src/day25.rs:96-110 | when the search ends the set is closed and every node in it reached |
| `Day03.GearOf` | src/day03.rs:74-80 | a gear with exactly two numbers lists two distinct part numbers, and no other part number touches it |
| `Day04.Scores` | src/day04.rs:41-48 | one score per card, each the card's points |
| `Day09.DiffTable` | src/day09.rs:14-23 | the table starts with the input row and holds at least one row of differences |
| `Day10.Move` | src/day10.rs:110-136 | a step of the walk goes to a neighbour on the map and never straight back |
| `Day12.Table` | src/day12.rs:23-52 | every table has one entry more than the row has springs |
| `Day14.Tilted` | src/day14.rs:33-79 | tilting keeps the platform's height and width |
| `Day07.LeadingCardDecides` | src/day07.rs:79-87 | different first cards decide the order, whatever follows |

## Left out

- Fixed-width integer overflow (`u32`, `u64`, `i32`, `i64`, `usize`) is not modelled. Integers are unbounded, and no member asks its caller to stay in range. This affects the `lcm` products in day 8 and day 20, the shoelace sum in day 18, the box volumes in day 19 and `v - 1` at `v = 0` in `Day19.SplitRangeAsWritten`.
- A debug-build underflow panic (`n - 1` at `n = 0`, `max - 1` on an empty collection) is mostly modelled as `None`. The exceptions, which exclude the underflow by a precondition instead, are `Day22.Brick.Prepare`, `Day22.Brick.BelowIds` and the day 23 `Grid` predicate, listed below.
- `Utils.PointVar.IDiv`: requires both divisor fields to be nonzero. The source panics on a division by zero, and that panic is not modelled.
- Strings are sequences of characters. Byte offsets returned by `find` and used for slicing become character offsets, which agree for the ASCII puzzle inputs.
- Reading the input file, printing the answers and comparing them with the known answers in every `run` are left out. The parsed input is a parameter of each `Solve`.
- `HashMap` and `HashSet` iteration order is not modelled. Where the source's result could depend on it, the model either fixes an order or lets the caller choose one, and proves the result for every choice.
- `Day07.Solve`: the card counts are gathered in a fixed order. The result does not depend on it, because only the multiset of counts is used.
- `Day07.Solve`: requires valid and pairwise distinct hands. When two hands are equal, no card pair differs, so the `.next().unwrap()` in `order` (src/day07.rs:84) panics. That panic is not modelled.
- `Day08.Solve2`: the starting nodes (those ending in `A`) come in an order chosen by the caller. Each must reach a node ending in `Z`. The source would loop forever if one did not.
- `Day08.CountSteps`: requires that the walk stops, either because the instructions are empty or because a stopping node is reached. The source loops forever otherwise.
- `Day08.Solve1`: requires, for a non-empty instruction string, that `AAA` reaches `ZZZ`, for the same reason.
- `Day10.CollectCycle`: requires that the pipe walk from the start closes into a loop, since the source's `loop` never ends otherwise.
- `Day12.CountIsWays`: the equivalence between the memoised count and the brute-force count of arrangements is proved for positive group lengths only, on the padded row with a leading `.` that `solve` builds.
- `Day04.Solve2`: requires every copied card index `id + 1 ..= id + n` to lie inside the card list. The source panics on an out-of-bounds index there; that panic is not modelled.
- `Day14Cycles.Solve2`: requires a rectangular, non-empty platform, and so do `Day16`, `Day17`, `Day21` and `Day23` (the `Grid`, `Valid` and `Field` predicates). Ragged rows would make the source index out of bounds in ways that are not modelled.
- `Day17.Solve`: the answer is proved to be the loss of a legal run, and to be None only when no run reaches the finish. It is proved least only under `Positive`, meaning every tile is at least 1, which is what makes the A* heuristic consistent. Puzzle inputs are digits 1–9.
- `Day19.Run`: takes a `fuel` bound on the number of workflow hops. A workflow cycle would make the source loop forever, and the model returns `None` when the fuel runs out. The same holds for `Day19.Solve1` and `Day19.Solve2`.
- `Day19.Solve1`: the text parser (`Xmas::new`, `Rule::from_str`, the line split in `parse`) is not part of this model. Workflows and parts are given as values.
- `Day20Modules.Modules.PressButton`: takes a `fuel` bound on the pulses delivered in one press. `Day20Modules.Modules.CountPresses`, `Day20Modules.Solve1` and `Day20Modules.Solve2` also take a `limit` on button presses where the source loops until a hit.
- `Day20Modules.Solve2`: the main conjunctions are visited in a fixed order instead of the source's `HashSet` order. The lcm of the press counts does not depend on it.
- `Day20Modules.Modules.MainConjunctions`: takes a `fuel` bound on the names popped, since a cycle through modules other than conjunctions would make the source's stack grow forever. `MainSearch` returns `None` when that fuel runs out, and `MainSearchMoreFuel` shows that more fuel never changes a search that came back. A `None` from fuel is not told apart from a panic on a missing module or destination list, except by retrying with more fuel.
- `Day21`: `solve2` and its `quad` interpolation work in floating point (`f64`) and are not part of this model. Only the step counting behind `solve1` is modelled.
- `Day22Stack.DropOrder`: sorts the brick ids stably by lowest `z`. The source sorts the keys of a `HashMap`, so bricks of equal height may be dropped in a different order. The settled stack is the same for any order among bricks of equal lowest z, but that is not proved.
- `Day22Stack.CountFalls`: takes a `fuel` bound. Soundness (every counted brick falls) is proved for all inputs. Closure (every falling brick is counted) is proved only under `Linked`: the above and below lists must agree. That is not proved to follow from `Prepare`, since it needs non-overlapping input bricks.
- `Day22Stack.Solve2`: same fuel bound and same `Linked` restriction as `Day22Stack.CountFalls`.
- `Day22.Brick.Prepare`, `Day22.Brick.BelowIds`: require the brick's lower corner to be at height 1 or more. The source's `z - 1` underflows for a brick at height 0, and that panic is not modelled. Puzzle bricks start at height 1.
- `Day22.Brick.CanBeDesintegrated`: requires every id above the brick to name a brick of height 1 or more. The source's lookup of such an id unwraps, and its `z - 1` underflows; neither panic is modelled.
- `Day23`: the `Grid` predicate also requires at least two columns. The source's finish column `map[0].len() - 2` (src/day23.rs:141) underflows on a narrower grid, and that panic is not modelled.
- `Day23.Solve1`: takes a `fuel` bound on queue pops.
- `Day23Segments.FindPath`: takes a `fuel` bound and is proved sound only. A non-empty answer is a real path between the two junctions; that every path is found is not proved.
- `Day23Segments.CollectPaths`: takes the same `fuel` bound. That every path found is filed in the table is promised only when the key tiles are distinct. The paths are recorded in a ghost log as the sets returned by `FindPath`.
- `Day23`: `solve2` (the longest path over the segment graph) is not modelled, because `run` never calls it and reports a constant. Its segment collection is modelled in `Day23Segments`.
- `Day25Graph.MostConnected`: ties among equally connected nodes are broken by a fixed order instead of `HashSet` order. The same applies to `Day25Graph.CutNames` and `Day25Graph.PickCut`. The cut weight is proved for every choice.
- `Day25`: `solve` returns a constant and does not call the graph code, so that constant is not modelled. The graph code it once called (parsing, contraction, minimum-cut phases and component count) is.

## Findings

| source | as written | input that shows it | evidently intended | confidence | as-written member | corrected member |
|---|---|---|---|---|---|---|
| src/day05.rs:28 | the guard for the piece of a seed range below a map entry compares `i.start != self.start`, so it can push an empty or wrong piece | seeds `0..10` with entries `0..5 → 100` and `5..10 → 200`: the answer is 5 instead of 100 | push the leading piece only when it is non-empty | not executed | `Day05.MapRngPushesEmptyPiece`, `Day05.SolveReportsEmptyPiece` | `Day05.Solve1`, `Day05.Solve2` |
| src/day07.rs:86 | `order` returns `Equal` when the first hand is stronger at the first differing card | hands `"A"` and `"K"`: `"A"` against `"K"` is `Equal` while `"K"` against `"A"` is `Less` | a total order: `Greater` when the first hand is stronger | not executed | `Day07.OrderAsWritten`, `Day07.OrderAsWrittenNotAntisymmetric` | `Day07.Order`, `Day07.OrderAntisymmetric` |
| src/day14.rs:133-134 | the load after a billion cycles is read at `v[start + x - 1]` | the platform `"."` (start 0, period 1) underflows and panics; with `start > 0` and a billion minus `start` a multiple of the period, the platform after `start` cycles is read instead of the one after a billion | read the state of cycle `start + (N - 1 - start) mod period` | not executed | `Day14Cycles.AsWrittenLoad`, `Day14Cycles.AsWrittenPanics`, `Day14Cycles.AsWrittenMisreads` | `Day14Cycles.Solve2`, `Day14Cycles.CorrectedState` |
| src/day16.rs:100-105 | the edge scan runs over `0..w-1` and `0..h-1` and aims beams from the far edges outward | any grid at least 2 wide: the beam entering at the top-right heading left is never tried, and some tried beams leave at once | try every edge tile, heading into the grid | not executed | `Day16.Solve2AsWritten`, `Day16.AsWrittenMissesEntering`, `Day16.AsWrittenWasted` | `Day16.Solve2` |
| src/day19.rs:38-44 | a rule splits a range at its bound without clipping to the range, so an empty side is widened | workflow `in{x>10:R,x>20:R,A}` on ratings 1..=20: 160000 accepted combinations instead of 80000 | clip both sides of the split to the range | not executed | `Day19.SplitRangeAsWrittenWidens`, `Day19.Solve2AsWrittenOverCounts` | `Day19.SplitRange`, `Day19.Solve2` |
