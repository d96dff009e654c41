# Advent of Code 2023 solvers, modelled in Dafny

This project models the puzzle solvers of an Advent of Code 2023 repository, days 2 to 25 except day 6. Each solver reads a puzzle text, computes a number and prints it. Each day is one Dafny module in its own file, named after the puzzle: `Cubes` (day 2), `Schematic` (3), `Scratchcards` (4), `Almanac` (5), `CamelCards` (7), `Wasteland` (8), `Oasis` (9), `PipeMaze` (10), `Cosmic` (11), `Springs` (12), `Mirrors` (13), `Dish` (14), `LensLibrary` (15), `Contraption` (16), `Crucible` (17), `Lagoon` (18), `Workflows` (19), `Pulses` (20), `Garden` (21), `Bricks` (22), `LongWalk` (23), `Hail` (24) and `Snowverload` (25). Two shared modules hold the common pieces: `Wrappers` (Option and Result) and `Text` (the string idioms the solvers use: `int()`, `split`, `strip`, `index`, `replace`).

The form of the model follows the form of the code:
- Python functions that only compute a value are Dafny functions.
- Loops that update variables are methods with loop invariants, each proved against a reference function.
- Classes whose methods change their fields are Dafny classes: the `Deque` of day 9, the priority queue of day 17, and the module store and press loop of day 20.

Where the source raises an exception (a `KeyError`, a `ValueError`, an exhausted iterator), the model returns an error value, and its contract says when that happens. Where a modelled parser accepts less than Python does, the difference is listed under "Left out".

The interval engine of day 5 (seed ranges through the stage chain) and of day 19 (part boxes through the workflows) is modelled with the worklist it uses. Its results are proved to cover exactly the points the stage maps or workflows send on.

Loops that could run forever carry a `fuel` bound, in days 5, 8, 10, 14, 19, 20 and 22. They stand in for a cyclic stage chain, an unreachable destination, a pipe that never closes, a spin cycle whose repeat is not bounded, cyclic workflows, pulses that never die out or a cycle of flip-flops, and a cyclic support map. Running out of fuel is its own error value and is allowed at any fuel. The other outcomes are proved whatever the fuel, under the premises that "Left out" lists member by member.

## Model

| member | source | states |
|---|---|---|
| Cubes.WithinTotalMeaning | day02/main.py:26 | the `all(...)` test is true exactly when every (colour, count) pair has a known colour within its total; false only at a known colour over its total; raises at the first unknown colour reached before any failing pair |
| Cubes.FirstError | day02/main.py:24-29 | no game from index `i` on raises exactly when every game's test evaluates, and a reported colour is the one some game raises at |
| Cubes.PossibleGames | day02/main.py:23-29 | `possible_games` fails exactly when some game's test raises; otherwise it gives one entry per game |
| Cubes.PossibleGamesMeaning | day02/main.py:24-28 | entry `g` is `g + 1` when every count of game `g` fits the bag and 0 otherwise |
| Cubes.PeakBounds | day02/main.py:37-40 | the maximum kept for a colour bounds every count of it and is one of them (or 0 when the colour is absent) |
| Cubes.RaiseFacts | day02/main.py:38-40 | one `color_to_maxcount[color] = max(count, get(color, 0))` keeps keys distinct, adds the colour, and changes only that colour's value |
| Cubes.RaiseAllFacts | day02/main.py:36-40 | folding pairs into the maxima keeps keys distinct, the keys become the old ones plus the pairs' colours, and each value is the max of the old value and the colour's peak |
| Cubes.MaximaMeaning | day02/main.py:35-40 | a game's maxima hold each colour it shows exactly once, and each value is that colour's largest count |
| Cubes.RaiseAllConcat | day02/main.py:36-40 | folding two runs of pairs equals folding the first and then the second |
| Cubes.RaiseReveal | day02/main.py:37-40 | the inner loop leaves the maxima equal to the fold of the revealed set's pairs |
| Cubes.PowerOfGame | day02/main.py:35-41 | one game's power is the product of its per-colour maxima |
| Cubes.PowerOf | day02/main.py:32-42 | `power_of` gives one entry per game, each the product of that game's per-colour maxima |
| Schematic.RunEnd | day03/main.py:31 | a run of digits found by `[0-9]+` ends at the first non-digit, and every character before it is a digit |
| Schematic.RunsFromFacts | day03/main.py:31 | `re.finditer(r"[0-9]+", row)` yields maximal digit runs, left to right and disjoint, and every digit lies in one of them |
| Schematic.ScanToMeaning | day03/main.py:22-24 | scanning one row window raises IndexError exactly when it runs past the row; otherwise it finds exactly the symbol cells of the window, with their characters |
| Schematic.ScanWindowMeaning | day03/main.py:19-24 | an empty or out-of-grid window is skipped, a window past its row raises, otherwise its symbols are exactly the symbol cells inside it |
| Schematic.CollectMeaning | day03/main.py:19-24 | collecting the windows in order fails exactly when one of them raises; otherwise it finds exactly the symbol cells of any window |
| Schematic.WindowsAdjacent | day03/main.py:12-17 | the four check intervals cover exactly the cells adjacent to the number's span (left, right, the row above and the row below, with diagonals) |
| Schematic.NeighborMeaning | day03/main.py:10-25 | `neighbor_symbols` raises exactly when an adjacent row is shorter than the span's reach; otherwise it returns exactly the symbol cells adjacent to the number |
| Schematic.NeighborDistinct | day03/main.py:10-25 | `neighbor_symbols` reports each cell at most once |
| Schematic.NeighborSymbols | day03/main.py:10-25 | the method's loops compute the window specification exactly, error included |
| Schematic.ScanSegment | day03/main.py:22-24 | the inner `for i` loop computes the window scan of one row exactly |
| Schematic.FoundTouches | day03/main.py:32 | `neighbor_symbols` returns a non-empty list exactly when some symbol touches the number |
| Schematic.PartsOfMeaning | day03/main.py:28-34 | the part numbers are, in order, the values of exactly the numbers some symbol touches; the scan fails exactly when some number's scan raises |
| Schematic.FindPartNumbers | day03/main.py:28-34 | `find_part_numbers` equals the part-number specification over all numbers of the schematic, row by row |
| Schematic.RowParts | day03/main.py:31-33 | one row of the outer loop extends the result by that row's part numbers |
| Schematic.AddStarsAt | day03/main.py:41-43 | recording one number adds its value to the part list of each adjacent `*` exactly once |
| Schematic.GearsOfMeaning | day03/main.py:38-43 | the list kept for a `*` holds, in order, the values of exactly the numbers adjacent to it |
| Schematic.Ratios | day03/main.py:44-48 | the ratio map keeps exactly the stars with two parts |
| Schematic.RatiosMeaning | day03/main.py:44-48 | a star is a gear exactly when two numbers touch it, and its ratio is their product |
| Schematic.RecordStars | day03/main.py:41-43 | the inner loop adds the number to the list of every adjacent `*` |
| Schematic.FindGearRatios | day03/main.py:37-48 | `find_gear_ratios` fails with the first scan error, otherwise returns the ratios of the stars with exactly two parts |
| Schematic.RowGears | day03/main.py:40-43 | one row of the outer loop extends the star lists by that row's numbers |
| Scratchcards.Points | day04/main.py:16 | `int(2 ** (n - 1))` with Python's truncation of 0.5 to 0; its values are stated by Scratchcards.PointsValue |
| Scratchcards.PointsValue | day04/main.py:16 | `int(2 ** (n - 1))` is 0 for no matches and `2^(n-1)` otherwise, doubling with each further match |
| Scratchcards.CalcPoints | day04/main.py:14-18 | one score per card: 0 exactly when the card has no matching number, else `2^(matches-1)` |
| Scratchcards.MatchCounts | day04/main.py:38 | each card's match count is the size of the intersection of its winning and held numbers |
| Scratchcards.Copies | day04/main.py:34-41 | the copy counts are, card by card, the copy-count recurrence: one original plus the copies won from earlier cards |
| Scratchcards.WonSettled | day04/main.py:36-40 | a card's count is final before the loop reaches it: later cards never add to it |
| Scratchcards.WonMonotone | day04/main.py:40 | counts never decrease as the loop runs |
| Scratchcards.CopyCountFacts | day04/main.py:35-40 | every card has at least one copy, and the first card exactly one |
| Scratchcards.Example | day04/main.py:21-33 | the worked example: match counts 4, 2, 2, 1, 0, 0 give copies 1, 2, 4, 8, 14, 1 |
| Scratchcards.CardWins | day04/main.py:34-41 | `card_wins` raises IndexError exactly when some card wins past the last card; otherwise it returns the copy counts |
| Scratchcards.HandOut | day04/main.py:39-40 | the inner loop adds card i's count to the next `matches` cards, or hits the end of the list |
| Almanac.IntersectIntervals | day05/main.py:28-31 | `None` exactly when the intervals are apart; otherwise the sorted middle endpoints, which for proper intervals are `(max lo, min hi)` and hold exactly the integers in both |
| Almanac.SortedMiddleIsMiddle | day05/main.py:31 | the two endpoints kept are the second and third of the four once sorted |
| Almanac.SubtractIntervals | day05/main.py:34-39 | at most two pieces, left first; each of `(a.lo, b.lo-1)` and `(b.hi+1, a.hi)` is present exactly when it is non-empty |
| Almanac.SubtractComplements | day05/main.py:34-39 | for `b` inside `a`, `b` and the pieces hold every integer of `a` exactly once and lie inside `a` |
| Almanac.SplitPartitions | day05/main.py:63-76 | splitting a piece against a rule's source keeps its integers, once each, and the remainders miss the source |
| Almanac.RangeToInterval | day05/main.py:42-44 | `(start, start+length-1)` holds exactly the `length` integers from `start`, and is empty when `length <= 0` |
| Almanac.Shift | day05/main.py:70 | moving both ends by `dest - src` moves every integer by that amount and keeps the count |
| Almanac.StagePointAtRule | day05/main.py:61-76 | an integer is moved by the first rule whose source holds it |
| Almanac.StagePointUnmatched | day05/main.py:77-78 | an integer no rule holds passes to the next stage unchanged |
| Almanac.ApplyRule | day05/main.py:61-76 | one rule's pass over the queue keeps the partition of the job: claimed parts shifted by that rule and missing every earlier source, unmapped pieces missing all sources so far |
| Almanac.ApplyRules | day05/main.py:59-78 | after all rules of a stage, every integer of the job lies in exactly one claimed part or unmapped piece, and each claimed part is shifted by the first rule holding it |
| Almanac.RemappedEnd | day05/main.py:77-78 | the state after the last rule is the stage's remapping |
| Almanac.ChainStopsAtLocation | day05/main.py:56-58 | "location" jobs are not forwarded, so the chain reaches it at one depth |
| Almanac.LocationDepthUnique | day05/main.py:56-59 | there is only one depth at which the chain is at "location" |
| Almanac.HullBounds | day05/main.py:57 | the accumulated `minmax` holds every location interval and shares each end with one of them |
| Almanac.LocationStep | day05/main.py:55-58 | popping a location job folds it into `minmax` and keeps the worklist invariant |
| Almanac.ExpandStep | day05/main.py:59-78 | popping any other job and pushing its remapped pieces keeps the worklist invariant: every pending integer traced one stage further, the seed range covered once |
| Almanac.ForwardTraced | day05/main.py:67-78 | the pushed jobs stand one hop further down the chain and each integer sits where the stage maps it |
| Almanac.ExpandCovers | day05/main.py:67-78 | replacing a job by its pieces keeps every seed integer in exactly one job |
| Almanac.StagedExpand | day05/main.py:59-78 | every pushed job waits at the chain's next stage |
| Almanac.WorklistStart | day05/main.py:52-53 | the initial job list `[("seed", range)]` satisfies the invariant |
| Almanac.WorklistFinished | day05/main.py:54-79 | once the list is empty, `minmax` is the least and largest location of the seed range |
| Almanac.DoneFacts | day05/main.py:56-58 | each finished job's integers started in the seed range and were mapped through the whole chain |
| Almanac.ToLocation | day05/main.py:47-79 | for positive-length ranges and rules, the result is the exact minimum and maximum location of the seed range; a stage missing from either dictionary raises KeyError, named with the stage |
| Almanac.PairedSeeds | day05/main.py:104 | part two pairs consecutive seeds `(start, length)` |
| Almanac.SingleSeeds | day05/main.py:111 | part one gives each seed as a range of length 1 |
| Almanac.MinLocation | day05/main.py:82-95 | `min()` of no ranges raises; otherwise the result is the least location of any seed integer, or the first range's error |
| CamelCards.BumpKeys | day07/main.py:16 | `d[c] = d.get(c, 0) + 1` appends a new card with count 1 or raises a known card's count by one, keys staying distinct |
| CamelCards.TallyCounts | day07/main.py:14-16 | the dictionary holds each card of the hand once, in first-appearance order, with its number of occurrences |
| CamelCards.TallySum | day07/main.py:14-17 | the counts add up to the number of cards and none is zero |
| CamelCards.SortDescFacts | day07/main.py:17 | `sorted(..., reverse=True)` gives a descending permutation of the counts |
| CamelCards.TypeStrength | day07/main.py:13-33 | the loop-built dictionary gives the type of the hand, or the raise for an unknown shape |
| CamelCards.PartitionsOfFive | day07/main.py:18-31 | the seven listed shapes are all the partitions of 5 |
| CamelCards.ClassifiedFive | day07/main.py:18-31 | every listed shape adds up to 5 |
| CamelCards.TypeDefined | day07/main.py:13-33 | `type_strength` raises exactly for hands that do not have five cards |
| CamelCards.Numeral | day07/main.py:46-56 | the base-13 value of the ranks, first card most significant, is below `13^len`; it is undefined (KeyError) exactly when some card is not a card |
| CamelCards.NumeralInjective | day07/main.py:46-56 | equally long hands with the same card value are the same hand |
| CamelCards.JokerWeakest | day07/main.py:9-10 | with jokers, J ranks below every other card |
| CamelCards.HandStrength | day07/main.py:59-60 | `hand_strength`: the type weighted above every card value, or none when either is undefined; CamelCards.TypeOutranks and CamelCards.HandStrengthInjective state the order it gives |
| CamelCards.TypeOutranks | day07/main.py:59-60 | a higher type beats a lower one whatever the cards |
| CamelCards.HandStrengthInjective | day07/main.py:59-60 | no two different five-card hands have equal strength |
| CamelCards.BestIndex | day07/main.py:38-42 | the first non-J entry of largest count, or none when all entries are J |
| CamelCards.ReplaceJ | day07/main.py:43 | `hand.replace("J", c)` changes every J into c and nothing else |
| CamelCards.JokerChoice | day07/main.py:36-43 | jokers become the most frequent non-J card, the earliest-appearing among ties; a hand of only jokers stays as it is |
| CamelCards.FirstAppearance | day07/main.py:37-42 | earlier dictionary entries appear earlier in the hand, which decides ties of `max` |
| CamelCards.JTypeStrength | day07/main.py:36-43 | `jtype_strength` is the type of the hand with its jokers replaced |
| CamelCards.JHandDefined | day07/main.py:63-64 | every five-card hand of valid cards has a joker strength |
| CamelCards.SortByStrengthFacts | day07/main.py:78 | the sort by strength gives an ascending permutation of the hands that keeps hands of equal strength in input order |
| CamelCards.SortStable | day07/main.py:78 | `sorted` is stable: the hands of each strength come out in the order they went in |
| CamelCards.StableUnique | day07/main.py:78 | two ascending orders that keep the same order within each strength are the same order, so a stable sort has only one possible result |
| CamelCards.Winnings | day07/main.py:75-86 | the winnings are defined exactly when every hand has a strength; they are the ranked bid sum of an ascending permutation of the hands that keeps tied hands in input order |
| CamelCards.TiedBids | day07/main.py:75-79 | two hands of equal strength bidding 5 and then 7 win 1 * 5 + 2 * 7 = 19, as the stable `sorted` ranks them |
| CamelCards.WinningsStable | day07/main.py:75-86 | the winnings equal the ranked bid sum of any ascending order that keeps tied hands in input order, so tied hands with different bids are ranked as `sorted` ranks them |
| CamelCards.AscendingUnique | day07/main.py:78 | with distinct strengths the ascending order is unique |
| CamelCards.WinningsOrderFree | day07/main.py:75-86 | when no two hands tie, the winnings do not depend on the order the hands are listed in |
| Wasteland.DirectionIndex | day08/main.py:17-18 | 'L' picks the left successor and every other character the right one |
| Wasteland.Navigate | day08/main.py:21-30 | the loop computes the walk: the counter and node at the first destination, a KeyError at an unknown node, or the trap exception |
| Wasteland.WalkArrives | day08/main.py:21-30 | a successful walk ends at a destination after exactly `j - i` moves, and no earlier node on the way was a destination |
| Wasteland.TrappedStays | day08/main.py:25-26 | a node whose successors are both itself is a dead end: every number of moves stays on it |
| Wasteland.WalkTrapped | day08/main.py:25-26 | the trap exception is raised only at a reachable non-destination node that leads only to itself |
| Wasteland.GcdDivides | day08/main.py:36 | `math.gcd` divides both numbers and is positive unless both are 0 |
| Wasteland.Lcm | day08/main.py:33-37 | the accumulating loop computes `lcm(*values)`, and `values[0]` of no values is an IndexError |
| Wasteland.LcmStepMultiple | day08/main.py:36 | one step on positive numbers gives a positive common multiple of both |
| Wasteland.LcmMultiple | day08/main.py:33-37 | for positive numbers the result is a positive multiple of every one of them, and the lcm of one number is itself |
| Wasteland.Phases | day08/main.py:45 | the step counts are, start by start, those of `navigate`; any failing walk fails the whole |
| Wasteland.NavigateAll | day08/main.py:44-46 | `navigate_all` is the lcm of the step counts, or the first walk's error |
| Wasteland.PhasesFail | day08/main.py:45 | an error in an earlier start's walk is the error of the whole comprehension |
| Wasteland.NavigateAllMultiple | day08/main.py:44-46 | when every walk takes at least one step, the answer is a multiple of every walk's length |
| Oasis.Deque.constructor | day09/main.py:9 | a new deque holds the given values |
| Oasis.Deque.Append | day09/main.py:24 | `append` adds one value at the back and changes nothing else |
| Oasis.Deque.AppendLeft | day09/main.py:25 | `appendleft` adds one value at the front and changes nothing else |
| Oasis.Deltas | day09/main.py:17-22 | the row of differences is one entry shorter than its row, or empty below an empty row |
| Oasis.NonZeroFromAt | day09/main.py:16 | the scan of `any(map(bool, row))` finds a non-zero entry exactly when the row has one |
| Oasis.AnyNonZeroAt | day09/main.py:16 | `any(map(bool, row))` holds exactly when some entry is non-zero |
| Oasis.ExtendedDeltas | day09/main.py:23-25 | extrapolation is consistent: the differences of the extended row are the extended differences |
| Oasis.SingleFails | day09/main.py:16-26 | a single non-zero value has an empty row below it, and `extrapolate` fails on it |
| Oasis.Constant | day09/main.py:14-26 | a constant row of at least two values is extended by that value at both ends |
| Oasis.Arithmetic | day09/main.py:14-26 | an arithmetic progression of at least three values is extended by one step at each end |
| Oasis.Differences | day09/main.py:15-22 | the first loop builds fresh, distinct deques, each the differences of the one above, ending at the first row with no non-zero entry |
| Oasis.ExtendRow | day09/main.py:24-25 | one step of the second loop grows a row by the ends of the row below |
| Oasis.ExtendRows | day09/main.py:23-25 | from the bottom up every row but the last grows by the ends of the already grown row below |
| Oasis.EndsChain | day09/main.py:16-26 | every row extrapolates exactly when the bottom row is non-empty (else `[-1]` raises IndexError) |
| Oasis.GrownChain | day09/main.py:23-26 | growing the rows bottom-up leaves each row starting and ending with its two extrapolated values |
| Oasis.EndsFlat | day09/main.py:16-26 | a row with no non-zero entry gives its own first and last values |
| Oasis.ExtendStep | day09/main.py:24-25 | any other row gives its first value less, and its last value plus, those of the row below |
| Oasis.Extrapolate | day09/main.py:14-26 | `extrapolate` returns the two extrapolated values exactly when they exist, and leaves the history extended by them; on IndexError the history is unchanged |
| Oasis.CollectFails | day09/main.py:30 | the list comprehension fails exactly when one history cannot be extrapolated |
| Oasis.CollectValues | day09/main.py:30 | otherwise it holds each history's pair, in order |
| Oasis.TotalsConcat | day09/main.py:31 | the two sums split over concatenated lists |
| Oasis.ReturnedAll | day09/main.py:30 | once every history has been extrapolated the list is complete |
| Oasis.ReturnedFail | day09/main.py:30 | one failing history makes the whole comprehension fail |
| Oasis.ExtrapolateAll | day09/main.py:30 | the comprehension returns the pairs of all histories or the first error; on success each history is extended, and on an error the histories before the failing one are extended and the rest unchanged |
| Oasis.ExtrapolateSum | day09/main.py:29-31 | `extrapolate_sum` fails exactly when some history cannot be extrapolated, leaving the histories before it extended and the rest unchanged; otherwise it returns the sums of the values before and after |
| PipeMaze.ToBox | day10/main.py:12-19 | the six pipe letters become box-drawing characters and every other character stays |
| PipeMaze.PipesAreKeys | day10/main.py:21-28 | the table of pipes lists exactly the keys of `pipe_to_neighbors` |
| PipeMaze.ExitsTable | day10/main.py:21-28 | each pipe's two exits, in the order its set iterates |
| PipeMaze.ExitsDistinct | day10/main.py:21-28 | every pipe joins two different unit directions, and no two pipes join the same two |
| PipeMaze.ParseLine | day10/main.py:52-55 | a parsed line is the stripped line with its pipe letters translated |
| PipeMaze.ParseInput | day10/main.py:51-55 | one parsed line per input line |
| PipeMaze.GetPos | day10/main.py:58-62 | the tile at (x, y) exactly when the point is on the grid, else None |
| PipeMaze.FindS | day10/main.py:66-71 | the first `S` in row-major order from a point on, or none when there is none |
| PipeMaze.FindSFirst | day10/main.py:66-71 | no `S` lies between the scan's start and the one found |
| PipeMaze.FirstFit | day10/main.py:72-85 | the first pipe in table order whose neighbours both lead back to the start |
| PipeMaze.StartOf | day10/main.py:65-86 | `start_of` returns the first `S` and the first fitting pipe; StopIteration exactly when there is no `S`, and the exception when no pipe fits |
| PipeMaze.Step | day10/main.py:97-101 | one step leaves the pipe by an exit that does not lead back; a non-pipe tile raises |
| PipeMaze.PathSnoc | day10/main.py:95-101 | one more step extends a path of unit steps through pipes |
| PipeMaze.PathClosed | day10/main.py:95-102 | a path whose next position is its start is a closed loop of unit steps |
| PipeMaze.TracePipe | day10/main.py:89-102 | the trace starts at `S`, goes first by the first exit of its pipe, never returns to `S` before the end, moves by unit steps, and leaves each pipe by an exit other than the one it came from |
| PipeMaze.Follow | day10/main.py:94-102 | the loop of `trace_pipe` from a given start and pipe keeps the same properties |
| PipeMaze.Farthest | day10/main.py:134 | `(len + 1) // 2` is half the loop length, rounded up |
| PipeMaze.Closed | day10/main.py:115 | the loop with its last tile in front and its first tile behind |
| PipeMaze.ClosedTriple | day10/main.py:118-120 | the zipped triples are each tile with its wrapped neighbours |
| PipeMaze.PipeVecs | day10/main.py:116-121 | the dictionary's keys are the tiles of the loop |
| PipeMaze.PipeVecsAt | day10/main.py:116-121 | on a loop that visits each tile once, each tile maps to the tile before it minus the tile after it |
| PipeMaze.IsEnclosed | day10/main.py:105-111 | `is_enclosed` holds exactly when the ray's winding sum is non-zero |
| PipeMaze.RayWindingRow | day10/main.py:105-111 | the ray sums the crossings strictly to the right on the same row; a tile of the last column is never enclosed |
| PipeMaze.EnclosedInRowMeaning | day10/main.py:123-128 | one row's part of the comprehension is exactly its enclosed tiles, left to right |
| PipeMaze.EnclosedUpToMeaning | day10/main.py:122-129 | the comprehension holds exactly the enclosed tiles, each once |
| PipeMaze.RowEnclosed | day10/main.py:124-127 | the inner loop appends one row's enclosed tiles |
| PipeMaze.FindEnclosed | day10/main.py:114-129 | `find_enclosed` is the number of tiles off the loop whose ray winds |
| PipeMazeRevisit.RevisitingStart | day10/main.py:65-86 | on the 3-by-3 field `.│┐ / S─┘ / │..`, `S` takes the `┌` shape |
| PipeMazeRevisit.RevisitingFits | day10/main.py:72-85 | there, of the six pipes only `┌` fits at `S` |
| PipeMazeRevisit.RevisitingSteps | day10/main.py:95-101 | there the trace enters the tile (1, 1) twice before it returns to `S`, so a trace need not visit each tile once |
| Cosmic.ParseGalaxies | day11/main.py:28-35 | the set holds exactly the positions of `#` in the non-blank stripped lines |
| Cosmic.MaxAlong | day11/main.py:9 | `max(occupied_n[d])` is an occupied coordinate no galaxy exceeds |
| Cosmic.EmptyCount | day11/main.py:12-16 | the empty coordinates from 1 to n are at most n |
| Cosmic.OffsetCount | day11/main.py:10-16 | the offset of n is `factor - 1` per empty coordinate from 1 to n; coordinate 0 never adds |
| Cosmic.OffsetUnit | day11/main.py:7 | the default factor 1 leaves every coordinate where it is |
| Cosmic.OffsetMonotone | day11/main.py:12-16 | for factor at least 1 the offsets never decrease along an axis |
| Cosmic.OffsetOrder | day11/main.py:17 | for factor at least 1 expansion keeps the strict order of coordinates |
| Cosmic.AxisOffsets | day11/main.py:10-16 | the inner loop builds, for 0..max, each coordinate's offset |
| Cosmic.ExpandGalaxies | day11/main.py:7-17 | `max` of no galaxies raises; otherwise one moved point per galaxy, each coordinate plus its axis's offset |
| Cosmic.MovedUnit | day11/main.py:7-17 | with factor 1 every galaxy stays where it is |
| Cosmic.MovedOrder | day11/main.py:7-17 | with factor at least 1 galaxies keep their order, and their ties, along each axis |
| Cosmic.Distance | day11/main.py:20-21 | the Manhattan distance is zero exactly for equal points and at least each coordinate difference |
| Cosmic.DistanceMetric | day11/main.py:20-21 | distance is symmetric and obeys the triangle inequality |
| Cosmic.ListPairs | day11/main.py:24-25 | the pairs (i, j) with i < j below n |
| Cosmic.ListPairsSize | day11/main.py:24-25 | there are n(n-1)/2 of them |
| Cosmic.ListPairsGrow | day11/main.py:24-25 | the pairs below n are those below n - 1 and, apart from them, those ending at n - 1 |
| Springs.NonEmpty | day12/main.py:14 | `filter(len, pieces)` keeps only non-empty pieces, taken from the input |
| Springs.NonEmptyConcat | day12/main.py:14 | filtering distributes over concatenation |
| Springs.SplitRow | day12/main.py:13-14 | every piece of `split_row` is non-empty and free of `.` |
| Springs.Lengths | day12/main.py:18 | `map(len, pieces)` is the length of each piece |
| Springs.LengthsAreSame | day12/main.py:18 | comparing lengths piece by piece is the tuple comparison of `validate_record` |
| Springs.SplitRowDotFront | day12/main.py:13-14 | a leading `.` adds only an empty piece |
| Springs.SplitRowDotBack | day12/main.py:13-14 | a trailing `.` adds only an empty piece |
| Springs.SplitRowHead | day12/main.py:13-14 | the springs up to the first `.` are the first piece |
| Springs.SplitRowWhole | day12/main.py:13-14 | a row without `.` is one piece, or none when empty |
| Springs.LStripDots | day12/main.py:31 | `lstrip('.')` removes a prefix, leaves no leading `.` and keeps the unknowns |
| Springs.RStripDots | day12/main.py:23 | `rstrip` removes a suffix, leaves no trailing `.` and keeps the unknowns |
| Springs.StripDots | day12/main.py:23 | `strip('.')` leaves no `.` at either end and keeps the unknowns |
| Springs.FirstSep | day12/main.py:27 | `re.search(r"[.?]")` finds the first `.` or `?`, or none when there is none |
| Springs.Replace | day12/main.py:41 | `replace('?', c, 1)` at the first `?` changes that one position only |
| Springs.ReplaceUnknowns | day12/main.py:41 | filling in one unknown leaves one fewer |
| Springs.FitsValidate | day12/main.py:17-18 | a one-spring-at-a-time group scanner agrees with `validate_record` |
| Springs.RefKnown | day12/main.py:50 | a row without unknowns has the single filling, itself |
| Springs.RefSplitAt | day12/main.py:36-49 | the fillings split on the first unknown into those with `.` and those with `#` there |
| Springs.RefBound | day12/main.py:21-50 | at most `2^unknowns` fillings match |
| Springs.RefStrip | day12/main.py:23 | stripping `.` from the ends never changes which fillings match |
| Springs.RefHead | day12/main.py:28-34 | a known leading group closed by `.` matches only the first group of its length |
| Springs.DotSumValue | day12/main.py:30-34 | of the splits of the groups, only the first group can validate a leading group of damaged springs |
| Springs.Count | day12/main.py:21-50 | `count_arrangements`, following the source's splitting at the first separator and its choice at the first `?`; Springs.CountIsRef proves it equal to the count of matching fillings |
| Springs.CountIsRef | day12/main.py:21-50 | `count_arrangements` counts exactly the fillings of the unknowns whose groups match |
| Springs.CountAtDot | day12/main.py:28-35 | the `.` case is the sum over splits of the groups |
| Springs.CountAtUnknown | day12/main.py:36-49 | the `?` case is the count with `.` plus the count with `#` |
| Springs.CountAtKnown | day12/main.py:50 | the last case is 1 exactly when the stripped row validates |
| Springs.CountKnown | day12/main.py:50 | a row without unknowns counts 1 when it matches its groups and 0 otherwise |
| Springs.CountFacts | day12/main.py:21-50 | the count never exceeds `2^unknowns`, and stripping `.` never changes it |
| Springs.SumArrangements | day12/main.py:53-54 | `sum_arrangements`, the counts of all records added; Springs.SumArrangementsRef proves it the number of matching fillings over all records |
| Springs.SumArrangementsRef | day12/main.py:53-54 | `sum_arrangements` is the number of matching fillings over all records |
| Springs.Times | day12/main.py:68 | `tuple * n` has n times the length |
| Springs.JoinRepeat | day12/main.py:67 | n copies joined by `?` have n lengths plus n - 1, and as many more unknowns |
| Springs.UnfoldFacts | day12/main.py:64-69 | the unfolded row is five copies with four `?` between them and the groups five times over |
| Springs.ParseBlocks | day12/main.py:68 | `map(int, ...split(","))` parses every field or raises on the first that is not a number |
| Springs.ParseLine | day12/main.py:63-69 | a line parses only when it splits into exactly two fields; the row and groups are those fields, unfolded when asked |
| Springs.ParseInput | day12/main.py:57-71 | one record per non-blank line, each parsed by `ParseLine` |
| Springs.ParseAll | day12/main.py:62-70 | the loop parses every line or fails on one that does not parse |
| Mirrors.Diff | day13/main.py:20-26 | the number of differing cell pairs of `zip` is at most either length |
| Mirrors.Reach | day13/main.py:19 | `num_rows_reflected` fits on both sides of the line |
| Mirrors.Above | day13/main.py:17 | the reversed upper side: the lines just above line i, nearest first |
| Mirrors.FirstFromSpec | day13/main.py:14-29 | scanning from line i returns the first candidate line from there, or 0 when there is none |
| Mirrors.ReflectionSpec | day13/main.py:11-29 | the line found is 0 or a line in 1..len-1 other than `exclude` with exactly `num_smudges` differing cells, and no earlier line qualifies |
| Mirrors.FindReflection | day13/main.py:11-29 | the loop with its early return finds that same first qualifying line, or 0 |
| Mirrors.DiffConcat | day13/main.py:22-25 | differences split over concatenated lines of matching lengths |
| Mirrors.FlattenDiff | day13/main.py:22-25 | the flattened sides differ cell for cell exactly where the lines do |
| Mirrors.DiffZero | day13/main.py:20-26 | no differing cells means equal lines |
| Mirrors.LineDiffsZero | day13/main.py:20-26 | no differing cells means equal sides |
| Mirrors.DiffOne | day13/main.py:20-26 | one differing cell means the lines agree everywhere but one position |
| Mirrors.LineDiffsOne | day13/main.py:20-26 | one differing cell means the sides agree everywhere but one cell of one line |
| Mirrors.SidesShape | day13/main.py:17-19 | in a rectangle the two compared sides have the same shape |
| Mirrors.MirrorExact | day13/main.py:14-28 | in a rectangle a line with no differing cells is an exact mirror within reach, and conversely |
| Mirrors.MirrorOneSmudge | day13/main.py:14-28 | in a rectangle a line with one differing cell is a mirror once that single cell is fixed |
| Mirrors.ScoreSpec | day13/main.py:35-44 | with the smudge fixed the line found is never the original line and has exactly one differing cell; without it the line has none |
| Mirrors.SummaryConcat | day13/main.py:32-46 | the total over patterns adds up over concatenation |
| Mirrors.SummarizeReflection | day13/main.py:32-46 | the loop totals 100 per row above each pattern's line plus one per column left of it |
| Mirrors.NextGroups | day13/main.py:51-56 | the grouping loop always keeps at least one pattern |
| Mirrors.GroupsSpec | day13/main.py:50-56 | the patterns hold the stripped non-blank lines in order and only the last can be empty |
| Mirrors.NextGroupsSpec | day13/main.py:52-56 | one more line is appended to the last pattern, or a blank line opens a new one after a non-empty pattern |
| Mirrors.GroupLines | day13/main.py:50-56 | the grouping loop computes the groups |
| Mirrors.BuildPattern | day13/main.py:58-64 | an empty group raises IndexError at `rows[0]`; a row wider than the first raises IndexError; otherwise the columns hold each row's cells, padded with `" "` |
| Mirrors.ParseInput | day13/main.py:49-65 | `parse_input` succeeds exactly when every group is non-empty and no row is wider than its first, and then gives one pattern per group |
| Mirrors.ColumnsTranspose | day13/main.py:60-64 | in a rectangular pattern the columns are the transpose of the rows |
| Dish.Cells | day14/main.py:25-28 | once every row is written, `cols[x]` holds row y's cell x, or `""` where row y is shorter |
| Dish.Columns | day14/main.py:29 | one joined column per cell of the first row |
| Dish.WrittenAll | day14/main.py:26-28 | after the nested loops every column is complete |
| Dish.Transpose | day14/main.py:24-29 | the loops give `rows[0]`'s IndexError on no rows, the IndexError of a row wider than the first, or the columns |
| Dish.ColumnCells | day14/main.py:24-29 | in a rectangle column x holds row y's cell x at y |
| Dish.TransposeCells | day14/main.py:24-29 | on a rectangle `transpose` succeeds with one column of full height per cell of a row |
| Dish.TransposeTwice | day14/main.py:24-29 | transposing a non-empty rectangle twice gives it back |
| Dish.Repeat | day14/main.py:36 | `n * ROUND` is n round rocks |
| Dish.PackSpec | day14/main.py:36 | a packed segment keeps its length and its round rocks, holds no cube, and has every rock at the justified end |
| Dish.JoinShape | day14/main.py:34-39 | segments of the same lengths rejoin with `#` at the same places |
| Dish.Tilt | day14/main.py:32-45 | `tilt`: every row or column rolls its round rocks to the chosen end and the other view is its transpose; stated by Dish.TiltLineSpec, Dish.TiltedShape and Dish.TiltConsistent |
| Dish.TiltLineSpec | day14/main.py:33-41 | tilting a line keeps its length and every cube rock; each segment keeps its length and round rocks, settled at the tilt's end |
| Dish.ConsistentCols | day14/main.py:43-45 | the columns of a consistent dish are a rectangle whose transpose is the rows |
| Dish.TiltedShape | day14/main.py:33-41 | tilted lines form a rectangle of the same size |
| Dish.TiltConsistent | day14/main.py:32-45 | `tilt` of a consistent dish succeeds and leaves a consistent dish of the same size |
| Dish.TiltCycle | day14/main.py:48-56 | the loop tilts north, west, south and east in turn |
| Dish.TiltsConsistent | day14/main.py:51-54 | any sequence of tilts keeps a dish consistent |
| Dish.SpinsConsistent | day14/main.py:111-113 | any number of spin cycles succeeds and keeps the dish consistent |
| Dish.IterAdd | day14/main.py:112-113 | n + m steps are m steps after n |
| Dish.RepeatsFrom | day14/main.py:96-105 | once a value recurs after p steps, every later value recurs every p steps |
| Dish.FirstRecurrence | day14/main.py:74-94 | once the tortoise and hare have met, the second phase's `mu` is the first value that ever recurs |
| Dish.Floyd | day14/main.py:66-105 | `floyd` returns `lam >= 1` and `mu` with `x_mu` recurring after `lam` steps, `lam` the shortest such return, and no value before `x_mu` ever recurring |
| Dish.Shortcut | day14/main.py:108-114 | past `x_mu` spin n and spin `((n - mu) % lam) + mu` agree |
| Dish.Spin | day14/main.py:111-113 | the loop gives the dish after `count` spin cycles |
| Dish.SpinCycle | day14/main.py:108-114 | `spin_cycle` gives the dish after a billion spin cycles |
| Dish.SpinCount | day14/main.py:110-112 | the shortened count of spins lands where the full count does |
| Dish.ColumnAt | day14/main.py:61-62 | column x of the rows is as long as there are rows |
| Dish.CalcLoad | day14/main.py:59-63 | `calc_load`, the loads of the columns added; Dish.LoadByRows proves it gives each round rock the number of rows from its row to the south edge |
| Dish.LoadSuffix | day14/main.py:59-63 | the loads of the columns from x on, read off the rows |
| Dish.LoadFromRows | day14/main.py:59-63 | summing over columns equals summing over rows |
| Dish.LoadByRows | day14/main.py:59-63 | `calc_load` gives each round rock the number of rows from its row to the south edge |
| Dish.ParseConsistent | day14/main.py:117-119 | no non-blank line is an error; a rectangular input gives a consistent dish |
| LensLibrary.Step | day15/main.py:20-22 | one character's step keeps the running hash below 256 |
| LensLibrary.HashOf | day15/main.py:17-23 | the hash is below 256 |
| LensLibrary.HashConcat | day15/main.py:19-22 | the hash of a concatenation carries on from the hash of its first part |
| LensLibrary.HashStr | day15/main.py:17-23 | the loop of `hash_str` computes the character-by-character hash |
| LensLibrary.Slot | day15/main.py:36 | a name's slot in a box is its first entry, and none exactly when it is absent |
| LensLibrary.Remove | day15/main.py:36-37 | `del box[name]` removes that name only, keeps the others, keeps names distinct, and does nothing when the name is absent |
| LensLibrary.RemoveSlot | day15/main.py:36-37 | in a box with distinct names, `del box[name]` cuts out exactly that name's slot and keeps the other entries in their order |
| LensLibrary.Assign | day15/main.py:39 | `box[name] = lens` keeps a known name's slot with the new lens, appends a new name last, and leaves other entries alone |
| LensLibrary.CreateBoxes | day15/main.py:26-27 | 256 empty boxes |
| LensLibrary.FirstSep | day15/main.py:33 | the first `-` or `=` of a command, or none |
| LensLibrary.Label | day15/main.py:33 | the label is the command's text before its first separator |
| LensLibrary.FocalText | day15/main.py:33 | the focal text has no separator, and is `""` when the command has none |
| LensLibrary.HashmapCmd | day15/main.py:30-41 | only box `hash(label)` changes: `-` removes the label, else `=` stores `(1000, int(focal))`, else nothing; `int` failing raises ValueError |
| LensLibrary.RunCommands | day15/main.py:56-58 | running the commands keeps the number of boxes |
| LensLibrary.CreateBoxesFiled | day15/main.py:26-27 | the initial boxes satisfy the filing invariant |
| LensLibrary.HashmapCmdFiled | day15/main.py:30-41 | each command keeps every label in the box its hash names, once, with id 1000, so the box index is never out of range |
| LensLibrary.RunCommandsFiled | day15/main.py:56-58 | the whole command loop keeps the invariant and fails only on a bad focal length |
| LensLibrary.SortByIdFacts | day15/main.py:48 | `sorted(..., key=itemgetter(0))` gives an id-ordered permutation |
| LensLibrary.SortSameId | day15/main.py:48 | the sort is stable, so lenses sharing an id keep their insertion order |
| LensLibrary.FiledSlots | day15/main.py:32-48 | since `gid` is reset to 1000 on every call, the slots are the dictionary's insertion order |
| LensLibrary.SlotPowerUpdate | day15/main.py:39-50 | re-assigning a label changes only that lens's contribution, in the same slot |
| LensLibrary.FocusPowerEmpty | day15/main.py:44-51 | empty boxes have no power |
| LensLibrary.CalcFocusPower | day15/main.py:44-51 | the two loops add box number times slot number times focal length over every lens |
| LensLibrary.BoxStep | day15/main.py:46-50 | each box adds its weighted slot powers to the total |
| Contraption.Turn | day16/main.py:4-45 | a tile sends a beam on in one or two directions |
| Contraption.MirrorSpec | day16/main.py:7-16 | `\` and `/` turn a unit beam a quarter turn and undo themselves; `\` swaps right with down and `/` right with up |
| Contraption.SplitterSpec | day16/main.py:5-45 | a splitter met flat side on sends the beam both ways along its length, met end on it lets it pass; any other tile passes it on |
| Contraption.Successors | day16/main.py:45-46 | each leaving direction gives the beam one tile further on in that direction |
| Contraption.ReachNext | day16/main.py:45-49 | a beam queued after a reachable beam is reachable |
| Contraption.ClosedPath | day16/main.py:38-49 | every beam on a path out of a set closed under the step stays in it |
| Contraption.Reach | day16/main.py:33-46 | every direction a beam can take is bounded by the start's |
| Contraption.TurnWithin | day16/main.py:4-17 | turns never lengthen a direction |
| Contraption.BoxHolds | day16/main.py:37-49 | there are finitely many beams `trace_light` can ever queue |
| Contraption.NextInBox | day16/main.py:45-46 | the beams after a beam in that box stay in it |
| Contraption.LitCellsAdd | day16/main.py:41-43 | processing a beam lights its tile exactly when it is inside the grid |
| Contraption.MarkStep | day16/main.py:43 | marking one tile `#` keeps the result the grid's shape with `#` exactly on the lit tiles |
| Contraption.TraceStart | day16/main.py:35-37 | the all-`.` result and the one queued start beam satisfy the worklist invariant |
| Contraption.TraceOutside | day16/main.py:41-42 | a beam that has left the grid is dropped and marks nothing |
| Contraption.TraceVisit | day16/main.py:43-49 | marking a beam's tile and queuing its unseen successors keeps the invariant |
| Contraption.TraceEnd | day16/main.py:38-50 | with nothing left to process, the tiles marked `#` are exactly those some beam out of the start reaches |
| Contraption.Enqueue | day16/main.py:45-49 | the inner loop queues exactly the successors never seen before and adds them to the seen set |
| Contraption.Advance | day16/main.py:39-49 | one turn of the loop keeps the invariant and makes progress; a row shorter than the first raises IndexError |
| Contraption.TraceLight | day16/main.py:32-50 | a tile is `#` exactly when a beam out of the start reaches it, else `.`, and the result has the grid's shape; a ragged grid can raise IndexError |
| Contraption.SumEnergized | day16/main.py:28-29 | `sum_energized`, the `#` tiles of all rows counted; stated by Contraption.SumEnergizedSpec |
| Contraption.SumEnergizedSpec | day16/main.py:28-29 | the count is 0 exactly when no tile is `#`, and at most the number of tiles |
| Crucible.BeforeOrder | day17/main.py:32-57 | the heap order on `[cost, node]` entries is a strict total order, so the least entry is unique |
| Crucible.LeastEntry | day17/main.py:45-49 | a non-empty frontier has a least live entry |
| Crucible.Frontier.constructor | day17/main.py:26-36 | a new frontier has no queued node and no removed entry |
| Crucible.Frontier.Push | day17/main.py:38-41 | `push` queues a node that is not queued; a queued node keeps its cost |
| Crucible.Frontier.Pop | day17/main.py:43-50 | `pop` returns and removes a live entry whose cost is the least of all live entries; every removed entry of lower cost is gone afterwards and every one of higher cost remains; with no live entry `heappop` raises |
| Crucible.Above | day17/main.py:44-47 | the removed entries left after a pop at cost c are exactly those that cost more than c |
| Crucible.Frontier.Update | day17/main.py:52-57 | `update` raises KeyError for a node that is not queued; otherwise it re-queues the node at the new cost and leaves its old entry as a removed one |
| Crucible.Frontier.CostOf | day17/main.py:59-65 | the cost of a queued node, or KeyError |
| Crucible.SumCopies | day17/main.py:101 | `dotsum(*([p] + t * [v]))` is the block t steps from p along v |
| Crucible.TargetSum | day17/main.py:101-111 | the search's target block is t steps along the chosen direction |
| Crucible.AllowedTurns | day17/main.py:102-103 | from the start all four directions are tried; after a move only the two perpendicular ones |
| Crucible.Span | day17/main.py:88 | a move is 1 to 3 blocks long, or 4 to 10 for the ultra crucible |
| Crucible.WrapsInside | day17/main.py:106 | `n[0] == dotmod(n[0], size)` keeps exactly the blocks on the grid |
| Crucible.LossAlongSpec | day17/main.py:107-114 | a move's loss exists exactly when every block entered holds an ASCII digit, and is at most 9 per block |
| Crucible.MoveCostLoss | day17/main.py:107-114 | the target's digit plus those of the blocks passed is the loss of the blocks entered in order |
| Crucible.ReachMove | day17/main.py:100-118 | a legal move from a reached node reaches its target at the added loss |
| Crucible.MovesReached | day17/main.py:100-114 | every move the search tries from a reached node is reached at its cost |
| Crucible.MovesHas | day17/main.py:100-114 | every legal move from a node is among the moves the search tries |
| Crucible.MovesErr | day17/main.py:91-113 | a block entered that holds no ASCII digit makes `int()` raise, for every longer enumeration too |
| Crucible.Try | day17/main.py:115-118 | one tried move queues an unseen node or lowers a queued node's cost, else changes nothing |
| Crucible.TryLength | day17/main.py:104-118 | one length of a direction is tried when it stays on the grid |
| Crucible.ExpandAlong | day17/main.py:104-118 | one direction's lengths are tried in order, or the first non-digit block raises |
| Crucible.Expand | day17/main.py:100-118 | the inner loop relaxes every move from the node, in order of direction and length, or raises at a non-digit block |
| Crucible.RelaxSound | day17/main.py:115-118 | relaxing with reached moves keeps every queued cost the loss of some path |
| Crucible.PopSound | day17/main.py:95 | the popped entry is reached at its cost |
| Crucible.Cut | day17/main.py:94-118 | every path to a node not yet expanded passes a queued node at no more than the path's loss |
| Crucible.PopLeast | day17/main.py:95 | the least queued entry costs no more than any path to an unexpanded node |
| Crucible.PopOptimal | day17/main.py:95-98 | the popped node is settled at its least loss, so a loss returned at the goal is the minimum |
| Crucible.NoneLeft | day17/main.py:94 | while the goal is unexpanded, a path to it keeps the frontier non-empty |
| Crucible.ExpandSettled | day17/main.py:99-118 | expanding the popped node keeps every expanded node settled at its least loss |
| Crucible.Progress | day17/main.py:99 | each expansion adds a new state of the finite grid, so the search ends |
| Crucible.GoalPath | day17/main.py:97 | a loss that reaches the goal has a path of moves that ends at the bottom-right block |
| Crucible.FollowLoss | day17/main.py:107-114 | a path's loss is never negative |
| Crucible.MinHeatLoss | day17/main.py:68-118 | a returned loss is the least loss of any legal path to the bottom-right block; `None` or an exhausted heap means there is no path; no rows raise IndexError and no columns ZeroDivisionError; a single block gives 0; a non-digit block raises only when some move from a reached node enters it; on a rectangular grid of digits it always returns a loss, `None` or an exhausted heap |
| Crucible.MovesAlongBad | day17/main.py:104-113 | a direction whose lengths raise has a length on the grid that enters a block without a digit |
| Crucible.MovesBad | day17/main.py:100-113 | when trying a node's moves raises, an allowed move of a legal length stays on the grid and enters a block without a digit |
| Crucible.DigitsLoss | day17/main.py:91-114 | on a rectangular grid of digits every move from a reached node that stays on the grid has a loss |
| Crucible.DigitsNoBadMove | day17/main.py:91-114 | on a rectangular grid of digits `h_of` never raises |
| Crucible.Round | day17/main.py:94-118 | one pass of the loop pops, stops at the goal with its least loss, or expands while keeping the search invariant |
| Crucible.Grow | day17/main.py:99-118 | the expansion adds the node to `expanded` and keeps the invariant, or raises at a non-digit block |
| Lagoon.DirVector | day18/main.py:7-12 | a unit step exactly for the letters R, D, L and U |
| Lagoon.OrderedDirs | day18/main.py:13 | `ordered_dir_vectors` lists the four letters |
| Lagoon.AddVectorLaws | day18/main.py:16-17 | adding vectors does not depend on grouping or order |
| Lagoon.TrenchScaled | day18/main.py:20-54 | `multiply_vector(dir_vectors[d], (t, t))` is t blocks in the letter's direction, at Manhattan distance `abs(t)` |
| Lagoon.DigitRun | day18/main.py:28 | `[0-9]+` takes the whole run of digits |
| Lagoon.MatchLine | day18/main.py:28-30 | a match has well-formed groups and matches a prefix of the line |
| Lagoon.MatchComplete | day18/main.py:28 | whatever follows a matching prefix, `re.match` finds exactly its groups |
| Lagoon.ParseLine | day18/main.py:28-37 | no match raises; a parsed command has an upper-case letter, a colour direction and a colour length strictly between `-16^4` and `16^5` |
| Lagoon.ColorCode | day18/main.py:33-37 | the last colour digit 0-3 picks R, D, L, U and the first five characters, read by `int(..., 16)` with an optional sign, give the length; a digit of 4 or more is an IndexError, text `int` refuses a ValueError |
| Lagoon.ColourRange | day18/main.py:36 | five characters read as a hexadecimal number lie strictly between `-16^4` and `16^5` |
| Lagoon.HexBound | day18/main.py:36 | five hexadecimal digits hold a value below `16^5` |
| Lagoon.HexTextValue | day18/main.py:36 | reading back k hexadecimal digits of n gives n |
| Lagoon.ParseFormat | day18/main.py:24-39 | decoding a written plan line gives back its command, a negative colour length included |
| Lagoon.CollectEach | day18/main.py:26-38 | collecting succeeds exactly when every line decodes, and then gives those values in order |
| Lagoon.CommandsEach | day18/main.py:24-39 | every line's command is that line's decoding; one failing line fails the whole |
| Lagoon.ParseInput | day18/main.py:24-39 | the loop strips, skips empty lines and decodes the rest in order |
| Lagoon.Trail | day18/main.py:50-55 | the vertex list has one vertex per command plus the start, first |
| Lagoon.TrailSteps | day18/main.py:52-55 | each vertex is the one before moved by the command's trench; an unknown letter raises KeyError |
| Lagoon.TrailTranslate | day18/main.py:49-55 | digging from a moved start moves every vertex by the same amount |
| Lagoon.CrossSumAround | day18/main.py:45 | the zip pairs each vertex with the next, the last with the first |
| Lagoon.CrossSumTranslate | day18/main.py:43-46 | the shoelace sum of a closed walk does not depend on where it lies |
| Lagoon.Half | day18/main.py:57 | `int()` of a half truncates toward zero |
| Lagoon.Dig | day18/main.py:49-57 | `dig` is half the absolute shoelace sum plus half the trench length plus one |
| Lagoon.SizeAnywhere | day18/main.py:49-57 | the size does not depend on where digging starts |
| Lagoon.SizeRectangle | day18/main.py:49-57 | a w by h rectangle dug round its edge holds `(w + 1) * (h + 1)` cubic metres |
| Workflows.Unify | day19/main.py:18 | splitting at `<` after turning every `>` into `<` is splitting at either symbol |
| Workflows.ParseRule | day19/main.py:14-21 | text without `:` is a bare workflow name; a test rule came from text with a `:`, has sign -1 or 1 and an attribute free of `<`, `>` and `:` |
| Workflows.UnifiedPieces | day19/main.py:17-18 | the attribute split off a rule holds neither `<` nor `>` |
| Workflows.ParseRuleText | day19/main.py:14-21 | parsing the text of a rule gives the rule back |
| Workflows.ParseTestRule | day19/main.py:15-19 | `rest:workflow` with `rest` splitting into attribute and integer parses as that test, sign -1 exactly when `<` occurs |
| Workflows.TestRange | day19/main.py:61 | the target range holds exactly the ratings below the threshold for `<`, above it up to 4000 for `>` |
| Workflows.TestIntersect | day19/main.py:62-81 | within 1..4000 `intersect` holds exactly the ratings in both ranges, and is `None` when none are |
| Workflows.Difference | day19/main.py:84-92 | `None` exactly when `b` covers `a`; otherwise the one or two remainders of `a` around `b` |
| Workflows.Lookup | day19/main.py:62 | `curr_intervals[attr]` is found exactly when the box rates `attr` (the `KeyError` otherwise) |
| Workflows.Assign | day19/main.py:67-74 | `{**curr_intervals, attr: iv}` replaces that one range and keeps every other attribute in place |
| Workflows.WalkEarlier | day19/main.py:46-76 | a part whose walk is still going went through unfinished workflows at every earlier step |
| Workflows.NeverAcceptedAfter | day19/main.py:48-76 | a part sent to `R`, or at a workflow where no rule applies, is never accepted |
| Workflows.ApplyWorkflow | day19/main.py:53-76 | one pass of a workflow splits the box: every part goes to exactly one pushed box, the one its first applying rule routes it to; an attribute the box lacks is the `KeyError` |
| Workflows.FilterIntervals | day19/main.py:41-77 | each part is held by as many accepted boxes as initial jobs accept it; an unknown workflow or attribute is reported only when some part reaches it |
| Workflows.RangeSumClosed | day19/main.py:97 | `sum(range(lo, hi + 1))` is the count times the mean of the ends |
| Workflows.CombinationsAssign | day19/main.py:104 | narrowing one range scales the product of widths by that range's width |
| Workflows.SumCombinations | day19/main.py:102-106 | `sum_combinations`: each box's product of range widths, added over the boxes; Workflows.SumCombinationsConcat and Workflows.SplitCombinations state how it splits |
| Workflows.SumCombinationsConcat | day19/main.py:102-106 | the combinations of two runs of boxes are those of the first plus those of the second |
| Workflows.SplitCombinations | day19/main.py:60-104 | the slice sent on and the slices left at the workflow together have as many combinations as the box |
| Workflows.PartBox | day19/main.py:120 | each rating `v` becomes the range `(v, v)` |
| Workflows.PartBoxRatings | day19/main.py:95-120 | the ratings of a one-part box sum to that part's ratings |
| Workflows.FullBoxFacts | day19/main.py:113 | the second half's box rates x, m, a, s over 1..4000, `4000^4` combinations |
| Workflows.ParseEach | day19/main.py:31 | `map(parse_rule, ...)` succeeds exactly when every text parses, and gives their values in order |
| Workflows.ParseWorkflowLine | day19/main.py:30-31 | the name of a workflow line holds no brace |
| Workflows.ParseWorkflowText | day19/main.py:30-31 | reading a workflow's line gives back its name and rules |
| Workflows.ParseRating | day19/main.py:35-36 | a rating's key holds no `=` |
| Workflows.Put | day19/main.py:36 | `part[k] = v` keeps each key once, appends a new key last and keeps every other rating in place |
| Workflows.ParseRatings | day19/main.py:33-36 | a parsed part rates each attribute once |
| Workflows.ParsePartText | day19/main.py:32-37 | reading a part's line gives back its ratings in order |
| Workflows.FirstBlank | day19/main.py:28 | `lines.index("")` is the first blank line, and raises when there is none |
| Workflows.Collect | day19/main.py:29-31 | every defined name is in the map, with its last definition |
| Workflows.DefinedLast | day19/main.py:31 | assigning one more definition keeps the map's entries the last definitions |
| Workflows.ParseInput | day19/main.py:24-38 | fails for want of a separator exactly when no stripped line is blank; otherwise workflows come from before the first blank line and parts from after it |
| Workflows.StripSlices | day19/main.py:27-32 | stripping commutes with slicing at the separator, and no line before it strips to blank |
| Pulses.Receive | day20/main.py:57-88 | a module keeps its kind, its outputs and (a conjunction) its inputs, and sends a pulse on every input except a high pulse to a flip-flop |
| Pulses.FlipFlopTwice | day20/main.py:68-71 | two low pulses leave a flip-flop as it was |
| Pulses.ReceiveAll | day20/main.py:78-88 | a conjunction stays a conjunction with the same wiring |
| Pulses.ConjunctionMemory | day20/main.py:83-87 | a conjunction remembers exactly the sources whose latest pulse was high |
| Pulses.ConjunctionSendsLow | day20/main.py:78-88 | with distinct inputs it sends low exactly when every input's latest pulse was high |
| Pulses.StripType | day20/main.py:104 | `lstrip("%&")` removes the leading type marks and keeps the rest |
| Pulses.AddAllSnoc | day20/main.py:102-104 | the first loop of `__init__` handles one config line after another |
| Pulses.AddSourcesNaming | day20/main.py:103-104 | one line adds its source to a name once per mention, at the end |
| Pulses.AddOneNaming | day20/main.py:104 | `setdefault(name, []).append(src)` grows only that name's list, by one at its end |
| Pulses.SourcesRecorded | day20/main.py:101-104 | `name_to_src` holds, for each named destination, the sources naming it in config order, and no other key |
| Pulses.MentionedSomewhere | day20/main.py:102-104 | a name is mentioned exactly when some line lists it as a destination |
| Pulses.MakeModule | day20/main.py:106-122 | `broadcaster`, `%` and `&` lines make those modules with the line's outputs, the flip-flop off and the conjunction with its sources as inputs; any other line raises NotImplementedError, a conjunction no line names raises KeyError |
| Pulses.BuildModules | day20/main.py:105-122 | the second loop succeeds exactly when every line makes a module, and each entry comes from some line |
| Pulses.BuildModulesPrefix | day20/main.py:105-122 | the first bad line stops the loop with its error |
| Pulses.AppendNew | day20/main.py:104 | the keys of `name_to_src` are the names seen so far and the new destinations |
| Pulses.UpstreamWalk | day20/main.py:142-153 | the walk adds only conjunctions and names that are not modules, never `broadcaster`; a flip-flop nobody feeds raises KeyError |
| Pulses.ConjOfAll | day20/main.py:123 | the set over one name's sources holds each source's walk, and nothing but landing names |
| Pulses.SourceConjunctions | day20/main.py:123 | `name_to_src_conj` has exactly one entry per key of `name_to_src` when no walk raises |
| Pulses.SourceConjunctionsSpec | day20/main.py:123 | each entry is the union of its sources' walks, and an error is the error of some name's union |
| Pulses.SourceConjunctionsPrefix | day20/main.py:123 | a name that raises makes the whole comprehension raise the same error |
| Pulses.Init | day20/main.py:98-123 | `Store(config)` builds the modules from the recorded sources and fails with the first bad line |
| Pulses.Store.Empty | day20/main.py:99-101 | a store starts with no pulses, no modules and no sources |
| Pulses.Store.Create | day20/main.py:98-123 | `__init__` fails exactly when `Init` does; otherwise it holds the recorded sources, the modules and one conjunction set per source key, with nothing queued |
| Pulses.Store.RecordSources | day20/main.py:102-104 | the first loop sets `name_to_src` and its key order and touches nothing else |
| Pulses.Store.AddLine | day20/main.py:103-104 | one config line's destinations each gain its source |
| Pulses.Store.FindSrcConj | day20/main.py:142-153 | `find_src_conj` computes the upstream walk |
| Pulses.Store.ConjOfSources | day20/main.py:123 | the set comprehension for one name |
| Pulses.Store.RecordConjunctions | day20/main.py:123 | `name_to_src_conj` is the comprehension over the keys in order, or its first error |
| Pulses.Store.AddModules | day20/main.py:105-122 | the second loop sets `name_to_mod`, or stops at the first bad line |
| Pulses.DispatchOf | day20/main.py:125-127 | one pulse per destination, in output order |
| Pulses.Store.Dispatch | day20/main.py:125-127 | `dispatch` appends those pulses behind the queue and changes nothing else |
| Pulses.Deliver | day20/main.py:132-133 | a pulse to an unknown name changes nothing; otherwise only its module changes, as `send` says, and emits one pulse per output |
| Pulses.Store.Send | day20/main.py:133 | `send` updates the named module and queues what it emits |
| Pulses.SettleAppends | day20/main.py:130-134 | settling only appends to the queue, keeps the wiring, and every new pulse goes from a module to one of its outputs |
| Pulses.Store.Wait | day20/main.py:129-140 | `wait` delivers every queued pulse in order, returns the whole queue with the flip-flop and conjunction states, and leaves the queue empty |
| Pulses.States | day20/main.py:136-140 | the reported states are those of every module but the broadcaster |
| Pulses.SumPulses | day20/main.py:164-167 | the low and high counts add up to the number of pulses |
| Pulses.SumPulsesFirstLow | day20/main.py:164-167 | a press whose first pulse is low counts at least one low pulse |
| Pulses.DotSum | day20/main.py:12-17 | `dotsum` of pairs is a pair, or the empty tuple when there are none |
| Pulses.DotSumBounds | day20/main.py:12-178 | with a low first pulse per press, the low total is at least the number of presses and the totals count every pulse |
| Pulses.Presses | day20/main.py:174-177 | `times` presses record `times` pulse lists |
| Pulses.PressesStall | day20/main.py:174-177 | once a press fails to settle every longer run fails |
| Pulses.CheckConfig | day20/main.py:170-178 | `check_config` fails exactly when the store or some press does; otherwise each press starts with the button's low pulse, and the result sums the low and high counts of the presses |
| Garden.GridPlotsAre | day21/main.py:11-15 | the garden plots are exactly the cells that are not `#` |
| Garden.GridStartsAre | day21/main.py:11-21 | the start candidates are exactly the cells holding `S` |
| Garden.ScanGrid | day21/main.py:9-24 | the cell-by-cell scan computes the map's start and its plots in reading order, or the first error |
| Garden.ParseInput | day21/main.py:7-24 | `parse_input` scans the non-blank stripped lines |
| Garden.SecondStart | day21/main.py:16-20 | a second `S` raises at that `S`, after the first start; the message is literal text and names no position, the error value records both for the proof |
| Garden.ParsedOk | day21/main.py:16-23 | a map is accepted exactly when it holds exactly one `S` |
| Garden.ParsedValue | day21/main.py:11-24 | the start returned is an `S` and a plot, and the plots are exactly the cells that are not rocks |
| Garden.ParsedNoStart | day21/main.py:22-23 | "No start point" exactly when the map holds no `S` |
| Garden.StartsDistinct | day21/main.py:11-21 | the scan meets no position twice |
| Garden.NeighborsOf | day21/main.py:27-30 | four neighbours |
| Garden.NeighborsSpec | day21/main.py:27-30 | the neighbours are exactly the positions one orthogonal step away, and being neighbours is symmetric |
| Garden.FloorMod | day21/main.py:35 | Python's `%` takes the sign of the divisor |
| Garden.FloorDivMod | day21/main.py:35 | `a == n * (a // n) + a % n` |
| Garden.ModUnique | day21/main.py:35 | a remainder in range is the remainder |
| Garden.FloorModPeriodic | day21/main.py:35 | adding the divisor does not change the remainder |
| Garden.FloorModInRange | day21/main.py:35 | a value already in range is its own remainder |
| Garden.Warp | day21/main.py:33-37 | `warp`: each coordinate taken modulo the map size as Python's `%` does; stated by Garden.WarpSpec |
| Garden.WarpSpec | day21/main.py:33-37 | `warp` lands inside the map, is the same on every copy of the map and is idempotent |
| Garden.MaxCoord | day21/main.py:42-43 | `max` is a bound attained by some plot |
| Garden.FindGridSize | day21/main.py:40-44 | one more than the largest x and y; `max` of no plots raises |
| Garden.GridSizeOfPlots | day21/main.py:40-44 | plots at non-negative positions give a positive size |
| Garden.StepSpec | day21/main.py:57-61 | a position is reached next exactly when it neighbours a position reached last and warps onto a plot |
| Garden.StepSource | day21/main.py:58-61 | every position reached comes from one reached the step before |
| Garden.LayerParity | day21/main.py:56-64 | every step changes the parity of x + y |
| Garden.LayerOnPlots | day21/main.py:60-61 | after the first step every position reached is a plot once warped |
| Garden.LayerGrows | day21/main.py:56-64 | from the second step on, a position reached is reached again two steps later |
| Garden.StepAdd | day21/main.py:58-61 | one more position adds its own hops |
| Garden.StepFrom | day21/main.py:57-62 | the inner loops compute one step from every last position |
| Garden.RecordedStep | day21/main.py:62-64 | recording the next set under the next step number keeps every earlier record |
| Garden.Reachable | day21/main.py:47-71 | `reachable_by_step` maps each step 1..max_steps to the positions reachable in exactly that many steps; no plots raise, a zero size raises ZeroDivisionError |
| Bricks.MinMaxOf | day22/main.py:23-24 | every axis of a brick spans at least one unit |
| Bricks.CubesOf | day22/main.py:19-21 | `cubes_of`, z outermost and x innermost; stated by Bricks.CubesSpec |
| Bricks.CubesSpec | day22/main.py:19-21 | `cubes_of` lists exactly the unit cubes of the brick's box, as many as its volume |
| Bricks.IntersectsCubes | day22/main.py:29-39 | `intersect_minmax` holds exactly when the bricks share a unit cube, so it is symmetric |
| Bricks.SelfIntersects | day22/main.py:29-39 | a brick's box meets itself |
| Bricks.ZMoveSpec | day22/main.py:26-27 | `z_move` shifts only the z extent, and moving back undoes it |
| Bricks.ZMoveCubes | day22/main.py:26-27 | the cubes of a moved brick are its cubes moved |
| Bricks.SortSpec | day22/main.py:42-46 | the sort is a permutation, highest lowest-z first, so `pop()` yields ascending lowest z |
| Bricks.SortApart | day22/main.py:42 | sorting keeps a snapshot whose bricks share no cube |
| Bricks.AddAbove | day22/main.py:56-57 | adding to above-sets adds no brick to the graph |
| Bricks.Round | day22/main.py:46-61 | each round stops or lowers the last moving brick, so the loop ends |
| Bricks.AddAboveAll | day22/main.py:56-57 | the loop adds the brick to the above-set of every brick it rests on |
| Bricks.Settle | day22/main.py:41-62 | `settle` computes the settled support graph |
| Bricks.LandClear | day22/main.py:42-46 | a brick popped earlier is below or beside every brick still to come |
| Bricks.DropDisjoint | day22/main.py:47-61 | dropping the lowest moving brick by one keeps it apart from the others |
| Bricks.LandStep | day22/main.py:50-60 | a brick stops on the floor or on exactly the stopped bricks its dropped box meets, and becomes a new key |
| Bricks.DropStep | day22/main.py:61 | a brick whose drop meets nothing falls by one |
| Bricks.RoundSpec | day22/main.py:45-61 | a round keeps the loop invariant and moves at most one brick from the pile to the stopped ones |
| Bricks.SettleSpec | day22/main.py:41-62 | for bricks apart and at z >= 1, `settle` returns as many bricks as it was given, its below- and above-sets are each other's converse, each below-set is exactly the bricks met one unit lower, and a brick without support lies on the floor |
| Bricks.SettleLowered | day22/main.py:41-62 | every brick `settle` returns is some input brick moved straight down by a whole number of steps |
| Bricks.SettleKeeps | day22/main.py:41-62 | every input brick comes out of `settle` moved straight down by a whole number of steps |
| Bricks.Disintegratable | day22/main.py:64-66 | `distintegratable`: the settled bricks that are no brick's only support; stated by Bricks.DisintegratableSpec |
| Bricks.DisintegratableSpec | day22/main.py:64-66 | a brick can be taken away exactly when no brick rests on it alone |
| Bricks.DisintegratableAbove | day22/main.py:64-66 | the same, stated through the bricks above it |
| Bricks.FallingCloses | day22/main.py:68-81 | a brick whose supports all fall, or are the one taken away, falls too |
| Bricks.FallingLeast | day22/main.py:68-81 | nothing else falls |
| Bricks.FallingEmpty | day22/main.py:68-81 | nothing falls exactly when no brick rests on the one taken away alone |
| Bricks.DisintegratableFalls | day22/main.py:64-81 | taking a brick away makes nothing fall exactly when it is disintegratable |
| Bricks.Relieve | day22/main.py:75-80 | the inner loop drops the removed brick from each supported brick's below-set and queues the bricks left without support |
| Bricks.ChainRound | day22/main.py:73-80 | one pop of the job list keeps the loop's invariant; a job that is not a key is the KeyError |
| Bricks.ChainReaction | day22/main.py:68-81 | `chain_reaction` returns exactly the bricks that fall when `brick` is taken away; a missing brick is the KeyError |
| Bricks.TotalRemove | day22/main.py:85 | the sum does not depend on the order of the set |
| Bricks.Chainable | day22/main.py:83-85 | `chainable` sums, over the bricks that are not disintegratable, the number that fall |
| Bricks.SumFalling | day22/main.py:85 | the `sum(...)` over the given bricks adds up the falling count of each, whatever order the set yields them in; it fails only when a chain reaction runs out of fuel |
| LongWalk.IoOf | day23/main.py:33-57 | the ways in are open neighbours that lead onto the tile; no way out is the start; it succeeds exactly on `.` and slope tiles whose neighbours can be read, and raises on any other tile |
| LongWalk.IoExits | day23/main.py:35-55 | a path tile may be left to exactly its open neighbours, a slope only downhill; every open neighbour leading onto the tile is a way in |
| LongWalk.RowIoOk | day23/main.py:62-67 | a row is read without error exactly when its cells exist and its non-forest tiles are known |
| LongWalk.RowIoMap | day23/main.py:62-67 | a row maps exactly its non-forest tiles to their `io_of` |
| LongWalk.GridIoSpec | day23/main.py:62-67 | `init_io_by_pt` is built without error exactly when every position of the box exists and every non-forest tile is known; it maps exactly those tiles to their `io_of` |
| LongWalk.TrailPrefix | day23/main.py:77-106 | a prefix of a walk the search follows is such a walk |
| LongWalk.TrailExtend | day23/main.py:96-106 | a walk goes on by any unvisited exit of its last tile, unless it stands at the goal |
| LongWalk.DistinctSize | day23/main.py:83-84 | a walk visits as many tiles as it is long, so `len(visited) - 1` is its number of steps |
| LongWalk.GoalEnds | day23/main.py:82-88 | a walk that reaches the goal goes no further |
| LongWalk.Continues | day23/main.py:89-106 | a walk through a job is the job's own walk or goes on by one of its unvisited exits |
| LongWalk.KidsNodesRemove | day23/main.py:96-106 | the search-tree size below a job does not depend on the order its exits are taken in |
| LongWalk.Prune | day23/main.py:101-104 | a child's copy of `io_by_pt` keeps every key; what it drops is stated by LongWalk.PruneTrimmed |
| LongWalk.PruneTrimmed | day23/main.py:100-104 | pruning a job's copy for a step to an unvisited tile gives the initial map with the longer walk taken out: the visited tiles other than the new one leave the ways in, and those other than the start leave the ways out |
| LongWalk.FirstJob | day23/main.py:68-70 | the first job stands on the start, has visited it and holds `init_io_by_pt` |
| LongWalk.JobExits | day23/main.py:89-90 | the exits a job tries are the initial exits it has not visited |
| LongWalk.Bump | day23/main.py:85-93 | changing the visited tiles' ratings keeps the keys of `rating_by_pt` |
| LongWalk.SortFacts | day23/main.py:87-107 | the sort reorders the jobs into rating order, keeps each job as often as before and keeps the work still to do |
| LongWalk.Recover | day23/main.py:79-107 | replacing the popped job by its children keeps every unaccounted walk covered by a pending job |
| LongWalk.GoalSettles | day23/main.py:82-88 | a job at the goal accounts for every walk through it |
| LongWalk.DeadEnd | day23/main.py:91-95 | a job with no unvisited exit leaves nothing to account for |
| LongWalk.Branches | day23/main.py:96-106 | every pending walk through a job goes through one of its children |
| LongWalk.Expand | day23/main.py:96-106 | one child per unvisited exit, each one step longer, together one job less search than the parent |
| LongWalk.Visit | day23/main.py:82-106 | the body of the loop for one popped job keeps every walk covered, keeps `max_path_length` a walk's length and shrinks the work left; an unrated tile is the KeyError |
| LongWalk.Rank | day23/main.py:87-107 | the sort puts the jobs in rating order without losing or adding any, or fails on an unrated tile |
| LongWalk.Reordered | day23/main.py:87-107 | any reordering of the jobs keeps the invariant |
| LongWalk.Round | day23/main.py:77-107 | one turn of the loop keeps the invariant and strictly shrinks the work left |
| LongWalk.Search | day23/main.py:68-109 | the worklist fails exactly when some walk hits an unrated tile, and otherwise returns the longest walk's length, or 0 when none reaches the goal |
| LongWalk.FindLongestPath | day23/main.py:60-109 | an empty grid raises IndexError; a bad tile raises; otherwise the longest walk from the start to `end` that never visits a tile twice |
| Hail.CollectFacts | day24/main.py:18-19 | a tuple built from a generator exists exactly when no item raises, holds the values in order, and otherwise carries one item's error |
| Hail.ParseNumbersFacts | day24/main.py:18-19 | one number per comma-separated text, each as `int(p.strip())` reads it; a text `int` refuses is the error |
| Hail.ParseStone | day24/main.py:15-20 | a line with other than one `@` fails to unpack; otherwise the position and velocity are the numbers either side |
| Hail.ParseLinesFacts | day24/main.py:14-21 | every line is one hailstone, in order; one bad line fails the input with its error |
| Hail.ParseInput | day24/main.py:12-22 | the input is joined, stripped and cut at its line breaks as `splitlines` cuts; it reads exactly when every line is a hailstone, one per line in order, and otherwise fails with some line's error; blank input holds no hailstones |
| Hail.InputLines | day24/main.py:14 | blank input has no lines |
| Hail.NumberOfNumeral | day24/main.py:18 | `int(str(i).strip()) == i` |
| Hail.ParseFormat | day24/main.py:12-22 | reading the written hailstones gives them back |
| Hail.Dot | day24/main.py:86-95 | vectors of different lengths raise; otherwise the entrywise operation, of the kind of `a` |
| Hail.DotOperate | day24/main.py:86-95 | the copy-then-overwrite loop computes the entrywise operation |
| Hail.DotAddSub | day24/main.py:98-101 | `dot["-"]` undoes `dot["+"]` |
| Hail.Cross | day24/main.py:104-109 | the cross product of the first three entries; a shorter vector raises IndexError |
| Hail.CrossFacts | day24/main.py:104-109 | the cross product is orthogonal to both factors and changes sign when they are swapped |
| Hail.CrossParallel | day24/main.py:104-109 | a vector crossed with a multiple of itself is zero |
| Hail.CrossSubLeft | day24/main.py:104-109 | the cross product distributes over subtraction on the left |
| Hail.CrossSubRight | day24/main.py:104-109 | the cross product distributes over subtraction on the right |
| Hail.MatCoeff | day24/main.py:112-118 | `r × (vi − vj) + v × (rj − ri)`, raising exactly when an index is past the list, lengths differ or a vector is shorter than three |
| Hail.Rhs | day24/main.py:121-125 | `vj × rj − vi × ri`, raising exactly when an index is past the list or a vector is too short |
| Hail.EqStrip | day24/main.py:128-137 | three rows of six coefficients, column c being `get_mat_coeff` at the c-th unit vector, with `get_rhs` beside them |
| Hail.Eq | day24/main.py:140-143 | the strips of (i, j) and (j, k) stacked, with their right-hand sides joined |
| Hail.CoeffLinear | day24/main.py:112-137 | `get_mat_coeff` is linear in the unknowns, so its six unit columns give it back |
| Hail.StripTimes | day24/main.py:128-137 | each strip row times (r, v) is the matching entry of `get_mat_coeff` at (r, v) |
| Hail.HitOffset | day24/main.py:75-76 | at a collision at any rational time `t/q`, `q (ri − r0) = −t (vi − v0)` |
| Hail.HitExpanded | day24/main.py:77-78 | at a collision at any rational time, `(vi × ri) − (vi × r0) − (v0 × ri) + (v0 × r0) = 0` |
| Hail.PairEquation | day24/main.py:79-125 | a rock meeting hailstones i and j, each at some rational time, satisfies `get_mat_coeff(r, v, i, j) == get_rhs(i, j)` |
| Hail.RockSolves | day24/main.py:140-154 | a rock meeting hailstones i, j and k, each at some rational time, solves every one of the six rows `get_eq` builds |
| Snowverload.SplitOn | day25/main.py:9 | `split(": ")` yields at least one piece |
| Snowverload.JoinSplitOn | day25/main.py:9-10 | joining the pieces of a split gives the text back |
| Snowverload.ParseLineSound | day25/main.py:9-10 | an accepted line is its node, `": "` and its destinations joined by spaces, once stripped |
| Snowverload.EntriesStop | day25/main.py:8-9 | the first line that does not unpack into two raises and decides the outcome |
| Snowverload.ParseInput | day25/main.py:6-13 | `parse_input` builds the diagram of the lines |
| Snowverload.WiringPrefix | day25/main.py:8-12 | the dict after n lines does not depend on later lines |
| Snowverload.AddToSpec | day25/main.py:11-12 | `setdefault(a, set()).add(b)` adds exactly that wire and appends a new key last |
| Snowverload.ConnectSpec | day25/main.py:10-12 | one listed wire is added at both ends, keeping every wire listed at both ends |
| Snowverload.ConnectAllSpec | day25/main.py:10-12 | one line adds exactly its wires, both ways |
| Snowverload.WiringSpec | day25/main.py:7-13 | the dict holds exactly the listed wires, both ways |
| Snowverload.DiagramSymmetric | day25/main.py:6-13 | a diagram read without error lists every wire at both ends |
| Snowverload.SweepKeeps | day25/main.py:21-25 | the sweep keeps only keys it was given, grows the component, and every key it sees is merged or kept |
| Snowverload.ConnectedComponents | day25/main.py:15-29 | the loop computes the single-sweep components as written |
| Snowverload.SinglePassCovers | day25/main.py:15-29 | every key lands in some component, and there are no more components than keys |
| Snowverload.SinglePassSeeds | day25/main.py:19-26 | each component holds the closed neighbourhood of the key that seeded it |
| Snowverload.FirstMeeting | day25/main.py:22-23 | the first remaining key whose closed neighbourhood meets the component, or none meets it |
| Snowverload.Without | day25/main.py:25 | `del graph_copy[s]` leaves every other key |
| Snowverload.GrowKeeps | day25/main.py:21-25 | growing keeps only keys it was given |
| Snowverload.MergeStep | day25/main.py:22-25 | one merge keeps the component closed under wires reached so far and linked to its seed |
| Snowverload.GrowSpec | day25/main.py:19-27 | the grown component is closed under wires, linked to its seed, and apart from the keys left |
| Snowverload.Components | day25/main.py:15-29 | the corrected `connected_components`, each component grown to its whole connected part; Snowverload.ComponentsPartition proves the components are exactly the connected parts |
| Snowverload.ComponentsClosed | day25/main.py:15-29 | every member of a component is a key with all its neighbours in the component |
| Snowverload.ComponentsCover | day25/main.py:15-29 | every key is in some component and none is empty |
| Snowverload.ComponentsDisjoint | day25/main.py:15-29 | no node is in two components |
| Snowverload.ComponentsLinked | day25/main.py:15-29 | any two members of a component are linked by wires |
| Snowverload.ComponentsPartition | day25/main.py:15-29 | the components of a diagram are exactly its connected parts |
| Snowverload.ParseSimpleLine | day25/main.py:9-10 | a line `s: d` reads as the wire from `s` to `d` |
| Snowverload.ReadSimple | day25/main.py:8-10 | lines that are all simple read as their wires |
| Snowverload.TangleConnected | day25/main.py:15-29 | the four-wire tangle is connected |
| Snowverload.SinglePassSplits | day25/main.py:15-29 | the sweep as written splits the tangle into two overlapping components |
| Snowverload.ComponentsJoin | day25/main.py:15-29 | growing until no key meets the component finds the tangle's one connected part |
| Snowverload.TangleMisread | day25/main.py:6-29 | for the diagram `a: x`, `b: y`, `x: z`, `z: y` the sweep as written reports two components that are not its connected parts, while the corrected one reports the single part |
| Snowverload.TangleExample | day25/main.py:6-13 | the tangle's lines are those four lines |
| Snowverload.StrLessAsymmetric | day25/main.py:36 | Python's string `<` is strict |
| Snowverload.StrLessTotal | day25/main.py:36 | Python's string `<` orders any two different texts |
| Snowverload.PairSpec | day25/main.py:36 | `tuple(sorted([a, b]))` holds the same two nodes whichever comes first, smaller first |
| Snowverload.Candidates | day25/main.py:32-36 | `dc_cands`, or the KeyError of a neighbour that is not a key; stated by Snowverload.CandidatesSpec |
| Snowverload.CandidatesSpec | day25/main.py:32-36 | the candidates are exactly the sorted wires that lie on no triangle |
| Snowverload.LoneWires | day25/main.py:34-36 | the inner loop collects one source's lone wires, and raises KeyError on a neighbour that is not a key |
| Snowverload.FindCandidates | day25/main.py:32-36 | the first loop of `calc_disconnect_factor` computes the candidates |
| Snowverload.Remove | day25/main.py:41-42 | `set.remove` keeps the keys and raises KeyError exactly when the wire is not listed there |
| Snowverload.Unwire | day25/main.py:41-42 | both removals keep the keys; a failure is a missing wire |
| Snowverload.UnwireAll | day25/main.py:40-42 | removing the picked wires keeps the keys |
| Snowverload.UnwireSpec | day25/main.py:41-42 | removing one wire between different nodes at both ends removes exactly that wire and keeps both ends in step |
| Snowverload.UnwireAllSpec | day25/main.py:39-42 | removing proper wires always succeeds and removes exactly them |
| Snowverload.CombosSpec | day25/main.py:38 | `combinations(..., 3)` yields every choice of three indices once, in lexicographic order |
| Snowverload.ComboIndex | day25/main.py:38 | every choice of three indices appears among the combinations |
| Snowverload.TryCut | day25/main.py:39-46 | a cut fails only on a missing wire |
| Snowverload.Outcomes | day25/main.py:38-46 | one outcome per combination |
| Snowverload.DisconnectFactor | day25/main.py:31-47 | the loop stops at the first combination whose cut leaves two components, or raises when none does |
| Snowverload.FirstCutFound | day25/main.py:38-46 | a found factor comes from the first outcome that splits the graph in two |
| Snowverload.FirstCutNone | day25/main.py:38-47 | no factor exactly when no outcome splits the graph in two |
| Snowverload.FirstCutFailed | day25/main.py:38-46 | any other failure is some outcome's failure |
| Snowverload.TryCutSpec | day25/main.py:39-46 | cutting proper wires succeeds, and its answer is the product of the sizes of exactly two connected parts, or none when the parts are not two |
| Snowverload.CandidatesProper | day25/main.py:32-36 | the candidates of a loop-free diagram are sorted wires between different nodes |
| Snowverload.PickProper | day25/main.py:38 | three different candidates are proper wires |
| Snowverload.UnwireLoop | day25/main.py:41-42 | cutting a loop wire `(a, a)` raises KeyError at the second `remove` |
| Snowverload.OutcomesSpec | day25/main.py:38-46 | on a loop-free diagram every combination of candidates cuts cleanly, and its outcome says what the cut leaves |
| Snowverload.Factor | day25/main.py:31-47 | `calc_disconnect_factor` for a given iteration order of the candidate set; stated by Snowverload.FactorIs, Snowverload.FactorFound and Snowverload.FactorNone |
| Snowverload.FactorIs | day25/main.py:31-47 | the factor is the first combination's outcome that counts |
| Snowverload.FactorNeverFails | day25/main.py:31-47 | with a loop-free diagram read from lines the search finds a factor or raises "Can not find" and nothing else |
| Snowverload.FoundMeans | day25/main.py:38-46 | a found outcome comes from three candidates that split the graph into two connected parts |
| Snowverload.NoneMeans | day25/main.py:38-47 | "Can not find" after outcomes that never fail means no three candidates split the graph |
| Snowverload.FactorFound | day25/main.py:31-46 | on a loop-free diagram, a factor is the product of the sizes of the two connected parts some three candidates leave |
| Snowverload.FactorNone | day25/main.py:31-47 | on a loop-free diagram, "Can not find disconnection factor" means no three candidates split the graph into two connected parts |
| Text.ParseInt | day02/main.py:14 | `int(s)` succeeds exactly on an optional sign followed by decimal digits, with the digits' value and sign |
| Text.ParseIntToString | day02/main.py:14 | `int(str(i)) == i` |
| Text.NatToStringValue | day02/main.py:14 | the numeral of `n` reads back as `n` |
| Text.IndexOf | day19/main.py:28 | `index` finds the first occurrence, and there is none exactly when it raises |
| Text.IndexOfAt | day19/main.py:28 | an occurrence with none before it is the one `index` finds |
| Text.Split | day25/main.py:10 | `split` yields at least one piece, none holding the separator |
| Text.SplitAt | day25/main.py:10 | splitting at the first separator gives the piece before it, then the split of the rest |
| Text.SplitJoin | day25/main.py:10 | splitting undoes joining when no piece holds the separator |
| Text.JoinSplit | day25/main.py:10 | joining the pieces of a split gives the text back |
| Text.FirstBreak | day24/main.py:14 | the first line break of a text, or none when it holds no line break |
| Text.FirstBreakAt | day24/main.py:14 | a line break with none before it is the one found first |
| Text.SplitLines | day24/main.py:14 | `splitlines` gives lines without line breaks, and none exactly for empty text |
| Text.SplitLinesJoin | day24/main.py:14 | `splitlines` undoes joining with `\n` when no line holds a break and the last is not empty |
| Text.ParseHex | day18/main.py:36 | `int(s, 16)` succeeds exactly on an optional sign followed by hexadecimal digits, with their value and sign |
| Text.Strip | day11/main.py:29 | `strip` leaves no blank at either end and never lengthens the text |
| Text.StripSlice | day11/main.py:29 | what `strip` removes is a run of blanks at each end |
| Text.StripTrimmed | day11/main.py:29 | text without blanks at either end is its own strip |
| Text.Lines | day11/main.py:29 | `filter(bool, [it.strip() ...])` keeps no empty line and no more lines than the input |
| Text.RemoveChar | day19/main.py:30 | `replace("}", "")` leaves no `}` behind and never lengthens the text |
| Text.RemoveCharConcat | day19/main.py:30 | removing a character from joined texts removes it from each part |
| Text.RemoveCharAbsent | day19/main.py:30 | removing a character the text does not hold changes nothing |

## Left out

- Reading the input file, `sys.argv` and standard input, every `print`, and every `main` driver: the model starts from the parsed values. Where a parser is modelled, it starts from the file's lines.
- Day 6 is not part of this model.
- Almanac.ToLocation: the location range is proved only when every rule and the seed range have positive length. With a zero-length rule or range the source's intersection yields an empty interval that the model does not characterise. The error cases are proved for all inputs.
- Almanac.MinLocation: the least location is proved only for positive seed-range lengths and positive rule lengths, for the same reason as ToLocation.
- Almanac.ApplyRule: its invariant is proved only under the ghost `good` flag, which stands for positive rule lengths.
- Almanac.ToLocation, Almanac.MinLocation: bounded by `fuel`, standing in for a cyclic stage chain on which the source loops forever. Running out of fuel is allowed at any fuel.
- Wasteland.Navigate, Wasteland.NavigateAll, Wasteland.Phases: bounded by `fuel`, standing in for a destination that is never reached, on which the source loops forever. No fuel is proved sufficient.
- Wasteland: `names_ending_with` is not modelled. The start and destination sets are parameters.
- PipeMaze.TracePipe, PipeMaze.Follow: bounded by `fuel`, standing in for a pipe that never leads back to `S`. No fuel is proved sufficient.
- PipeMaze.TracePipe: requires a rectangular, non-empty field (`Grid`). An empty or ragged field is not covered.
- Oasis.ExtrapolateAll: requires the histories to be distinct `Deque` objects. The source builds a fresh list per history, so no aliasing arises there.
- Cosmic: the pairwise distance sum in `main` is not modelled. The expansion and the distance of one pair are.
- Springs.Count: the `@cache` memo table is replaced by plain recursion. The value is the same, the running time is not.
- Dish.Floyd, Dish.SpinCycle, Dish.SpinCount: the source ends because the grids reachable from a start are finite. No pigeonhole bound is proved, so `None` (out of fuel) is allowed at any fuel.
- Contraption: the part-2 maximum over every border entry is not modelled. One entry beam is.
- Lagoon.Dig: the float `/ 2` followed by `int()` is modelled as exact halving rounded toward zero. This agrees with the float result below 2^53.
- Lagoon.ParseLine: the five colour characters are read by `Text.ParseHex`, which takes an optional sign and hexadecimal digits. Python's `int(x, 16)` also accepts blanks, `_` separators, a `0x` prefix and non-ASCII digits, and `int()` of the direction character accepts non-ASCII decimal digits. The model raises ValueError on all of these.
- Lagoon.ColorCode: the same narrower reading of the colour characters and the direction digit as Lagoon.ParseLine.
- Text.ParseHex: accepts an optional `+` or `-` and then ASCII hexadecimal digits. Python's `int(s, 16)` also strips surrounding blanks and accepts `_` separators, a `0x` prefix and other Unicode digits, which the model refuses.
- Lagoon: `print_points` is not modelled.
- Workflows.FilterIntervals: the coverage and well-formedness results are proved only when every starting box has its ranges within 1..4000 (`Boxed`). Part 1 builds one-point boxes from any parsed integer, and those lie outside that premise. The error cases are stated for all inputs.
- Workflows.ApplyWorkflow: the dispatch result is proved only under the ghost `good` flag, which stands for a box within 1..4000.
- Workflows.FilterIntervals: bounded by `fuel`, standing in for cyclic workflows on which the source loops forever.
- Pulses.Store.Wait, Pulses.Presses, Pulses.CheckConfig: bounded by `fuel`, standing in for a press whose pulses never die out. No fuel is proved sufficient.
- Pulses.UpstreamWalk, Pulses.ConjOfAll, Pulses.SourceConjunctions, Pulses.Init, Pulses.Store.Create: bounded by `fuel`, standing in for a cycle of flip-flops, around which the source's `find_src_conj` walk never ends. No fuel is proved sufficient.
- Pulses: `watch_module`, `stringify_pulses`, `parse_input`, `invert_adj_ls` and `parse_src_types` are not modelled. The module table and the source lists are parameters.
- Garden: `lagrange_interpolate` works on floating point and is not modelled, and neither is the part-2 driver that calls it. The plot counts it interpolates are.
- Bricks.ChainReaction: bounded by `fuel`, standing in for a cyclic support map. On settled bricks, running out of fuel is its only error, and no fuel is proved sufficient.
- Bricks.Chainable: its total is proved only for bricks that do not overlap (`Apart`) and lie above the ground (`Grounded`). Other inputs are not characterised.
- Bricks.SumFalling: its sum is proved only under the ghost `ok` flag, which stands for a settled snapshot whose support maps agree (`Supports`).
- LongWalk: `path_lengths`, `job_count` and the progress prints are not modelled. `jobs.sort(key=...)` is modelled as a stable insertion sort (`LongWalk.SortJobs`), which gives the same order as Python's stable sort.
- Hail: `count_xy_intersections`, `to_real` and `find_one_shot` work on floats and numpy's `det`/`solve`, and are not modelled. The exact integer equations they start from (`get_eq`, `cross`) are.
- Snowverload.TryCut: counts the parts left by a cut with the corrected `Components`, where `calc_disconnect_factor` (day25/main.py:43) calls the single-sweep `connected_components` recorded under "Findings". The source can therefore miss a cut that leaves two parts, or count one that does not. The lines `a: x`, `b: y`, `x: z`, `z: y`, `a: p`, `q: y`, `r: z`, `p: q`, `q: r`, `r: p` with the wires a-p, q-y and r-z cut show it: the model reports two parts of sizes 5 and 3, where the sweep reports three groups.
- Snowverload.Outcomes: stated over the corrected `Components`, like Snowverload.TryCut, so it describes the evidently intended search and not the single sweep that day25/main.py:43 calls.
- Snowverload.DisconnectFactor: stated over the corrected `Components`, like Snowverload.TryCut, so it describes the evidently intended search and not the single sweep that day25/main.py:43 calls.
- Snowverload.TryCutSpec: stated over the corrected `Components`, like Snowverload.TryCut, so it describes the evidently intended search and not the single sweep that day25/main.py:43 calls.
- Snowverload.OutcomesSpec: stated over the corrected `Components`, like Snowverload.TryCut, so it describes the evidently intended search and not the single sweep that day25/main.py:43 calls.
- Snowverload.FactorIs: stated over the corrected `Components`, like Snowverload.TryCut, so it describes the evidently intended search and not the single sweep that day25/main.py:43 calls.
- Snowverload.FactorNeverFails: stated over the corrected `Components`, like Snowverload.TryCut, so it describes the evidently intended search and not the single sweep that day25/main.py:43 calls.
- Snowverload.FoundMeans: stated over the corrected `Components`, like Snowverload.TryCut, so it describes the evidently intended search and not the single sweep that day25/main.py:43 calls.
- Snowverload.NoneMeans: stated over the corrected `Components`, like Snowverload.TryCut, so it describes the evidently intended search and not the single sweep that day25/main.py:43 calls.
- Snowverload.FactorFound: stated over the corrected `Components`, like Snowverload.TryCut, so it describes the evidently intended search and not the single sweep that day25/main.py:43 calls.
- Snowverload.FactorNone: stated over the corrected `Components`, like Snowverload.TryCut, so it describes the evidently intended search and not the single sweep that day25/main.py:43 calls.
- Snowverload.OutcomesSpec: holds only for a diagram without loops. A line such as `a: a` makes `a` its own neighbour; the wire (a, a) can become a candidate, and cutting it removes `a` from `graph_copy[a]` twice, so the second `remove` raises KeyError (day25/main.py:42). `Snowverload.UnwireLoop` shows that cutting such a wire gives `MissingEdge` in the model. No lemma here states which candidate orders reach that cut.
- Snowverload.FactorNeverFails: holds only for a diagram without loops. With a loop the search can also raise KeyError (`MissingEdge`), as described under Snowverload.OutcomesSpec.
- Snowverload.FactorFound: stated for a diagram without loops only, for the reason given under Snowverload.OutcomesSpec.
- Snowverload.FactorNone: stated for a diagram without loops only, for the reason given under Snowverload.OutcomesSpec.
- Text.IsSpace: covers the ASCII characters `str.isspace()` holds for (tab, line feed, vertical tab, form feed, carriage return, 0x1c-0x1f and space). The non-ASCII ones (0x85, no-break space, U+1680, U+2000-U+200A, U+2028, U+2029, U+202F, U+205F, U+3000) are kept by `Text.Strip` and so by every parser that strips, where Python's `strip()` removes them.
- Text.ParseInt: accepts an optional `+` or `-` and then ASCII digits. Python's `int()` also strips surrounding blanks and accepts `_` separators and other Unicode digits, which the model refuses.
- The `parse_input` functions of days 2, 3, 4, 5, 7, 8, 9, 15, 17, 22 and 23 are not modelled. Their parsed values are parameters: the games, the schematic, the cards, the almanac, the hands, the network, the histories, the steps, the grid of digits, the bricks and the trail map.
- Crucible.Frontier.Pop: the heap layout is not modelled. Among live entries of equal least cost the model takes the least by (cost, node), and it drops every removed entry of that cost, where `heappop` may leave some. So the expansion order among equal costs can differ from CPython's. That can change whether a search with no path ends by the `while frontier.heap` test (`None`) or by `heappop` raising IndexError, and on a grid with a non-digit block whether the goal is popped before that block is entered.
- Crucible.MinHeatLoss: because of the tie order above, the model does not promise the same choice as CPython between `None` and IndexError, or between a loss and a raise on a grid with a non-digit block. The loss returned is the least loss either way.
- Crucible.Heat: `int()` of one block's character succeeds on any Unicode decimal digit (category Nd, such as `٣`), with that digit's value. The model reads only the ASCII digits `0`-`9` and treats every other character as a block whose `int()` raises ValueError. The Unicode digit table is not modelled. `Crucible.Heat` is also None for a block past the end of a row shorter than the first, where `B[y][x]` raises IndexError; both raises are reported as the one error `BadBlock`.
- Crucible.LossAlongSpec: because of `Crucible.Heat`, a block counts as holding a digit only when it holds an ASCII digit. A move across a non-ASCII decimal digit has no loss in the model, where the source adds that digit's value.
- Crucible.MovesErr: because of `Crucible.Heat`, a block holding a non-ASCII decimal digit counts as a non-digit block, so the model raises ValueError where the source goes on with that digit's value.
- Crucible.MinHeatLoss: on a grid holding a non-ASCII decimal digit the model may raise ValueError where the source returns a loss (see `Crucible.Heat`).

## Findings

| source | as written | input that shows it | evidently intended | confidence | as-written member | corrected member |
|---|---|---|---|---|---|---|
| day25/main.py:15-29 | `connected_components` makes a single sweep over the nodes and merges each node's neighbour set into the first component it meets | the diagram `a: x`, `b: y`, `x: z`, `z: y`, which is connected: the sweep gives two overlapping groups, `{a, x, z, y, b}` and `{b, y}`; `calc_disconnect_factor` then counts the groups of the sweep, so it can pass over a cut that leaves two parts | the connected components of the graph, each node in exactly one | not executed | Snowverload.TangleMisread | Snowverload.ComponentsPartition |
