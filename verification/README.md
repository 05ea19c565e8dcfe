# Two TSP solvers: local search and a genetic algorithm

This project models the two solvers in `0607/` of a homework repository for
the Traveling Salesman Problem. A tour is a list of city indices read
cyclically: after the last city, the salesman returns to the first.

- **Local search** (`solver_3opt.py`). The distance is the squared Euclidean
  distance, memoised in a cache keyed by the sorted pair of coordinates.
  `solve` shuffles `range(N)`, improves the tour with `two_opt`, then with
  `three_opt`. Both change the list in place by reversing slices.
  - `two_opt` repeats passes over all pairs `i`, `j >= i + 2` until a pass
    applies no move.
  - `three_opt` prices the current tour's three edges after random positions
    `i < j < k` (`d0`) against five reconnections (`d1` .. `d5`), applies the
    first one priced below `d0`, and stops after `num_attempts` rejections in
    a row.
- **Genetic algorithm** (`solver_genetics.py`).
  - `mutate` reverses a slice of a copy of the tour.
  - `crossover` copies a segment of the first parent into a child list of
    `-1`s, then fills the other slots cyclically from the second parent.
  - `solve` runs an elitist loop: sort by length, keep the elites, breed
    children from the 50 best.

Modules:

- `Tours` (`tours.dfy`) holds what both solvers share:
  - slice reversal;
  - permutations of `0 .. N-1`;
  - the cyclic tour length `total_distance`, its invariance under rotation
    and reversal of the tour, and the exact change one slice reversal makes
    to it;
  - the permutations `random.shuffle` and `random.sample(range(N), N)` produce.
- `DistanceOracle` (`distance_oracle.dfy`) holds the points, the squared
  distance, and the cache as a class whose `entries` map only ever grows.
- `LocalSearch` (`local_search.dfy`) works on an `array<int>` tour, in place,
  as the source's list. Every distance goes through the cache.
- `Genetics` (`genetics.dfy`) works on tours as values. Crossover fills a
  fresh array in a loop. The distance is an arbitrary function of two city
  indices.

Every random draw is an input:

- a choice sequence for each shuffle or full sample;
- the triples for `three_opt`;
- per child, the two parent positions, the crossover cut points, the
  mutation coin and the mutation positions.

The exceptions that `random.sample` and `min` raise become `Err` results.

Three things work differently from what one might expect:

1. The `d3`, `d4` and `d5` branches of `three_opt` are priced by edges that
   their reversals do not make. The lemmas therefore state the length change
   each branch really makes. Only the `d1` and `d2` branches are shown to
   shorten the tour.
2. Crossover of two identical parents does not return that parent:
   `IdenticalParentsExample` computes `[3, 1, 2, 0]` from `[0, 1, 2, 3]`.
3. The double reversal of the `d4` branch is one tuple assignment. Both
   right-hand slices are copied before either is written back, so
   `ReverseBothSlices` copies both, then writes both.
   `ReverseBothComposes` shows this equals the two reversals done one after
   the other.

## Model

| member | source | states |
|---|---|---|
| `Tours.SuccIsMod` | 0607/solver_3opt.py:19 | the successor position used in the tour length is `(k + 1) % N` |
| `Tours.ClosedTour` | 0607/solver_3opt.py:17-19 | the sum of the N edges `tour[k] -> tour[(k+1) % N]` is the open path through the tour followed by the edge back to the first city |
| `Tours.CutTour` | 0607/solver_3opt.py:17-19 | cutting the cyclic sum after positions i and j splits it into three paths and the two edges that join them |
| `Tours.PathLengthReverse` | 0607/solver_3opt.py:36 | with a symmetric distance, a reversed segment costs what it cost before |
| `Tours.ReversalDelta` | 0607/solver_3opt.py:31-36 | reversing positions i+1..j replaces edges A-B and C-D by A-C and B-D and leaves every other edge, so the length changes by exactly their difference (the closing edge included when j = N-1) |
| `Tours.TotalDistance` | 0607/solver_3opt.py:17-19 | the cyclic tour length, the same sum as `solver_genetics.py:12-14`; it carries no contract of its own, `ClosedTour`, `CutTour`, `ReversalDelta`, `TotalDistanceRotate` and `TotalDistanceReverse` state what it means |
| `Tours.ClosingEdge` | 0607/solver_3opt.py:17-19 | the cyclic sum is the open path through the tour plus the edge from the last city back to the first |
| `Tours.TotalDistanceRotate` | 0607/solver_3opt.py:17-19 | rotating the tour to start at any position k leaves its length unchanged |
| `Tours.TotalDistanceReverse` | 0607/solver_3opt.py:17-19 | with a symmetric distance, the whole tour read backwards has the same length |
| `Tours.ReverseRange` | 0607/solver_3opt.py:36 | the list after the slice assignment, of the same length; `ReverseRangeSplices` and `ReverseRangeMultiset` state that it is the slice reversed in place with the rest untouched |
| `Tours.ReverseRangeSplices` | 0607/solver_3opt.py:36 | the slice assignment `tour[lo:hi] = reversed(tour[lo:hi])` yields the part before, the slice reversed, the part after |
| `Tours.ReverseRangeMultiset` | 0607/solver_3opt.py:36 | a slice reversal only rearranges the cities |
| `Tours.PermutationFacts` | 0607/solver_3opt.py:23 | a permutation of `range(N)` has length N, valid indices only and no repeats |
| `Tours.Draw` | 0607/solver_3opt.py:24 | drawing the whole pool one pick at a time keeps its cities |
| `Tours.RandomPermutation` | 0607/solver_3opt.py:23-24 | `range(N)` after `random.shuffle` is a permutation of `0 .. N-1` of length N |
| `DistanceOracle.SqDistSymmetric` | 0607/solver_3opt.py:14 | the squared distance does not depend on the order of the two cities |
| `DistanceOracle.Key` | 0607/solver_3opt.py:12 | the key is the pair of the two cities, smaller first in Python's tuple order |
| `DistanceOracle.KeySymmetric` | 0607/solver_3opt.py:12 | both orders of the two cities give the same cache key |
| `DistanceOracle.CacheHit` | 0607/solver_3opt.py:13-15 | in a consistent cache, a stored entry is the distance of the cities asked about, in either order |
| `DistanceOracle.DistanceCache.constructor` | 0607/solver_3opt.py:9 | the cache starts empty and consistent |
| `DistanceOracle.DistanceCache.Distance` | 0607/solver_3opt.py:11-15 | returns the squared distance; a miss adds exactly the missing key with its distance, a hit changes nothing, no entry is ever overwritten and every entry stays the distance of its key |
| `DistanceOracle.EdgeWeightSymmetric` | 0607/solver_3opt.py:11-15 | the distance between city indices is symmetric |
| `LocalSearch.CityDistance` | 0607/solver_3opt.py:33-34 | `distance(cities[a], cities[b])` is the squared distance of cities a and b, and the cache only grows |
| `LocalSearch.ReverseSlice` | 0607/solver_3opt.py:36 | the array afterwards is the old one with positions lo..hi-1 reversed |
| `LocalSearch.TwoOptMoveGain` | 0607/solver_3opt.py:32-36 | the 2-opt move shortens the tour by exactly d0 - d1, strictly when it fires, and it never fires for i = 0, j = N-1, where D is A |
| `LocalSearch.TryTwoOptMove` | 0607/solver_3opt.py:29-38 | fires exactly when d0 > d1; then positions i+1..j are reversed, otherwise the tour is untouched |
| `LocalSearch.TwoOptStep` | 0607/solver_3opt.py:47-48 | one call keeps the multiset of cities and never lengthens the tour, strictly shortening it when it fires |
| `LocalSearch.Sweep` | 0607/solver_3opt.py:44-48 | the tour after the inner loop of row i has tried j' = i+2 .. j-1, each reversal applied when it improves the tour the earlier ones left; same length |
| `LocalSearch.Row` | 0607/solver_3opt.py:44-48 | the tour after row i has tried every j from i+2 to N-1; same length |
| `LocalSearch.RowsTo` | 0607/solver_3opt.py:43-48 | the tour after rows 0 .. i-1 of a pass, each row on the tour the earlier ones left; same length |
| `LocalSearch.Pass` | 0607/solver_3opt.py:42-48 | the tour after one pass of the `while` body, all N rows; same length |
| `LocalSearch.Passes` | 0607/solver_3opt.py:41-50 | the tour after p passes, each on the tour the previous one left; same length |
| `LocalSearch.EdgeWeightMovesShorten` | 0607/solver_3opt.py:32-36 | under the squared distance, every reversal `reverse_segment_if_better` applies makes any tour strictly shorter |
| `LocalSearch.RowIteration` | 0607/solver_3opt.py:44-48 | one iteration of the inner loop extends the sweep by the move at j, keeps the cities in range, and a move has fired in the row exactly when the tour differs from the row's start |
| `LocalSearch.SweepKeeps` | 0607/solver_3opt.py:44-48 | a partial row keeps the cities, never lengthens the tour, and shortens it strictly if it changed it |
| `LocalSearch.SweepStill` | 0607/solver_3opt.py:44-48 | a partial row in which no j' admits an improving reversal on the starting tour leaves it unchanged |
| `LocalSearch.SweepMoves` | 0607/solver_3opt.py:44-48 | a partial row in which some j' admits an improving reversal on the starting tour shortens it strictly |
| `LocalSearch.SweepIdle` | 0607/solver_3opt.py:44-48 | a partial row leaves the tour unchanged if and only if no j' in it admits an improving reversal |
| `LocalSearch.RowKeeps` | 0607/solver_3opt.py:44-48 | a row keeps the cities and never lengthens the tour; it leaves the tour unchanged exactly when no j >= i+2 admits an improving reversal, and otherwise shortens it strictly |
| `LocalSearch.RowsKeeps` | 0607/solver_3opt.py:43-48 | the first i rows keep the cities, never lengthen the tour, and shorten it strictly if they changed it |
| `LocalSearch.RowsIdleSplit` | 0607/solver_3opt.py:43-44 | the pairs of rows 0 .. i-1 are those of rows 0 .. i-2 and those of row i-1 |
| `LocalSearch.RowsStill` | 0607/solver_3opt.py:43-48 | rows in which no pair admits an improving reversal on the starting tour leave it unchanged |
| `LocalSearch.RowsMoves` | 0607/solver_3opt.py:43-48 | rows in which some pair admits an improving reversal on the starting tour shorten it strictly |
| `LocalSearch.RowsIdle` | 0607/solver_3opt.py:43-48 | the first i rows leave the tour unchanged if and only if none of their pairs admits an improving reversal |
| `LocalSearch.PassKeeps` | 0607/solver_3opt.py:42-50 | a pass keeps the cities and never lengthens the tour; it leaves the tour unchanged exactly when the tour is 2-optimal, and otherwise shortens it strictly |
| `LocalSearch.PassesKeep` | 0607/solver_3opt.py:41-50 | any number of passes keeps the cities and never lengthens the tour |
| `LocalSearch.PassesShorten` | 0607/solver_3opt.py:41-50 | p >= 1 passes that each shortened the tour leave it strictly shorter than at the start |
| `LocalSearch.TwoOptRow` | 0607/solver_3opt.py:44-48 | the array ends as `Row` of the old tour; it keeps the cities and never lengthens the tour; when a move fired the tour is strictly shorter, when none fired it is unchanged and no j >= i+2 improves |
| `LocalSearch.TwoOptPass` | 0607/solver_3opt.py:42-48 | the array ends as `Pass` of the old tour, and `improved` is set exactly when the pass changed the tour |
| `LocalSearch.TwoOpt` | 0607/solver_3opt.py:40-51 | the array ends as `Passes` of the old tour after `passes` passes; the result keeps the cities and is no longer than the input; it stops after the first pass without moves, and then that pass is a fixpoint and no pair i, j >= i+2 admits an improving reversal; or it stops after `maxPasses` passes, and then the tour is strictly shorter; every pass but a final idle one shortened the tour |
| `LocalSearch.Choose` | 0607/solver_3opt.py:64-79 | no move exactly when none of d1..d5 is below d0; otherwise the chosen reconnection is priced below d0 and every one before it in the source's order is not |
| `LocalSearch.Reconnect` | 0607/solver_3opt.py:64-78 | the tour after the slice reversals of the chosen branch, of the same length; `ReconnectPermutes` states that it keeps the cities and every position outside i+1..k |
| `LocalSearch.ReverseBothSegments` | 0607/solver_3opt.py:74 | the tour with positions i+1..j and j+1..k each read back to front, of the same length; `ReverseBothComposes` states it is the two reversals one after the other |
| `LocalSearch.ReverseBothComposes` | 0607/solver_3opt.py:74 | reversing both segments at once is the two reversals one after the other |
| `LocalSearch.RangePermutes` | 0607/solver_3opt.py:65-77 | a reversal inside i+1..k keeps the cities and every position outside i+1..k |
| `LocalSearch.BothPermutes` | 0607/solver_3opt.py:74 | the double reversal keeps the cities and every position outside i+1..k |
| `LocalSearch.ReconnectPermutes` | 0607/solver_3opt.py:64-79 | every reconnection keeps the multiset of cities and positions 0..i and k+1..N-1 |
| `LocalSearch.ThreeOptFirstGain` | 0607/solver_3opt.py:64-66 | the d1 branch changes the length by exactly d1 - d0 |
| `LocalSearch.ThreeOptSecondGain` | 0607/solver_3opt.py:67-69 | the d2 branch changes the length by exactly d2 - d0 |
| `LocalSearch.ThreeOptSpanChange` | 0607/solver_3opt.py:70-72 | the d3 branch replaces edges a-b, e-f by a-e, b-f (not the priced ones), and the d5 branch applies the same reversal |
| `LocalSearch.ThreeOptBothChange` | 0607/solver_3opt.py:73-75 | the d4 branch replaces edges a-b, c-d, e-f by a-c, b-e, d-f (not the priced ones) |
| `LocalSearch.ThreeOptPricedBranchesShorten` | 0607/solver_3opt.py:64-69 | when the d1 or d2 branch is taken, the tour gets strictly shorter |
| `LocalSearch.ThreeEdges` | 0607/solver_3opt.py:57-62 | one of the sums d0..d5: three cached distances added up |
| `LocalSearch.PricedCosts` | 0607/solver_3opt.py:56-62 | d0 prices the three edges the tour has after positions i, j, k (the closing edge when k = N-1); d1 trades the first two for a-c, b-d and d2 the last two for c-e, d-f |
| `LocalSearch.PriceThreeOpt` | 0607/solver_3opt.py:56-62 | computes the six sums d0..d5 for the cities at i, i+1, j, j+1, k, (k+1) % N |
| `LocalSearch.ReverseBothSlices` | 0607/solver_3opt.py:74 | the array afterwards has both segments i+1..j and j+1..k reversed |
| `LocalSearch.ApplyReconnection` | 0607/solver_3opt.py:64-78 | the array afterwards is the chosen reconnection of the old tour |
| `LocalSearch.TryThreeOptMove` | 0607/solver_3opt.py:54-79 | fires exactly when one of d1..d5 is below d0; the tour becomes the first such reconnection in the source's order, keeps its cities and stays within range |
| `LocalSearch.TrailingRejections` | 0607/solver_3opt.py:82-90 | the `attempts` counter after a record of accepted and rejected attempts: the last r attempts were all rejected and the one before them, if any, was accepted |
| `LocalSearch.TrailingStep` | 0607/solver_3opt.py:86-90 | an accepted attempt resets the counter to 0, a rejected one adds 1 |
| `LocalSearch.BudgetKept` | 0607/solver_3opt.py:83 | if the counter was below num_attempts before every earlier attempt and before the next one, it was below it before every attempt including the next |
| `LocalSearch.Attempt` | 0607/solver_3opt.py:54-79 | one call of the helper on a value tour: the chosen reconnection of the tour, which keeps its length and its cities |
| `LocalSearch.Run` | 0607/solver_3opt.py:83-90 | the tour after a sequence of triples, each attempted on the tour the previous ones left; same length |
| `LocalSearch.Fired` | 0607/solver_3opt.py:86-90 | one flag per triple, set exactly when that triple's attempt moved the tour it was tried on |
| `LocalSearch.RunPermutes` | 0607/solver_3opt.py:83-90 | any number of attempts keeps the multiset of cities |
| `LocalSearch.RunRejected` | 0607/solver_3opt.py:89-90 | a rejected triple leaves the tour as it was, and that tour still rejects it |
| `LocalSearch.FiredPrefix` | 0607/solver_3opt.py:86-90 | the record of a run without its last flag is the record of the run without its last triple |
| `LocalSearch.TrailRejected` | 0607/solver_3opt.py:83-90 | after any number of attempts, every triple of the trailing run of rejections the counter holds is rejected by the tour reached |
| `LocalSearch.PrefixFits` | 0607/solver_3opt.py:85 | every prefix of valid triples `i < j < k < N` is valid |
| `LocalSearch.RunStep` | 0607/solver_3opt.py:83-90 | one more triple extends `Run` by one attempt |
| `LocalSearch.FiredStep` | 0607/solver_3opt.py:86-90 | one more triple extends `Fired` by the flag of its attempt |
| `LocalSearch.ThreeOptStep` | 0607/solver_3opt.py:83-90 | one loop iteration keeps the tour equal to `Run` and the flags equal to `Fired` of the triples used, resets the counter on an accepted move and adds one on a rejected one |
| `LocalSearch.ThreeOpt` | 0607/solver_3opt.py:81-91 | the array ends as `Run` of the triples consumed and `accepted` is `Fired` of them; the counter stays within [0, num_attempts], resets on every accepted move and counts every rejected one; the loop ends exactly when it reaches num_attempts, or raises for N < 3; the tour keeps its cities and the last `attempts` triples are all rejected by the final tour; no triple was drawn once the counter had reached num_attempts |
| `LocalSearch.Solve` | 0607/solver_3opt.py:21-26 | fails exactly when N < 3 (the sample of three positions), which is exactly when three_opt ends with `TooFewCities`, and otherwise returns a permutation of `0 .. N-1`; the shuffled list is `RandomPermutation` of the picks; two_opt's tour is `Passes` of it, no longer than it, and carries `TwoOpt`'s promises: it stopped at a 2-optimal fixpoint after at least one pass, or after `maxPasses` passes, and every pass but a final idle one shortened the tour; the result is `Run` of that tour over the triples three_opt consumed, `accepted` is `Fired` of them, the counter was below num_attempts before each of them, three_opt ended on the budget exactly when the trailing rejections reached num_attempts and otherwise ran out of triples, and the result rejects every triple of that trailing run |
| `Genetics.Mutate` | 0607/solver_genetics.py:16-20 | the mutated copy has the same length and the same cities |
| `Genetics.MutateSplices` | 0607/solver_genetics.py:17-19 | the copy is the tour before i, positions i..j reversed, the tour after j |
| `Genetics.MutateInvolution` | 0607/solver_genetics.py:19 | mutating twice with the same positions gives the tour back |
| `Genetics.MutatePermutation` | 0607/solver_genetics.py:16-20 | a mutated permutation of `0 .. N-1` is still one |
| `Genetics.ChildMembership` | 0607/solver_genetics.py:30-31 | a city of a permutation parent is a valid index and not already among the cities placed before it |
| `Genetics.RemainingConcat` | 0607/solver_genetics.py:30-33 | the cities of tour2 kept for the child, taken over two pieces, are those of each piece in order |
| `Genetics.RemainingMultiset` | 0607/solver_genetics.py:31 | a city of the segment is never kept from tour2, any other city as often as tour2 has it |
| `Genetics.SlotStep` | 0607/solver_genetics.py:33 | `position = (position + 1) % N` moves to the next slot outside the segment |
| `Genetics.LayoutAppend` | 0607/solver_genetics.py:32-33 | writing a city at `position` extends the filled slots by that city |
| `Genetics.LayoutMember` | 0607/solver_genetics.py:31 | a city is in the child exactly when it is in the copied segment or already placed |
| `Genetics.RemainingFill` | 0607/solver_genetics.py:26-33 | for permutation parents, tour2's cities outside the segment exactly fill the N - (j-i+1) free slots |
| `Genetics.RemainingSnoc` | 0607/solver_genetics.py:30-31 | scanning one more city of tour2 keeps it exactly when it is outside the segment |
| `Genetics.RemainingBound` | 0607/solver_genetics.py:30-33 | any prefix of tour2 keeps at most the N - (j-i+1) cities that fit the free slots |
| `Genetics.RemainingStep` | 0607/solver_genetics.py:30-32 | the city at p was not placed before, and placing it never needs more than the free slots |
| `Genetics.CrossoverStep` | 0607/solver_genetics.py:30-33 | `city not in child` holds exactly when the city is outside the segment, and then a free slot remains for it |
| `Genetics.CrossoverKeepsSegment` | 0607/solver_genetics.py:26-27 | the child holds `tour1[i..j]` verbatim at positions i..j |
| `Genetics.CrossoverFillOrder` | 0607/solver_genetics.py:29-33 | read cyclically from position j+1 to i-1, the child is tour2 with the segment's cities removed, in tour2's order |
| `Genetics.CrossoverChild` | 0607/solver_genetics.py:22-35 | the child as a value, N entries long: the segment of tour1 and the kept cities of tour2 laid out from j+1 |
| `Genetics.ChildMultiset` | 0607/solver_genetics.py:26-35 | the child of two permutations holds exactly the cities of tour2 |
| `Genetics.CrossoverPermutation` | 0607/solver_genetics.py:22-35 | the child of two permutations is a permutation of `0 .. N-1`, with no `-1` left |
| `Genetics.IdenticalParentsExample` | 0607/solver_genetics.py:29-33 | `[0, 1, 2, 3]` crossed with itself at i = 1, j = 2 gives `[3, 1, 2, 0]` |
| `Genetics.Crossover` | 0607/solver_genetics.py:22-35 | the child has N entries, and for permutation parents it is the segment of tour1 with tour2's other cities filled in cyclically from j+1 |
| `Genetics.InitializePopulation` | 0607/solver_genetics.py:37-38 | exactly population_size tours, each a permutation of `0 .. N-1` |
| `Genetics.InsertBehindHead` | 0607/solver_genetics.py:49 | a tour no shorter than the head of a sorted population, inserted behind it, leaves the head no longer than every other member |
| `Genetics.Insert` | 0607/solver_genetics.py:49 | inserting into a sorted population keeps it sorted by total_distance and adds exactly that tour |
| `Genetics.SortByLength` | 0607/solver_genetics.py:49 | the sorted population has the same members and is in ascending order of total_distance |
| `Genetics.ArgMin` | 0607/solver_genetics.py:61 | `min(..., key=...)` picks a shortest tour, the first of them |
| `Genetics.SortedHeadIsBest` | 0607/solver_genetics.py:49-50 | the first tour after sorting is as short as the best of the population |
| `Genetics.SortedTours` | 0607/solver_genetics.py:49 | sorting keeps every member a permutation |
| `Genetics.ElitismKeepsBest` | 0607/solver_genetics.py:49-50 | with the best sorted tour kept, the best length never increases |
| `Genetics.BredChild` | 0607/solver_genetics.py:53-56 | the child of one draw as a value: the crossover of the two drawn parents, mutated when the coin says so; a permutation of N cities |
| `Genetics.Breed` | 0607/solver_genetics.py:53-57 | the child the loop body builds is `BredChild` of its draw, and a permutation |
| `Genetics.PoolTours` | 0607/solver_genetics.py:53 | the parent pool `population[:50]` has the pool size and holds permutations only |
| `Genetics.Offspring` | 0607/solver_genetics.py:53-57 | the m-th child of a generation is `BredChild` of the m-th draw over the pool, a permutation |
| `Genetics.Brood` | 0607/solver_genetics.py:52-57 | the population_size - num_elites children of a generation, child m from draw m, all permutations |
| `Genetics.Rebuild` | 0607/solver_genetics.py:50-57 | the new population is the elites followed by the brood, exactly population_size tours |
| `Genetics.BroodGrows` | 0607/solver_genetics.py:52-57 | appending the next bred child extends the elites and the children so far by exactly the next child of `Brood` |
| `Genetics.RebuildTours` | 0607/solver_genetics.py:50-57 | the rebuilt population starts with the elites of the sorted one and holds permutations only |
| `Genetics.NextGeneration` | 0607/solver_genetics.py:50-59 | the loop builds exactly `Rebuild` of the sorted population and the draws: population_size members, starting with `population[:num_elites]`, all permutations |
| `Genetics.Generation` | 0607/solver_genetics.py:49-59 | one pass of the outer loop: sort, then rebuild; population_size permutations |
| `Genetics.GenerationKeepsBest` | 0607/solver_genetics.py:49-50 | with an elite, one generation never makes the best total_distance longer |
| `Genetics.Evolve` | 0607/solver_genetics.py:48-59 | the population after a sequence of generations, each with its own draws; population_size permutations |
| `Genetics.EvolveStep` | 0607/solver_genetics.py:48-59 | one more generation extends `Evolve` by one `Generation` |
| `Genetics.EvolveKeepsBest` | 0607/solver_genetics.py:48-59 | with an elite, any number of generations never makes the best total_distance longer |
| `Genetics.DefaultsFeasible` | 0607/solver_genetics.py:41-53 | with the source's constants (10 elites, 90 children a generation, parents from the best 50), solve fails exactly when there are fewer than two cities |
| `Genetics.Solve` | 0607/solver_genetics.py:40-62 | fails with the sample error exactly when a child must be bred but there are fewer than two parents or cities, and with the empty-min error for an empty population; otherwise the final population is `Evolve` of the initial one and the draws, and it returns that population's first shortest tour, a permutation, no longer than the best initial tour when there is an elite |

## Left out

- `random`: every draw (shuffle, samples, `random.random()`) is an input. The
  model states what the solvers do for any draws; nothing is said about their
  distribution.
- `math.sqrt` and floating-point rounding: the genetic solver's distance is
  an arbitrary function of two city indices. The squared distance of the
  local search is computed exactly over the reals.
- `LocalSearch.TwoOpt`: the source loops until a pass makes no move. The
  model runs at most `maxPasses` passes, and the tour is always `Passes` of
  the input for the passes run. It promises local optimality only when it
  reports `converged`. Otherwise it promises `passes == maxPasses` and a
  strictly shorter tour. Termination of the unbounded loop is not proved.
  `LocalSearch.Solve` inherits the bound, so its two_opt tour is `Passes`
  of the shuffled list for at most `maxPasses` passes.
- `LocalSearch.ThreeOpt`: the source draws triples until `num_attempts`
  rejections in a row. The model takes a finite sequence of triples and may
  stop with `SamplesExhausted` first. Termination of the reset-on-success
  loop is not proved.
- The check `if j - i == 1: continue` in `two_opt` is dead, since `j` starts at
  `i + 2`, and is not modelled.
- `total_distance` in `solver_3opt.py` also fills the distance cache. The
  model's `TotalDistance` is a pure sum, and only `main` calls the Python
  function.
- `main`, the `__main__` blocks, `read_input`, `print_tour` and
  `sample_output_generator.py` are input and output only. `common.py` is not
  part of this model.
- `Genetics.SortByLength`: the insertion sort is stable like Python's
  `sorted`, but no lemma states the stability.
- `Genetics.Crossover`: for parents that are not permutations of the same N
  cities, only the child's length is stated.
- `Genetics.Solve`: the source raises the sample error inside the first
  generation. The model reports it before the loop; nothing observable
  happens in between.
- `Genetics.Solve`: the source's constants (100 tours, 1000 generations, 10
  elites, parents from the best 50) are the fields of a `Config`, with
  `Defaults` holding these values; `DefaultsFeasible` works out what they
  mean for when solve fails. The mutation rate 0.1 only enters through
  the mutation coin of each draw.
