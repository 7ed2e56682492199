# Incremental trip assignment in jinete, modelled in Dafny

This project models the trip-assignment engine of the jinete vehicle-routing
solver. It covers three parts:

- The **crosser** proposes and commits trip placements over a fixed fleet and
  job. It keeps the set of trips already done, and derives from it the pending
  trips and whether the job is complete (`crossers.dfy`, class
  `Crossers.Crosser`).
- The **ranking insertion iterator** keeps, for every attractive vehicle, a
  sub-ranking: that vehicle's candidate routes, sorted by the criterion. On a
  commit it rebuilds the receiving vehicle's sub-ranking, and the sub-ranking
  of any vehicle not ranked yet, and purges the committed trip from the
  others. Its `__next__` builds a bounded short-list and picks one entry at
  random (`ranking.dfy`, class `Ranking.RankingInsertionIterator`).
- The **intensive insertion strategy** enumerates one candidate route per
  ordered pair of stop indices (`strategies.dfy`).

Shared value types are in `models.dfy`. The criterion is in `criterion.dfy`.

Trips and vehicles are integer identifiers. A route is a value: its vehicle,
the set of trips it serves, its number of stops, and an abstract key that
stands for whatever else the criterion reads. Two candidates that insert the
same trip at different positions differ in that key, so they can score
differently and sit apart in a sub-ranking. The criterion is a scoring
function where lower is better. `best` keeps its first argument on a tie, and
`sorted` is a stable sort by score, the way Python's `min` and `list.sort`
with a key behave. Whatever the code does not show is a parameter:

- `strategy.compute` over several trips;
- `compute_one`;
- the base strategy's `compute`;
- the base iterator's `attractive_routes` and `routes_container`;
- the random choice, given as an oracle number `oracle`, so the pick is
  `candidates[oracle % |candidates|]`.

The Python set of pending trips iterates in some order that the code does not
fix. The model takes that order to be the job's trip order with done trips
skipped (`Crosser.PendingOrder`). The rebuild contracts are stated against
that order (`SubRanking(…, crosser.PendingOrder())`). The bound on the
neighbourhood, and the fact that it holds pending trips only, hold for any
order.

The model follows what the code does, and some of that differs from what one
might expect:

- The short-list is not a top-k list over all candidate routes. The scan of a
  sub-ranking stops as soon as the short-list's last entry is at least as good
  as the current route, whether the list is full or not
  (jinete/algorithms/heuristics/insertion/iterators/ranking.py:84-85). Once a
  head has been added it is that last entry, and sub-rankings are sorted, so
  the scan never goes past the head. Each vehicle therefore contributes at
  most its head. The result depends on the order in which the dictionary
  yields the vehicles (`Ranking.ShortListDependsOnKeyOrder`). The best head
  always stays at the front (`Ranking.ShortListKeepsBest`).
- `mark_trip_as_done` accepts any trip, including one outside the job
  (jinete/algorithms/utils/crossers/abc.py:51-52). The model proves only what
  the code guarantees: pending trips lie inside the job, are disjoint from the
  done trips, and together with them cover the job.
- After a commit, a sub-ranking can still hold routes that serve the
  committed trip, in two places. A ranked vehicle that is not among the
  attractive routes is not visited by the update
  (jinete/algorithms/heuristics/insertion/iterators/ranking.py:55-56), so its
  sub-ranking stays as it was (`Refreshed`'s last case). The receiving
  vehicle is rebuilt from its current route
  (jinete/algorithms/heuristics/insertion/iterators/ranking.py:60-61), and in
  the program that route already holds the trip, so every rebuilt candidate
  of that vehicle serves it too. The property that no entry serves the committed
  trip (`Ranking.PurgedSubRanking`) holds only for the purged sub-rankings.
- The dictionary `ranking` keeps its keys in insertion order. The model keeps
  that order as `vehicles`: a vehicle not ranked before goes last, and a
  ranked one keeps its place (`Ranking.KeyOrder`).

## Model

| member | source | states |
|---|---|---|
| `Crossers.Crosser.constructor` | jinete/algorithms/utils/crossers/abc.py:28-31 | exactly one route per fleet vehicle, with no trips, the stop count `initialStops` gives for that vehicle and the key of an empty plan; no trip done; every trip of the job pending; complete exactly when the job is empty |
| `Crossers.Crosser.Next` | jinete/algorithms/utils/crossers/abc.py:36-42 | a step succeeds exactly when `get_planned_trip` proposed something, and returns that proposal; with no proposal it fails with the terminal non-feasible error |
| `Crossers.Crosser.MarkPlannedTripAsDone` | jinete/algorithms/utils/crossers/abc.py:48-49 | the planned trip's trip is added to the done trips and no other field changes |
| `Crossers.Crosser.MarkTripAsDone` | jinete/algorithms/utils/crossers/abc.py:51-52 | done trips become the old ones plus the trip, which is no longer pending; trips and routes are untouched |
| `Crossers.Crosser.MarkPlannedTripAsUndone` | jinete/algorithms/utils/crossers/abc.py:54-55 | the planned trip's trip is removed from the done trips; it fails exactly when that trip was not done |
| `Crossers.Crosser.MarkTripAsUndone` | jinete/algorithms/utils/crossers/abc.py:57-58 | exactly the trip is removed from the done trips; a trip that was not done gives the missing-key failure and leaves the set unchanged |
| `Crossers.DoneThenUndone` | jinete/algorithms/utils/crossers/abc.py:51-58 | calling `mark_trip_as_done` and then `mark_trip_as_undone` on a trip that was not done succeeds and leaves the done and pending trips as they were |
| `Crossers.DoneTwice` | jinete/algorithms/utils/crossers/abc.py:51-52 | calling `mark_trip_as_done` twice on the same trip leaves the crosser as one call does: the trip is done and no longer pending |
| `Crossers.Crosser.PendingTrips` | jinete/algorithms/utils/crossers/abc.py:60-62 | pending trips lie inside the job, are disjoint from the done trips, and together with them cover the job, which pins them down as the job minus the done trips |
| `Crossers.Crosser.PendingOrder` | jinete/algorithms/utils/crossers/abc.py:60-62 | the pending set as it iterates: each pending trip exactly once, and nothing else |
| `Crossers.Unfinished` | jinete/algorithms/utils/crossers/abc.py:60-62 | the trips of an order that are not done, with no repetition when the order has none |
| `Crossers.DistinctCardinality` | jinete/algorithms/utils/crossers/abc.py:60-62 | an iteration order without repetitions has as many trips as the set it lists |
| `Crossers.Crosser.Completed` | jinete/algorithms/utils/crossers/abc.py:64-66 | complete exactly when every trip of the job is done |
| `Criterion.Best` | jinete/algorithms/heuristics/insertion/iterators/ranking.py:84 | returns one of its two arguments, one that scores no worse than either, and the first on a tie |
| `Criterion.Sort` | jinete/algorithms/heuristics/insertion/iterators/ranking.py:71 | the result is sorted by score and is a permutation of the input |
| `Criterion.Insert` | jinete/algorithms/heuristics/insertion/iterators/ranking.py:71 | inserting into a sorted list keeps it sorted and adds exactly that route |
| `Criterion.BestAgreesWithSort` | jinete/algorithms/heuristics/insertion/iterators/ranking.py:84 | `best(a, b)` is `a` exactly when `a` scores no worse than `b`, and it is the head of the sorted pair |
| `Criterion.SortKeepsSorted` | jinete/algorithms/heuristics/insertion/iterators/ranking.py:92 | re-sorting an already sorted short-list leaves it as it is |
| `Criterion.Place` | jinete/algorithms/heuristics/insertion/iterators/ranking.py:92 | placing one route makes the list exactly one entry longer |
| `Criterion.PlaceCounts` | jinete/algorithms/heuristics/insertion/iterators/ranking.py:92 | placing one route in a list adds exactly one copy of that route and keeps every other route, counted as a multiset; a route is in the result exactly when it was in the list or is the placed one |
| `Criterion.PlaceKeepsSorted` | jinete/algorithms/heuristics/insertion/iterators/ranking.py:92 | placing a route keeps a sorted list sorted |
| `Criterion.InsertBeforePlace` | jinete/algorithms/heuristics/insertion/iterators/ranking.py:92 | a stable insertion in front of a placed route is placing the route in the longer list |
| `Criterion.SortPlaces` | jinete/algorithms/heuristics/insertion/iterators/ranking.py:90-92 | sorting a sorted list with one route appended puts that route after every route that scores no worse and before the first that scores worse |
| `Ranking.NeighborhoodSize` | jinete/algorithms/heuristics/insertion/iterators/ranking.py:32-35 | the stored bound is at most the number of trips; no given value means the number of trips; a given value yields its minimum with the number of trips |
| `Ranking.RankingInsertionIterator.constructor` | jinete/algorithms/heuristics/insertion/iterators/ranking.py:29-41 | a fresh crosser with nothing done and one fresh route per fleet vehicle, as the crosser's constructor builds them; the clamped neighbourhood bound (250 when not given); `randomized_size` as given (3 when not given); the ranked vehicles are exactly the attractive routes' vehicles, each holding the sub-ranking of its last attractive route; every sub-ranking sorted; the vehicles iterate in the order their first attractive route comes |
| `Ranking.RankingInsertionIterator.InitializeRanking` | jinete/algorithms/heuristics/insertion/iterators/ranking.py:43-47 | each attractive route's vehicle gets that route's sub-ranking, a later route of the same vehicle replacing an earlier one; other vehicles keep theirs; a newly ranked vehicle is appended to the key order and a ranked one keeps its place |
| `Ranking.RankingInsertionIterator.InitializeRankingStep` | jinete/algorithms/heuristics/insertion/iterators/ranking.py:45-46 | one turn of the initialisation loop gives the next attractive route's vehicle that route's sub-ranking, extends the ranked vehicles and the key order by it, and keeps the iterator valid |
| `Ranking.RankingInsertionIterator.InitializedStep` | jinete/algorithms/heuristics/insertion/iterators/ranking.py:45-46 | assigning the next attractive route's sub-ranking to its vehicle initialises the ranking one route further, the other vehicles unchanged |
| `Ranking.LastRouteOf` | jinete/algorithms/heuristics/insertion/iterators/ranking.py:45-46 | the route whose sub-ranking a vehicle keeps after initialisation is one of the attractive routes and belongs to that vehicle |
| `Ranking.KeyOrderExtends` | jinete/algorithms/heuristics/insertion/iterators/ranking.py:45-46 | the dictionary's key order after ranking routes keeps the old keys in front in their old order, adds exactly the routes' vehicles and repeats no key |
| `Ranking.KeyOrderOfRanked` | jinete/algorithms/heuristics/insertion/iterators/ranking.py:55-56 | updating vehicles that are all ranked already leaves the key order as it was |
| `Ranking.RankingInsertionIterator.MarkPlannedTripAsDone` | jinete/algorithms/heuristics/insertion/iterators/ranking.py:49-51 | the trip is marked done before the update, so it is no longer pending when sub-rankings are rebuilt; afterwards each vehicle's sub-ranking is rebuilt, purged or unchanged as `Refreshed` describes; the key order gains the unranked attractive vehicles at its end |
| `Ranking.RankingInsertionIterator.UpdateRanking` | jinete/algorithms/heuristics/insertion/iterators/ranking.py:53-56 | every attractive vehicle is updated once: the receiving vehicle and unranked vehicles are rebuilt from their current route; other attractive vehicles are purged of the trip; every other vehicle's sub-ranking is unchanged; unranked vehicles join the key order at its end, in attractive order |
| `Ranking.RankingInsertionIterator.UpdateRankingStep` | jinete/algorithms/heuristics/insertion/iterators/ranking.py:55-56 | one turn of the update loop extends the refreshed vehicles and the key order by the next attractive route's vehicle |
| `Ranking.RankingInsertionIterator.RefreshedStep` | jinete/algorithms/heuristics/insertion/iterators/ranking.py:55-56 | updating one more vehicle keeps every refreshed sub-ranking as `Refreshed` describes and adds that vehicle |
| `Ranking.RankingInsertionIterator.UpdateVehicleRanking` | jinete/algorithms/heuristics/insertion/iterators/ranking.py:58-63 | a full rebuild from the vehicle's current route when it received the trip or was not ranked; otherwise the old sub-ranking without the routes serving the trip; other vehicles untouched; sub-rankings stay sorted; an unranked vehicle goes last in the key order, a ranked one keeps its place |
| `Ranking.RankingInsertionIterator.SetSubRanking` | jinete/algorithms/heuristics/insertion/iterators/ranking.py:46 | assigns one vehicle's sub-ranking; a newly added vehicle is iterated last, as a Python dictionary orders keys |
| `Ranking.RankingInsertionIterator.CreateSubRanking` | jinete/algorithms/heuristics/insertion/iterators/ranking.py:65-72 | the strategy receives at most `neighborhood_max_size` distinct pending trips (fewer only when fewer are pending); the result is those candidates, sorted by the criterion |
| `Ranking.RebuiltIgnoresCommitted` | jinete/algorithms/heuristics/insertion/iterators/ranking.py:49-51 | a trip that is no longer pending is never in the neighbourhood handed to the strategy, which holds at most the bound |
| `Ranking.Purge` | jinete/algorithms/heuristics/insertion/iterators/ranking.py:63 | a route survives the purge exactly when it was in the sub-ranking and does not serve the committed trip |
| `Ranking.PurgeIsSubsequence` | jinete/algorithms/heuristics/insertion/iterators/ranking.py:63 | the purge keeps the order of the routes it keeps |
| `Ranking.PurgeKeepsSorted` | jinete/algorithms/heuristics/insertion/iterators/ranking.py:63 | a sorted sub-ranking stays sorted when purged |
| `Ranking.PurgeIdempotent` | jinete/algorithms/heuristics/insertion/iterators/ranking.py:63 | purging the same trip twice equals purging it once |
| `Ranking.PurgedSubRanking` | jinete/algorithms/heuristics/insertion/iterators/ranking.py:62-63 | after a commit no purged entry serves the committed trip; every entry not serving it is kept, in its old order |
| `Ranking.AdmitProperties` | jinete/algorithms/heuristics/insertion/iterators/ranking.py:83-92 | one sub-ranking's turn keeps the short-list sorted and within `randomized_size`, adds nothing but the head, and leaves in front an entry no worse than the head and the old front; it pops from an empty list exactly when `randomized_size` is 0 or less |
| `Ranking.AdmitResorts` | jinete/algorithms/heuristics/insertion/iterators/ranking.py:83-92 | the list the inner loop leaves, re-sorted, is the previous list with the head admitted: unchanged when the last entry is as good, otherwise the head placed stably, replacing the last entry when the list is full |
| `Ranking.ShortListWithin` | jinete/algorithms/heuristics/insertion/iterators/ranking.py:78-92 | after any number of sub-rankings the short-list is sorted, within `randomized_size`, and empty when that is 0 or less |
| `Ranking.ShortListPops` | jinete/algorithms/heuristics/insertion/iterators/ranking.py:78-92 | the scan pops from an empty list exactly when `randomized_size` is 0 or less and some visited sub-ranking is not empty |
| `Ranking.PopFromEmptyPersists` | jinete/algorithms/heuristics/insertion/iterators/ranking.py:87-88 | once the scan has popped from an empty list, the error stands whatever sub-rankings follow |
| `Ranking.HeadsMember` | jinete/algorithms/heuristics/insertion/iterators/ranking.py:79-81 | a route is among the visited heads exactly when it leads the non-empty sub-ranking of one of the visited vehicles |
| `Ranking.HeadsNone` | jinete/algorithms/heuristics/insertion/iterators/ranking.py:80-81 | while every visited sub-ranking is empty no head has been visited |
| `Ranking.TurnHeads` | jinete/algorithms/heuristics/insertion/iterators/ranking.py:83-92 | one sub-ranking's turn over a list drawn from some heads gives a list drawn from those heads and that sub-ranking's head |
| `Ranking.TurnKeepsBest` | jinete/algorithms/heuristics/insertion/iterators/ranking.py:83-92 | one sub-ranking's turn over a list led by an entry no worse than some heads gives a list led by an entry no worse than those heads and that sub-ranking's head |
| `Ranking.ShortListHeads` | jinete/algorithms/heuristics/insertion/iterators/ranking.py:78-92 | every short-list entry is the head of a visited sub-ranking |
| `Ranking.ShortListEmpty` | jinete/algorithms/heuristics/insertion/iterators/ranking.py:78-92 | a built short-list is empty exactly when every visited sub-ranking is empty |
| `Ranking.ShortListKeepsBest` | jinete/algorithms/heuristics/insertion/iterators/ranking.py:78-92 | the front entry scores no worse than the head of every visited sub-ranking |
| `Ranking.BestHeadFirst` | jinete/algorithms/heuristics/insertion/iterators/ranking.py:79-92 | three vehicles with one route each, scoring a < b < c, visited best first: the short-list is [a] |
| `Ranking.WorstHeadFirst` | jinete/algorithms/heuristics/insertion/iterators/ranking.py:79-92 | the same vehicles visited worst first: the short-list is [a, b, c] |
| `Ranking.ShortListDependsOnKeyOrder` | jinete/algorithms/heuristics/insertion/iterators/ranking.py:79-92 | three vehicles with one route each, scoring a < b < c: visited in order 1, 2, 3 the short-list is [a]; in order 3, 2, 1 it is [a, b, c] |
| `Ranking.RankingInsertionIterator.HeadsAreHeads` | jinete/algorithms/heuristics/insertion/iterators/ranking.py:79-81 | the heads the scan visits in key order are exactly the heads of the ranking's sub-rankings, and some visited sub-ranking is non-empty exactly when some sub-ranking is |
| `Ranking.RankingInsertionIterator.ShortListMeaning` | jinete/algorithms/heuristics/insertion/iterators/ranking.py:78-92 | the short-list over the whole ranking, in the ranking's terms: the pop-from-empty error exactly when `randomized_size` is 0 or less and some sub-ranking is not empty; otherwise sorted, within the bound, made of heads, led by a head no worse than any head, and empty exactly when every sub-ranking is |
| `Ranking.RankingInsertionIterator.ScanSubRanking` | jinete/algorithms/heuristics/insertion/iterators/ranking.py:83-92 | the inner loop over one sub-ranking followed by the re-sort gives the short-list `Admit` describes for that sub-ranking's head |
| `Ranking.RankingInsertionIterator.BuildShortList` | jinete/algorithms/heuristics/insertion/iterators/ranking.py:78-92 | the short-list is the fold `ShortListOf` of the sub-rankings in key order; with `randomized_size` at least 1 it never exceeds it; it is sorted; it is empty exactly when every sub-ranking is; each entry is the head of some sub-ranking and the front one is no worse than any head; a `randomized_size` of 0 or less fails with the pop-from-empty error exactly when some sub-ranking is non-empty |
| `Ranking.RankingInsertionIterator.Next` | jinete/algorithms/heuristics/insertion/iterators/ranking.py:74-98 | stops exactly when no vehicle is ranked or every sub-ranking is empty; otherwise returns the oracle's entry of the short-list `ShortListOf` gives, which is non-empty, sorted, within the bound, made of sub-ranking heads and led by one no worse than any head |
| `Strategies.Compute` | jinete/algorithms/heuristics/insertion/strategies/intensive.py:30-40 | a call with several trips is passed to the base strategy unchanged; for one trip the result is `compute_one` of every pair the loops visit, in visiting order, and there are n(n-1)/2 of them for n stops |
| `Strategies.PairsLength` | jinete/algorithms/heuristics/insertion/strategies/intensive.py:36-37 | n stops give n(n-1)/2 pairs, and none when n < 2 |
| `Strategies.PairsMember` | jinete/algorithms/heuristics/insertion/strategies/intensive.py:36-37 | a pair (i, j) is visited exactly when 0 <= i < j < n |
| `Strategies.PairsOrdered` | jinete/algorithms/heuristics/insertion/strategies/intensive.py:36-37 | pairs come in strictly increasing lexicographic order, i outer and j inner, so each pair is visited once |
| `Strategies.CandidateAt` | jinete/algorithms/heuristics/insertion/strategies/intensive.py:38-39 | the k-th candidate is `compute_one` on the k-th pair, whose indices satisfy i < j < n; nothing is filtered out |

## Left out

- `get_planned_trip` belongs to the crosser variants, whose code is not part of this model. `Crossers.Crosser.Next` takes its proposal as an argument.
- Route internals: stops, times, loads and feasibility. A route is a value with a vehicle, a trip set, a stop count and an abstract key; `compute_one` decides the key of each route it conjectures. Route's own constructor, which builds a vehicle's initial stops, is not part of this model, so the crosser and iterator constructors take each vehicle's initial stop count as a parameter (`initialStops`), and `NewRoute` gives a fresh route no trips and that many stops. Python's in-place mutation and aliasing of route objects is not modelled.
- `compute_one`, the base `InsertionStrategy.compute`, the criterion's objective, distance and duration: these are function parameters (the objective is reduced to an integer score).
- `InsertionIterator`, the base class, is not part of this model. Its `attractive_routes` and `routes_container` are parameters of the methods that read them.
- `Random(seed)`: the Mersenne Twister, the default seed 56 and reproducibility from a seed are not modelled. The choice is an index oracle passed to `Next`.
- The defaults `neighborhood_max_size = 250` and `randomized_size = 3` are default parameter values of the iterator's constructor. In the model the crosser's arguments come first, because Dafny puts defaulted parameters last.
- The iteration order of a Python set is modelled as the job's trip order with done trips skipped. The constructors take the job as a sequence without repetitions.
- `Ranking.RankingInsertionIterator.constructor`: `neighborhood_max_size` is a natural number or none. A negative value, for which `islice` raises `ValueError`, is not modelled.
- `Ranking.RankingInsertionIterator.UpdateRanking`: requires the attractive routes to belong to distinct vehicles, as the crosser's one-route-per-vehicle set gives. It also requires every vehicle that needs a rebuild to be in `routes_container`: the `KeyError` a missing vehicle would raise is not modelled.
- `Ranking.RankingInsertionIterator.MarkPlannedTripAsDone`: carries the same two requirements as `UpdateRanking`, for the same reasons.
- `any(...)` over vehicles, sub-rankings and candidates is modelled as non-emptiness, on the assumption that vehicles and routes are truthy objects. `vehicle is planned_trip.vehicle` is modelled as equality of vehicle identifiers.
- Logging calls.
- `jinete/models/services.py`, `jinete/algorithms/__init__.py` and the planning tests: a float record, re-exports, and checks of Python object identity.
- The Naive, Insertion, Local Search, GRASP and Iterative algorithms are not part of this model.
