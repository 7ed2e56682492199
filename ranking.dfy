/** The ranking insertion iterator: a crosser that keeps, for every attractive
    vehicle, its candidate routes sorted by the criterion (its sub-ranking),
    rebuilds the sub-ranking of the vehicle that received a committed trip and
    purges the other vehicles' sub-rankings of that trip. */
module Ranking {
  import opened Models
  import opened Criterion
  import Crossers

  /** The configured strategy's `compute` over a sequence of pending trips. */
  type Strategy = (Route, seq<TripId>) -> seq<Route>

  /** What `__next__` ends with. */
  datatype Step =
    | Exhausted          // StopIteration
    | Chosen(route: Route)
    | IndexError         // `pop` from an empty short-list

  /** The short-list built by `__next__` before the random choice. */
  datatype ShortList = Built(candidates: seq<Route>) | PopFromEmpty

  /** `neighborhood_max_size` as the constructor stores it. */
  function NeighborhoodSize(given: Option<nat>, tripCount: nat): (r: nat)
    ensures r <= tripCount
    ensures given.None? ==> r == tripCount
    ensures given.Some? ==> r <= given.value && (r == given.value || r == tripCount)
  {
    match given
    case None => tripCount
    case Some(size) => Min(size, tripCount)
  }

  /** `islice(pending_trips, size)`: the first `size` pending trips in the
      order the pending set iterates in. */
  function Neighborhood(pendingOrder: seq<TripId>, size: nat): (r: seq<TripId>)
  {
    pendingOrder[..Min(size, |pendingOrder|)]
  }

  /** The list comprehension that keeps the routes not serving `trip`. */
  function Purge(sub: seq<Route>, trip: TripId): (r: seq<Route>)
    ensures forall e :: e in r <==> e in sub && trip !in e.trips
    ensures |r| <= |sub|
  {
    if sub == [] then []
    else if trip in sub[0].trips then Purge(sub[1..], trip)
    else [sub[0]] + Purge(sub[1..], trip)
  }

  /** `a` is `b` with some elements left out, the rest in their order. */
  predicate IsSubsequence(a: seq<Route>, b: seq<Route>)
  {
    if a == [] then true
    else if b == [] then false
    else if a[0] == b[0] then IsSubsequence(a[1..], b[1..])
    else IsSubsequence(a, b[1..])
  }

  /** Purging keeps the order of the routes it keeps. */
  lemma {:induction false} PurgeIsSubsequence(sub: seq<Route>, trip: TripId)
    ensures IsSubsequence(Purge(sub, trip), sub)
  {
    if sub != [] {
      PurgeIsSubsequence(sub[1..], trip);
      if trip in sub[0].trips {
        SubsequenceOfTail(Purge(sub[1..], trip), sub);
      }
    }
  }

  lemma {:induction false} SubsequenceOfTail(a: seq<Route>, b: seq<Route>)
    requires b != [] && IsSubsequence(a, b[1..])
    ensures IsSubsequence(a, b)
  {
    if a != [] && a[0] == b[0] {
      SubsequenceDropHead(a, b[1..]);
    }
  }

  lemma {:induction false} SubsequenceDropHead(a: seq<Route>, b: seq<Route>)
    requires a != [] && IsSubsequence(a, b)
    ensures IsSubsequence(a[1..], b)
  {
    assert b != [];
    if a[0] == b[0] {
      if a[1..] != [] {
        SubsequenceOfTail(a[1..], b);
      }
    } else {
      SubsequenceDropHead(a, b[1..]);
      if a[1..] != [] {
        SubsequenceOfTail(a[1..], b);
      }
    }
  }

  /** A sorted sub-ranking stays sorted when purged. */
  lemma {:induction false} PurgeKeepsSorted(score: Scoring, sub: seq<Route>, trip: TripId)
    requires SortedBy(score, sub)
    ensures SortedBy(score, Purge(sub, trip))
  {
    if sub != [] {
      PurgeKeepsSorted(score, sub[1..], trip);
      var rest := Purge(sub[1..], trip);
      if trip !in sub[0].trips {
        forall j | 0 <= j < |rest| ensures score(sub[0]) <= score(rest[j]) {
          assert rest[j] in rest;
          var k :| 0 <= k < |sub[1..]| && sub[1..][k] == rest[j];
          assert sub[k + 1] == rest[j];
        }
        assert SortedBy(score, [sub[0]] + rest);
      }
    }
  }

  /** Purging again changes nothing. */
  lemma {:induction false} PurgeIdempotent(sub: seq<Route>, trip: TripId)
    ensures Purge(Purge(sub, trip), trip) == Purge(sub, trip)
  {
    if sub != [] {
      PurgeIdempotent(sub[1..], trip);
      if trip !in sub[0].trips {
        assert ([sub[0]] + Purge(sub[1..], trip))[1..] == Purge(sub[1..], trip);
      }
    }
  }

  /** The vehicles of the first `i` routes. */
  function Touched(routes: seq<Route>, i: nat): (r: set<VehicleId>)
    requires i <= |routes|
  {
    set k | 0 <= k < i :: routes[k].vehicle
  }

  lemma TouchedStep(routes: seq<Route>, i: nat)
    requires i < |routes|
    ensures Touched(routes, i + 1) == Touched(routes, i) + {routes[i].vehicle}
  {
  }

  /** The last of the first `i` routes that belongs to `v`. */
  function LastRouteOf(routes: seq<Route>, i: nat, v: VehicleId): (r: Route)
    requires i <= |routes| && v in Touched(routes, i)
    ensures r.vehicle == v && r in routes[..i]
  {
    TouchedStep(routes, i - 1);
    if routes[i - 1].vehicle == v then routes[i - 1] else LastRouteOf(routes, i - 1, v)
  }

  predicate DistinctVehicles(routes: seq<Route>)
  {
    forall i, j :: 0 <= i < j < |routes| ==> routes[i].vehicle != routes[j].vehicle
  }

  /** The key order of the ranking after the first `i` attractive routes
      were ranked into a dictionary whose keys were `keys`: a vehicle not yet
      a key goes last, a key keeps its place. */
  function KeyOrder(keys: seq<VehicleId>, routes: seq<Route>, i: nat): (r: seq<VehicleId>)
    requires i <= |routes|
  {
    if i == 0 then keys
    else
      var before := KeyOrder(keys, routes, i - 1);
      if routes[i - 1].vehicle in before then before else before + [routes[i - 1].vehicle]
  }

  /** Ranking more routes keeps the old keys in front, in their order, adds
      exactly the vehicles of the routes, and repeats no key. */
  lemma {:induction false} KeyOrderExtends(keys: seq<VehicleId>, routes: seq<Route>, i: nat)
    requires i <= |routes|
    ensures var r := KeyOrder(keys, routes, i);
            |keys| <= |r| && r[..|keys|] == keys
            && (forall v :: v in r <==> v in keys || v in Touched(routes, i))
            && (Distinct(keys) ==> Distinct(r))
  {
    if i > 0 {
      KeyOrderExtends(keys, routes, i - 1);
      TouchedStep(routes, i - 1);
      var before := KeyOrder(keys, routes, i - 1);
      if routes[i - 1].vehicle !in before {
        assert (before + [routes[i - 1].vehicle])[..|keys|] == before[..|keys|];
      }
    }
  }

  /** When every attractive vehicle is a key already, the key order stays. */
  lemma {:induction false} KeyOrderOfRanked(keys: seq<VehicleId>, routes: seq<Route>, i: nat)
    requires i <= |routes|
    requires forall k :: 0 <= k < i ==> routes[k].vehicle in keys
    ensures KeyOrder(keys, routes, i) == keys
  {
    if i > 0 {
      KeyOrderOfRanked(keys, routes, i - 1);
    }
  }

  /** One sub-ranking's turn in `__next__`'s scan, given its head `h`. The
      scan stops at once when the short-list's last entry is at least as good
      as `h`, and re-sorting the sorted list leaves it as it is. Otherwise
      `h` goes in, replacing the last entry when the list is full (popping
      from an empty list when there is no room at all), and the next route of
      the sorted sub-ranking is never better than `h`, so the scan stops
      there; re-sorting then puts `h` in its stable place. */
  function Admit(score: Scoring, size: int, candidates: seq<Route>, h: Route): (r: ShortList)
  {
    if candidates != [] && Best(score, candidates[|candidates| - 1], h) == candidates[|candidates| - 1] then
      Built(candidates)
    else if size <= |candidates| then
      if candidates == [] then PopFromEmpty
      else Built(Place(score, h, candidates[..|candidates| - 1]))
    else
      Built(Place(score, h, candidates))
  }

  /** The list the scan of one sub-ranking leaves, re-sorted, is what
      `Admit` gives: a sorted list is left as it is, and an appended head
      lands in its stable place. */
  lemma AdmitResorts(score: Scoring, size: int, candidates: seq<Route>, h: Route, list: seq<Route>)
    requires SortedBy(score, candidates)
    requires var c := candidates;
             if c != [] && Best(score, c[|c| - 1], h) == c[|c| - 1] then list == c
             else 1 <= size && list == (if size <= |c| && c != [] then c[..|c| - 1] else c) + [h]
    ensures Admit(score, size, candidates, h) == Built(Sort(score, list))
  {
    var c := candidates;
    if c != [] && Best(score, c[|c| - 1], h) == c[|c| - 1] {
      SortKeepsSorted(score, c);
    } else if size <= |c| && c != [] {
      var kept := c[..|c| - 1];
      assert SortedBy(score, kept);
      SortPlaces(score, kept, h);
    } else {
      SortPlaces(score, c, h);
    }
  }

  /** One sub-ranking's turn of the scan: a pop-from-empty error stands, an
      empty sub-ranking is skipped, and otherwise its head is admitted. */
  function Turn(score: Scoring, size: int, prior: ShortList, sub: seq<Route>): (r: ShortList)
  {
    match prior
    case PopFromEmpty => PopFromEmpty
    case Built(candidates) => if sub == [] then Built(candidates) else Admit(score, size, candidates, sub[0])
  }

  /** The short-list after the scan has visited the sub-rankings of the
      first `i` vehicles in key order; an empty sub-ranking is skipped. */
  function ShortListOf(score: Scoring, size: int, ranking: map<VehicleId, seq<Route>>, vehicles: seq<VehicleId>, i: nat): (r: ShortList)
    requires i <= |vehicles| && forall k :: 0 <= k < |vehicles| ==> vehicles[k] in ranking
  {
    if i == 0 then Built([])
    else Turn(score, size, ShortListOf(score, size, ranking, vehicles, i - 1), ranking[vehicles[i - 1]])
  }

  /** One turn of the scan keeps the short-list sorted and within `size`,
      adds nothing but the head, and leaves in front an entry no worse than
      the head and than the old front entry. It pops from an empty list
      exactly when `size` is 0 or less. */
  lemma AdmitProperties(score: Scoring, size: int, candidates: seq<Route>, h: Route)
    requires SortedBy(score, candidates)
    requires 1 <= size ==> |candidates| <= size
    requires size <= 0 ==> candidates == []
    ensures var s := Admit(score, size, candidates, h);
            (s.PopFromEmpty? <==> size <= 0)
            && (s.Built? ==>
                  SortedBy(score, s.candidates)
                  && |s.candidates| <= size
                  && s.candidates != []
                  && (forall x :: x in s.candidates ==> x in candidates || x == h)
                  && score(s.candidates[0]) <= score(h)
                  && (candidates != [] ==> score(s.candidates[0]) <= score(candidates[0])))
  {
    var c := candidates;
    if c != [] {
      assert score(c[0]) <= score(c[|c| - 1]);
    }
    if c != [] && Best(score, c[|c| - 1], h) == c[|c| - 1] {
    } else if size <= |c| {
      if c != [] {
        var kept := c[..|c| - 1];
        assert SortedBy(score, kept);
        PlaceKeepsSorted(score, h, kept);
        PlaceCounts(score, h, kept);
        if kept != [] {
          assert kept[0] == c[0];
        }
        forall x | x in Place(score, h, kept) ensures x in c || x == h {
          if x != h {
            var j :| 0 <= j < |kept| && kept[j] == x;
            assert c[j] == x;
          }
        }
      }
    } else {
      PlaceKeepsSorted(score, h, c);
      PlaceCounts(score, h, c);
    }
  }

  /** Once the scan has popped from an empty list it stays failed. */
  lemma {:induction false} PopFromEmptyPersists(score: Scoring, size: int, ranking: map<VehicleId, seq<Route>>,
                                                vehicles: seq<VehicleId>, i: nat, j: nat)
    requires i <= j <= |vehicles| && forall k :: 0 <= k < |vehicles| ==> vehicles[k] in ranking
    requires ShortListOf(score, size, ranking, vehicles, i) == PopFromEmpty
    ensures ShortListOf(score, size, ranking, vehicles, j) == PopFromEmpty
  {
    if i < j {
      PopFromEmptyPersists(score, size, ranking, vehicles, i, j - 1);
      // The recursive call leaves only this case, whose scan stops at once.
      match ShortListOf(score, size, ranking, vehicles, j - 1)
      case PopFromEmpty =>
    }
  }

  /** The short-list is sorted and stays within `size` when `size` is at
      least 1; with `size` 0 or less it is empty whenever it was built. */
  lemma {:induction false} ShortListWithin(score: Scoring, size: int, ranking: map<VehicleId, seq<Route>>,
                                           vehicles: seq<VehicleId>, i: nat)
    requires i <= |vehicles| && forall k :: 0 <= k < |vehicles| ==> vehicles[k] in ranking
    ensures var s := ShortListOf(score, size, ranking, vehicles, i);
            s.Built? ==> SortedBy(score, s.candidates)
                         && (1 <= size ==> |s.candidates| <= size)
                         && (size <= 0 ==> s.candidates == [])
  {
    if i > 0 {
      ShortListWithin(score, size, ranking, vehicles, i - 1);
      var prior := ShortListOf(score, size, ranking, vehicles, i - 1);
      var sub := ranking[vehicles[i - 1]];
      if prior.Built? && sub != [] {
        AdmitProperties(score, size, prior.candidates, sub[0]);
      }
    }
  }

  /** The pop-from-empty error happens exactly when `size` is 0 or less and
      some visited sub-ranking is not empty. */
  lemma {:induction false} ShortListPops(score: Scoring, size: int, ranking: map<VehicleId, seq<Route>>,
                                         vehicles: seq<VehicleId>, i: nat)
    requires i <= |vehicles| && forall k :: 0 <= k < |vehicles| ==> vehicles[k] in ranking
    ensures ShortListOf(score, size, ranking, vehicles, i).PopFromEmpty? <==>
              (size <= 0 && exists k :: 0 <= k < i && ranking[vehicles[k]] != [])
  {
    if i > 0 {
      ShortListPops(score, size, ranking, vehicles, i - 1);
      ShortListWithin(score, size, ranking, vehicles, i - 1);
      var prior := ShortListOf(score, size, ranking, vehicles, i - 1);
      var sub := ranking[vehicles[i - 1]];
      if prior.PopFromEmpty? {
        var k :| 0 <= k < i - 1 && ranking[vehicles[k]] != [];
        assert 0 <= k < i && ranking[vehicles[k]] != [];
      } else if sub == [] {
        forall k | 0 <= k < i && ranking[vehicles[k]] != [] ensures k < i - 1 {
        }
      } else {
        AdmitProperties(score, size, prior.candidates, sub[0]);
        assert 0 <= i - 1 < i && ranking[vehicles[i - 1]] != [];
      }
    }
  }

  /** The heads of the sub-rankings of the first `i` vehicles in key order. */
  function Heads(ranking: map<VehicleId, seq<Route>>, vehicles: seq<VehicleId>, i: nat): (r: set<Route>)
    requires i <= |vehicles| && forall k :: 0 <= k < |vehicles| ==> vehicles[k] in ranking
  {
    if i == 0 then {}
    else
      var sub := ranking[vehicles[i - 1]];
      Heads(ranking, vehicles, i - 1) + (if sub == [] then {} else {sub[0]})
  }

  /** A route is one of the heads exactly when it leads the non-empty
      sub-ranking of one of the first `i` vehicles. */
  lemma {:induction false} HeadsMember(ranking: map<VehicleId, seq<Route>>, vehicles: seq<VehicleId>, i: nat, c: Route)
    requires i <= |vehicles| && forall k :: 0 <= k < |vehicles| ==> vehicles[k] in ranking
    ensures c in Heads(ranking, vehicles, i) <==>
            exists k :: 0 <= k < i && ranking[vehicles[k]] != [] && c == ranking[vehicles[k]][0]
  {
    if i > 0 {
      HeadsMember(ranking, vehicles, i - 1, c);
      var sub := ranking[vehicles[i - 1]];
      if sub != [] && c == sub[0] {
        assert 0 <= i - 1 < i && ranking[vehicles[i - 1]] != [] && c == ranking[vehicles[i - 1]][0];
      }
      if exists k :: 0 <= k < i && ranking[vehicles[k]] != [] && c == ranking[vehicles[k]][0] {
        var k :| 0 <= k < i && ranking[vehicles[k]] != [] && c == ranking[vehicles[k]][0];
        if k < i - 1 {
          assert 0 <= k < i - 1 && ranking[vehicles[k]] != [] && c == ranking[vehicles[k]][0];
        }
      }
    }
  }

  /** A turn over a list drawn from `heads` gives a list drawn from `heads`
      and the sub-ranking's head. */
  lemma TurnHeads(score: Scoring, size: int, prior: ShortList, sub: seq<Route>, heads: set<Route>)
    requires prior.Built? ==> SortedBy(score, prior.candidates)
    requires prior.Built? && 1 <= size ==> |prior.candidates| <= size
    requires prior.Built? && size <= 0 ==> prior.candidates == []
    requires prior.Built? ==> forall c :: c in prior.candidates ==> c in heads
    ensures var s := Turn(score, size, prior, sub);
            s.Built? ==> forall c :: c in s.candidates ==> c in heads + (if sub == [] then {} else {sub[0]})
  {
    if prior.Built? && sub != [] {
      AdmitProperties(score, size, prior.candidates, sub[0]);
    }
  }

  /** A turn over a list led by an entry no worse than any of `heads` (and
      empty only when `heads` is) gives a list led by an entry no worse than
      any of `heads` and the sub-ranking's head. */
  lemma TurnKeepsBest(score: Scoring, size: int, prior: ShortList, sub: seq<Route>, heads: set<Route>)
    requires prior.Built? ==> SortedBy(score, prior.candidates)
    requires prior.Built? && 1 <= size ==> |prior.candidates| <= size
    requires prior.Built? && size <= 0 ==> prior.candidates == []
    requires prior.Built? && prior.candidates == [] ==> heads == {}
    requires prior.Built? && prior.candidates != [] ==> forall x :: x in heads ==> score(prior.candidates[0]) <= score(x)
    ensures var s := Turn(score, size, prior, sub);
            var h := heads + (if sub == [] then {} else {sub[0]});
            s.Built? && s.candidates != [] ==> forall x :: x in h ==> score(s.candidates[0]) <= score(x)
  {
    if prior.Built? && sub != [] {
      AdmitProperties(score, size, prior.candidates, sub[0]);
    }
  }

  /** A built short-list holds heads of visited sub-rankings only. */
  lemma {:induction false} ShortListHeads(score: Scoring, size: int, ranking: map<VehicleId, seq<Route>>,
                                          vehicles: seq<VehicleId>, i: nat)
    requires i <= |vehicles| && forall k :: 0 <= k < |vehicles| ==> vehicles[k] in ranking
    ensures var s := ShortListOf(score, size, ranking, vehicles, i);
            s.Built? ==> forall c :: c in s.candidates ==> c in Heads(ranking, vehicles, i)
  {
    if i > 0 {
      ShortListHeads(score, size, ranking, vehicles, i - 1);
      ShortListWithin(score, size, ranking, vehicles, i - 1);
      var prior := ShortListOf(score, size, ranking, vehicles, i - 1);
      var sub := ranking[vehicles[i - 1]];
      var heads := Heads(ranking, vehicles, i - 1);
      TurnHeads(score, size, prior, sub, heads);
      assert ShortListOf(score, size, ranking, vehicles, i) == Turn(score, size, prior, sub);
      assert Heads(ranking, vehicles, i) == heads + (if sub == [] then {} else {sub[0]});
    }
  }

  /** A built short-list is empty exactly when every visited sub-ranking is. */
  lemma {:induction false} ShortListEmpty(score: Scoring, size: int, ranking: map<VehicleId, seq<Route>>,
                                          vehicles: seq<VehicleId>, i: nat)
    requires i <= |vehicles| && forall k :: 0 <= k < |vehicles| ==> vehicles[k] in ranking
    ensures var s := ShortListOf(score, size, ranking, vehicles, i);
            s.Built? ==> (s.candidates == [] <==> forall k :: 0 <= k < i ==> ranking[vehicles[k]] == [])
  {
    if i > 0 {
      ShortListEmpty(score, size, ranking, vehicles, i - 1);
      ShortListWithin(score, size, ranking, vehicles, i - 1);
      var prior := ShortListOf(score, size, ranking, vehicles, i - 1);
      var sub := ranking[vehicles[i - 1]];
      if prior.Built? && sub != [] {
        AdmitProperties(score, size, prior.candidates, sub[0]);
      }
    }
  }

  /** No head is visited while every visited sub-ranking is empty. */
  lemma {:induction false} HeadsNone(ranking: map<VehicleId, seq<Route>>, vehicles: seq<VehicleId>, i: nat)
    requires i <= |vehicles| && forall k :: 0 <= k < |vehicles| ==> vehicles[k] in ranking
    requires forall k :: 0 <= k < i ==> ranking[vehicles[k]] == []
    ensures Heads(ranking, vehicles, i) == {}
  {
    if i > 0 {
      HeadsNone(ranking, vehicles, i - 1);
    }
  }

  /** The front of a built short-list scores no worse than the head of any
      visited sub-ranking: the best head is never dropped. */
  lemma {:induction false} ShortListKeepsBest(score: Scoring, size: int, ranking: map<VehicleId, seq<Route>>,
                                              vehicles: seq<VehicleId>, i: nat)
    requires i <= |vehicles| && forall k :: 0 <= k < |vehicles| ==> vehicles[k] in ranking
    ensures var s := ShortListOf(score, size, ranking, vehicles, i);
            s.Built? && s.candidates != [] ==>
              forall x :: x in Heads(ranking, vehicles, i) ==> score(s.candidates[0]) <= score(x)
  {
    if i > 0 {
      ShortListKeepsBest(score, size, ranking, vehicles, i - 1);
      ShortListWithin(score, size, ranking, vehicles, i - 1);
      ShortListEmpty(score, size, ranking, vehicles, i - 1);
      var prior := ShortListOf(score, size, ranking, vehicles, i - 1);
      var sub := ranking[vehicles[i - 1]];
      if prior.Built? && prior.candidates == [] {
        HeadsNone(ranking, vehicles, i - 1);
      }
      TurnKeepsBest(score, size, prior, sub, Heads(ranking, vehicles, i - 1));
    }
  }

  /** The scan depends on the key order. With three vehicles whose heads `a`,
      `b`, `c` score increasingly and room for three, visiting the best head
      first shuts the others out, while visiting the worst first admits all
      three. */
  lemma ShortListDependsOnKeyOrder(score: Scoring, a: Route, b: Route, c: Route)
    requires score(a) < score(b) < score(c)
    ensures ShortListOf(score, 3, map[1 := [a], 2 := [b], 3 := [c]], [1, 2, 3], 3) == Built([a])
    ensures ShortListOf(score, 3, map[1 := [a], 2 := [b], 3 := [c]], [3, 2, 1], 3) == Built([a, b, c])
  {
    BestHeadFirst(score, a, b, c);
    WorstHeadFirst(score, a, b, c);
  }

  /** Best head first: `a` goes in, and neither `b` nor `c` beats it. */
  lemma BestHeadFirst(score: Scoring, a: Route, b: Route, c: Route)
    requires score(a) < score(b) < score(c)
    ensures ShortListOf(score, 3, map[1 := [a], 2 := [b], 3 := [c]], [1, 2, 3], 3) == Built([a])
  {
    var ranking, up := map[1 := [a], 2 := [b], 3 := [c]], [1, 2, 3];
    assert ranking[up[0]] == [a] && ranking[up[1]] == [b] && ranking[up[2]] == [c];
    assert ShortListOf(score, 3, ranking, up, 1) == Built([a]);
    assert ShortListOf(score, 3, ranking, up, 2) == Built([a]);
  }

  /** Worst head first: every later head beats the last entry, and there is
      room for it. */
  lemma WorstHeadFirst(score: Scoring, a: Route, b: Route, c: Route)
    requires score(a) < score(b) < score(c)
    ensures ShortListOf(score, 3, map[1 := [a], 2 := [b], 3 := [c]], [3, 2, 1], 3) == Built([a, b, c])
  {
    var ranking, down := map[1 := [a], 2 := [b], 3 := [c]], [3, 2, 1];
    assert ranking[down[0]] == [c] && ranking[down[1]] == [b] && ranking[down[2]] == [a];
    assert ShortListOf(score, 3, ranking, down, 1) == Built([c]);
    assert Place(score, b, [c]) == [b, c];
    assert ShortListOf(score, 3, ranking, down, 2) == Built([b, c]);
    assert Place(score, a, [b, c]) == [a, b, c];
  }

  class RankingInsertionIterator {
    const crosser: Crossers.Crosser
    const neighborhoodMaxSize: nat
    const randomizedSize: int
    const strategy: Strategy
    const scoring: Scoring
    /** The sub-ranking of each vehicle. */
    var ranking: map<VehicleId, seq<Route>>
    /** The vehicles of `ranking` in the order they were first added, which
        is the order a Python dictionary iterates in. */
    var vehicles: seq<VehicleId>

    ghost predicate Valid()
      reads this
    {
      crosser.Valid() &&
      Distinct(vehicles) &&
      (forall k :: 0 <= k < |vehicles| ==> vehicles[k] in ranking) &&
      (forall v :: v in ranking ==> v in vehicles) &&
      (forall v :: v in ranking ==> SortedBy(scoring, ranking[v]))
    }

    /** The sub-ranking `create_sub_ranking(route)` computes while the
        pending trips iterate as `pendingOrder`: the strategy's candidates
        for the first `neighborhoodMaxSize` of them, sorted by the criterion. */
    function SubRanking(route: Route, pendingOrder: seq<TripId>): (r: seq<Route>)
    {
      Sort(scoring, strategy(route, Neighborhood(pendingOrder, neighborhoodMaxSize)))
    }

    /** What the commit of `plannedTrip` makes of the sub-ranking `sub` of
        vehicle `v`, when the vehicles in `touched` are the attractive ones:
        a rebuild for the receiving vehicle and for one not ranked before, a
        purge for the other attractive ones, nothing for the rest. */
    ghost predicate Refreshed(before: map<VehicleId, seq<Route>>, touched: set<VehicleId>, plannedTrip: PlannedTrip,
                              container: map<VehicleId, Route>, pendingOrder: seq<TripId>, v: VehicleId, sub: seq<Route>)
    {
      if v in touched && (v == plannedTrip.vehicle || v !in before) then
        v in container && sub == SubRanking(container[v], pendingOrder)
      else if v in touched then
        sub == Purge(before[v], plannedTrip.trip)
      else
        v in before && sub == before[v]
    }

    /** The sub-ranking `sub` of `v` after the first `i` attractive routes
        were ranked: that of the last of those routes of `v`, or the one
        before. */
    ghost predicate Initialized(before: map<VehicleId, seq<Route>>, attractive: seq<Route>, i: nat,
                                pendingOrder: seq<TripId>, v: VehicleId, sub: seq<Route>)
      requires i <= |attractive|
    {
      if v in Touched(attractive, i) then
        sub == SubRanking(LastRouteOf(attractive, i, v), pendingOrder)
      else
        v in before && sub == before[v]
    }

    /** `RankingInsertionIterator.__init__` over a fresh crosser of `fleet`
        and `job` (the job's trips in iteration order); `attractive` stands
        for the base iterator's attractive routes. */
    constructor (fleet: set<VehicleId>, job: seq<TripId>, initialStops: VehicleId -> nat,
                 strategy: Strategy, scoring: Scoring, attractive: seq<Route>,
                 neighborhoodMaxSize: Option<nat> := Some(250), randomizedSize: int := 3)
      requires Distinct(job)
      ensures fresh(crosser) && crosser.tripOrder == job && crosser.doneTrips == {}
      ensures crosser.FleetRoutes(fleet, initialStops)
      ensures this.neighborhoodMaxSize == NeighborhoodSize(neighborhoodMaxSize, |job|)
      ensures this.randomizedSize == randomizedSize && this.strategy == strategy && this.scoring == scoring
      ensures Valid()
      ensures forall v :: v in ranking <==> v in Touched(attractive, |attractive|)
      ensures forall v :: v in ranking ==> Initialized(map[], attractive, |attractive|, job, v, ranking[v])
      ensures vehicles == KeyOrder([], attractive, |attractive|)
    {
      crosser := new Crossers.Crosser(fleet, job, initialStops);
      this.neighborhoodMaxSize := NeighborhoodSize(neighborhoodMaxSize, |job|);
      this.randomizedSize := randomizedSize;
      this.strategy := strategy;
      this.scoring := scoring;
      ranking := map[];
      vehicles := [];
      new;
      InitializeRanking(attractive);
    }

    /** Gives every attractive route's vehicle the sub-ranking of that route. */
    method InitializeRanking(attractive: seq<Route>)
      requires Valid()
      modifies this
      ensures Valid()
      ensures forall v :: v in ranking <==> v in old(ranking) || v in Touched(attractive, |attractive|)
      ensures forall v :: v in ranking ==>
                Initialized(old(ranking), attractive, |attractive|, crosser.PendingOrder(), v, ranking[v])
      ensures vehicles == KeyOrder(old(vehicles), attractive, |attractive|)
    {
      ghost var pendingOrder := crosser.PendingOrder();
      ghost var ranking0, vehicles0 := ranking, vehicles;
      var i := 0;
      while i < |attractive|
        invariant 0 <= i <= |attractive|
        invariant Valid() && pendingOrder == crosser.PendingOrder()
        invariant forall v :: v in ranking <==> v in ranking0 || v in Touched(attractive, i)
        invariant forall v :: v in ranking ==> Initialized(ranking0, attractive, i, pendingOrder, v, ranking[v])
        invariant vehicles == KeyOrder(vehicles0, attractive, i)
      {
        InitializeRankingStep(attractive, i, ranking0, vehicles0, pendingOrder);
        i := i + 1;
      }
    }

    /** One turn of `initialize_ranking`'s loop: the `i`-th attractive route's
        vehicle gets that route's sub-ranking, and what the loop keeps holds
        one route further. */
    method InitializeRankingStep(attractive: seq<Route>, i: nat, ghost ranking0: map<VehicleId, seq<Route>>,
                                 ghost vehicles0: seq<VehicleId>, ghost pendingOrder: seq<TripId>)
      requires i < |attractive|
      requires Valid() && pendingOrder == crosser.PendingOrder()
      requires forall v :: v in ranking <==> v in ranking0 || v in Touched(attractive, i)
      requires forall v :: v in ranking ==> Initialized(ranking0, attractive, i, pendingOrder, v, ranking[v])
      requires vehicles == KeyOrder(vehicles0, attractive, i)
      modifies this
      ensures Valid() && pendingOrder == crosser.PendingOrder()
      ensures forall v :: v in ranking <==> v in ranking0 || v in Touched(attractive, i + 1)
      ensures forall v :: v in ranking ==> Initialized(ranking0, attractive, i + 1, pendingOrder, v, ranking[v])
      ensures vehicles == KeyOrder(vehicles0, attractive, i + 1)
    {
      var route := attractive[i];
      var sub := CreateSubRanking(route);
      ghost var prev := ranking;
      assert route.vehicle in prev <==> route.vehicle in vehicles;
      SetSubRanking(route.vehicle, sub);
      InitializedStep(attractive, i, ranking0, pendingOrder, prev, ranking);
    }

    /** The sub-rankings after ranking the `i`-th attractive route, `next`,
        are initialised one route further than those before it, `prev`. */
    lemma InitializedStep(attractive: seq<Route>, i: nat, ranking0: map<VehicleId, seq<Route>>, pendingOrder: seq<TripId>,
                          prev: map<VehicleId, seq<Route>>, next: map<VehicleId, seq<Route>>)
      requires i < |attractive|
      requires forall u :: u in prev <==> u in ranking0 || u in Touched(attractive, i)
      requires forall u :: u in prev ==> Initialized(ranking0, attractive, i, pendingOrder, u, prev[u])
      requires next == prev[attractive[i].vehicle := SubRanking(attractive[i], pendingOrder)]
      ensures forall u :: u in next <==> u in ranking0 || u in Touched(attractive, i + 1)
      ensures forall u :: u in next ==> Initialized(ranking0, attractive, i + 1, pendingOrder, u, next[u])
    {
      var v := attractive[i].vehicle;
      TouchedStep(attractive, i);
      forall u | u in next ensures Initialized(ranking0, attractive, i + 1, pendingOrder, u, next[u]) {
        if u != v {
          assert u in prev && Initialized(ranking0, attractive, i, pendingOrder, u, prev[u]);
        }
      }
    }

    /** Commits `plannedTrip`: the crosser marks its trip done first, then the
        ranking is updated against the pending trips that remain. */
    method MarkPlannedTripAsDone(plannedTrip: PlannedTrip, attractive: seq<Route>, container: map<VehicleId, Route>)
      requires Valid()
      requires DistinctVehicles(attractive)
      requires forall k :: 0 <= k < |attractive| && (attractive[k].vehicle == plannedTrip.vehicle || attractive[k].vehicle !in ranking)
                 ==> attractive[k].vehicle in container
      modifies this, crosser
      ensures crosser.doneTrips == old(crosser.doneTrips) + {plannedTrip.trip}
      ensures Valid()
      ensures plannedTrip.trip !in crosser.PendingOrder()
      ensures forall v :: v in ranking <==> v in old(ranking) || v in Touched(attractive, |attractive|)
      ensures forall v :: v in ranking ==>
                Refreshed(old(ranking), Touched(attractive, |attractive|), plannedTrip, container, crosser.PendingOrder(), v, ranking[v])
      ensures vehicles == KeyOrder(old(vehicles), attractive, |attractive|)
    {
      crosser.MarkPlannedTripAsDone(plannedTrip);
      UpdateRanking(plannedTrip, attractive, container);
    }

    /** Updates the sub-ranking of every attractive route's vehicle. */
    method UpdateRanking(plannedTrip: PlannedTrip, attractive: seq<Route>, container: map<VehicleId, Route>)
      requires Valid()
      requires DistinctVehicles(attractive)
      requires forall k :: 0 <= k < |attractive| && (attractive[k].vehicle == plannedTrip.vehicle || attractive[k].vehicle !in ranking)
                 ==> attractive[k].vehicle in container
      modifies this
      ensures Valid()
      ensures forall v :: v in ranking <==> v in old(ranking) || v in Touched(attractive, |attractive|)
      ensures forall v :: v in ranking ==>
                Refreshed(old(ranking), Touched(attractive, |attractive|), plannedTrip, container, crosser.PendingOrder(), v, ranking[v])
      ensures vehicles == KeyOrder(old(vehicles), attractive, |attractive|)
    {
      ghost var pendingOrder := crosser.PendingOrder();
      ghost var ranking0, vehicles0 := ranking, vehicles;
      var i := 0;
      while i < |attractive|
        invariant 0 <= i <= |attractive|
        invariant Valid() && pendingOrder == crosser.PendingOrder()
        invariant forall v :: v in ranking <==> v in ranking0 || v in Touched(attractive, i)
        invariant forall v :: v in ranking ==>
                   Refreshed(ranking0, Touched(attractive, i), plannedTrip, container, pendingOrder, v, ranking[v])
        invariant vehicles == KeyOrder(vehicles0, attractive, i)
      {
        UpdateRankingStep(plannedTrip, attractive, container, i, ranking0, vehicles0, pendingOrder);
        i := i + 1;
      }
    }

    /** One turn of `update_ranking`'s loop: the `i`-th attractive route's
        vehicle is updated, and what the loop keeps holds one route further. */
    method UpdateRankingStep(plannedTrip: PlannedTrip, attractive: seq<Route>, container: map<VehicleId, Route>, i: nat,
                             ghost ranking0: map<VehicleId, seq<Route>>, ghost vehicles0: seq<VehicleId>,
                             ghost pendingOrder: seq<TripId>)
      requires i < |attractive|
      requires DistinctVehicles(attractive)
      requires forall k :: 0 <= k < |attractive| && (attractive[k].vehicle == plannedTrip.vehicle || attractive[k].vehicle !in ranking0)
                 ==> attractive[k].vehicle in container
      requires Valid() && pendingOrder == crosser.PendingOrder()
      requires forall v :: v in ranking <==> v in ranking0 || v in Touched(attractive, i)
      requires forall v :: v in ranking ==>
                 Refreshed(ranking0, Touched(attractive, i), plannedTrip, container, pendingOrder, v, ranking[v])
      requires vehicles == KeyOrder(vehicles0, attractive, i)
      modifies this
      ensures Valid() && pendingOrder == crosser.PendingOrder()
      ensures forall v :: v in ranking <==> v in ranking0 || v in Touched(attractive, i + 1)
      ensures forall v :: v in ranking ==>
                 Refreshed(ranking0, Touched(attractive, i + 1), plannedTrip, container, pendingOrder, v, ranking[v])
      ensures vehicles == KeyOrder(vehicles0, attractive, i + 1)
    {
      var v := attractive[i].vehicle;
      assert v !in Touched(attractive, i);
      ghost var prev := ranking;
      assert v in prev <==> v in vehicles;
      UpdateVehicleRanking(plannedTrip, v, container);
      RefreshedStep(plannedTrip, attractive, container, i, ranking0, pendingOrder, prev, ranking);
    }

    /** The sub-rankings after updating the `i`-th attractive vehicle, `next`,
        are refreshed one route further than those before it, `prev`. */
    lemma RefreshedStep(plannedTrip: PlannedTrip, attractive: seq<Route>, container: map<VehicleId, Route>, i: nat,
                        ranking0: map<VehicleId, seq<Route>>, pendingOrder: seq<TripId>,
                        prev: map<VehicleId, seq<Route>>, next: map<VehicleId, seq<Route>>)
      requires i < |attractive| && attractive[i].vehicle !in Touched(attractive, i)
      requires forall u :: u in prev <==> u in ranking0 || u in Touched(attractive, i)
      requires forall u :: u in prev ==> Refreshed(ranking0, Touched(attractive, i), plannedTrip, container, pendingOrder, u, prev[u])
      requires forall u :: u in next <==> u in prev || u == attractive[i].vehicle
      requires forall u :: u in next && u != attractive[i].vehicle ==> next[u] == prev[u]
      requires var v := attractive[i].vehicle;
               if v == plannedTrip.vehicle || v !in prev then v in container && next[v] == SubRanking(container[v], pendingOrder)
               else next[v] == Purge(prev[v], plannedTrip.trip)
      ensures forall u :: u in next <==> u in ranking0 || u in Touched(attractive, i + 1)
      ensures forall u :: u in next ==> Refreshed(ranking0, Touched(attractive, i + 1), plannedTrip, container, pendingOrder, u, next[u])
    {
      var v := attractive[i].vehicle;
      TouchedStep(attractive, i);
      forall u | u in next
        ensures Refreshed(ranking0, Touched(attractive, i + 1), plannedTrip, container, pendingOrder, u, next[u])
      {
        if u != v {
          assert u in prev && Refreshed(ranking0, Touched(attractive, i), plannedTrip, container, pendingOrder, u, prev[u]);
        } else if v in prev {
          assert Refreshed(ranking0, Touched(attractive, i), plannedTrip, container, pendingOrder, v, prev[v]);
        }
      }
    }

    /** Rebuilds the sub-ranking of `v` from its current route when `v`
        received the trip or is not ranked yet, and purges it otherwise. */
    method UpdateVehicleRanking(plannedTrip: PlannedTrip, v: VehicleId, container: map<VehicleId, Route>)
      requires Valid()
      requires (v == plannedTrip.vehicle || v !in ranking) ==> v in container
      modifies this
      ensures Valid()
      ensures forall u :: u in ranking <==> u in old(ranking) || u == v
      ensures forall u :: u in ranking && u != v ==> ranking[u] == old(ranking)[u]
      ensures if v == plannedTrip.vehicle || v !in old(ranking) then ranking[v] == SubRanking(container[v], crosser.PendingOrder())
              else ranking[v] == Purge(old(ranking)[v], plannedTrip.trip)
      ensures vehicles == if v in old(ranking) then old(vehicles) else old(vehicles) + [v]
    {
      if v == plannedTrip.vehicle || v !in ranking {
        var sub := CreateSubRanking(container[v]);
        SetSubRanking(v, sub);
      } else {
        PurgeKeepsSorted(scoring, ranking[v], plannedTrip.trip);
        SetSubRanking(v, Purge(ranking[v], plannedTrip.trip));
      }
    }

    /** `ranking[v] = sub`: a new vehicle goes last in iteration order. */
    method SetSubRanking(v: VehicleId, sub: seq<Route>)
      requires Valid() && SortedBy(scoring, sub)
      modifies this
      ensures Valid()
      ensures ranking == old(ranking)[v := sub]
      ensures vehicles == if v in old(ranking) then old(vehicles) else old(vehicles) + [v]
    {
      if v !in ranking {
        vehicles := vehicles + [v];
      }
      ranking := ranking[v := sub];
    }

    /** `create_sub_ranking(route)`: at most `neighborhoodMaxSize` distinct
        pending trips go to the strategy, and its candidates come back sorted
        by the criterion. */
    method CreateSubRanking(route: Route) returns (sub: seq<Route>)
      requires crosser.Valid()
      ensures sub == SubRanking(route, crosser.PendingOrder())
      ensures SortedBy(scoring, sub)
      ensures var nb := Neighborhood(crosser.PendingOrder(), neighborhoodMaxSize);
              |nb| == Min(neighborhoodMaxSize, |crosser.PendingTrips()|) && Distinct(nb)
              && (forall k :: 0 <= k < |nb| ==> nb[k] in crosser.PendingTrips())
              && multiset(sub) == multiset(strategy(route, nb))
    {
      var pendingTrips := Neighborhood(crosser.PendingOrder(), neighborhoodMaxSize);
      var raw := strategy(route, pendingTrips);
      sub := Sort(scoring, raw);
      assert forall k :: 0 <= k < |pendingTrips| ==> pendingTrips[k] == crosser.PendingOrder()[k];
    }

    /** The first route of some vehicle's sub-ranking. */
    ghost predicate IsHead(c: Route)
      reads this
    {
      exists v :: v in ranking && ranking[v] != [] && c == ranking[v][0]
    }

    /** The short-list the scan over the whole ranking yields, in the
        vehicles' terms: it pops from an empty list exactly when
        `randomizedSize` is 0 or less and some sub-ranking is not empty;
        otherwise it holds at most `randomizedSize` sub-ranking heads, sorted,
        led by one that scores no worse than any head, and it is empty
        exactly when every sub-ranking is. */
    lemma ShortListMeaning()
      requires Valid()
      ensures var s := ShortListOf(scoring, randomizedSize, ranking, vehicles, |vehicles|);
              (s.PopFromEmpty? <==> randomizedSize <= 0 && exists v :: v in ranking && ranking[v] != [])
              && (s.Built? ==>
                    (1 <= randomizedSize ==> |s.candidates| <= randomizedSize)
                    && SortedBy(scoring, s.candidates)
                    && (s.candidates == [] <==> forall v :: v in ranking ==> ranking[v] == [])
                    && (forall c :: c in s.candidates ==> IsHead(c))
                    && (s.candidates != [] ==>
                          forall v :: v in ranking && ranking[v] != [] ==> scoring(s.candidates[0]) <= scoring(ranking[v][0])))
    {
      var n := |vehicles|;
      ShortListWithin(scoring, randomizedSize, ranking, vehicles, n);
      ShortListPops(scoring, randomizedSize, ranking, vehicles, n);
      ShortListHeads(scoring, randomizedSize, ranking, vehicles, n);
      ShortListEmpty(scoring, randomizedSize, ranking, vehicles, n);
      ShortListKeepsBest(scoring, randomizedSize, ranking, vehicles, n);
      HeadsAreHeads();
    }

    /** The heads the scan visits in key order are exactly the heads of the
        ranking, and a vehicle with a non-empty sub-ranking is visited. */
    lemma HeadsAreHeads()
      requires Valid()
      ensures forall c :: c in Heads(ranking, vehicles, |vehicles|) <==> IsHead(c)
      ensures (exists v :: v in ranking && ranking[v] != []) <==>
              (exists k :: 0 <= k < |vehicles| && ranking[vehicles[k]] != [])
    {
      var n := |vehicles|;
      var heads := Heads(ranking, vehicles, n);
      forall v | v in ranking && ranking[v] != [] ensures ranking[v][0] in heads {
        var k :| 0 <= k < n && vehicles[k] == v;
        HeadsMember(ranking, vehicles, n, ranking[v][0]);
      }
      forall c | c in heads ensures IsHead(c) {
        HeadsMember(ranking, vehicles, n, c);
        var k :| 0 <= k < n && ranking[vehicles[k]] != [] && c == ranking[vehicles[k]][0];
        var v := vehicles[k];
        assert v in ranking && ranking[v] != [] && c == ranking[v][0];
      }
      if exists v :: v in ranking && ranking[v] != [] {
        var v :| v in ranking && ranking[v] != [];
        var k :| 0 <= k < n && vehicles[k] == v;
        assert 0 <= k < n && ranking[vehicles[k]] != [];
      }
      if exists k :: 0 <= k < n && ranking[vehicles[k]] != [] {
        var k :| 0 <= k < n && ranking[vehicles[k]] != [];
        assert vehicles[k] in ranking && ranking[vehicles[k]] != [];
      }
    }

    /** The inner loop of `__next__` over one non-empty sorted sub-ranking
        `sub`, followed by the re-sort: the scan `Admit` describes. */
    method ScanSubRanking(candidates: seq<Route>, sub: seq<Route>) returns (r: ShortList)
      requires sub != [] && SortedBy(scoring, sub) && SortedBy(scoring, candidates)
      requires 1 <= randomizedSize ==> |candidates| <= randomizedSize
      requires randomizedSize <= 0 ==> candidates == []
      ensures r == Admit(scoring, randomizedSize, candidates, sub[0])
    {
      var list := candidates;
      var head := sub[0];
      var k := 0;
      while k < |sub|
        invariant 0 <= k <= 1
        invariant k == 0 ==> list == candidates
        invariant k == 1 ==> list != [] && list[|list| - 1] == head && 1 <= randomizedSize
        invariant k == 1 ==> !(candidates != [] && Best(scoring, candidates[|candidates| - 1], head) == candidates[|candidates| - 1])
        invariant k == 1 ==>
                    list == (if randomizedSize <= |candidates| && candidates != [] then candidates[..|candidates| - 1] else candidates) + [head]
      {
        var current := sub[k];
        if k == 1 {
          assert scoring(sub[0]) <= scoring(sub[1]);
        }
        if list != [] && Best(scoring, list[|list| - 1], current) == list[|list| - 1] {
          break;
        }
        if randomizedSize <= |list| {
          if list == [] {
            return PopFromEmpty;
          }
          list := list[..|list| - 1];
        }
        list := list + [current];
        k := k + 1;
      }
      assert k == 0 ==> candidates != [] && Best(scoring, candidates[|candidates| - 1], head) == candidates[|candidates| - 1];
      var sorted := Sort(scoring, list);
      AdmitResorts(scoring, randomizedSize, candidates, head, list);
      r := Built(sorted);
    }

    /** The short-list of `__next__`: the scan `ShortListOf` describes over
        the sub-rankings in key order, with the meaning `ShortListMeaning`
        gives it. */
    method BuildShortList() returns (s: ShortList)
      requires Valid()
      ensures s == ShortListOf(scoring, randomizedSize, ranking, vehicles, |vehicles|)
      ensures s.PopFromEmpty? <==> randomizedSize <= 0 && exists v :: v in ranking && ranking[v] != []
      ensures s.Built? && 1 <= randomizedSize ==> |s.candidates| <= randomizedSize
      ensures s.Built? ==> (s.candidates == [] <==> forall v :: v in ranking ==> ranking[v] == [])
      ensures s.Built? ==> SortedBy(scoring, s.candidates)
      ensures s.Built? ==> forall c :: c in s.candidates ==> IsHead(c)
      ensures s.Built? && s.candidates != [] ==>
                forall v :: v in ranking && ranking[v] != [] ==> scoring(s.candidates[0]) <= scoring(ranking[v][0])
    {
      ShortListMeaning();
      var candidates: seq<Route> := [];
      var idx := 0;
      while idx < |vehicles|
        invariant 0 <= idx <= |vehicles|
        invariant ShortListOf(scoring, randomizedSize, ranking, vehicles, idx) == Built(candidates)
      {
        var vehicle := vehicles[idx];
        assert vehicle in ranking;
        var sub := ranking[vehicle];
        if sub != [] {
          ShortListWithin(scoring, randomizedSize, ranking, vehicles, idx);
          var r := ScanSubRanking(candidates, sub);
          if r.PopFromEmpty? {
            PopFromEmptyPersists(scoring, randomizedSize, ranking, vehicles, idx + 1, |vehicles|);
            return r;
          }
          candidates := r.candidates;
        }
        idx := idx + 1;
      }
      return Built(candidates);
    }

    /** `__next__`: StopIteration when no vehicle is ranked or every
        sub-ranking is empty; otherwise the short-list entry the random
        source picks, given here as `oracle`. */
    method Next(oracle: nat) returns (step: Step, ghost shortList: seq<Route>)
      requires Valid()
      ensures step.Exhausted? <==> forall v :: v in ranking ==> ranking[v] == []
      ensures step.IndexError? <==> randomizedSize <= 0 && exists v :: v in ranking && ranking[v] != []
      ensures step.Chosen? ==> shortList != [] && step.route == shortList[oracle % |shortList|]
      ensures step.Chosen? ==> |shortList| <= randomizedSize && SortedBy(scoring, shortList)
      ensures step.Chosen? ==> exists v :: v in ranking && ranking[v] != [] && step.route == ranking[v][0]
      ensures step.Chosen? ==> Built(shortList) == ShortListOf(scoring, randomizedSize, ranking, vehicles, |vehicles|)
      ensures step.Chosen? ==>
                forall v :: v in ranking && ranking[v] != [] ==> scoring(shortList[0]) <= scoring(ranking[v][0])
    {
      if |ranking| == 0 {
        return Exhausted, [];
      }
      var s := BuildShortList();
      if s.PopFromEmpty? {
        return IndexError, [];
      }
      var candidates := s.candidates;
      shortList := candidates;
      if candidates == [] {
        return Exhausted, shortList;
      }
      var chosen := candidates[oracle % |candidates|];
      assert chosen in candidates;
      step := Chosen(chosen);
    }
  }

  /** After a commit, no purged sub-ranking holds a route serving the
      committed trip, it keeps the order of the sub-ranking it came from, and
      every route there not serving the trip is kept. */
  lemma PurgedSubRanking(oldSub: seq<Route>, sub: seq<Route>, trip: TripId)
    requires sub == Purge(oldSub, trip)
    ensures forall e :: e in sub ==> trip !in e.trips
    ensures forall e :: e in oldSub && trip !in e.trips ==> e in sub
    ensures IsSubsequence(sub, oldSub)
  {
    PurgeIsSubsequence(oldSub, trip);
  }

  /** A sub-ranking rebuilt after a commit never hands the committed trip to
      the strategy: the neighbourhood is drawn from the pending trips only,
      and holds at most `size` of them. */
  lemma RebuiltIgnoresCommitted(pendingOrder: seq<TripId>, size: nat, trip: TripId)
    requires trip !in pendingOrder
    ensures trip !in Neighborhood(pendingOrder, size)
    ensures |Neighborhood(pendingOrder, size)| <= size
  {
  }
}
