/** The intensive insertion strategy: for a single trip, one conjectured route
    per ordered pair of stop indices (pickup after stop i, delivery after stop
    j, i < j), in lexicographic order. How a route is conjectured
    (`compute_one`) and the base strategy's handling of several trips are
    left abstract. */
module Strategies {
  import opened Models

  /** `compute_one(route, trip, i, j)`. */
  type ComputeOne = (Route, TripId, nat, nat) -> Route

  /** The base strategy's `compute` over several trips. */
  type ComputeMany = (Route, seq<TripId>) -> seq<Route>

  /** What `compute` is called with: one trip, or any other iterable of trips. */
  datatype Trips = Single(trip: TripId) | Many(trips: seq<TripId>)

  /** The pairs (i, j) with i < j < n, for one i, in increasing j. */
  function Row(i: nat, n: nat): (r: seq<(nat, nat)>)
  {
    seq(if i < n then n - i - 1 else 0, k => (i, i + 1 + k))
  }

  /** The rows of 0, ..., i - 1, one after the other. */
  function Prefix(i: nat, n: nat): (r: seq<(nat, nat)>)
  {
    if i == 0 then [] else Prefix(i - 1, n) + Row(i - 1, n)
  }

  /** Every pair the two loops visit, in visiting order. */
  function Pairs(n: nat): (r: seq<(nat, nat)>)
  {
    if n == 0 then [] else Prefix(n - 1, n)
  }

  /** The conjectured route of each pair, in the order of the pairs. */
  function Candidates(route: Route, trip: TripId, pairs: seq<(nat, nat)>, computeOne: ComputeOne): (r: seq<Route>)
  {
    seq(|pairs|, k requires 0 <= k < |pairs| => computeOne(route, trip, pairs[k].0, pairs[k].1))
  }

  predicate LexLess(p: (nat, nat), q: (nat, nat))
  {
    p.0 < q.0 || (p.0 == q.0 && p.1 < q.1)
  }

  /** `IntensiveInsertionStrategy.compute`. */
  method Compute(route: Route, trips: Trips, computeOne: ComputeOne, base: ComputeMany) returns (routes: seq<Route>)
    ensures trips.Many? ==> routes == base(route, trips.trips)
    ensures trips.Single? ==> routes == Candidates(route, trips.trip, Pairs(route.stops), computeOne)
    ensures trips.Single? ==> 2 * |routes| == route.stops * (route.stops - 1)
  {
    if trips.Many? {
      return base(route, trips.trips);
    }
    var trip := trips.trip;
    var n := route.stops;
    routes := [];
    var i := 0;
    while i + 1 < n
      invariant i == 0 || i + 1 <= n
      invariant routes == Candidates(route, trip, Prefix(i, n), computeOne)
      decreases n - i
    {
      var j := i + 1;
      while j < n
        invariant i + 1 <= j <= n
        invariant routes == Candidates(route, trip, Prefix(i, n) + Row(i, n)[..j - i - 1], computeOne)
        decreases n - j
      {
        ghost var done := Prefix(i, n) + Row(i, n)[..j - i - 1];
        assert done + [(i, j)] == Prefix(i, n) + Row(i, n)[..j - i];
        CandidatesSnoc(route, trip, done, (i, j), computeOne);
        routes := routes + [computeOne(route, trip, i, j)];
        j := j + 1;
      }
      assert Row(i, n)[..j - i - 1] == Row(i, n);
      i := i + 1;
    }
    PairsLength(n);
  }

  lemma CandidatesSnoc(route: Route, trip: TripId, pairs: seq<(nat, nat)>, p: (nat, nat), computeOne: ComputeOne)
    ensures Candidates(route, trip, pairs + [p], computeOne)
         == Candidates(route, trip, pairs, computeOne) + [computeOne(route, trip, p.0, p.1)]
  {
  }

  lemma {:induction false} PrefixLength(i: nat, n: nat)
    requires i <= n
    ensures 2 * |Prefix(i, n)| == i * (2 * n - i - 1)
  {
    if i > 0 {
      PrefixLength(i - 1, n);
      assert |Row(i - 1, n)| == n - i;
      calc {
        2 * |Prefix(i, n)|;
        2 * |Prefix(i - 1, n)| + 2 * (n - i);
        (i - 1) * (2 * n - i) + 2 * (n - i);
        i * (2 * n - i - 1);
      }
    }
  }

  /** n stops give n(n - 1)/2 pairs, so none below two stops. */
  lemma {:induction false} PairsLength(n: nat)
    ensures 2 * |Pairs(n)| == n * (n - 1)
    ensures |Pairs(n)| == n * (n - 1) / 2
    ensures n < 2 ==> Pairs(n) == []
  {
    if n > 0 {
      PrefixLength(n - 1, n);
    }
  }

  lemma {:induction false} PrefixMember(i: nat, n: nat, p: (nat, nat))
    requires i <= n
    ensures p in Prefix(i, n) <==> p.0 < i && p.0 < p.1 < n
  {
    if i > 0 {
      PrefixMember(i - 1, n, p);
      if p.0 == i - 1 && p.0 < p.1 < n {
        assert Row(i - 1, n)[p.1 - i] == p;
      }
    }
  }

  /** A pair is visited exactly when it is an ordered pair of stop indices. */
  lemma {:induction false} PairsMember(n: nat, i: nat, j: nat)
    ensures (i, j) in Pairs(n) <==> i < j < n
  {
    if n > 0 {
      PrefixMember(n - 1, n, (i, j));
    }
  }

  lemma {:induction false} PrefixOrdered(i: nat, n: nat)
    requires i <= n
    ensures forall a, b :: 0 <= a < b < |Prefix(i, n)| ==> LexLess(Prefix(i, n)[a], Prefix(i, n)[b])
  {
    if i > 0 {
      PrefixOrdered(i - 1, n);
      var front, row := Prefix(i - 1, n), Row(i - 1, n);
      forall a, b | 0 <= a < b < |front + row|
        ensures LexLess((front + row)[a], (front + row)[b])
      {
        if a < |front| && b >= |front| {
          PrefixMember(i - 1, n, front[a]);
          assert front[a] in front;
        }
      }
    }
  }

  /** The pairs come in strictly increasing lexicographic order, so each one
      is visited once: i is the outer loop, j the inner one. */
  lemma {:induction false} PairsOrdered(n: nat)
    ensures forall a, b :: 0 <= a < b < |Pairs(n)| ==> LexLess(Pairs(n)[a], Pairs(n)[b])
    ensures forall a, b :: 0 <= a < |Pairs(n)| && 0 <= b < |Pairs(n)| && Pairs(n)[a] == Pairs(n)[b] ==> a == b
  {
    if n > 0 {
      PrefixOrdered(n - 1, n);
    }
  }

  /** The k-th candidate is `compute_one` on the k-th pair; nothing is dropped. */
  lemma {:induction false} CandidateAt(route: Route, trip: TripId, computeOne: ComputeOne, k: nat)
    requires k < |Pairs(route.stops)|
    ensures |Candidates(route, trip, Pairs(route.stops), computeOne)| == |Pairs(route.stops)|
    ensures Pairs(route.stops)[k].0 < Pairs(route.stops)[k].1 < route.stops
    ensures Candidates(route, trip, Pairs(route.stops), computeOne)[k]
         == computeOne(route, trip, Pairs(route.stops)[k].0, Pairs(route.stops)[k].1)
  {
    var p := Pairs(route.stops)[k];
    assert p in Pairs(route.stops);
    PairsMember(route.stops, p.0, p.1);
  }
}
