/** The criterion that orders candidate routes. Its objective is left abstract:
    a scoring function, lower is better. `best` keeps the first argument on a
    tie and `sorted` is a stable sort by score, as Python's `min` and `sort`
    with a key are. */
module Criterion {
  import opened Models

  type Scoring = Route -> int

  /** The better of two routes; the first one when they score the same. */
  function Best(score: Scoring, a: Route, b: Route): (r: Route)
    ensures r == a || r == b
    ensures score(r) <= score(a) && score(r) <= score(b)
    ensures score(a) == score(b) ==> r == a
  {
    if score(b) < score(a) then b else a
  }

  /** Every route scores no worse than the ones after it. */
  predicate SortedBy(score: Scoring, s: seq<Route>)
  {
    forall i, j :: 0 <= i < j < |s| ==> score(s[i]) <= score(s[j])
  }

  /** Inserts `x` before the first route that scores no better than it. */
  function Insert(score: Scoring, x: Route, s: seq<Route>): (r: seq<Route>)
    requires SortedBy(score, s)
    ensures SortedBy(score, r)
    ensures multiset(r) == multiset(s) + multiset{x}
    ensures |r| == |s| + 1
  {
    if s == [] then [x]
    else if score(x) <= score(s[0]) then [x] + s
    else
      var rest := Insert(score, x, s[1..]);
      InsertHead(score, s[0], x, s[1..], rest);
      assert s == [s[0]] + s[1..];
      [s[0]] + rest
  }

  /** Putting `h` in front of the insertion keeps it sorted when `h` scores
      no worse than the inserted route and than the tail it was taken from. */
  lemma InsertHead(score: Scoring, h: Route, x: Route, t: seq<Route>, rest: seq<Route>)
    requires SortedBy(score, [h] + t)
    requires score(h) < score(x)
    requires SortedBy(score, rest) && multiset(rest) == multiset(t) + multiset{x}
    ensures SortedBy(score, [h] + rest)
  {
    forall j | 0 <= j < |rest| ensures score(h) <= score(rest[j]) {
      assert rest[j] in multiset(rest);
      if rest[j] != x {
        assert rest[j] in multiset(t);
        var k :| 0 <= k < |t| && t[k] == rest[j];
        assert ([h] + t)[0] == h && ([h] + t)[k + 1] == t[k];
        assert score(([h] + t)[0]) <= score(([h] + t)[k + 1]);
      }
    }
  }

  /** `criterion.sorted(routes)`: the routes, reordered by score. */
  function Sort(score: Scoring, s: seq<Route>): (r: seq<Route>)
    ensures SortedBy(score, r)
    ensures multiset(r) == multiset(s)
    ensures |r| == |s|
  {
    if s == [] then []
    else
      assert s == [s[0]] + s[1..];
      Insert(score, s[0], Sort(score, s[1..]))
  }

  /** The stable place of `h` in a sorted list: after every route that scores
      no worse than it, before the first one that scores worse. */
  function Place(score: Scoring, h: Route, s: seq<Route>): (r: seq<Route>)
    ensures |r| == |s| + 1
  {
    if s == [] || score(h) < score(s[0]) then [h] + s
    else [s[0]] + Place(score, h, s[1..])
  }

  /** Placing a route adds exactly one copy of it and keeps every other
      route of the list. */
  lemma {:induction false} PlaceCounts(score: Scoring, h: Route, s: seq<Route>)
    ensures multiset(Place(score, h, s)) == multiset(s) + multiset{h}
    ensures forall x :: x in Place(score, h, s) <==> x in s || x == h
  {
    if s != [] && score(s[0]) <= score(h) {
      PlaceCounts(score, h, s[1..]);
      assert s == [s[0]] + s[1..];
    }
  }

  /** Placing a route keeps a sorted list sorted. */
  lemma {:induction false} PlaceKeepsSorted(score: Scoring, h: Route, s: seq<Route>)
    requires SortedBy(score, s)
    ensures SortedBy(score, Place(score, h, s))
  {
    if s != [] && score(s[0]) <= score(h) {
      PlaceKeepsSorted(score, h, s[1..]);
      PlaceCounts(score, h, s[1..]);
      var rest := Place(score, h, s[1..]);
      forall j | 0 <= j < |rest| ensures score(s[0]) <= score(rest[j]) {
        assert rest[j] in rest;
        if rest[j] != h {
          var k :| 0 <= k < |s[1..]| && s[1..][k] == rest[j];
          assert s[k + 1] == rest[j];
        }
      }
      assert SortedBy(score, [s[0]] + rest);
    }
  }

  /** Re-sorting a sorted list with one route appended places that route
      stably: the sort is stable. */
  lemma {:induction false} SortPlaces(score: Scoring, s: seq<Route>, h: Route)
    requires SortedBy(score, s)
    ensures Sort(score, s + [h]) == Place(score, h, s)
  {
    if s == [] {
      assert s + [h] == [h] && [h][1..] == [];
    } else {
      assert s == [s[0]] + s[1..];
      InsertBeforePlace(score, s[0], h, s[1..]);
      var t := s + [h];
      assert Sort(score, t) == Insert(score, s[0], Place(score, h, s[1..])) by {
        assert t[0] == s[0] && t[1..] == s[1..] + [h];
        SortPlaces(score, s[1..], h);
      }
    }
  }

  /** Inserting a route that scores no worse than a sorted list in front of
      the list with `h` placed is placing `h` in the longer list. */
  lemma InsertBeforePlace(score: Scoring, first: Route, h: Route, rest: seq<Route>)
    requires SortedBy(score, [first] + rest)
    ensures SortedBy(score, rest)
    ensures SortedBy(score, Place(score, h, rest))
    ensures Insert(score, first, Place(score, h, rest)) == Place(score, h, [first] + rest)
  {
    var s := [first] + rest;
    assert s[1..] == rest && s[0] == first;
    assert SortedBy(score, rest) by {
      forall a, b | 0 <= a < b < |rest| ensures score(rest[a]) <= score(rest[b]) {
        assert rest[a] == s[a + 1] && rest[b] == s[b + 1];
      }
    }
    PlaceKeepsSorted(score, h, rest);
    var placed := Place(score, h, rest);
    if rest != [] {
      assert score(first) <= score(rest[0]) by { assert s[1] == rest[0]; }
    }
    if score(h) < score(first) {
      assert placed == [h] + rest;
      assert Insert(score, first, rest) == [first] + rest;
      assert placed[1..] == rest;
    } else {
      assert placed[0] == h || placed[0] == rest[0];
    }
  }

  /** `best` agrees with the sort: on a test that `a` wins or ties, and as the
      head of the sorted pair. */
  lemma BestAgreesWithSort(score: Scoring, a: Route, b: Route)
    ensures Best(score, a, b) == a <==> score(a) <= score(b)
    ensures Sort(score, [a, b])[0] == Best(score, a, b)
  {
  }

  /** A sorted sequence is left as it is. */
  lemma {:induction false} SortKeepsSorted(score: Scoring, s: seq<Route>)
    requires SortedBy(score, s)
    ensures Sort(score, s) == s
  {
    if s != [] {
      assert s == [s[0]] + s[1..];
      SortKeepsSorted(score, s[1..]);
    }
  }
}
