/** The crosser: a proposer and committer of trip placements over a fixed
    fleet and job, which keeps track of the trips already done. */
module Crossers {
  import opened Models

  datatype Error =
    | NonFeasiblePlannedTripFound  // no proposal while stepping the crosser
    | MissingTrip                  // `set.remove` of a trip that is not done

  datatype Result<T> = Ok(value: T) | Err(error: Error)

  datatype Outcome = Success | Failure(error: Error)

  /** The trips of `order` that are not done, in the order of `order`. */
  function Unfinished(order: seq<TripId>, done: set<TripId>): (r: seq<TripId>)
    ensures forall t :: t in r <==> t in order && t !in done
    ensures Distinct(order) ==> Distinct(r)
  {
    if order == [] then []
    else if order[0] in done then Unfinished(order[1..], done)
    else [order[0]] + Unfinished(order[1..], done)
  }

  /** A sequence without repetitions has as many elements as its set. */
  lemma {:induction false} DistinctCardinality(s: seq<TripId>)
    requires Distinct(s)
    ensures |set t | t in s| == |s|
  {
    if s != [] {
      DistinctCardinality(s[1..]);
      assert (set t | t in s) == {s[0]} + (set t | t in s[1..]);
      assert s[0] !in (set t | t in s[1..]);
    }
  }

  class Crosser {
    /** One route per vehicle of the fleet. */
    const routes: set<Route>
    /** The trips of the job, as the job's trip set iterates them. */
    const tripOrder: seq<TripId>
    /** The trips of the job. */
    const trips: set<TripId>
    var doneTrips: set<TripId>

    /** The iteration order lists every trip of the job once. */
    ghost predicate Valid()
    {
      Distinct(tripOrder) && trips == set t | t in tripOrder
    }

    /** The routes are one fresh route per fleet vehicle: no trips, the
        stops `initialStops` gives that vehicle, and the key of an empty plan. */
    ghost predicate FleetRoutes(fleet: set<VehicleId>, initialStops: VehicleId -> nat)
    {
      forall r :: r in routes <==> r.vehicle in fleet && r.trips == {} && r.stops == initialStops(r.vehicle) && r.key == 0
    }

    /** `initialStops(v)` is the number of stops `Route(v)` starts with. */
    constructor (fleet: set<VehicleId>, job: seq<TripId>, initialStops: VehicleId -> nat)
      requires Distinct(job)
      ensures Valid()
      ensures FleetRoutes(fleet, initialStops)
      ensures tripOrder == job && doneTrips == {}
      ensures PendingTrips() == trips && PendingOrder() == job
      ensures Completed() <==> job == []
    {
      routes := set v | v in fleet :: NewRoute(v, initialStops(v));
      tripOrder := job;
      trips := set t | t in job;
      doneTrips := {};
      new;
      UnfinishedOfNothing(job);
      if job != [] {
        var first := job[0];
        assert first in trips;
      }
    }

    /** One step of the iterator, given what `get_planned_trip` proposed:
        the proposal itself, or the terminal failure when there is none. */
    function Next(proposal: Option<PlannedTrip>): (r: Result<PlannedTrip>)
      ensures r.Ok? <==> proposal.Some?
      ensures r.Ok? ==> r.value == proposal.value
      ensures r.Err? ==> r.error == NonFeasiblePlannedTripFound
    {
      match proposal
      case None => Err(NonFeasiblePlannedTripFound)
      case Some(plannedTrip) => Ok(plannedTrip)
    }

    method MarkPlannedTripAsDone(plannedTrip: PlannedTrip)
      modifies this`doneTrips
      ensures doneTrips == old(doneTrips) + {plannedTrip.trip}
    {
      MarkTripAsDone(plannedTrip.trip);
    }

    method MarkTripAsDone(trip: TripId)
      modifies this`doneTrips
      ensures doneTrips == old(doneTrips) + {trip}
      ensures trip !in PendingTrips()
    {
      doneTrips := doneTrips + {trip};
    }

    method MarkPlannedTripAsUndone(plannedTrip: PlannedTrip) returns (r: Outcome)
      modifies this`doneTrips
      ensures r.Success? <==> plannedTrip.trip in old(doneTrips)
      ensures r.Failure? ==> r.error == MissingTrip
      ensures doneTrips == old(doneTrips) - {plannedTrip.trip}
    {
      r := MarkTripAsUndone(plannedTrip.trip);
    }

    /** Removes a done trip; a trip that is not done is the `KeyError` of
        `set.remove`, and leaves the set as it was. */
    method MarkTripAsUndone(trip: TripId) returns (r: Outcome)
      modifies this`doneTrips
      ensures r.Success? <==> trip in old(doneTrips)
      ensures r.Failure? ==> r.error == MissingTrip
      ensures doneTrips == old(doneTrips) - {trip}
    {
      if trip in doneTrips {
        doneTrips := doneTrips - {trip};
        r := Success;
      } else {
        r := Failure(MissingTrip);
      }
    }

    /** The trips of the job not done yet: inside the job, apart from the done
        trips, and together with them covering the job. */
    function PendingTrips(): (p: set<TripId>)
      reads this
      ensures p <= trips
      ensures p !! doneTrips
      ensures trips <= p + doneTrips
    {
      trips - doneTrips
    }

    /** `pending_trips` as it iterates: the job's order with done trips skipped. */
    function PendingOrder(): (r: seq<TripId>)
      reads this
      requires Valid()
      ensures Distinct(r)
      ensures forall t :: t in r <==> t in PendingTrips()
      ensures |r| == |PendingTrips()|
    {
      var r := Unfinished(tripOrder, doneTrips);
      DistinctCardinality(r);
      assert PendingTrips() == set t | t in r;
      r
    }

    /** Every trip of the job is done. */
    function Completed(): (b: bool)
      reads this
      ensures b <==> trips <= doneTrips
    {
      |PendingTrips()| == 0
    }
  }

  lemma {:induction false} UnfinishedOfNothing(order: seq<TripId>)
    ensures Unfinished(order, {}) == order
  {
    if order != [] {
      UnfinishedOfNothing(order[1..]);
      assert order == [order[0]] + order[1..];
    }
  }

  /** Marking a trip that was not done as done and then as undone succeeds
      and gives back the done trips the crosser started with. */
  method DoneThenUndone(c: Crosser, trip: TripId) returns (r: Outcome)
    requires trip !in c.doneTrips
    modifies c
    ensures r == Success
    ensures c.doneTrips == old(c.doneTrips)
    ensures c.PendingTrips() == old(c.PendingTrips())
  {
    c.MarkTripAsDone(trip);
    r := c.MarkTripAsUndone(trip);
  }

  /** Marking a trip as done twice leaves the crosser as marking it once. */
  method DoneTwice(c: Crosser, trip: TripId)
    modifies c
    ensures c.doneTrips == old(c.doneTrips) + {trip}
    ensures c.PendingTrips() == old(c.PendingTrips()) - {trip}
  {
    c.MarkTripAsDone(trip);
    c.MarkTripAsDone(trip);
  }
}
