/** Value types shared by the trip-assignment engine: trips and vehicles are
    known only by their identity, a route by its vehicle, the trips it serves,
    the length of its stop list and an abstract key for the rest of it. */
module Models {

  /** A pickup-and-delivery request of the job. */
  type TripId = int

  /** A vehicle of the fleet. */
  type VehicleId = int

  /** A candidate or committed route: the vehicle it belongs to, the trips it
      serves, how many stops it has, and `key`, which stands for everything
      else the criterion reads (where the stops lie, their times and loads).
      Two conjectured routes that insert the same trip at different positions
      differ in `key`, so they are different values and may score apart. */
  datatype Route = Route(vehicle: VehicleId, trips: set<TripId>, stops: nat, key: int)

  /** A trip bound to a position of a vehicle's route. */
  datatype PlannedTrip = PlannedTrip(trip: TripId, vehicle: VehicleId)

  datatype Option<T> = None | Some(value: T)

  /** The route a vehicle starts with: it serves no trip yet, has the
      `stops` the vehicle's own position gives it, and the key 0 of a plan
      with nothing inserted. */
  function NewRoute(v: VehicleId, stops: nat): (r: Route)
    ensures r.vehicle == v && r.trips == {} && r.stops == stops && r.key == 0
  {
    Route(v, {}, stops, 0)
  }

  predicate Distinct<T(==)>(s: seq<T>)
  {
    forall i, j :: 0 <= i < j < |s| ==> s[i] != s[j]
  }

  function Min(a: int, b: int): (r: int)
    ensures r <= a && r <= b && (r == a || r == b)
  {
    if a < b then a else b
  }
}
