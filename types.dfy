/** Shared data of the vehicle-tracking engine: coordinates, schedules, routes. */
module Types {

  datatype Option<T> = None | Some(value: T)

  /** A geographic coordinate in degrees. */
  datatype LatLng = LatLng(lat: real, lng: real)

  /** A distance in metres; never negative. */
  type Meters = r: real | r >= 0.0

  /** The great-circle (haversine, earth radius 6371000 m) distance between two
      coordinates. Its trigonometry is not modelled: any total function that
      returns non-negative metres can stand for it. */
  type Metric = (LatLng, LatLng) -> Meters

  type Hour = h: nat | h < 24
  type Minute = m: nat | m < 60

  /** An already-parsed "HH:mm" time of day. */
  datatype TimeOfDay = TimeOfDay(hours: Hour, minutes: Minute)

  /** An intermediate stop of a route, with its dwell window. */
  datatype Stop = Stop(id: string, loc: LatLng, arrival: TimeOfDay, departure: TimeOfDay)

  /** A route definition; `steps` is the routed polyline supplied by the
      directions service (empty while it has not been resolved). */
  datatype Route = Route(
    id: string,
    origin: LatLng,
    destination: LatLng,
    stops: seq<Stop>,
    departure: TimeOfDay,
    arrival: TimeOfDay,
    steps: seq<LatLng>)

  function Min(a: int, b: int): int { if a <= b then a else b }
  function Max(a: int, b: int): int { if a >= b then a else b }
  function MaxR(a: real, b: real): real { if a >= b then a else b }
  function MinR(a: real, b: real): real { if a <= b then a else b }

  /** `Math.max(lo, Math.min(hi, x))` on reals. */
  function ClampR(x: real, lo: real, hi: real): (r: real)
    requires lo <= hi
    ensures lo <= r <= hi
    ensures lo <= x <= hi ==> r == x
  {
    MaxR(lo, MinR(hi, x))
  }

  /** A fraction of a non-negative quantity lies between 0 and that quantity. */
  lemma ScaleWithin(t: real, l: real)
    requires 0.0 <= t <= 1.0 && l >= 0.0
    ensures 0.0 <= t * l <= l
  {
    assert t * l <= 1.0 * l;
  }

  /** A vehicle marker: the route it shows and its current position. */
  class Marker {
    const routeId: Option<string>
    const route: Option<Route>
    var position: LatLng

    constructor (routeId: Option<string>, route: Option<Route>, position: LatLng)
      ensures this.routeId == routeId && this.route == route && this.position == position
    {
      this.routeId := routeId;
      this.route := route;
      this.position := position;
    }
  }

  /** A marker takes part in an update when it has a route and a non-empty
      route id that is selected. */
  predicate Active(m: Marker, selected: set<string>)
  {
    m.route.Some? && m.routeId.Some? && m.routeId.value != "" && m.routeId.value in selected
  }
}
