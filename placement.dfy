/** Position state machine of one route: the path, its distance table and
    the stop distances derived from the route, and the rule that places the
    vehicle at its origin, its destination, a stop it dwells at, or a point
    interpolated along the path. */
module Placement {
  import opened Types
  import opened Schedule
  import opened PathProjection
  import opened Clock

  // ------------------------------------------------------- route-derived data

  /** Origin, the routed samples, destination. */
  function RawPath(route: Route): (r: seq<LatLng>)
    ensures |r| == |route.steps| + 2
    ensures r[0] == route.origin && r[|r| - 1] == route.destination
  {
    [route.origin] + route.steps + [route.destination]
  }

  /** The travel path: the raw path without consecutive duplicates. */
  function PathPoints(route: Route): (pts: seq<LatLng>)
    ensures |pts| >= 1
  {
    Dedup(RawPath(route))
  }

  /** The deduplicated path starts at the origin, ends at the destination and
      has no two equal consecutive points. */
  lemma PathPointsShape(route: Route)
    ensures var pts := PathPoints(route);
      && pts[0] == route.origin
      && pts[|pts| - 1] == route.destination
      && NoAdjacentDuplicates(pts)
  {
    DedupKeepsFirst(RawPath(route));
    DedupNoAdjacentDuplicates(RawPath(route));
  }

  /** Origin, each stop's coordinate, destination. */
  function Locations(route: Route): (locs: seq<LatLng>)
    ensures |locs| == |route.stops| + 2
    ensures locs[0] == route.origin && locs[|locs| - 1] == route.destination
    ensures forall j :: 0 <= j < |route.stops| ==> locs[j + 1] == route.stops[j].loc
  {
    [route.origin]
      + seq(|route.stops|, j requires 0 <= j < |route.stops| => route.stops[j].loc)
      + [route.destination]
  }

  /** Arrival and departure of each stop, in stop order. */
  function StopTimes(stops: seq<Stop>): (r: seq<TimeOfDay>)
    ensures |r| == 2 * |stops|
  {
    if |stops| == 0 then []
    else [stops[0].arrival, stops[0].departure] + StopTimes(stops[1..])
  }

  lemma {:induction false} StopTimesAt(stops: seq<Stop>, j: nat)
    requires j < |stops|
    ensures StopTimes(stops)[2 * j] == stops[j].arrival
    ensures StopTimes(stops)[2 * j + 1] == stops[j].departure
  {
    if j > 0 {
      StopTimesAt(stops[1..], j - 1);
    }
  }

  /** The schedule anchors: departure, each stop's arrival and departure, arrival. */
  function AnchorTimes(route: Route): (ts: seq<TimeOfDay>)
    ensures |ts| == 2 * |route.stops| + 2
  {
    [route.departure] + StopTimes(route.stops) + [route.arrival]
  }

  /** Anchor 0 is the departure, anchors 2j+1 and 2j+2 are stop j's arrival
      and departure, and the last anchor is the arrival. */
  lemma AnchorTimesAt(route: Route)
    ensures var ts := AnchorTimes(route);
      && ts[0] == route.departure
      && ts[|ts| - 1] == route.arrival
      && (forall j :: 0 <= j < |route.stops| ==>
            ts[2 * j + 1] == route.stops[j].arrival && ts[2 * j + 2] == route.stops[j].departure)
  {
    var ts := AnchorTimes(route);
    forall j | 0 <= j < |route.stops|
      ensures ts[2 * j + 1] == route.stops[j].arrival && ts[2 * j + 2] == route.stops[j].departure
    {
      StopTimesAt(route.stops, j);
    }
  }

  /** The resolved anchor times of a route. */
  function Anchors(route: Route, base: int): (times: seq<int>)
    ensures |times| == 2 * |route.stops| + 2
  {
    SequentialTimes(AnchorTimes(route), base)
  }

  /** Each location projected onto the path. */
  function ProjectedDistances(locs: seq<LatLng>, pts: seq<LatLng>, cum: seq<real>, dist: Metric): (d: seq<real>)
    ensures |d| == |locs|
  {
    seq(|locs|, i requires 0 <= i < |locs| => NearestDistance(locs[i], pts, cum, dist))
  }

  /** Distance along the path of each location, made non-decreasing. */
  function StopDistances(route: Route, pts: seq<LatLng>, cum: seq<real>, dist: Metric): (d: seq<real>)
    ensures |d| == |route.stops| + 2
  {
    MonotoneFix(ProjectedDistances(Locations(route), pts, cum, dist))
  }

  // ----------------------------------------------------------------- scans

  ghost predicate Dwelling(tNow: int, times: seq<int>, j: nat)
    requires 2 * j + 2 < |times|
  {
    times[2 * j + 1] <= tNow < times[2 * j + 2]
  }

  ghost predicate InLeg(tNow: int, times: seq<int>, k: nat)
    requires 2 * k + 1 < |times|
  {
    times[2 * k] <= tNow <= times[2 * k + 1]
  }

  /** The first stop from j on whose dwell window [arrival, departure)
      contains tNow. */
  function FirstDwell(tNow: int, times: seq<int>, s: nat, j: nat): (r: Option<nat>)
    requires |times| == 2 * s + 2 && j <= s
    ensures r.Some? ==> j <= r.value < s
    decreases s - j
  {
    if j == s then None
    else if times[2 * j + 1] <= tNow < times[2 * j + 2] then Some(j)
    else FirstDwell(tNow, times, s, j + 1)
  }

  lemma {:induction false} FirstDwellIsFirst(tNow: int, times: seq<int>, s: nat, j: nat)
    requires |times| == 2 * s + 2 && j <= s
    ensures var r := FirstDwell(tNow, times, s, j);
      && (r.Some? ==> j <= r.value < s && Dwelling(tNow, times, r.value)
                      && forall i :: j <= i < r.value ==> !Dwelling(tNow, times, i))
      && (r.None? ==> forall i :: j <= i < s ==> !Dwelling(tNow, times, i))
    decreases s - j
  {
    if j < s && !(times[2 * j + 1] <= tNow < times[2 * j + 2]) {
      FirstDwellIsFirst(tNow, times, s, j + 1);
    }
  }

  /** The first leg k from k0 on (between anchors 2k and 2k+1, both ends
      included) that contains tNow. */
  function FirstLeg(tNow: int, times: seq<int>, s: nat, k: nat): (r: Option<nat>)
    requires |times| == 2 * s + 2 && k <= s + 1
    ensures r.Some? ==> k <= r.value <= s
    decreases s + 1 - k
  {
    if k == s + 1 then None
    else if times[2 * k] <= tNow <= times[2 * k + 1] then Some(k)
    else FirstLeg(tNow, times, s, k + 1)
  }

  lemma {:induction false} FirstLegIsFirst(tNow: int, times: seq<int>, s: nat, k: nat)
    requires |times| == 2 * s + 2 && k <= s + 1
    ensures var r := FirstLeg(tNow, times, s, k);
      && (r.Some? ==> k <= r.value <= s && InLeg(tNow, times, r.value)
                      && forall i :: k <= i < r.value ==> !InLeg(tNow, times, i))
      && (r.None? ==> forall i :: k <= i <= s ==> !InLeg(tNow, times, i))
    decreases s + 1 - k
  {
    if k <= s && !(times[2 * k] <= tNow <= times[2 * k + 1]) {
      FirstLegIsFirst(tNow, times, s, k + 1);
    }
  }

  /** Some gap between consecutive anchors holds any time from the first
      anchor up to (not including) anchor m, whether or not the anchors are
      ordered. */
  lemma {:induction false} SomeGapHolds(tNow: int, times: seq<int>, m: nat)
    requires 0 < m < |times|
    requires times[0] <= tNow < times[m]
    ensures exists i :: 0 <= i < m && times[i] <= tNow < times[i + 1]
  {
    if times[m - 1] <= tNow {
      assert times[m - 1] <= tNow < times[m];
    } else {
      SomeGapHolds(tNow, times, m - 1);
    }
  }

  /** A time strictly inside the schedule is in a dwell window or a leg. */
  lemma DwellOrLeg(tNow: int, times: seq<int>, s: nat)
    requires |times| == 2 * s + 2
    requires times[0] < tNow < times[2 * s + 1]
    ensures FirstDwell(tNow, times, s, 0).Some? || FirstLeg(tNow, times, s, 0).Some?
  {
    SomeGapHolds(tNow, times, 2 * s + 1);
    var i :| 0 <= i < 2 * s + 1 && times[i] <= tNow < times[i + 1];
    FirstDwellIsFirst(tNow, times, s, 0);
    FirstLegIsFirst(tNow, times, s, 0);
    if i % 2 == 0 {
      assert InLeg(tNow, times, i / 2);
    } else {
      assert Dwelling(tNow, times, (i - 1) / 2);
    }
  }

  /** The fraction t of a non-negative length l. */
  function Portion(t: real, l: real): (r: real)
    requires 0.0 <= t <= 1.0 && l >= 0.0
    ensures 0.0 <= r <= l
  {
    ScaleWithin(t, l);
    t * l
  }

  /** Target distance within leg k: the elapsed fraction of the leg (its
      duration floored at 1 ms), clamped to [0, 1], of the distance between
      the leg's end locations (never negative). It lies between the distance
      of the leg's start location and that plus the span of the leg, and so
      never beyond the leg's end location when that is not behind its start. */
  function LegTarget(times: seq<int>, d: seq<real>, k: nat, tNow: int): (target: real)
    requires 2 * k + 1 < |times| && k + 1 < |d|
    ensures d[k] <= target <= d[k] + MaxR(0.0, d[k + 1] - d[k])
    ensures d[k] <= d[k + 1] ==> target <= d[k + 1]
  {
    var segDur := Max(1, times[2 * k + 1] - times[2 * k]);
    var frac := ClampR((tNow - times[2 * k]) as real / segDur as real, 0.0, 1.0);
    d[k] + Portion(frac, MaxR(0.0, d[k + 1] - d[k]))
  }

  /** The first segment from `seg` on whose end distance reaches `target`,
      or the last point's index when none does. */
  function SegIndex(cum: seq<real>, target: real, seg: nat): (r: nat)
    requires seg < |cum|
    ensures seg <= r < |cum|
    decreases |cum| - seg
  {
    if seg < |cum| - 1 && cum[seg + 1] < target then SegIndex(cum, target, seg + 1) else seg
  }

  lemma {:induction false} SegIndexIsFirst(cum: seq<real>, target: real, seg: nat)
    requires seg < |cum|
    ensures var r := SegIndex(cum, target, seg);
      && (forall i :: seg < i <= r ==> cum[i] < target)
      && (r == |cum| - 1 || target <= cum[r + 1])
    decreases |cum| - seg
  {
    if seg < |cum| - 1 && cum[seg + 1] < target {
      SegIndexIsFirst(cum, target, seg + 1);
    }
  }

  /** Linear interpolation between two coordinates: the start at t = 0 and
      the end at t = 1. */
  function Lerp(a: LatLng, b: LatLng, t: real): (p: LatLng)
    ensures t == 0.0 ==> p == a
    ensures t == 1.0 ==> p == b
  {
    LatLng(a.lat + (b.lat - a.lat) * t, a.lng + (b.lng - a.lng) * t)
  }

  ghost predicate OnSegment(p: LatLng, a: LatLng, b: LatLng)
  {
    exists t: real :: 0.0 <= t <= 1.0 && p == Lerp(a, b, t)
  }

  /** The residual fraction within the segment found for `target`. */
  function SegmentFraction(points: seq<LatLng>, cum: seq<real>, seg: nat, target: real, dist: Metric): (t: real)
    requires seg < |points| == |cum|
    ensures 0.0 <= t <= 1.0
  {
    var segLen := SegmentLength(points[seg], points[Min(seg + 1, |points| - 1)], dist);
    ClampR((target - cum[seg]) / segLen, 0.0, 1.0)
  }

  /** The point at distance `target` along the path: a point of the segment
      that starts at the point SegIndex finds. */
  function PointAtDistance(points: seq<LatLng>, cum: seq<real>, target: real, dist: Metric): (p: LatLng)
    requires 1 <= |points| == |cum|
    ensures var seg := SegIndex(cum, target, 0);
      OnSegment(p, points[seg], points[Min(seg + 1, |points| - 1)])
  {
    var seg := SegIndex(cum, target, 0);
    var t := SegmentFraction(points, cum, seg, target, dist);
    assert 0.0 <= t <= 1.0;
    Lerp(points[seg], points[Min(seg + 1, |points| - 1)], t)
  }

  /** The interpolated point lies on the first segment whose end distance
      reaches the target (the last point when none does). */
  lemma PointAtDistanceOnSegment(points: seq<LatLng>, cum: seq<real>, target: real, dist: Metric)
    requires 1 <= |points| == |cum|
    ensures var seg := SegIndex(cum, target, 0);
      && (forall i :: 0 < i <= seg ==> cum[i] < target)
      && (seg == |cum| - 1 || target <= cum[seg + 1])
      && OnSegment(PointAtDistance(points, cum, target, dist), points[seg], points[Min(seg + 1, |points| - 1)])
  {
    SegIndexIsFirst(cum, target, 0);
  }

  // ------------------------------------------------------ the position rule

  /** Where the schedule puts the vehicle: fixed at a location, moving at a
      distance along the path, or (when no leg contains the time) nowhere. */
  datatype Spot = Fixed(at: LatLng) | Moving(targetDist: real) | Unplaced

  /** The schedule always places the vehicle, either at one of the
      locations or at a distance within the span of some leg. */
  function SpotAt(tNow: int, times: seq<int>, locs: seq<LatLng>, d: seq<real>, s: nat): (spot: Spot)
    requires |times| == 2 * s + 2 && |locs| == s + 2 && |d| == s + 2
    ensures spot != Unplaced
    ensures spot.Fixed? ==> spot.at in locs
    ensures spot.Moving? ==> exists k :: 0 <= k <= s && d[k] <= spot.targetDist <= d[k] + MaxR(0.0, d[k + 1] - d[k])
  {
    if tNow <= times[0] then Fixed(locs[0])
    else if tNow >= times[2 * s + 1] then Fixed(locs[s + 1])
    else
      DwellOrLeg(tNow, times, s);
      match FirstDwell(tNow, times, s, 0)
      case Some(j) => Fixed(locs[j + 1])
      case None =>
        match FirstLeg(tNow, times, s, 0)
        case Some(k) => Moving(LegTarget(times, d, k, tNow))
        case None => Unplaced
  }

  /** How an update treats a route. */
  datatype Phase =
    | Skipped             // no routed samples yet: nothing happens
    | Finished            // zero-length schedule or progress at 100%
    | AtOrigin            // progress at 0%
    | Collapsed(at: LatLng) // the path has no length
    | Travel

  /** A route is skipped exactly while it has no routed samples; it is
      finished when its schedule has no length or the progress is complete,
      resting at the origin at zero progress, and otherwise travelling unless
      its path has no length, in which case it sits at its first point, the
      origin. */
  function PhaseOf(route: Route, base: int, frac: real, dist: Metric): (ph: Phase)
    ensures ph == Skipped <==> |route.steps| == 0
    ensures ph == Finished <==>
      |route.steps| > 0 && (RouteWindow(route, base).start == RouteWindow(route, base).end || frac >= 1.0)
    ensures ph == AtOrigin <==>
      && |route.steps| > 0
      && RouteWindow(route, base).start < RouteWindow(route, base).end
      && frac <= 0.0
    ensures ph.Collapsed? ==> ph.at == route.origin
    ensures ph == Travel <==>
      && |route.steps| > 0
      && RouteWindow(route, base).start < RouteWindow(route, base).end
      && 0.0 < frac < 1.0
      && |PathPoints(route)| >= 2
      && CumulativeDistances(PathPoints(route), dist)[|PathPoints(route)| - 1] > 0.0
    ensures ph.Collapsed? <==>
      && |route.steps| > 0
      && RouteWindow(route, base).start < RouteWindow(route, base).end
      && 0.0 < frac < 1.0
      && (|PathPoints(route)| < 2 || CumulativeDistances(PathPoints(route), dist)[|PathPoints(route)| - 1] <= 0.0)
  {
    var rw := RouteWindow(route, base);
    if |route.steps| == 0 then Skipped
    else if rw.end - rw.start == 0 || frac >= 1.0 then Finished
    else if frac <= 0.0 then AtOrigin
    else
      var pts := PathPoints(route);
      PathPointsShape(route);
      if |pts| < 2 then Collapsed(pts[0])
      else
        var cum := CumulativeDistances(pts, dist);
        if cum[|cum| - 1] <= 0.0 then Collapsed(pts[0]) else Travel
  }

  /** The rule on the schedule: before or at the departure the origin; from
      the arrival on the destination; otherwise the location of the first
      stop whose dwell window holds tNow; otherwise a distance on the first
      leg holding tNow, within that leg's span. */
  lemma SpotAtRule(tNow: int, times: seq<int>, locs: seq<LatLng>, d: seq<real>, s: nat)
    requires |times| == 2 * s + 2 && |locs| == s + 2 && |d| == s + 2
    ensures var spot := SpotAt(tNow, times, locs, d, s);
      && (tNow <= times[0] ==> spot == Fixed(locs[0]))
      && (times[0] < tNow && times[2 * s + 1] <= tNow ==> spot == Fixed(locs[s + 1]))
      && (forall j :: 0 <= j < s && times[0] < tNow < times[2 * s + 1] && Dwelling(tNow, times, j)
            && (forall i :: 0 <= i < j ==> !Dwelling(tNow, times, i))
            ==> spot == Fixed(locs[j + 1]))
      && ((times[0] < tNow < times[2 * s + 1] && forall j :: 0 <= j < s ==> !Dwelling(tNow, times, j)) ==>
            exists k :: 0 <= k <= s && InLeg(tNow, times, k) && (forall i :: 0 <= i < k ==> !InLeg(tNow, times, i))
              && spot == Moving(LegTarget(times, d, k, tNow))
              && d[k] <= spot.targetDist <= d[k] + MaxR(0.0, d[k + 1] - d[k]))
  {
    FirstDwellIsFirst(tNow, times, s, 0);
    FirstLegIsFirst(tNow, times, s, 0);
    forall j | 0 <= j < s && times[0] < tNow < times[2 * s + 1] && Dwelling(tNow, times, j)
        && (forall i :: 0 <= i < j ==> !Dwelling(tNow, times, i))
      ensures SpotAt(tNow, times, locs, d, s) == Fixed(locs[j + 1])
    {
      assert FirstDwell(tNow, times, s, 0) == Some(j);
    }
    if times[0] < tNow < times[2 * s + 1] && forall j :: 0 <= j < s ==> !Dwelling(tNow, times, j) {
      DwellOrLeg(tNow, times, s);
      var k := FirstLeg(tNow, times, s, 0).value;
      assert SpotAt(tNow, times, locs, d, s) == Moving(LegTarget(times, d, k, tNow));
    }
  }

  /** The point for a spot: a fixed location, or the point at the target
      distance along the path. */
  function SpotPoint(spot: Spot, pts: seq<LatLng>, cum: seq<real>, dist: Metric): (p: Option<LatLng>)
    requires 1 <= |pts| == |cum|
    ensures p.None? <==> spot == Unplaced
    ensures spot.Fixed? ==> p == Some(spot.at)
    ensures spot.Moving? ==> exists seg :: 0 <= seg < |pts| && OnSegment(p.value, pts[seg], pts[Min(seg + 1, |pts| - 1)])
  {
    match spot
    case Fixed(p) => Some(p)
    case Moving(target) => Some(PointAtDistance(pts, cum, target, dist))
    case Unplaced => None
  }

  /** The position rule on the schedule and the path: the origin up to the
      departure, the destination from the arrival on, the location of the
      first stop whose dwell window holds the time, and otherwise a point on
      a segment of the path. */
  lemma PositionRule(tNow: int, times: seq<int>, locs: seq<LatLng>, d: seq<real>, s: nat,
                     pts: seq<LatLng>, cum: seq<real>, dist: Metric)
    requires |times| == 2 * s + 2 && |locs| == s + 2 && |d| == s + 2
    requires 1 <= |pts| == |cum|
    ensures var p := SpotPoint(SpotAt(tNow, times, locs, d, s), pts, cum, dist);
      && p.Some?
      && (tNow <= times[0] ==> p.value == locs[0])
      && (times[0] < tNow && times[2 * s + 1] <= tNow ==> p.value == locs[s + 1])
      && (forall j :: 0 <= j < s && times[0] < tNow < times[2 * s + 1] && Dwelling(tNow, times, j)
            && (forall i :: 0 <= i < j ==> !Dwelling(tNow, times, i))
            ==> p.value == locs[j + 1])
      && ((times[0] < tNow < times[2 * s + 1] && forall j :: 0 <= j < s ==> !Dwelling(tNow, times, j)) ==>
            exists seg :: 0 <= seg < |pts| && OnSegment(p.value, pts[seg], pts[Min(seg + 1, |pts| - 1)]))
  {
    SpotAtRule(tNow, times, locs, d, s);
    var spot := SpotAt(tNow, times, locs, d, s);
    if spot.Moving? {
      PointAtDistanceOnSegment(pts, cum, spot.targetDist, dist);
      var seg := SegIndex(cum, spot.targetDist, 0);
      assert 0 <= seg < |pts| && OnSegment(SpotPoint(spot, pts, cum, dist).value, pts[seg], pts[Min(seg + 1, |pts| - 1)]);
    }
  }

  /** The position of a travelling route: always defined. */
  function TravelPosition(route: Route, base: int, now: int, dist: Metric): (p: Option<LatLng>)
    ensures p.Some?
  {
    var pts := PathPoints(route);
    var cum := CumulativeDistances(pts, dist);
    var tNow := RouteClock(now, RouteWindow(route, base));
    SpotPoint(SpotAt(tNow, Anchors(route, base), Locations(route), StopDistances(route, pts, cum, dist), |route.stops|),
              pts, cum, dist)
  }

  /** The position the update assigns to a route's marker (None: it keeps
      its position, which happens exactly while the route has no routed
      samples). A finished route is at its destination, a resting one at its
      origin. */
  function RoutePosition(route: Route, base: int, now: int, frac: real, dist: Metric): (p: Option<LatLng>)
    ensures p.None? <==> |route.steps| == 0
    ensures PhaseOf(route, base, frac, dist) == Finished ==> p == Some(route.destination)
    ensures PhaseOf(route, base, frac, dist) == AtOrigin ==> p == Some(route.origin)
  {
    match PhaseOf(route, base, frac, dist)
    case Skipped => None
    case Finished => Some(route.destination)
    case AtOrigin => Some(route.origin)
    case Collapsed(p) => Some(p)
    case Travel => TravelPosition(route, base, now, dist)
  }

  /** The position rule of a travelling route, stated on the route: the
      origin up to the departure, the destination from the arrival on, a
      stop's coordinate while dwelling in the first stop whose window holds
      the route's clock, and otherwise a point on a segment of the path. */
  lemma TravelPositionRule(route: Route, base: int, now: int, dist: Metric)
    ensures var times := Anchors(route, base);
      var tNow := RouteClock(now, RouteWindow(route, base));
      var p := TravelPosition(route, base, now, dist);
      var s := |route.stops|;
      var pts := PathPoints(route);
      && p.Some?
      && (tNow <= times[0] ==> p.value == route.origin)
      && (times[0] < tNow && times[2 * s + 1] <= tNow ==> p.value == route.destination)
      && (forall j :: 0 <= j < s && times[0] < tNow < times[2 * s + 1] && Dwelling(tNow, times, j)
            && (forall i :: 0 <= i < j ==> !Dwelling(tNow, times, i))
            ==> p.value == route.stops[j].loc)
      && ((times[0] < tNow < times[2 * s + 1] && forall j :: 0 <= j < s ==> !Dwelling(tNow, times, j)) ==>
            exists seg :: 0 <= seg < |pts| && OnSegment(p.value, pts[seg], pts[Min(seg + 1, |pts| - 1)]))
  {
    var pts := PathPoints(route);
    var cum := CumulativeDistances(pts, dist);
    PositionRule(RouteClock(now, RouteWindow(route, base)), Anchors(route, base), Locations(route),
                 StopDistances(route, pts, cum, dist), |route.stops|, pts, cum, dist);
  }

  // ------------------------------------------------ imperative computations

  /** Project every location onto the path, then correct the distances in
      place so that they never decrease. */
  method ComputeStopDistances(locs: seq<LatLng>, pts: seq<LatLng>, cum: seq<real>, dist: Metric)
    returns (d: seq<real>)
    ensures d == MonotoneFix(ProjectedDistances(locs, pts, cum, dist))
  {
    var a := new real[|locs|];
    for i := 0 to |locs|
      invariant forall k :: 0 <= k < i ==> a[k] == NearestDistance(locs[k], pts, cum, dist)
    {
      a[i] := NearestDistanceAlongPath(locs[i], pts, cum, dist);
    }
    assert a[..] == ProjectedDistances(locs, pts, cum, dist);
    EnforceMonotone(a);
    d := a[..];
  }

  /** Scan the legs in order and stop at the first one holding tNow. */
  method FindLeg(tNow: int, times: seq<int>, s: nat) returns (k: Option<nat>)
    requires |times| == 2 * s + 2
    ensures k == FirstLeg(tNow, times, s, 0)
  {
    k := None;
    var i := 0;
    while i <= s
      invariant 0 <= i <= s + 1
      invariant FirstLeg(tNow, times, s, 0) == FirstLeg(tNow, times, s, i)
    {
      if times[2 * i] <= tNow <= times[2 * i + 1] {
        k := Some(i);
        return;
      }
      i := i + 1;
    }
  }

  /** Advance over the segments whose end distance is below the target. */
  method FindSegment(cum: seq<real>, target: real) returns (seg: nat)
    requires |cum| >= 1
    ensures seg == SegIndex(cum, target, 0)
  {
    seg := 0;
    while seg < |cum| - 1 && cum[seg + 1] < target
      invariant seg < |cum|
      invariant SegIndex(cum, target, seg) == SegIndex(cum, target, 0)
    {
      seg := seg + 1;
    }
  }

  /** Interpolate the point at distance `target` along the path. */
  method InterpolateAlongPath(points: seq<LatLng>, cum: seq<real>, target: real, dist: Metric)
    returns (p: LatLng)
    requires 1 <= |points| == |cum|
    ensures p == PointAtDistance(points, cum, target, dist)
  {
    var seg := FindSegment(cum, target);
    var segStart := points[seg];
    var segEnd := points[Min(seg + 1, |points| - 1)];
    var t := SegmentFraction(points, cum, seg, target, dist);
    p := LatLng(segStart.lat + (segEnd.lat - segStart.lat) * t, segStart.lng + (segEnd.lng - segStart.lng) * t);
  }
}
