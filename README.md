# Vehicle tracking engine — a verified Dafny model

This project models the simulation engine of the route-tracking app, found in
`hooks/useVehicleTracking.ts`. On each update the engine turns a 0–100
progress value into two things:

- a position for every selected vehicle marker whose route has routed
  samples (a marker whose route has none keeps its position);
- an event log (origin departure, stop arrival, stop departure, destination
  arrival) that is written at most once between resets.

The model follows the code's four parts plus shared types. Schedule
resolution, path projection and the event tracker are one Dafny module each.
The position state machine spans two modules: `Clock` for the simulation
clock and `Placement` for the position rule.

- `Types` (`types.dfy`): coordinates, parsed `HH:mm` times, stops, routes,
  and the `Marker` class. The marker's position is the only field an update
  writes.
- `Schedule` (`schedule.dfy`): resolves times of day into absolute
  milliseconds on a base day.
  - The departure/arrival window is moved across midnight.
  - The sequential resolution of a whole schedule is a loop, proved equal to
    a recursive specification.
- `PathProjection` (`path.dfy`): builds the travel path.
  - Consecutive duplicate points are removed.
  - The cumulative distance table is built.
  - Each location is projected onto its nearest segment.
  - The projected distances are corrected in place on an array so that they
    never decrease.
- `Clock` (`clock.dfy`): maps the progress fraction into the global window
  of the active routes, and clamps each route's own clock.
- `Placement` (`placement.dfy`): the route's phase (skipped, finished, at
  origin, collapsed path, travelling) and the position rule. The position is:
  - the origin before departure;
  - the destination after arrival;
  - the first stop whose dwell window holds the clock;
  - otherwise the point at the leg's target distance, interpolated along the
    path.
- `Tracking` (`tracking.dfy`): the event stores as a value, and the `Engine`
  class.
  - One update is the function `Tick`.
  - Its methods update the stores in place, and `UpdateVehiclePositions` is
    proved to compute exactly `Tick` and the new marker positions.
  - The lemmas state that between resets each event is logged at most once,
    and is in the log exactly when its key is stored. They also state the
    threshold rules, the per-route frame and the watermark rule, per-route
    idempotence, and the reset.

Modelling choices:

- Times are integer milliseconds.
- The displayed day's local midnight, `new Date(1970, 0, 1)`, depends on the
  host time zone. It is the parameter `base`.
- The haversine distance is `dist: Metric`, any total function returning
  non-negative metres.
- `new Date(x)` of a fractional number of milliseconds truncates toward zero.
  This is modelled by `Clock.TruncateTowardZero`.
- Messages are a tagged `Event` datatype, not formatted strings.

The resolved schedule is not monotone in every case. The code compares each
time with the previous *resolved* time and adds one day at most once. So after
a second midnight crossing a later entry can be earlier than the one before
it. The model states what the code does:

- `Schedule.SequentialTimesMonotoneOnBaseDay` and
  `Schedule.SequentialTimesSorted` prove monotonicity only while the
  previous entries are on the base day;
- `Schedule.SecondCrossingRegresses` shows the input 20:00, 02:00, 01:00,
  which resolves to a decreasing pair.

## Model

| member | source | states |
|---|---|---|
| Schedule.NormalizeTime | hooks/useVehicleTracking.ts:4-13 | a time of day lands on the base day, in [base, base + 24 h) |
| Schedule.NormalizeTimeOrder | hooks/useVehicleTracking.ts:4-13 | on one day, resolved times compare exactly as (hours, minutes) do, and are equal only for equal times |
| Schedule.AdjustForMidnightCrossing | hooks/useVehicleTracking.ts:15-28 | start is the naive departure; end ≥ start; end is the naive arrival or that plus 24 h, plus 24 h exactly when the naive arrival is before the start |
| Schedule.Resolve | hooks/useVehicleTracking.ts:35-38 | an entry moves one day forward exactly when it is earlier than the previous resolved entry, and is then not earlier than it when that entry is less than a day later |
| Schedule.SequentialTimes | hooks/useVehicleTracking.ts:30-43 | the resolved schedule has as many entries as the input |
| Schedule.SequentialTimesPrefix | hooks/useVehicleTracking.ts:30-43 | resolving a prefix gives the prefix of the resolution |
| Schedule.SequentialTimesAt | hooks/useVehicleTracking.ts:30-43 | the first entry is its naive time; a later entry is its naive time plus 24 h exactly when that naive time is earlier than the previous resolved entry; every entry is its naive time or that plus 24 h |
| Schedule.SequentialTimesMonotoneOnBaseDay | hooks/useVehicleTracking.ts:30-43 | an entry is not earlier than the previous one while the previous one is on the base day |
| Schedule.SequentialTimesSorted | hooks/useVehicleTracking.ts:30-43 | with all but the last entry on the base day, the resolved schedule is sorted |
| Schedule.SecondCrossingRegresses | hooks/useVehicleTracking.ts:35-38 | 20:00, 02:00, 01:00 resolves with the third entry earlier than the second: only one day is added |
| Schedule.AdjustIsTwoEntryResolution | hooks/useVehicleTracking.ts:15-43 | the departure/arrival window equals the sequential resolution of the pair |
| Schedule.NormalizeSequentialTimes | hooks/useVehicleTracking.ts:30-43 | the loop with its `last` variable yields exactly the resolved schedule, with the +24 h rule stated per entry |
| PathProjection.Dedup | hooks/useVehicleTracking.ts:201-207 | the deduplicated path is no longer than the raw one and keeps its last point |
| PathProjection.DedupNoAdjacentDuplicates | hooks/useVehicleTracking.ts:201-207 | no two consecutive points of the result are equal |
| PathProjection.DedupKeepsFirst | hooks/useVehicleTracking.ts:201-207 | a non-empty raw path keeps its first point |
| PathProjection.DedupSamePoints | hooks/useVehicleTracking.ts:201-207 | the result holds exactly the points of the raw path |
| PathProjection.DedupOfDeduplicated | hooks/useVehicleTracking.ts:201-207 | a path without consecutive duplicates is left unchanged |
| PathProjection.DedupIdempotent | hooks/useVehicleTracking.ts:201-207 | deduplicating twice is deduplicating once |
| PathProjection.DedupPoints | hooks/useVehicleTracking.ts:199-207 | the push loop computes the deduplicated path |
| PathProjection.CumulativeDistances | hooks/useVehicleTracking.ts:227-232 | the table has one entry per point (one for an empty path) and starts at 0 |
| PathProjection.CumulativeDistancesStep | hooks/useVehicleTracking.ts:228-231 | each entry is the previous one plus the distance of that step |
| PathProjection.CumulativeDistancesMonotone | hooks/useVehicleTracking.ts:227-232 | the table is non-negative and non-decreasing |
| PathProjection.BuildCumulativeDistances | hooks/useVehicleTracking.ts:227-231 | the loop computes the cumulative distance table |
| PathProjection.SegmentParam | hooks/useVehicleTracking.ts:55-68 | the projection parameter is clamped to [0, 1] (a zero-length segment uses the 1e-12 floor) |
| PathProjection.SegmentLength | hooks/useVehicleTracking.ts:75-84 | the segment length is at least 1e-6 and at least the segment's distance |
| PathProjection.EarliestMinIsEarliestMinimum | hooks/useVehicleTracking.ts:53-86 | the kept segment has a least squared distance, and every earlier segment's is strictly larger (ties keep the earliest) |
| PathProjection.NearestSegment | hooks/useVehicleTracking.ts:53-86 | the kept segment is a segment of the path |
| PathProjection.NearestDistanceOnNearestSegment | hooks/useVehicleTracking.ts:45-90 | the result is the distance along the earliest nearest segment, between that segment's start distance and start distance plus its length |
| PathProjection.SegmentDist2 | hooks/useVehicleTracking.ts:60-73 | the squared distance to the projection is non-negative, and for a zero-length segment (norm floored at 1e-12, so t = 0) it is the squared distance to its point |
| PathProjection.CumAt | hooks/useVehicleTracking.ts:85 | `cumDist[i] ?? 0` is non-negative for a non-negative table |
| PathProjection.AlongSegment | hooks/useVehicleTracking.ts:85 | `(cumDist[i] ?? 0) + t·segLen` lies within the segment's span [cumDist[i], cumDist[i] + segLen] |
| PathProjection.EarliestMin | hooks/useVehicleTracking.ts:74 | the kept index is one of the first n segments scanned (that it is the earliest least one is `EarliestMinIsEarliestMinimum`) |
| PathProjection.NearestDistance | hooks/useVehicleTracking.ts:45-90 | 0 below two points; otherwise a distance within the span of the nearest segment |
| PathProjection.NearestDistanceNonNegative | hooks/useVehicleTracking.ts:45-90 | with a non-negative table the projected distance is non-negative |
| PathProjection.NearestDistanceAlongPath | hooks/useVehicleTracking.ts:45-90 | the segment loop keeping the strictly nearest projection computes the nearest distance, and 0 for fewer than two points |
| PathProjection.MonotoneFix | hooks/useVehicleTracking.ts:243-245 | the correction keeps the length |
| PathProjection.MonotoneFixAt | hooks/useVehicleTracking.ts:243-245 | the first entry is unchanged; each later entry is ≥ 0, ≥ its input and ≥ the corrected previous entry, and is one of those three values |
| PathProjection.MonotoneFixSorted | hooks/useVehicleTracking.ts:243-245 | the corrected distances are non-decreasing |
| PathProjection.OrderedBetween | hooks/useVehicleTracking.ts:243-245 | neighbour order extends to any two indices |
| PathProjection.EnforceMonotone | hooks/useVehicleTracking.ts:243-245 | the in-place array loop leaves the corrected distances |
| Clock.ProgressFraction | hooks/useVehicleTracking.ts:125 | the fraction lies in [0, 1], equals progress/100 inside [0, 100], and clamps outside |
| Clock.RouteWindow | hooks/useVehicleTracking.ts:157-161 | a route's window starts no later than it ends |
| Clock.WindowOf | hooks/useVehicleTracking.ts:127-140 | the global window, when present, starts no later than it ends |
| Clock.WindowOfIsHull | hooks/useVehicleTracking.ts:127-140 | there is a window exactly when some marker is active; it contains every active route's window, and its start and end are attained by active routes |
| Clock.WindowOfNone | hooks/useVehicleTracking.ts:127-140 | there is no window exactly when no marker is active |
| Clock.WindowOfContains | hooks/useVehicleTracking.ts:127-140 | the window contains every active route's window |
| Clock.WindowOfAttained | hooks/useVehicleTracking.ts:127-140 | the window's start and end are some active route's departure and arrival |
| Clock.GlobalWindow | hooks/useVehicleTracking.ts:127-140 | the bounds loop (min of starts, max of ends) computes the global window |
| Clock.TruncateTowardZero | hooks/useVehicleTracking.ts:142 | the millisecond count is the real time truncated toward zero |
| Clock.GlobalNow | hooks/useVehicleTracking.ts:141-142 | the global clock is the window's start at fraction 0 and for an empty or inverted window |
| Clock.GlobalNowInWindow | hooks/useVehicleTracking.ts:141-142 | the global clock lies in [minStart, maxEnd], is minStart at 0 and maxEnd at 1 |
| Clock.RouteClock | hooks/useVehicleTracking.ts:166-172 | the route clock is the global clock clamped to the route's window |
| Placement.RawPath | hooks/useVehicleTracking.ts:199 | origin, the routed samples, destination |
| Placement.PathPoints | hooks/useVehicleTracking.ts:199-207 | the path has at least one point |
| Placement.PathPointsShape | hooks/useVehicleTracking.ts:199-207 | the path starts at the origin, ends at the destination and has no consecutive duplicates |
| Placement.Locations | hooks/useVehicleTracking.ts:240 | origin, each stop's coordinate in order, destination |
| Placement.StopTimes | hooks/useVehicleTracking.ts:247-251 | two times per stop |
| Placement.AnchorTimes | hooks/useVehicleTracking.ts:247-251 | the anchor list has 2·stops + 2 entries |
| Placement.StopTimesAt | hooks/useVehicleTracking.ts:247-251 | entries 2j and 2j+1 are stop j's arrival and departure |
| Placement.AnchorTimesAt | hooks/useVehicleTracking.ts:247-251 | anchor 0 is the departure, anchors 2j+1 and 2j+2 are stop j's times, the last is the arrival |
| Placement.Anchors | hooks/useVehicleTracking.ts:247-252 | the resolved schedule has 2·stops + 2 anchors |
| Placement.ProjectedDistances | hooks/useVehicleTracking.ts:241 | one projected distance per location |
| Placement.StopDistances | hooks/useVehicleTracking.ts:241-245 | one corrected distance per location |
| Placement.FirstDwell | hooks/useVehicleTracking.ts:319-323 | a found dwelling stop is one of the stops scanned |
| Placement.FirstDwellIsFirst | hooks/useVehicleTracking.ts:303-323 | the scan finds the first stop whose [arrival, departure) holds the clock, or reports that none does |
| Placement.FirstLeg | hooks/useVehicleTracking.ts:331-342 | a found leg is one of the legs scanned |
| Placement.FirstLegIsFirst | hooks/useVehicleTracking.ts:331-342 | the leg scan finds the first leg whose [start, end] holds the clock, or reports that none does |
| Placement.DwellOrLeg | hooks/useVehicleTracking.ts:290-343 | a clock strictly inside the schedule is in some dwell window or some leg, sorted or not |
| Placement.LegTarget | hooks/useVehicleTracking.ts:335-339 | the target distance lies in [dStart, dStart + max(0, dEnd − dStart)], so at most dEnd when the legs are ordered |
| Placement.SegIndex | hooks/useVehicleTracking.ts:350-351 | the segment found lies between the start segment and the last point |
| Placement.SegIndexIsFirst | hooks/useVehicleTracking.ts:350-351 | the segment scan stops at the first segment whose end distance reaches the target, or at the last point |
| Placement.SegmentFraction | hooks/useVehicleTracking.ts:353-357 | the interpolation parameter is clamped to [0, 1] |
| Placement.PointAtDistance | hooks/useVehicleTracking.ts:353-361 | the interpolated point lies on the segment starting at the point the scan found |
| Placement.PointAtDistanceOnSegment | hooks/useVehicleTracking.ts:350-361 | the interpolated point lies on the segment the scan found |
| Placement.SpotAt | hooks/useVehicleTracking.ts:290-343 | the schedule always places the vehicle: at one of the locations, or at a distance within some leg's span |
| Placement.Lerp | hooks/useVehicleTracking.ts:359-360 | the interpolation starts at the first point for t = 0 and ends at the second for t = 1 |
| Placement.SpotPoint | hooks/useVehicleTracking.ts:346-361 | a spot gives a point exactly when it is placed: a fixed spot its location, a moving one a point on some path segment |
| Placement.SpotAtRule | hooks/useVehicleTracking.ts:290-343 | origin up to the departure, destination from the arrival, the first dwelling stop's location, otherwise the first leg's target within its span |
| Placement.PositionRule | hooks/useVehicleTracking.ts:290-361 | the position is always defined: origin, destination, the first dwelling stop, or a point on a path segment |
| Placement.TravelPositionRule | hooks/useVehicleTracking.ts:290-361 | the same rule stated on a route: its origin, its destination, its stop j's coordinate, or a point on a segment of its path |
| Placement.PhaseOf | hooks/useVehicleTracking.ts:153-237 | each phase exactly when its condition holds: skipped without routed samples; finished for an empty schedule or complete progress; resting at zero progress; collapsed (at the origin) for a path of fewer than two points or no length; travelling with a fraction in (0, 1), a non-empty schedule and a path of two or more points of positive length |
| Placement.TravelPosition | hooks/useVehicleTracking.ts:238-362 | a travelling route always gets a position |
| Placement.RoutePosition | hooks/useVehicleTracking.ts:153-362 | the marker keeps its position exactly when the route has no routed samples; a finished route is at its destination, a resting one at its origin |
| Placement.ComputeStopDistances | hooks/useVehicleTracking.ts:241-245 | the projection loop and the in-place correction compute the stop distances |
| Placement.FindLeg | hooks/useVehicleTracking.ts:331-342 | the leg loop with `break` finds the first leg holding the clock |
| Placement.FindSegment | hooks/useVehicleTracking.ts:350-351 | the `while` loop finds the segment of the target distance |
| Placement.InterpolateAlongPath | hooks/useVehicleTracking.ts:350-361 | the interpolation yields the point at the target distance |
| Types.ClampR | hooks/useVehicleTracking.ts:125 | clamping lands in [lo, hi] and leaves a value already inside unchanged |
| Types.Active | hooks/useVehicleTracking.ts:148 | defines the marker filter of lines 130 and 148: the marker has a route and a non-empty route id that is selected |
| Tracking.DepartureCrossed | hooks/useVehicleTracking.ts:269-271 | the origin departure fires only at or after its threshold and, with a watermark, only when the watermark is before it; it implies the arrival rule |
| Tracking.ArrivalCrossed | hooks/useVehicleTracking.ts:281-283 | the destination arrival fires only at or after its threshold and, with a watermark, only when the watermark is before it; with a watermark it is the stop rule |
| Tracking.EdgeCrossed | hooks/useVehicleTracking.ts:310-314 | defines the stop-edge rule: a watermark before the threshold and a clock at or after it |
| Tracking.EdgeCrossedOnce | hooks/useVehicleTracking.ts:310-314 | over consecutive watermark intervals a threshold is crossed in at most one, and the merged interval crosses it exactly when one of the two does |
| Tracking.ScanStops | hooks/useVehicleTracking.ts:303-324 | the stop scan only appends to the log, writes no watermark and keeps the route's stop log |
| Tracking.TravelEvents | hooks/useVehicleTracking.ts:255-327 | a travelling route's checks only append to the log and leave the route with a stop log |
| Tracking.FinishEvents | hooks/useVehicleTracking.ts:177-191 | a finished route appends at most its destination arrival, stores it exactly when stored before or its arrival was crossed, and writes no watermark |
| Tracking.RouteEvents | hooks/useVehicleTracking.ts:174-327 | one route's events only append to the log; a skipped, resting or collapsed route changes nothing |
| Tracking.FoldRoutes | hooks/useVehicleTracking.ts:147-366 | the markers' routes, in order, only append to the log |
| Tracking.Cleared | hooks/useVehicleTracking.ts:116-121 | after the reset no key and no watermark is stored; the log and the last progress stay |
| Tracking.TickNow | hooks/useVehicleTracking.ts:135-142 | the update has a clock exactly when some marker is active, and it lies within the global window |
| Tracking.Tick | hooks/useVehicleTracking.ts:108-366 | an update records the progress and only appends to the log, and appends nothing when no marker is active |
| Tracking.PositionAfter | hooks/useVehicleTracking.ts:147-362 | a marker takes its route's position when it is active, there is a clock and the route has routed samples, and keeps its position otherwise |
| Tracking.Initial | hooks/useVehicleTracking.ts:95-102 | a fresh tracker stores no key and no watermark, has progress 0 and an empty log |
| Tracking.LogOf | hooks/useVehicleTracking.ts:259 | defines the stop log read: the route's stored log, or the empty log before it is created |
| Tracking.LastTime | hooks/useVehicleTracking.ts:266 | defines the watermark read `get(id) ?? null`: None before the route's first recorded time |
| Tracking.Fire | hooks/useVehicleTracking.ts:272-275 | reporting appends the event and stores exactly its key, touching no other route and no watermark |
| Tracking.Check | hooks/useVehicleTracking.ts:268-276 | a guarded report stores its key exactly when it was stored or the threshold was crossed, and appends at most that event |
| Tracking.CheckKeepsOthers | hooks/useVehicleTracking.ts:268-276 | a guarded report changes no other key |
| Tracking.FireKeepsLog | hooks/useVehicleTracking.ts:268-276 | reporting a not-yet-stored event keeps the log duplicate-free and in step with the stores |
| Tracking.CheckKeepsLog | hooks/useVehicleTracking.ts:268-276 | a guarded report keeps the log in step with the stores |
| Tracking.ScanStopsKeepsLog | hooks/useVehicleTracking.ts:303-324 | the stop scan keeps the log duplicate-free and in step with the stores |
| Tracking.ScanStopsFrame | hooks/useVehicleTracking.ts:303-324 | the stop scan only appends, touches only this route's stop log, and leaves the watermarks, arrivals and origin departures |
| Tracking.TravelEventsKeepLog | hooks/useVehicleTracking.ts:255-327 | a travelling route's checks keep the log in step with the stores and only append |
| Tracking.EmptyLogKeepsLog | hooks/useVehicleTracking.ts:256-258 | creating the route's empty stop log stores no key |
| Tracking.WatermarkKeepsLog | hooks/useVehicleTracking.ts:327 | moving the watermark stores no key |
| Tracking.RouteEventsKeepLog | hooks/useVehicleTracking.ts:174-327 | one route's update keeps the log in step with the stores and only appends |
| Tracking.FoldRoutesKeepsLog | hooks/useVehicleTracking.ts:147-366 | all markers of an update keep the log in step with the stores and only append |
| Tracking.TickKeepsLog | hooks/useVehicleTracking.ts:108-366 | each event appears at most once since the last reset and exactly when its key is stored; the log only grows; the last progress becomes the given progress |
| Tracking.RouteEventsFrame | hooks/useVehicleTracking.ts:174-327 | other routes' keys are untouched; the watermark moves to now exactly for a travelling route strictly inside its schedule |
| Tracking.TravelEventsFrame | hooks/useVehicleTracking.ts:255-327 | the travelling checks touch only their route's keys, create its stop log, and write the watermark only inside the schedule |
| Tracking.ScanStopsFiresOnCrossing | hooks/useVehicleTracking.ts:303-324 | every appended stop event has a stop with that id that the scan reached (no earlier stop is being dwelt at, the `break` at line 322) and whose edge lies in (watermark, now] |
| Tracking.TravelEventsFireOnCrossing | hooks/useVehicleTracking.ts:264-327 | every appended event of a travelling route has its threshold crossed; a stop event comes from a stop at or before the first one being dwelt at |
| Tracking.RouteEventsFireOnlyOnCrossing | hooks/useVehicleTracking.ts:174-327 | an update appends events only for the route and only on a crossed threshold, per phase; skipped, resting and collapsed routes append nothing |
| Tracking.NoStopEventsOnFirstObservation | hooks/useVehicleTracking.ts:310-314 | without a watermark, only origin departure and destination arrival can be appended |
| Tracking.RouteEventsOriginRule | hooks/useVehicleTracking.ts:264-276 | the origin departure is stored afterwards iff it was before, or the route travels and its departure was crossed (strictly passed on a first observation) |
| Tracking.RouteEventsDestinationRule | hooks/useVehicleTracking.ts:177-288 | the destination arrival is stored afterwards iff it was before, or the route is finished or travelling and its arrival was crossed (reached on a first observation) |
| Tracking.TravelEventsCheckRules | hooks/useVehicleTracking.ts:264-288 | both rules above for the travelling checks |
| Tracking.ScanStopsCovers | hooks/useVehicleTracking.ts:303-324 | the scan stores every crossed edge of each stop up to and including the first dwelling stop, and removes no key |
| Tracking.RouteEventsStopRule | hooks/useVehicleTracking.ts:303-324 | strictly inside its schedule, a travelling route stores each crossed arrival and departure of every stop up to the first dwelling one |
| Tracking.ScanStopsQuiet | hooks/useVehicleTracking.ts:310-317 | a scan whose watermark equals now reports nothing |
| Tracking.TravelEventsIdempotent | hooks/useVehicleTracking.ts:255-327 | repeating a travelling route's checks at the same clock changes nothing |
| Tracking.RouteEventsIdempotent | hooks/useVehicleTracking.ts:174-327 | repeating a route's update at the same clock changes nothing |
| Tracking.RewindStartsAfresh | hooks/useVehicleTracking.ts:116-122 | after progress goes backwards, the update is that of a fresh tracker holding the same log |
| Tracking.Engine.constructor | hooks/useVehicleTracking.ts:93-102 | a new engine has empty stores, progress 0 and an empty log |
| Tracking.Engine.Report | hooks/useVehicleTracking.ts:272-275 | appending the message and adding the key is `Fire` |
| Tracking.Engine.ScanStopEvents | hooks/useVehicleTracking.ts:303-324 | the stop loop with `break` performs the stop scan and returns the first dwelling stop |
| Tracking.Engine.ProcessFinished | hooks/useVehicleTracking.ts:174-192 | a finished route's marker goes to the destination and the stores become `FinishEvents` |
| Tracking.Engine.TravelChecks | hooks/useVehicleTracking.ts:255-327 | stop-log creation, origin and destination checks, stop scan and watermark give `TravelEvents` and the first dwelling stop |
| Tracking.Engine.PlaceOnSchedule | hooks/useVehicleTracking.ts:290-343 | the branch chain yields the schedule's spot |
| Tracking.Engine.ProcessTravel | hooks/useVehicleTracking.ts:238-362 | events as `TravelEvents`, position as the travel position rule, or unchanged |
| Tracking.Engine.ProcessRoute | hooks/useVehicleTracking.ts:152-365 | one route: events as `RouteEvents`, marker position as `RoutePosition`, or unchanged |
| Tracking.Engine.ProcessMarker | hooks/useVehicleTracking.ts:147-152 | an active marker's route is processed as `RouteEvents`, an inactive one changes nothing, and the marker gets `PositionAfter` |
| Tracking.Engine.ProcessMarkers | hooks/useVehicleTracking.ts:147-366 | the loop over the markers gives `FoldRoutes` of the stores, and each marker gets `PositionAfter` at the global clock, aliased markers included |
| Tracking.Engine.UpdateVehiclePositions | hooks/useVehicleTracking.ts:108-366 | the whole update: the new stores are `Tick` of the old, the log stays in step since the (possibly new) reset, and every marker's position is its route's position or unchanged |

## Left out

- React plumbing (`useState`, `useRef`, `useCallback`, `setMessages`) is left out. The refs are fields of `Tracking.Engine`, and the message state is its `messages` sequence.
- The `[HH:mm]` message prefix, the message texts and the displayed time (`toLocaleTimeString`, `setCurrentTime`) are locale formatting. `Event` stands for the message; the displayed time is not modelled.
- Haversine trigonometry is left out. It is the parameter `dist`, any function returning non-negative metres.
- Floating point is left out: coordinates and distances are exact reals, and NaN and infinities do not occur. The epsilons 1e-12 and 1e-6 are kept as constants.
- `HH:mm` parsing is left out: times are parsed hours < 24 and minutes < 60. Malformed text, which gives NaN in the code, is not modelled.
- Time zones and daylight-saving shifts are left out: the base day's local midnight is the parameter `base`, and days are 24 h.
- A null marker in the marker array is not modelled: Dafny object references are non-null.
- Google Maps setup, the Directions request that fills `route.steps`, the animation loop, the display-time fallback and the UI components are not part of this model. They call into code outside this file or only display state.
- Liveness is not proved: the model does not prove that every event fires exactly once during a full 0→100 sweep. A large progress jump can skip a stop's edges, and the stop scan stops at the first dwelling stop. The model proves the at-most-once and crossing properties instead.
