/** The event tracker and the update of all markers: per-route stores of the
    events already reported, a per-route watermark of the last global time
    seen, a global reset when the progress goes backwards, and the message
    log. The stores are first described as values (one tick as a function of
    the stores before it), then kept by the Engine class, whose update is
    proved to compute exactly that function. */
module Tracking {
  import opened Types
  import opened Schedule
  import opened PathProjection
  import opened Clock
  import opened Placement

  // ------------------------------------------------------------- the stores

  /** A logged message; the text of each kind names the route (and stop). */
  datatype Event =
    | DepartedOrigin(route: string)
    | ArrivedAtStop(route: string, stop: string)
    | DepartedStop(route: string, stop: string)
    | ArrivedDestination(route: string)

  /** The stop ids whose arrival and departure a route has reported. */
  datatype StopLog = StopLog(arrivals: set<string>, departures: set<string>)

  /** Everything the tracker keeps between updates. */
  datatype Stores = Stores(
    lastProgress: real,
    arrived: set<string>,
    stopLogs: map<string, StopLog>,
    lastTime: map<string, int>,
    originDepartures: set<string>,
    messages: seq<Event>)

  const EmptyLog := StopLog({}, {})

  /** The stores of a fresh tracker: no key, no watermark, progress 0 and
      an empty log. */
  function Initial(): (r: Stores)
    ensures forall e :: !Recorded(r, e)
    ensures forall k :: LastTime(r, k).None?
    ensures r.lastProgress == 0.0 && r.messages == []
  {
    Stores(0.0, {}, map[], map[], {}, [])
  }

  function LogOf(st: Stores, r: string): StopLog
  {
    if r in st.stopLogs then st.stopLogs[r] else EmptyLog
  }

  /** The watermark of a route; None before its first recorded time. */
  function LastTime(st: Stores, r: string): Option<int>
  {
    if r in st.lastTime then Some(st.lastTime[r]) else None
  }

  /** Whether the key of an event is in its store. */
  predicate Recorded(st: Stores, e: Event)
  {
    match e
    case DepartedOrigin(r) => r in st.originDepartures
    case ArrivedAtStop(r, s) => s in LogOf(st, r).arrivals
    case DepartedStop(r, s) => s in LogOf(st, r).departures
    case ArrivedDestination(r) => r in st.arrived
  }

  /** What the stores hold about one route. */
  datatype RouteKeys = RouteKeys(arrived: bool, log: StopLog, last: Option<int>, departed: bool)

  function KeysOf(st: Stores, r: string): RouteKeys
  {
    RouteKeys(r in st.arrived, LogOf(st, r), LastTime(st, r), r in st.originDepartures)
  }

  /** Report an event: append its message and add its key to its store. */
  function Fire(st: Stores, e: Event): (r: Stores)
    ensures r.messages == st.messages + [e]
    ensures forall x :: Recorded(r, x) <==> Recorded(st, x) || x == e
    ensures forall k :: k != e.route ==> KeysOf(r, k) == KeysOf(st, k)
    ensures r.lastProgress == st.lastProgress && r.lastTime == st.lastTime
    ensures e.route in st.stopLogs ==> e.route in r.stopLogs
  {
    var st1 := st.(messages := st.messages + [e]);
    match e
    case DepartedOrigin(id) => st1.(originDepartures := st.originDepartures + {id})
    case ArrivedAtStop(id, s) =>
      var log := LogOf(st, id);
      st1.(stopLogs := st.stopLogs[id := log.(arrivals := log.arrivals + {s})])
    case DepartedStop(id, s) =>
      var log := LogOf(st, id);
      st1.(stopLogs := st.stopLogs[id := log.(departures := log.departures + {s})])
    case ArrivedDestination(id) => st1.(arrived := st.arrived + {id})
  }

  /** Report an event when its threshold was crossed and it is not yet
      stored; otherwise change nothing. */
  function Check(st: Stores, e: Event, crossed: bool): (r: Stores)
    ensures st.messages <= r.messages
    ensures forall k :: k != e.route ==> KeysOf(r, k) == KeysOf(st, k)
    ensures r.lastProgress == st.lastProgress && r.lastTime == st.lastTime
    ensures e.route in st.stopLogs ==> e.route in r.stopLogs
    ensures Recorded(r, e) <==> Recorded(st, e) || crossed
    ensures r == st || r.messages == st.messages + [e]
  {
    if crossed && !Recorded(st, e) then Fire(st, e) else st
  }

  /** A check stores no key but its own event's. */
  lemma CheckKeepsOthers(st: Stores, e: Event, crossed: bool)
    ensures forall x :: x != e ==> (Recorded(Check(st, e, crossed), x) <==> Recorded(st, x))
  {
  }

  // ------------------------------------------------------------ thresholds

  /** Origin departure: on a first observation the clock must be strictly
      past the threshold, afterwards the threshold must be crossed. */
  predicate DepartureCrossed(last: Option<int>, threshold: int, now: int)
    ensures DepartureCrossed(last, threshold, now) ==> now >= threshold && (last.Some? ==> last.value < threshold)
    ensures DepartureCrossed(last, threshold, now) ==> ArrivalCrossed(last, threshold, now)
  {
    match last
    case None => now > threshold
    case Some(l) => l < threshold && now >= threshold
  }

  /** Destination arrival: on a first observation reaching the threshold is
      enough, afterwards it must be crossed. */
  predicate ArrivalCrossed(last: Option<int>, threshold: int, now: int)
    ensures ArrivalCrossed(last, threshold, now) ==> now >= threshold && (last.Some? ==> last.value < threshold)
    ensures last.Some? ==> (ArrivalCrossed(last, threshold, now) <==> EdgeCrossed(last, threshold, now))
  {
    match last
    case None => now >= threshold
    case Some(l) => l < threshold && now >= threshold
  }

  /** Stop events need a previous observation before the threshold. */
  predicate EdgeCrossed(last: Option<int>, threshold: int, now: int)
  {
    last.Some? && last.value < threshold && now >= threshold
  }

  /** Over consecutive watermark intervals (a, b] and (b, c] a threshold is
      crossed in at most one of them, and crossing it in the merged interval
      (a, c] is crossing it in one of the two. */
  lemma EdgeCrossedOnce(a: int, b: int, c: int, t: int)
    requires a <= b <= c
    ensures !(EdgeCrossed(Some(a), t, b) && EdgeCrossed(Some(b), t, c))
    ensures EdgeCrossed(Some(a), t, c) <==> EdgeCrossed(Some(a), t, b) || EdgeCrossed(Some(b), t, c)
  {
  }

  // ----------------------------------------------------- events of one route

  /** The stop scan from stop j on: report the arrival and the departure of
      each stop whose edge was crossed, and stop after the first stop whose
      dwell window holds the route clock. It only appends to the log and
      writes no watermark. */
  function ScanStops(st: Stores, id: string, stops: seq<Stop>, times: seq<int>, last: Option<int>,
                     now: int, tNow: int, j: nat): (r: Stores)
    requires |times| == 2 * |stops| + 2 && j <= |stops|
    ensures st.messages <= r.messages
    ensures r.lastTime == st.lastTime && r.lastProgress == st.lastProgress
    ensures id in st.stopLogs ==> id in r.stopLogs
    decreases |stops| - j
  {
    if j == |stops| then st
    else
      var sid := stops[j].id;
      var st1 := Check(st, ArrivedAtStop(id, sid), EdgeCrossed(last, times[2 * j + 1], now));
      var st2 := Check(st1, DepartedStop(id, sid), EdgeCrossed(last, times[2 * j + 2], now));
      if times[2 * j + 1] <= tNow < times[2 * j + 2] then st2
      else ScanStops(st2, id, stops, times, last, now, tNow, j + 1)
  }

  /** A travelling route with schedule `times`: create its stop log, check
      the origin departure and the destination arrival against the global
      clock, and strictly inside the schedule scan the stops and move the
      watermark to now. Afterwards the route has a stop log, and the log has
      only grown. */
  function TravelEvents(st: Stores, id: string, stops: seq<Stop>, times: seq<int>, now: int, tNow: int): (r: Stores)
    requires |times| == 2 * |stops| + 2
    ensures st.messages <= r.messages
    ensures r.lastProgress == st.lastProgress
    ensures id in r.stopLogs
  {
    var s := |stops|;
    var last := LastTime(st, id);
    var st1 := if id in st.stopLogs then st else st.(stopLogs := st.stopLogs[id := EmptyLog]);
    var st2 := Check(st1, DepartedOrigin(id), DepartureCrossed(last, times[0], now));
    var st3 := Check(st2, ArrivedDestination(id), ArrivalCrossed(last, times[2 * s + 1], now));
    if tNow <= times[0] || tNow >= times[2 * s + 1] then st3
    else
      var st4 := ScanStops(st3, id, stops, times, last, now, tNow, 0);
      st4.(lastTime := st4.lastTime[id := now])
  }

  /** A finished route: only the destination arrival, and no watermark. */
  function FinishEvents(st: Stores, id: string, times: seq<int>, now: int): (r: Stores)
    requires |times| >= 1
    ensures r == st || r.messages == st.messages + [ArrivedDestination(id)]
    ensures Recorded(r, ArrivedDestination(id))
            <==> Recorded(st, ArrivedDestination(id)) || ArrivalCrossed(LastTime(st, id), times[|times| - 1], now)
    ensures r.lastTime == st.lastTime && r.lastProgress == st.lastProgress
  {
    Check(st, ArrivedDestination(id), ArrivalCrossed(LastTime(st, id), times[|times| - 1], now))
  }

  /** The events of one active route in one update: the log only grows, and
      a route that is neither finished nor travelling changes nothing. */
  function RouteEvents(st: Stores, route: Route, base: int, now: int, frac: real, dist: Metric): (r: Stores)
    ensures st.messages <= r.messages && r.lastProgress == st.lastProgress
    ensures PhaseOf(route, base, frac, dist) != Finished && PhaseOf(route, base, frac, dist) != Travel ==> r == st
  {
    var times := Anchors(route, base);
    match PhaseOf(route, base, frac, dist)
    case Finished => FinishEvents(st, route.id, times, now)
    case Travel => TravelEvents(st, route.id, route.stops, times, now, RouteClock(now, RouteWindow(route, base)))
    case _ => st
  }

  // ------------------------------------------------------------- one update

  /** The routes of the first n markers, in marker order; the log only grows. */
  function FoldRoutes(st: Stores, markers: seq<Marker>, n: nat, selected: set<string>, base: int,
                      now: int, frac: real, dist: Metric): (r: Stores)
    requires n <= |markers|
    ensures st.messages <= r.messages && r.lastProgress == st.lastProgress
  {
    if n == 0 then st
    else
      var prev := FoldRoutes(st, markers, n - 1, selected, base, now, frac, dist);
      var m := markers[n - 1];
      if Active(m, selected) then RouteEvents(prev, m.route.value, base, now, frac, dist) else prev
  }

  /** The reset: all four stores emptied; the log and the last progress stay. */
  function Cleared(st: Stores): (r: Stores)
    ensures forall e :: !Recorded(r, e)
    ensures forall k :: LastTime(r, k).None?
    ensures r.messages == st.messages && r.lastProgress == st.lastProgress
  {
    st.(arrived := {}, stopLogs := map[], lastTime := map[], originDepartures := {})
  }

  /** The global clock of an update: present exactly when some marker is
      active, and then within the global window. */
  function TickNow(markers: seq<Marker>, selected: set<string>, base: int, progress: real): (now: Option<int>)
    ensures now.Some? <==> exists k :: 0 <= k < |markers| && Active(markers[k], selected)
    ensures now.Some? ==> var w := WindowOf(markers, |markers|, selected, base);
      w.Some? && w.value.start <= now.value <= w.value.end
  {
    WindowOfIsHull(markers, |markers|, selected, base);
    match WindowOf(markers, |markers|, selected, base)
    case None => None
    case Some(w) =>
      GlobalNowInWindow(w, ProgressFraction(progress));
      Some(GlobalNow(w, ProgressFraction(progress)))
  }

  /** One update of the tracker: it records the progress, only appends to
      the log, and appends nothing when no marker is active. */
  function Tick(st: Stores, progress: real, markers: seq<Marker>, selected: set<string>, base: int,
                dist: Metric): (r: Stores)
    ensures r.lastProgress == progress
    ensures st.messages <= r.messages
    ensures TickNow(markers, selected, base, progress).None? ==> r.messages == st.messages
  {
    var st1 := (if progress < st.lastProgress then Cleared(st) else st).(lastProgress := progress);
    match TickNow(markers, selected, base, progress)
    case None => st1
    case Some(now) => FoldRoutes(st1, markers, |markers|, selected, base, now, ProgressFraction(progress), dist)
  }

  /** The position a marker has after an update, given its position before:
      the route's position when the marker is active, the update has a clock
      and the route has routed samples, and otherwise the old position. */
  function PositionAfter(m: Marker, pos: LatLng, now: Option<int>, frac: real, selected: set<string>,
                         base: int, dist: Metric): (p: LatLng)
    ensures now.Some? && Active(m, selected) && |m.route.value.steps| > 0 ==>
      Some(p) == RoutePosition(m.route.value, base, now.value, frac, dist)
    ensures !(now.Some? && Active(m, selected) && |m.route.value.steps| > 0) ==> p == pos
  {
    if now.Some? && Active(m, selected) then
      match RoutePosition(m.route.value, base, now.value, frac, dist)
      case Some(p) => p
      case None => pos
    else pos
  }

  // ------------------------------------------------------ at-most-once log

  /** Since the reset at index epoch of the log, the log holds each event at
      most once, and an event is in it exactly when its key is stored. */
  ghost predicate LogMatches(st: Stores, epoch: nat)
  {
    && epoch <= |st.messages|
    && (forall i, j :: epoch <= i < j < |st.messages| ==> st.messages[i] != st.messages[j])
    && (forall e :: Recorded(st, e) <==> e in st.messages[epoch..])
  }

  /** Reporting an event that is not yet stored keeps the log matching. */
  lemma FireKeepsLog(st: Stores, e: Event, epoch: nat)
    requires LogMatches(st, epoch) && !Recorded(st, e)
    ensures LogMatches(Fire(st, e), epoch)
  {
    var r := Fire(st, e);
    assert r.messages[epoch..] == st.messages[epoch..] + [e];
    forall i, j | epoch <= i < j < |r.messages| ensures r.messages[i] != r.messages[j] {
      if j == |st.messages| {
        assert st.messages[i] in st.messages[epoch..];
      }
    }
  }

  lemma CheckKeepsLog(st: Stores, e: Event, crossed: bool, epoch: nat)
    requires LogMatches(st, epoch)
    ensures LogMatches(Check(st, e, crossed), epoch)
  {
    if crossed && !Recorded(st, e) {
      FireKeepsLog(st, e, epoch);
    }
  }

  /** The stop scan keeps the log matching. */
  lemma {:induction false} ScanStopsKeepsLog(st: Stores, id: string, stops: seq<Stop>, times: seq<int>,
                                             last: Option<int>, now: int, tNow: int, j: nat, epoch: nat)
    requires |times| == 2 * |stops| + 2 && j <= |stops|
    requires LogMatches(st, epoch)
    ensures LogMatches(ScanStops(st, id, stops, times, last, now, tNow, j), epoch)
    decreases |stops| - j
  {
    if j < |stops| {
      var sid := stops[j].id;
      CheckKeepsLog(st, ArrivedAtStop(id, sid), EdgeCrossed(last, times[2 * j + 1], now), epoch);
      var st1 := Check(st, ArrivedAtStop(id, sid), EdgeCrossed(last, times[2 * j + 1], now));
      CheckKeepsLog(st1, DepartedStop(id, sid), EdgeCrossed(last, times[2 * j + 2], now), epoch);
      var st2 := Check(st1, DepartedStop(id, sid), EdgeCrossed(last, times[2 * j + 2], now));
      if !(times[2 * j + 1] <= tNow < times[2 * j + 2]) {
        ScanStopsKeepsLog(st2, id, stops, times, last, now, tNow, j + 1, epoch);
      }
    }
  }

  /** The stop scan only appends to the log, touches no other route's keys,
      and leaves the watermarks, the arrivals and the origin departures. */
  lemma {:induction false} ScanStopsFrame(st: Stores, id: string, stops: seq<Stop>, times: seq<int>,
                                          last: Option<int>, now: int, tNow: int, j: nat)
    requires |times| == 2 * |stops| + 2 && j <= |stops|
    ensures var r := ScanStops(st, id, stops, times, last, now, tNow, j);
      && st.messages <= r.messages
      && r.lastProgress == st.lastProgress && r.lastTime == st.lastTime
      && r.arrived == st.arrived && r.originDepartures == st.originDepartures
      && (id in st.stopLogs ==> id in r.stopLogs)
      && (forall k :: k != id ==> KeysOf(r, k) == KeysOf(st, k))
    decreases |stops| - j
  {
    if j < |stops| {
      var sid := stops[j].id;
      var st1 := Check(st, ArrivedAtStop(id, sid), EdgeCrossed(last, times[2 * j + 1], now));
      var st2 := Check(st1, DepartedStop(id, sid), EdgeCrossed(last, times[2 * j + 2], now));
      if !(times[2 * j + 1] <= tNow < times[2 * j + 2]) {
        ScanStopsFrame(st2, id, stops, times, last, now, tNow, j + 1);
      }
    }
  }

  /** One route's events keep the log matching and only append to it. */
  lemma RouteEventsKeepLog(st: Stores, route: Route, base: int, now: int, frac: real, dist: Metric, epoch: nat)
    requires LogMatches(st, epoch)
    ensures var r := RouteEvents(st, route, base, now, frac, dist);
      && LogMatches(r, epoch)
      && st.messages <= r.messages
      && r.lastProgress == st.lastProgress
  {
    var times := Anchors(route, base);
    match PhaseOf(route, base, frac, dist)
    case Finished =>
      CheckKeepsLog(st, ArrivedDestination(route.id), ArrivalCrossed(LastTime(st, route.id), times[|times| - 1], now), epoch);
    case Travel =>
      TravelEventsKeepLog(st, route.id, route.stops, times, now, RouteClock(now, RouteWindow(route, base)), epoch);
    case _ =>
  }

  lemma TravelEventsKeepLog(st: Stores, id: string, stops: seq<Stop>, times: seq<int>, now: int, tNow: int, epoch: nat)
    requires |times| == 2 * |stops| + 2
    requires LogMatches(st, epoch)
    ensures var r := TravelEvents(st, id, stops, times, now, tNow);
      && LogMatches(r, epoch)
      && st.messages <= r.messages
      && r.lastProgress == st.lastProgress
  {
    var s := |stops|;
    var last := LastTime(st, id);
    var st1 := if id in st.stopLogs then st else st.(stopLogs := st.stopLogs[id := EmptyLog]);
    if id !in st.stopLogs {
      EmptyLogKeepsLog(st, id, epoch);
    }
    CheckKeepsLog(st1, DepartedOrigin(id), DepartureCrossed(last, times[0], now), epoch);
    var st2 := Check(st1, DepartedOrigin(id), DepartureCrossed(last, times[0], now));
    CheckKeepsLog(st2, ArrivedDestination(id), ArrivalCrossed(last, times[2 * s + 1], now), epoch);
    var st3 := Check(st2, ArrivedDestination(id), ArrivalCrossed(last, times[2 * s + 1], now));
    if !(tNow <= times[0] || tNow >= times[2 * s + 1]) {
      ScanStopsKeepsLog(st3, id, stops, times, last, now, tNow, 0, epoch);
      ScanStopsFrame(st3, id, stops, times, last, now, tNow, 0);
      var st4 := ScanStops(st3, id, stops, times, last, now, tNow, 0);
      WatermarkKeepsLog(st4, id, now, epoch);
    }
  }

  /** Creating an empty stop log stores no key. */
  lemma EmptyLogKeepsLog(st: Stores, id: string, epoch: nat)
    requires LogMatches(st, epoch) && id !in st.stopLogs
    ensures LogMatches(st.(stopLogs := st.stopLogs[id := EmptyLog]), epoch)
  {
    var r := st.(stopLogs := st.stopLogs[id := EmptyLog]);
    forall x ensures Recorded(r, x) == Recorded(st, x) {
    }
  }

  /** Moving a watermark stores no key. */
  lemma WatermarkKeepsLog(st: Stores, id: string, now: int, epoch: nat)
    requires LogMatches(st, epoch)
    ensures LogMatches(st.(lastTime := st.lastTime[id := now]), epoch)
  {
    var r := st.(lastTime := st.lastTime[id := now]);
    forall x ensures Recorded(r, x) == Recorded(st, x) {
    }
  }

  /** All routes of an update keep the log matching and only append to it. */
  lemma {:induction false} FoldRoutesKeepsLog(st: Stores, markers: seq<Marker>, n: nat, selected: set<string>,
                                              base: int, now: int, frac: real, dist: Metric, epoch: nat)
    requires n <= |markers|
    requires LogMatches(st, epoch)
    ensures var r := FoldRoutes(st, markers, n, selected, base, now, frac, dist);
      && LogMatches(r, epoch)
      && st.messages <= r.messages
      && r.lastProgress == st.lastProgress
  {
    if n > 0 {
      FoldRoutesKeepsLog(st, markers, n - 1, selected, base, now, frac, dist, epoch);
      var prev := FoldRoutes(st, markers, n - 1, selected, base, now, frac, dist);
      var m := markers[n - 1];
      if Active(m, selected) {
        RouteEventsKeepLog(prev, m.route.value, base, now, frac, dist, epoch);
      }
    }
  }

  /** Where the log's current epoch starts after an update. */
  function TickEpoch(st: Stores, progress: real, epoch: nat): nat
  {
    if progress < st.lastProgress then |st.messages| else epoch
  }

  /** Each event is reported at most once between resets, and reported
      exactly when its key is stored; the log only grows; the update leaves
      the progress it was given as the last progress. */
  lemma TickKeepsLog(st: Stores, progress: real, markers: seq<Marker>, selected: set<string>, base: int,
                     dist: Metric, epoch: nat)
    requires LogMatches(st, epoch)
    ensures var r := Tick(st, progress, markers, selected, base, dist);
      && LogMatches(r, TickEpoch(st, progress, epoch))
      && st.messages <= r.messages
      && r.lastProgress == progress
  {
    var st1 := (if progress < st.lastProgress then Cleared(st) else st).(lastProgress := progress);
    var ep := TickEpoch(st, progress, epoch);
    assert LogMatches(st1, ep) by {
      if progress < st.lastProgress {
        assert st1.messages[ep..] == [];
        assert forall e :: !Recorded(st1, e);
      } else {
        assert forall e :: Recorded(st1, e) == Recorded(st, e);
      }
    }
    match TickNow(markers, selected, base, progress)
    case None =>
    case Some(now) =>
      FoldRoutesKeepsLog(st1, markers, |markers|, selected, base, now, ProgressFraction(progress), dist, ep);
  }

  // ------------------------------------------------ what the events mean

  /** What one route's update does to the stores: other routes' keys stay,
      and the watermark moves to the global clock exactly when the route
      travels and its clock is strictly inside its schedule. */
  lemma RouteEventsFrame(st: Stores, route: Route, base: int, now: int, frac: real, dist: Metric)
    ensures var r := RouteEvents(st, route, base, now, frac, dist);
      var times := Anchors(route, base);
      var tNow := RouteClock(now, RouteWindow(route, base));
      && (forall k :: k != route.id ==> KeysOf(r, k) == KeysOf(st, k))
      && r.lastTime == (if PhaseOf(route, base, frac, dist) == Travel && times[0] < tNow < times[|times| - 1]
                        then st.lastTime[route.id := now] else st.lastTime)
  {
    var times := Anchors(route, base);
    if PhaseOf(route, base, frac, dist) == Travel {
      TravelEventsFrame(st, route.id, route.stops, times, now, RouteClock(now, RouteWindow(route, base)));
    }
  }

  lemma TravelEventsFrame(st: Stores, id: string, stops: seq<Stop>, times: seq<int>, now: int, tNow: int)
    requires |times| == 2 * |stops| + 2
    ensures var r := TravelEvents(st, id, stops, times, now, tNow);
      && (forall k :: k != id ==> KeysOf(r, k) == KeysOf(st, k))
      && r.lastTime == (if times[0] < tNow < times[|times| - 1] then st.lastTime[id := now] else st.lastTime)
      && id in r.stopLogs
  {
    var s := |stops|;
    var last := LastTime(st, id);
    var st1 := if id in st.stopLogs then st else st.(stopLogs := st.stopLogs[id := EmptyLog]);
    var st2 := Check(st1, DepartedOrigin(id), DepartureCrossed(last, times[0], now));
    var st3 := Check(st2, ArrivedDestination(id), ArrivalCrossed(last, times[2 * s + 1], now));
    ChecksFrame(st, id, DepartureCrossed(last, times[0], now), ArrivalCrossed(last, times[2 * s + 1], now));
    if !(tNow <= times[0] || tNow >= times[2 * s + 1]) {
      ScanStopsFrame(st3, id, stops, times, last, now, tNow, 0);
      var st4 := ScanStops(st3, id, stops, times, last, now, tNow, 0);
      WatermarkFrame(st4, id, now);
    }
  }

  /** The stop-log creation and the two route checks touch only this
      route's keys, write no watermark and leave the route a stop log. */
  lemma ChecksFrame(st: Stores, id: string, c1: bool, c2: bool)
    ensures var st1 := if id in st.stopLogs then st else st.(stopLogs := st.stopLogs[id := EmptyLog]);
      var r := Check(Check(st1, DepartedOrigin(id), c1), ArrivedDestination(id), c2);
      && (forall k :: k != id ==> KeysOf(r, k) == KeysOf(st, k))
      && r.lastTime == st.lastTime
      && id in r.stopLogs
  {
    var st1 := if id in st.stopLogs then st else st.(stopLogs := st.stopLogs[id := EmptyLog]);
    assert forall k :: k != id ==> KeysOf(st1, k) == KeysOf(st, k);
  }

  /** Moving a route's watermark touches no other route's keys. */
  lemma WatermarkFrame(st: Stores, id: string, now: int)
    ensures forall k :: k != id ==> KeysOf(st.(lastTime := st.lastTime[id := now]), k) == KeysOf(st, k)
  {
  }

  /** A stop event some stop j from j0 on justifies: the scan reached stop j
      (the route dwells at none of the stops j0 .. j - 1), the route's
      watermark was before the stop's arrival (departure) and the global
      clock has reached it. */
  ghost predicate StopEdge(e: Event, id: string, stops: seq<Stop>, times: seq<int>, last: Option<int>, now: int,
                           tNow: int, j0: nat)
    requires |times| == 2 * |stops| + 2
  {
    match e
    case ArrivedAtStop(r, sid) =>
      r == id && exists j :: j0 <= j < |stops| && Reached(tNow, times, j0, j) && stops[j].id == sid
                             && EdgeCrossed(last, times[2 * j + 1], now)
    case DepartedStop(r, sid) =>
      r == id && exists j :: j0 <= j < |stops| && Reached(tNow, times, j0, j) && stops[j].id == sid
                             && EdgeCrossed(last, times[2 * j + 2], now)
    case _ => false
  }

  /** A scan from stop j0 reaches stop j: it dwells at none of the stops before j. */
  ghost predicate Reached(tNow: int, times: seq<int>, j0: nat, j: nat)
    requires 2 * j + 2 < |times|
  {
    forall i :: j0 <= i < j ==> !Dwelling(tNow, times, i)
  }

  /** Every message the stop scan appends is a crossed stop edge. */
  lemma {:induction false} ScanStopsFiresOnCrossing(st: Stores, id: string, stops: seq<Stop>, times: seq<int>,
                                                    last: Option<int>, now: int, tNow: int, j: nat)
    requires |times| == 2 * |stops| + 2 && j <= |stops|
    ensures var r := ScanStops(st, id, stops, times, last, now, tNow, j);
      forall i :: |st.messages| <= i < |r.messages| ==> StopEdge(r.messages[i], id, stops, times, last, now, tNow, j)
    decreases |stops| - j
  {
    var r := ScanStops(st, id, stops, times, last, now, tNow, j);
    if j < |stops| {
      var sid := stops[j].id;
      var st1 := Check(st, ArrivedAtStop(id, sid), EdgeCrossed(last, times[2 * j + 1], now));
      var st2 := Check(st1, DepartedStop(id, sid), EdgeCrossed(last, times[2 * j + 2], now));
      ScanStopsFrame(st2, id, stops, times, last, now, tNow, j + 1);
      if !(times[2 * j + 1] <= tNow < times[2 * j + 2]) {
        ScanStopsFiresOnCrossing(st2, id, stops, times, last, now, tNow, j + 1);
      }
      forall i | |st.messages| <= i < |r.messages| ensures StopEdge(r.messages[i], id, stops, times, last, now, tNow, j) {
        if i < |st1.messages| {
          assert r.messages[i] == ArrivedAtStop(id, sid);
        } else if i < |st2.messages| {
          assert r.messages[i] == DepartedStop(id, sid);
        } else {
          assert StopEdge(r.messages[i], id, stops, times, last, now, tNow, j + 1);
        }
      }
    }
  }

  /** The reason a travelling route may append an event. */
  ghost predicate TravelJustified(e: Event, id: string, stops: seq<Stop>, times: seq<int>, last: Option<int>,
                                  now: int, tNow: int)
    requires |times| == 2 * |stops| + 2
  {
    match e
    case DepartedOrigin(r) => r == id && DepartureCrossed(last, times[0], now)
    case ArrivedDestination(r) => r == id && ArrivalCrossed(last, times[|times| - 1], now)
    case _ => times[0] < tNow < times[|times| - 1] && StopEdge(e, id, stops, times, last, now, tNow, 0)
  }

  lemma TravelEventsFireOnCrossing(st: Stores, id: string, stops: seq<Stop>, times: seq<int>, now: int, tNow: int)
    requires |times| == 2 * |stops| + 2
    ensures var r := TravelEvents(st, id, stops, times, now, tNow);
      && st.messages <= r.messages
      && forall i :: |st.messages| <= i < |r.messages| ==>
           TravelJustified(r.messages[i], id, stops, times, LastTime(st, id), now, tNow)
  {
    var r := TravelEvents(st, id, stops, times, now, tNow);
    var s := |stops|;
    var last := LastTime(st, id);
    var st1 := if id in st.stopLogs then st else st.(stopLogs := st.stopLogs[id := EmptyLog]);
    var st2 := Check(st1, DepartedOrigin(id), DepartureCrossed(last, times[0], now));
    var st3 := Check(st2, ArrivedDestination(id), ArrivalCrossed(last, times[2 * s + 1], now));
    var inside := !(tNow <= times[0] || tNow >= times[2 * s + 1]);
    if inside {
      ScanStopsFrame(st3, id, stops, times, last, now, tNow, 0);
      ScanStopsFiresOnCrossing(st3, id, stops, times, last, now, tNow, 0);
    }
    forall i | |st.messages| <= i < |r.messages|
      ensures TravelJustified(r.messages[i], id, stops, times, last, now, tNow)
    {
      if i < |st2.messages| {
        assert r.messages[i] == DepartedOrigin(id);
      } else if i < |st3.messages| {
        assert r.messages[i] == ArrivedDestination(id);
      } else {
        assert inside;
        assert StopEdge(r.messages[i], id, stops, times, last, now, tNow, 0);
      }
    }
  }

  /** An update appends an event for a route only when its threshold was
      crossed: a finished route only its destination arrival; a travelling
      route its origin departure, its destination arrival, or a stop edge
      crossed since the watermark while its clock is strictly inside its
      schedule. Skipped, resting and collapsed routes append nothing. */
  lemma RouteEventsFireOnlyOnCrossing(st: Stores, route: Route, base: int, now: int, frac: real, dist: Metric)
    ensures var r := RouteEvents(st, route, base, now, frac, dist);
      var times := Anchors(route, base);
      var last := LastTime(st, route.id);
      && st.messages <= r.messages
      && forall i :: |st.messages| <= i < |r.messages| ==>
           match PhaseOf(route, base, frac, dist)
           case Finished => r.messages[i] == ArrivedDestination(route.id) && ArrivalCrossed(last, times[|times| - 1], now)
           case Travel => TravelJustified(r.messages[i], route.id, route.stops, times, last, now,
                                          RouteClock(now, RouteWindow(route, base)))
           case _ => false
  {
    if PhaseOf(route, base, frac, dist) == Travel {
      TravelEventsFireOnCrossing(st, route.id, route.stops, Anchors(route, base), now,
                                 RouteClock(now, RouteWindow(route, base)));
    }
  }

  /** Stop events never fire on a route's first observation. */
  lemma NoStopEventsOnFirstObservation(st: Stores, route: Route, base: int, now: int, frac: real, dist: Metric)
    requires route.id !in st.lastTime
    ensures var r := RouteEvents(st, route, base, now, frac, dist);
      forall i :: |st.messages| <= i < |r.messages| ==> r.messages[i].DepartedOrigin? || r.messages[i].ArrivedDestination?
  {
    RouteEventsFireOnlyOnCrossing(st, route, base, now, frac, dist);
  }

  /** The origin departure is stored after an update exactly when it was
      stored before or the route travels and the global clock crossed its
      departure (strictly past it on a first observation). */
  lemma RouteEventsOriginRule(st: Stores, route: Route, base: int, now: int, frac: real, dist: Metric)
    ensures Recorded(RouteEvents(st, route, base, now, frac, dist), DepartedOrigin(route.id))
      <==> Recorded(st, DepartedOrigin(route.id))
           || (PhaseOf(route, base, frac, dist) == Travel
               && DepartureCrossed(LastTime(st, route.id), Anchors(route, base)[0], now))
  {
    if PhaseOf(route, base, frac, dist) == Travel {
      TravelEventsCheckRules(st, route.id, route.stops, Anchors(route, base), now,
                             RouteClock(now, RouteWindow(route, base)));
    }
  }

  /** The destination arrival is stored after an update exactly when it was
      stored before or the route is finished or travelling and the global
      clock crossed its arrival (reached it on a first observation). */
  lemma RouteEventsDestinationRule(st: Stores, route: Route, base: int, now: int, frac: real, dist: Metric)
    ensures var times := Anchors(route, base);
      Recorded(RouteEvents(st, route, base, now, frac, dist), ArrivedDestination(route.id))
      <==> Recorded(st, ArrivedDestination(route.id))
           || ((PhaseOf(route, base, frac, dist) == Finished || PhaseOf(route, base, frac, dist) == Travel)
               && ArrivalCrossed(LastTime(st, route.id), times[|times| - 1], now))
  {
    if PhaseOf(route, base, frac, dist) == Travel {
      TravelEventsCheckRules(st, route.id, route.stops, Anchors(route, base), now,
                             RouteClock(now, RouteWindow(route, base)));
    }
  }

  lemma TravelEventsCheckRules(st: Stores, id: string, stops: seq<Stop>, times: seq<int>, now: int, tNow: int)
    requires |times| == 2 * |stops| + 2
    ensures var r := TravelEvents(st, id, stops, times, now, tNow);
      && (Recorded(r, DepartedOrigin(id)) <==> Recorded(st, DepartedOrigin(id)) || DepartureCrossed(LastTime(st, id), times[0], now))
      && (Recorded(r, ArrivedDestination(id)) <==> Recorded(st, ArrivedDestination(id)) || ArrivalCrossed(LastTime(st, id), times[|times| - 1], now))
  {
    var s := |stops|;
    var last := LastTime(st, id);
    var st1 := if id in st.stopLogs then st else st.(stopLogs := st.stopLogs[id := EmptyLog]);
    var st2 := Check(st1, DepartedOrigin(id), DepartureCrossed(last, times[0], now));
    var st3 := Check(st2, ArrivedDestination(id), ArrivalCrossed(last, times[2 * s + 1], now));
    CheckKeepsOthers(st2, ArrivedDestination(id), ArrivalCrossed(last, times[2 * s + 1], now));
    if !(tNow <= times[0] || tNow >= times[2 * s + 1]) {
      ScanStopsFrame(st3, id, stops, times, last, now, tNow, 0);
    }
  }

  /** The stop scan reports every crossed edge of the stops it reaches:
      those up to and including the first stop the route dwells at. */
  lemma {:induction false} ScanStopsCovers(st: Stores, id: string, stops: seq<Stop>, times: seq<int>,
                                           last: Option<int>, now: int, tNow: int, j0: nat)
    requires |times| == 2 * |stops| + 2 && j0 <= |stops|
    ensures var r := ScanStops(st, id, stops, times, last, now, tNow, j0);
      && (forall x :: Recorded(st, x) ==> Recorded(r, x))
      && (forall j :: j0 <= j < |stops| && (forall i :: j0 <= i < j ==> !Dwelling(tNow, times, i)) ==>
            && (EdgeCrossed(last, times[2 * j + 1], now) ==> Recorded(r, ArrivedAtStop(id, stops[j].id)))
            && (EdgeCrossed(last, times[2 * j + 2], now) ==> Recorded(r, DepartedStop(id, stops[j].id))))
    decreases |stops| - j0
  {
    if j0 < |stops| {
      var sid := stops[j0].id;
      var st1 := Check(st, ArrivedAtStop(id, sid), EdgeCrossed(last, times[2 * j0 + 1], now));
      var st2 := Check(st1, DepartedStop(id, sid), EdgeCrossed(last, times[2 * j0 + 2], now));
      CheckKeepsOthers(st, ArrivedAtStop(id, sid), EdgeCrossed(last, times[2 * j0 + 1], now));
      CheckKeepsOthers(st1, DepartedStop(id, sid), EdgeCrossed(last, times[2 * j0 + 2], now));
      var r := ScanStops(st, id, stops, times, last, now, tNow, j0);
      if !(times[2 * j0 + 1] <= tNow < times[2 * j0 + 2]) {
        ScanStopsCovers(st2, id, stops, times, last, now, tNow, j0 + 1);
      }
      forall j | j0 <= j < |stops| && (forall i :: j0 <= i < j ==> !Dwelling(tNow, times, i))
        ensures EdgeCrossed(last, times[2 * j + 1], now) ==> Recorded(r, ArrivedAtStop(id, stops[j].id))
        ensures EdgeCrossed(last, times[2 * j + 2], now) ==> Recorded(r, DepartedStop(id, stops[j].id))
      {
        if j > j0 {
          assert !Dwelling(tNow, times, j0);
        }
      }
    }
  }

  /** A travelling route whose clock is strictly inside its schedule reports
      the crossed arrival and departure of every stop up to and including
      the first stop it dwells at; later stops wait for a later update. */
  lemma RouteEventsStopRule(st: Stores, route: Route, base: int, now: int, frac: real, dist: Metric, j: nat)
    requires PhaseOf(route, base, frac, dist) == Travel
    requires j < |route.stops|
    requires var times := Anchors(route, base);
      var tNow := RouteClock(now, RouteWindow(route, base));
      && times[0] < tNow < times[|times| - 1]
      && forall i :: 0 <= i < j ==> !Dwelling(tNow, times, i)
    ensures var r := RouteEvents(st, route, base, now, frac, dist);
      var times := Anchors(route, base);
      var last := LastTime(st, route.id);
      && (EdgeCrossed(last, times[2 * j + 1], now) ==> Recorded(r, ArrivedAtStop(route.id, route.stops[j].id)))
      && (EdgeCrossed(last, times[2 * j + 2], now) ==> Recorded(r, DepartedStop(route.id, route.stops[j].id)))
  {
    var id := route.id;
    var stops := route.stops;
    var times := Anchors(route, base);
    var tNow := RouteClock(now, RouteWindow(route, base));
    var s := |stops|;
    var last := LastTime(st, id);
    var st1 := if id in st.stopLogs then st else st.(stopLogs := st.stopLogs[id := EmptyLog]);
    var st2 := Check(st1, DepartedOrigin(id), DepartureCrossed(last, times[0], now));
    var st3 := Check(st2, ArrivedDestination(id), ArrivalCrossed(last, times[2 * s + 1], now));
    ScanStopsCovers(st3, id, stops, times, last, now, tNow, 0);
    var st4 := ScanStops(st3, id, stops, times, last, now, tNow, 0);
    assert RouteEvents(st, route, base, now, frac, dist) == st4.(lastTime := st4.lastTime[id := now]);
  }

  // ------------------------------------------------------------ idempotence

  /** A scan whose watermark is already the global clock reports nothing. */
  lemma {:induction false} ScanStopsQuiet(st: Stores, id: string, stops: seq<Stop>, times: seq<int>,
                                          now: int, tNow: int, j: nat)
    requires |times| == 2 * |stops| + 2 && j <= |stops|
    ensures ScanStops(st, id, stops, times, Some(now), now, tNow, j) == st
    decreases |stops| - j
  {
    if j < |stops| {
      ScanStopsQuiet(st, id, stops, times, now, tNow, j + 1);
    }
  }

  lemma TravelEventsIdempotent(st: Stores, id: string, stops: seq<Stop>, times: seq<int>, now: int, tNow: int)
    requires |times| == 2 * |stops| + 2
    ensures var r := TravelEvents(st, id, stops, times, now, tNow);
      TravelEvents(r, id, stops, times, now, tNow) == r
  {
    var r := TravelEvents(st, id, stops, times, now, tNow);
    TravelEventsFrame(st, id, stops, times, now, tNow);
    TravelEventsCheckRules(st, id, stops, times, now, tNow);
    var s := |stops|;
    if !(tNow <= times[0] || tNow >= times[2 * s + 1]) {
      assert LastTime(r, id) == Some(now);
      ScanStopsQuiet(r, id, stops, times, now, tNow, 0);
      assert r.lastTime[id := now] == r.lastTime;
    } else {
      assert LastTime(r, id) == LastTime(st, id);
    }
  }

  /** Repeating an update of a route with the same clock changes nothing:
      every event it could report is stored and its watermark is the clock. */
  lemma RouteEventsIdempotent(st: Stores, route: Route, base: int, now: int, frac: real, dist: Metric)
    ensures var r := RouteEvents(st, route, base, now, frac, dist);
      RouteEvents(r, route, base, now, frac, dist) == r
  {
    if PhaseOf(route, base, frac, dist) == Travel {
      TravelEventsIdempotent(st, route.id, route.stops, Anchors(route, base), now,
                             RouteClock(now, RouteWindow(route, base)));
    }
  }

  // --------------------------------------------------------------- rewind

  /** When the progress goes backwards the update behaves as on a fresh
      tracker that already holds the log: nothing stored before counts. */
  lemma RewindStartsAfresh(st: Stores, progress: real, markers: seq<Marker>, selected: set<string>,
                           base: int, dist: Metric)
    requires progress < st.lastProgress
    ensures Tick(st, progress, markers, selected, base, dist)
            == Tick(Initial().(lastProgress := progress, messages := st.messages), progress, markers, selected, base, dist)
  {
  }

  // --------------------------------------------------- the engine, in place

  /** The tracker's persistent stores, updated in place by each update. */
  class Engine {
    var lastProgress: real
    var arrived: set<string>
    var stopLogs: map<string, StopLog>
    var lastTime: map<string, int>
    var originDepartures: set<string>
    var messages: seq<Event>
    /** Index in the log of the last reset (the log itself is never cleared). */
    ghost var epoch: nat

    function Snapshot(): Stores
      reads this
    {
      Stores(lastProgress, arrived, stopLogs, lastTime, originDepartures, messages)
    }

    ghost predicate Valid()
      reads this
    {
      LogMatches(Snapshot(), epoch)
    }

    constructor ()
      ensures Snapshot() == Initial() && epoch == 0 && Valid()
    {
      lastProgress := 0.0;
      arrived := {};
      stopLogs := map[];
      lastTime := map[];
      originDepartures := {};
      messages := [];
      epoch := 0;
    }

    /** Append an event's message and add its key to its store. */
    method Report(e: Event)
      modifies this
      ensures Snapshot() == Fire(old(Snapshot()), e) && epoch == old(epoch)
    {
      messages := messages + [e];
      match e
      case DepartedOrigin(id) =>
        originDepartures := originDepartures + {id};
      case ArrivedAtStop(id, s) =>
        var log := LogOf(Snapshot(), id);
        stopLogs := stopLogs[id := log.(arrivals := log.arrivals + {s})];
      case DepartedStop(id, s) =>
        var log := LogOf(Snapshot(), id);
        stopLogs := stopLogs[id := log.(departures := log.departures + {s})];
      case ArrivedDestination(id) =>
        arrived := arrived + {id};
    }

    /** Walk the stops in order, reporting crossed arrival and departure
        edges, and break at the first stop the route is dwelling at. */
    method ScanStopEvents(id: string, stops: seq<Stop>, times: seq<int>, last: Option<int>, now: int, tNow: int)
      returns (dwell: Option<nat>)
      requires |times| == 2 * |stops| + 2
      modifies this
      ensures Snapshot() == ScanStops(old(Snapshot()), id, stops, times, last, now, tNow, 0)
      ensures dwell == FirstDwell(tNow, times, |stops|, 0)
      ensures epoch == old(epoch)
    {
      dwell := None;
      var j := 0;
      while j < |stops|
        invariant 0 <= j <= |stops|
        invariant ScanStops(Snapshot(), id, stops, times, last, now, tNow, j)
                  == ScanStops(old(Snapshot()), id, stops, times, last, now, tNow, 0)
        invariant FirstDwell(tNow, times, |stops|, j) == FirstDwell(tNow, times, |stops|, 0)
        invariant dwell == None && epoch == old(epoch)
      {
        var sid := stops[j].id;
        if EdgeCrossed(last, times[2 * j + 1], now) && sid !in LogOf(Snapshot(), id).arrivals {
          Report(ArrivedAtStop(id, sid));
        }
        if EdgeCrossed(last, times[2 * j + 2], now) && sid !in LogOf(Snapshot(), id).departures {
          Report(DepartedStop(id, sid));
        }
        if times[2 * j + 1] <= tNow < times[2 * j + 2] {
          dwell := Some(j);
          break;
        }
        j := j + 1;
      }
    }

    /** A finished route: the marker goes to the destination and the arrival
        is reported when the global clock has crossed the route's arrival. */
    method ProcessFinished(marker: Marker, route: Route, base: int, now: int)
      modifies this, marker
      ensures Snapshot() == FinishEvents(old(Snapshot()), route.id, Anchors(route, base), now)
      ensures marker.position == route.destination && epoch == old(epoch)
    {
      marker.position := route.destination;
      if route.id !in arrived {
        var timesSeq := NormalizeSequentialTimes(AnchorTimes(route), base);
        var destMs := timesSeq[|timesSeq| - 1];
        var lastMs := LastTime(Snapshot(), route.id);
        if ArrivalCrossed(lastMs, destMs, now) {
          Report(ArrivedDestination(route.id));
        }
      }
    }

    /** The event checks of a travelling route: create its stop log, the
        origin departure, the destination arrival and, strictly inside the
        schedule, the stop scan and the watermark. Returns the stop the
        route dwells at, if the scan ran and found one. */
    method TravelChecks(id: string, stops: seq<Stop>, times: seq<int>, now: int, tNow: int)
      returns (dwell: Option<nat>)
      requires |times| == 2 * |stops| + 2
      modifies this
      ensures Snapshot() == TravelEvents(old(Snapshot()), id, stops, times, now, tNow)
      ensures times[0] < tNow < times[|times| - 1] ==> dwell == FirstDwell(tNow, times, |stops|, 0)
      ensures epoch == old(epoch)
    {
      ghost var st := old(Snapshot());
      ghost var s := |stops|;
      dwell := None;
      if id !in stopLogs {
        stopLogs := stopLogs[id := EmptyLog];
      }
      var lastRouteMs := LastTime(Snapshot(), id);
      assert lastRouteMs == LastTime(st, id);
      ghost var st1 := Snapshot();
      if id !in originDepartures && DepartureCrossed(lastRouteMs, times[0], now) {
        Report(DepartedOrigin(id));
      }
      ghost var st2 := Snapshot();
      assert st2 == Check(st1, DepartedOrigin(id), DepartureCrossed(lastRouteMs, times[0], now));
      if id !in arrived && ArrivalCrossed(lastRouteMs, times[|times| - 1], now) {
        Report(ArrivedDestination(id));
      }
      assert Snapshot() == Check(st2, ArrivedDestination(id), ArrivalCrossed(lastRouteMs, times[2 * s + 1], now));
      if !(tNow <= times[0] || tNow >= times[|times| - 1]) {
        dwell := ScanStopEvents(id, stops, times, lastRouteMs, now, tNow);
        lastTime := lastTime[id := now];
      }
    }

    /** The schedule rule: origin before the departure, destination from the
        arrival on, the stop found by the scan, or the target distance on the
        first leg holding the route clock. */
    method PlaceOnSchedule(tNow: int, times: seq<int>, locs: seq<LatLng>, d: seq<real>, s: nat, dwell: Option<nat>)
      returns (spot: Spot)
      requires |times| == 2 * s + 2 && |locs| == s + 2 && |d| == s + 2
      requires times[0] < tNow < times[2 * s + 1] ==> dwell == FirstDwell(tNow, times, s, 0)
      ensures spot == SpotAt(tNow, times, locs, d, s)
    {
      if tNow <= times[0] {
        spot := Fixed(locs[0]);
      } else if tNow >= times[|times| - 1] {
        spot := Fixed(locs[|locs| - 1]);
      } else if dwell.Some? {
        spot := Fixed(locs[dwell.value + 1]);
      } else {
        var k := FindLeg(tNow, times, s);
        spot := if k.Some? then Moving(LegTarget(times, d, k.value, tNow)) else Unplaced;
      }
    }

    /** A travelling route whose path has length: the event checks, then the
        marker's position on the schedule and along the path. */
    method ProcessTravel(marker: Marker, route: Route, base: int, now: int, tNow: int, dist: Metric,
                         points: seq<LatLng>, cum: seq<real>)
      requires points == PathPoints(route) && cum == CumulativeDistances(points, dist)
      requires tNow == RouteClock(now, RouteWindow(route, base))
      modifies this, marker
      ensures Snapshot() == TravelEvents(old(Snapshot()), route.id, route.stops, Anchors(route, base), now, tNow)
      ensures marker.position == match TravelPosition(route, base, now, dist)
                                 case Some(p) => p
                                 case None => old(marker.position)
      ensures epoch == old(epoch)
    {
      var locs := Locations(route);
      var d := ComputeStopDistances(locs, points, cum, dist);
      var times := NormalizeSequentialTimes(AnchorTimes(route), base);
      var dwell := TravelChecks(route.id, route.stops, times, now, tNow);
      var spot := PlaceOnSchedule(tNow, times, locs, d, |route.stops|, dwell);
      match spot
      case Fixed(p) =>
        marker.position := p;
      case Moving(target) =>
        marker.position := InterpolateAlongPath(points, cum, target, dist);
      case Unplaced =>
    }

    /** One active route: skip it without routed samples, otherwise place
        its marker by the phase and report its events. */
    method ProcessRoute(marker: Marker, route: Route, base: int, now: int, frac: real, dist: Metric)
      modifies this, marker
      ensures Snapshot() == RouteEvents(old(Snapshot()), route, base, now, frac, dist)
      ensures marker.position == match RoutePosition(route, base, now, frac, dist)
                                 case Some(p) => p
                                 case None => old(marker.position)
      ensures epoch == old(epoch)
    {
      if |route.steps| == 0 {
        return;
      }
      var rw := AdjustForMidnightCrossing(route.departure, route.arrival, base);
      var durationMs := Max(0, rw.end - rw.start);
      var tNow := now;
      if now < rw.start {
        tNow := rw.start;
      } else if now > rw.end {
        tNow := rw.end;
      }
      if durationMs == 0 || frac >= 1.0 {
        ProcessFinished(marker, route, base, now);
      } else if frac <= 0.0 {
        marker.position := route.origin;
      } else {
        var points := DedupPoints(RawPath(route));
        if |points| < 2 {
          marker.position := points[0];
        } else {
          var cum := BuildCumulativeDistances(points, dist);
          if cum[|cum| - 1] <= 0.0 {
            marker.position := points[0];
          } else {
            ProcessTravel(marker, route, base, now, tNow, dist, points, cum);
          }
        }
      }
    }

    /** One marker of an update: process its route when it is active. */
    method ProcessMarker(m: Marker, selected: set<string>, base: int, now: int, frac: real, dist: Metric)
      modifies this, m
      ensures Snapshot() == if Active(m, selected) then RouteEvents(old(Snapshot()), m.route.value, base, now, frac, dist)
                            else old(Snapshot())
      ensures m.position == PositionAfter(m, old(m.position), Some(now), frac, selected, base, dist)
      ensures epoch == old(epoch)
    {
      if Active(m, selected) {
        ProcessRoute(m, m.route.value, base, now, frac, dist);
      }
    }

    /** Process each active marker in order at the global clock `now`. */
    method ProcessMarkers(markers: seq<Marker>, selected: set<string>, base: int, now: int, frac: real,
                          dist: Metric)
      modifies this, markers
      ensures Snapshot() == FoldRoutes(old(Snapshot()), markers, |markers|, selected, base, now, frac, dist)
      ensures epoch == old(epoch)
      ensures forall m :: m in markers ==>
        m.position == PositionAfter(m, old(m.position), Some(now), frac, selected, base, dist)
    {
      ghost var start := Snapshot();
      for i := 0 to |markers|
        invariant Snapshot() == FoldRoutes(start, markers, i, selected, base, now, frac, dist)
        invariant epoch == old(epoch)
        invariant forall m :: m in markers[..i] ==>
          m.position == PositionAfter(m, old(m.position), Some(now), frac, selected, base, dist)
        invariant forall m :: m in markers && m !in markers[..i] ==> m.position == old(m.position)
      {
        var m := markers[i];
        assert markers[..i + 1] == markers[..i] + [m];
        ProcessMarker(m, selected, base, now, frac, dist);
      }
      assert markers[..|markers|] == markers;
    }

    /** One update: reset the stores when the progress went backwards,
        record the progress, compute the global clock over the active routes
        and process each active marker in order. */
    method UpdateVehiclePositions(progress: real, markers: seq<Marker>, selected: set<string>, base: int,
                                  dist: Metric)
      requires Valid()
      modifies this, markers
      ensures Valid()
      ensures Snapshot() == Tick(old(Snapshot()), progress, markers, selected, base, dist)
      ensures epoch == TickEpoch(old(Snapshot()), progress, old(epoch))
      ensures forall m :: m in markers ==>
        m.position == PositionAfter(m, old(m.position), TickNow(markers, selected, base, progress),
                                    ProgressFraction(progress), selected, base, dist)
    {
      ghost var before := Snapshot();
      if progress < lastProgress {
        arrived := {};
        stopLogs := map[];
        lastTime := map[];
        originDepartures := {};
        epoch := |messages|;
      }
      lastProgress := progress;
      var frac := ProgressFraction(progress);
      var w := GlobalWindow(markers, selected, base);
      if w.Some? {
        var now := GlobalNow(w.value, frac);
        ProcessMarkers(markers, selected, base, now, frac, dist);
      }
      TickKeepsLog(before, progress, markers, selected, base, dist, old(epoch));
    }
  }
}
