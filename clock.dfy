/** The simulation clock: the 0-100 progress value becomes a global time in
    the window spanned by the active routes, and each route's own time is
    that global time clamped to the route's schedule. */
module Clock {
  import opened Types
  import opened Schedule

  /** `Math.max(0, Math.min(1, progress / 100))`. */
  function ProgressFraction(progress: real): (f: real)
    ensures 0.0 <= f <= 1.0
    ensures 0.0 <= progress <= 100.0 ==> f == progress / 100.0
    ensures progress <= 0.0 ==> f == 0.0
    ensures progress >= 100.0 ==> f == 1.0
  {
    ClampR(progress / 100.0, 0.0, 1.0)
  }

  /** Departure and arrival of a route, arrival moved past midnight. */
  function RouteWindow(route: Route, base: int): (w: Window)
    ensures w.start <= w.end
  {
    AdjustForMidnightCrossing(route.departure, route.arrival, base)
  }

  /** Smallest departure and largest arrival over the active markers among
      the first n; None when none of them is active. */
  function WindowOf(markers: seq<Marker>, n: nat, selected: set<string>, base: int): (w: Option<Window>)
    requires n <= |markers|
    ensures w.Some? ==> w.value.start <= w.value.end
  {
    if n == 0 then None
    else
      var w := WindowOf(markers, n - 1, selected, base);
      var m := markers[n - 1];
      if !Active(m, selected) then w
      else
        var rw := RouteWindow(m.route.value, base);
        match w
        case None => Some(rw)
        case Some(g) => Some(Window(Min(g.start, rw.start), Max(g.end, rw.end)))
  }

  /** The global window exists exactly when some marker is active, and then
      it is the hull of the active routes' windows: its start is the least
      departure and its end the greatest arrival. */
  lemma WindowOfIsHull(markers: seq<Marker>, n: nat, selected: set<string>, base: int)
    requires n <= |markers|
    ensures var w := WindowOf(markers, n, selected, base);
      && (w.None? <==> forall k :: 0 <= k < n ==> !Active(markers[k], selected))
      && (w.Some? ==>
            && (forall k :: 0 <= k < n && Active(markers[k], selected) ==>
                  w.value.start <= RouteWindow(markers[k].route.value, base).start
                  && RouteWindow(markers[k].route.value, base).end <= w.value.end)
            && (exists k :: 0 <= k < n && Active(markers[k], selected)
                  && w.value.start == RouteWindow(markers[k].route.value, base).start)
            && (exists k :: 0 <= k < n && Active(markers[k], selected)
                  && w.value.end == RouteWindow(markers[k].route.value, base).end))
  {
    WindowOfNone(markers, n, selected, base);
    WindowOfContains(markers, n, selected, base);
    WindowOfAttained(markers, n, selected, base);
  }

  lemma {:induction false} WindowOfNone(markers: seq<Marker>, n: nat, selected: set<string>, base: int)
    requires n <= |markers|
    ensures WindowOf(markers, n, selected, base).None? <==> forall k :: 0 <= k < n ==> !Active(markers[k], selected)
  {
    if n > 0 {
      WindowOfNone(markers, n - 1, selected, base);
    }
  }

  lemma {:induction false} WindowOfContains(markers: seq<Marker>, n: nat, selected: set<string>, base: int)
    requires n <= |markers|
    ensures var w := WindowOf(markers, n, selected, base);
      w.Some? ==> forall k :: 0 <= k < n && Active(markers[k], selected) ==>
        w.value.start <= RouteWindow(markers[k].route.value, base).start
        && RouteWindow(markers[k].route.value, base).end <= w.value.end
  {
    if n > 0 {
      WindowOfContains(markers, n - 1, selected, base);
      WindowOfNone(markers, n - 1, selected, base);
    }
  }

  lemma {:induction false} WindowOfAttained(markers: seq<Marker>, n: nat, selected: set<string>, base: int)
    requires n <= |markers|
    ensures var w := WindowOf(markers, n, selected, base);
      w.Some? ==>
        && (exists k :: 0 <= k < n && Active(markers[k], selected)
              && w.value.start == RouteWindow(markers[k].route.value, base).start)
        && (exists k :: 0 <= k < n && Active(markers[k], selected)
              && w.value.end == RouteWindow(markers[k].route.value, base).end)
  {
    if n > 0 {
      WindowOfAttained(markers, n - 1, selected, base);
      var w := WindowOf(markers, n - 1, selected, base);
      var m := markers[n - 1];
      if Active(m, selected) {
        var rw := RouteWindow(m.route.value, base);
        if w.None? {
          assert WindowOf(markers, n, selected, base) == Some(rw);
        } else {
          var g := w.value;
          var ks :| 0 <= ks < n - 1 && Active(markers[ks], selected)
                    && g.start == RouteWindow(markers[ks].route.value, base).start;
          var ke :| 0 <= ke < n - 1 && Active(markers[ke], selected)
                    && g.end == RouteWindow(markers[ke].route.value, base).end;
          var k1 := if g.start <= rw.start then ks else n - 1;
          var k2 := if g.end >= rw.end then ke else n - 1;
          assert WindowOf(markers, n, selected, base).value.start == RouteWindow(markers[k1].route.value, base).start;
          assert WindowOf(markers, n, selected, base).value.end == RouteWindow(markers[k2].route.value, base).end;
        }
      }
    }
  }

  /** Collect the active routes' windows and take their hull. */
  method GlobalWindow(markers: seq<Marker>, selected: set<string>, base: int) returns (w: Option<Window>)
    ensures w == WindowOf(markers, |markers|, selected, base)
  {
    // bounds.push for each active marker, then min over starts and max over ends
    var minStart: Option<int> := None;  // None stands for +Infinity
    var maxEnd: Option<int> := None;    // None stands for -Infinity
    for i := 0 to |markers|
      invariant minStart.Some? == maxEnd.Some?
      invariant WindowOf(markers, i, selected, base)
                == if minStart.None? then None else Some(Window(minStart.value, maxEnd.value))
    {
      var m := markers[i];
      if Active(m, selected) {
        var rw := AdjustForMidnightCrossing(m.route.value.departure, m.route.value.arrival, base);
        minStart := if minStart.None? then Some(rw.start) else Some(Min(minStart.value, rw.start));
        maxEnd := if maxEnd.None? then Some(rw.end) else Some(Max(maxEnd.value, rw.end));
      }
    }
    w := if minStart.None? then None else Some(Window(minStart.value, maxEnd.value));
  }

  /** `new Date(x).getTime()` for a finite x: truncation toward zero. */
  function TruncateTowardZero(x: real): (r: int)
    ensures x >= 0.0 ==> r as real <= x < r as real + 1.0
    ensures x < 0.0 ==> r as real - 1.0 < x <= r as real
  {
    if x >= 0.0 then x.Floor else -((-x).Floor)
  }

  /** The global clock: start plus the fraction of the (non-negative)
      duration of the window, as a whole number of milliseconds. */
  function GlobalNow(w: Window, frac: real): (now: int)
    requires 0.0 <= frac <= 1.0
    ensures frac == 0.0 || w.end <= w.start ==> now == w.start
  {
    TruncateTowardZero(w.start as real + frac * (Max(0, w.end - w.start) as real))
  }

  /** The global clock stays within its window, starts at its start and ends
      at its end. */
  lemma GlobalNowInWindow(w: Window, frac: real)
    requires 0.0 <= frac <= 1.0
    requires w.start <= w.end
    ensures w.start <= GlobalNow(w, frac) <= w.end
    ensures frac == 0.0 ==> GlobalNow(w, frac) == w.start
    ensures frac == 1.0 ==> GlobalNow(w, frac) == w.end
  {
    var dur := (w.end - w.start) as real;
    ScaleWithin(frac, dur);
    var x := w.start as real + frac * dur;
    assert w.start as real <= x <= w.end as real;
    var now := GlobalNow(w, frac);
    assert now >= w.start by {
      if x >= 0.0 {
        assert x < now as real + 1.0;
      }
    }
    assert now <= w.end by {
      if x < 0.0 {
        assert now as real - 1.0 < x;
      }
    }
  }

  /** A route's own clock: the global clock held at the route's departure
      before it and at its arrival after it. */
  function RouteClock(now: int, rw: Window): (t: int)
    requires rw.start <= rw.end
    ensures rw.start <= t <= rw.end
    ensures rw.start <= now <= rw.end ==> t == now
    ensures now < rw.start ==> t == rw.start
    ensures now > rw.end ==> t == rw.end
  {
    if now < rw.start then rw.start else if now > rw.end then rw.end else now
  }
}
