/** Schedule resolution: "HH:mm" times of day become absolute millisecond
    timestamps on a fixed base day, pushed forward a day across midnight. */
module Schedule {
  import opened Types

  const MINUTE_MS: int := 60 * 1000
  const HOUR_MS: int := 60 * MINUTE_MS
  const DAY_MS: int := 24 * HOUR_MS

  /** The absolute time of `t` on the day whose local midnight is `base`
      (a JavaScript Date built from year, month, day, hours and minutes). */
  function NormalizeTime(t: TimeOfDay, base: int): (r: int)
    ensures base <= r < base + DAY_MS
  {
    base + t.hours * HOUR_MS + t.minutes * MINUTE_MS
  }

  /** On one base day, resolved times are ordered exactly as the clock times. */
  lemma NormalizeTimeOrder(a: TimeOfDay, b: TimeOfDay, base: int)
    ensures NormalizeTime(a, base) < NormalizeTime(b, base)
            <==> a.hours < b.hours || (a.hours == b.hours && a.minutes < b.minutes)
    ensures NormalizeTime(a, base) == NormalizeTime(b, base) <==> a == b
  {
  }

  /** Departure and arrival of a route. */
  datatype Window = Window(start: int, end: int)

  /** Resolve a departure/arrival pair: an arrival earlier than the departure
      is taken to be on the next day. */
  function AdjustForMidnightCrossing(s: TimeOfDay, e: TimeOfDay, base: int): (w: Window)
    ensures w.start == NormalizeTime(s, base)
    ensures w.start <= w.end
    ensures w.end == NormalizeTime(e, base) || w.end == NormalizeTime(e, base) + DAY_MS
    ensures w.end == NormalizeTime(e, base) + DAY_MS <==> NormalizeTime(e, base) < w.start
  {
    var start := NormalizeTime(s, base);
    var end := NormalizeTime(e, base);
    if end < start then Window(start, end + DAY_MS) else Window(start, end)
  }

  /** The time `naive` after the midnight check against the previously
      resolved time `last` (None for the first entry): moved one day forward
      exactly when it is earlier than `last`, and then not earlier than
      `last` whenever `last` is less than a day after it. */
  function Resolve(naive: int, last: Option<int>): (r: int)
    ensures r == naive || r == naive + DAY_MS
    ensures r == naive + DAY_MS <==> last.Some? && naive < last.value
    ensures last.Some? && last.value <= naive + DAY_MS ==> last.value <= r
  {
    if last.Some? && naive < last.value then naive + DAY_MS else naive
  }

  /** The resolved sequence: each entry is checked against the previous
      RESOLVED entry and moved forward one day if it is earlier. */
  function SequentialTimes(ts: seq<TimeOfDay>, base: int): (r: seq<int>)
    ensures |r| == |ts|
  {
    if |ts| == 0 then []
    else
      var prev := SequentialTimes(ts[..|ts| - 1], base);
      prev + [Resolve(NormalizeTime(ts[|ts| - 1], base), if |prev| == 0 then None else Some(prev[|prev| - 1]))]
  }

  /** Resolution of a prefix is the prefix of the resolution. */
  lemma {:induction false} SequentialTimesPrefix(ts: seq<TimeOfDay>, base: int, k: nat)
    requires k <= |ts|
    ensures SequentialTimes(ts[..k], base) == SequentialTimes(ts, base)[..k]
    decreases |ts|
  {
    if k < |ts| {
      var init := ts[..|ts| - 1];
      assert init[..k] == ts[..k];
      SequentialTimesPrefix(init, base, k);
    } else {
      assert ts[..k] == ts;
    }
  }

  /** Entry by entry: the first is the naive time; a later one is its naive
      time plus one day exactly when that naive time is earlier than the
      previous resolved entry. */
  lemma {:induction false} SequentialTimesAt(ts: seq<TimeOfDay>, base: int, i: nat)
    requires i < |ts|
    ensures var r := SequentialTimes(ts, base);
      && (i == 0 ==> r[0] == NormalizeTime(ts[0], base))
      && (i > 0 ==> (r[i] == NormalizeTime(ts[i], base) + DAY_MS <==> NormalizeTime(ts[i], base) < r[i - 1]))
      && (r[i] == NormalizeTime(ts[i], base) || r[i] == NormalizeTime(ts[i], base) + DAY_MS)
  {
    var pre := ts[..i + 1];
    SequentialTimesPrefix(ts, base, i + 1);
    assert pre[..|pre| - 1] == ts[..i];
    SequentialTimesPrefix(ts, base, i);
  }

  /** A later entry never regresses while the previous resolved entry is
      still on the base day. The code adds the day only once, so after a
      second midnight crossing this guarantee is gone (see below). */
  lemma SequentialTimesMonotoneOnBaseDay(ts: seq<TimeOfDay>, base: int, i: nat)
    requires 0 < i < |ts|
    requires SequentialTimes(ts, base)[i - 1] < base + DAY_MS
    ensures SequentialTimes(ts, base)[i - 1] <= SequentialTimes(ts, base)[i]
  {
    SequentialTimesAt(ts, base, i);
  }

  /** With every resolved entry but the last on the base day, the whole
      sequence is non-decreasing. */
  lemma SequentialTimesSorted(ts: seq<TimeOfDay>, base: int)
    requires forall k :: 0 <= k < |ts| - 1 ==> SequentialTimes(ts, base)[k] < base + DAY_MS
    ensures forall i, j :: 0 <= i <= j < |ts| ==> SequentialTimes(ts, base)[i] <= SequentialTimes(ts, base)[j]
  {
    var r := SequentialTimes(ts, base);
    forall i | 0 < i < |ts| ensures r[i - 1] <= r[i] {
      SequentialTimesMonotoneOnBaseDay(ts, base, i);
    }
    AdjacentOrderSorts(r);
  }

  /** A sequence whose neighbours are ordered is sorted. */
  lemma {:induction false} AdjacentOrderSorts(r: seq<int>)
    requires forall i :: 0 < i < |r| ==> r[i - 1] <= r[i]
    ensures forall i, j :: 0 <= i <= j < |r| ==> r[i] <= r[j]
  {
    if |r| > 1 {
      var init := r[..|r| - 1];
      AdjacentOrderSorts(init);
      assert forall i :: 0 <= i < |init| ==> init[i] == r[i];
      assert forall i :: 0 <= i < |r| - 1 ==> r[i] <= r[|r| - 2];
    }
  }

  /** Two midnight crossings: 20:00, 02:00, 01:00 resolves to 20:00, 02:00
      next day, 01:00 next day, so the third entry is earlier than the second. */
  lemma SecondCrossingRegresses(base: int)
    ensures var r := SequentialTimes([TimeOfDay(20, 0), TimeOfDay(2, 0), TimeOfDay(1, 0)], base);
      r[2] < r[1]
  {
    var ts := [TimeOfDay(20, 0), TimeOfDay(2, 0), TimeOfDay(1, 0)];
    SequentialTimesAt(ts, base, 0);
    SequentialTimesAt(ts, base, 1);
    SequentialTimesAt(ts, base, 2);
  }

  /** The departure/arrival pair is the two-entry case of the sequential
      resolution. */
  lemma AdjustIsTwoEntryResolution(s: TimeOfDay, e: TimeOfDay, base: int)
    ensures var w := AdjustForMidnightCrossing(s, e, base);
      SequentialTimes([s, e], base) == [w.start, w.end]
  {
    var ts := [s, e];
    SequentialTimesAt(ts, base, 0);
    SequentialTimesAt(ts, base, 1);
  }

  /** Build the resolved sequence entry by entry, remembering the last one. */
  method NormalizeSequentialTimes(ts: seq<TimeOfDay>, base: int) returns (out: seq<int>)
    ensures out == SequentialTimes(ts, base)
    ensures forall i :: 0 < i < |out| ==>
      (out[i] == NormalizeTime(ts[i], base) + DAY_MS <==> NormalizeTime(ts[i], base) < out[i - 1])
  {
    out := [];
    var last: Option<int> := None;
    for i := 0 to |ts|
      invariant out == SequentialTimes(ts[..i], base)
      invariant last == if i == 0 then None else Some(out[i - 1])
    {
      var d := NormalizeTime(ts[i], base);
      if last.Some? && d < last.value {
        d := d + DAY_MS;
      }
      assert ts[..i + 1][..i] == ts[..i];
      out := out + [d];
      last := Some(d);
    }
    assert ts[..|ts|] == ts;
    forall i | 0 < i < |out|
      ensures out[i] == NormalizeTime(ts[i], base) + DAY_MS <==> NormalizeTime(ts[i], base) < out[i - 1]
    {
      SequentialTimesAt(ts, base, i);
    }
  }
}
