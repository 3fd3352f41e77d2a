/** Path projection: the deduplicated polyline of a route, its cumulative
    distance table, the projection of a coordinate onto it and the
    monotone correction of the projected stop distances. */
module PathProjection {
  import opened Types

  /** Floor of a zero squared segment norm (JavaScript `vv || 1e-12`). */
  const SQ_NORM_FLOOR: real := 0.000000000001
  /** Floor of a segment length in metres (`Math.max(1e-6, ...)`). */
  const MIN_SEGMENT_LENGTH: real := 0.000001

  // ---------------------------------------------------------------- dedup

  /** `s` with every run of equal neighbours collapsed to one entry, as the
      loop that keeps a point only when it differs from the last kept one. */
  function Dedup(s: seq<LatLng>): (r: seq<LatLng>)
    ensures |r| <= |s|
    ensures |s| > 0 ==> |r| > 0 && r[|r| - 1] == s[|s| - 1]
  {
    if |s| == 0 then []
    else
      var d := Dedup(s[..|s| - 1]);
      if |d| > 0 && d[|d| - 1] == s[|s| - 1] then d else d + [s[|s| - 1]]
  }

  ghost predicate NoAdjacentDuplicates(s: seq<LatLng>)
  {
    forall i :: 0 < i < |s| ==> s[i - 1] != s[i]
  }

  /** The deduplicated path has no two equal consecutive points. */
  lemma {:induction false} DedupNoAdjacentDuplicates(s: seq<LatLng>)
    ensures NoAdjacentDuplicates(Dedup(s))
  {
    if |s| > 0 {
      DedupNoAdjacentDuplicates(s[..|s| - 1]);
    }
  }

  /** The deduplicated path starts where the raw path starts. */
  lemma {:induction false} DedupKeepsFirst(s: seq<LatLng>)
    requires |s| > 0
    ensures Dedup(s)[0] == s[0]
  {
    if |s| > 1 {
      var init := s[..|s| - 1];
      DedupKeepsFirst(init);
    }
  }

  /** Deduplication keeps exactly the points of the raw path. */
  lemma {:induction false} DedupSamePoints(s: seq<LatLng>)
    ensures forall p :: p in Dedup(s) <==> p in s
  {
    if |s| > 0 {
      var init := s[..|s| - 1];
      DedupSamePoints(init);
      assert s == init + [s[|s| - 1]];
    }
  }

  /** A path without equal neighbours is its own deduplication. */
  lemma {:induction false} DedupOfDeduplicated(s: seq<LatLng>)
    requires NoAdjacentDuplicates(s)
    ensures Dedup(s) == s
  {
    if |s| > 0 {
      var init := s[..|s| - 1];
      DedupOfDeduplicated(init);
    }
  }

  /** Deduplication is idempotent. */
  lemma DedupIdempotent(s: seq<LatLng>)
    ensures Dedup(Dedup(s)) == Dedup(s)
  {
    DedupNoAdjacentDuplicates(s);
    DedupOfDeduplicated(Dedup(s));
  }

  /** Keep a raw point only when it differs from the last kept one. */
  method DedupPoints(raw: seq<LatLng>) returns (points: seq<LatLng>)
    ensures points == Dedup(raw)
  {
    points := [];
    for i := 0 to |raw|
      invariant points == Dedup(raw[..i])
    {
      assert raw[..i + 1][..i] == raw[..i];
      if |points| == 0 || points[|points| - 1] != raw[i] {
        points := points + [raw[i]];
      }
    }
    assert raw[..|raw|] == raw;
  }

  // ------------------------------------------------------ distance table

  /** Cumulative distance at each point: 0 at the first and, at each later
      point, the previous value plus the distance of the step. */
  function CumulativeDistances(points: seq<LatLng>, dist: Metric): (c: seq<real>)
    ensures |c| == if |points| == 0 then 1 else |points|
    ensures c[0] == 0.0
  {
    if |points| <= 1 then [0.0]
    else
      var prev := CumulativeDistances(points[..|points| - 1], dist);
      prev + [prev[|prev| - 1] + dist(points[|points| - 2], points[|points| - 1])]
  }

  /** Each entry of the table adds the distance of one step. */
  lemma {:induction false} CumulativeDistancesStep(points: seq<LatLng>, dist: Metric, i: nat)
    requires 0 < i < |points|
    ensures CumulativeDistances(points, dist)[i]
            == CumulativeDistances(points, dist)[i - 1] + dist(points[i - 1], points[i])
  {
    var init := points[..|points| - 1];
    if i < |points| - 1 {
      CumulativeDistancesStep(init, dist, i);
    }
  }

  /** The table is non-decreasing and never negative. */
  lemma CumulativeDistancesMonotone(points: seq<LatLng>, dist: Metric)
    ensures var c := CumulativeDistances(points, dist);
      forall i, j :: 0 <= i <= j < |c| ==> 0.0 <= c[i] <= c[j]
  {
    var c := CumulativeDistances(points, dist);
    forall i | 0 < i < |c| ensures c[i - 1] <= c[i] {
      CumulativeDistancesStep(points, dist, i);
    }
    forall i, j | 0 <= i <= j < |c| ensures 0.0 <= c[i] <= c[j] {
      OrderedBetween(c, 0, i);
      OrderedBetween(c, i, j);
    }
  }

  /** Build the table entry by entry. */
  method BuildCumulativeDistances(points: seq<LatLng>, dist: Metric) returns (cum: seq<real>)
    ensures cum == CumulativeDistances(points, dist)
  {
    cum := [0.0];
    if |points| == 0 {
      return;
    }
    var i := 1;
    while i < |points|
      invariant 1 <= i <= |points|
      invariant cum == CumulativeDistances(points[..i], dist)
    {
      assert points[..i + 1][..i] == points[..i];
      cum := cum + [cum[i - 1] + dist(points[i - 1], points[i])];
      i := i + 1;
    }
    assert points[..i] == points;
  }

  // ------------------------------------------------------------ projection

  /** Projection parameter of `target` onto the segment a-b in raw lat/lng
      space, clamped to [0, 1]. */
  function SegmentParam(target: LatLng, a: LatLng, b: LatLng): (t: real)
    ensures 0.0 <= t <= 1.0
  {
    var vx := b.lat - a.lat;
    var vy := b.lng - a.lng;
    var wx := target.lat - a.lat;
    var wy := target.lng - a.lng;
    var norm := vx * vx + vy * vy;
    var vv := if norm == 0.0 then SQ_NORM_FLOOR else norm;
    var t := (wx * vx + wy * vy) / vv;
    if t < 0.0 then 0.0 else if t > 1.0 then 1.0 else t
  }

  /** Squared planar distance from `target` to its projection on a-b; never
      negative, and for a zero-length segment the squared distance to its
      point. */
  function SegmentDist2(target: LatLng, a: LatLng, b: LatLng): (r: real)
    ensures r >= 0.0
    ensures a == b ==> r == (target.lat - a.lat) * (target.lat - a.lat) + (target.lng - a.lng) * (target.lng - a.lng)
  {
    var t := SegmentParam(target, a, b);
    var dx := target.lat - (a.lat + (b.lat - a.lat) * t);
    var dy := target.lng - (a.lng + (b.lng - a.lng) * t);
    dx * dx + dy * dy
  }

  /** Length of a segment in metres, floored at MIN_SEGMENT_LENGTH. */
  function SegmentLength(a: LatLng, b: LatLng, dist: Metric): (l: real)
    ensures l >= MIN_SEGMENT_LENGTH
    ensures l >= dist(a, b)
  {
    MaxR(MIN_SEGMENT_LENGTH, dist(a, b))
  }

  /** `cumDist[i] ?? 0`: never negative for a table of non-negative entries. */
  function CumAt(cum: seq<real>, i: nat): (r: real)
    ensures (forall k :: 0 <= k < |cum| ==> cum[k] >= 0.0) ==> r >= 0.0
  {
    if i < |cum| then cum[i] else 0.0
  }

  /** Distance along the path of the projection of `target` on segment i:
      within that segment's span. */
  function AlongSegment(target: LatLng, points: seq<LatLng>, cum: seq<real>, i: nat, dist: Metric): (r: real)
    requires i + 1 < |points|
    ensures CumAt(cum, i) <= r <= CumAt(cum, i) + SegmentLength(points[i], points[i + 1], dist)
  {
    ScaleWithin(SegmentParam(target, points[i], points[i + 1]), SegmentLength(points[i], points[i + 1], dist));
    CumAt(cum, i) + SegmentParam(target, points[i], points[i + 1]) * SegmentLength(points[i], points[i + 1], dist)
  }

  /** Squared distances from `target` to each segment of the path. */
  function SegmentDist2s(target: LatLng, points: seq<LatLng>): (d: seq<real>)
    requires |points| >= 1
    ensures |d| == |points| - 1
  {
    seq(|points| - 1, i requires 0 <= i < |points| - 1 => SegmentDist2(target, points[i], points[i + 1]))
  }

  /** The earliest index among 0 .. n-1 of a least value of `d`: a later
      index replaces the best one only when its value is strictly smaller. */
  function EarliestMin(d: seq<real>, n: nat): (i: nat)
    requires 1 <= n <= |d|
    ensures i < n
  {
    if n == 1 then 0
    else
      var b := EarliestMin(d, n - 1);
      if d[n - 1] < d[b] then n - 1 else b
  }

  /** EarliestMin is a least value and every earlier value is strictly larger. */
  lemma {:induction false} EarliestMinIsEarliestMinimum(d: seq<real>, n: nat)
    requires 1 <= n <= |d|
    ensures var i := EarliestMin(d, n);
      && (forall j :: 0 <= j < n ==> d[i] <= d[j])
      && (forall j :: 0 <= j < i ==> d[i] < d[j])
  {
    if n > 1 {
      EarliestMinIsEarliestMinimum(d, n - 1);
    }
  }

  /** The segment whose projection of `target` is used. */
  function NearestSegment(target: LatLng, points: seq<LatLng>): (i: nat)
    requires |points| >= 2
    ensures i + 1 < |points|
  {
    EarliestMin(SegmentDist2s(target, points), |points| - 1)
  }

  /** Distance along the path of the nearest projection of `target`; 0 for a
      path of fewer than two points. */
  function NearestDistance(target: LatLng, points: seq<LatLng>, cum: seq<real>, dist: Metric): (r: real)
    ensures |points| < 2 ==> r == 0.0
    ensures |points| >= 2 ==>
      var i := NearestSegment(target, points);
      CumAt(cum, i) <= r <= CumAt(cum, i) + SegmentLength(points[i], points[i + 1], dist)
  {
    if |points| < 2 then 0.0
    else AlongSegment(target, points, cum, NearestSegment(target, points), dist)
  }

  /** The projected distance lies on the nearest segment: between its start
      distance and its start distance plus its (floored) length. */
  lemma NearestDistanceOnNearestSegment(target: LatLng, points: seq<LatLng>, cum: seq<real>, dist: Metric)
    requires |points| >= 2
    ensures var i := NearestSegment(target, points);
      var d := SegmentDist2s(target, points);
      && (forall j :: 0 <= j < |d| ==> d[i] <= d[j])
      && (forall j :: 0 <= j < i ==> d[i] < d[j])
      && CumAt(cum, i) <= NearestDistance(target, points, cum, dist)
      && NearestDistance(target, points, cum, dist) <= CumAt(cum, i) + SegmentLength(points[i], points[i + 1], dist)
  {
    var i := NearestSegment(target, points);
    EarliestMinIsEarliestMinimum(SegmentDist2s(target, points), |points| - 1);
  }

  /** With a table of non-negative entries the projected distance is
      non-negative. */
  lemma NearestDistanceNonNegative(target: LatLng, points: seq<LatLng>, cum: seq<real>, dist: Metric)
    requires forall k :: 0 <= k < |cum| ==> cum[k] >= 0.0
    ensures NearestDistance(target, points, cum, dist) >= 0.0
  {
    if |points| >= 2 {
      NearestDistanceOnNearestSegment(target, points, cum, dist);
    }
  }

  /** Scan the segments, keeping the strictly nearest projection. */
  method NearestDistanceAlongPath(target: LatLng, points: seq<LatLng>, cum: seq<real>, dist: Metric)
    returns (along: real)
    ensures along == NearestDistance(target, points, cum, dist)
    ensures |points| < 2 ==> along == 0.0
  {
    if |points| == 0 {
      return 0.0;
    }
    if |points| == 1 {
      return 0.0;
    }
    var bestDist2: Option<real> := None;  // None stands for +Infinity
    along := 0.0;
    ghost var best: nat := 0;
    ghost var d := SegmentDist2s(target, points);
    for i := 0 to |points| - 1
      invariant i == 0 ==> bestDist2 == None
      invariant i > 0 ==> best == EarliestMin(d, i)
      invariant i > 0 ==> bestDist2 == Some(d[best])
      invariant i > 0 ==> along == AlongSegment(target, points, cum, best, dist)
    {
      var d2 := SegmentDist2(target, points[i], points[i + 1]);
      if bestDist2 == None || d2 < bestDist2.value {
        // cumDist[i] ?? 0, plus t times the floored haversine length
        along := AlongSegment(target, points, cum, i, dist);
        bestDist2 := Some(d2);
        best := i;
      }
    }
  }

  // ---------------------------------------------------- monotone correction

  /** Each entry after the first becomes max(0, itself, the corrected
      previous entry); the first is kept. */
  function MonotoneFix(s: seq<real>): (r: seq<real>)
    ensures |r| == |s|
  {
    if |s| <= 1 then s
    else
      var prev := MonotoneFix(s[..|s| - 1]);
      prev + [MaxR(0.0, MaxR(s[|s| - 1], prev[|prev| - 1]))]
  }

  /** The correction keeps the first entry, makes every later entry
      non-negative, at least its own value and at least the entry before it,
      and raises nothing further than that. */
  lemma {:induction false} MonotoneFixAt(s: seq<real>, i: nat)
    requires i < |s|
    ensures var r := MonotoneFix(s);
      && (i == 0 ==> r[0] == s[0])
      && (i > 0 ==> r[i] >= 0.0 && r[i] >= s[i] && r[i] >= r[i - 1])
      && (i > 0 ==> r[i] == 0.0 || r[i] == s[i] || r[i] == r[i - 1])
    decreases |s|
  {
    if |s| > 1 {
      var init := s[..|s| - 1];
      if i < |s| - 1 {
        MonotoneFixAt(init, i);
        if i > 0 {
          MonotoneFixAt(init, i - 1);
        }
      }
    }
  }

  /** After the correction the distances never decrease. */
  lemma MonotoneFixSorted(s: seq<real>)
    ensures var r := MonotoneFix(s);
      forall i, j :: 0 <= i <= j < |r| ==> r[i] <= r[j]
  {
    var r := MonotoneFix(s);
    forall i | 0 < i < |s| ensures r[i - 1] <= r[i] {
      MonotoneFixAt(s, i);
    }
    forall i, j | 0 <= i <= j < |r| ensures r[i] <= r[j] {
      OrderedBetween(r, i, j);
    }
  }

  lemma {:induction false} OrderedBetween(r: seq<real>, i: nat, j: nat)
    requires i <= j < |r|
    requires forall k :: 0 < k < |r| ==> r[k - 1] <= r[k]
    ensures r[i] <= r[j]
    decreases j - i
  {
    if i < j {
      OrderedBetween(r, i + 1, j);
    }
  }

  /** Correct the projected stop distances in place, left to right. */
  method EnforceMonotone(a: array<real>)
    modifies a
    ensures a[..] == MonotoneFix(old(a[..]))
  {
    ghost var s := a[..];
    if a.Length == 0 {
      return;
    }
    for i := 1 to a.Length
      invariant a[..i] == MonotoneFix(s[..i])
      invariant a[i..] == s[i..]
    {
      assert s[..i + 1][..i] == s[..i];
      assert a[i] == s[i];
      a[i] := MaxR(0.0, MaxR(a[i], a[i - 1]));
      assert a[..i + 1] == a[..i] + [a[i]];
    }
    assert s[..a.Length] == s;
    assert a[..a.Length] == a[..];
  }
}
