/** Points of a track to segments of a route: the chunked search against a scan of all segments. */
module SegmentSpeed {
  import opened Numbers
  import opened Options
  import opened RouteLine
  import opened Searching

  const MAX_DIST_M := 60.0

  /** The time windows of the segments of one vehicle's route in plan order, with their slack. */
  datatype Segments = Segments(tLo: seq<real>, tHi: seq<real>) {
    /** Windows as a plan sorted by time gives them. */
    ghost predicate Valid() { |tLo| == |tHi| && Sorted(tLo) && Sorted(tHi) }
  }

  datatype Point = Point(t: real, x: real, y: real)

  /** The distance of a point to a segment, by its index. */
  type Dist = (Point, nat) -> real

  /** The distances of a point to all segments, none to those whose window excludes its time. */
  function Distances(dist: Dist, s: Segments, p: Point): (d: seq<Option<real>>)
    requires s.Valid()
    ensures |d| == |s.tLo|
    ensures forall k :: 0 <= k < |d| ==> (d[k].Some? <==> s.tLo[k] <= p.t <= s.tHi[k])
  {
    seq(|s.tLo|, k requires 0 <= k < |s.tLo| =>
      if s.tLo[k] <= p.t <= s.tHi[k] then Some(dist(p, k)) else None)
  }

  /** `argmin` over `d[lo..hi]`, absent distances counting as infinite; none when all are absent. */
  function ArgMin(d: seq<Option<real>>, lo: nat, hi: nat): (k: Option<nat>)
    requires lo <= hi <= |d|
    ensures k.Some? ==> lo <= k.value < hi && d[k.value].Some?
    decreases hi
  {
    if lo == hi then None
    else
      var k := ArgMin(d, lo, hi - 1);
      if d[hi - 1].None? then k
      else if k.None? || d[hi - 1].value < d[k.value].value then Some(hi - 1)
      else k
  }

  /** The answer for one point from the segments `[lo, hi)`. */
  function Pick(d: seq<Option<real>>, lo: nat, hi: nat): int
    requires lo <= hi <= |d|
  {
    var k := ArgMin(d, lo, hi);
    if k.Some? && d[k.value].value <= MAX_DIST_M then k.value else -1
  }

  /** A scan of all segments. */
  function Scan(d: seq<Option<real>>): int { Pick(d, 0, |d|) }

  /** The first of the nearest admissible segments, if it is near enough. */
  ghost predicate FirstNearest(d: seq<Option<real>>, r: int) {
    if r == -1 then forall k :: 0 <= k < |d| && d[k].Some? ==> d[k].value > 60.0
    else
      && 0 <= r < |d| && d[r].Some? && d[r].value <= 60.0
      && forall k :: 0 <= k < |d| && d[k].Some? ==> d[r].value <= d[k].value && (k < r ==> d[r].value < d[k].value)
  }

  lemma {:induction false} ArgMinIsFirst(d: seq<Option<real>>, lo: nat, hi: nat)
    requires lo <= hi <= |d|
    ensures var r := ArgMin(d, lo, hi);
      && (r.None? ==> forall k :: lo <= k < hi ==> d[k].None?)
      && (r.Some? ==> forall k :: lo <= k < hi && d[k].Some? ==>
           d[r.value].value <= d[k].value && (k < r.value ==> d[r.value].value < d[k].value))
    decreases hi
  {
    if lo < hi {
      ArgMinIsFirst(d, lo, hi - 1);
    }
  }

  /** Every admissible segment lies in `[lo, hi)`. */
  predicate Covers(d: seq<Option<real>>, lo: nat, hi: nat) {
    forall k :: 0 <= k < |d| && d[k].Some? ==> lo <= k < hi
  }

  /** A scan finds the first of the nearest admissible segments, if it is near enough. */
  lemma ScanIsFirstNearest(d: seq<Option<real>>)
    ensures FirstNearest(d, Scan(d))
  {
    ArgMinIsFirst(d, 0, |d|);
  }

  /** A slice holding every admissible segment gives the answer of a scan. */
  lemma SliceIsEnough(d: seq<Option<real>>, lo: nat, hi: nat)
    requires lo <= hi <= |d|
    requires Covers(d, lo, hi)
    ensures Pick(d, lo, hi) == Scan(d)
  {
    ArgMinIsFirst(d, lo, hi);
    ArgMinIsFirst(d, 0, |d|);
    var a, b := ArgMin(d, lo, hi), ArgMin(d, 0, |d|);
    if a.Some? && b.Some? {
      assert d[a.value].value <= d[b.value].value && d[b.value].value <= d[a.value].value;
    }
  }

  /** The first nearest segment is one answer only. */
  lemma FirstNearestIsUnique(d: seq<Option<real>>, r: int, r1: int)
    requires FirstNearest(d, r) && FirstNearest(d, r1)
    ensures r == r1
  {
  }

  predicate Within(ts: seq<Point>, tMin: real, tMax: real) {
    forall i :: 0 <= i < |ts| ==> tMin <= ts[i].t <= tMax
  }

  /** The slice searched for a chunk holds the segments admissible at any time in it. */
  lemma ChunkSlice(dist: Dist, s: Segments, p: Point, tMin: real, tMax: real)
    requires s.Valid() && tMin <= p.t <= tMax
    ensures Covers(Distances(dist, s, p), Left(s.tHi, tMin), Right(s.tLo, tMax))
  {
    LeftSplits(s.tHi, tMin);
    RightSplits(s.tLo, tMax);
  }

  /** What a scan of all segments gives every point. */
  function Scans(dist: Dist, s: Segments, points: seq<Point>): (r: seq<int>)
    requires s.Valid()
    ensures |r| == |points|
  {
    if points == [] then []
    else Scans(dist, s, points[..|points| - 1]) + [Scan(Distances(dist, s, points[|points| - 1]))]
  }

  lemma {:induction false} ScansAt(dist: Dist, s: Segments, points: seq<Point>, i: nat)
    requires s.Valid() && i < |points|
    ensures Scans(dist, s, points)[i] == Scan(Distances(dist, s, points[i]))
  {
    if i < |points| - 1 {
      ScansAt(dist, s, points[..|points| - 1], i);
    }
  }

  /** Segment `k` may be passed at the time of the point. */
  predicate Admits(s: Segments, p: Point, k: nat)
    requires s.Valid()
  {
    k < |s.tLo| && s.tLo[k] <= p.t <= s.tHi[k]
  }

  /** A point is given the first of the nearest segments that may be passed at its time, if it is within 60 metres,
      and -1 when all of them are farther away. */
  lemma ScansAreNearest(dist: Dist, s: Segments, points: seq<Point>, i: nat, k: nat)
    requires s.Valid() && i < |points| && Admits(s, points[i], k)
    ensures var p, r := points[i], Scans(dist, s, points)[i];
      if r == -1 then dist(p, k) > 60.0
      else
        && 0 <= r && Admits(s, p, r) && dist(p, r) <= 60.0 && dist(p, r) <= dist(p, k)
        && (k < r ==> dist(p, r) < dist(p, k))
  {
    ScansAt(dist, s, points, i);
    var d := Distances(dist, s, points[i]);
    ScanIsFirstNearest(d);
    assert d[k] == Some(dist(points[i], k));
  }

  /** What a point is given from the slice `[lo, hi)` of the segments. */
  function Given(dist: Dist, s: Segments, p: Point, lo: nat, hi: nat): int
    requires s.Valid() && hi <= |s.tLo|
  {
    if hi <= lo then -1 else Pick(Distances(dist, s, p), lo, hi)
  }

  /** The slice searched for a chunk is enough for each of its points. */
  lemma ChunkAnswers(dist: Dist, s: Segments, points: seq<Point>, a: nat, b: nat, i: nat, tMin: real, tMax: real)
    requires s.Valid() && a <= i < b <= |points| && Within(points[a..b], tMin, tMax)
    ensures Given(dist, s, points[i], Left(s.tHi, tMin), Right(s.tLo, tMax)) == Scans(dist, s, points)[i]
  {
    assert points[a..b][i - a] == points[i];
    ScansAt(dist, s, points, i);
    var d, lo, hi := Distances(dist, s, points[i]), Left(s.tHi, tMin), Right(s.tLo, tMax);
    ChunkSlice(dist, s, points[i], tMin, tMax);
    if hi <= lo {
      SliceIsEnough(d, 0, 0);
    } else {
      SliceIsEnough(d, lo, hi);
    }
  }

  /** The segment of every point, chunk by chunk: whatever the size of the chunks, each point is
      given what a scan of all segments would give it. */
  method Assign(dist: Dist, s: Segments, points: seq<Point>, chunk: nat) returns (out: array<int>)
    requires s.Valid() && chunk > 0
    ensures fresh(out) && out[..] == Scans(dist, s, points)
  {
    out := new int[|points|](i => -1);
    if |s.tLo| == 0 {
      NoSegments(dist, s, points);
      return;
    }
    ghost var want := Scans(dist, s, points);
    var a := 0;
    while a < |points|
      invariant 0 <= a <= |points| && fresh(out) && out.Length == |points|
      invariant forall i :: a <= i < |points| ==> out[i] == -1
      invariant forall i :: 0 <= i < a ==> out[i] == want[i]
    {
      var b := if a + chunk < |points| then a + chunk else |points|;
      FillChunk(dist, s, points, out, a, b, want);
      a := b;
    }
  }

  lemma {:induction false} NoSegments(dist: Dist, s: Segments, points: seq<Point>)
    requires s.Valid() && |s.tLo| == 0
    ensures forall i :: 0 <= i < |points| ==> Scans(dist, s, points)[i] == -1
  {
    if points != [] {
      NoSegments(dist, s, points[..|points| - 1]);
    }
  }

  method FillChunk(dist: Dist, s: Segments, points: seq<Point>, out: array<int>, a: nat, b: nat, ghost want: seq<int>)
    requires s.Valid() && a < b <= |points| == out.Length && want == Scans(dist, s, points)
    requires forall i :: a <= i < b ==> out[i] == -1
    modifies out
    ensures forall i :: 0 <= i < |points| && !(a <= i < b) ==> out[i] == old(out[i])
    ensures forall i :: a <= i < b ==> out[i] == want[i]
  {
    var tMin, tMax := TimeSpan(points[a..b]);
    var lo, hi := Left(s.tHi, tMin), Right(s.tLo, tMax);
    forall i | a <= i < b ensures Given(dist, s, points[i], lo, hi) == want[i] {
      ChunkAnswers(dist, s, points, a, b, i, tMin, tMax);
    }
    if hi > lo {
      FillFrom(dist, s, points, out, a, b, lo, hi, want);
    }
  }

  method FillFrom(dist: Dist, s: Segments, points: seq<Point>, out: array<int>, a: nat, b: nat, lo: nat, hi: nat,
      ghost want: seq<int>)
    requires s.Valid() && a < b <= |points| == out.Length == |want| && lo < hi <= |s.tLo|
    requires forall i :: a <= i < b ==> Given(dist, s, points[i], lo, hi) == want[i]
    modifies out
    ensures forall i :: 0 <= i < |points| && !(a <= i < b) ==> out[i] == old(out[i])
    ensures forall i :: a <= i < b ==> out[i] == want[i]
  {
    for i := a to b
      invariant forall j :: 0 <= j < |points| && !(a <= j < i) ==> out[j] == old(out[j])
      invariant forall j :: a <= j < i ==> out[j] == want[j]
    {
      out[i] := Given(dist, s, points[i], lo, hi);
    }
  }

  /** The earliest and the latest time of a chunk. */
  method TimeSpan(chunk: seq<Point>) returns (tMin: real, tMax: real)
    requires |chunk| > 0
    ensures Within(chunk, tMin, tMax)
    ensures exists i :: 0 <= i < |chunk| && chunk[i].t == tMin
    ensures exists i :: 0 <= i < |chunk| && chunk[i].t == tMax
  {
    tMin, tMax := chunk[0].t, chunk[0].t;
    for i := 1 to |chunk|
      invariant Within(chunk[..i], tMin, tMax)
      invariant exists j :: 0 <= j < i && chunk[j].t == tMin
      invariant exists j :: 0 <= j < i && chunk[j].t == tMax
    {
      assert chunk[..i + 1] == chunk[..i] + [chunk[i]];
      tMin, tMax := Min(tMin, chunk[i].t), Max(chunk[i].t, tMax);
    }
    assert chunk[..|chunk|] == chunk;
  }
}
