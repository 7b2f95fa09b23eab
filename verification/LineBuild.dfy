/** Building the lines of a vehicle's trips from its plan sorted by time. */
module LineBuild {
  import opened Numbers
  import opened Options
  import opened RouteLine
  import opened Searching

  datatype PlanStop = PlanStop(trip: int, x: real, y: real, tb: real)

  predicate SortedByTime(plan: seq<PlanStop>) { forall i, j :: 0 <= i <= j < |plan| ==> plan[i].tb <= plan[j].tb }

  /** The positions of a trip's stops in the plan, in order. */
  function RowsOf(plan: seq<PlanStop>, trip: int): (rows: seq<nat>)
    ensures forall i :: 0 <= i < |rows| ==> rows[i] < |plan| && plan[rows[i]].trip == trip
    ensures forall i, j :: 0 <= i < j < |rows| ==> rows[i] < rows[j]
    ensures forall r: nat :: r < |plan| && plan[r].trip == trip ==> r in rows
  {
    if plan == [] then []
    else
      var k := |plan| - 1;
      RowsOf(plan[..k], trip) + (if plan[k].trip == trip then [k] else [])
  }

  /** The distinct trips in the order they first appear. */
  function Trips(plan: seq<PlanStop>): (trips: seq<int>)
    ensures forall i :: 0 <= i < |plan| ==> plan[i].trip in trips
    ensures forall i, j :: 0 <= i < j < |trips| ==> trips[i] != trips[j]
  {
    if plan == [] then []
    else
      var k := |plan| - 1;
      var trips := Trips(plan[..k]);
      if plan[k].trip in trips then trips else trips + [plan[k].trip]
  }

  /** Running sums starting from zero. */
  function Cumulative(lens: seq<real>): (cum: seq<real>)
    ensures |cum| == |lens| + 1 && cum[0] == 0.0
    ensures forall i :: 0 <= i < |lens| ==> cum[i + 1] == cum[i] + lens[i]
  {
    if lens == [] then [0.0]
    else
      var k := |lens| - 1;
      var cum := Cumulative(lens[..k]);
      cum + [cum[k] + lens[k]]
  }

  function Gap(h: Distance, xs: seq<real>, ys: seq<real>, i: nat): (len: real)
    requires i + 1 < |xs| == |ys|
    ensures len >= 0.0
  {
    h(xs[i + 1] - xs[i], ys[i + 1] - ys[i])
  }

  function SegLens(h: Distance, xs: seq<real>, ys: seq<real>): (lens: seq<real>)
    requires |xs| == |ys| >= 1
    ensures |lens| == |xs| - 1
    ensures forall i :: 0 <= i < |lens| ==> lens[i] == Gap(h, xs, ys, i)
  {
    seq(|xs| - 1, i requires 0 <= i < |xs| - 1 && |ys| == |xs| => Gap(h, xs, ys, i))
  }

  function Times(plan: seq<PlanStop>, rows: seq<nat>): (tb: seq<real>)
    requires forall i :: 0 <= i < |rows| ==> rows[i] < |plan|
    ensures |tb| == |rows| && forall i :: 0 <= i < |tb| ==> tb[i] == plan[rows[i]].tb
  {
    seq(|rows|, i requires 0 <= i < |rows| => plan[rows[i]].tb)
  }

  /** Unit vectors; a segment without length has none. */
  function Directions(at: seq<real>, lens: seq<real>): (u: seq<real>)
    requires |at| == |lens| + 1
    ensures |u| == |lens|
  {
    seq(|lens|, i requires 0 <= i < |lens| => if lens[i] > 0.0 then (at[i + 1] - at[i]) / lens[i] else 0.0)
  }

  function Along(plan: seq<PlanStop>, rows: seq<nat>, f: PlanStop -> real): (v: seq<real>)
    requires forall i :: 0 <= i < |rows| ==> rows[i] < |plan|
    ensures |v| == |rows|
  {
    seq(|rows|, i requires 0 <= i < |rows| => f(plan[rows[i]]))
  }

  /** The line through two or more rows of the plan. */
  function LineOf(h: Distance, plan: seq<PlanStop>, trip: int, rows: seq<nat>): (line: TripLine)
    requires |rows| >= 2 && forall i :: 0 <= i < |rows| ==> rows[i] < |plan|
  {
    var xs, ys := Along(plan, rows, (p: PlanStop) => p.x), Along(plan, rows, (p: PlanStop) => p.y);
    var lens := SegLens(h, xs, ys);
    TripLine(trip, rows, xs, ys, Cumulative(lens), Times(plan, rows), lens, Directions(xs, lens), Directions(ys, lens))
  }

  // ---- the geometry of a built line ----

  lemma SquareScaled(c: real, len: real, dx: real)
    requires c * len == dx
    ensures dx * dx == (c * c) * (len * len)
  {
    assert (c * len) * (c * len) == (c * c) * (len * len);
  }

  lemma Cancel(a: real, b: real, product: real)
    requires product == a * b == b && b > 0.0
    ensures a == 1.0
  {
    var z := 1.0 / b;
    assert b * z == 1.0;
    assert a * b * z == a * (b * z);
  }

  lemma UnitSum(s: real, t: real, q: real, x: real, y: real)
    requires x == s * q && y == t * q && q == x + y && q > 0.0
    ensures s + t == 1.0
  {
    var product := (s + t) * q;
    assert product == x + y;
    Cancel(s + t, q, product);
  }

  lemma UnitVector(c: real, d: real, len: real, dx: real, dy: real, q: real)
    requires len > 0.0 && c * len == dx && d * len == dy && q == len * len && q == dx * dx + dy * dy
    ensures c * c + d * d == 1.0
  {
    SquareScaled(c, len, dx);
    SquareScaled(d, len, dy);
    Positive(len, q);
    UnitSum(c * c, d * d, q, dx * dx, dy * dy);
  }

  lemma NoLength(dx: real, dy: real, xx: real, yy: real)
    requires xx == dx * dx && yy == dy * dy && xx + yy == 0.0
    ensures dx == 0.0 && dy == 0.0
  {
    Positive(dx, xx);
    Positive(dy, yy);
  }

  /** One segment between two stops `dx` and `dy` apart, with its direction as `Directions` gives it. */
  lemma SegmentLeadsOn(dx: real, dy: real, len: real, c: real, d: real)
    requires len >= 0.0 && len * len == dx * dx + dy * dy
    requires c == (if len > 0.0 then dx / len else 0.0) && d == (if len > 0.0 then dy / len else 0.0)
    ensures (len > 0.0 ==> c * c + d * d == 1.0) && len * c == dx && len * d == dy
  {
    if len > 0.0 {
      assert c * len == dx && d * len == dy;
      UnitVector(c, d, len, dx, dy, len * len);
    } else {
      assert len * len == 0.0;
      NoLength(dx, dy, dx * dx, dy * dy);
    }
  }

  ghost predicate Rows(plan: seq<PlanStop>, rows: seq<nat>) {
    && |rows| >= 2 && (forall i :: 0 <= i < |rows| ==> rows[i] < |plan|)
    && forall i, j :: 0 <= i < j < |rows| ==> rows[i] < rows[j]
  }

  /** What is known of segment `k` of a line. */
  ghost predicate SegmentIs(h: Distance, line: TripLine, k: nat, a: PlanStop, b: PlanStop)
    requires line.Valid() && k < |line.segLen|
  {
    var len := line.segLen[k];
    && line.x[k] == a.x && line.y[k] == a.y && len == h(b.x - a.x, b.y - a.y)
    && line.ux[k] == (if len > 0.0 then (b.x - a.x) / len else 0.0)
    && line.uy[k] == (if len > 0.0 then (b.y - a.y) / len else 0.0)
  }

  lemma BuiltSegment(h: Distance, plan: seq<PlanStop>, trip: int, rows: seq<nat>, k: nat)
    requires SortedByTime(plan) && Rows(plan, rows) && k < |rows| - 1
    ensures var line := LineOf(h, plan, trip, rows);
      && line.Valid() && |line.segLen| == |rows| - 1 && SegmentIs(h, line, k, plan[rows[k]], plan[rows[k + 1]])
      && line.trip == trip && line.rows == rows
      && line.tb[k] == plan[rows[k]].tb && line.tb[k + 1] == plan[rows[k + 1]].tb
  {
    LineIsValid(h, plan, trip, rows);
    var line := LineOf(h, plan, trip, rows);
    assert line.segLen[k] == Gap(h, line.x, line.y, k);
  }

  /** Segment `k` leads from stop `a` in a unit direction to stop `b`. */
  predicate LeadsOn(line: TripLine, k: nat, a: PlanStop, b: PlanStop)
    requires line.Valid() && k < |line.segLen|
  {
    && UnitAt(line, k) && line.x[k] == a.x && line.y[k] == a.y
    && line.x[k] + line.segLen[k] * line.ux[k] == b.x && line.y[k] + line.segLen[k] * line.uy[k] == b.y
  }

  lemma SegmentIsUnit(h: Distance, line: TripLine, k: nat, a: PlanStop, b: PlanStop)
    requires line.Valid() && k < |line.segLen| && Euclidean(h) && SegmentIs(h, line, k, a, b)
    ensures LeadsOn(line, k, a, b)
  {
    var dx, dy, len := b.x - a.x, b.y - a.y, line.segLen[k];
    assert len * len == dx * dx + dy * dy;
    SegmentLeadsOn(dx, dy, len, line.ux[k], line.uy[k]);
  }

  /** Each segment of a built line leads in a unit direction from one stop to the next. */
  lemma SegmentsLeadOn(h: Distance, plan: seq<PlanStop>, trip: int, rows: seq<nat>, k: nat, line: TripLine)
    requires SortedByTime(plan) && Rows(plan, rows) && Euclidean(h) && k < |rows| - 1
    requires line == LineOf(h, plan, trip, rows)
    ensures line.Valid() && |line.segLen| == |rows| - 1 && LeadsOn(line, k, plan[rows[k]], plan[rows[k + 1]])
  {
    BuiltSegment(h, plan, trip, rows, k);
    SegmentIsUnit(h, line, k, plan[rows[k]], plan[rows[k + 1]]);
  }

  lemma {:induction false} CumulativeSorted(lens: seq<real>)
    requires forall i :: 0 <= i < |lens| ==> lens[i] >= 0.0
    ensures Sorted(Cumulative(lens))
  {
    if lens != [] {
      CumulativeSorted(lens[..|lens| - 1]);
    }
  }

  lemma TimesSorted(plan: seq<PlanStop>, rows: seq<nat>)
    requires SortedByTime(plan) && forall i :: 0 <= i < |rows| ==> rows[i] < |plan|
    requires forall i, j :: 0 <= i < j < |rows| ==> rows[i] < rows[j]
    ensures Sorted(Times(plan, rows))
  {
    var tb := Times(plan, rows);
    forall i, j | 0 <= i <= j < |tb| ensures tb[i] <= tb[j] {
      assert i < j ==> rows[i] < rows[j];
    }
  }

  /** Every line built from a plan sorted by time is what the searches on it rely on. */
  lemma LineIsValid(h: Distance, plan: seq<PlanStop>, trip: int, rows: seq<nat>)
    requires SortedByTime(plan) && |rows| >= 2 && forall i :: 0 <= i < |rows| ==> rows[i] < |plan|
    requires forall i, j :: 0 <= i < j < |rows| ==> rows[i] < rows[j]
    ensures LineOf(h, plan, trip, rows).Valid()
  {
    CumulativeSorted(LineOf(h, plan, trip, rows).segLen);
    TimesSorted(plan, rows);
  }

  /** What is built for a trip: nothing from a single stop. */
  type Builder = int -> Option<TripLine>

  function BuilderOf(h: Distance, plan: seq<PlanStop>): Builder {
    trip => if |RowsOf(plan, trip)| >= 2 then Some(LineOf(h, plan, trip, RowsOf(plan, trip))) else None
  }

  ghost predicate Builds(build: Builder, trip: int) {
    build(trip).Some? ==> build(trip).value.Valid() && build(trip).value.trip == trip
  }

  lemma BuilderIsValid(h: Distance, plan: seq<PlanStop>, trip: int)
    requires SortedByTime(plan)
    ensures Builds(BuilderOf(h, plan), trip)
  {
    if |RowsOf(plan, trip)| >= 2 {
      LineIsValid(h, plan, trip, RowsOf(plan, trip));
    }
  }

  /** The lines of the trips for which there is one, in order. */
  function LinesOf(build: Builder, trips: seq<int>): seq<TripLine> {
    if trips == [] then []
    else
      var k := |trips| - 1;
      LinesOf(build, trips[..k]) + (if build(trips[k]).Some? then [build(trips[k]).value] else [])
  }

  predicate Distinct(trips: seq<int>) { forall i, j :: 0 <= i < j < |trips| ==> trips[i] != trips[j] }

  ghost predicate LinesValid(lines: seq<TripLine>) {
    && (forall i :: 0 <= i < |lines| ==> lines[i].Valid())
    && (forall i, j :: 0 <= i < j < |lines| ==> lines[i].trip != lines[j].trip)
  }

  /** They are valid and for different trips. */
  lemma {:induction false} LinesAreValid(build: Builder, trips: seq<int>)
    requires forall trip :: Builds(build, trip)
    requires Distinct(trips)
    ensures LinesValid(LinesOf(build, trips))
    ensures forall line :: line in LinesOf(build, trips) ==> line.trip in trips
  {
    if trips != [] {
      var k := |trips| - 1;
      LinesAreValid(build, trips[..k]);
      var before := LinesOf(build, trips[..k]);
      assert trips[k] !in trips[..k];
      assert Builds(build, trips[k]);
      forall i | 0 <= i < |before| ensures before[i].trip != trips[k] {
        assert before[i] in before;
      }
    }
  }

  /** They leave out only trips of a single stop. */
  lemma {:induction false} LinesAreComplete(build: Builder, trips: seq<int>)
    ensures forall trip :: trip in trips && build(trip).Some? ==> build(trip).value in LinesOf(build, trips)
  {
    if trips != [] {
      LinesAreComplete(build, trips[..|trips| - 1]);
    }
  }

  lemma PlannedLinesAreValid(h: Distance, plan: seq<PlanStop>)
    requires SortedByTime(plan)
    ensures LinesValid(LinesOf(BuilderOf(h, plan), Trips(plan)))
  {
    forall trip ensures Builds(BuilderOf(h, plan), trip) {
      BuilderIsValid(h, plan, trip);
    }
    LinesAreValid(BuilderOf(h, plan), Trips(plan));
  }

  /** The lines of a plan sorted by time: valid, one for each trip of two or more stops. */
  method BuildLines(h: Distance, plan: seq<PlanStop>) returns (lines: seq<TripLine>)
    requires SortedByTime(plan)
    ensures lines == LinesOf(BuilderOf(h, plan), Trips(plan))
    ensures LinesValid(lines)
    ensures forall trip :: |RowsOf(plan, trip)| >= 2 ==> LineOf(h, plan, trip, RowsOf(plan, trip)) in lines
  {
    PlannedLinesAreValid(h, plan);
    LinesAreComplete(BuilderOf(h, plan), Trips(plan));
    forall trip | |RowsOf(plan, trip)| >= 2 ensures BuilderOf(h, plan)(trip).Some? && trip in Trips(plan) {
      assert plan[RowsOf(plan, trip)[0]].trip == trip;
    }
    lines := Collect(BuilderOf(h, plan), Trips(plan));
  }

  // ---- lines of no length ----

  /** The rows of a plan of a single trip are all its rows. */
  lemma {:induction false} RowsOfOneTrip(plan: seq<PlanStop>, trip: int)
    requires forall i :: 0 <= i < |plan| ==> plan[i].trip == trip
    ensures RowsOf(plan, trip) == seq(|plan|, i => i)
  {
    if plan != [] {
      RowsOfOneTrip(plan[..|plan| - 1], trip);
    }
  }

  /** A trip between two stops at one place gets a line without length: its first window has no
      segments to choose from. */
  lemma CoincidentStopsLeaveNoWindow(h: Distance, trip: int, x: real, y: real, t0: real, t1: real, hi: real)
    requires h(0.0, 0.0) == 0.0 && t0 <= t1 && hi > 0.0
    ensures var line := BuilderOf(h, [PlanStop(trip, x, y, t0), PlanStop(trip, x, y, t1)])(trip);
      && line.Some? && line.value.Valid() && line.value.Length() == 0.0
      && var (a, b) := Window(line.value, 0.0, hi);
         a == b
  {
    var plan := [PlanStop(trip, x, y, t0), PlanStop(trip, x, y, t1)];
    RowsOfOneTrip(plan, trip);
    BuilderIsValid(h, plan, trip);
    var line := BuilderOf(h, plan)(trip).value;
    assert line.segLen[0] == Gap(h, line.x, line.y, 0) == h(0.0, 0.0);
    WindowNonempty(line, 0.0, hi);
  }

  method Collect(build: Builder, trips: seq<int>) returns (lines: seq<TripLine>)
    ensures lines == LinesOf(build, trips)
  {
    lines := [];
    for i := 0 to |trips|
      invariant lines == LinesOf(build, trips[..i])
    {
      assert trips[..i + 1][..i] == trips[..i];
      var line := build(trips[i]);
      if line.Some? {
        lines := lines + [line.value];
      }
    }
    assert trips[..|trips|] == trips;
  }
}
