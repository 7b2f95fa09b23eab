/** Where on the lines a point may be: candidate projections, their scores and the best of them. */
module Candidates {
  import opened Numbers
  import opened Options
  import opened RouteLine
  import opened Searching

  const MAX_KMH := 120.0
  const KMH := 3.6
  const COURSE_W := 80.0
  const BACK_TOL_M := 30.0
  const BACK_W := 2.0
  const BACK_WIN_M := 300.0
  const AHEAD_M := 300.0
  const PRIOR_W := 0.05
  const ACQ_PRIOR_W := 0.2
  const ACQ_PRE_S := 1800.0
  const ACQ_POST_S := 1200.0
  const END_ZONE_M := 400.0
  const ARRIVE_M := 60.0
  const NEXT_PRE_S := 1800.0

  /** One telemetry point: raw coordinates, their local metres, speed in km/h and course. */
  datatype Point = Point(
    t: real, lon: real, lat: real, x: real, y: real, speed: real, course: Heading, valid: bool)

  /** A projection chosen as the best on its line. */
  datatype Cand = Cand(line: nat, s: real, dist: real, cos: real, score: real)

  /** The lines of a vehicle's trips and the distance they are measured with. */
  datatype Trips = Trips(h: Distance, lines: seq<TripLine>) {
    /** Lines as built from a plan, each for its own trip. */
    ghost predicate Valid() {
      && (forall i :: 0 <= i < |lines| ==> lines[i].Valid())
      && (forall i, j :: 0 <= i < j < |lines| ==> lines[i].trip != lines[j].trip)
    }
  }

  /** Piecewise-linear interpolation that is constant outside the nodes. */
  function Interp(xs: seq<real>, ys: seq<real>, v: real): real
    requires |xs| == |ys| > 0 && Sorted(xs)
  {
    RightSplits(xs, v);
    var j := Right(xs, v) - 1;
    if j < 0 then ys[0]
    else if j == |xs| - 1 then ys[j]
    else Lerp(ys[j], ys[j + 1], (v - xs[j]) / (xs[j + 1] - xs[j]))
  }

  lemma FractionOfGap(x: real, x1: real, v: real)
    requires x <= v < x1
    ensures 0.0 <= (v - x) / (x1 - x) <= 1.0
  {
    Divided(0.0, v - x, x1 - x);
    Divided(v - x, x1 - x, x1 - x);
  }

  /** The plan the prior compares with is the one between the stops around the point; at coincident
      stops it is that of the last of them. */
  lemma InterpIsBetween(line: TripLine, s: real)
    requires line.Valid() && 0.0 <= s < line.Length()
    ensures var k := StopsAround(line, s).0; k < |line.segLen| && Interp(line.cum, line.tb, s) == Between(line, k, s)
  {
    StopsAroundBracket(line, s);
    RightSplits(line.cum, s);
    var k := StopsAround(line, s).0;
    assert line.cum[k + 1] - line.cum[k] == line.segLen[k];
    FractionOfGap(line.cum[k], line.cum[k + 1], s);
    assert Fraction(line, k, s) == (s - line.cum[k]) / line.segLen[k];
  }

  /** It never falls along the line. */
  lemma InterpMonotone(line: TripLine, s: real, s1: real)
    requires line.Valid() && 0.0 <= s <= s1 < line.Length()
    ensures Interp(line.cum, line.tb, s) <= Interp(line.cum, line.tb, s1)
  {
    InterpIsBetween(line, s);
    InterpIsBetween(line, s1);
    SearchesMonotone(line.cum, s, s1);
    var k, k1 := StopsAround(line, s).0, StopsAround(line, s1).0;
    if k == k1 {
      BetweenMonotone(line, k, s, s1);
    } else {
      BetweenBounds(line, k, s);
      BetweenBounds(line, k1, s1);
      assert line.tb[k + 1] <= line.tb[k1];
    }
  }

  /** Distance, course against the segment, schedule prior and going back, in metres. */
  function Score(line: TripLine, pr: Projection, t: real, priorW: real, backFrom: Option<real>): real
    requires line.Valid()
  {
    pr.dist
    + (if pr.cos != 0.0 then COURSE_W * (1.0 - pr.cos) / 2.0 else 0.0)
    + priorW * Abs(t - Interp(line.cum, line.tb, pr.s))
    + (if backFrom.Some? then BACK_W * Max(backFrom.value - pr.s - BACK_TOL_M, 0.0) else 0.0)
  }

  /** Candidate `j` is there, none scores better, and none before it as well. */
  ghost predicate IsFirstBest(f: nat -> Option<Cand>, a: nat, b: nat, j: nat) {
    && a <= j < b && f(j).Some?
    && forall k :: a <= k < b && f(k).Some? ==>
         f(j).value.score <= f(k).value.score && (k < j ==> f(j).value.score < f(k).value.score)
  }

  /** The first of the best of the candidates `[a, b)`, none only when all are absent. */
  function FirstBest(f: nat -> Option<Cand>, a: nat, b: nat): (j: Option<nat>)
    requires a <= b
    ensures j.None? <==> forall k :: a <= k < b ==> f(k).None?
    ensures j.Some? ==> IsFirstBest(f, a, b, j.value)
    decreases b
  {
    if a == b then None
    else
      var j := FirstBest(f, a, b - 1);
      if f(b - 1).Some? && (j.None? || f(b - 1).value.score < f(j.value).value.score) then Some(b - 1) else j
  }

  /** The projection onto segment `k` of line `i` as a candidate. */
  function CandAt(
      trips: Trips, i: nat, p: Point, heading: Option<Heading>, k: nat, priorW: real, backFrom: Option<real>)
    : (c: Cand)
    requires trips.Valid() && i < |trips.lines| && k < |trips.lines[i].segLen|
    ensures c.line == i && 0.0 <= c.s <= trips.lines[i].Length() && c.dist >= 0.0
  {
    var line := trips.lines[i];
    ProjectionOnLine(trips.h, line, p.x, p.y, heading, k);
    var pr := ProjectOn(trips.h, line, p.x, p.y, heading, k);
    Cand(i, pr.s, pr.dist, pr.cos, Score(line, pr, p.t, priorW, backFrom))
  }

  function OnSegments(trips: Trips, i: nat, p: Point, heading: Option<Heading>, priorW: real, backFrom: Option<real>)
    : nat -> Option<Cand>
    requires trips.Valid() && i < |trips.lines|
  {
    (k: nat) => if k < |trips.lines[i].segLen| then Some(CandAt(trips, i, p, heading, k, priorW, backFrom)) else None
  }

  /** The best projection onto the segments `[a, b)` of line `i`. */
  function Best(
      trips: Trips, i: nat, p: Point, heading: Option<Heading>, a: nat, b: nat, priorW: real, backFrom: Option<real>)
    : (c: Cand)
    requires trips.Valid() && i < |trips.lines| && a < b <= |trips.lines[i].segLen|
    ensures c.line == i && 0.0 <= c.s <= trips.lines[i].Length() && c.dist >= 0.0
  {
    var f := OnSegments(trips, i, p, heading, priorW, backFrom);
    assert f(a).Some?;
    var j := FirstBest(f, a, b).value;
    f(j).value
  }

  predicate NearEnd(line: TripLine, progress: real, t: real)
    requires line.Valid()
  {
    line.Length() - progress < END_ZONE_M || t > line.End()
  }

  function Reach(dt: real): real { MAX_KMH / KMH * dt + AHEAD_M }

  /** The best projection onto the stretch of line `i` from `lo` to `hi` metres. */
  function BestWithin(
      trips: Trips, i: nat, p: Point, heading: Option<Heading>, lo: real, hi: real, priorW: real,
      backFrom: Option<real>)
    : (c: Cand)
    requires trips.Valid() && i < |trips.lines| && lo <= hi && 0.0 < hi && lo < trips.lines[i].Length()
    ensures c.line == i && 0.0 <= c.s <= trips.lines[i].Length()
  {
    WindowNonempty(trips.lines[i], lo, hi);
    var (a, b) := Window(trips.lines[i], lo, hi);
    Best(trips, i, p, heading, a, b, priorW, backFrom)
  }

  /** The best candidate on the current line around its progress. */
  function Onward(trips: Trips, i: nat, progress: real, p: Point, heading: Option<Heading>, dt: real): (c: Cand)
    requires trips.Valid() && i < |trips.lines| && 0.0 <= progress <= trips.lines[i].Length() && dt >= 0.0
    ensures c.line == i && 0.0 <= c.s <= trips.lines[i].Length()
  {
    BestWithin(trips, i, p, heading, progress - BACK_WIN_M, progress + Reach(dt), PRIOR_W, Some(progress))
  }

  /** The best candidate on the beginning of line `i`: there is none exactly on a line of no length,
      where the window is empty and taking the smallest score of nothing raises an error. */
  function Ahead(trips: Trips, i: nat, p: Point, heading: Option<Heading>, dt: real): (c: Option<Cand>)
    requires trips.Valid() && i < |trips.lines| && dt >= 0.0
    ensures c.None? <==> trips.lines[i].Length() == 0.0
    ensures c.Some? ==> c.value.line == i && 0.0 <= c.value.s <= trips.lines[i].Length()
  {
    WindowNonempty(trips.lines[i], 0.0, Reach(dt));
    var (a, b) := Window(trips.lines[i], 0.0, Reach(dt));
    if a < b then Some(BestWithin(trips, i, p, heading, 0.0, Reach(dt), PRIOR_W, None)) else None
  }

  /** The beginning of the next line is looked at near the end of line `i`. */
  predicate LooksAhead(trips: Trips, i: nat, progress: real, t: real)
    requires trips.Valid() && i < |trips.lines|
  {
    && i + 1 < |trips.lines| && NearEnd(trips.lines[i], progress, t)
    && t >= trips.lines[i + 1].Start() - NEXT_PRE_S
  }

  /** The best candidate on the current line and, near its end, on the beginning of the next; an error
      exactly when a next line of no length is looked at. */
  function Track(trips: Trips, i: nat, progress: real, p: Point, heading: Option<Heading>, dt: real)
    : (c: Option<Cand>)
    requires trips.Valid() && i < |trips.lines| && 0.0 <= progress <= trips.lines[i].Length() && dt >= 0.0
    ensures c.None? <==> LooksAhead(trips, i, progress, p.t) && trips.lines[i + 1].Length() == 0.0
    ensures c.Some? ==> (c.value.line == i || c.value.line == i + 1 < |trips.lines|)
                        && 0.0 <= c.value.s <= trips.lines[c.value.line].Length()
  {
    var best := Onward(trips, i, progress, p, heading, dt);
    if LooksAhead(trips, i, progress, p.t) then
      match Ahead(trips, i + 1, p, heading, dt)
      case None => None
      case Some(cand) => Some(if cand.score < best.score then cand else best)
    else Some(best)
  }

  predicate Admits(line: TripLine, t: real)
    requires line.Valid()
  {
    line.Start() - ACQ_PRE_S <= t <= line.End() + ACQ_POST_S
  }

  /** The best projection onto the whole of line `i`. */
  function Whole(trips: Trips, i: nat, p: Point, heading: Option<Heading>): (c: Cand)
    requires trips.Valid() && i < |trips.lines|
    ensures c.line == i && 0.0 <= c.s <= trips.lines[i].Length()
  {
    Best(trips, i, p, heading, 0, |trips.lines[i].segLen|, ACQ_PRIOR_W, None)
  }

  /** The candidate of line `i` in a search for a trip: none where the schedule excludes the time. */
  function LineCand(trips: Trips, p: Point, heading: Option<Heading>, i: nat): Option<Cand>
    requires trips.Valid() && i < |trips.lines|
  {
    if Admits(trips.lines[i], p.t) then Some(Whole(trips, i, p, heading)) else None
  }

  function OnLines(trips: Trips, p: Point, heading: Option<Heading>): nat -> Option<Cand>
    requires trips.Valid()
  {
    (i: nat) => if i < |trips.lines| then LineCand(trips, p, heading, i) else None
  }

  /** The first best of the candidates before `n`. */
  function Chosen(f: nat -> Option<Cand>, n: nat): (best: Option<Cand>)
    ensures best.Some? ==> exists j: nat :: j < n && f(j) == best
  {
    var j := FirstBest(f, 0, n);
    if j.None? then None else f(j.value)
  }

  /** A later candidate is chosen only when it is strictly better. */
  lemma ChosenStep(f: nat -> Option<Cand>, n: nat)
    ensures Chosen(f, n + 1) ==
              if f(n).Some? && (Chosen(f, n).None? || f(n).value.score < Chosen(f, n).value.score) then f(n)
              else Chosen(f, n)
  {
  }

  /** The trip found by the schedule window and the projection onto whole lines. */
  function Search(trips: Trips, p: Point, heading: Option<Heading>): (best: Option<Cand>)
    requires trips.Valid()
    ensures best.Some? ==>
              best.value.line < |trips.lines| && 0.0 <= best.value.s <= trips.lines[best.value.line].Length()
  {
    Chosen(OnLines(trips, p, heading), |trips.lines|)
  }

  /** Segment `k` by its distance alone. */
  function ByDistance(trips: Trips, i: nat, p: Point): nat -> Option<Cand>
    requires trips.Valid() && i < |trips.lines|
  {
    (k: nat) =>
      if k < |trips.lines[i].segLen| then
        var pr := ProjectOn(trips.h, trips.lines[i], p.x, p.y, None, k);
        Some(Cand(i, pr.s, pr.dist, pr.cos, pr.dist))
      else None
  }

  /** The nearest projection onto the segments `[a, b)` of line `i`, the first of them if there are more. */
  function Nearest(trips: Trips, i: nat, p: Point, a: nat, b: nat): (c: Cand)
    requires trips.Valid() && i < |trips.lines| && a < b <= |trips.lines[i].segLen|
    ensures c.line == i && 0.0 <= c.s <= trips.lines[i].Length()
  {
    var f := ByDistance(trips, i, p);
    assert f(a).Some?;
    var j := FirstBest(f, a, b).value;
    ProjectionOnLine(trips.h, trips.lines[i], p.x, p.y, None, j);
    f(j).value
  }

  /** The nearest projection of a standing point onto the beginning of line `i`; an error exactly when
      the line has no length. */
  function Arrival(trips: Trips, i: nat, p: Point): (c: Option<Cand>)
    requires trips.Valid() && i < |trips.lines|
    ensures c.None? <==> trips.lines[i].Length() == 0.0
    ensures c.Some? ==> c.value.line == i && 0.0 <= c.value.s <= trips.lines[i].Length()
  {
    WindowNonempty(trips.lines[i], 0.0, ARRIVE_M);
    var (a, b) := Window(trips.lines[i], 0.0, ARRIVE_M);
    if a < b then Some(Nearest(trips, i, p, a, b)) else None
  }

  /** No segment of the window comes nearer, nor does any point of one. */
  lemma NearestIsNearest(trips: Trips, i: nat, p: Point, a: nat, b: nat, k: nat, v: real)
    requires trips.Valid() && i < |trips.lines| && a < b <= |trips.lines[i].segLen| && a <= k < b
    requires Euclidean(trips.h) && UnitAt(trips.lines[i], k) && 0.0 <= v <= trips.lines[i].segLen[k]
    ensures Nearest(trips, i, p, a, b).dist <= DistanceAlong(trips.h, trips.lines[i], p.x, p.y, k, v)
  {
    var f := ByDistance(trips, i, p);
    assert f(k).Some? && f(a).Some?;
    ProjectionIsNearest(trips.h, trips.lines[i], p.x, p.y, None, k, v);
  }

  /** Standing at the terminus: no point of the first 60 metres of the next line is nearer than the candidate. */
  lemma ArrivalIsNearest(trips: Trips, i: nat, p: Point, k: nat, v: real)
    requires trips.Valid() && i < |trips.lines| && trips.lines[i].Length() > 0.0 && k < |trips.lines[i].segLen|
    requires Euclidean(trips.h) && UnitAt(trips.lines[i], k) && 0.0 <= v <= trips.lines[i].segLen[k]
    requires trips.lines[i].cum[k] < 60.0 && trips.lines[i].cum[k + 1] > 0.0
    ensures Arrival(trips, i, p).Some?
    ensures Arrival(trips, i, p).value.dist <= DistanceAlong(trips.h, trips.lines[i], p.x, p.y, k, v)
  {
    WindowNonempty(trips.lines[i], 0.0, ARRIVE_M);
    WindowIs(trips.lines[i], 0.0, ARRIVE_M, k);
    var (a, b) := Window(trips.lines[i], 0.0, ARRIVE_M);
    NearestIsNearest(trips, i, p, a, b, k, v);
  }

  lemma SearchStep(trips: Trips, p: Point, heading: Option<Heading>, f: nat -> Option<Cand>, i: nat)
    requires trips.Valid() && i < |trips.lines| && f == OnLines(trips, p, heading)
    ensures var cand := LineCand(trips, p, heading, i);
      Chosen(f, i + 1) ==
        if cand.Some? && (Chosen(f, i).None? || cand.value.score < Chosen(f, i).value.score) then cand
        else Chosen(f, i)
  {
    ChosenStep(f, i);
    assert f(i) == LineCand(trips, p, heading, i);
  }

  /** The loop over all lines in the search for a trip. */
  method SearchAll(trips: Trips, p: Point, heading: Option<Heading>) returns (best: Option<Cand>)
    requires trips.Valid()
    ensures best == Search(trips, p, heading)
  {
    ghost var f := OnLines(trips, p, heading);
    best := None;
    for i := 0 to |trips.lines|
      invariant best == Chosen(f, i)
    {
      var cand := LineCand(trips, p, heading, i);
      SearchStep(trips, p, heading, f, i);
      if cand.Some? && (best.None? || cand.value.score < best.value.score) {
        best := cand;
      }
    }
  }
}
