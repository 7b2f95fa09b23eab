/** Which projection the matcher chooses: the cheapest of a stretch of a line, by a price in metres. */
module Scoring {
  import opened Candidates
  import opened Numbers
  import opened Options
  import opened RouteLine
  import opened Searching

  // ---- the price of a projection ----

  /** The planned moment at `s`: between the stops around it, or that of the last stop. */
  function PlannedOn(line: TripLine, s: real): real
    requires line.Valid() && 0.0 <= s <= line.Length()
  {
    StopsAroundBracket(line, s);
    if s < line.Length() then Between(line, StopsAround(line, s).0, s) else line.tb[|line.tb| - 1]
  }

  /** The distance; up to 80 metres against the course; `weight` metres for a second off the plan; and two for
      every metre back beyond 30. */
  function Price(line: TripLine, pr: Projection, t: real, weight: real, back: Option<real>): real
    requires line.Valid() && 0.0 <= pr.s <= line.Length()
  {
    pr.dist + (if pr.cos == 0.0 then 0.0 else 40.0 * (1.0 - pr.cos)) + weight * Abs(t - PlannedOn(line, pr.s))
    + (if back.Some? && back.value - pr.s > 30.0 then 2.0 * (back.value - pr.s - 30.0) else 0.0)
  }

  lemma InterpIsPlanned(line: TripLine, s: real)
    requires line.Valid() && 0.0 <= s <= line.Length()
    ensures Interp(line.cum, line.tb, s) == PlannedOn(line, s)
  {
    if s < line.Length() {
      InterpIsBetween(line, s);
    } else {
      RightSplits(line.cum, s);
    }
  }

  lemma ScoreIsPrice(line: TripLine, pr: Projection, t: real, weight: real, back: Option<real>)
    requires line.Valid() && 0.0 <= pr.s <= line.Length()
    ensures Candidates.Score(line, pr, t, weight, back) == Price(line, pr, t, weight, back)
  {
    InterpIsPlanned(line, pr.s);
  }

  /** Segment `k` of line `i` as a candidate at its price. */
  function Priced(
      trips: Trips, i: nat, p: Point, heading: Option<Heading>, k: nat, weight: real, back: Option<real>): Cand
    requires trips.Valid() && i < |trips.lines| && k < |trips.lines[i].segLen|
  {
    ProjectionOnLine(trips.h, trips.lines[i], p.x, p.y, heading, k);
    var pr := ProjectOn(trips.h, trips.lines[i], p.x, p.y, heading, k);
    Cand(i, pr.s, pr.dist, pr.cos, Price(trips.lines[i], pr, p.t, weight, back))
  }

  lemma CandIsPriced(
      trips: Trips, i: nat, p: Point, heading: Option<Heading>, k: nat, weight: real, back: Option<real>)
    requires trips.Valid() && i < |trips.lines| && k < |trips.lines[i].segLen|
    ensures CandAt(trips, i, p, heading, k, weight, back) == Priced(trips, i, p, heading, k, weight, back)
  {
    ProjectionOnLine(trips.h, trips.lines[i], p.x, p.y, heading, k);
    ScoreIsPrice(trips.lines[i], ProjectOn(trips.h, trips.lines[i], p.x, p.y, heading, k), p.t, weight, back);
  }

  // ---- the cheapest of a stretch ----

  /** Segment `k` lies, in part, between `lo` and `hi` metres. */
  predicate Meets(line: TripLine, lo: real, hi: real, k: nat)
    requires line.Valid()
  {
    k < |line.segLen| && line.cum[k] < hi && lo < line.cum[k + 1]
  }

  /** Segment `j` of the stretch gives the candidate: none is cheaper, and none before it as cheap. */
  ghost predicate CheapestAt(
      trips: Trips, i: nat, p: Point, heading: Option<Heading>, weight: real, back: Option<real>,
      lo: real, hi: real, c: Cand, j: nat)
    requires trips.Valid() && i < |trips.lines|
  {
    && Meets(trips.lines[i], lo, hi, j) && c == Priced(trips, i, p, heading, j, weight, back)
    && (forall k: nat :: Meets(trips.lines[i], lo, hi, k) ==>
          var other := Priced(trips, i, p, heading, k, weight, back);
          c.score <= other.score && (k < j ==> c.score < other.score))
  }

  ghost predicate Cheapest(
      trips: Trips, i: nat, p: Point, heading: Option<Heading>, weight: real, back: Option<real>,
      lo: real, hi: real, c: Cand)
    requires trips.Valid() && i < |trips.lines|
  {
    exists j: nat :: CheapestAt(trips, i, p, heading, weight, back, lo, hi, c, j)
  }

  /** Segment `j` of `[a, b)` is the first of the best. */
  ghost predicate BestAt(
      trips: Trips, i: nat, p: Point, heading: Option<Heading>, weight: real, back: Option<real>,
      a: nat, b: nat, c: Cand, j: nat)
    requires trips.Valid() && i < |trips.lines| && b <= |trips.lines[i].segLen|
  {
    && a <= j < b && c == Priced(trips, i, p, heading, j, weight, back)
    && (forall k: nat :: a <= k < b ==>
          var other := Priced(trips, i, p, heading, k, weight, back);
          c.score <= other.score && (k < j ==> c.score < other.score))
  }

  /** What `f` offers for the segments `[a, b)` is what they cost. */
  ghost predicate Offers(
      f: nat -> Option<Cand>, trips: Trips, i: nat, p: Point, heading: Option<Heading>, weight: real,
      back: Option<real>, a: nat, b: nat)
    requires trips.Valid() && i < |trips.lines| && b <= |trips.lines[i].segLen|
  {
    forall k: nat :: a <= k < b ==> f(k) == Some(Priced(trips, i, p, heading, k, weight, back))
  }

  lemma SegmentsOffer(
      trips: Trips, i: nat, p: Point, heading: Option<Heading>, weight: real, back: Option<real>, a: nat, b: nat)
    requires trips.Valid() && i < |trips.lines| && b <= |trips.lines[i].segLen|
    ensures Offers(OnSegments(trips, i, p, heading, weight, back), trips, i, p, heading, weight, back, a, b)
  {
    forall k: nat | a <= k < b
      ensures OnSegments(trips, i, p, heading, weight, back)(k)
           == Some(Priced(trips, i, p, heading, k, weight, back))
    {
      CandIsPriced(trips, i, p, heading, k, weight, back);
    }
  }

  lemma FirstBestIs(
      f: nat -> Option<Cand>, trips: Trips, i: nat, p: Point, heading: Option<Heading>, weight: real,
      back: Option<real>, a: nat, b: nat) returns (j: nat)
    requires trips.Valid() && i < |trips.lines| && a < b <= |trips.lines[i].segLen|
    requires Offers(f, trips, i, p, heading, weight, back, a, b)
    ensures FirstBest(f, a, b) == Some(j) && f(j).Some?
    ensures BestAt(trips, i, p, heading, weight, back, a, b, f(j).value, j)
  {
    assert f(a).Some?;
    j := FirstBest(f, a, b).value;
    assert IsFirstBest(f, a, b, j);
  }

  lemma BestIs(
      trips: Trips, i: nat, p: Point, heading: Option<Heading>, weight: real, back: Option<real>, a: nat, b: nat)
      returns (j: nat)
    requires trips.Valid() && i < |trips.lines| && a < b <= |trips.lines[i].segLen|
    ensures BestAt(trips, i, p, heading, weight, back, a, b, Best(trips, i, p, heading, a, b, weight, back), j)
  {
    SegmentsOffer(trips, i, p, heading, weight, back, a, b);
    j := FirstBestIs(OnSegments(trips, i, p, heading, weight, back), trips, i, p, heading, weight, back, a, b);
  }

  lemma StretchIs(line: TripLine, lo: real, hi: real, a: nat, b: nat)
    requires line.Valid() && lo < line.Length() && lo < hi && 0.0 < hi && Window(line, lo, hi) == (a, b)
    ensures a < b <= |line.segLen| && forall k: nat :: a <= k < b <==> Meets(line, lo, hi, k)
  {
    WindowNonempty(line, lo, hi);
    forall k: nat ensures a <= k < b <==> Meets(line, lo, hi, k) {
      WindowIs(line, lo, hi, k);
    }
  }

  /** The first of the best over the segments of a stretch is the cheapest of the stretch. */
  lemma BestIsCheapest(
      trips: Trips, i: nat, p: Point, heading: Option<Heading>, weight: real, back: Option<real>, lo: real, hi: real)
    requires trips.Valid() && i < |trips.lines| && lo < trips.lines[i].Length() && lo < hi && 0.0 < hi
    ensures Cheapest(trips, i, p, heading, weight, back, lo, hi,
                     BestWithin(trips, i, p, heading, lo, hi, weight, back))
  {
    var (a, b) := Window(trips.lines[i], lo, hi);
    StretchIs(trips.lines[i], lo, hi, a, b);
    var j := BestIs(trips, i, p, heading, weight, back, a, b);
    assert CheapestAt(trips, i, p, heading, weight, back, lo, hi, Best(trips, i, p, heading, a, b, weight, back), j);
  }

  // ---- following a line ----

  /** How far ahead is looked: what 120 km/h allow, and 300 metres. */
  function Sight(dt: real): real { 120.0 / 3.6 * dt + 300.0 }

  lemma SightIs(dt: real)
    requires dt >= 0.0
    ensures Reach(dt) == Sight(dt) >= 300.0
  {
    assert 120.0 / 3.6 > 0.0;
    assert 120.0 / 3.6 * dt >= 0.0;
  }

  /** On its line the match follows the cheapest projection from 300 metres back to the end of sight. */
  lemma OnwardIsCheapest(trips: Trips, i: nat, progress: real, p: Point, heading: Option<Heading>, dt: real)
    requires trips.Valid() && i < |trips.lines| && 0.0 <= progress <= trips.lines[i].Length() && dt >= 0.0
    ensures Cheapest(trips, i, p, heading, 0.05, Some(progress), progress - 300.0, progress + Sight(dt),
                     Onward(trips, i, progress, p, heading, dt))
  {
    SightIs(dt);
    BestIsCheapest(trips, i, p, heading, 0.05, Some(progress), progress - 300.0, progress + Sight(dt));
  }

  /** On the beginning of a line that has a length, the cheapest up to the end of sight. */
  lemma AheadIsCheapest(trips: Trips, i: nat, p: Point, heading: Option<Heading>, dt: real)
    requires trips.Valid() && i < |trips.lines| && dt >= 0.0 && trips.lines[i].Length() > 0.0
    ensures Ahead(trips, i, p, heading, dt).Some?
    ensures Cheapest(trips, i, p, heading, 0.05, None, 0.0, Sight(dt), Ahead(trips, i, p, heading, dt).value)
  {
    SightIs(dt);
    BestIsCheapest(trips, i, p, heading, 0.05, None, 0.0, Sight(dt));
  }

  /** The next line is looked at within 400 metres of the end or past the planned end, from half an hour before
      its start. */
  predicate NextInView(trips: Trips, i: nat, progress: real, t: real)
    requires trips.Valid() && i < |trips.lines|
  {
    var line := trips.lines[i];
    && i + 1 < |trips.lines|
    && (line.Length() - progress < 400.0 || t > line.tb[|line.tb| - 1])
    && t >= trips.lines[i + 1].tb[0] - 1800.0
  }

  lemma TrackIs(trips: Trips, i: nat, progress: real, p: Point, heading: Option<Heading>, dt: real, c: Cand, d: Cand)
    requires trips.Valid() && i < |trips.lines| && 0.0 <= progress <= trips.lines[i].Length() && dt >= 0.0
    requires c == Onward(trips, i, progress, p, heading, dt)
    requires NextInView(trips, i, progress, p.t) ==> Ahead(trips, i + 1, p, heading, dt) == Some(d)
    ensures Track(trips, i, progress, p, heading, dt)
         == Some(if NextInView(trips, i, progress, p.t) && d.score < c.score then d else c)
  {
    assert LooksAhead(trips, i, progress, p.t) == NextInView(trips, i, progress, p.t);
  }

  /** Following takes the cheapest projection onto the line, or a cheaper one onto the beginning of the next. */
  lemma TrackIsCheapest(
      trips: Trips, i: nat, progress: real, p: Point, heading: Option<Heading>, dt: real, c: Cand, d: Cand)
    requires trips.Valid() && i < |trips.lines| && 0.0 <= progress <= trips.lines[i].Length() && dt >= 0.0
    requires c == Onward(trips, i, progress, p, heading, dt)
    requires NextInView(trips, i, progress, p.t) ==> Ahead(trips, i + 1, p, heading, dt) == Some(d)
    ensures Cheapest(trips, i, p, heading, 0.05, Some(progress), progress - 300.0, progress + Sight(dt), c)
    ensures NextInView(trips, i, progress, p.t) ==>
              Cheapest(trips, i + 1, p, heading, 0.05, None, 0.0, Sight(dt), d)
    ensures Track(trips, i, progress, p, heading, dt)
         == Some(if NextInView(trips, i, progress, p.t) && d.score < c.score then d else c)
  {
    TrackIs(trips, i, progress, p, heading, dt, c, d);
    OnwardIsCheapest(trips, i, progress, p, heading, dt);
    if NextInView(trips, i, progress, p.t) {
      AheadIsCheapest(trips, i + 1, p, heading, dt);
    }
  }

  // ---- searching for a trip ----

  /** A trip is searched for from half an hour before its start to 20 minutes after its end. */
  predicate InPlan(line: TripLine, t: real)
    requires line.Valid()
  {
    line.tb[0] - 1800.0 <= t <= line.tb[|line.tb| - 1] + 1200.0
  }

  lemma WholeIs(trips: Trips, i: nat, p: Point, heading: Option<Heading>) returns (j: nat)
    requires trips.Valid() && i < |trips.lines|
    ensures j < |trips.lines[i].segLen| && Whole(trips, i, p, heading) == Priced(trips, i, p, heading, j, 0.2, None)
    ensures forall k: nat :: k < |trips.lines[i].segLen| ==>
              Whole(trips, i, p, heading).score <= Priced(trips, i, p, heading, k, 0.2, None).score
  {
    j := BestIs(trips, i, p, heading, 0.2, None, 0, |trips.lines[i].segLen|);
  }

  lemma LineCandIs(trips: Trips, p: Point, heading: Option<Heading>, i: nat)
    requires trips.Valid() && i < |trips.lines|
    ensures OnLines(trips, p, heading)(i)
         == if InPlan(trips.lines[i], p.t) then Some(Whole(trips, i, p, heading)) else None
  {
  }

  /** The search finds something exactly when a trip is in plan, and then nothing on any such trip is cheaper. */
  lemma SearchIsCheapest(trips: Trips, p: Point, heading: Option<Heading>, i: nat, k: nat)
    requires trips.Valid() && i < |trips.lines| && InPlan(trips.lines[i], p.t) && k < |trips.lines[i].segLen|
    ensures var best := Search(trips, p, heading);
      && best.Some? && best.value.score <= Priced(trips, i, p, heading, k, 0.2, None).score
      && (exists i1: nat, j: nat ::
            OnTrip(trips, p, i1, j) && best.value == Priced(trips, i1, p, heading, j, 0.2, None))
  {
    var f := OnLines(trips, p, heading);
    LineCandIs(trips, p, heading, i);
    var i1 := FirstBest(f, 0, |trips.lines|).value;
    LineCandIs(trips, p, heading, i1);
    var _ := WholeIs(trips, i, p, heading);
    var j := WholeIs(trips, i1, p, heading);
    assert OnTrip(trips, p, i1, j);
  }

  /** A segment of a trip in plan. */
  predicate OnTrip(trips: Trips, p: Point, i: nat, j: nat)
    requires trips.Valid()
  {
    i < |trips.lines| && j < |trips.lines[i].segLen| && InPlan(trips.lines[i], p.t)
  }

  lemma SearchFindsNone(trips: Trips, p: Point, heading: Option<Heading>)
    requires trips.Valid() && forall i :: 0 <= i < |trips.lines| ==> !InPlan(trips.lines[i], p.t)
    ensures Search(trips, p, heading).None?
  {
    forall i: nat | i < |trips.lines| ensures OnLines(trips, p, heading)(i).None? {
      LineCandIs(trips, p, heading, i);
    }
  }
}
