/** A run in which the matcher raises an error: the second trip of the plan stands between two stops at one
    place, and its line is looked ahead to. */
module EmptyLines {
  import opened Numbers
  import opened Options
  import opened RouteLine
  import opened LineBuild
  import opened Candidates
  import opened Matching
  import MatchEnv
  import MatchTrack

  const A := PlanStop(1, 0.0, 0.0, 0.0)
  const B := PlanStop(1, 100.0, 0.0, 600.0)
  const C := PlanStop(2, 100.0, 0.0, 2400.0)
  const D := PlanStop(2, 100.0, 0.0, 3000.0)
  const PLAN := [A, B, C, D]

  /** Distance along an axis, as the square root gives it. */
  ghost predicate OnAxis(h: Distance) { forall x :: h(x, 0.0) == Abs(x) }

  lemma PlanIsSorted()
    ensures LineBuild.SortedByTime(PLAN)
  {
  }

  lemma RowsOfMore(plan: seq<PlanStop>, stop: PlanStop, trip: int)
    ensures RowsOf(plan + [stop], trip) == RowsOf(plan, trip) + (if stop.trip == trip then [|plan|] else [])
  {
    assert (plan + [stop])[..|plan|] == plan;
  }

  lemma TripsOfMore(plan: seq<PlanStop>, stop: PlanStop)
    ensures LineBuild.Trips(plan + [stop])
         == LineBuild.Trips(plan) + (if stop.trip in LineBuild.Trips(plan) then [] else [stop.trip])
  {
    assert (plan + [stop])[..|plan|] == plan;
  }

  lemma PlanParts()
    ensures [] + [A] == [A] && [A] + [B] == [A, B] && [A, B] + [C] == [A, B, C] && [A, B, C] + [D] == PLAN
  {
  }

  lemma PlanRows(trip: int)
    requires trip == 1 || trip == 2
    ensures RowsOf(PLAN, trip) == if trip == 1 then [0, 1] else [2, 3]
  {
    PlanParts();
    RowsOfMore([], A, trip);
    RowsOfMore([A], B, trip);
    RowsOfMore([A, B], C, trip);
    RowsOfMore([A, B, C], D, trip);
  }

  lemma PlanTrips()
    ensures LineBuild.Trips(PLAN) == [1, 2]
  {
    PlanParts();
    TripsOfMore([], A);
    TripsOfMore([A], B);
    TripsOfMore([A, B], C);
    TripsOfMore([A, B, C], D);
  }

  function First(h: Distance): TripLine { LineOf(h, PLAN, 1, [0, 1]) }

  function Second(h: Distance): TripLine { LineOf(h, PLAN, 2, [2, 3]) }

  lemma FirstIs(h: Distance)
    requires OnAxis(h)
    ensures First(h).cum == [0.0, 100.0] && First(h).segLen == [100.0] && First(h).tb == [0.0, 600.0]
    ensures First(h).x == [0.0, 100.0] && First(h).y == [0.0, 0.0] && First(h).ux == [1.0] && First(h).uy == [0.0]
  {
    var line := First(h);
    assert line.segLen[0] == Gap(h, line.x, line.y, 0) == h(100.0, 0.0);
    assert line.cum[1] == line.cum[0] + line.segLen[0];
  }

  lemma SecondIs(h: Distance)
    requires OnAxis(h)
    ensures Second(h).cum == [0.0, 0.0] && Second(h).tb == [2400.0, 3000.0]
  {
    var line := Second(h);
    assert line.segLen[0] == Gap(h, line.x, line.y, 0) == h(0.0, 0.0);
    assert line.cum[1] == line.cum[0] + line.segLen[0];
  }

  lemma PlanBuilds(h: Distance)
    ensures BuilderOf(h, PLAN)(1) == Some(First(h)) && BuilderOf(h, PLAN)(2) == Some(Second(h))
  {
    PlanRows(1);
    PlanRows(2);
  }

  lemma LinesOfTwo(build: LineBuild.Builder, a: TripLine, b: TripLine)
    requires build(1) == Some(a) && build(2) == Some(b)
    ensures LineBuild.LinesOf(build, [1, 2]) == [a, b]
  {
    assert [1, 2][..1] == [1] && [1][..0] == [];
    assert LineBuild.LinesOf(build, []) == [] && LineBuild.LinesOf(build, [1]) == [a];
  }

  lemma PlanLines(h: Distance)
    ensures LineBuild.LinesOf(BuilderOf(h, PLAN), LineBuild.Trips(PLAN)) == [First(h), Second(h)]
  {
    PlanTrips();
    PlanBuilds(h);
    LinesOfTwo(BuilderOf(h, PLAN), First(h), Second(h));
  }

  // ---- two points ----

  /** At the terminus of the first trip, on the move. */
  function PointAt(t: real): Point { Point(t, 30.0, 60.0, 100.0, 0.0, 50.0, Heading(0.0, 1.0), true) }

  function TripsOf(h: Distance): Candidates.Trips { MatchTrack.PlannedTrips(h, PLAN) }

  ghost predicate Built(h: Distance) {
    && OnAxis(h) && TripsOf(h).Valid() && TripsOf(h).h == h && TripsOf(h).lines == [First(h), Second(h)]
    && First(h).Valid()
  }

  lemma TripsAre(h: Distance)
    requires OnAxis(h)
    ensures Built(h) && MatchEnv.EnvOf(TripsOf(h)).Valid()
  {
    PlanLines(h);
    PlanIsSorted();
    MatchTrack.PlannedTripsAreValid(h, PLAN);
    assert TripsOf(h).lines[0] == First(h) && TripsOf(h).lines[1] == Second(h);
  }

  /** On the spot the projection onto the first line is at no distance. */
  lemma AtEnd(h: Distance, heading: Option<Heading>)
    requires OnAxis(h) && First(h).Valid()
    ensures |First(h).segLen| == 1 && ProjectOn(h, First(h), 100.0, 0.0, heading, 0).dist == 0.0
  {
    FirstIs(h);
    assert ProjectOn(h, First(h), 100.0, 0.0, heading, 0).dist == h(0.0, 0.0);
  }

  lemma OnSpot(h: Distance, t: real, heading: Option<Heading>)
    requires Built(h)
    ensures |First(h).segLen| == 1
    ensures var c := Whole(TripsOf(h), 0, PointAt(t), heading); c.line == 0 && c.dist == 0.0
  {
    AtEnd(h, heading);
    var trips, p := TripsOf(h), PointAt(t);
    var f := OnSegments(trips, 0, p, heading, ACQ_PRIOR_W, None);
    assert f(0) == Some(CandAt(trips, 0, p, heading, 0, ACQ_PRIOR_W, None));
    assert FirstBest(f, 0, 1) == Some(0);
  }

  lemma OnlyFirst(h: Distance, heading: Option<Heading>)
    requires Built(h)
    ensures var f := OnLines(TripsOf(h), PointAt(590.0), heading);
      f(0) == Some(Whole(TripsOf(h), 0, PointAt(590.0), heading)) && f(1) == None
  {
    FirstIs(h);
    SecondIs(h);
  }

  lemma ChosenOfTwo(f: nat -> Option<Cand>, c: Cand)
    requires f(0) == Some(c) && f(1) == None
    ensures Chosen(f, 2) == Some(c)
  {
    ChosenStep(f, 0);
    ChosenStep(f, 1);
  }

  /** At 590 seconds only the first line is open to a search. */
  lemma FirstIsFound(h: Distance, heading: Option<Heading>)
    requires Built(h)
    ensures var c := Search(TripsOf(h), PointAt(590.0), heading); c.Some? && c.value.line == 0 && c.value.dist == 0.0
  {
    OnSpot(h, 590.0, heading);
    OnlyFirst(h, heading);
    ChosenOfTwo(OnLines(TripsOf(h), PointAt(590.0), heading), Whole(TripsOf(h), 0, PointAt(590.0), heading));
  }

  /** From 600 seconds on the second line is looked ahead to, wherever on the first the match is. */
  lemma SecondIsLookedAt(h: Distance, progress: real, heading: Option<Heading>, dt: real)
    requires Built(h)
    requires dt >= 0.0 && 0.0 <= progress <= First(h).Length()
    ensures Track(TripsOf(h), 0, progress, PointAt(610.0), heading, dt) == None
  {
    FirstIs(h);
    SecondIs(h);
    assert TripsOf(h).lines[0] == First(h) && TripsOf(h).lines[1] == Second(h);
  }

  /** A new matcher takes the trip the search finds near enough. */
  lemma FirstPoint(env: Env, p: Point)
    requires env.Valid() && Usable(p)
    requires env.search(p, Course(p)).Some? && env.search(p, Course(p)).value.dist <= ACQUIRE_MAX_M
    ensures var (s, r) := Update(env, INIT, p);
      var c := env.search(p, Course(p)).value;
      s.cur == Some(c.line) && s.progress == c.s && s.anchor == Some(Fix(p.t, p.x, p.y)) && r.Given?
  {
    assert Screen(env, Counted(INIT), p) == (Counted(INIT), Ok(None));
  }

  /** A point on the spot of the anchor, on the move and in time, is matched: an error if following chooses
      nothing. */
  lemma SecondPoint(env: Env, s: State, t: real, p: Point)
    requires env.Valid() && OnLine(env, s) && s.cur.Some? && env.h(0.0, 0.0) == 0.0
    requires s.anchor == Some(Fix(t, p.x, p.y)) && t <= p.t <= env.lines[s.cur.value].end + TRIP_OVERDUE_S
    requires Usable(p) && p.speed >= STILL_KMH
    requires env.track(s.cur.value, s.progress, p, Course(p), p.t - t) == None
    ensures Update(env, s, p).1 == Raised
  {
    var s0, dt := Counted(s), p.t - t;
    Reachable(dt);
    assert Screen(env, s0, p) == (s0.(rejects := 0), Ok(Some(dt)));
    assert Match(env, Anchored(s0.(rejects := 0), p), p, Course(p), Some(dt)).1 == Raised;
  }

  lemma Reachable(dt: real)
    requires dt >= 0.0
    ensures 0.0 <= Allowance(dt)
  {
  }

  lemma EnvIs(h: Distance, env: Env)
    requires Built(h) && env == MatchEnv.EnvOf(TripsOf(h))
    ensures env.search == MatchEnv.Searches(TripsOf(h)) && env.track == MatchEnv.Tracks(TripsOf(h)) && env.h == h
    ensures |env.lines| == 2 && env.lines[0] == Line(1, 100.0, 600.0)
  {
    FirstIs(h);
  }

  lemma FirstTaken(h: Distance, env: Env)
    requires Built(h) && env.Valid() && env == MatchEnv.EnvOf(TripsOf(h))
    ensures var (s, r) := Update(env, INIT, PointAt(590.0));
      && s.cur == Some(0) && 0.0 <= s.progress <= 100.0 && s.anchor == Some(Fix(590.0, 100.0, 0.0)) && r.Given?
  {
    var p := PointAt(590.0);
    EnvIs(h, env);
    FirstIs(h);
    FirstIsFound(h, Course(p));
    assert env.search(p, Course(p)) == Search(TripsOf(h), p, Course(p));
    FirstPoint(env, p);
  }

  lemma SecondRaises(h: Distance, env: Env, s: State)
    requires Built(h) && env.Valid() && env == MatchEnv.EnvOf(TripsOf(h))
    requires s.cur == Some(0) && 0.0 <= s.progress <= 100.0 && s.anchor == Some(Fix(590.0, 100.0, 0.0))
    ensures OnLine(env, s) && Update(env, s, PointAt(610.0)).1 == Raised
  {
    var p := PointAt(610.0);
    EnvIs(h, env);
    FirstIs(h);
    SecondIsLookedAt(h, s.progress, Course(p), 20.0);
    assert env.track(0, s.progress, p, Course(p), 20.0) == None;
    SecondPoint(env, s, 590.0, p);
  }

  lemma RaisesOnce(step: MatchTrack.Step, p: Point, q: Point, s: State, r: Outcome)
    requires step(INIT, p) == (s, r) && !r.Raised? && step(s, q).1 == Raised
    ensures MatchTrack.Run(step, INIT, [p, q]).raised == 1
  {
    assert [p, q][1..] == [q] && [q][1..] == [];
    assert MatchTrack.Run(step, step(s, q).0, []).raised == 0;
    assert MatchTrack.Run(step, s, [q]).raised == 1;
  }

  lemma MatcherIs(env: Env, step: MatchTrack.Step, s: State, p: Point)
    requires env.Valid() && step == MatchTrack.Matcher(env) && Coherent(env, s)
    ensures step(s, p) == Update(env, s, p)
  {
  }

  /** Of two points in order, at the terminus of the first trip and on the move, one raises an error. */
  ghost predicate RaisesOn(env: Env, step: MatchTrack.Step) {
    && env.Valid() && step == MatchTrack.Matcher(env)
    && MatchTrack.Run(step, INIT, [PointAt(590.0), PointAt(610.0)]).raised == 1
  }

  lemma PointsRaise(h: Distance, env: Env, step: MatchTrack.Step)
    requires Built(h) && env.Valid() && env == MatchEnv.EnvOf(TripsOf(h)) && step == MatchTrack.Matcher(env)
    ensures RaisesOn(env, step)
  {
    var p, q := PointAt(590.0), PointAt(610.0);
    FirstTaken(h, env);
    UpdateSteps(env, INIT, p);
    MatcherIs(env, step, INIT, p);
    var (s, r) := step(INIT, p);
    SecondRaises(h, env, s);
    MatcherIs(env, step, s, q);
    RaisesOnce(step, p, q, s, r);
  }

  /** The matcher of this plan raises an error at the second point. */
  lemma SecondPointRaises(h: Distance)
    requires OnAxis(h)
    ensures TripsOf(h).Valid() && MatchEnv.EnvOf(TripsOf(h)).Valid()
    ensures RaisesOn(MatchEnv.EnvOf(TripsOf(h)), MatchTrack.Matcher(MatchEnv.EnvOf(TripsOf(h))))
  {
    TripsAre(h);
    var env := MatchEnv.EnvOf(TripsOf(h));
    PointsRaise(h, env, MatchTrack.Matcher(env));
  }
}
