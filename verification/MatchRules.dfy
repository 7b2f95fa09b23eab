/** The matcher's rules, each over a whole update: when a point is passed over, stood on, followed or searched for. */
module MatchRules {
  import opened Candidates
  import opened Matching
  import opened Numbers
  import opened Options
  import opened RouteLine

  /** The point has a position. */
  predicate Located(p: Point) { p.valid && p.lon != 0.0 && p.lat != 0.0 }

  /** The farthest a vehicle may seem to move: 50 metres of jitter and what 120 km/h allow, 80 km/h after a minute. */
  function Farthest(dt: real): real {
    if dt <= 60.0 then 50.0 + 120.0 / 3.6 * dt else 50.0 + 80.0 / 3.6 * dt
  }

  function Moves(env: Env, at: Fix, p: Point): real { env.h(p.x - at.x, p.y - at.y) }

  /** The point is later than the anchor and not too far from it. */
  predicate Reachable(env: Env, at: Fix, p: Point) { at.t <= p.t && Moves(env, at, p) <= Farthest(p.t - at.t) }

  /** The vehicle stands: slower than 3 km/h and within 30 metres of the anchor. */
  predicate Stands(env: Env, at: Fix, p: Point) { p.speed < 3.0 && Moves(env, at, p) < 30.0 }

  /** The course counts from 5 km/h on. */
  function CourseOf(p: Point): Option<Heading> { if p.speed >= 5.0 then Some(p.course) else None }

  lemma AllowanceIs(dt: real)
    ensures Allowance(dt) == Farthest(dt)
  {
  }

  // ---- points passed over ----

  /** A point without a position is only counted. */
  lemma UnlocatedIsCounted(env: Env, s: State, p: Point)
    requires env.Valid() && OnLine(env, s) && !Located(p)
    ensures Update(env, s, p)
         == (s.(stats := s.stats.(points := s.stats.points + 1, invalid := s.stats.invalid + 1)), Nothing)
  {
  }

  /** So is one from before the anchor. */
  lemma EarlyIsCounted(env: Env, s: State, p: Point)
    requires env.Valid() && OnLine(env, s) && Located(p) && s.anchor.Some? && p.t < s.anchor.value.t
    ensures Update(env, s, p)
         == (s.(stats := s.stats.(points := s.stats.points + 1, late := s.stats.late + 1,
                                  outlier := s.stats.outlier + 1)), Nothing)
  {
  }

  /** One that is too far away is put off, twice in a row. */
  lemma FarIsPutOff(env: Env, s: State, p: Point)
    requires env.Valid() && OnLine(env, s) && Located(p) && s.anchor.Some? && s.anchor.value.t <= p.t
    requires !Reachable(env, s.anchor.value, p) && s.rejects < 2
    ensures Update(env, s, p)
         == (s.(rejects := s.rejects + 1,
                stats := s.stats.(points := s.stats.points + 1, outlier := s.stats.outlier + 1)), Nothing)
  {
    AllowanceIs(p.t - s.anchor.value.t);
  }

  // ---- points searched for ----

  /** The point becomes the anchor and the match is that of the search, if it is within 300 metres. */
  ghost predicate Searched(env: Env, s: State, p: Point, s1: State, r: Outcome)
    requires env.Valid()
  {
    var best := env.search(p, CourseOf(p));
    && s1.anchor == Some(Fix(p.t, p.x, p.y)) && s1.rejects == 0 && s1.stats.acquire == s.stats.acquire + 1
    && (if best.Some? && best.value.dist <= 300.0 then
          && s1.cur == Some(best.value.line) && s1.progress == best.value.s && s1.lost == 0
          && r == Given(env.result(p, best.value.line, best.value.s, best.value.dist, true))
          && s1.last == Some(r.m) && s1.stats.matched == s.stats.matched + 1
        else s1.cur == None && r == Nothing && s1.last == s.last && s1.stats.unmatched == s.stats.unmatched + 1)
  }

  lemma SearchedBy(env: Env, s: State, s0: State, p: Point, heading: Option<Heading>)
    requires env.Valid() && OnLine(env, s0) && heading == CourseOf(p)
    requires s0.anchor == Some(Fix(p.t, p.x, p.y)) && s0.rejects == 0 && s0.last == s.last
    requires s0.stats.acquire == s.stats.acquire && s0.stats.matched == s.stats.matched
    requires s0.stats.unmatched == s.stats.unmatched
    ensures var (s1, r) := Acquire(env, s0, p, heading); Searched(env, s, p, Settled(s1, r), r)
  {
  }

  /** The third in a row that is too far away gives the match up. */
  lemma ThirdIsScreened(env: Env, s: State, p: Point)
    requires env.Valid() && s.anchor.Some? && s.anchor.value.t <= p.t && !Reachable(env, s.anchor.value, p)
    requires s.rejects == 2
    ensures Screen(env, s, p)
         == (s.(cur := None, rejects := 0, stats := s.stats.(resync := s.stats.resync + 1)),
             Ok(Some(p.t - s.anchor.value.t)))
  {
    AllowanceIs(p.t - s.anchor.value.t);
  }

  lemma LetThrough(env: Env, s: State, p: Point, s0: State, dt: Option<real>)
    requires env.Valid() && OnLine(env, s) && Located(p) && Screen(env, Counted(s), p) == (s0, Ok(dt))
    requires s0.cur == None && s0.rejects == 0 && s0.last == s.last && (dt.Some? ==> dt.value >= 0.0)
    requires s0.stats == Counted(s).stats.(resync := s0.stats.resync)
    ensures var (s1, r) := Update(env, s, p); Searched(env, s, p, s1, r)
  {
    assert Update(env, s, p) == Moved(env, s0, p, dt);
    SearchedBy(env, s, Anchored(s0, p), p, Course(p));
  }

  /** The first point, and the third in a row that is too far away, is searched for. */
  lemma FirstIsSearched(env: Env, s: State, p: Point)
    requires env.Valid() && OnLine(env, s) && Located(p) && s.rejects < 3
    requires (s.anchor.None? && s.rejects == 0)
          || (s.anchor.Some? && s.anchor.value.t <= p.t && !Reachable(env, s.anchor.value, p) && s.rejects == 2)
    ensures var (s1, r) := Update(env, s, p); Searched(env, s, p, s1, r)
  {
    var (s0, kind) := Screen(env, Counted(s), p);
    if s.anchor.Some? {
      ThirdIsScreened(env, Counted(s), p);
      LetThrough(env, s, p, s0, kind.dt);
    } else {
      SearchedBy(env, s, Anchored(s0, p), p, Course(p));
    }
  }

  /** Neither standing nor passed over. */
  ghost predicate MovesOn(env: Env, s: State, p: Point)
    requires env.Valid()
  {
    && OnLine(env, s) && Located(p) && s.anchor.Some? && Reachable(env, s.anchor.value, p)
    && (s.cur.None? || s.last.None? || !Stands(env, s.anchor.value, p))
  }

  lemma MovesOnIs(env: Env, s: State, p: Point)
    requires env.Valid() && MovesOn(env, s, p)
    ensures Update(env, s, p) == Moved(env, Counted(s).(rejects := 0), p, Some(p.t - s.anchor.value.t))
  {
    AllowanceIs(p.t - s.anchor.value.t);
    var (s1, kind) := Screen(env, Counted(s), p);
    assert Anchored(s1, p) == Anchored(Counted(s).(rejects := 0), p);
  }

  /** A match half an hour past the end of its trip, or none at all, is searched for. */
  lemma LapsedIsSearched(env: Env, s: State, p: Point)
    requires env.Valid() && MovesOn(env, s, p)
    requires s.cur.Some? ==> p.t > env.lines[s.cur.value].end + 1800.0
    ensures var (s1, r) := Update(env, s, p); Searched(env, s, p, s1, r)
  {
    MovesOnIs(env, s, p);
    SearchedBy(env, s, Anchored(Counted(s).(rejects := 0), p), p, Course(p));
  }

  // ---- points followed ----

  /** What following the line finds. */
  ghost function Found(env: Env, s: State, p: Point): Option<Cand>
    requires env.Valid() && s.cur.Some? && s.anchor.Some?
  {
    env.track(s.cur.value, s.progress, p, CourseOf(p), p.t - s.anchor.value.t)
  }

  ghost predicate Tracks(env: Env, s: State, p: Point)
    requires env.Valid()
  {
    MovesOn(env, s, p) && s.cur.Some? && p.t <= env.lines[s.cur.value].end + 1800.0
  }

  /** A candidate within 400 metres is followed, never back on the same line. */
  lemma NearIsFollowed(env: Env, s: State, p: Point, c: Cand)
    requires env.Valid() && Tracks(env, s, p) && Found(env, s, p) == Some(c) && c.dist <= 400.0
    ensures var (s1, r) := Update(env, s, p);
      && s1.cur == Some(c.line) && s1.anchor == Some(Fix(p.t, p.x, p.y)) && s1.rejects == 0 && s1.lost == 0
      && s1.progress == (if c.line == s.cur.value && c.s < s.progress then s.progress else c.s)
      && c.line < |env.lines| && r == Given(env.result(p, c.line, s1.progress, c.dist, true)) && s1.last == Some(r.m)
      && s1.stats == s.stats.(points := s.stats.points + 1, matched := s.stats.matched + 1,
                              switches := s.stats.switches + if c.line == s.cur.value then 0 else 1)
  {
    MovesOnIs(env, s, p);
    assert Tracked(env.lines, s.cur.value, Found(env, s, p));
  }

  /** One farther away is kept off the route, seven times in a row. */
  lemma FarIsKept(env: Env, s: State, p: Point, c: Cand)
    requires env.Valid() && Tracks(env, s, p) && Found(env, s, p) == Some(c) && c.dist > 400.0 && s.lost < 7
    ensures var (s1, r) := Update(env, s, p);
      && s1.cur == s.cur && s1.progress == s.progress && s1.anchor == Some(Fix(p.t, p.x, p.y))
      && s1.rejects == 0 && s1.lost == s.lost + 1
      && r == Given(env.result(p, s.cur.value, s.progress, c.dist, false)) && s1.last == Some(r.m)
      && s1.stats == s.stats.(points := s.stats.points + 1, matched := s.stats.matched + 1)
  {
    MovesOnIs(env, s, p);
  }

  /** Then the match is searched for. */
  lemma LostIsSearched(env: Env, s: State, p: Point, c: Cand)
    requires env.Valid() && Tracks(env, s, p) && Found(env, s, p) == Some(c) && c.dist > 400.0 && s.lost >= 7
    ensures var (s1, r) := Update(env, s, p); Searched(env, s, p, s1, r)
  {
    MovesOnIs(env, s, p);
    SearchedBy(env, s, Anchored(Counted(s).(rejects := 0, lost := s.lost + 1), p), p, Course(p));
  }

  // ---- points stood on ----

  /** The vehicle stands at the end of its trip: within 60 metres of the end of the line and past its planned end. */
  ghost predicate AtTerminus(env: Env, s: State, p: Point)
    requires env.Valid() && OnLine(env, s) && s.cur.Some?
  {
    var line := env.lines[s.cur.value];
    s.cur.value + 1 < |env.lines| && line.length - s.progress <= 60.0 && p.t >= line.end
  }

  /** A standing vehicle keeps the place of its anchor and its match, at the new time; at the terminus it is moved to
      the beginning of the next trip, when that is within 120 metres. */
  lemma StandingIsKept(env: Env, s: State, p: Point)
    requires env.Valid() && OnLine(env, s) && Located(p) && s.cur.Some? && s.last.Some? && s.anchor.Some?
    requires Reachable(env, s.anchor.value, p) && Stands(env, s.anchor.value, p)
    requires !AtTerminus(env, s, p)
          || (env.arrive(s.cur.value + 1, p).Some? && env.arrive(s.cur.value + 1, p).value.dist > 120.0)
    ensures var m := s.last.value.(t := p.t);
      Update(env, s, p)
      == (s.(rejects := 0, anchor := Some(s.anchor.value.(t := p.t)), last := Some(m),
             stats := s.stats.(points := s.stats.points + 1, still := s.stats.still + 1)), Given(m))
  {
    AllowanceIs(p.t - s.anchor.value.t);
  }

  lemma StandingRolls(env: Env, s: State, p: Point, c: Cand)
    requires env.Valid() && OnLine(env, s) && Located(p) && s.cur.Some? && s.last.Some? && s.anchor.Some?
    requires Reachable(env, s.anchor.value, p) && Stands(env, s.anchor.value, p) && AtTerminus(env, s, p)
    requires env.arrive(s.cur.value + 1, p) == Some(c) && c.dist <= 120.0
    ensures var m := env.result(p, s.cur.value + 1, c.s, c.dist, true);
      Update(env, s, p)
      == (s.(rejects := 0, anchor := Some(s.anchor.value.(t := p.t)), last := Some(m),
             cur := Some(s.cur.value + 1), progress := c.s,
             stats := s.stats.(points := s.stats.points + 1, still := s.stats.still + 1,
                               switches := s.stats.switches + 1)), Given(m))
  {
    AllowanceIs(p.t - s.anchor.value.t);
    var i := s.cur.value + 1;
    assert Records(env.lines, p, i, c.s, c.dist, true, env.result(p, i, c.s, c.dist, true));
  }
}
