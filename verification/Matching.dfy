/** Online map matching of one vehicle: the filter of outliers and standstill, the tracking of the
    current trip, its change at the terminus and the search for a trip when the match is lost.

    The specification is a transition function on the matcher's fields. */
module Matching {
  import opened Candidates
  import opened Numbers
  import opened Options
  import opened RouteLine

  const TELEPORT_KMH := 80.0
  const LONG_GAP_S := 60.0
  const JITTER_M := 50.0
  const STILL_KMH := 3.0
  const STILL_M := 30.0
  const RESYNC_N := 3
  const COURSE_MIN_KMH := 5.0
  const ACQUIRE_MAX_M := 300.0
  const ON_ROUTE_M := 120.0
  const LOST_M := 400.0
  const LOST_N := 8
  const TRIP_OVERDUE_S := 1800.0

  datatype Fix = Fix(t: real, x: real, y: real)

  datatype MatchResult = MatchResult(
    t: real, trip: int, progress: real, segment: int, offset: real, prevStop: int,
    nextStop: Option<int>, toNext: Option<real>, onRoute: bool)

  datatype Stats = Stats(
    points: nat, invalid: nat, outlier: nat, late: nat, resync: nat, still: nat, matched: nat,
    unmatched: nat, switches: nat, acquire: nat)

  /** What a point is given: a match, none, or an error because the next line has no length. */
  datatype Outcome = Given(m: MatchResult) | Nothing | Raised

  datatype State = State(
    cur: Option<nat>, progress: real, anchor: Option<Fix>, rejects: nat, lost: nat,
    last: Option<MatchResult>, stats: Stats)

  datatype Kind = Ok(dt: Option<real>) | Outlier | Still(gap: real)

  /** What the matcher needs to know of a line. */
  datatype Line = Line(trip: int, length: real, end: real)

  predicate Lies(lines: seq<Line>, c: Cand) { c.line < |lines| && 0.0 <= c.s <= lines[c.line].length }

  /** The line after line `i` has no length. */
  predicate Blocked(lines: seq<Line>, i: nat) { i + 1 < |lines| && lines[i + 1].length == 0.0 }

  predicate Tracked(lines: seq<Line>, i: nat, c: Option<Cand>) {
    if c.Some? then Lies(lines, c.value) && i <= c.value.line <= i + 1 else Blocked(lines, i)
  }

  predicate Arrived(lines: seq<Line>, i: nat, c: Option<Cand>)
    requires i < |lines|
  {
    (c.None? <==> lines[i].length == 0.0) && (c.Some? ==> Lies(lines, c.value) && c.value.line == i)
  }

  predicate Records(lines: seq<Line>, p: Point, i: nat, s: real, d: real, on: bool, m: MatchResult)
    requires i < |lines|
  {
    && m.t == p.t && m.trip == lines[i].trip && m.progress == s
    && m.offset == d && (m.onRoute <==> on && d <= ON_ROUTE_M)
  }

  /** The lines, the three choices of a candidate the matcher makes on them (following a line,
      searching for a trip, standing at a terminus), the distance and the record of a match. Following
      and standing choose nothing, and the matcher raises an error, on a line of no length. */
  datatype Env = Env(
    lines: seq<Line>,
    track: (nat, real, Point, Option<Heading>, real) -> Option<Cand>,
    search: (Point, Option<Heading>) -> Option<Cand>,
    arrive: (nat, Point) -> Option<Cand>,
    h: Distance,
    result: (Point, nat, real, real, bool) -> MatchResult)
  {
    /** Every choice lies on its line; following leads at most to the next one. */
    ghost predicate Valid() {
      && (forall i, j :: 0 <= i < j < |lines| ==> lines[i].trip != lines[j].trip)
      && (forall i: nat, s, p, heading, dt :: i < |lines| && 0.0 <= s <= lines[i].length && dt >= 0.0 ==>
            Tracked(lines, i, track(i, s, p, heading, dt)))
      && (forall p, heading :: search(p, heading).Some? ==> Lies(lines, search(p, heading).value))
      && (forall i: nat, p :: i < |lines| ==> Arrived(lines, i, arrive(i, p)))
      && (forall p, i: nat, s, d, on :: i < |lines| ==> Records(lines, p, i, s, d, on, result(p, i, s, d, on)))
    }
  }

  const NO_STATS := Stats(0, 0, 0, 0, 0, 0, 0, 0, 0, 0)

  const INIT := State(None, 0.0, None, 0, 0, None, NO_STATS)

  // ---- transitions ----

  predicate Usable(p: Point) { p.valid && p.lon != 0.0 && p.lat != 0.0 }

  /** The farthest a vehicle may seem to move in `dt` seconds. */
  function Allowance(dt: real): real {
    JITTER_M + (if dt <= LONG_GAP_S then MAX_KMH / KMH * dt else TELEPORT_KMH / KMH * dt)
  }

  /** The filter of outliers and of standstill against the anchor. */
  function Screen(env: Env, s: State, p: Point): (State, Kind) {
    if s.anchor.None? then (s, Ok(None))
    else
      var at := s.anchor.value;
      var dt, d := p.t - at.t, env.h(p.x - at.x, p.y - at.y);
      if dt < 0.0 then (s.(stats := s.stats.(late := s.stats.late + 1)), Outlier)
      else if d > Allowance(dt) && s.rejects + 1 < RESYNC_N then (s.(rejects := s.rejects + 1), Outlier)
      else
        var s1 :=
          if d > Allowance(dt) then s.(cur := None, rejects := 0, stats := s.stats.(resync := s.stats.resync + 1))
          else s.(rejects := 0);
        if p.speed < STILL_KMH && d < STILL_M && s1.cur.Some? then (s1.(anchor := Some(at.(t := p.t))), Still(dt))
        else (s1, Ok(Some(Max(dt, 0.0))))
  }

  /** The current line and a progress on it. */
  ghost predicate OnLine(env: Env, s: State)
    requires env.Valid()
  {
    s.cur.Some? ==> s.cur.value < |env.lines| && 0.0 <= s.progress <= env.lines[s.cur.value].length
  }

  function Acquire(env: Env, s: State, p: Point, heading: Option<Heading>): (State, Outcome)
    requires env.Valid()
  {
    var s1 := s.(stats := s.stats.(acquire := s.stats.acquire + 1));
    var best := env.search(p, heading);
    if best.None? || best.value.dist > ACQUIRE_MAX_M then (s1.(cur := None), Nothing)
    else
      var c := best.value;
      (s1.(cur := Some(c.line), progress := c.s, lost := 0), Given(env.result(p, c.line, c.s, c.dist, true)))
  }

  /** The best candidate `c` is too far away: the match is kept for a while, then searched anew. */
  function Stray(env: Env, s: State, p: Point, heading: Option<Heading>, c: Cand): (State, Outcome)
    requires env.Valid() && OnLine(env, s) && s.cur.Some?
  {
    var s1 := s.(lost := s.lost + 1);
    if s1.lost >= LOST_N then Acquire(env, s1, p, heading)
    else (s1, Given(env.result(p, s.cur.value, s.progress, c.dist, false)))
  }

  /** The match follows the best candidate `c`, never backwards on the same line. */
  function Follow(env: Env, s: State, p: Point, c: Cand): (State, Outcome)
    requires env.Valid() && OnLine(env, s) && s.cur.Some? && c.line < |env.lines|
  {
    var s1 :=
      if c.line != s.cur.value then
        s.(lost := 0, cur := Some(c.line), progress := c.s,
           stats := s.stats.(switches := s.stats.switches + 1))
      else s.(lost := 0, progress := Max(s.progress, c.s));
    (s1, Given(env.result(p, c.line, s1.progress, c.dist, true)))
  }

  /** Whether the current match is given up before looking at the point. */
  predicate Expired(lines: seq<Line>, s: State, p: Point, dt: Option<real>)
    requires s.cur.Some? ==> s.cur.value < |lines|
  {
    s.cur.None? || dt.None? || p.t > lines[s.cur.value].end + TRIP_OVERDUE_S
  }

  function Match(env: Env, s: State, p: Point, heading: Option<Heading>, dt: Option<real>): (State, Outcome)
    requires env.Valid() && OnLine(env, s) && (dt.Some? ==> dt.value >= 0.0)
  {
    if Expired(env.lines, s, p, dt) then Acquire(env, s, p, heading)
    else
      var best := env.track(s.cur.value, s.progress, p, heading, dt.value);
      assert Tracked(env.lines, s.cur.value, best);
      match best
      case None => (s, Raised)
      case Some(c) => if c.dist > LOST_M then Stray(env, s, p, heading, c) else Follow(env, s, p, c)
  }

  /** Standing at the terminus past its planned time moves the match to the next trip; none is an error. */
  function RollToNext(env: Env, s: State, p: Point): Option<State>
    requires env.Valid() && OnLine(env, s)
  {
    if s.cur.None? || s.cur.value + 1 >= |env.lines| then Some(s)
    else
      var i, line := s.cur.value, env.lines[s.cur.value];
      if line.length - s.progress > ARRIVE_M || p.t < line.end then Some(s)
      else
        match env.arrive(i + 1, p)
        case None => None
        case Some(pr) =>
          if pr.dist > ON_ROUTE_M then Some(s)
          else
            Some(s.(cur := Some(i + 1), progress := pr.s, stats := s.stats.(switches := s.stats.switches + 1),
                    last := Some(env.result(p, i + 1, pr.s, pr.dist, true))))
  }

  function Counted(s: State): State { s.(stats := s.stats.(points := s.stats.points + 1)) }

  function Invalid(s: State): State { s.(stats := s.stats.(invalid := s.stats.invalid + 1)) }

  /** The next point: the fields after it and what it is given. */
  function Update(env: Env, s: State, p: Point): (State, Outcome)
    requires env.Valid() && OnLine(env, s)
  {
    if !Usable(p) then (Invalid(Counted(s)), Nothing)
    else
      var (s1, kind) := Screen(env, Counted(s), p);
      Act(env, s1, p, kind)
  }

  /** What is done with a point once the filter has judged it. */
  function Act(env: Env, s: State, p: Point, kind: Kind): (State, Outcome)
    requires env.Valid() && OnLine(env, s) && Forward(kind)
  {
    if kind.Outlier? then (s.(stats := s.stats.(outlier := s.stats.outlier + 1)), Nothing)
    else if kind.Still? && s.last.Some? then Stood(env, s, p)
    else Moved(env, s, p, if kind.Ok? then kind.dt else Some(kind.gap))
  }

  /** Time does not run backwards for a point that passed the filter. */
  predicate Forward(kind: Kind) {
    match kind
    case Ok(dt) => dt.Some? ==> dt.value >= 0.0
    case Still(gap) => gap >= 0.0
    case Outlier => true
  }

  function Standing(s: State): State { s.(stats := s.stats.(still := s.stats.still + 1)) }

  /** A standing vehicle keeps its match, at the new time. */
  function Stood(env: Env, s: State, p: Point): (State, Outcome)
    requires env.Valid() && OnLine(env, s) && s.last.Some?
  {
    match RollToNext(env, Standing(s), p)
    case None => (Standing(s), Raised)
    case Some(s1) => Restamp(s1, p.t)
  }

  function Restamp(s: State, t: real): (State, Outcome)
    requires s.last.Some?
  {
    var m := s.last.value.(t := t);
    (s.(last := Some(m)), Given(m))
  }

  function Anchored(s: State, p: Point): State { s.(anchor := Some(Fix(p.t, p.x, p.y))) }

  function Course(p: Point): Option<Heading> { if p.speed >= COURSE_MIN_KMH then Some(p.course) else None }

  /** A point that passed the filter becomes the anchor and is matched. */
  function Moved(env: Env, s: State, p: Point, dt: Option<real>): (State, Outcome)
    requires env.Valid() && OnLine(env, s) && (dt.Some? ==> dt.value >= 0.0)
  {
    var (s1, r) := Match(env, Anchored(s, p), p, Course(p), dt);
    (Settled(s1, r), r)
  }

  function Settled(s: State, r: Outcome): State {
    match r
    case Given(m) => s.(last := Some(m), stats := s.stats.(matched := s.stats.matched + 1))
    case Nothing => s.(stats := s.stats.(unmatched := s.stats.unmatched + 1))
    case Raised => s
  }

  // ---- invariant ----

  /** The points accounted for, and those of them that were given a match. */
  function Handled(st: Stats): nat { st.invalid + st.outlier + st.still + st.matched + st.unmatched }

  function Emitted(st: Stats): nat { st.still + st.matched }

  /** A point is accounted for once; one that raised an error at most as standing. */
  predicate OneMore(st: Stats, st1: Stats, r: Outcome) {
    match r
    case Given(_) => Handled(st1) == Handled(st) + 1 && Emitted(st1) == Emitted(st) + 1
    case Nothing => Handled(st1) == Handled(st) + 1 && Emitted(st1) == Emitted(st)
    case Raised => 0 <= Handled(st1) - Handled(st) == Emitted(st1) - Emitted(st) <= 1
  }

  predicate SameTally(st: Stats, st1: Stats) {
    st1.points == st.points && Handled(st1) == Handled(st) && Emitted(st1) == Emitted(st)
  }

  /** The last match is about the current line and progress. */
  ghost predicate Agrees(env: Env, s: State)
    requires env.Valid()
  {
    && OnLine(env, s)
    && (s.cur.Some? ==>
          && s.last.Some?
          && s.last.value.trip == env.lines[s.cur.value].trip
          && s.last.value.progress == s.progress)
  }

  /** The streaks of outliers and of far points stay below the lengths that end them. */
  predicate Patient(s: State) { s.rejects < RESYNC_N && (s.cur.Some? ==> s.lost < LOST_N) }

  /** A match is on the route only near it. */
  predicate NearRoute(m: MatchResult) { m.onRoute ==> m.offset <= ON_ROUTE_M }

  /** What holds of the fields between two points. */
  ghost predicate Coherent(env: Env, s: State)
    requires env.Valid()
  {
    && Agrees(env, s)
    && (s.last.Some? ==> s.anchor.Some? && s.last.value.t <= s.anchor.value.t && NearRoute(s.last.value))
    && Patient(s)
  }

  /** The point is no farther from the anchor than the vehicle can have moved. */
  predicate Within(env: Env, s: State, p: Point) {
    s.anchor.Some? ==>
      env.h(p.x - s.anchor.value.x, p.y - s.anchor.value.y) <= Allowance(p.t - s.anchor.value.t)
  }

  predicate Early(s: State, p: Point) { s.anchor.Some? && p.t < s.anchor.value.t }

  /** The match stays on its line without losing progress, or takes the next line. */
  ghost predicate Onwards(s: State, s1: State) {
    && s.cur.Some? && s1.cur.Some? && s.cur.value <= s1.cur.value <= s.cur.value + 1
    && (s1.cur == s.cur ==> s.progress <= s1.progress)
  }

  predicate Acquired(s: State, s1: State) { s1.stats.acquire > s.stats.acquire }

  /** What one point does to the fields and what it is given. */
  ghost predicate Steps(env: Env, s: State, p: Point, s1: State, r: Outcome)
    requires env.Valid()
  {
    && OneMore(s.stats, s1.stats, r)
    && (s1.stats.outlier > s.stats.outlier ==> Early(s, p) || !Within(env, s, p))
    && match r {
         case Given(m) =>
           && s1.cur.Some? && s1.last == Some(m) && m.t == p.t
           && !Early(s, p) && (s1.stats.resync == s.stats.resync ==> Within(env, s, p))
           && (if Acquired(s, s1) then m.offset <= ACQUIRE_MAX_M else Onwards(s, s1))
         case Nothing =>
           && s1.last == s.last
           && (s1.cur.Some? ==> s1.cur == s.cur && s1.progress == s.progress && !Acquired(s, s1))
         case Raised =>
           && s1.last == s.last && s1.cur == s.cur && s1.progress == s.progress && !Acquired(s, s1)
           && s.cur.Some? && Blocked(env.lines, s.cur.value)
       }
  }

  /** What matching a point does: `s1` and `r` follow from `s`. */
  ghost predicate Matched(env: Env, s: State, p: Point, s1: State, r: Outcome)
    requires env.Valid()
  {
    && s1.last == s.last && s1.anchor == s.anchor && OnLine(env, s1) && (Patient(s) ==> Patient(s1))
    && s1.stats == s.stats.(switches := s1.stats.switches, acquire := s1.stats.acquire)
    && s1.stats.acquire >= s.stats.acquire && s1.cur.Some? == r.Given? && !r.Raised?
    && (r.Given? ==>
          && NearRoute(r.m) && r.m.t == p.t && r.m.progress == s1.progress
          && r.m.trip == env.lines[s1.cur.value].trip)
    && (if !Acquired(s, s1) then Onwards(s, s1) else r.Given? ==> r.m.offset <= ACQUIRE_MAX_M)
  }

  lemma AcquireSteps(env: Env, s: State, p: Point, heading: Option<Heading>)
    requires env.Valid()
    ensures var (s1, r) := Acquire(env, s, p, heading);
      Matched(env, s, p, s1, r) && s1.stats == s.stats.(acquire := s.stats.acquire + 1)
  {
  }

  /** For fewer than eight far points in a row the match is kept, off the route. */
  predicate Kept(s: State, s1: State, r: Outcome) {
    && s1 == s.(lost := s.lost + 1)
    && r.Given? && r.m.progress == s.progress && !r.m.onRoute
  }

  lemma StraySteps(env: Env, s: State, p: Point, heading: Option<Heading>, c: Cand)
    requires env.Valid() && OnLine(env, s) && s.cur.Some?
    ensures var (s1, r) := Stray(env, s, p, heading, c);
      && Matched(env, s, p, s1, r)
      && (if s.lost + 1 < LOST_N then Kept(s, s1, r) else Acquired(s, s1))
  {
    AcquireSteps(env, s.(lost := s.lost + 1), p, heading);
  }

  lemma FollowSteps(env: Env, s: State, p: Point, c: Cand)
    requires env.Valid() && OnLine(env, s) && s.cur.Some?
    requires c.line == s.cur.value || c.line == s.cur.value + 1 < |env.lines|
    requires 0.0 <= c.s <= env.lines[c.line].length
    ensures var (s1, r) := Follow(env, s, p, c); Matched(env, s, p, s1, r)
  {
  }

  /** Matching a point does as `Matched` says, or the next line has no length and nothing has changed. */
  lemma MatchSteps(env: Env, s: State, p: Point, heading: Option<Heading>, dt: Option<real>)
    requires env.Valid() && OnLine(env, s) && (dt.Some? ==> dt.value >= 0.0)
    ensures var (s1, r) := Match(env, s, p, heading, dt);
      if r.Raised? then s1 == s && s.cur.Some? && Blocked(env.lines, s.cur.value) else Matched(env, s, p, s1, r)
  {
    if Expired(env.lines, s, p, dt) {
      AcquireSteps(env, s, p, heading);
    } else {
      var best := env.track(s.cur.value, s.progress, p, heading, dt.value);
      assert Tracked(env.lines, s.cur.value, best);
      if best.Some? {
        StraySteps(env, s, p, heading, best.value);
        FollowSteps(env, s, p, best.value);
      }
    }
  }

  /** What a point that the filter let through does: `s1` and `r` follow from `s`. */
  ghost predicate Passes(env: Env, s: State, p: Point, s1: State, r: Outcome)
    requires env.Valid()
  {
    && Coherent(env, s1) && OneMore(s.stats, s1.stats, r) && s1.stats.points == s.stats.points
    && s1.stats.resync == s.stats.resync && s1.stats.outlier == s.stats.outlier
    && s1.cur.Some? == !r.Nothing?
    && match r {
         case Given(m) =>
           && s1.last == Some(m) && m.t == p.t
           && (if Acquired(s, s1) then m.offset <= ACQUIRE_MAX_M else Onwards(s, s1))
         case Nothing => s1.last == s.last
         case Raised =>
           && s1.last == s.last && s1.cur == s.cur && s1.progress == s.progress && !Acquired(s, s1)
           && Blocked(env.lines, s1.cur.value)
       }
  }

  lemma SettledSteps(env: Env, s: State, p: Point, s1: State, r: Outcome)
    requires env.Valid() && Agrees(env, s) && Patient(s)
    requires s.last.Some? ==> s.last.value.t <= p.t && NearRoute(s.last.value)
    requires Matched(env, Anchored(s, p), p, s1, r)
    ensures Passes(env, s, p, Settled(s1, r), r)
  {
  }

  lemma MovedSteps(env: Env, s: State, p: Point, dt: Option<real>)
    requires env.Valid() && Agrees(env, s) && Patient(s) && (dt.Some? ==> dt.value >= 0.0)
    requires s.last.Some? ==> s.last.value.t <= p.t && NearRoute(s.last.value)
    ensures var (s1, r) := Moved(env, s, p, dt); Passes(env, s, p, s1, r)
  {
    var s0 := Anchored(s, p);
    MatchSteps(env, s0, p, Course(p), dt);
    var (s1, r) := Match(env, s0, p, Course(p), dt);
    if !r.Raised? {
      SettledSteps(env, s, p, s1, r);
    }
    assert Moved(env, s, p, dt) == (Settled(s1, r), r);
  }

  /** What standing does: `s1` follows from `s` on the same line or the next one. */
  ghost predicate Rolled(env: Env, s: State, s1: State)
    requires env.Valid()
  {
    && Agrees(env, s1) && s1.anchor == s.anchor && s1.lost == s.lost && s1.rejects == s.rejects
    && s1.stats == s.stats.(switches := s1.stats.switches)
    && (s.last.Some? && NearRoute(s.last.value) ==> s1.last.Some? && NearRoute(s1.last.value))
    && Onwards(s, s1)
    && (s1.cur == s.cur ==> s1.progress == s.progress)
  }

  lemma RollSteps(env: Env, s: State, p: Point)
    requires env.Valid() && Agrees(env, s) && s.cur.Some?
    ensures var s1 := RollToNext(env, s, p);
      if s1.Some? then Rolled(env, s, s1.value) else Blocked(env.lines, s.cur.value)
  {
    if s.cur.value + 1 < |env.lines| {
      var c := env.arrive(s.cur.value + 1, p);
      assert Arrived(env.lines, s.cur.value + 1, c);
      if c.Some? {
        var m := env.result(p, s.cur.value + 1, c.value.s, c.value.dist, true);
        assert Records(env.lines, p, s.cur.value + 1, c.value.s, c.value.dist, true, m);
      }
    }
  }

  /** What a standing vehicle's point does. */
  ghost predicate Stands(env: Env, s: State, p: Point, s1: State, r: Outcome)
    requires env.Valid()
  {
    && Passes(env, s, p, s1, r) && !r.Nothing? && !Acquired(s, s1)
    && (s1.cur == s.cur ==> s1.progress == s.progress)
  }

  lemma RestampSteps(env: Env, s: State, s1: State, p: Point)
    requires env.Valid() && Patient(s) && s.cur.Some? && s.anchor.Some? && s.anchor.value.t == p.t
    requires s.last.Some? && NearRoute(s.last.value)
    requires Rolled(env, Standing(s), s1)
    ensures var (s2, r) := Restamp(s1, p.t); Stands(env, s, p, s2, r)
  {
  }

  lemma StoodSteps(env: Env, s: State, p: Point)
    requires env.Valid() && Agrees(env, s) && Patient(s) && s.cur.Some? && s.anchor.Some? && s.anchor.value.t == p.t
    requires s.last.value.t <= p.t && NearRoute(s.last.value)
    ensures var (s1, r) := Stood(env, s, p); Stands(env, s, p, s1, r)
  {
    RollSteps(env, Standing(s), p);
    var s1 := RollToNext(env, Standing(s), p);
    if s1.Some? {
      RestampSteps(env, s, s1.value, p);
    }
  }

  /** What the filter leaves of the fields. */
  ghost predicate Screened(env: Env, s: State, p: Point, s1: State, kind: Kind)
    requires env.Valid()
  {
    && (Patient(s) ==> Patient(s1)) && s1.stats.resync >= s.stats.resync
    && s1.last == s.last && SameTally(s.stats, s1.stats) && s1.stats.acquire == s.stats.acquire
    && s1.progress == s.progress && (s1.cur == s.cur || s1.cur.None?)
    && (kind.Outlier? ==> s1.cur == s.cur && s1.anchor == s.anchor)
    && s1.stats.outlier == s.stats.outlier
    && (kind.Outlier? ==> Early(s, p) || !Within(env, s, p))
    && (!kind.Outlier? ==> !Early(s, p) && (s1.stats.resync == s.stats.resync ==> Within(env, s, p)))
    && (kind.Still? ==> s1.cur.Some? && s1.anchor.Some? && s1.anchor.value.t == p.t)
    && Forward(kind)
  }

  lemma ScreenSteps(env: Env, s: State, p: Point)
    requires env.Valid()
    ensures var (s1, kind) := Screen(env, s, p); Screened(env, s, p, s1, kind)
  {
  }

  /** A point the filter let through does as `Steps` says, from before the filter. */
  lemma PassSteps(env: Env, s: State, p: Point, s1: State, kind: Kind, s2: State, r: Outcome)
    requires env.Valid() && Screened(env, s, p, s1, kind) && !kind.Outlier? && Passes(env, s1, p, s2, r)
    ensures Steps(env, s, p, s2, r) && s2.stats.points == s.stats.points
  {
  }

  lemma ActSteps(env: Env, s: State, p: Point, s1: State, kind: Kind)
    requires env.Valid() && Coherent(env, s) && Screened(env, s, p, s1, kind)
    ensures var (s2, r) := Act(env, s1, p, kind);
      Coherent(env, s2) && Steps(env, s, p, s2, r) && s2.stats.points == s.stats.points
  {
    match kind
    case Outlier =>
    case Still(_) =>
      StoodSteps(env, s1, p);
      var (s2, r) := Stood(env, s1, p);
      PassSteps(env, s, p, s1, kind, s2, r);
    case Ok(dt) =>
      MovedSteps(env, s1, p, dt);
      var (s2, r) := Moved(env, s1, p, dt);
      PassSteps(env, s, p, s1, kind, s2, r);
  }

  /** A point more does not change what the other fields mean. */
  lemma CountedSteps(env: Env, s: State, p: Point, s1: State, r: Outcome)
    requires env.Valid() && Steps(env, Counted(s), p, s1, r) && s1.stats.points == s.stats.points + 1
    ensures Steps(env, s, p, s1, r)
  {
  }

  lemma UsableSteps(env: Env, s: State, p: Point)
    requires env.Valid() && Coherent(env, s)
    ensures var (s1, kind) := Screen(env, s, p);
      var (s2, r) := Act(env, s1, p, kind);
      Coherent(env, s2) && Steps(env, s, p, s2, r) && s2.stats.points == s.stats.points
  {
    ScreenSteps(env, s, p);
    var (s1, kind) := Screen(env, s, p);
    ActSteps(env, s, p, s1, kind);
  }

  lemma UnusableSteps(env: Env, s: State, p: Point)
    requires env.Valid() && Coherent(env, s)
    ensures var s1 := Invalid(s);
      Coherent(env, s1) && Steps(env, s, p, s1, Nothing) && s1.stats.points == s.stats.points
  {
  }

  /** Every point keeps the fields coherent and does what `Steps` says. */
  lemma UpdateSteps(env: Env, s: State, p: Point)
    requires env.Valid() && Coherent(env, s)
    ensures var (s1, r) := Update(env, s, p);
      Coherent(env, s1) && Steps(env, s, p, s1, r) && s1.stats.points == s.stats.points + 1
  {
    var (s1, r) := Update(env, s, p);
    if Usable(p) {
      UsableSteps(env, Counted(s), p);
    } else {
      UnusableSteps(env, Counted(s), p);
    }
    CountedSteps(env, s, p, s1, r);
  }
}
