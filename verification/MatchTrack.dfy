/** A whole track through the matcher: what any two consecutive rows of it have in common. */
module MatchTrack {
  import opened Options
  import opened RouteLine
  import opened Candidates
  import opened Matching
  import LineBuild
  import MatchEnv

  /** A row of the table: the match and whether it was found anew by this point. */
  datatype Row = Row(m: MatchResult, acquired: bool)

  function RowOf(s: State, s1: State, r: Outcome): seq<Row> {
    if r.Given? then [Row(r.m, Acquired(s, s1))] else []
  }

  type Step = (State, Point) -> (State, Outcome)

  /** The matcher as a step on its coherent states. */
  ghost function Matcher(env: Env): Step
    requires env.Valid()
  {
    (s, p) => if Coherent(env, s) then Update(env, s, p) else (s, Nothing)
  }

  ghost predicate StepsBy(env: Env, step: Step, s: State, p: Point)
    requires env.Valid()
  {
    var (s1, r) := step(s, p);
    Coherent(env, s1) && Steps(env, s, p, s1, r) && s1.stats.points == s.stats.points + 1
  }

  ghost predicate Lawful(env: Env, step: Step)
    requires env.Valid()
  {
    forall s, p :: Coherent(env, s) ==> StepsBy(env, step, s, p)
  }

  lemma MatcherIsLawful(env: Env)
    requires env.Valid()
    ensures Lawful(env, Matcher(env))
  {
    forall s, p | Coherent(env, s) ensures StepsBy(env, Matcher(env), s, p) {
      UpdateSteps(env, s, p);
      assert Matcher(env)(s, p) == Update(env, s, p);
    }
  }

  /** A track through the matcher: the fields after it, its rows, and how many points raised an error.
      A point that does is written to the log and the track goes on. */
  datatype Traced = Traced(end: State, rows: seq<Row>, raised: nat)

  function Run(step: Step, s: State, points: seq<Point>): Traced
    decreases |points|
  {
    if points == [] then Traced(s, [], 0)
    else
      var (s1, r) := step(s, points[0]);
      var rest := Run(step, s1, points[1..]);
      Traced(rest.end, RowOf(s, s1, r) + rest.rows, (if r.Raised? then 1 else 0) + rest.raised)
  }

  /** The trips of lines `i` and `j`. */
  predicate Trips(env: Env, i: nat, j: nat, a: int, b: int) {
    i < |env.lines| && j < |env.lines| && env.lines[i].trip == a && env.lines[j].trip == b
  }

  predicate OnTrip(env: Env, i: nat, m: MatchResult)
    requires env.Valid()
  {
    i < |env.lines| && env.lines[i].trip == m.trip && 0.0 <= m.progress <= env.lines[i].length
  }

  /** A row against the match before it: time does not run back, progress lies on its line, the
      offset is within bounds; unless found anew, the match stays on its trip without losing progress
      or takes the next trip. */
  ghost predicate Follows(env: Env, prev: Option<MatchResult>, row: Row)
    requires env.Valid()
  {
    && (exists i: nat :: OnTrip(env, i, row.m))
    && (prev.Some? ==> prev.value.t <= row.m.t)
    && NearRoute(row.m) && (row.acquired ==> row.m.offset <= ACQUIRE_MAX_M)
    && (!row.acquired ==>
          && prev.Some?
          && (exists i, j :: Trips(env, i, j, prev.value.trip, row.m.trip) && i <= j <= i + 1)
          && (prev.value.trip == row.m.trip ==> prev.value.progress <= row.m.progress))
  }

  /** Every row follows from the one before it, the first from `prev`. */
  ghost predicate Chained(env: Env, prev: Option<MatchResult>, rows: seq<Row>)
    requires env.Valid()
    decreases |rows|
  {
    rows != [] ==> Follows(env, prev, rows[0]) && Chained(env, Some(rows[0].m), rows[1..])
  }

  /** Any two consecutive rows of a chain. */
  lemma {:induction false} ChainedAt(env: Env, prev: Option<MatchResult>, rows: seq<Row>, k: nat)
    requires env.Valid() && Chained(env, prev, rows) && k < |rows|
    ensures Follows(env, if k == 0 then prev else Some(rows[k - 1].m), rows[k])
    decreases k
  {
    if k > 0 {
      ChainedAt(env, Some(rows[0].m), rows[1..], k - 1);
    }
  }

  lemma RowFollows(env: Env, s: State, p: Point, s1: State, r: Outcome)
    requires env.Valid() && Coherent(env, s) && Coherent(env, s1) && Steps(env, s, p, s1, r) && r.Given?
    ensures Follows(env, s.last, RowOf(s, s1, r)[0])
  {
    assert OnTrip(env, s1.cur.value, r.m);
    if !Acquired(s, s1) {
      assert Trips(env, s.cur.value, s1.cur.value, s.last.value.trip, r.m.trip);
    }
  }

  lemma ChainStep(env: Env, s: State, p: Point, s1: State, r: Outcome, rows: seq<Row>)
    requires env.Valid() && Coherent(env, s) && Coherent(env, s1) && Steps(env, s, p, s1, r)
    requires Chained(env, s1.last, rows)
    ensures Chained(env, s.last, RowOf(s, s1, r) + rows)
  {
    if r.Given? {
      RowFollows(env, s, p, s1, r);
      assert (RowOf(s, s1, r) + rows)[1..] == rows;
    } else {
      assert RowOf(s, s1, r) + rows == rows;
    }
  }

  /** Over any track every row follows from the one before it, and the fields stay coherent. */
  lemma {:induction false} TrackIsChained(env: Env, step: Step, s: State, points: seq<Point>)
    requires env.Valid() && Lawful(env, step) && Coherent(env, s)
    ensures var t := Run(step, s, points); Coherent(env, t.end) && Chained(env, s.last, t.rows)
    decreases |points|
  {
    if points != [] {
      var (s1, r) := step(s, points[0]);
      assert StepsBy(env, step, s, points[0]);
      TrackIsChained(env, step, s1, points[1..]);
      ChainStep(env, s, points[0], s1, r, Run(step, s1, points[1..]).rows);
    }
  }

  /** Of `n` points each is accounted for once and each match is a row; one that raised an error is
      accounted for, without a row, at most as standing. */
  predicate Counts(st: Stats, n: nat, t: Traced) {
    var standing := Handled(t.end.stats) - Handled(st) - n + t.raised;
    && t.end.stats.points == st.points + n && t.raised <= n && 0 <= standing <= t.raised
    && Emitted(t.end.stats) == Emitted(st) + |t.rows| + standing
  }

  lemma {:induction false} TrackIsCounted(env: Env, step: Step, s: State, points: seq<Point>)
    requires env.Valid() && Lawful(env, step) && Coherent(env, s)
    ensures Counts(s.stats, |points|, Run(step, s, points))
    decreases |points|
  {
    if points != [] {
      assert StepsBy(env, step, s, points[0]);
      TrackIsCounted(env, step, step(s, points[0]).0, points[1..]);
    }
  }

  /** Every line after the first has a length. */
  predicate Passable(lines: seq<Line>) { forall i :: 0 < i < |lines| ==> lines[i].length != 0.0 }

  /** No point raises an error when every line after the first has a length. */
  lemma {:induction false} TrackNeverRaises(env: Env, step: Step, s: State, points: seq<Point>)
    requires env.Valid() && Lawful(env, step) && Coherent(env, s)
    requires Passable(env.lines)
    ensures Run(step, s, points).raised == 0
    decreases |points|
  {
    if points != [] {
      assert StepsBy(env, step, s, points[0]);
      TrackNeverRaises(env, step, step(s, points[0]).0, points[1..]);
    }
  }

  /** Going through a track in two parts is going through it at once. */
  lemma {:induction false} RunConcat(step: Step, s: State, a: seq<Point>, b: seq<Point>)
    ensures var t := Run(step, s, a);
      var u := Run(step, t.end, b);
      Run(step, s, a + b) == Traced(u.end, t.rows + u.rows, t.raised + u.raised)
    decreases |a|
  {
    if a == [] {
      assert a + b == b;
    } else {
      var (s1, r) := step(s, a[0]);
      RunConcat(step, s1, a[1..], b);
      assert (a + b)[1..] == a[1..] + b && (a + b)[0] == a[0];
      var t := Run(step, s1, a[1..]);
      var row, u := RowOf(s, s1, r), Run(step, t.end, b);
      assert row + (t.rows + u.rows) == (row + t.rows) + u.rows;
    }
  }

  /** Of a matcher that has seen nothing the first row is found anew. */
  lemma FreshTrackIsChained(env: Env, points: seq<Point>)
    requires env.Valid()
    ensures var rows := Run(Matcher(env), INIT, points).rows;
      Chained(env, None, rows) && (rows != [] ==> rows[0].acquired)
  {
    MatcherIsLawful(env);
    TrackIsChained(env, Matcher(env), INIT, points);
    FirstIsAcquired(env, Run(Matcher(env), INIT, points).rows);
  }

  lemma FirstIsAcquired(env: Env, rows: seq<Row>)
    requires env.Valid() && Chained(env, None, rows)
    ensures rows != [] ==> rows[0].acquired
  {
  }

  predicate AllCounted(st: Stats, n: nat, t: Traced) {
    t.raised == 0 && Handled(t.end.stats) == Handled(st) + n && Emitted(t.end.stats) == Emitted(st) + |t.rows|
  }

  /** The counters after `n` points: exact when every line after the first has a length. */
  predicate Accounted(lines: seq<Line>, st: Stats, n: nat, t: Traced) {
    Counts(st, n, t) && (Passable(lines) ==> AllCounted(st, n, t))
  }

  lemma CountsAll(st: Stats, n: nat, t: Traced)
    requires Counts(st, n, t) && t.raised == 0
    ensures AllCounted(st, n, t)
  {
  }

  lemma TrackIsAccounted(env: Env, step: Step, s: State, points: seq<Point>)
    requires env.Valid() && Lawful(env, step) && Coherent(env, s)
    ensures Accounted(env.lines, s.stats, |points|, Run(step, s, points))
  {
    TrackIsCounted(env, step, s, points);
    if Passable(env.lines) {
      TrackNeverRaises(env, step, s, points);
      CountsAll(s.stats, |points|, Run(step, s, points));
    }
  }

  // ---- on the lines of a plan ----

  function PlannedTrips(h: Distance, plan: seq<LineBuild.PlanStop>): Candidates.Trips {
    Candidates.Trips(h, LineBuild.LinesOf(LineBuild.BuilderOf(h, plan), LineBuild.Trips(plan)))
  }

  lemma PlannedTripsAreValid(h: Distance, plan: seq<LineBuild.PlanStop>)
    requires LineBuild.SortedByTime(plan)
    ensures PlannedTrips(h, plan).Valid() && MatchEnv.EnvOf(PlannedTrips(h, plan)).Valid()
  {
    LineBuild.PlannedLinesAreValid(h, plan);
    MatchEnv.EnvOfIsValid(PlannedTrips(h, plan));
  }

  /** From plan to rows: on the lines built from a plan sorted by time any track gives chained rows, the
      first of them found anew. */
  lemma PlannedTrackIsChained(h: Distance, plan: seq<LineBuild.PlanStop>, points: seq<Point>)
    requires LineBuild.SortedByTime(plan)
    ensures PlannedTrips(h, plan).Valid() &&
      var env := MatchEnv.EnvOf(PlannedTrips(h, plan));
      env.Valid() &&
      var rows := Run(Matcher(env), INIT, points).rows;
      Chained(env, None, rows) && (rows != [] ==> rows[0].acquired)
  {
    PlannedTripsAreValid(h, plan);
    FreshTrackIsChained(MatchEnv.EnvOf(PlannedTrips(h, plan)), points);
  }

  /** From plan to counters: every point is accounted for and every match is a row, exactly so when every
      line after the first has a length. */
  lemma PlannedTrackIsCounted(h: Distance, plan: seq<LineBuild.PlanStop>, points: seq<Point>)
    requires LineBuild.SortedByTime(plan)
    ensures PlannedTrips(h, plan).Valid() &&
      var env := MatchEnv.EnvOf(PlannedTrips(h, plan));
      env.Valid() && Accounted(env.lines, NO_STATS, |points|, Run(Matcher(env), INIT, points))
  {
    PlannedTripsAreValid(h, plan);
    var env := MatchEnv.EnvOf(PlannedTrips(h, plan));
    MatcherIsLawful(env);
    TrackIsAccounted(env, Matcher(env), INIT, points);
  }
}
