/** The matcher as the object that lives on one vehicle: its methods update the fields in place. */
module RouteMatching {
  import opened Candidates
  import opened MatchEnv
  import opened Matching
  import opened Numbers
  import opened Options
  import opened RouteLine

  class RouteMatcher {
    const env: Env
    var cur: Option<nat>
    var progress: real
    var anchor: Option<Fix>
    var rejects: nat
    var lost: nat
    var last: Option<MatchResult>
    var stats: Stats

    function Value(): State
      reads this
    {
      State(cur, progress, anchor, rejects, lost, last, stats)
    }

    ghost predicate Valid()
      reads this
    {
      env.Valid() && Coherent(env, Value())
    }

    constructor (trips: Trips)
      requires trips.Valid()
      ensures Valid() && Value() == INIT && env == EnvOf(trips)
    {
      EnvOfIsValid(trips);
      env := EnvOf(trips);
      cur, progress, anchor, rejects, lost, last, stats := None, 0.0, None, 0, 0, None, NO_STATS;
    }

    /** The next point of the vehicle. */
    method Update(p: Point) returns (r: Outcome)
      requires Valid()
      modifies this
      ensures Valid()
      ensures (Value(), r) == Matching.Update(env, old(Value()), p)
    {
      ghost var s := Value();
      r := Receive(p);
      UpdateSteps(env, s, p);
    }

    method Receive(p: Point) returns (r: Outcome)
      requires env.Valid() && OnLine(env, Value())
      modifies this
      ensures (Value(), r) == Matching.Update(env, old(Value()), p)
    {
      stats := stats.(points := stats.points + 1);
      if !Usable(p) {
        stats := stats.(invalid := stats.invalid + 1);
        r := Nothing;
      } else {
        var kind := Screen(p);
        r := Act(p, kind);
      }
    }

    method Act(p: Point, kind: Kind) returns (r: Outcome)
      requires env.Valid() && OnLine(env, Value()) && Forward(kind)
      modifies this
      ensures (Value(), r) == Matching.Act(env, old(Value()), p, kind)
    {
      if kind.Outlier? {
        stats := stats.(outlier := stats.outlier + 1);
        return Nothing;
      }
      if kind.Still? && last.Some? {
        r := Stand(p);
      } else {
        r := Move(p, if kind.Ok? then kind.dt else Some(kind.gap));
      }
    }

    method Move(p: Point, dt: Option<real>) returns (r: Outcome)
      requires env.Valid() && OnLine(env, Value()) && (dt.Some? ==> dt.value >= 0.0)
      modifies this
      ensures (Value(), r) == Moved(env, old(Value()), p, dt)
    {
      anchor := Some(Fix(p.t, p.x, p.y));
      var heading := if p.speed >= COURSE_MIN_KMH then Some(p.course) else None;
      r := Match(p, heading, dt);
      Settle(r);
    }

    method Settle(r: Outcome)
      modifies `last, `stats
      ensures Value() == Settled(old(Value()), r)
    {
      match r
      case Given(m) =>
        stats := stats.(matched := stats.matched + 1);
        last := Some(m);
      case Nothing => stats := stats.(unmatched := stats.unmatched + 1);
      case Raised =>
    }

    method Screen(p: Point) returns (kind: Kind)
      requires env.Valid() && OnLine(env, Value())
      modifies this
      ensures (Value(), kind) == Matching.Screen(env, old(Value()), p)
    {
      if anchor.None? {
        return Ok(None);
      }
      var at := anchor.value;
      var dt, d := p.t - at.t, env.h(p.x - at.x, p.y - at.y);
      if dt < 0.0 {
        stats := stats.(late := stats.late + 1);
        return Outlier;
      }
      if d > Allowance(dt) {
        rejects := rejects + 1;
        if rejects < RESYNC_N {
          return Outlier;
        }
        stats := stats.(resync := stats.resync + 1);
        cur := None;
      }
      rejects := 0;
      if p.speed < STILL_KMH && d < STILL_M && cur.Some? {
        anchor := Some(at.(t := p.t));
        return Still(dt);
      }
      return Ok(Some(Max(dt, 0.0)));
    }

    method Stand(p: Point) returns (r: Outcome)
      requires env.Valid() && OnLine(env, Value()) && last.Some?
      modifies this
      ensures (Value(), r) == Stood(env, old(Value()), p)
    {
      stats := stats.(still := stats.still + 1);
      var rolled := RollToNext(p);
      if !rolled {
        return Raised;
      }
      last := Some(last.value.(t := p.t));
      r := Given(last.value);
    }

    /** Whether it ended without an error. */
    method RollToNext(p: Point) returns (rolled: bool)
      requires env.Valid() && OnLine(env, Value())
      modifies this
      ensures var s1 := Matching.RollToNext(env, old(Value()), p);
        rolled == s1.Some? && Value() == if rolled then s1.value else old(Value())
    {
      if cur.None? || cur.value + 1 >= |env.lines| {
        return true;
      }
      var i, line := cur.value, env.lines[cur.value];
      if line.length - progress > ARRIVE_M || p.t < line.end {
        return true;
      }
      var pr := env.arrive(i + 1, p);
      if pr.None? {
        return false;
      }
      if pr.value.dist <= ON_ROUTE_M {
        stats := stats.(switches := stats.switches + 1);
        cur, progress := Some(i + 1), pr.value.s;
        last := Some(env.result(p, i + 1, progress, pr.value.dist, true));
      }
      return true;
    }

    method Match(p: Point, heading: Option<Heading>, dt: Option<real>) returns (r: Outcome)
      requires env.Valid() && OnLine(env, Value()) && (dt.Some? ==> dt.value >= 0.0)
      modifies this
      ensures (Value(), r) == Matching.Match(env, old(Value()), p, heading, dt)
    {
      if Expired(env.lines, Value(), p, dt) {
        r := Acquire(p, heading);
        return;
      }
      var best := env.track(cur.value, progress, p, heading, dt.value);
      assert Tracked(env.lines, cur.value, best);
      if best.None? {
        return Raised;
      }
      if best.value.dist > LOST_M {
        r := Stray(p, heading, best.value);
      } else {
        r := Follow(p, best.value);
      }
    }

    method Stray(p: Point, heading: Option<Heading>, best: Cand) returns (r: Outcome)
      requires env.Valid() && OnLine(env, Value()) && cur.Some?
      modifies this
      ensures (Value(), r) == Matching.Stray(env, old(Value()), p, heading, best)
    {
      lost := lost + 1;
      if lost >= LOST_N {
        r := Acquire(p, heading);
      } else {
        r := Given(env.result(p, cur.value, progress, best.dist, false));
      }
    }

    method Follow(p: Point, best: Cand) returns (r: Outcome)
      requires env.Valid() && OnLine(env, Value()) && cur.Some? && best.line < |env.lines|
      modifies this
      ensures (Value(), r) == Matching.Follow(env, old(Value()), p, best)
    {
      lost := 0;
      if best.line != cur.value {
        stats := stats.(switches := stats.switches + 1);
        cur, progress := Some(best.line), best.s;
      }
      progress := Max(progress, best.s);
      r := Given(env.result(p, cur.value, progress, best.dist, true));
    }

    method Acquire(p: Point, heading: Option<Heading>) returns (r: Outcome)
      requires env.Valid()
      modifies this
      ensures (Value(), r) == Matching.Acquire(env, old(Value()), p, heading)
    {
      stats := stats.(acquire := stats.acquire + 1);
      var best := env.search(p, heading);
      if best.None? || best.value.dist > ACQUIRE_MAX_M {
        cur := None;
        return Nothing;
      }
      cur, progress, lost := Some(best.value.line), best.value.s, 0;
      r := Given(env.result(p, best.value.line, best.value.s, best.value.dist, true));
    }
  }
}
