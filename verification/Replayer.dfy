/** The replayer's objects: the clock and the engine that ticks it, fields updated in place. */
module Replayer {
  import opened Numbers
  import opened Options
  import Clk = ReplayClock
  import Eng = ReplayEngine

  class ReplayClock {
    var speed: real
    const warmupSpeed: real
    var mode: Clk.Mode
    var warmup: Option<real>
    var anchor: real
    var wallAnchor: real

    function Value(): (c: Clk.Clock)
      reads this
    {
      Clk.Clock(speed, warmupSpeed, mode, warmup, anchor, wallAnchor)
    }

    /** Speeds go forward and the warm-up has not been overrun: time shown by such a clock never falls. */
    ghost predicate Valid()
      reads this
    {
      Clk.Sane(Value())
    }

    function Now(wall: real): real
      requires warmupSpeed > 0.0
      reads this
    {
      Clk.Now(Value(), wall)
    }

    constructor (speed: real, warmupSpeed: real, sim: real)
      ensures Value() == Clk.Park(Clk.Clock(speed, warmupSpeed, Clk.Stopped, None, 0.0, 0.0), sim)
      ensures Valid() <==> warmupSpeed > 0.0 && speed >= 0.0
    {
      this.speed, this.warmupSpeed := speed, warmupSpeed;
      mode, warmup, anchor, wallAnchor := Clk.Stopped, None, sim, 0.0;
    }

    method Start(simFrom: real, until: Option<real>, wall: real)
      modifies this
      ensures Value() == Clk.Start(old(Value()), simFrom, until, wall)
      ensures Valid() <==> Clk.Forward(old(Value()))
    {
      anchor := simFrom;
      wallAnchor := wall;
      warmup := if until.Some? && until.value != 0.0 && until.value > simFrom then until else None;
      mode := Clk.Running;
    }

    method Advance(wall: real, wall1: real) returns (switched: bool)
      requires warmupSpeed > 0.0
      modifies this
      ensures Value() == Clk.Advance(old(Value()), wall, wall1)
      ensures switched == Clk.Due(old(Value()), wall)
      ensures old(Valid()) && wall <= wall1 ==> Valid() && old(Now(wall)) <= Now(wall1)
    {
      if old(Valid()) && wall <= wall1 {
        Clk.AdvanceIsContinuous(Value(), wall, wall1);
        Clk.NowMonotone(Value(), wall, wall1);
      }
      if mode != Clk.Running || warmup.None? {
        return false;
      }
      var sim := Clk.Now(Value(), wall);
      if sim < warmup.value {
        return false;
      }
      Rebase(sim, wall1);
      warmup := None;
      return true;
    }

    method Pause(wall: real)
      requires warmupSpeed > 0.0
      modifies this
      ensures Value() == Clk.Pause(old(Value()), wall)
      ensures old(Valid()) ==> Now(wall) == old(Now(wall))
      ensures old(Valid()) ==>
                (Valid() <==> !(old(mode) == Clk.Running && warmup.Some? && old(Now(wall)) > warmup.value))
    {
      if mode == Clk.Running {
        anchor := Clk.Now(Value(), wall);
        mode := Clk.Paused;
      }
    }

    method Resume(wall: real)
      modifies this
      ensures Value() == Clk.Resume(old(Value()), wall)
      ensures old(Valid()) ==> Valid() && Now(wall) == old(Now(wall))
    {
      if mode == Clk.Paused {
        if old(Valid()) {
          Clk.ResumeJump(Value(), wall);
        }
        wallAnchor := wall;
        mode := Clk.Running;
      }
    }

    method Stop(wall: real)
      requires warmupSpeed > 0.0
      modifies this
      ensures Value() == Clk.Stop(old(Value()), wall)
      ensures old(Valid()) ==> Valid()
      ensures Now(wall) == old(Now(wall))
    {
      anchor := Clk.Now(Value(), wall);
      mode := Clk.Stopped;
    }

    method SetSpeed(speed: real, wall: real, wall1: real)
      requires warmupSpeed > 0.0
      modifies this
      ensures Value() == Clk.SetSpeed(old(Value()), speed, wall, wall1)
      ensures old(Valid()) && speed >= 0.0 ==> Valid()
      ensures Now(wall1) == old(Now(wall))
    {
      Clk.SetSpeedIsContinuous(Value(), speed, wall, wall1);
      Rebase(Clk.Now(Value(), wall), wall1);
      warmup := None;
      this.speed := speed;
    }

    method Rebase(sim: real, wall: real)
      modifies `anchor, `wallAnchor
      ensures anchor == sim && wallAnchor == wall
    {
      anchor := sim;
      wallAnchor := wall;
    }
  }

  class ReplayEngine {
    const ts: seq<int>
    const cfg: Eng.Settings
    const clock: ReplayClock
    var cursor: nat
    var session: Option<Eng.Session>
    var past: seq<Eng.Session>
    var loops: nat
    var linksUp: bool
    var backendLost: bool

    function Value(): Eng.Engine
      reads this, clock
    {
      Eng.Engine(clock.Value(), cursor, session, past, loops, linksUp, backendLost)
    }

    ghost predicate Valid()
      reads this, clock
    {
      Eng.Invariant(ts, cfg, Value())
    }

    constructor (ts: seq<int>, cfg: Eng.Settings, speed: real, warmupSpeed: real)
      requires Eng.InOrder(ts) && warmupSpeed > 0.0
      ensures Valid() && fresh(clock)
      ensures Value() == Eng.Parked(cfg, speed, warmupSpeed)
      ensures this.ts == ts && this.cfg == cfg
    {
      this.ts, this.cfg := ts, cfg;
      clock := new ReplayClock(speed, warmupSpeed, cfg.presetStart);
      cursor, session, past, loops, linksUp, backendLost := 0, None, [], 0, false, false;
    }

    method Begin(target: real, wall: real)
      requires Valid()
      modifies this, clock
      ensures Valid() && Value() == Eng.Begin(ts, cfg, old(Value()), target, wall)
    {
      Eng.BeginKeeps(ts, cfg, Value(), target, wall);
      var from := Max(cfg.dayStart, target - cfg.warmup);
      past := past + (if session.Some? then [session.value] else []);
      session := Some(Eng.Session(from, None, []));
      clock.Start(from, Some(target), wall);
      cursor := Eng.IndexAt(ts, from);
    }

    /** Hands out all rows due by now; a finished loop starts the next session or stops the clock. */
    method Tick(wall: real)
      requires Valid()
      modifies this, clock
      ensures Valid() && Value() == Eng.Tick(ts, cfg, old(Value()), wall)
    {
      Eng.TickKeeps(ts, cfg, Value(), wall);
      if clock.mode == Clk.Running {
        var _ := clock.Advance(wall, wall);
        var now := Min(Clk.Now(clock.Value(), wall), cfg.loopEnd);
        Eng.EmitKeeps(ts, cfg, Value(), now);
        EmitUntil(now);
        if now >= cfg.loopEnd {
          FinishLoop(wall);
        }
      }
    }

    method EmitUntil(sim: real)
      requires session.Some?
      modifies `cursor, `session
      ensures Value() == Eng.EmitUntil(ts, old(Value()), sim)
    {
      var end := Eng.EndAt(ts, sim);
      var s := session.value;
      var log := s.log;
      for i := cursor to MaxInt(cursor, end)
        invariant log == s.log + Eng.Range(cursor, i)
      {
        log := log + [i];
        assert Eng.Range(cursor, i) + [i] == Eng.Range(cursor, i + 1);
      }
      var reached := if s.reached.Some? then Max(s.reached.value, sim) else sim;
      session := Some(Eng.Session(s.from, Some(reached), log));
      cursor := MaxInt(cursor, end);
    }

    method FinishLoop(wall: real)
      requires Valid()
      modifies this, clock
      ensures Value() == Eng.FinishLoop(ts, cfg, old(Value()), wall)
    {
      if cfg.loop {
        loops := loops + 1;
        Begin(cfg.presetStart, wall);
      } else {
        clock.Stop(wall);
      }
    }

    method WatchBackend(up: nat, total: nat, wall: real)
      requires Valid()
      modifies this, clock
      ensures Valid() && Value() == Eng.Watch(ts, cfg, old(Value()), up, total, wall)
    {
      Eng.WatchKeeps(ts, cfg, Value(), up, total, wall);
      if up == 0 && linksUp {
        backendLost := true;
      }
      linksUp := up > 0;
      if !(backendLost && up * 10 >= total * 9) {
        return;
      }
      backendLost := false;
      if session.Some? && clock.mode == Clk.Running && clock.warmup.None? {
        Begin(Min(Clk.Now(clock.Value(), wall), cfg.loopEnd - 1.0), wall);
      }
    }
  }
}
