/** The two-speed simulation clock of the replayer.

    The monotonic wall clock is a parameter; an operation that reads it twice takes both readings. */
module ReplayClock {
  import opened Options

  datatype Mode = Running | Paused | Stopped

  datatype Clock = Clock(
    speed: real, warmupSpeed: real, mode: Mode, warmup: Option<real>, anchor: real, wallAnchor: real)

  /** The warm-up has a positive speed and the main speed is not negative. */
  predicate Forward(c: Clock) { c.warmupSpeed > 0.0 && c.speed >= 0.0 }

  function Effective(c: Clock): real { if c.warmup.Some? then c.warmupSpeed else c.speed }

  function Now(c: Clock, wall: real): real
    requires c.warmupSpeed > 0.0
  {
    if c.mode != Running then c.anchor
    else
      var elapsed := wall - c.wallAnchor;
      var sim := c.anchor + elapsed * Effective(c);
      if c.warmup.None? || sim < c.warmup.value then sim
      else
        var wallAtSwitch := (c.warmup.value - c.anchor) / c.warmupSpeed;
        c.warmup.value + (elapsed - wallAtSwitch) * c.speed
  }

  // ---- operations ----

  /** A missing or zero warm-up end counts as none. */
  function Start(c: Clock, simFrom: real, warmup: Option<real>, wall: real): Clock {
    var until := if warmup.Some? && warmup.value != 0.0 && warmup.value > simFrom then warmup else None;
    c.(anchor := simFrom, wallAnchor := wall, warmup := until, mode := Running)
  }

  function Park(c: Clock, sim: real): Clock { c.(anchor := sim, warmup := None, mode := Stopped) }

  /** Whether the warm-up is over but the clock has not yet switched. */
  predicate Due(c: Clock, wall: real)
    requires c.warmupSpeed > 0.0
  {
    c.mode == Running && c.warmup.Some? && Now(c, wall) >= c.warmup.value
  }

  function Advance(c: Clock, wall: real, wall1: real): Clock
    requires c.warmupSpeed > 0.0
  {
    if Due(c, wall) then c.(anchor := Now(c, wall), wallAnchor := wall1, warmup := None) else c
  }

  function Pause(c: Clock, wall: real): Clock
    requires c.warmupSpeed > 0.0
  {
    if c.mode == Running then c.(anchor := Now(c, wall), mode := Paused) else c
  }

  function Resume(c: Clock, wall: real): Clock {
    if c.mode == Paused then c.(wallAnchor := wall, mode := Running) else c
  }

  function Stop(c: Clock, wall: real): Clock
    requires c.warmupSpeed > 0.0
  {
    c.(anchor := Now(c, wall), mode := Stopped)
  }

  function SetSpeed(c: Clock, speed: real, wall: real, wall1: real): Clock
    requires c.warmupSpeed > 0.0
  {
    c.(anchor := Now(c, wall), wallAnchor := wall1, warmup := None, speed := speed)
  }

  // ---- the law of the two speeds ----

  /** The anchor has not passed the end of the warm-up it belongs to. */
  predicate Sane(c: Clock) {
    Forward(c) && (c.mode != Stopped && c.warmup.Some? ==> c.anchor <= c.warmup.value)
  }

  lemma Product(a: real, b: real)
    requires a >= 0.0 && b >= 0.0
    ensures a * b >= 0.0
  {
  }

  lemma Distribute(a: real, b: real, v: real)
    ensures (a + b) * v == a * v + b * v
  {
  }

  lemma ProductPositive(a: real, b: real)
    requires b > 0.0
    ensures a * b >= 0.0 <==> a >= 0.0
  {
    if a >= 0.0 {
      Product(a, b);
    } else {
      assert (-a) * b > 0.0;
    }
  }

  /** The wall time the warm-up takes, and on which side of it a moment lies. */
  lemma AtSwitch(anchor: real, until: real, speed: real, elapsed: real)
    requires speed > 0.0
    ensures var k := (until - anchor) / speed;
      && anchor + elapsed * speed - until == (elapsed - k) * speed
      && (anchor + elapsed * speed >= until <==> elapsed >= k)
  {
    var k := (until - anchor) / speed;
    assert k * speed == until - anchor;
    Distribute(elapsed, -k, speed);
    assert (-k) * speed == -(k * speed);
    ProductPositive(elapsed - k, speed);
  }

  /** The warm-up is due exactly from the moment its wall time has passed. */
  lemma DueIff(c: Clock, wall: real)
    requires Sane(c) && c.mode == Running && c.warmup.Some?
    ensures Due(c, wall) <==> wall - c.wallAnchor >= (c.warmup.value - c.anchor) / c.warmupSpeed
  {
    var elapsed, k := wall - c.wallAnchor, (c.warmup.value - c.anchor) / c.warmupSpeed;
    AtSwitch(c.anchor, c.warmup.value, c.warmupSpeed, elapsed);
    if elapsed >= k {
      Product(elapsed - k, c.speed);
    }
  }

  /** Simulated time over a stretch of wall time on one side of the switch. */
  lemma NowAdds(c: Clock, wall: real, wall1: real)
    requires Forward(c) && c.mode == Running && wall <= wall1
    requires c.warmup.Some? ==> c.anchor + (wall - c.wallAnchor) * c.warmupSpeed >= c.warmup.value
    ensures Now(c, wall1) == Now(c, wall) + (wall1 - wall) * c.speed
  {
    var e, d := wall - c.wallAnchor, wall1 - wall;
    if c.warmup.Some? {
      var k := (c.warmup.value - c.anchor) / c.warmupSpeed;
      Distribute(e, d, c.warmupSpeed);
      Product(d, c.warmupSpeed);
      assert e + d == wall1 - c.wallAnchor;
      Distribute(e - k, d, c.speed);
      assert e - k + d == wall1 - c.wallAnchor - k;
    } else {
      Distribute(e, d, c.speed);
      assert e + d == wall1 - c.wallAnchor;
    }
  }

  /** Until the warm-up is over a second of wall time is `warmupSpeed` seconds, and the clock starts at its anchor. */
  lemma WarmupRuns(c: Clock, wall: real)
    requires Forward(c) && c.mode == Running && c.warmup.Some?
    requires c.anchor + (wall - c.wallAnchor) * c.warmupSpeed < c.warmup.value
    ensures Now(c, wall) == c.anchor + (wall - c.wallAnchor) * c.warmupSpeed
  {
  }

  /** A clock started at `simFrom` shows it, and is in its warm-up exactly when one is asked for and lies ahead. */
  lemma StartShows(c: Clock, simFrom: real, warmup: Option<real>, wall: real)
    requires Forward(c)
    ensures var c1 := Start(c, simFrom, warmup, wall);
      && Now(c1, wall) == simFrom && c1.mode == Running && c1.speed == c.speed && c1.warmupSpeed == c.warmupSpeed
      && (c1.warmup.Some? <==> warmup.Some? && warmup.value != 0.0 && simFrom < warmup.value)
      && (c1.warmup.Some? ==> c1.warmup == warmup)
  {
    assert (wall - wall) * Effective(Start(c, simFrom, warmup, wall)) == 0.0;
  }

  /** A new speed counts from the moment it is set, and ends the warm-up. */
  lemma SpeedCounts(c: Clock, speed: real, wall: real, later: real)
    requires c.warmupSpeed > 0.0 && c.mode == Running
    ensures Now(SetSpeed(c, speed, wall, wall), later) == Now(c, wall) + (later - wall) * speed
  {
  }

  /** A stopped clock shows the moment it was stopped at, forever; a paused one until it is resumed. */
  lemma StopHolds(c: Clock, wall: real, later: real)
    requires c.warmupSpeed > 0.0
    ensures Stop(c, wall).mode == Stopped && Now(Stop(c, wall), later) == Now(c, wall)
    ensures Resume(Stop(c, wall), later) == Stop(c, wall)
    ensures c.mode == Running ==> Pause(c, wall).mode == Paused && Resume(Pause(c, wall), later).mode == Running
  {
  }

  /** Simulated time never runs backwards between two readings. */
  lemma NowMonotone(c: Clock, wall: real, wall1: real)
    requires Sane(c) && wall <= wall1
    ensures Now(c, wall) <= Now(c, wall1)
  {
    if c.mode == Running {
      var until := c.warmup;
      if until.Some? && c.anchor + (wall - c.wallAnchor) * c.warmupSpeed < until.value {
        assert Now(c, wall) < until.value;
        DueIff(c, wall1);
        if !Due(c, wall1) {
          Grows(c.anchor, wall - c.wallAnchor, wall1 - c.wallAnchor, c.warmupSpeed);
        }
      } else {
        Product(wall1 - wall, c.speed);
        NowAdds(c, wall, wall1);
      }
    }
  }

  lemma Grows(a: real, e: real, e1: real, v: real)
    requires e <= e1 && v >= 0.0
    ensures a + e * v <= a + e1 * v
  {
    Product(e1 - e, v);
    Distribute(e, e1 - e, v);
    assert e + (e1 - e) == e1;
  }

  // ---- continuity ----

  /** Switching to the main speed changes no later reading. */
  lemma AdvanceIsInvisible(c: Clock, wall: real, later: real)
    requires Sane(c) && wall <= later
    ensures Sane(Advance(c, wall, wall)) && Now(Advance(c, wall, wall), later) == Now(c, later)
  {
    if Due(c, wall) {
      DueIff(c, wall);
      AtSwitch(c.anchor, c.warmup.value, c.warmupSpeed, wall - c.wallAnchor);
      NowAdds(c, wall, later);
    }
  }

  /** With two readings of the wall clock the simulation goes on from the first one. */
  lemma AdvanceIsContinuous(c: Clock, wall: real, wall1: real)
    requires Sane(c)
    ensures Sane(Advance(c, wall, wall1))
    ensures Due(c, wall) ==> Now(Advance(c, wall, wall1), wall1) == Now(c, wall)
    ensures !Due(c, wall) ==> Advance(c, wall, wall1) == c
  {
  }

  lemma SetSpeedIsContinuous(c: Clock, speed: real, wall: real, wall1: real)
    requires c.warmupSpeed > 0.0
    ensures Now(SetSpeed(c, speed, wall, wall1), wall1) == Now(c, wall)
    ensures Forward(c) && speed >= 0.0 ==> Sane(SetSpeed(c, speed, wall, wall1))
  {
  }

  /** A pause freezes the reading, and leaves the clock sane exactly when the warm-up is not overdue
      by then. */
  lemma PauseIsContinuous(c: Clock, wall: real, later: real)
    requires Sane(c)
    ensures Now(Pause(c, wall), later) == Now(c, wall)
    ensures Sane(Pause(c, wall)) <==>
              !(c.mode == Running && c.warmup.Some? && Now(c, wall) > c.warmup.value)
  {
  }

  /** Resuming changes the reading by exactly the overdue warm-up, run at the other speed: it is
      continuous if and only if nothing is overdue or the two speeds are equal. */
  lemma ResumeJump(c: Clock, wall: real)
    requires c.warmupSpeed > 0.0 && c.mode == Paused
    ensures var jump := Now(Resume(c, wall), wall) - Now(c, wall);
      && (c.warmup.None? || c.anchor <= c.warmup.value ==> jump == 0.0)
      && (c.warmup.Some? && c.anchor > c.warmup.value ==>
            && jump * c.warmupSpeed == (c.anchor - c.warmup.value) * (c.speed - c.warmupSpeed)
            && (jump == 0.0 <==> c.speed == c.warmupSpeed)
            && (jump < 0.0 <==> c.speed < c.warmupSpeed))
  {
    if c.warmup.Some? && c.anchor >= c.warmup.value {
      var k := (c.warmup.value - c.anchor) / c.warmupSpeed;
      assert k * c.warmupSpeed == c.warmup.value - c.anchor;
      var over := c.anchor - c.warmup.value;
      var jump := Now(Resume(c, wall), wall) - Now(c, wall);
      assert jump == (0.0 - k) * c.speed - over;
      JumpSize(k, over, c.speed, c.warmupSpeed, jump);
    }
  }

  lemma JumpSize(k: real, over: real, speed: real, warmupSpeed: real, jump: real)
    requires warmupSpeed > 0.0 && over >= 0.0 && k * warmupSpeed == -over && jump == (0.0 - k) * speed - over
    ensures jump * warmupSpeed == over * (speed - warmupSpeed)
    ensures over == 0.0 ==> jump == 0.0
    ensures over > 0.0 ==> (jump == 0.0 <==> speed == warmupSpeed) && (jump < 0.0 <==> speed < warmupSpeed)
  {
    calc {
      jump * warmupSpeed;
      ((0.0 - k) * speed - over) * warmupSpeed;
      { assert (0.0 - k) * speed * warmupSpeed == (0.0 - k * warmupSpeed) * speed; }
      over * speed - over * warmupSpeed;
      over * (speed - warmupSpeed);
    }
    Signs(jump, warmupSpeed);
    if over > 0.0 {
      Signs(speed - warmupSpeed, over);
    }
  }

  lemma Signs(a: real, b: real)
    requires b > 0.0
    ensures (a * b == 0.0 <==> a == 0.0) && (a * b < 0.0 <==> a < 0.0)
  {
    ProductPositive(a, b);
    if a > 0.0 {
      assert a * b > 0.0;
    }
  }

  /** Pausing after the warm-up is over but before the clock has switched: at main speed 1 against
      warm-up speed 60 the simulation falls back by almost a minute. */
  lemma ResumeFallsBack()
    ensures var c := Start(Clock(1.0, 60.0, Stopped, None, 0.0, 0.0), 0.0, Some(60.0), 0.0);
      var paused := Pause(c, 61.0);
      && Now(paused, 61.0) == 120.0
      && Now(Resume(paused, 61.0), 61.0) == 61.0
  {
  }

  // ---- runs ----

  datatype Event = Look | DoAdvance | DoPause | DoResume | DoStop | DoSetSpeed(speed: real)

  /** An event and the first and last reading of the wall clock in it. */
  datatype Timed = Timed(event: Event, wall: real, wall1: real)

  function Apply(c: Clock, e: Timed): Clock
    requires c.warmupSpeed > 0.0
  {
    match e.event
    case Look => c
    case DoAdvance => Advance(c, e.wall, e.wall1)
    case DoPause => Pause(c, e.wall)
    case DoResume => Resume(c, e.wall)
    case DoStop => Stop(c, e.wall)
    case DoSetSpeed(speed) => SetSpeed(c, speed, e.wall, e.wall1)
  }

  /** Wall time does not run backwards, speeds are not negative, and no pause is taken past the
      warm-up before the clock has switched. */
  predicate Orderly(c: Clock, wall: real, events: seq<Timed>)
    requires c.warmupSpeed > 0.0
    decreases |events|
  {
    events != [] ==>
      var e := events[0];
      && wall <= e.wall <= e.wall1
      && (e.event.DoSetSpeed? ==> e.event.speed >= 0.0)
      && (e.event.DoPause? && c.mode == Running && c.warmup.Some? ==> Now(c, e.wall) <= c.warmup.value)
      && Orderly(Apply(c, e), e.wall1, events[1..])
  }

  function After(c: Clock, events: seq<Timed>): Clock
    requires c.warmupSpeed > 0.0
    decreases |events|
  {
    if events == [] then c else After(Apply(c, events[0]), events[1..])
  }

  function LastWall(wall: real, events: seq<Timed>): real {
    if events == [] then wall else events[|events| - 1].wall1
  }

  lemma EventKeepsSane(c: Clock, wall: real, e: Timed)
    requires Sane(c) && Orderly(c, wall, [e])
    ensures Sane(Apply(c, e)) && Now(c, wall) <= Now(Apply(c, e), e.wall1)
  {
    NowMonotone(c, wall, e.wall);
    NowMonotone(c, e.wall, e.wall1);
    match e.event
    case DoAdvance => AdvanceIsContinuous(c, e.wall, e.wall1);
    case DoPause => PauseIsContinuous(c, e.wall, e.wall1);
    case DoResume => ResumeKeeps(c, e.wall, e.wall1);
    case DoSetSpeed(speed) => SetSpeedIsContinuous(c, speed, e.wall, e.wall1);
    case _ =>
  }

  lemma ResumeKeeps(c: Clock, wall: real, wall1: real)
    requires Sane(c) && wall <= wall1
    ensures Sane(Resume(c, wall)) && (c.mode == Paused ==> Now(c, wall) <= Now(Resume(c, wall), wall1))
  {
    if c.mode == Paused {
      ResumeJump(c, wall);
      NowMonotone(Resume(c, wall), wall, wall1);
    }
  }

  /** Over any orderly interleaving simulated time never decreases. */
  lemma {:induction false} RunIsMonotone(c: Clock, wall: real, events: seq<Timed>, later: real)
    requires Sane(c) && Orderly(c, wall, events) && LastWall(wall, events) <= later
    ensures Sane(After(c, events)) && Now(c, wall) <= Now(After(c, events), later)
    decreases |events|
  {
    if events == [] {
      NowMonotone(c, wall, later);
    } else {
      EventKeepsSane(c, wall, events[0]);
      RunIsMonotone(Apply(c, events[0]), events[0].wall1, events[1..], later);
    }
  }
}
