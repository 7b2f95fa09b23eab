/** The replayer's engine: simulated time drives the rows of a recorded track to the links.

    A session keeps the rows handed out in it; `reached` is the latest simulated time of its ticks. */
module ReplayEngine {
  import opened Numbers
  import opened Options
  import opened ReplayClock
  import opened Searching

  datatype Settings = Settings(dayStart: real, presetStart: real, loopEnd: real, warmup: real, loop: bool)

  datatype Session = Session(from: real, reached: Option<real>, log: seq<nat>)

  datatype Engine = Engine(
    clock: Clock, cursor: nat, session: Option<Session>, past: seq<Session>, loops: nat,
    linksUp: bool, backendLost: bool)

  predicate InOrder(ts: seq<int>) { forall i, j :: 0 <= i <= j < |ts| ==> ts[i] <= ts[j] }

  function Seconds(ts: seq<int>): (r: seq<real>)
    ensures |r| == |ts| && forall i :: 0 <= i < |r| ==> r[i] == ts[i] as real
  {
    seq(|ts|, i requires 0 <= i < |ts| => ts[i] as real)
  }

  /** The first row not before `sim`. */
  function IndexAt(ts: seq<int>, sim: real): (k: nat)
    ensures k <= |ts|
  {
    Left(Seconds(ts), sim)
  }

  lemma IndexSplits(ts: seq<int>, sim: real)
    requires InOrder(ts)
    ensures forall i :: 0 <= i < |ts| ==> (i < IndexAt(ts, sim) <==> ts[i] as real < sim)
  {
    LeftSplits(Seconds(ts), sim);
  }

  /** The row after the last one due at `sim`. */
  function EndAt(ts: seq<int>, sim: real): nat { IndexAt(ts, (sim.Floor + 1) as real) }

  function Range(lo: nat, hi: nat): seq<nat>
    requires lo <= hi
  {
    seq(hi - lo, i requires 0 <= i => lo + i)
  }

  // ---- operations ----

  /** A new session: warm-up up to `target`, from no earlier than the start of the day. */
  function Begin(ts: seq<int>, cfg: Settings, e: Engine, target: real, wall: real): Engine {
    var from := Max(cfg.dayStart, target - cfg.warmup);
    e.(clock := Start(e.clock, from, Some(target), wall),
       cursor := IndexAt(ts, from),
       session := Some(Session(from, None, [])),
       past := e.past + (if e.session.Some? then [e.session.value] else []))
  }

  /** Hands out the rows up to `sim`, from where the last tick stopped. */
  function EmitUntil(ts: seq<int>, e: Engine, sim: real): Engine
    requires e.session.Some?
  {
    var end := EndAt(ts, sim);
    var s := e.session.value;
    e.(cursor := MaxInt(e.cursor, end),
       session := Some(s.(log := s.log + (if e.cursor <= end then Range(e.cursor, end) else []),
                          reached := Some(if s.reached.Some? then Max(s.reached.value, sim) else sim))))
  }

  function FinishLoop(ts: seq<int>, cfg: Settings, e: Engine, wall: real): Engine
    requires e.clock.warmupSpeed > 0.0
  {
    if cfg.loop then Begin(ts, cfg, e.(loops := e.loops + 1), cfg.presetStart, wall)
    else e.(clock := Stop(e.clock, wall))
  }

  function Tick(ts: seq<int>, cfg: Settings, e: Engine, wall: real): Engine
    requires e.clock.warmupSpeed > 0.0 && (e.clock.mode == Running ==> e.session.Some?)
  {
    if e.clock.mode != Running then e
    else
      var clock := Advance(e.clock, wall, wall);
      var now := Min(Now(clock, wall), cfg.loopEnd);
      var e1 := EmitUntil(ts, e.(clock := clock), now);
      if now >= cfg.loopEnd then FinishLoop(ts, cfg, e1, wall) else e1
  }

  /** `up` of `total` links are connected: when all were lost and nine tenths have come back, the
      session starts anew from the current time, unless paused or warming up. */
  function Watch(ts: seq<int>, cfg: Settings, e: Engine, up: nat, total: nat, wall: real): Engine
    requires e.clock.warmupSpeed > 0.0
  {
    var lost := e.backendLost || (up == 0 && e.linksUp);
    var back := lost && up * 10 >= total * 9;
    var e1 := e.(linksUp := up > 0, backendLost := lost && !back);
    if back && e.session.Some? && e.clock.mode == Running && e.clock.warmup.None? then
      Begin(ts, cfg, e1, Min(Now(e.clock, wall), cfg.loopEnd - 1.0), wall)
    else e1
  }

  datatype Action = DoBegin(target: real) | DoTick | DoWatch(up: nat, total: nat) | Control(event: Event)

  function Act(ts: seq<int>, cfg: Settings, e: Engine, a: Action, wall: real): Engine
    requires e.clock.warmupSpeed > 0.0 && (e.clock.mode == Running ==> e.session.Some?)
  {
    match a
    case DoBegin(target) => Begin(ts, cfg, e, target, wall)
    case DoTick => Tick(ts, cfg, e, wall)
    case DoWatch(up, total) => Watch(ts, cfg, e, up, total, wall)
    case Control(event) => e.(clock := Apply(e.clock, Timed(event, wall, wall)))
  }

  // ---- exactly once ----

  /** Where the cursor of a session belongs. */
  function CursorOf(ts: seq<int>, s: Session): nat {
    MaxInt(IndexAt(ts, s.from), if s.reached.Some? then EndAt(ts, s.reached.value) else 0)
  }

  /** A session has handed out one run of rows, up to its cursor, within the loop. */
  predicate Exact(ts: seq<int>, cfg: Settings, s: Session) {
    && s.log == Range(IndexAt(ts, s.from), CursorOf(ts, s))
    && (s.reached.Some? ==> s.reached.value <= cfg.loopEnd)
  }

  ghost predicate Invariant(ts: seq<int>, cfg: Settings, e: Engine) {
    && InOrder(ts) && e.clock.warmupSpeed > 0.0
    && (e.clock.mode != Stopped ==> e.session.Some?)
    && (e.session.Some? ==> Exact(ts, cfg, e.session.value) && e.cursor == CursorOf(ts, e.session.value))
    && (forall k :: 0 <= k < |e.past| ==> Exact(ts, cfg, e.past[k]))
  }

  lemma EndMonotone(ts: seq<int>, a: real, b: real)
    requires a <= b
    ensures EndAt(ts, a) <= EndAt(ts, b)
  {
    assert a.Floor <= b.Floor;
    SearchesMonotone(Seconds(ts), (a.Floor + 1) as real, (b.Floor + 1) as real);
  }

  lemma BeginKeeps(ts: seq<int>, cfg: Settings, e: Engine, target: real, wall: real)
    requires Invariant(ts, cfg, e)
    ensures Invariant(ts, cfg, Begin(ts, cfg, e, target, wall))
  {
  }

  lemma EmitKeeps(ts: seq<int>, cfg: Settings, e: Engine, sim: real)
    requires Invariant(ts, cfg, e) && e.session.Some? && sim <= cfg.loopEnd
    ensures Invariant(ts, cfg, EmitUntil(ts, e, sim))
  {
    var s, end := e.session.value, EndAt(ts, sim);
    if s.reached.Some? {
      if s.reached.value <= sim {
        EndMonotone(ts, s.reached.value, sim);
      } else {
        EndMonotone(ts, sim, s.reached.value);
      }
    }
    var lo := IndexAt(ts, s.from);
    if e.cursor <= end {
      assert Range(lo, e.cursor) + Range(e.cursor, end) == Range(lo, end);
    }
  }

  lemma TickKeeps(ts: seq<int>, cfg: Settings, e: Engine, wall: real)
    requires Invariant(ts, cfg, e)
    ensures Invariant(ts, cfg, Tick(ts, cfg, e, wall))
  {
    if e.clock.mode == Running {
      var clock := Advance(e.clock, wall, wall);
      var now := Min(Now(clock, wall), cfg.loopEnd);
      EmitKeeps(ts, cfg, e.(clock := clock), now);
      var e1 := EmitUntil(ts, e.(clock := clock), now);
      BeginKeeps(ts, cfg, e1.(loops := e1.loops + 1), cfg.presetStart, wall);
    }
  }

  lemma WatchKeeps(ts: seq<int>, cfg: Settings, e: Engine, up: nat, total: nat, wall: real)
    requires Invariant(ts, cfg, e)
    ensures Invariant(ts, cfg, Watch(ts, cfg, e, up, total, wall))
  {
    var lost := e.backendLost || (up == 0 && e.linksUp);
    var e1 := e.(linksUp := up > 0, backendLost := lost && !(lost && up * 10 >= total * 9));
    BeginKeeps(ts, cfg, e1, Min(Now(e.clock, wall), cfg.loopEnd - 1.0), wall);
  }

  lemma ActKeeps(ts: seq<int>, cfg: Settings, e: Engine, a: Action, wall: real)
    requires Invariant(ts, cfg, e)
    ensures Invariant(ts, cfg, Act(ts, cfg, e, a, wall))
  {
    match a
    case DoBegin(target) => BeginKeeps(ts, cfg, e, target, wall);
    case DoTick => TickKeeps(ts, cfg, e, wall);
    case DoWatch(up, total) => WatchKeeps(ts, cfg, e, up, total, wall);
    case Control(_) =>
  }

  function Play(ts: seq<int>, cfg: Settings, e: Engine, acts: seq<(Action, real)>): Engine
    requires Invariant(ts, cfg, e)
    decreases |acts|
  {
    if acts == [] then e
    else
      ActKeeps(ts, cfg, e, acts[0].0, acts[0].1);
      Play(ts, cfg, Act(ts, cfg, e, acts[0].0, acts[0].1), acts[1..])
  }

  lemma {:induction false} PlayKeeps(ts: seq<int>, cfg: Settings, e: Engine, acts: seq<(Action, real)>)
    requires Invariant(ts, cfg, e)
    ensures Invariant(ts, cfg, Play(ts, cfg, e, acts))
    decreases |acts|
  {
    if acts != [] {
      ActKeeps(ts, cfg, e, acts[0].0, acts[0].1);
      PlayKeeps(ts, cfg, Act(ts, cfg, e, acts[0].0, acts[0].1), acts[1..]);
    }
  }

  /** What a session hands out: precisely the rows from the start of its warm-up to the latest
      second its ticks reached, each once and in order, none past the end of the loop. */
  ghost predicate ExactlyOnce(ts: seq<int>, cfg: Settings, s: Session) {
    && (forall i: nat :: i in s.log <==> Due(ts, s, i))
    && (forall a, b :: 0 <= a < b < |s.log| ==> s.log[a] < s.log[b])
    && (forall a :: 0 <= a < |s.log| ==> s.log[a] < |ts| && ts[s.log[a]] as real <= cfg.loopEnd)
  }

  predicate Due(ts: seq<int>, s: Session, i: nat) {
    i < |ts| && s.from <= ts[i] as real && s.reached.Some? && ts[i] <= s.reached.value.Floor
  }

  lemma ExactIsOnce(ts: seq<int>, cfg: Settings, s: Session)
    requires InOrder(ts) && Exact(ts, cfg, s)
    ensures ExactlyOnce(ts, cfg, s)
  {
    var lo, hi := IndexAt(ts, s.from), CursorOf(ts, s);
    IndexSplits(ts, s.from);
    if s.reached.Some? {
      IndexSplits(ts, (s.reached.value.Floor + 1) as real);
    }
    forall i: nat ensures i in s.log <==> Due(ts, s, i) {
      if lo <= i < hi {
        assert s.log[i - lo] == i;
      }
    }
    forall a | 0 <= a < |s.log| ensures s.log[a] < |ts| && ts[s.log[a]] as real <= cfg.loopEnd {
      assert s.log[a] in s.log;
      assert Due(ts, s, s.log[a]);
    }
  }

  /** An engine over a track, parked at its preset start. */
  function Parked(cfg: Settings, speed: real, warmupSpeed: real): Engine {
    Engine(Park(Clock(speed, warmupSpeed, Stopped, None, 0.0, 0.0), cfg.presetStart), 0, None, [], 0, false, false)
  }

  /** Every session of every run hands out exactly the rows it should. */
  lemma PlaysExactlyOnce(ts: seq<int>, cfg: Settings, speed: real, warmupSpeed: real, acts: seq<(Action, real)>)
    requires InOrder(ts) && warmupSpeed > 0.0
    ensures var e := Play(ts, cfg, Parked(cfg, speed, warmupSpeed), acts);
      && (e.session.Some? ==> ExactlyOnce(ts, cfg, e.session.value))
      && (forall k :: 0 <= k < |e.past| ==> ExactlyOnce(ts, cfg, e.past[k]))
  {
    var e := Play(ts, cfg, Parked(cfg, speed, warmupSpeed), acts);
    PlayKeeps(ts, cfg, Parked(cfg, speed, warmupSpeed), acts);
    if e.session.Some? {
      ExactIsOnce(ts, cfg, e.session.value);
    }
    forall k | 0 <= k < |e.past| ensures ExactlyOnce(ts, cfg, e.past[k]) {
      ExactIsOnce(ts, cfg, e.past[k]);
    }
  }

  /** Whether row `i` lies between the start of a session's warm-up and the end of the loop. */
  predicate InLoop(ts: seq<int>, cfg: Settings, s: Session, i: nat) {
    i < |ts| && s.from <= ts[i] as real && ts[i] as real <= cfg.loopEnd
  }

  lemma ReachedEnd(ts: seq<int>, cfg: Settings, s: Session, i: nat)
    requires s.reached == Some(cfg.loopEnd)
    ensures Due(ts, s, i) <==> InLoop(ts, cfg, s, i)
  {
  }

  lemma EmitToEnd(ts: seq<int>, cfg: Settings, e: Engine)
    requires Invariant(ts, cfg, e) && e.session.Some?
    ensures var s := EmitUntil(ts, e, cfg.loopEnd).session.value;
      s.reached == Some(cfg.loopEnd) && s.from == e.session.value.from && e.session.value.log <= s.log
  {
  }

  /** The session a tick leaves behind at the end of the loop. */
  function Finished(cfg: Settings, e: Engine, e1: Engine): Option<Session> {
    if cfg.loop && |e.past| < |e1.past| then Some(e1.past[|e.past|]) else e1.session
  }

  lemma TickFinishes(ts: seq<int>, cfg: Settings, e: Engine, wall: real)
    requires Invariant(ts, cfg, e) && e.clock.mode == Running
    requires Now(Advance(e.clock, wall, wall), wall) >= cfg.loopEnd
    ensures var e1 := Tick(ts, cfg, e, wall);
      && Finished(cfg, e, e1) == EmitUntil(ts, e.(clock := Advance(e.clock, wall, wall)), cfg.loopEnd).session
      && (!cfg.loop ==> e1.clock.mode == Stopped)
  {
  }

  /** A tick that reaches the end of the loop leaves behind a session that has handed out every row
      from the start of its warm-up to the end of the loop; without looping the clock stops. */
  lemma LoopIsComplete(ts: seq<int>, cfg: Settings, e: Engine, wall: real)
    requires Invariant(ts, cfg, e) && e.clock.mode == Running
    requires Now(Advance(e.clock, wall, wall), wall) >= cfg.loopEnd
    ensures var (e1, was) := (Tick(ts, cfg, e, wall), e.session.value);
      var s := Finished(cfg, e, e1);
      && (!cfg.loop ==> e1.clock.mode == Stopped)
      && s.Some? && s.value.from == was.from && was.log <= s.value.log
      && (forall i: nat :: i in s.value.log <==> InLoop(ts, cfg, s.value, i))
  {
    TickFinishes(ts, cfg, e, wall);
    EmitsAll(ts, cfg, e.(clock := Advance(e.clock, wall, wall)));
  }

  lemma EmitsAll(ts: seq<int>, cfg: Settings, e: Engine)
    requires Invariant(ts, cfg, e) && e.session.Some?
    ensures var s := EmitUntil(ts, e, cfg.loopEnd).session.value;
      && s.from == e.session.value.from && e.session.value.log <= s.log
      && (forall i: nat :: i in s.log <==> InLoop(ts, cfg, s, i))
  {
    EmitToEnd(ts, cfg, e);
    EmitKeeps(ts, cfg, e, cfg.loopEnd);
    var s := EmitUntil(ts, e, cfg.loopEnd).session.value;
    ExactIsOnce(ts, cfg, s);
    forall i: nat ensures i in s.log <==> InLoop(ts, cfg, s, i) {
      ReachedEnd(ts, cfg, s, i);
    }
  }

  // ---- how sessions begin ----

  /** A session begins `warmup` seconds before its target, though not before the day, and warms up to the target. */
  lemma BeginIs(ts: seq<int>, cfg: Settings, e: Engine, target: real, wall: real)
    requires Forward(e.clock)
    ensures var e1 := Begin(ts, cfg, e, target, wall);
      var from := if cfg.dayStart < target - cfg.warmup then target - cfg.warmup else cfg.dayStart;
      && e1.session == Some(Session(from, None, [])) && e1.clock.mode == Running && Now(e1.clock, wall) == from
      && (e1.clock.warmup == Some(target) <==> target != 0.0 && from < target)
      && e1.past == e.past + (if e.session.Some? then [e.session.value] else [])
  {
    StartShows(e.clock, Max(cfg.dayStart, target - cfg.warmup), Some(target), wall);
  }

  /** A loop that starts anew begins at the preset start. */
  lemma LoopStartsAnew(ts: seq<int>, cfg: Settings, e: Engine, wall: real)
    requires Invariant(ts, cfg, e) && e.clock.mode == Running && cfg.loop
    requires Now(Advance(e.clock, wall, wall), wall) >= cfg.loopEnd
    ensures var e1 := Tick(ts, cfg, e, wall);
      && e1.loops == e.loops + 1 && e1.session.Some? && e1.session.value.log == []
      && e1.session.value.from
         == (if cfg.dayStart < cfg.presetStart - cfg.warmup then cfg.presetStart - cfg.warmup else cfg.dayStart)
  {
  }

  /** Before the end of the loop a tick reaches the moment the clock shows. */
  lemma TickReaches(ts: seq<int>, cfg: Settings, e: Engine, wall: real)
    requires Invariant(ts, cfg, e) && e.clock.mode == Running
    requires Now(Advance(e.clock, wall, wall), wall) < cfg.loopEnd
    ensures var e1 := Tick(ts, cfg, e, wall);
      && e1.clock == Advance(e.clock, wall, wall) && e1.session.Some? && e1.session.value.from == e.session.value.from
      && e1.session.value.reached.Some? && e1.session.value.reached.value >= Now(e1.clock, wall)
      && (e.session.value.reached.None? || e.session.value.reached.value <= Now(e1.clock, wall) ==>
            e1.session.value.reached == Some(Now(e1.clock, wall)))
      && e1.past == e.past && e1.loops == e.loops
  {
  }

  /** Whether all links have been lost at some time since the backend was last back. */
  predicate Lost(e: Engine, up: nat) { e.backendLost || (e.linksUp && up == 0) }

  /** A session begins anew, from the moment shown, exactly when after a loss of all links nine tenths are back in a
      running session that is not warming up. */
  lemma WatchIs(ts: seq<int>, cfg: Settings, e: Engine, up: nat, total: nat, wall: real)
    requires e.clock.warmupSpeed > 0.0
    ensures var e1 := Watch(ts, cfg, e, up, total, wall);
      var anew := Lost(e, up) && 10 * up >= 9 * total && e.session.Some? && e.clock.mode == Running
                  && e.clock.warmup.None?;
      && (e1.linksUp <==> up > 0) && (e1.backendLost <==> Lost(e, up) && 10 * up < 9 * total)
      && (!anew ==> e1 == e.(linksUp := e1.linksUp, backendLost := e1.backendLost))
      && (anew ==> e1 == Begin(ts, cfg, e.(linksUp := e1.linksUp, backendLost := e1.backendLost),
                               Min(Now(e.clock, wall), cfg.loopEnd - 1.0), wall))
  {
  }

  /** Before its first session the engine shows the preset start and stands still. */
  lemma ParkedShows(cfg: Settings, speed: real, warmupSpeed: real, wall: real)
    requires warmupSpeed > 0.0
    ensures var e := Parked(cfg, speed, warmupSpeed);
      && Now(e.clock, wall) == cfg.presetStart && e.clock.mode == Stopped && e.session.None?
      && e.clock.speed == speed && e.clock.warmupSpeed == warmupSpeed
  {
  }
}
