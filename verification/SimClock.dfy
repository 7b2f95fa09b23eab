/** The backend's clock: simulated time between the replayer's messages, or behind the packets. */
module SimClock {
  import opened Numbers
  import opened Options

  datatype Mode = Running | Paused | Stopped

  /** A session named by the replayer, or the n-th one started by packets alone. */
  datatype SessionId = Named(name: string) | Auto(n: nat)

  datatype Clock = Clock(
    session: Option<SessionId>, speed: real, mode: Mode, warmup: Option<real>, auto: bool,
    wm: real, wallAtWm: real, autoN: nat)

  /** What the replayer says of its session. */
  datatype Update = Update(session: SessionId, sim: real, speed: real, mode: Mode, warmup: Option<real>)

  const AUTO_SPEED := 1.0
  const MIN_TOLERANCE_S := 30.0
  const TOLERANCE_WALL_S := 1.0
  const REWIND_IGNORE_WALL_S := 1.0

  /** Simulated seconds since the last mark. */
  function Gone(c: Clock, wall: real): real { Max(wall - c.wallAtWm, 0.0) * c.speed }

  /** The mark moved on by `gone` seconds, but not across the end of the warm-up. */
  function MovedOn(c: Clock, gone: real): real {
    var t := c.wm + gone;
    if c.warmup.Some? && c.wm < c.warmup.value < t then c.warmup.value else t
  }

  function Now(c: Clock, wall: real): real {
    if c.mode != Running then c.wm else MovedOn(c, Gone(c, wall))
  }

  /** Whether a message only lags a little behind a running clock. */
  predicate Keeps(c: Clock, u: Update, wall: real) {
    && c.session == Some(u.session) && c.mode == Running && u.mode == Running
    && u.sim <= Now(c, wall) <= u.sim + REWIND_IGNORE_WALL_S * c.speed
  }

  function Apply(c: Clock, u: Update, wall: real): Clock {
    c.(wm := if Keeps(c, u, wall) then Now(c, wall) else u.sim, wallAtWm := wall,
       session := Some(u.session), speed := u.speed, mode := u.mode, warmup := u.warmup, auto := false)
  }

  function StartAuto(c: Clock, et: real, wall: real): Clock {
    Apply(c.(autoN := c.autoN + 1), Update(Auto(c.autoN + 1), et, AUTO_SPEED, Running, None), wall).(auto := true)
  }

  /** A packet moves the clock only in a session without a replayer, and only forward. */
  function Observe(c: Clock, et: real, wall: real): Clock {
    if c.auto && c.mode == Running && et > Now(c, wall) then c.(wm := et, wallAtWm := wall) else c
  }

  predicate Accepts(c: Clock, et: real, wall: real) {
    c.auto || et - Now(c, wall) <= Max(MIN_TOLERANCE_S, TOLERANCE_WALL_S * c.speed)
  }

  predicate HasSession(c: Clock) { c.session.Some? && c.mode != Stopped }

  /** A packet that finds no session, or a stopped one, begins a session at its own time. */
  function Started(c: Clock, et: real, wall: real): Clock { if HasSession(c) then c else StartAuto(c, et, wall) }

  /** What the worker does with a packet of a known vehicle, reading the wall clock twice: the clock after it
      and whether the packet is taken. One that is older than the history, or that a session of the replayer
      does not accept, is dropped. */
  function Receive(c: Clock, et: real, wall: real, wall1: real, history: real): (Clock, bool) {
    var c1 := Started(c, et, wall);
    if Now(c1, wall1) - et > history || !Accepts(c1, et, wall1) then (c1, false)
    else (Observe(c1, et, wall1), true)
  }

  // ---- one clock ----

  lemma Scaled(a: real, b: real, v: real)
    requires 0.0 <= a <= b && v >= 0.0
    ensures 0.0 <= a * v <= b * v
  {
    assert b * v - a * v == (b - a) * v;
  }

  lemma MovedOnMonotone(c: Clock, gone: real, gone1: real)
    requires 0.0 <= gone <= gone1
    ensures c.wm <= MovedOn(c, gone) <= MovedOn(c, gone1)
    ensures c.warmup.Some? && c.wm < c.warmup.value ==> MovedOn(c, gone1) <= c.warmup.value
  {
  }

  /** Between two readings simulated time never falls, and a warm-up that is not over holds it. */
  lemma NowMonotone(c: Clock, wall: real, wall1: real)
    requires c.speed >= 0.0 && wall <= wall1
    ensures c.wm <= Now(c, wall) <= Now(c, wall1)
    ensures c.mode == Running && c.warmup.Some? && c.wm < c.warmup.value ==> Now(c, wall1) <= c.warmup.value
  {
    Scaled(Max(wall - c.wallAtWm, 0.0), Max(wall1 - c.wallAtWm, 0.0), c.speed);
    MovedOnMonotone(c, Gone(c, wall), Gone(c, wall1));
  }

  /** A clock marked at this moment shows the mark. */
  lemma NowAtMark(c: Clock)
    ensures Now(c, c.wallAtWm) == c.wm
  {
    assert Gone(c, c.wallAtWm) == 0.0;
  }

  /** A running clock gains `speed` simulated seconds a wall second, but stops at the end of a warm-up. */
  lemma NowGains(c: Clock, wall: real, wall1: real)
    requires c.mode == Running && c.wallAtWm <= wall <= wall1
    requires c.warmup.Some? && c.wm < c.warmup.value ==>
               c.wm + (wall - c.wallAtWm) * c.speed <= c.warmup.value
               && c.wm + (wall1 - c.wallAtWm) * c.speed <= c.warmup.value
    ensures Now(c, wall1) - Now(c, wall) == (wall1 - wall) * c.speed
  {
    assert (wall1 - c.wallAtWm) * c.speed - (wall - c.wallAtWm) * c.speed == (wall1 - wall) * c.speed;
  }

  lemma NowWaits(c: Clock, wall: real)
    requires c.mode == Running && c.wallAtWm <= wall && c.warmup.Some?
    requires c.wm < c.warmup.value <= c.wm + (wall - c.wallAtWm) * c.speed
    ensures Now(c, wall) == c.warmup.value
  {
    assert Gone(c, wall) == (wall - c.wallAtWm) * c.speed;
  }

  /** Whether both the clock and the message are of one running session. */
  predicate RunsOn(c: Clock, u: Update) { c.session == Some(u.session) && c.mode == Running && u.mode == Running }

  /** A message moves the clock back if and only if it lags and its lag is not ignored: in a session that
      runs on, by more than one wall second is worth; otherwise, by anything at all. */
  lemma UpdateRewindsIff(c: Clock, u: Update, wall: real)
    ensures Now(Apply(c, u, wall), wall) < Now(c, wall) <==> u.sim < Now(c, wall) && !Keeps(c, u, wall)
    ensures RunsOn(c, u) && c.speed >= 0.0 ==>
              (Now(Apply(c, u, wall), wall) < Now(c, wall) <==>
                 u.sim + c.speed < Now(c, wall))
    ensures !RunsOn(c, u) ==> (Now(Apply(c, u, wall), wall) < Now(c, wall) <==> u.sim < Now(c, wall))
    ensures u.sim >= Now(c, wall) ==> Now(Apply(c, u, wall), wall) == u.sim
  {
    NowAtMark(Apply(c, u, wall));
  }

  /** A pause that lags by half a wall second moves the clock back from 100 to 99.5, although the same lag
      of a running message would be ignored. */
  lemma PauseRewinds()
    ensures var c := Clock(Some(Named("s")), 1.0, Running, None, false, 100.0, 0.0, 0);
      var u := Update(Named("s"), 99.5, 1.0, Paused, None);
      && Now(c, 0.0) == 100.0
      && Now(Apply(c, u, 0.0), 0.0) == 99.5
      && Now(Apply(c, u.(mode := Running), 0.0), 0.0) == 100.0
  {
    var c := Clock(Some(Named("s")), 1.0, Running, None, false, 100.0, 0.0, 0);
    var u := Update(Named("s"), 99.5, 1.0, Paused, None);
    NowAtMark(c);
    assert Keeps(c, u.(mode := Running), 0.0);
    NowAtMark(Apply(c, u, 0.0));
    NowAtMark(Apply(c, u.(mode := Running), 0.0));
  }

  /** A new session, and any message that stops or resumes the clock, is taken exactly. */
  lemma UpdateSetsExactly(c: Clock, u: Update, wall: real)
    requires !RunsOn(c, u)
    ensures Now(Apply(c, u, wall), wall) == u.sim
  {
    NowAtMark(Apply(c, u, wall));
  }

  /** After a message the clock runs on at the speed it names, or stands still. */
  lemma UpdateRunsOn(c: Clock, u: Update, wall: real, later: real)
    requires wall <= later && u.warmup.None?
    ensures var c1 := Apply(c, u, wall);
      && Now(c1, later) - Now(c1, wall) == (if u.mode == Running then (later - wall) * u.speed else 0.0)
      && c1.session == Some(u.session) && c1.mode == u.mode && !c1.auto
  {
    var c1 := Apply(c, u, wall);
    NowAtMark(c1);
    if u.mode == Running {
      NowGains(c1, wall, later);
    }
  }

  /** Observing a packet never moves the clock back; with a replayer it does not move it at all, whatever time
      the packet carries. */
  lemma PacketsOnlyPull(c: Clock, et: real, wall: real)
    ensures Now(c, wall) <= Now(Observe(c, et, wall), wall)
    ensures c.auto && c.mode == Running ==> Now(Observe(c, et, wall), wall) == Max(et, Now(c, wall))
    ensures !c.auto ==> Observe(c, et, wall) == c
  {
    NowAtMark(Observe(c, et, wall));
  }

  /** A packet is taken exactly when it is not older than the history and, in a session of the replayer, no more
      than 30 seconds or one wall second ahead of the clock. */
  lemma TakenIff(c: Clock, et: real, wall: real, wall1: real, history: real)
    requires wall <= wall1
    ensures HasSession(c) ==>
              (Receive(c, et, wall, wall1, history).1
               <==> Now(c, wall1) - history <= et
                    && (c.auto || et <= Now(c, wall1) + 30.0 || et <= Now(c, wall1) + c.speed))
    ensures !HasSession(c) ==> (Receive(c, et, wall, wall1, history).1 <==> wall1 - wall <= history)
  {
    if !HasSession(c) {
      var c1 := StartAuto(c, et, wall);
      NowAtMark(c1);
      NowGains(c1, wall, wall1);
    }
  }

  /** A packet that is taken pulls a session of packets up to its time; one that is not leaves the clock alone. */
  lemma TakenPulls(c: Clock, et: real, wall: real, wall1: real, history: real)
    requires HasSession(c)
    ensures var (c1, taken) := Receive(c, et, wall, wall1, history);
      && (!taken || !c.auto || c.mode != Running ==> c1 == c)
      && (taken && c.auto && c.mode == Running ==> Now(c1, wall1) == Max(et, Now(c, wall1)))
  {
    PacketsOnlyPull(c, et, wall1);
  }

  /** A packet the session accepts is accepted at any later reading too, and so is any earlier one:
      the tolerance only keeps out what lies in the future. */
  lemma AcceptanceLasts(c: Clock, et: real, et1: real, wall: real, wall1: real)
    requires c.speed >= 0.0 && Accepts(c, et, wall) && et1 <= et && wall <= wall1
    ensures Accepts(c, et1, wall1)
  {
    NowMonotone(c, wall, wall1);
  }

  /** A session begun by a packet shows the packet's time: the clock goes back if and only if that is
      earlier. */
  lemma StartRewindsIff(c: Clock, et: real, wall: real)
    requires !HasSession(c)
    ensures Now(StartAuto(c, et, wall), wall) == et
    ensures Now(StartAuto(c, et, wall), wall) < Now(c, wall) <==> et < Now(c, wall)
    ensures StartAuto(c, et, wall).session == Some(Auto(StartAuto(c, et, wall).autoN))
    ensures StartAuto(c, et, wall).autoN > c.autoN && StartAuto(c, et, wall).auto
  {
    NowAtMark(StartAuto(c, et, wall));
  }

  /** A packet moves the clock back if and only if it begins a session and is behind the clock. */
  lemma PacketRewindsIff(c: Clock, et: real, wall: real, wall1: real, history: real)
    requires c.speed >= 0.0 && wall <= wall1
    ensures var c1 := Receive(c, et, wall, wall1, history).0;
      Now(c1, wall) < Now(c, wall) <==> !HasSession(c) && et < Now(c, wall)
  {
    var c1 := Started(c, et, wall);
    NowMonotone(c1, wall, wall1);
    if !HasSession(c) {
      StartRewindsIff(c, et, wall);
    }
    if Observe(c1, et, wall1) != c1 {
      MarkHolds(Observe(c1, et, wall1), wall);
    }
  }

  /** Before its mark a clock shows the mark. */
  lemma MarkHolds(c: Clock, wall: real)
    requires wall <= c.wallAtWm
    ensures Now(c, wall) == c.wm
  {
    assert Gone(c, wall) == 0.0;
  }

  // ---- runs ----

  /** A message of the replayer, a packet of a known vehicle, or nothing. */
  datatype Event = Message(u: Update) | Packet(et: real) | Look

  /** An event and the first and last reading of the wall clock in it. */
  datatype Timed = Timed(event: Event, wall: real, wall1: real)

  function Next(c: Clock, e: Timed, history: real): Clock {
    match e.event
    case Message(u) => Apply(c, u, e.wall)
    case Packet(et) => Receive(c, et, e.wall, e.wall1, history).0
    case Look => c
  }

  function After(c: Clock, events: seq<Timed>, history: real): Clock
    decreases |events|
  {
    if events == [] then c else After(Next(c, events[0], history), events[1..], history)
  }

  /** Wall time does not run back and no message asks for a negative speed. */
  predicate Orderly(wall: real, events: seq<Timed>)
    decreases |events|
  {
    events != [] ==>
      && wall <= events[0].wall <= events[0].wall1
      && (events[0].event.Message? ==> events[0].event.u.speed >= 0.0)
      && Orderly(events[0].wall1, events[1..])
  }

  /** A message that does not lag, or whose lag is ignored; a packet that finds a session or is not behind the
      clock. */
  predicate Gentle(c: Clock, e: Timed) {
    match e.event
    case Message(u) => u.sim >= Now(c, e.wall) || Keeps(c, u, e.wall)
    case Packet(et) => HasSession(c) || et >= Now(c, e.wall)
    case Look => true
  }

  /** Every event is gentle when it comes, be it of a new session, a pause or a resumption. */
  predicate AllGentle(c: Clock, events: seq<Timed>, history: real)
    decreases |events|
  {
    events != [] ==> Gentle(c, events[0]) && AllGentle(Next(c, events[0], history), events[1..], history)
  }

  /** No event moves the clock back at its own moment. */
  predicate NoneRewinds(c: Clock, events: seq<Timed>, history: real)
    decreases |events|
  {
    events != [] ==>
      && Now(c, events[0].wall) <= Now(Next(c, events[0], history), events[0].wall)
      && NoneRewinds(Next(c, events[0], history), events[1..], history)
  }

  function LastWall(wall: real, events: seq<Timed>): real {
    if events == [] then wall else events[|events| - 1].wall1
  }

  lemma EventRewindsIff(c: Clock, e: Timed, history: real)
    requires c.speed >= 0.0 && e.wall <= e.wall1
    ensures Gentle(c, e) <==> Now(c, e.wall) <= Now(Next(c, e, history), e.wall)
    ensures (e.event.Message? ==> e.event.u.speed >= 0.0) ==> Next(c, e, history).speed >= 0.0
  {
    match e.event
    case Message(u) => UpdateRewindsIff(c, u, e.wall);
    case Packet(et) => PacketRewindsIff(c, et, e.wall, e.wall1, history);
    case Look =>
  }

  /** Over any messages and packets no event moves the clock back if and only if every one is gentle. */
  lemma {:induction false} RunRewindsIff(c: Clock, wall: real, events: seq<Timed>, history: real)
    requires c.speed >= 0.0 && Orderly(wall, events)
    ensures NoneRewinds(c, events, history) <==> AllGentle(c, events, history)
    decreases |events|
  {
    if events != [] {
      EventRewindsIff(c, events[0], history);
      RunRewindsIff(Next(c, events[0], history), events[0].wall1, events[1..], history);
    }
  }

  /** Then the time shown never falls, whenever it is looked at. */
  lemma {:induction false} RunNeverRewinds(
      c: Clock, wall: real, events: seq<Timed>, history: real, later: real)
    requires c.speed >= 0.0 && Orderly(wall, events) && LastWall(wall, events) <= later
    requires AllGentle(c, events, history)
    ensures Now(c, wall) <= Now(After(c, events, history), later)
    decreases |events|
  {
    if events == [] {
      NowMonotone(c, wall, later);
    } else {
      var e, next := events[0], Next(c, events[0], history);
      NowMonotone(c, wall, e.wall);
      EventRewindsIff(c, e, history);
      NowMonotone(next, e.wall, e.wall1);
      RunNeverRewinds(next, e.wall1, events[1..], history, later);
    }
  }

  /** The clock of a backend that has just started. */
  function Fresh(day: real): Clock { Clock(None, AUTO_SPEED, Stopped, None, false, day, 0.0, 0) }

  lemma AfterTwo(c: Clock, a: Timed, b: Timed, history: real)
    ensures After(c, [a, b], history) == Next(Next(c, a, history), b, history)
  {
    assert [a, b][1..] == [b] && [b][1..] == [];
    assert After(Next(c, a, history), [b], history) == After(Next(Next(c, a, history), b, history), [], history);
  }

  /** The replayer runs a session and stops it at 160; a packet of 159 that was still on its way begins a
      session of its own and moves the clock back. */
  lemma StragglerRewinds()
    ensures var running := Timed(Message(Update(Named("s"), 100.0, 60.0, Running, None)), 1.0, 1.0);
      var stopped := Timed(Message(Update(Named("s"), 160.0, 60.0, Stopped, None)), 2.0, 2.0);
      var late := Timed(Packet(159.0), 3.0, 3.0);
      var c := After(Fresh(0.0), [running, stopped], 3600.0);
      && Now(c, 3.0) == 160.0
      && Now(Next(c, late, 3600.0), 3.0) == 159.0
      && Next(c, late, 3600.0).auto
  {
    var running := Timed(Message(Update(Named("s"), 100.0, 60.0, Running, None)), 1.0, 1.0);
    var stopped := Timed(Message(Update(Named("s"), 160.0, 60.0, Stopped, None)), 2.0, 2.0);
    var c0, c1 := Fresh(0.0), Next(Fresh(0.0), running, 3600.0);
    AfterTwo(c0, running, stopped, 3600.0);
    var c := Next(c1, stopped, 3600.0);
    NowAtMark(c1);
    UpdateSetsExactly(c1, stopped.event.u, 2.0);
    StartRewindsIff(c, 159.0, 3.0);
  }

  // ---- the object ----

  class BackendClock {
    var session: Option<SessionId>
    var speed: real
    var mode: Mode
    var warmup: Option<real>
    var auto: bool
    var wm: real
    var wallAtWm: real
    var autoN: nat

    function Value(): Clock
      reads this
    {
      Clock(session, speed, mode, warmup, auto, wm, wallAtWm, autoN)
    }

    constructor (day: real)
      ensures Value() == Fresh(day)
    {
      session, speed, mode, warmup, auto, wm, wallAtWm, autoN := None, AUTO_SPEED, Stopped, None, false, day, 0.0, 0;
    }

    method SetMark(sim: real, wall: real)
      modifies `wm, `wallAtWm
      ensures wm == sim && wallAtWm == wall
    {
      wm, wallAtWm := sim, wall;
    }

    method ApplyUpdate(u: Update, wall: real) returns (isNew: bool)
      modifies this
      ensures Value() == Apply(old(Value()), u, wall)
      ensures isNew <==> old(session) != Some(u.session)
    {
      isNew := session != Some(u.session);
      var cur := Now(Value(), wall);
      var keep := !isNew && mode == Running && u.mode == Running;
      if keep && u.sim <= cur <= u.sim + REWIND_IGNORE_WALL_S * speed {
        SetMark(cur, wall);
      } else {
        SetMark(u.sim, wall);
      }
      session, speed, mode := Some(u.session), u.speed, u.mode;
      warmup := u.warmup;
      auto := false;
    }

    method StartOnPackets(et: real, wall: real) returns (id: SessionId)
      modifies this
      ensures Value() == StartAuto(old(Value()), et, wall) && session == Some(id)
    {
      autoN := autoN + 1;
      id := Auto(autoN);
      var _ := ApplyUpdate(Update(id, et, AUTO_SPEED, Running, None), wall);
      auto := true;
    }

    method ObservePacket(et: real, wall: real)
      modifies `wm, `wallAtWm
      ensures Value() == Observe(old(Value()), et, wall)
    {
      if auto && mode == Running && et > Now(Value(), wall) {
        SetMark(et, wall);
      }
    }

    /** A packet of a known vehicle, from the worker; whether it is taken. */
    method ReceivePacket(et: real, wall: real, wall1: real, history: real) returns (taken: bool)
      modifies this
      ensures (Value(), taken) == Receive(old(Value()), et, wall, wall1, history)
    {
      if session.None? || mode == Stopped {
        var _ := StartOnPackets(et, wall);
      }
      if Now(Value(), wall1) - et > history || !Accepts(Value(), et, wall1) {
        return false;
      }
      ObservePacket(et, wall1);
      return true;
    }
  }
}
