/** When a pass opens, refreshes and closes an incident, and what a closed incident says. */
module Verdicts {
  import opened AlertPass
  import opened Incidents
  import opened Numbers
  import opened Options

  // ---- outcomes ----

  /** A resolved incident was a hit exactly when its actual delay is known and exceeds `red`. */
  predicate Judged(red: real, cards: Cards) {
    forall id :: id in cards && cards[id].status == Resolved ==>
      cards[id].outcome == if cards[id].actual.Some? && cards[id].actual.value > red then Hit else FalseAlarm
  }

  lemma SettleJudged(
      red: real, b: Book, vehicle: string, arrivals: map<string, real>, curDev: Option<real>, t: int)
    requires Linked(b) && Judged(red, b.incidents)
    ensures Judged(red, Settle(red, b, vehicle, arrivals, curDev, t).0.incidents)
  {
  }

  lemma FollowUpJudged(red: real, policy: Policy, b: Book, task: Task, t: int, now: int, canAlert: bool)
    requires Linked(b) && Judged(red, b.incidents)
    ensures Judged(red, FollowUp(policy, b, task, t, now, canAlert).0.incidents)
  {
  }

  lemma ActJudged(policy: Policy, red: real, b: Book, a: Action)
    requires Consistent(b) && Judged(red, b.incidents)
    ensures Judged(red, Act(policy, red, b, a).incidents)
  {
    ConsistentLinked(b);
    match a
    case PassOver(task, t, now, canAlert) =>
      var observed := Observe(policy, b, task.vehicle, task.preds);
      SettleJudged(red, observed, task.vehicle, task.arrivals, task.curDev, t);
      FollowUpJudged(red, policy, Close(policy, red, b, task, t).0, task, t, now, canAlert);
    case React(id, action, comment, at) =>
  }

  lemma {:induction false} SessionJudged(policy: Policy, red: real, b: Book, actions: seq<Action>)
    requires Consistent(b) && Judged(red, b.incidents)
    ensures Judged(red, Session(policy, red, b, actions).incidents)
    decreases |actions|
  {
    if actions != [] {
      ActJudged(policy, red, b, actions[0]);
      SessionJudged(policy, red, Act(policy, red, b, actions[0]), actions[1..]);
    }
  }

  /** Over every session, whatever passes and reactions it interleaves. */
  lemma HitIffLate(policy: Policy, red: real, actions: seq<Action>)
    ensures Consistent(EMPTY) && Judged(red, Session(policy, red, EMPTY, actions).incidents)
  {
    EmptyConsistent();
    SessionJudged(policy, red, EMPTY, actions);
  }

  // ---- closing ----

  /** The vehicle has arrived at the target, or that is overdue by 20 minutes. */
  predicate Over(b: Book, id: nat, arrivals: map<string, real>, t: int)
    requires id in b.incidents && id in b.meta
  {
    || b.meta[id].visit in arrivals
    || t as real > b.meta[id].planned as real + Max(b.incidents[id].delay, 0.0) + 1200.0
  }

  /** The delay an incident is closed with: that of the arrival, else the current deviation. */
  function ActualDelay(m: Meta, task: Task): Option<real> {
    if m.visit in task.arrivals then Some(task.arrivals[m.visit]) else task.curDev
  }

  /** After closing, only the active incident of the vehicle and a new one change. */
  lemma FollowUpKeepsOthers(policy: Policy, b: Book, task: Task, t: int, now: int, canAlert: bool, id: nat)
    requires Consistent(b) && Linked(b) && id in b.incidents
    ensures var next := FollowUp(policy, b, task, t, now, canAlert).0;
      && id in next.incidents && next.incidents[id].status == b.incidents[id].status
      && (!(task.vehicle in b.active && b.active[task.vehicle] == id) ==> next.incidents[id] == b.incidents[id])
  {
    assert id <= b.n;
  }

  lemma CloseKeepsOthers(policy: Policy, red: real, b: Book, task: Task, t: int, id: nat)
    requires Linked(b) && id in b.incidents && (task.vehicle in b.active ==> b.active[task.vehicle] != id)
    ensures var closed := Close(policy, red, b, task, t).0;
      && id in closed.incidents && closed.incidents[id] == b.incidents[id]
      && (task.vehicle in closed.active ==> closed.active[task.vehicle] != id)
  {
  }

  lemma CloseIs(policy: Policy, red: real, b: Book, task: Task, t: int, id: nat)
    requires Consistent(b) && Linked(b) && task.vehicle in b.active && id == b.active[task.vehicle]
    ensures var closed := Close(policy, red, b, task, t).0;
      && id in closed.incidents
      && (!Over(b, id, task.arrivals, t) ==> closed == Observe(policy, b, task.vehicle, task.preds))
      && (Over(b, id, task.arrivals, t) ==>
            && task.vehicle !in closed.active
            && closed.incidents[id] == b.incidents[id].(
                 status := Resolved, updatedAt := t, actual := ActualDelay(b.meta[id], task),
                 outcome := closed.incidents[id].outcome))
  {
    assert b.meta[id].vehicle == task.vehicle;
  }

  /** Of a vehicle with an unresolved incident, a pass resolves it exactly when it is over. */
  lemma PassClosesIff(
      policy: Policy, red: real, b: Book, task: Task, t: int, now: int, canAlert: bool, id: nat)
    requires Consistent(b) && Linked(b) && task.vehicle in b.active && id == b.active[task.vehicle]
    ensures var next := Pass(policy, red, b, task, t, now, canAlert).0;
      && id in next.incidents
      && (next.incidents[id].status == Resolved <==> Over(b, id, task.arrivals, t))
      && (Over(b, id, task.arrivals, t) ==>
            next.incidents[id] == b.incidents[id].(
              status := Resolved, updatedAt := t, actual := ActualDelay(b.meta[id], task),
              outcome := next.incidents[id].outcome))
  {
    var closed := Close(policy, red, b, task, t).0;
    CloseIs(policy, red, b, task, t, id);
    CloseSafe(policy, red, b, task, t);
    FollowUpKeepsOthers(policy, closed, task, t, now, canAlert, id);
  }

  lemma NotActive(b: Book, vehicle: string, id: nat)
    requires Consistent(b) && id in b.incidents
    requires b.incidents[id].vehicle != vehicle || b.incidents[id].status == Resolved
    ensures vehicle in b.active ==> b.active[vehicle] != id
  {
  }

  /** A pass over one vehicle leaves the incidents of every other vehicle, and every resolved one, as they are. */
  lemma PassKeepsOthers(
      policy: Policy, red: real, b: Book, task: Task, t: int, now: int, canAlert: bool, id: nat)
    requires Consistent(b) && Linked(b) && id in b.incidents
    requires b.incidents[id].vehicle != task.vehicle || b.incidents[id].status == Resolved
    ensures var next := Pass(policy, red, b, task, t, now, canAlert).0;
      id in next.incidents && next.incidents[id] == b.incidents[id]
  {
    NotActive(b, task.vehicle, id);
    CloseSafe(policy, red, b, task, t);
    CloseKeepsOthers(policy, red, b, task, t, id);
    FollowUpKeepsOthers(policy, Close(policy, red, b, task, t).0, task, t, now, canAlert, id);
  }

  // ---- refreshing ----

  /** The first prediction about a visit. */
  predicate FirstAbout(preds: seq<Prediction>, visit: string, i: nat) {
    i < |preds| && preds[i].visit == visit && forall j :: 0 <= j < i ==> preds[j].visit != visit
  }

  lemma {:induction false} FirstOfIs(preds: seq<Prediction>, visit: string, i: nat)
    requires FirstAbout(preds, visit, i)
    ensures FirstOf(preds, visit) == Some(preds[i])
  {
    if i > 0 {
      assert preds[0].visit != visit;
      assert forall j :: 0 <= j < i - 1 ==> preds[1..][j] == preds[j + 1];
      FirstOfIs(preds[1..], visit, i - 1);
    }
  }

  /** The card after a prediction: the prediction itself when it differs by 30 seconds or in its risk. */
  function Refreshed(inc: Incident, p: Prediction, t: int): Incident {
    if p.delay - inc.delay >= 30.0 || inc.delay - p.delay >= 30.0 || p.risk != inc.risk then
      inc.(delay := p.delay, pLate := p.pLate, risk := p.risk, updatedAt := t)
    else inc
  }

  lemma RefreshIs(b: Book, task: Task, t: int, id: nat, i: nat)
    requires Linked(b) && task.vehicle in b.active && id == b.active[task.vehicle]
    requires FirstAbout(task.preds + AsSeq(task.follow), b.meta[id].visit, i)
    ensures var next := Refresh(b, task, t).0;
      && id in next.incidents && next.active == b.active
      && next.incidents[id] == Refreshed(b.incidents[id], (task.preds + AsSeq(task.follow))[i], t)
  {
    FirstOfIs(task.preds + AsSeq(task.follow), b.meta[id].visit, i);
  }

  /** While it is not over, the first prediction about its target refreshes it, or else the follow-up. */
  lemma PassRefreshes(
      policy: Policy, red: real, b: Book, task: Task, t: int, now: int, canAlert: bool, id: nat, i: nat)
    requires Consistent(b) && Linked(b) && task.vehicle in b.active && id == b.active[task.vehicle]
    requires !Over(b, id, task.arrivals, t)
    requires FirstAbout(task.preds + AsSeq(task.follow), b.meta[id].visit, i)
    ensures var next := Pass(policy, red, b, task, t, now, canAlert).0;
      && id in next.incidents
      && next.incidents[id] == Refreshed(b.incidents[id], (task.preds + AsSeq(task.follow))[i], t)
      && next.active == b.active
  {
    CloseIs(policy, red, b, task, t, id);
    RefreshIs(Observe(policy, b, task.vehicle, task.preds), task, t, id, i);
  }

  // ---- opening ----

  /** What an incident is opened for: a visit of the window, still ahead, never a target, whose series of alerts is
      long enough. */
  predicate Earned(policy: Policy, b: Book, vehicle: string, p: Prediction, series: nat, now: int) {
    && p.horizonOk && p.planned > now && (vehicle, p.visit) !in b.targets && policy.minStreak <= series
    && (if policy.both then p.delay > policy.delay && p.pLate >= policy.pLate
        else p.delay > policy.delay || p.pLate >= policy.pLate)
  }

  predicate FirstEarned(policy: Policy, b: Book, task: Task, series: map<string, nat>, now: int, i: nat) {
    && i < |task.preds| && Earned(policy, b, task.vehicle, task.preds[i], SeriesOf(series, task.preds[i].visit), now)
    && (forall j :: 0 <= j < i ==>
          !Earned(policy, b, task.vehicle, task.preds[j], SeriesOf(series, task.preds[j].visit), now))
  }

  lemma EarnedIs(policy: Policy, b: Book, vehicle: string, p: Prediction, now: int)
    requires vehicle !in b.active
    ensures CanOpen(policy, b, vehicle, p, now)
       <==> Earned(policy, b, vehicle, p, SeriesOf(VehicleSeries(b.streaks, vehicle), p.visit), now)
  {
  }

  lemma {:induction false} FirstOpenableAt(
      policy: Policy, b: Book, vehicle: string, preds: seq<Prediction>, now: int, i: nat)
    requires OpensAt(policy, b, vehicle, preds, now, i)
    ensures FirstOpenable(policy, b, vehicle, preds, now) == Some(preds[i])
  {
    if i > 0 {
      assert !CanOpen(policy, b, vehicle, preds[0], now);
      assert forall j :: 0 <= j < i - 1 ==> preds[1..][j] == preds[j + 1];
      FirstOpenableAt(policy, b, vehicle, preds[1..], now, i - 1);
    }
  }

  /** The series of a vehicle before a pass; none of one that has not been seen. */
  function SeriesBefore(b: Book, vehicle: string): map<string, nat> {
    if vehicle in b.streaks then b.streaks[vehicle] else map[]
  }

  /** The vehicle has no incident, or one that is over. */
  predicate Idle(b: Book, task: Task, t: int)
    requires Linked(b)
  {
    task.vehicle in b.active ==> Over(b, b.active[task.vehicle], task.arrivals, t)
  }

  lemma CloseFrees(policy: Policy, red: real, b: Book, task: Task, t: int)
    requires Consistent(b) && Linked(b)
    ensures var closed := Close(policy, red, b, task, t).0;
      && (task.vehicle !in closed.active <==> Idle(b, task, t))
      && closed.n == b.n && closed.targets == b.targets && closed.trips == b.trips
      && closed.streaks == b.streaks[task.vehicle := NextSeries(policy, SeriesBefore(b, task.vehicle), task.preds)]
  {
    CloseOpensNothing(policy, red, b, task, t);
    if task.vehicle in b.active {
      assert b.meta[b.active[task.vehicle]].vehicle == task.vehicle;
    }
  }

  /** A pass over an idle vehicle that is fresh and warmed up, with alerts on, opens an incident on the first visit
      that has earned one, counting this pass in its series. */
  lemma PassOpens(
      policy: Policy, red: real, b: Book, task: Task, t: int, now: int, series: map<string, nat>, i: nat)
    requires Consistent(b) && Linked(b) && Idle(b, task, t) && !task.stale && task.ready
    requires series == NextSeries(policy, SeriesBefore(b, task.vehicle), task.preds)
    requires FirstEarned(policy, b, task, series, now, i)
    ensures var next := Pass(policy, red, b, task, t, now, true).0;
      var p := task.preds[i];
      && next.n == b.n + 1 && task.vehicle in next.active && next.active[task.vehicle] == next.n
      && next.incidents[next.n]
         == Incident(task.vehicle, Open, p.risk, p.delay, p.pLate, t, t, Pending, None, None)
      && next.targets == b.targets + {(task.vehicle, p.visit)} && next.trips == b.trips + {(task.vehicle, p.trip)}
  {
    var closed := Close(policy, red, b, task, t).0;
    CloseFrees(policy, red, b, task, t);
    forall j | 0 <= j <= i
      ensures CanOpen(policy, closed, task.vehicle, task.preds[j], now)
         <==> Earned(policy, b, task.vehicle, task.preds[j], SeriesOf(series, task.preds[j].visit), now)
    {
      EarnedIs(policy, closed, task.vehicle, task.preds[j], now);
    }
    assert OpensAt(policy, closed, task.vehicle, task.preds, now, i);
    FirstOpenableAt(policy, closed, task.vehicle, task.preds, now, i);
  }

  /** Otherwise it opens none. */
  lemma PassOpensNone(
      policy: Policy, red: real, b: Book, task: Task, t: int, now: int, canAlert: bool, series: map<string, nat>)
    requires Consistent(b) && Linked(b)
    requires series == NextSeries(policy, SeriesBefore(b, task.vehicle), task.preds)
    requires !Idle(b, task, t) || task.stale || !task.ready || !canAlert
          || forall i: nat :: !FirstEarned(policy, b, task, series, now, i)
    ensures Pass(policy, red, b, task, t, now, canAlert).0.n == b.n
  {
    var closed := Close(policy, red, b, task, t).0;
    CloseFrees(policy, red, b, task, t);
    if Idle(b, task, t) && FirstOpenable(policy, closed, task.vehicle, task.preds, now).Some? {
      var i := FirstOpenableIsFirst(policy, closed, task.vehicle, task.preds, now);
      forall j | 0 <= j <= i
        ensures CanOpen(policy, closed, task.vehicle, task.preds[j], now)
           <==> Earned(policy, b, task.vehicle, task.preds[j], SeriesOf(series, task.preds[j].visit), now)
      {
        EarnedIs(policy, closed, task.vehicle, task.preds[j], now);
      }
      assert FirstEarned(policy, b, task, series, now, i);
    }
  }

  /** A pass counts in the series of its vehicle and of no other. */
  lemma PassCounts(policy: Policy, red: real, b: Book, task: Task, t: int, now: int, canAlert: bool)
    requires Consistent(b) && Linked(b)
    ensures Pass(policy, red, b, task, t, now, canAlert).0.streaks
         == b.streaks[task.vehicle := NextSeries(policy, SeriesBefore(b, task.vehicle), task.preds)]
  {
    CloseFrees(policy, red, b, task, t);
  }

  // ---- what the events say ----

  /** An event tells that an incident was closed, opened or changed by what its card says. */
  predicate Tells(b: Book, ev: Event) {
    match ev.kind
    case Closed => ev.id in b.incidents && ev.incident.status == Resolved
    case Opened => ev.id == b.n + 1 && ev.incident.status == Open
    case Updated => ev.id in b.incidents && ev.incident.status == b.incidents[ev.id].status
  }

  lemma CloseTells(policy: Policy, red: real, b: Book, task: Task, t: int)
    requires Consistent(b) && Linked(b)
    ensures var (next, ev) := Close(policy, red, b, task, t);
      && (ev.Some? ==> Tells(b, ev.value) && ev.value.kind == Closed && task.vehicle !in next.active)
      && (ev.None? ==> next.incidents == b.incidents) && next.n == b.n
  {
  }

  lemma FollowUpTells(policy: Policy, b: Book, task: Task, t: int, now: int, canAlert: bool)
    requires Linked(b)
    ensures var ev := FollowUp(policy, b, task, t, now, canAlert).1;
      ev.Some? ==> Tells(b, ev.value) && !ev.value.kind.Closed? && (ev.value.kind.Opened? || task.vehicle in b.active)
  {
  }

  lemma TwoEvents(b: Book, first: Option<Event>, second: Option<Event>)
    requires first.Some? ==> Tells(b, first.value) && first.value.kind == Closed
    requires second.Some? ==> Tells(b, second.value) && (first.Some? ==> second.value.kind == Opened)
    ensures var evs := AsSeq(first) + AsSeq(second);
      && |evs| <= 2 && (forall k :: 0 <= k < |evs| ==> Tells(b, evs[k]))
      && (|evs| == 2 ==> evs[0].kind == Closed && evs[1].kind == Opened)
  {
  }

  /** A pass tells of at most two incidents, first the one it has closed. */
  lemma PassTells(policy: Policy, red: real, b: Book, task: Task, t: int, now: int, canAlert: bool)
    requires Consistent(b) && Linked(b)
    ensures var evs := Pass(policy, red, b, task, t, now, canAlert).1;
      && |evs| <= 2 && (forall k :: 0 <= k < |evs| ==> Tells(b, evs[k]))
      && (|evs| == 2 ==> evs[0].kind == Closed && evs[1].kind == Opened)
  {
    var closed := Close(policy, red, b, task, t);
    CloseTells(policy, red, b, task, t);
    FollowUpTells(policy, closed.0, task, t, now, canAlert);
    TwoEvents(b, closed.1, FollowUp(policy, closed.0, task, t, now, canAlert).1);
  }

  // ---- reactions ----

  /** A reaction is written on its card, which counts as acknowledged unless resolved; nothing else changes. */
  lemma ReactionIs(b: Book, id: nat, action: string, comment: string, t: int)
    requires id in b.incidents
    ensures var card, next := b.incidents[id], AckIncident(b, id, action, comment, t).0;
      next == b.(incidents := b.incidents[id :=
        card.(status := if card.status == Resolved then Resolved else Acked,
              ack := Some(AckInfo(action, comment, t)), updatedAt := t)])
  {
  }
}
