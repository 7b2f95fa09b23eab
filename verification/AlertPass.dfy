/** One prediction pass over a vehicle, and whole sessions of passes and dispatcher reactions. */
module AlertPass {
  import opened Options
  import opened Incidents

  // ---- which visits a pass predicts ----

  datatype Visit = Visit(visit: string, trip: int, planned: int)

  const HORIZON_FROM := 600
  const HORIZON_TO := 900
  const LOOKAHEAD := 3600

  /** The visits planned in `(from, to]`, in plan order. */
  function Between(plan: seq<Visit>, from: int, to: int): (vs: seq<Visit>)
    ensures forall v :: v in vs <==> v in plan && from < v.planned <= to
  {
    if plan == [] then []
    else (if from < plan[0].planned <= to then [plan[0]] else []) + Between(plan[1..], from, to)
  }

  /** The window `(t+10, t+15]` minutes; if it is empty, the first later visit of the hour, out of
      the window. */
  function HorizonVisits(plan: seq<Visit>, t: int): (seq<Visit>, bool) {
    var window := Between(plan, t + HORIZON_FROM, t + HORIZON_TO);
    if window != [] then (window, true)
    else
      var later := Between(plan, t + HORIZON_TO, t + LOOKAHEAD);
      (if later == [] then [] else [later[0]], false)
  }

  /** What the model answered for a visit; any answer is possible. */
  datatype Answer = Answer(delay: real, pLate: real, risk: int)

  function Predict(v: Visit, a: Answer, horizonOk: bool): Prediction {
    Prediction(v.visit, v.trip, v.planned, horizonOk, a.delay, a.pLate, a.risk)
  }

  function WindowPredictions(plan: seq<Visit>, t: int, answer: Visit -> Answer): seq<Prediction> {
    var (visits, ok) := HorizonVisits(plan, t);
    seq(|visits|, i requires 0 <= i < |visits| => Predict(visits[i], answer(visits[i]), ok))
  }

  function FirstNamed(plan: seq<Visit>, visit: string, after: int): Option<Visit> {
    if plan == [] then None
    else if plan[0].visit == visit && plan[0].planned > after then Some(plan[0])
    else FirstNamed(plan[1..], visit, after)
  }

  /** The target of the active incident when it is still ahead, not reached and not predicted. */
  function FollowPrediction(
      plan: seq<Visit>, t: int, answer: Visit -> Answer, target: Option<string>, arrived: set<string>)
    : Option<Prediction>
  {
    if target == None || target.value in arrived
       || exists p :: p in WindowPredictions(plan, t, answer) && p.visit == target.value then None
    else
      match FirstNamed(plan, target.value, t)
      case None => None
      case Some(v) => Some(Predict(v, answer(v), false))
  }

  // ---- the pass ----

  /** What a pass knows about a vehicle; `arrivals` are all arrivals recorded so far. */
  datatype Task = Task(
    vehicle: string, stale: bool, ready: bool, curDev: Option<real>, preds: seq<Prediction>,
    follow: Option<Prediction>, arrivals: map<string, real>)

  function FirstOf(preds: seq<Prediction>, visit: string): Option<Prediction> {
    if preds == [] then None
    else if preds[0].visit == visit then Some(preds[0])
    else FirstOf(preds[1..], visit)
  }

  function FirstOpenable(policy: Policy, b: Book, vehicle: string, preds: seq<Prediction>, now: int)
    : (hit: Option<Prediction>)
    ensures hit.Some? ==> hit.value in preds && CanOpen(policy, b, vehicle, hit.value, now)
    ensures hit.None? ==> forall p :: p in preds ==> !CanOpen(policy, b, vehicle, p, now)
  {
    if preds == [] then None
    else if CanOpen(policy, b, vehicle, preds[0], now) then Some(preds[0])
    else FirstOpenable(policy, b, vehicle, preds[1..], now)
  }

  function AsSeq<T>(x: Option<T>): seq<T> {
    match x case None => [] case Some(v) => [v]
  }

  /** Within a session: a consistent book becomes another one it may evolve into. */
  ghost predicate Safe(a: Book, b: Book) {
    Consistent(b) && Evolves(a, b)
  }

  lemma SafeTransitive(a: Book, b: Book, c: Book)
    requires Safe(a, b) && Safe(b, c)
    ensures Safe(a, c)
  {
    EvolvesTransitive(a, b, c);
  }

  /** Counts the series, then resolves the active incident if its target was reached or timed out. */
  function Close(policy: Policy, red: real, b: Book, task: Task, t: int): (r: (Book, Option<Event>))
    requires Linked(b)
    ensures Linked(r.0)
  {
    Settle(red, Observe(policy, b, task.vehicle, task.preds), task.vehicle, task.arrivals, task.curDev, t)
  }

  /** A new prediction for the target of the active incident, from the window or the follow-up. */
  function Refresh(b: Book, task: Task, t: int): (Book, Option<Event>)
    requires Linked(b) && task.vehicle in b.active
  {
    var id := b.active[task.vehicle];
    match FirstOf(task.preds + AsSeq(task.follow), b.meta[id].visit)
    case None => (b, None)
    case Some(same) => UpdateIncident(b, id, same, t)
  }

  /** Opens an incident on the first visit of the window that may open one. */
  function Raise(policy: Policy, b: Book, task: Task, t: int, now: int): (Book, Option<Event>) {
    match FirstOpenable(policy, b, task.vehicle, task.preds, now)
    case None => (b, None)
    case Some(hit) =>
      var (created, ev) := OpenIncident(b, task.vehicle, hit, t);
      (created, Some(ev))
  }

  /** After closing: refresh what is still active, else open if alerts are on for this vehicle. */
  function FollowUp(policy: Policy, b: Book, task: Task, t: int, now: int, canAlert: bool): (Book, Option<Event>)
    requires Linked(b)
  {
    if task.vehicle in b.active then Refresh(b, task, t)
    else if !canAlert || task.stale || !task.ready then (b, None)
    else Raise(policy, b, task, t, now)
  }

  function Pass(policy: Policy, red: real, b: Book, task: Task, t: int, now: int, canAlert: bool): (Book, seq<Event>)
    requires Linked(b)
  {
    var closed := Close(policy, red, b, task, t);
    var next := FollowUp(policy, closed.0, task, t, now, canAlert);
    (next.0, AsSeq(closed.1) + AsSeq(next.1))
  }

  lemma CloseSafe(policy: Policy, red: real, b: Book, task: Task, t: int)
    requires Consistent(b) && Linked(b)
    ensures Safe(b, Close(policy, red, b, task, t).0)
  {
    var observed := Observe(policy, b, task.vehicle, task.preds);
    ObserveKeeps(policy, b, task.vehicle, task.preds);
    SettleKeeps(red, observed, task.vehicle, task.arrivals, task.curDev, t);
    SafeTransitive(b, observed, Close(policy, red, b, task, t).0);
  }

  lemma RefreshSafe(b: Book, task: Task, t: int)
    requires Consistent(b) && Linked(b) && task.vehicle in b.active
    ensures Safe(b, Refresh(b, task, t).0)
  {
    EvolvesReflexive(b);
    var id := b.active[task.vehicle];
    var same := FirstOf(task.preds + AsSeq(task.follow), b.meta[id].visit);
    if same.Some? {
      UpdateKeeps(b, id, same.value, t);
    }
  }

  lemma RaiseSafe(policy: Policy, b: Book, task: Task, t: int, now: int)
    requires Consistent(b) && task.vehicle !in b.active
    ensures Safe(b, Raise(policy, b, task, t, now).0)
  {
    EvolvesReflexive(b);
    var hit := FirstOpenable(policy, b, task.vehicle, task.preds, now);
    if hit.Some? {
      OpenKeeps(b, task.vehicle, hit.value, t);
    }
  }

  lemma FollowUpSafe(policy: Policy, b: Book, task: Task, t: int, now: int, canAlert: bool)
    requires Consistent(b) && Linked(b)
    ensures Safe(b, FollowUp(policy, b, task, t, now, canAlert).0)
  {
    EvolvesReflexive(b);
    if task.vehicle in b.active {
      RefreshSafe(b, task, t);
    } else {
      RaiseSafe(policy, b, task, t, now);
    }
  }

  lemma PassSafe(policy: Policy, red: real, b: Book, task: Task, t: int, now: int, canAlert: bool)
    requires Consistent(b) && Linked(b)
    ensures Safe(b, Pass(policy, red, b, task, t, now, canAlert).0)
  {
    var closed := Close(policy, red, b, task, t).0;
    CloseSafe(policy, red, b, task, t);
    FollowUpSafe(policy, closed, task, t, now, canAlert);
    SafeTransitive(b, closed, FollowUp(policy, closed, task, t, now, canAlert).0);
  }

  /** A follower of the events: every event stores the incident it carries. */
  function Replay(cards: Cards, events: seq<Event>): Cards
    decreases |events|
  {
    if events == [] then cards else Replay(cards[events[0].id := events[0].incident], events[1..])
  }

  lemma ReplayTwo(cards: Cards, a: Option<Event>, b: Option<Event>)
    ensures Replay(cards, AsSeq(a) + AsSeq(b)) == Replay(Replay(cards, AsSeq(a)), AsSeq(b))
  {
    if a.Some? {
      assert (AsSeq(a) + AsSeq(b))[1..] == AsSeq(b) && AsSeq(a)[1..] == [];
    } else {
      assert AsSeq(a) + AsSeq(b) == AsSeq(b);
    }
  }

  lemma ReplayOne(cards: Cards, ev: Event)
    ensures Replay(cards, AsSeq(Some(ev))) == cards[ev.id := ev.incident]
  {
    assert AsSeq(Some(ev))[1..] == [];
  }

  lemma CloseTold(policy: Policy, red: real, b: Book, task: Task, t: int)
    requires Linked(b)
    ensures var closed := Close(policy, red, b, task, t);
      closed.0.incidents == Replay(b.incidents, AsSeq(closed.1))
  {
    var closed := Close(policy, red, b, task, t);
    if closed.1.Some? {
      ReplayOne(b.incidents, closed.1.value);
    }
  }

  lemma FollowUpTold(policy: Policy, b: Book, task: Task, t: int, now: int, canAlert: bool)
    requires Linked(b)
    ensures var next := FollowUp(policy, b, task, t, now, canAlert);
      next.0.incidents == Replay(b.incidents, AsSeq(next.1))
  {
    var next := FollowUp(policy, b, task, t, now, canAlert);
    if next.1.Some? {
      ReplayOne(b.incidents, next.1.value);
    }
  }

  /** The events of a pass tell its whole effect on the incidents: whoever stores them in order
      holds the book's incidents again. */
  lemma PassTold(policy: Policy, red: real, b: Book, task: Task, t: int, now: int, canAlert: bool)
    requires Linked(b)
    ensures var next := Pass(policy, red, b, task, t, now, canAlert);
      next.0.incidents == Replay(b.incidents, next.1)
  {
    var closed := Close(policy, red, b, task, t);
    var next := FollowUp(policy, closed.0, task, t, now, canAlert);
    CloseTold(policy, red, b, task, t);
    FollowUpTold(policy, closed.0, task, t, now, canAlert);
    ReplayTwo(b.incidents, closed.1, next.1);
  }

  // ---- what a pass may open ----

  /** `preds[i]` is the first prediction that may open an incident. */
  predicate OpensAt(policy: Policy, b: Book, vehicle: string, preds: seq<Prediction>, now: int, i: nat) {
    && i < |preds| && CanOpen(policy, b, vehicle, preds[i], now)
    && forall j :: 0 <= j < i ==> !CanOpen(policy, b, vehicle, preds[j], now)
  }

  lemma {:induction false} FirstOpenableIsFirst(
      policy: Policy, b: Book, vehicle: string, preds: seq<Prediction>, now: int)
      returns (i: nat)
    requires FirstOpenable(policy, b, vehicle, preds, now).Some?
    ensures OpensAt(policy, b, vehicle, preds, now, i)
    ensures preds[i] == FirstOpenable(policy, b, vehicle, preds, now).value
  {
    if CanOpen(policy, b, vehicle, preds[0], now) {
      i := 0;
    } else {
      var k := FirstOpenableIsFirst(policy, b, vehicle, preds[1..], now);
      i := k + 1;
      assert forall j :: 1 <= j < i ==> preds[j] == preds[1..][j - 1];
    }
  }

  lemma SettleOpensNothing(
      red: real, b: Book, vehicle: string, arrivals: map<string, real>, curDev: Option<real>, t: int)
    requires Linked(b)
    ensures var next := Settle(red, b, vehicle, arrivals, curDev, t).0;
      next.n == b.n && next.targets == b.targets && next.streaks == b.streaks
  {
  }

  /** Closing opens nothing and counts the pass in the series. */
  lemma CloseOpensNothing(policy: Policy, red: real, b: Book, task: Task, t: int)
    requires Linked(b)
    ensures var closed := Close(policy, red, b, task, t).0;
      && closed.n == b.n && closed.targets == b.targets
      && closed.streaks == Observe(policy, b, task.vehicle, task.preds).streaks
  {
    SettleOpensNothing(red, Observe(policy, b, task.vehicle, task.preds), task.vehicle, task.arrivals, task.curDev, t);
  }

  lemma FollowUpOpens(policy: Policy, b: Book, task: Task, t: int, now: int, canAlert: bool) returns (i: nat)
    requires Linked(b)
    ensures var next := FollowUp(policy, b, task, t, now, canAlert).0;
      && (next.n == b.n || next.n == b.n + 1)
      && (next.n == b.n + 1 ==>
            && canAlert && !task.stale && task.ready
            && OpensAt(policy, b, task.vehicle, task.preds, now, i)
            && next.meta[next.n]
               == Meta(task.vehicle, task.preds[i].visit, task.preds[i].trip, task.preds[i].planned))
  {
    i := 0;
    if task.vehicle !in b.active && FirstOpenable(policy, b, task.vehicle, task.preds, now).Some? {
      i := FirstOpenableIsFirst(policy, b, task.vehicle, task.preds, now);
    }
  }

  /** A pass opens at most one incident, only while alerts are on and the vehicle is fresh and
      warmed up, and only on the first visit predicted in the window (never on the follow-up) that
      is still ahead in sim time, was never a target and has a series of the required length. */
  lemma PassOpensOnlyWindowVisits(
      policy: Policy, red: real, b: Book, task: Task, t: int, now: int, canAlert: bool) returns (i: nat)
    requires Linked(b)
    ensures var next := Pass(policy, red, b, task, t, now, canAlert).0;
      var closed := Close(policy, red, b, task, t).0;
      && (next.n == b.n || next.n == b.n + 1)
      && (next.n == b.n + 1 ==>
            && canAlert && !task.stale && task.ready
            && OpensAt(policy, closed, task.vehicle, task.preds, now, i)
            && next.meta[next.n]
               == Meta(task.vehicle, task.preds[i].visit, task.preds[i].trip, task.preds[i].planned))
  {
    CloseOpensNothing(policy, red, b, task, t);
    i := FollowUpOpens(policy, Close(policy, red, b, task, t).0, task, t, now, canAlert);
  }

  /** With the predictions `prepare` makes, whatever the model answers, an incident is opened only
      on a visit planned more than ten and at most fifteen minutes after the pass. */
  lemma OpenedInWindow(
      policy: Policy, red: real, b: Book, task: Task, t: int, now: int, canAlert: bool,
      plan: seq<Visit>, answer: Visit -> Answer)
    requires Linked(b) && task.preds == WindowPredictions(plan, t, answer)
    ensures var next := Pass(policy, red, b, task, t, now, canAlert).0;
      next.n == b.n + 1 ==>
        && t + HORIZON_FROM < next.meta[next.n].planned <= t + HORIZON_TO
        && next.meta[next.n].planned > now
        && (task.vehicle, next.meta[next.n].visit) !in b.targets
  {
    var i := PassOpensOnlyWindowVisits(policy, red, b, task, t, now, canAlert);
    CloseOpensNothing(policy, red, b, task, t);
    if Pass(policy, red, b, task, t, now, canAlert).0.n == b.n + 1 {
      var (visits, ok) := HorizonVisits(plan, t);
      assert task.preds[i] == Predict(visits[i], answer(visits[i]), ok);
      assert visits[i] in Between(plan, t + HORIZON_FROM, t + HORIZON_TO);
    }
  }

  lemma {:induction false} FirstNamedIs(plan: seq<Visit>, visit: string, after: int)
    ensures var v := FirstNamed(plan, visit, after);
      && (v.Some? ==> v.value in plan && v.value.visit == visit && v.value.planned > after)
      && (v.None? ==> forall u :: u in plan && u.visit == visit ==> u.planned <= after)
  {
    if plan != [] && !(plan[0].visit == visit && plan[0].planned > after) {
      FirstNamedIs(plan[1..], visit, after);
    }
  }

  /** The follow-up is about the target itself, still ahead, not reached and not predicted in the
      window; whatever the model answers for it, it may not open an incident. */
  lemma FollowOpensNothing(
      policy: Policy, b: Book, vehicle: string, now: int,
      plan: seq<Visit>, t: int, answer: Visit -> Answer, target: Option<string>, arrived: set<string>)
    ensures var p := FollowPrediction(plan, t, answer, target, arrived);
      p.Some? ==>
        && target == Some(p.value.visit) && p.value.planned > t && p.value.visit !in arrived
        && (forall w :: w in WindowPredictions(plan, t, answer) ==> w.visit != p.value.visit)
        && !CanOpen(policy, b, vehicle, p.value, now)
  {
    if target.Some? {
      FirstNamedIs(plan, target.value, t);
    }
  }

  lemma {:induction false} FirstNamedAt(plan: seq<Visit>, visit: string, after: int, i: nat)
    requires i < |plan| && plan[i].visit == visit && plan[i].planned > after
    requires forall j :: 0 <= j < i ==> plan[j].visit != visit || plan[j].planned <= after
    ensures FirstNamed(plan, visit, after) == Some(plan[i])
  {
    if i > 0 {
      assert plan[0].visit != visit || plan[0].planned <= after;
      assert forall j :: 0 <= j < i - 1 ==> plan[1..][j] == plan[j + 1];
      FirstNamedAt(plan[1..], visit, after, i - 1);
    }
  }

  /** A prediction names the visit, its trip and plan, and says what the model answered. */
  function Said(v: Visit, a: Answer, ok: bool): Prediction {
    Prediction(v.visit, v.trip, v.planned, ok, a.delay, a.pLate, a.risk)
  }

  /** Every visit of the horizon is predicted, in plan order. */
  lemma PredictsHorizon(plan: seq<Visit>, t: int, answer: Visit -> Answer, i: nat)
    requires i < |HorizonVisits(plan, t).0|
    ensures var (visits, ok) := HorizonVisits(plan, t);
      && |WindowPredictions(plan, t, answer)| == |visits|
      && WindowPredictions(plan, t, answer)[i] == Said(visits[i], answer(visits[i]), ok)
  {
  }

  /** When the target is still ahead, not reached and not predicted in the window, the first such visit is
      predicted. */
  lemma FollowIs(plan: seq<Visit>, t: int, answer: Visit -> Answer, target: string, arrived: set<string>, i: nat)
    requires target !in arrived && forall w :: w in WindowPredictions(plan, t, answer) ==> w.visit != target
    requires i < |plan| && plan[i].visit == target && plan[i].planned > t
    requires forall j :: 0 <= j < i ==> plan[j].visit != target || plan[j].planned <= t
    ensures FollowPrediction(plan, t, answer, Some(target), arrived)
         == Some(Said(plan[i], answer(plan[i]), false))
  {
    FirstNamedAt(plan, target, t, i);
  }

  lemma {:induction false} BetweenConcat(a: seq<Visit>, b: seq<Visit>, from: int, to: int)
    ensures Between(a + b, from, to) == Between(a, from, to) + Between(b, from, to)
  {
    if a == [] {
      assert a + b == b;
    } else {
      assert (a + b)[1..] == a[1..] + b && (a + b)[0] == a[0];
      BetweenConcat(a[1..], b, from, to);
    }
  }

  /** The first visit of a plan between two moments is the first of those between them. */
  lemma {:induction false} BetweenFirst(plan: seq<Visit>, from: int, to: int, i: nat)
    requires i < |plan| && from < plan[i].planned <= to
    requires forall j :: 0 <= j < i ==> !(from < plan[j].planned <= to)
    ensures Between(plan, from, to) != [] && Between(plan, from, to)[0] == plan[i]
  {
    if i > 0 {
      assert !(from < plan[0].planned <= to);
      assert forall j :: 0 <= j < i - 1 ==> plan[1..][j] == plan[j + 1];
      BetweenFirst(plan[1..], from, to, i - 1);
    }
  }

  /** A pass predicts every visit 10 to 15 minutes ahead, or else, not for alerts, the first of the next 45. */
  lemma HorizonIs(plan: seq<Visit>, t: int, i: nat)
    requires i < |plan|
    ensures var (visits, ok) := HorizonVisits(plan, t);
      && (t + 600 < plan[i].planned <= t + 900 ==> ok && plan[i] in visits)
      && ((forall j :: 0 <= j < |plan| ==> !(t + 600 < plan[j].planned <= t + 900))
          && t + 900 < plan[i].planned <= t + 3600
          && (forall j :: 0 <= j < i ==> !(t + 900 < plan[j].planned <= t + 3600))
          ==> !ok && visits == [plan[i]])
  {
    if t + 900 < plan[i].planned <= t + 3600
       && forall j :: 0 <= j < i ==> !(t + 900 < plan[j].planned <= t + 3600) {
      BetweenFirst(plan, t + 900, t + 3600, i);
    }
    var window := Between(plan, t + HORIZON_FROM, t + HORIZON_TO);
    if window != [] {
      assert window[0] in plan;
    }
  }

  // ---- whole sessions ----

  datatype Action =
    | PassOver(task: Task, t: int, now: int, canAlert: bool)
    | React(id: nat, action: string, comment: string, at: int)

  function Act(policy: Policy, red: real, b: Book, a: Action): (next: Book)
    requires Consistent(b)
    ensures Safe(b, next)
  {
    ConsistentLinked(b);
    match a
    case PassOver(task, t, now, canAlert) =>
      PassSafe(policy, red, b, task, t, now, canAlert);
      Pass(policy, red, b, task, t, now, canAlert).0
    case React(id, action, comment, at) =>
      AckKeeps(b, id, action, comment, at);
      AckIncident(b, id, action, comment, at).0
  }

  /** The book after any interleaving of passes and reactions, from a given book. */
  function Session(policy: Policy, red: real, b: Book, actions: seq<Action>): (after: Book)
    requires Consistent(b)
    ensures Consistent(after)
    decreases |actions|
  {
    if actions == [] then b else Session(policy, red, Act(policy, red, b, actions[0]), actions[1..])
  }

  lemma {:induction false} SessionEvolves(policy: Policy, red: real, b: Book, actions: seq<Action>)
    requires Consistent(b)
    ensures Evolves(b, Session(policy, red, b, actions))
    decreases |actions|
  {
    if actions == [] {
      EvolvesReflexive(b);
    } else {
      var next := Act(policy, red, b, actions[0]);
      SessionEvolves(policy, red, next, actions[1..]);
      EvolvesTransitive(b, next, Session(policy, red, next, actions[1..]));
    }
  }

  lemma EmptyConsistent()
    ensures Consistent(EMPTY)
  {
  }

  predicate Unresolved(b: Book, i: nat) {
    i in b.incidents && b.incidents[i].status != Resolved
  }

  /** In every reachable state of a session: a vehicle has at most one unresolved incident, and it
      is the active one; every target was opened once; and whatever happens later keeps every
      resolved incident's status, outcome and actual delay. */
  lemma SessionSafe(policy: Policy, red: real, before: seq<Action>, later: seq<Action>)
    ensures Consistent(EMPTY)
    ensures var b := Session(policy, red, EMPTY, before);
      var after := Session(policy, red, b, later);
      && (forall i, j | i in b.incidents && j in b.incidents ::
            Unresolved(b, i) && Unresolved(b, j) && b.incidents[i].vehicle == b.incidents[j].vehicle ==> i == j)
      && (forall i :: Unresolved(b, i) <==> i in b.active.Values)
      && (forall i, j | i in b.incidents && j in b.incidents ::
            b.meta[i].vehicle == b.meta[j].vehicle && b.meta[i].visit == b.meta[j].visit ==> i == j)
      && (forall i :: i in b.incidents && b.incidents[i].status == Resolved ==>
            && i in after.incidents && after.incidents[i].status == Resolved
            && after.incidents[i].outcome == b.incidents[i].outcome != Pending
            && after.incidents[i].actual == b.incidents[i].actual)
  {
    EmptyConsistent();
    var b := Session(policy, red, EMPTY, before);
    SessionEvolves(policy, red, b, later);
    forall i, j | i in b.incidents && j in b.incidents
        && b.meta[i].vehicle == b.meta[j].vehicle && b.meta[i].visit == b.meta[j].visit
      ensures i == j
    {
      assert TargetOf(b.meta[i]) == TargetOf(b.meta[j]);
    }
    forall i | i in b.incidents && b.incidents[i].status == Resolved
      ensures b.incidents[i].outcome != Pending
    {
      assert OutcomeExact(b.incidents[i]);
    }
  }
}
