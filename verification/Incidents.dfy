/** The incident book: open, update, acknowledge, resolve, with deduplication by vehicle and target.

    Times are seconds; delays and probabilities are reals. Incident number `n` stands for the
    identifier the source formats from it. */
module Incidents {
  import opened Numbers
  import opened Options

  datatype Policy = Policy(delay: real, pLate: real, both: bool, minStreak: int)

  datatype Prediction = Prediction(
    visit: string, trip: int, planned: int, horizonOk: bool, delay: real, pLate: real, risk: int)

  function Matches(p: Policy, delay: real, pLate: real): bool {
    if p.both then delay > p.delay && pLate >= p.pLate else delay > p.delay || pLate >= p.pLate
  }

  function Hits(p: Policy, vp: Prediction): bool {
    Matches(p, vp.delay, vp.pLate)
  }

  datatype Status = Open | Acked | Resolved
  datatype Outcome = Pending | Hit | FalseAlarm
  datatype AckInfo = AckInfo(action: string, comment: string, at: int)

  datatype Incident = Incident(
    vehicle: string, status: Status, risk: int, delay: real, pLate: real, createdAt: int, updatedAt: int,
    outcome: Outcome, actual: Option<real>, ack: Option<AckInfo>)

  datatype Meta = Meta(vehicle: string, visit: string, trip: int, planned: int)

  datatype Kind = Opened | Updated | Closed
  datatype Event = Event(kind: Kind, id: nat, incident: Incident)

  type Streaks = map<string, map<string, nat>>

  /** The book of one session. */
  datatype Book = Book(
    streaks: Streaks, incidents: map<nat, Incident>, meta: map<nat, Meta>, active: map<string, nat>,
    targets: set<(string, string)>, trips: set<(string, int)>, n: nat)

  const EMPTY := Book(map[], map[], map[], map[], {}, {}, 0)

  const UPDATE_STEP := 30.0
  const RESOLVE_TIMEOUT := 1200.0

  // ---- operations ----

  function NewIncident(vehicle: string, vp: Prediction, t: int): Incident {
    Incident(vehicle, Open, vp.risk, vp.delay, vp.pLate, t, t, Pending, None, None)
  }

  function OpenIncident(b: Book, vehicle: string, vp: Prediction, t: int): (Book, Event) {
    var id := b.n + 1;
    var inc := NewIncident(vehicle, vp, t);
    (b.(n := id, incidents := b.incidents[id := inc],
        meta := b.meta[id := Meta(vehicle, vp.visit, vp.trip, vp.planned)],
        active := b.active[vehicle := id],
        targets := b.targets + {(vehicle, vp.visit)}, trips := b.trips + {(vehicle, vp.trip)}),
     Event(Opened, id, inc))
  }

  /** The series after a pass: one longer for every visit of the window that meets the alert
      condition, gone for every other visit. */
  function NextSeries(policy: Policy, prev: map<string, nat>, preds: seq<Prediction>): map<string, nat> {
    if preds == [] then map[]
    else
      var n := |preds| - 1;
      var series := NextSeries(policy, prev, preds[..n]);
      if preds[n].horizonOk && Hits(policy, preds[n]) then
        series[preds[n].visit := SeriesOf(prev, preds[n].visit) + 1]
      else series
  }

  function SeriesOf(series: map<string, nat>, visit: string): nat {
    if visit in series then series[visit] else 0
  }

  function VehicleSeries(streaks: Streaks, vehicle: string): map<string, nat> {
    if vehicle in streaks then streaks[vehicle] else map[]
  }

  function Observe(policy: Policy, b: Book, vehicle: string, preds: seq<Prediction>): Book {
    b.(streaks := b.streaks[vehicle := NextSeries(policy, VehicleSeries(b.streaks, vehicle), preds)])
  }

  function Streak(b: Book, vehicle: string, visit: string): nat {
    SeriesOf(VehicleSeries(b.streaks, vehicle), visit)
  }

  predicate CanOpen(policy: Policy, b: Book, vehicle: string, vp: Prediction, now: int) {
    && vp.horizonOk && Hits(policy, vp) && Streak(b, vehicle, vp.visit) >= policy.minStreak
    && vehicle !in b.active && (vehicle, vp.visit) !in b.targets && vp.planned > now
  }

  /** A noticeably different prediction for the same target. */
  function UpdateIncident(b: Book, id: nat, vp: Prediction, t: int): (Book, Option<Event>)
    requires id in b.incidents
  {
    var inc := b.incidents[id];
    if Abs(vp.delay - inc.delay) < UPDATE_STEP && vp.risk == inc.risk then (b, None)
    else
      var next := inc.(delay := vp.delay, pLate := vp.pLate, risk := vp.risk, updatedAt := t);
      (b.(incidents := b.incidents[id := next]), Some(Event(Updated, id, next)))
  }

  function ResolveIncident(red: real, b: Book, id: nat, actual: Option<real>, t: int): (Book, Event)
    requires id in b.incidents && id in b.meta
  {
    var late := actual.Some? && actual.value > red;
    var next := b.incidents[id].(
      status := Resolved, updatedAt := t, actual := actual, outcome := if late then Hit else FalseAlarm);
    (b.(active := b.active - {b.meta[id].vehicle}, incidents := b.incidents[id := next]), Event(Closed, id, next))
  }

  function AckIncident(b: Book, id: nat, action: string, comment: string, t: int): (Book, Option<Event>) {
    if id !in b.incidents then (b, None)
    else
      var inc := b.incidents[id];
      var next := inc.(
        status := if inc.status == Resolved then Resolved else Acked,
        ack := Some(AckInfo(action, comment, t)), updatedAt := t);
      (b.(incidents := b.incidents[id := next]), Some(Event(Updated, id, next)))
  }

  /** Every active incident has its card and its service record. */
  predicate Linked(b: Book) {
    forall v :: v in b.active ==> b.active[v] in b.incidents && b.active[v] in b.meta
  }

  /** Closes the vehicle's active incident on the arrival at its target, or on the timeout. */
  function Settle(red: real, b: Book, vehicle: string, arrivals: map<string, real>, curDev: Option<real>, t: int)
    : (r: (Book, Option<Event>))
    requires Linked(b)
    ensures Linked(r.0)
  {
    if vehicle !in b.active then (b, None)
    else
      var id := b.active[vehicle];
      var meta := b.meta[id];
      if meta.visit in arrivals then
        var (next, ev) := ResolveIncident(red, b, id, Some(arrivals[meta.visit]), t);
        (next, Some(ev))
      else if t as real > meta.planned as real + Max(b.incidents[id].delay, 0.0) + RESOLVE_TIMEOUT then
        var (next, ev) := ResolveIncident(red, b, id, curDev, t);
        (next, Some(ev))
      else (b, None)
  }

  // ---- what every reachable book satisfies ----

  type Cards = map<nat, Incident>
  type Records = map<nat, Meta>

  /** Every number up to `n` is an incident with its service record, and nothing else is. */
  ghost predicate Numbered(cards: Cards, records: Records, n: nat) {
    && (forall id :: id in cards <==> 1 <= id <= n)
    && (forall id :: id in records <==> 1 <= id <= n)
    && (forall id :: id in cards && id in records ==> records[id].vehicle == cards[id].vehicle)
  }

  /** `active` is exactly the set of unresolved incidents, so a vehicle has at most one. */
  predicate ActiveExact(cards: Cards, active: map<string, nat>) {
    && (forall v :: v in active ==>
          active[v] in cards && cards[active[v]].vehicle == v && cards[active[v]].status != Resolved)
    && (forall id :: id in cards && cards[id].status != Resolved ==>
          cards[id].vehicle in active && active[cards[id].vehicle] == id)
  }

  function TargetOf(m: Meta): (string, string) { (m.vehicle, m.visit) }

  /** The targets are those of the incidents ever opened, each opened once. */
  predicate TargetsExact(records: Records, targets: set<(string, string)>) {
    && (forall id :: id in records ==> TargetOf(records[id]) in targets)
    && (forall x :: x in targets ==> exists id :: id in records && TargetOf(records[id]) == x)
    && (forall i, j :: i in records && j in records && TargetOf(records[i]) == TargetOf(records[j]) ==> i == j)
  }

  /** An outcome exactly when resolved, an actual delay only then. */
  predicate OutcomeExact(inc: Incident) {
    (inc.status == Resolved <==> inc.outcome != Pending) && (inc.status != Resolved ==> inc.actual == None)
  }

  predicate OutcomesExact(cards: Cards) {
    forall id :: id in cards ==> OutcomeExact(cards[id])
  }

  ghost predicate Consistent(b: Book) {
    && Numbered(b.incidents, b.meta, b.n) && ActiveExact(b.incidents, b.active)
    && TargetsExact(b.meta, b.targets) && OutcomesExact(b.incidents)
  }

  /** A resolved incident keeps its status, outcome and actual delay, and none is reopened. */
  predicate Continues(a: Incident, b: Incident) {
    && b.vehicle == a.vehicle && b.createdAt == a.createdAt
    && (b.status == Open ==> a.status == Open)
    && (a.status == Resolved ==> b.status == Resolved && b.outcome == a.outcome && b.actual == a.actual)
  }

  predicate CardsContinue(a: Cards, b: Cards) {
    forall id :: id in a ==> id in b && Continues(a[id], b[id])
  }

  predicate RecordsKept(a: Records, b: Records) {
    forall id :: id in a ==> id in b && b[id] == a[id]
  }

  /** What may happen to a book within a session. */
  predicate Evolves(a: Book, b: Book) {
    && a.n <= b.n && a.targets <= b.targets && a.trips <= b.trips
    && RecordsKept(a.meta, b.meta) && CardsContinue(a.incidents, b.incidents)
  }

  lemma EvolvesReflexive(b: Book)
    ensures Evolves(b, b)
  {
  }

  lemma EvolvesTransitive(a: Book, b: Book, c: Book)
    requires Evolves(a, b) && Evolves(b, c)
    ensures Evolves(a, c)
  {
    forall id | id in a.incidents
      ensures id in c.incidents && Continues(a.incidents[id], c.incidents[id])
    {
      assert Continues(a.incidents[id], b.incidents[id]) && Continues(b.incidents[id], c.incidents[id]);
    }
  }

  lemma TargetAdded(records: Records, targets: set<(string, string)>, id: nat, m: Meta)
    requires TargetsExact(records, targets) && id !in records && TargetOf(m) !in targets
    ensures TargetsExact(records[id := m], targets + {TargetOf(m)})
  {
    var next := records[id := m];
    forall x | x in targets + {TargetOf(m)}
      ensures exists i :: i in next && TargetOf(next[i]) == x
    {
      if x in targets {
        var i :| i in records && TargetOf(records[i]) == x;
        assert next[i] == records[i];
      } else {
        assert TargetOf(next[id]) == x;
      }
    }
  }

  lemma NumberedNext(cards: Cards, records: Records, n: nat, inc: Incident, m: Meta)
    requires Numbered(cards, records, n) && inc.vehicle == m.vehicle
    ensures Numbered(cards[n + 1 := inc], records[n + 1 := m], n + 1)
  {
  }

  lemma NumberedReplaced(cards: Cards, records: Records, n: nat, id: nat, inc: Incident)
    requires Numbered(cards, records, n) && id in cards && inc.vehicle == cards[id].vehicle
    ensures Numbered(cards[id := inc], records, n)
  {
  }

  lemma ActiveOpened(cards: Cards, active: map<string, nat>, id: nat, inc: Incident)
    requires ActiveExact(cards, active) && id !in cards && inc.vehicle !in active && inc.status != Resolved
    ensures ActiveExact(cards[id := inc], active[inc.vehicle := id])
  {
  }

  lemma ActiveReplaced(cards: Cards, active: map<string, nat>, id: nat, inc: Incident)
    requires ActiveExact(cards, active) && id in cards && inc.vehicle == cards[id].vehicle
    requires inc.status == Resolved <==> cards[id].status == Resolved
    ensures ActiveExact(cards[id := inc], active)
  {
  }

  lemma ActiveResolved(cards: Cards, active: map<string, nat>, vehicle: string, inc: Incident)
    requires ActiveExact(cards, active) && vehicle in active && inc.vehicle == vehicle && inc.status == Resolved
    ensures ActiveExact(cards[active[vehicle] := inc], active - {vehicle})
  {
  }

  lemma CardReplaced(cards: Cards, id: nat, inc: Incident)
    requires OutcomesExact(cards) && OutcomeExact(inc) && (id in cards ==> Continues(cards[id], inc))
    ensures OutcomesExact(cards[id := inc]) && CardsContinue(cards, cards[id := inc])
  {
  }

  lemma OpenKeeps(b: Book, vehicle: string, vp: Prediction, t: int)
    requires Consistent(b) && vehicle !in b.active && (vehicle, vp.visit) !in b.targets
    ensures Consistent(OpenIncident(b, vehicle, vp, t).0) && Evolves(b, OpenIncident(b, vehicle, vp, t).0)
  {
    var id, inc := b.n + 1, NewIncident(vehicle, vp, t);
    var m := Meta(vehicle, vp.visit, vp.trip, vp.planned);
    TargetAdded(b.meta, b.targets, id, m);
    NumberedNext(b.incidents, b.meta, b.n, inc, m);
    ActiveOpened(b.incidents, b.active, id, inc);
    CardReplaced(b.incidents, id, inc);
  }

  /** Replacing a card by a continuation that is resolved or not as before. */
  lemma ReplaceKeeps(b: Book, id: nat, inc: Incident)
    requires Consistent(b) && id in b.incidents && Continues(b.incidents[id], inc) && OutcomeExact(inc)
    requires inc.status == Resolved <==> b.incidents[id].status == Resolved
    ensures var next := b.(incidents := b.incidents[id := inc]);
      Consistent(next) && Evolves(b, next)
  {
    NumberedReplaced(b.incidents, b.meta, b.n, id, inc);
    ActiveReplaced(b.incidents, b.active, id, inc);
    CardReplaced(b.incidents, id, inc);
  }

  lemma UpdateKeeps(b: Book, id: nat, vp: Prediction, t: int)
    requires Consistent(b) && id in b.incidents
    ensures Consistent(UpdateIncident(b, id, vp, t).0) && Evolves(b, UpdateIncident(b, id, vp, t).0)
  {
    assert OutcomeExact(b.incidents[id]);
    ReplaceKeeps(b, id, b.incidents[id].(delay := vp.delay, pLate := vp.pLate, risk := vp.risk, updatedAt := t));
  }

  lemma AckKeeps(b: Book, id: nat, action: string, comment: string, t: int)
    requires Consistent(b)
    ensures Consistent(AckIncident(b, id, action, comment, t).0)
    ensures Evolves(b, AckIncident(b, id, action, comment, t).0)
  {
    if id in b.incidents {
      assert OutcomeExact(b.incidents[id]);
      ReplaceKeeps(b, id, AckIncident(b, id, action, comment, t).1.value.incident);
    }
  }

  lemma ResolveKeeps(red: real, b: Book, vehicle: string, actual: Option<real>, t: int)
    requires Consistent(b) && vehicle in b.active
    ensures var next := ResolveIncident(red, b, b.active[vehicle], actual, t).0;
      Consistent(next) && Evolves(b, next) && next.active == b.active - {vehicle}
  {
    var id := b.active[vehicle];
    var inc := ResolveIncident(red, b, id, actual, t).1.incident;
    assert b.meta[id].vehicle == vehicle;
    NumberedReplaced(b.incidents, b.meta, b.n, id, inc);
    ActiveResolved(b.incidents, b.active, vehicle, inc);
    CardReplaced(b.incidents, id, inc);
  }

  lemma ObserveKeeps(policy: Policy, b: Book, vehicle: string, preds: seq<Prediction>)
    requires Consistent(b)
    ensures Consistent(Observe(policy, b, vehicle, preds)) && Evolves(b, Observe(policy, b, vehicle, preds))
  {
  }

  lemma ConsistentLinked(b: Book)
    requires Consistent(b)
    ensures Linked(b)
  {
  }

  lemma SettleKeeps(red: real, b: Book, vehicle: string, arrivals: map<string, real>, curDev: Option<real>, t: int)
    requires Consistent(b) && Linked(b)
    ensures var (next, _) := Settle(red, b, vehicle, arrivals, curDev, t);
      Consistent(next) && Evolves(b, next)
  {
    if vehicle in b.active {
      ResolveKeeps(red, b, vehicle, curDev, t);
      var visit := b.meta[b.active[vehicle]].visit;
      if visit in arrivals {
        ResolveKeeps(red, b, vehicle, Some(arrivals[visit]), t);
      }
    }
  }
}
