/** The incident book as an object: its fields are changed in place, pass by pass. */
module IncidentBook {
  import opened Numbers
  import opened Options
  import opened Incidents
  import opened AlertPass

  lemma OpenIsSafe(b: Book, vehicle: string, vp: Prediction, t: int)
    ensures Consistent(b) && vehicle !in b.active && (vehicle, vp.visit) !in b.targets ==>
              Safe(b, OpenIncident(b, vehicle, vp, t).0)
  {
    if Consistent(b) && vehicle !in b.active && (vehicle, vp.visit) !in b.targets {
      OpenKeeps(b, vehicle, vp, t);
    }
  }

  lemma ActiveResolveKeeps(red: real, b: Book, id: nat, actual: Option<real>, t: int)
    requires Consistent(b) && id in b.active.Values
    ensures id in b.incidents && id in b.meta
    ensures Consistent(ResolveIncident(red, b, id, actual, t).0) && Evolves(b, ResolveIncident(red, b, id, actual, t).0)
  {
    var vehicle :| vehicle in b.active && b.active[vehicle] == id;
    ResolveKeeps(red, b, vehicle, actual, t);
  }

  class Ledger {
    const policy: Policy
    const red: real
    var streaks: Streaks
    var incidents: map<nat, Incident>
    var meta: map<nat, Meta>
    var active: map<string, nat>
    var targets: set<(string, string)>
    var trips: set<(string, int)>
    var n: nat

    function Value(): Book
      reads this
    {
      Book(streaks, incidents, meta, active, targets, trips, n)
    }

    /** What every reachable book satisfies: numbered cards, one active incident a vehicle, every target
        opened once, an outcome exactly when resolved. */
    ghost predicate Valid()
      reads this
      ensures Valid() ==> Linked(Value())
    {
      Consistent(Value())
    }

    constructor (policy: Policy, red: real)
      ensures Valid() && Value() == EMPTY && this.policy == policy && this.red == red
    {
      this.policy, this.red := policy, red;
      streaks, incidents, meta, active, targets, trips, n := map[], map[], map[], map[], {}, {}, 0;
    }

    /** A new session takes over nothing. */
    method Clear()
      modifies this
      ensures Valid() && Value() == EMPTY
    {
      streaks, incidents, meta, active, targets, trips, n := map[], map[], map[], map[], {}, {}, 0;
    }

    method Raise(vehicle: string, vp: Prediction, t: int) returns (ev: Event)
      modifies this
      ensures (Value(), ev) == OpenIncident(old(Value()), vehicle, vp, t)
      ensures old(Valid()) && vehicle !in old(active) && (vehicle, vp.visit) !in old(targets) ==>
                Safe(old(Value()), Value())
    {
      OpenIsSafe(Value(), vehicle, vp, t);
      n := n + 1;
      var inc := Incident(vehicle, Open, vp.risk, vp.delay, vp.pLate, t, t, Pending, None, None);
      meta := meta[n := Meta(vehicle, vp.visit, vp.trip, vp.planned)];
      active := active[vehicle := n];
      targets := targets + {(vehicle, vp.visit)};
      trips := trips + {(vehicle, vp.trip)};
      incidents := incidents[n := inc];
      ev := Event(Opened, n, inc);
    }

    /** Rebuilds the series of the vehicle from the visits of this pass. */
    method Count(vehicle: string, preds: seq<Prediction>)
      modifies this`streaks
      ensures Value() == Observe(policy, old(Value()), vehicle, preds)
      ensures old(Valid()) ==> Valid()
    {
      var prev := if vehicle in streaks then streaks[vehicle] else map[];
      var next: map<string, nat> := map[];
      for i := 0 to |preds|
        invariant next == NextSeries(policy, prev, preds[..i])
      {
        assert preds[..i + 1][..i] == preds[..i];
        if preds[i].horizonOk && Hits(policy, preds[i]) {
          var longer := (if preds[i].visit in prev then prev[preds[i].visit] else 0) + 1;
          next := next[preds[i].visit := longer];
        }
      }
      assert preds[..|preds|] == preds;
      streaks := streaks[vehicle := next];
    }

    method Update(id: nat, vp: Prediction, t: int) returns (ev: Option<Event>)
      requires id in incidents
      modifies this`incidents
      ensures (Value(), ev) == UpdateIncident(old(Value()), id, vp, t)
      ensures old(Valid()) ==> Safe(old(Value()), Value())
    {
      if old(Valid()) {
        UpdateKeeps(Value(), id, vp, t);
      }
      var inc := incidents[id];
      var moved := Abs(vp.delay - inc.delay) >= UPDATE_STEP;
      if !moved && vp.risk == inc.risk {
        return None;
      }
      var next := inc.(delay := vp.delay, pLate := vp.pLate, risk := vp.risk, updatedAt := t);
      incidents := incidents[id := next];
      ev := Some(Event(Updated, id, next));
    }

    method Resolve(id: nat, actual: Option<real>, t: int) returns (ev: Event)
      requires id in incidents && id in meta
      modifies this`active, this`incidents
      ensures (Value(), ev) == ResolveIncident(red, old(Value()), id, actual, t)
      ensures old(Valid()) && id in old(active).Values ==> Safe(old(Value()), Value())
    {
      if old(Valid()) && id in active.Values {
        ActiveResolveKeeps(red, Value(), id, actual, t);
      }
      var outcome := if actual.Some? && actual.value > red then Hit else FalseAlarm;
      var next := incidents[id].(status := Resolved, updatedAt := t, actual := actual, outcome := outcome);
      active := active - {meta[id].vehicle};
      incidents := incidents[id := next];
      ev := Event(Closed, id, next);
    }

    method Acknowledge(id: nat, action: string, comment: string, t: int) returns (ev: Option<Event>)
      modifies this`incidents
      ensures (Value(), ev) == AckIncident(old(Value()), id, action, comment, t)
      ensures old(Valid()) ==> Safe(old(Value()), Value())
    {
      if old(Valid()) {
        AckKeeps(Value(), id, action, comment, t);
      }
      if id !in incidents {
        return None;
      }
      var status := if incidents[id].status == Resolved then Resolved else Acked;
      var next := incidents[id].(status := status, ack := Some(AckInfo(action, comment, t)), updatedAt := t);
      incidents := incidents[id := next];
      ev := Some(Event(Updated, id, next));
    }

    method SettleVehicle(vehicle: string, arrivals: map<string, real>, curDev: Option<real>, t: int)
        returns (ev: Option<Event>)
      requires Linked(Value())
      modifies this`active, this`incidents
      ensures (Value(), ev) == Settle(red, old(Value()), vehicle, arrivals, curDev, t)
      ensures old(Valid()) ==> Safe(old(Value()), Value())
    {
      if old(Valid()) {
        SettleKeeps(red, Value(), vehicle, arrivals, curDev, t);
      }
      if vehicle !in active {
        return None;
      }
      var id := active[vehicle];
      var m := meta[id];
      if m.visit in arrivals {
        var closed := Resolve(id, Some(arrivals[m.visit]), t);
        return Some(closed);
      }
      if t as real > m.planned as real + Max(incidents[id].delay, 0.0) + RESOLVE_TIMEOUT {
        var closed := Resolve(id, curDev, t);
        return Some(closed);
      }
      ev := None;
    }

    /** One vehicle in a pass: count, settle, then refresh the active incident or open a new one. */
    method PassVehicle(task: Task, t: int, now: int, canAlert: bool) returns (events: seq<Event>)
      requires Linked(Value())
      modifies this
      ensures Linked(Value())
      ensures (Value(), events) == Pass(policy, red, old(Value()), task, t, now, canAlert)
      ensures old(Valid()) ==> Safe(old(Value()), Value())
    {
      if old(Valid()) {
        PassSafe(policy, red, Value(), task, t, now, canAlert);
      }
      events := Process(task, t, now, canAlert);
    }

    method Process(task: Task, t: int, now: int, canAlert: bool) returns (events: seq<Event>)
      requires Linked(Value())
      modifies this
      ensures Linked(Value())
      ensures (Value(), events) == Pass(policy, red, old(Value()), task, t, now, canAlert)
    {
      var vid := task.vehicle;
      Count(vid, task.preds);
      var closed := SettleVehicle(vid, task.arrivals, task.curDev, t);
      events := AsSeq(closed);
      assert events + AsSeq<Event>(None) == events;
      if vid in active {
        var id := active[vid];
        var same := FirstOf(task.preds + AsSeq(task.follow), meta[id].visit);
        if same.Some? {
          var ev := Update(id, same.value, t);
          events := events + AsSeq(ev);
        }
        return;
      }
      if !canAlert || task.stale || !task.ready {
        return;
      }
      var hit := FirstOpenable(policy, Value(), vid, task.preds, now);
      if hit.Some? {
        var ev := Raise(vid, hit.value, t);
        events := events + [ev];
      }
    }
  }
}
