/** Who stays registered: a client is cut off by no step but one whose messages overfill its queue. */
module Registration {
  import opened Options
  import opened Client
  import opened Replication

  /** The messages a step sends to every client: none, one delta if the vehicles have changed, one for each
      stored incident, snapshot and status for a new session, one for what is told. */
  function Sends(h: Hub, step: Step): seq<Message> {
    match step
    case Flush(states) =>
      if ById(h.lastSent) == ById(states) then []
      else [Delta(Env(h), Changed(ById(h.lastSent), states), Removed(h.lastSent, ById(states)))]
    case Incidents(events) => Events(Env(h), events)
    case NewSession(session, kpis, status) => [Snapshot(session, [], [], kpis, status), Status(session, status)]
    case Tell(m) => [m]
    case _ => []
  }

  /** The step is not the client's own: its connection neither comes, goes, sends nor receives. */
  predicate Others(step: Step, c: nat) {
    step != Leave(c) && step != Send(c) && step != Receive(c) && !(step.Join? && step.c == c)
  }

  /** What happens to a client by a step that is not its own: it gets exactly the messages of the step, or it
      is cut off when they do not fit. */
  predicate Served(h: Hub, h1: Hub, c: nat, ms: seq<Message>) {
    && (c in h1.clients <==> c in h.clients && |h.clients[c]| + |ms| <= 1000)
    && (c in h1.clients ==> h1.clients[c] == h.clients[c] + ms)
    && (c in h1.cut <==> c in h.cut || (c in h.clients && |h.clients[c]| + |ms| > 1000))
  }

  lemma BroadcastServes(h: Hub, m: Message, c: nat)
    requires c in h.clients ==> |h.clients[c]| <= 1000
    ensures Served(h, Broadcast(h, m), c, [m])
  {
  }

  lemma ServedTwice(h: Hub, h1: Hub, h2: Hub, c: nat, a: seq<Message>, b: seq<Message>)
    requires Served(h, h1, c, a) && Served(h1, h2, c, b)
    ensures Served(h, h2, c, a + b)
  {
    if c in h2.clients {
      assert (h.clients[c] + a) + b == h.clients[c] + (a + b);
    }
  }

  lemma {:induction false} BroadcastAllServes(h: Hub, ms: seq<Message>, c: nat)
    requires c in h.clients ==> |h.clients[c]| <= 1000
    ensures Served(h, BroadcastAll(h, ms), c, ms)
    decreases |ms|
  {
    if ms == [] {
      assert c in h.clients ==> h.clients[c] + [] == h.clients[c];
    } else {
      var next := Broadcast(h, ms[0]);
      BroadcastServes(h, ms[0], c);
      BroadcastAllServes(next, ms[1..], c);
      ServedTwice(h, next, BroadcastAll(h, ms), c, [ms[0]], ms[1..]);
      assert [ms[0]] + ms[1..] == ms;
    }
  }

  /** A hub that differs in what is replicated, not in its queues. */
  lemma SameQueuesServe(h: Hub, told: Hub, h1: Hub, c: nat, ms: seq<Message>)
    requires told.clients == h.clients && told.cut == h.cut && Served(told, h1, c, ms)
    ensures Served(h, h1, c, ms)
  {
  }

  /** Nothing is new and nothing is gone exactly when the vehicles are those sent last. */
  lemma NothingToTell(last: seq<Item>, states: seq<Item>)
    requires DistinctIds(states)
    ensures Changed(ById(last), states) == [] && Removed(last, ById(states)) == [] <==> ById(last) == ById(states)
  {
    var changed, removed := Changed(ById(last), states), Removed(last, ById(states));
    if changed == [] && removed == [] {
      DeltaExact(last, states);
      assert ById(last) + map[] - {} == ById(last);
    }
    if ById(last) == ById(states) {
      if changed != [] {
        ByIdKeys(changed, changed[0].id);
        ChangedAt(ById(last), states, changed[0].id);
      }
      if removed != [] {
        RemovedAt(last, ById(states), removed[0]);
      }
    }
  }

  lemma FlushServes(h: Hub, states: seq<Item>, c: nat)
    requires DistinctIds(states) && (c in h.clients ==> |h.clients[c]| <= 1000)
    ensures Served(h, FlushHub(h, states), c, Sends(h, Flush(states)))
  {
    NothingToTell(h.lastSent, states);
    var changed, removed := Changed(ById(h.lastSent), states), Removed(h.lastSent, ById(states));
    if changed == [] && removed == [] {
      assert c in h.clients ==> h.clients[c] + [] == h.clients[c];
    } else {
      BroadcastServes(h, Delta(Env(h), changed, removed), c);
    }
  }

  /** Over every step that is not its own a client gets exactly what the step sends, and stays registered if
      and only if that fits its queue. */
  lemma StepServes(sys: System, step: Step, c: nat)
    requires Invariant(sys) && Enabled(sys, step) && Others(step, c)
    ensures Served(sys.hub, Next(sys, step).hub, c, Sends(sys.hub, step))
    ensures c in sys.remotes <==> c in Next(sys, step).remotes
    ensures c in sys.remotes ==> Next(sys, step).remotes[c] == sys.remotes[c]
  {
    var h := sys.hub;
    match step
    case Flush(states) => FlushServes(h, states, c);
    case Incidents(events) =>
      var told := h.(incidents := PutAll(h.incidents, events));
      BroadcastAllServes(told, Events(Env(h), events), c);
      SameQueuesServe(h, told, IncidentsHub(h, events), c, Events(Env(h), events));
    case NewSession(session, kpis, status) =>
      var told := h.(session := Some(session), incidents := [], lastSent := []);
      var ms := [Snapshot(session, [], [], kpis, status), Status(session, status)];
      assert ms == [SnapshotOf(told, kpis, status), Status(session, status)];
      BroadcastAllServes(told, ms, c);
      SameQueuesServe(h, told, NewSessionHub(h, session, kpis, status), c, ms);
    case Tell(m) => BroadcastServes(h, m, c);
    case Join(_, _, _, _) => NothingServes(h, Next(sys, step).hub, c);
    case Leave(_) => NothingServes(h, Next(sys, step).hub, c);
    case Send(_) => NothingServes(h, Next(sys, step).hub, c);
    case Receive(_) => NothingServes(h, Next(sys, step).hub, c);
  }

  lemma NothingServes(h: Hub, h1: Hub, c: nat)
    requires c in h.clients ==> |h.clients[c]| <= 1000
    requires c in h1.clients <==> c in h.clients
    requires c in h.clients ==> h1.clients[c] == h.clients[c]
    requires c in h1.cut <==> c in h.cut
    ensures Served(h, h1, c, [])
  {
    assert c in h.clients ==> h.clients[c] + [] == h.clients[c];
  }

  /** By its own steps: joining registers it with the snapshot alone, leaving leaves nothing, sending moves the
      oldest message of its queue to the wire, receiving takes the oldest off the wire. */
  lemma OwnSteps(sys: System, c: nat, store: Store, kpis: int, status: int)
    requires Invariant(sys)
    ensures Enabled(sys, Join(c, store, kpis, status)) ==>
              var next := Next(sys, Join(c, store, kpis, status));
              && c in next.hub.clients && c !in next.hub.cut && c in next.remotes
              && next.hub.clients[c] == [Snapshot(Env(sys.hub), sys.hub.lastSent, sys.hub.incidents, kpis, status)]
              && next.remotes[c] == Remote([], store)
    ensures var next := Next(sys, Leave(c));
              c !in next.hub.clients && c !in next.hub.cut && c !in next.remotes
    ensures Enabled(sys, Send(c)) ==>
              var next := Next(sys, Send(c));
              && c in next.hub.clients && [sys.hub.clients[c][0]] + next.hub.clients[c] == sys.hub.clients[c]
              && next.remotes[c].wire == sys.remotes[c].wire + [sys.hub.clients[c][0]]
    ensures Enabled(sys, Receive(c)) ==>
              var next := Next(sys, Receive(c));
              && next.hub == sys.hub && [sys.remotes[c].wire[0]] + next.remotes[c].wire == sys.remotes[c].wire
              && next.remotes[c].store == OnMessage(sys.remotes[c].store, sys.remotes[c].wire[0])
  {
  }

  /** Along a run every step that is not the client's own finds room for its messages, and it does not leave. */
  predicate Roomy(sys: System, steps: seq<Step>, c: nat)
    requires Run(sys, steps)
    decreases |steps|
  {
    steps != [] ==>
      && steps[0] != Leave(c)
      && (Others(steps[0], c) && c in sys.hub.clients ==>
            |sys.hub.clients[c]| + |Sends(sys.hub, steps[0])| <= 1000)
      && Roomy(Next(sys, steps[0]), steps[1..], c)
  }

  lemma StepKeepsRegistered(sys: System, step: Step, c: nat)
    requires Invariant(sys) && Enabled(sys, step) && step != Leave(c) && c in sys.hub.clients
    requires Others(step, c) ==> |sys.hub.clients[c]| + |Sends(sys.hub, step)| <= 1000
    ensures c in Next(sys, step).hub.clients
  {
    if Others(step, c) {
      StepServes(sys, step, c);
    }
  }

  /** A client that reads fast enough is never cut off: over any run it stays registered. */
  lemma {:induction false} RoomKeepsRegistered(sys: System, steps: seq<Step>, c: nat)
    requires Invariant(sys) && Run(sys, steps) && c in sys.hub.clients && Roomy(sys, steps, c)
    ensures c in After(sys, steps).hub.clients
    decreases |steps|
  {
    if steps != [] {
      StepKeepsRegistered(sys, steps[0], c);
      StepKeepsInvariant(sys, steps[0]);
      RoomKeepsRegistered(Next(sys, steps[0]), steps[1..], c);
    }
  }
}
