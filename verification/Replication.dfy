/** The server side of the stream and the agreement of every connected replica with it. */
module Replication {
  import opened Options
  import opened Client

  const CLIENT_QUEUE := 1000
  const NO_SESSION := "none"

  type Queue = seq<Message>

  /** `clients` holds the queues of the registered connections. A connection that overflowed is
      in `cut`: its queue was emptied and holds only the end marker. */
  datatype Hub = Hub(
    session: Option<string>, incidents: seq<Item>, lastSent: seq<Item>, clients: map<nat, Queue>, cut: set<nat>)

  function Env(h: Hub): string {
    if h.session.Some? then h.session.value else NO_SESSION
  }

  function SnapshotOf(h: Hub, kpis: int, status: int): Message {
    Snapshot(Env(h), h.lastSent, h.incidents, kpis, status)
  }

  /** Appends to every queue with room; cuts off every full one. */
  function Broadcast(h: Hub, m: Message): Hub {
    h.(clients := map c | c in h.clients && |h.clients[c]| < CLIENT_QUEUE :: h.clients[c] + [m],
       cut := h.cut + set c | c in h.clients && |h.clients[c]| >= CLIENT_QUEUE)
  }

  function BroadcastAll(h: Hub, ms: seq<Message>): Hub
    decreases |ms|
  {
    if ms == [] then h else BroadcastAll(Broadcast(h, ms[0]), ms[1..])
  }

  // ---- deltas ----

  predicate DistinctIds(items: seq<Item>) {
    forall i, j :: 0 <= i < j < |items| ==> items[i].id != items[j].id
  }

  /** The states that are new or differ from what was sent last. */
  function Changed(last: map<string, Item>, states: seq<Item>): seq<Item> {
    if states == [] then []
    else
      var n := |states| - 1;
      var s := states[n];
      Changed(last, states[..n]) + (if s.id in last && last[s.id] == s then [] else [s])
  }

  /** The keys that were sent last and are gone now. */
  function Removed(last: seq<Item>, states: map<string, Item>): seq<string> {
    if last == [] then []
    else
      var n := |last| - 1;
      Removed(last[..n], states) + (if last[n].id in states then [] else [last[n].id])
  }

  lemma {:induction false} ByIdKeys(items: seq<Item>, id: string)
    ensures id in ById(items) ==> exists i :: 0 <= i < |items| && items[i].id == id && ById(items)[id] == items[i]
    ensures (exists i :: 0 <= i < |items| && items[i].id == id) ==> id in ById(items)
  {
    if items != [] {
      var n := |items| - 1;
      ByIdKeys(items[..n], id);
      if id in ById(items) && items[n].id != id {
        var i :| 0 <= i < n && items[..n][i].id == id && ById(items[..n])[id] == items[..n][i];
        assert items[i].id == id;
      }
      if i :| 0 <= i < |items| && items[i].id == id && i < n {
        assert items[..n][i].id == id;
      }
    }
  }

  lemma {:induction false} ChangedAt(last: map<string, Item>, states: seq<Item>, id: string)
    requires DistinctIds(states)
    ensures var changed, now := ById(Changed(last, states)), ById(states);
      && (id in changed <==> id in now && !(id in last && last[id] == now[id]))
      && (id in changed ==> changed[id] == now[id])
  {
    if states != [] {
      var n := |states| - 1;
      var init := states[..n];
      ChangedAt(last, init, id);
      ByIdKeys(init, states[n].id);
      var changed := Changed(last, init);
      if !(states[n].id in last && last[states[n].id] == states[n]) {
        assert (changed + [states[n]])[..|changed|] == changed;
      } else {
        assert changed + [] == changed;
      }
    }
  }

  lemma {:induction false} RemovedAt(last: seq<Item>, states: map<string, Item>, id: string)
    ensures id in Removed(last, states) <==> id in ById(last) && id !in states
  {
    if last != [] {
      RemovedAt(last[..|last| - 1], states, id);
    }
  }

  lemma DeltaAt(last: seq<Item>, states: seq<Item>, id: string)
    requires DistinctIds(states)
    ensures var result := ById(last) + ById(Changed(ById(last), states)) - Ids(Removed(last, ById(states)));
      && (id in result <==> id in ById(states))
      && (id in result ==> result[id] == ById(states)[id])
  {
    ChangedAt(ById(last), states, id);
    RemovedAt(last, ById(states), id);
  }

  /** Applying the delta to what was sent last gives exactly the current states. */
  lemma DeltaExact(last: seq<Item>, states: seq<Item>)
    requires DistinctIds(states)
    ensures ById(last) + ById(Changed(ById(last), states)) - Ids(Removed(last, ById(states))) == ById(states)
  {
    forall id
    {
      DeltaAt(last, states, id);
    }
  }

  // ---- the incident book as a dictionary in insertion order ----

  function Put(items: seq<Item>, x: Item): seq<Item> {
    if items == [] then [x]
    else if items[0].id == x.id then [x] + items[1..]
    else [items[0]] + Put(items[1..], x)
  }

  function PutAll(items: seq<Item>, xs: seq<Item>): seq<Item>
    decreases |xs|
  {
    if xs == [] then items else PutAll(Put(items, xs[0]), xs[1..])
  }

  /** In a dictionary, looking a record up by its key is having it. */
  lemma ByIdIsMembership(items: seq<Item>, y: Item)
    requires DistinctIds(items)
    ensures y in items <==> y.id in ById(items) && ById(items)[y.id] == y
  {
    ByIdKeys(items, y.id);
    if y in items {
      var i :| 0 <= i < |items| && items[i] == y;
      var j :| 0 <= j < |items| && items[j].id == y.id && ById(items)[y.id] == items[j];
    }
  }

  lemma DistinctCons(x: Item, rest: seq<Item>)
    ensures DistinctIds([x] + rest) <==> DistinctIds(rest) && forall y :: y in rest ==> y.id != x.id
  {
    var all := [x] + rest;
    assert forall i :: 0 < i < |all| ==> all[i] == rest[i - 1] && all[i] in rest;
    if DistinctIds(all) {
      forall i, j | 0 <= i < j < |rest| ensures rest[i].id != rest[j].id {
        assert all[i + 1].id != all[j + 1].id;
      }
      forall i | 0 <= i < |rest| ensures rest[i].id != x.id {
        assert all[0].id != all[i + 1].id;
      }
    }
  }

  lemma {:induction false} PutMembers(items: seq<Item>, x: Item)
    requires DistinctIds(items)
    ensures DistinctIds(Put(items, x))
    ensures forall y :: y in Put(items, x) <==> y == x || (y in items && y.id != x.id)
  {
    if items == [] {
    } else {
      var rest := items[1..];
      assert items == [items[0]] + rest;
      DistinctCons(items[0], rest);
      if items[0].id == x.id {
        DistinctCons(x, rest);
      } else {
        PutMembers(rest, x);
        DistinctCons(items[0], Put(rest, x));
      }
    }
  }

  /** Storing an incident is the map update the client performs. */
  lemma PutIsUpdate(items: seq<Item>, x: Item)
    requires DistinctIds(items)
    ensures DistinctIds(Put(items, x)) && ById(Put(items, x)) == ById(items)[x.id := x]
  {
    PutMembers(items, x);
    var a, b := ById(Put(items, x)), ById(items)[x.id := x];
    forall id
      ensures id in a <==> id in b
      ensures id in a ==> a[id] == b[id]
    {
      ByIdKeys(Put(items, x), id);
      ByIdKeys(items, id);
      if id in a {
        ByIdIsMembership(Put(items, x), a[id]);
        ByIdIsMembership(items, a[id]);
      }
      if id in b {
        ByIdIsMembership(Put(items, x), b[id]);
        ByIdIsMembership(items, b[id]);
      }
    }
  }

  // ---- the atomic steps of the server and of a connection ----

  /** What a connection holds outside the hub: messages on the wire and the replica they reach. */
  datatype Remote = Remote(wire: seq<Message>, store: Store)

  datatype System = System(hub: Hub, remotes: map<nat, Remote>)

  /** `Join` is a new connection of a client with whatever its store still holds; `Send` moves a
      message from the queue to the wire, `Receive` from the wire into the store. `Flush` is given
      the vehicle states of that moment, `Incidents` the incidents a pass or a dispatcher stored,
      in order, before the events go out; `NewSession` resets the book and the vehicles. */
  datatype Step =
    | Join(c: nat, store: Store, kpis: int, status: int)
    | Leave(c: nat)
    | Send(c: nat)
    | Receive(c: nat)
    | Flush(states: seq<Item>)
    | Incidents(events: seq<Item>)
    | NewSession(session: string, kpis: int, status: int)
    | Tell(m: Message)

  function Events(session: string, events: seq<Item>): seq<Message> {
    seq(|events|, i requires 0 <= i < |events| => Incident(session, events[i]))
  }

  function FlushHub(h: Hub, states: seq<Item>): Hub {
    var changed, removed := Changed(ById(h.lastSent), states), Removed(h.lastSent, ById(states));
    var told := if changed == [] && removed == [] then h else Broadcast(h, Delta(Env(h), changed, removed));
    told.(lastSent := states)
  }

  function IncidentsHub(h: Hub, events: seq<Item>): Hub {
    BroadcastAll(h.(incidents := PutAll(h.incidents, events)), Events(Env(h), events))
  }

  function NewSessionHub(h: Hub, session: string, kpis: int, status: int): Hub {
    var reset := h.(session := Some(session), incidents := [], lastSent := []);
    BroadcastAll(reset, [SnapshotOf(reset, kpis, status), Status(session, status)])
  }

  function JoinHub(h: Hub, c: nat, kpis: int, status: int): Hub {
    h.(clients := h.clients[c := [SnapshotOf(h, kpis, status)]])
  }

  function LeaveHub(h: Hub, c: nat): Hub {
    h.(clients := h.clients - {c}, cut := h.cut - {c})
  }

  /** Messages that change no replicated state: KPI, status and ping of the current session. */
  predicate Harmless(h: Hub, m: Message) {
    (m.Kpis? || m.Status? || m.Ping?) && m.session == Env(h)
  }

  predicate Enabled(sys: System, step: Step) {
    match step
    case Join(c, _, _, _) => c !in sys.remotes
    case Send(c) => c in sys.hub.clients && c in sys.remotes && sys.hub.clients[c] != []
    case Receive(c) => c in sys.remotes && sys.remotes[c].wire != []
    case Flush(states) => DistinctIds(states)
    case Tell(m) => Harmless(sys.hub, m)
    case _ => true
  }

  function Next(sys: System, step: Step): System
    requires Enabled(sys, step)
  {
    var h := sys.hub;
    match step
    case Join(c, store, kpis, status) =>
      System(JoinHub(h, c, kpis, status), sys.remotes[c := Remote([], store)])
    case Leave(c) => System(LeaveHub(h, c), sys.remotes - {c})
    case Send(c) =>
      var q, r := h.clients[c], sys.remotes[c];
      System(h.(clients := h.clients[c := q[1..]]), sys.remotes[c := r.(wire := r.wire + [q[0]])])
    case Receive(c) =>
      var r := sys.remotes[c];
      sys.(remotes := sys.remotes[c := Remote(r.wire[1..], OnMessage(r.store, r.wire[0]))])
    case Flush(states) => sys.(hub := FlushHub(h, states))
    case Incidents(events) => sys.(hub := IncidentsHub(h, events))
    case NewSession(session, kpis, status) => sys.(hub := NewSessionHub(h, session, kpis, status))
    case Tell(m) => sys.(hub := Broadcast(h, m))
  }

  // ---- agreement ----

  /** The replica shows exactly the session, the vehicles and the incidents of the hub. */
  predicate Agrees(h: Hub, s: Store) {
    s.session == Some(Env(h)) && s.vehicles == ById(h.lastSent) && s.incidents == ById(h.incidents)
  }

  function Pending(sys: System, c: nat): seq<Message>
    requires c in sys.hub.clients && c in sys.remotes
  {
    sys.remotes[c].wire + sys.hub.clients[c]
  }

  /** A registered client, once it has processed everything queued and on the wire, agrees with
      the hub; no queue is over its bound; a client that was cut off is not registered. */
  ghost predicate Invariant(sys: System) {
    && DistinctIds(sys.hub.lastSent) && DistinctIds(sys.hub.incidents)
    && sys.hub.clients.Keys <= sys.remotes.Keys
    && sys.hub.cut !! sys.hub.clients.Keys
    && sys.hub.cut <= sys.remotes.Keys
    && (forall c :: c in sys.hub.clients ==> |sys.hub.clients[c]| <= CLIENT_QUEUE)
    && (forall c :: c in sys.hub.clients ==> Agrees(sys.hub, OnMessages(sys.remotes[c].store, Pending(sys, c))))
  }

  lemma {:induction false} BroadcastAllClients(h: Hub, ms: seq<Message>)
    requires forall c :: c in h.clients ==> |h.clients[c]| <= CLIENT_QUEUE
    ensures var after := BroadcastAll(h, ms);
      && after.session == h.session && after.incidents == h.incidents && after.lastSent == h.lastSent
      && after.clients.Keys <= h.clients.Keys
      && after.cut == h.cut + (h.clients.Keys - after.clients.Keys)
      && (forall c :: c in after.clients ==>
            after.clients[c] == h.clients[c] + ms && |after.clients[c]| <= CLIENT_QUEUE)
    decreases |ms|
  {
    if ms == [] {
      assert forall c :: c in h.clients ==> h.clients[c] + [] == h.clients[c];
    } else {
      var next := Broadcast(h, ms[0]);
      BroadcastAllClients(next, ms[1..]);
      var after := BroadcastAll(h, ms);
      forall c | c in after.clients
        ensures after.clients[c] == h.clients[c] + ms
      {
        assert (h.clients[c] + [ms[0]]) + ms[1..] == h.clients[c] + ms;
      }
    }
  }

  /** Processing `ms` takes every replica that agreed with `h` to one that agrees with `after`. */
  ghost predicate Carries(h: Hub, after: Hub, ms: seq<Message>) {
    forall s :: Agrees(h, s) ==> Agrees(after, OnMessages(s, ms))
  }

  /** A step of the hub that tells every client what carries it along keeps the agreement. */
  lemma ToldKeepsInvariant(sys: System, told: Hub, after: Hub, ms: seq<Message>)
    requires Invariant(sys) && Carries(sys.hub, after, ms)
    requires told.clients == sys.hub.clients && told.cut == sys.hub.cut
    requires after.clients == BroadcastAll(told, ms).clients && after.cut == BroadcastAll(told, ms).cut
    requires DistinctIds(after.lastSent) && DistinctIds(after.incidents)
    ensures Invariant(sys.(hub := after))
  {
    BroadcastAllClients(told, ms);
    forall c | c in after.clients
      ensures Agrees(after, OnMessages(sys.remotes[c].store, sys.remotes[c].wire + after.clients[c]))
    {
      ToldClientAgrees(sys.hub, after, ms, sys.remotes[c].store, sys.remotes[c].wire, sys.hub.clients[c]);
    }
  }

  lemma ToldClientAgrees(h: Hub, after: Hub, ms: seq<Message>, store: Store, wire: seq<Message>, queue: Queue)
    requires Carries(h, after, ms) && Agrees(h, OnMessages(store, wire + queue))
    ensures Agrees(after, OnMessages(store, wire + (queue + ms)))
  {
    assert wire + (queue + ms) == (wire + queue) + ms;
    OnMessagesConcat(store, wire + queue, ms);
  }

  lemma OneMessage(s: Store, m: Message)
    ensures OnMessages(s, [m]) == OnMessage(s, m)
  {
  }

  lemma OneBroadcast(h: Hub, m: Message)
    ensures BroadcastAll(h, [m]) == Broadcast(h, m)
  {
  }

  lemma NothingCarries(h: Hub, after: Hub)
    requires after.session == h.session && after.incidents == h.incidents
    requires ById(after.lastSent) == ById(h.lastSent)
    ensures Carries(h, after, [])
  {
  }

  lemma DeltaCarries(h: Hub, after: Hub, changed: seq<Item>, removed: seq<string>)
    requires after.session == h.session && after.incidents == h.incidents
    requires ById(after.lastSent) == ById(h.lastSent) + ById(changed) - Ids(removed)
    ensures Carries(h, after, [Delta(Env(h), changed, removed)])
  {
    forall s | Agrees(h, s)
      ensures Agrees(after, OnMessages(s, [Delta(Env(h), changed, removed)]))
    {
      OneMessage(s, Delta(Env(h), changed, removed));
    }
  }

  lemma FlushKeeps(sys: System, states: seq<Item>)
    requires Invariant(sys) && DistinctIds(states)
    ensures Invariant(sys.(hub := FlushHub(sys.hub, states)))
  {
    var h := sys.hub;
    var changed, removed := Changed(ById(h.lastSent), states), Removed(h.lastSent, ById(states));
    var after := FlushHub(h, states);
    DeltaExact(h.lastSent, states);
    if changed == [] && removed == [] {
      assert ById(h.lastSent) + map[] - {} == ById(h.lastSent);
      NothingCarries(h, after);
      ToldKeepsInvariant(sys, h, after, []);
    } else {
      var m := Delta(Env(h), changed, removed);
      OneBroadcast(h, m);
      DeltaCarries(h, after, changed, removed);
      ToldKeepsInvariant(sys, h, after, [m]);
    }
  }

  lemma {:induction false} EventsCarry(h: Hub, s: Store, events: seq<Item>)
    requires DistinctIds(h.incidents) && Agrees(h, s)
    ensures DistinctIds(PutAll(h.incidents, events))
    ensures Agrees(h.(incidents := PutAll(h.incidents, events)), OnMessages(s, Events(Env(h), events)))
    decreases |events|
  {
    if events != [] {
      var next := h.(incidents := Put(h.incidents, events[0]));
      PutIsUpdate(h.incidents, events[0]);
      EventsCarry(next, OnMessage(s, Incident(Env(h), events[0])), events[1..]);
      assert Events(Env(h), events)[1..] == Events(Env(h), events[1..]);
    }
  }

  lemma IncidentsKeep(sys: System, events: seq<Item>)
    requires Invariant(sys)
    ensures Invariant(sys.(hub := IncidentsHub(sys.hub, events)))
  {
    var h := sys.hub;
    var told := h.(incidents := PutAll(h.incidents, events));
    var ms := Events(Env(h), events);
    BroadcastAllClients(told, ms);
    PutAllDistinct(h.incidents, events);
    forall s | Agrees(h, s)
      ensures Agrees(IncidentsHub(h, events), OnMessages(s, ms))
    {
      EventsCarry(h, s, events);
    }
    ToldKeepsInvariant(sys, told, IncidentsHub(h, events), ms);
  }

  lemma {:induction false} PutAllDistinct(items: seq<Item>, xs: seq<Item>)
    requires DistinctIds(items)
    ensures DistinctIds(PutAll(items, xs))
    decreases |xs|
  {
    if xs != [] {
      PutMembers(items, xs[0]);
      PutAllDistinct(Put(items, xs[0]), xs[1..]);
    }
  }

  lemma NewSessionKeeps(sys: System, session: string, kpis: int, status: int)
    requires Invariant(sys)
    ensures Invariant(sys.(hub := NewSessionHub(sys.hub, session, kpis, status)))
  {
    var h := sys.hub;
    var reset := h.(session := Some(session), incidents := [], lastSent := []);
    var ms := [SnapshotOf(reset, kpis, status), Status(session, status)];
    var after := NewSessionHub(h, session, kpis, status);
    BroadcastAllClients(reset, ms);
    forall s | Agrees(h, s)
      ensures Agrees(after, OnMessages(s, ms))
    {
      assert ms[1..] == [ms[1]];
      OneMessage(OnMessage(s, ms[0]), ms[1]);
    }
    ToldKeepsInvariant(sys, reset, after, ms);
  }

  lemma TellKeeps(sys: System, m: Message)
    requires Invariant(sys) && Harmless(sys.hub, m)
    ensures Invariant(sys.(hub := Broadcast(sys.hub, m)))
  {
    OneBroadcast(sys.hub, m);
    forall s | Agrees(sys.hub, s)
      ensures Agrees(Broadcast(sys.hub, m), OnMessages(s, [m]))
    {
      OneMessage(s, m);
    }
    ToldKeepsInvariant(sys, sys.hub, Broadcast(sys.hub, m), [m]);
  }

  /** A late client agrees as soon as it has processed its snapshot, whatever it showed before. */
  lemma JoinKeeps(sys: System, c: nat, store: Store, kpis: int, status: int)
    requires Invariant(sys) && c !in sys.remotes
    ensures Invariant(System(JoinHub(sys.hub, c, kpis, status), sys.remotes[c := Remote([], store)]))
  {
    var m := SnapshotOf(sys.hub, kpis, status);
    var next := System(JoinHub(sys.hub, c, kpis, status), sys.remotes[c := Remote([], store)]);
    OneMessage(store, m);
    forall d | d in next.hub.clients
      ensures Agrees(next.hub, OnMessages(next.remotes[d].store, Pending(next, d)))
    {
      if d == c {
        assert Pending(next, c) == [m];
      } else {
        assert Pending(next, d) == Pending(sys, d);
      }
    }
  }

  lemma StepKeepsInvariant(sys: System, step: Step)
    requires Invariant(sys) && Enabled(sys, step)
    ensures Invariant(Next(sys, step))
  {
    match step
    case Join(c, store, kpis, status) => JoinKeeps(sys, c, store, kpis, status);
    case Leave(c) => LeaveKeeps(sys, c);
    case Send(c) => SendKeeps(sys, c);
    case Receive(c) => ReceiveKeeps(sys, c);
    case Flush(states) => FlushKeeps(sys, states);
    case Incidents(events) => IncidentsKeep(sys, events);
    case NewSession(session, kpis, status) => NewSessionKeeps(sys, session, kpis, status);
    case Tell(m) => TellKeeps(sys, m);
  }

  lemma LeaveKeeps(sys: System, c: nat)
    requires Invariant(sys)
    ensures Invariant(Next(sys, Leave(c)))
  {
    var next := Next(sys, Leave(c));
    assert forall d :: d in next.hub.clients ==> Pending(next, d) == Pending(sys, d);
  }

  lemma SendKeeps(sys: System, c: nat)
    requires Invariant(sys) && Enabled(sys, Send(c))
    ensures Invariant(Next(sys, Send(c)))
  {
    var next := Next(sys, Send(c));
    forall d | d in next.hub.clients
      ensures Pending(next, d) == Pending(sys, d)
      ensures next.remotes[d].store == sys.remotes[d].store
    {
    }
  }

  lemma ReceiveKeeps(sys: System, c: nat)
    requires Invariant(sys) && Enabled(sys, Receive(c))
    ensures Invariant(Next(sys, Receive(c)))
  {
    var next := Next(sys, Receive(c));
    forall d | d in next.hub.clients
      ensures OnMessages(next.remotes[d].store, Pending(next, d)) == OnMessages(sys.remotes[d].store, Pending(sys, d))
    {
      if d == c {
        var before := Pending(sys, c);
        assert before[0] == sys.remotes[c].wire[0] && before[1..] == Pending(next, c);
      } else {
        assert Pending(next, d) == Pending(sys, d);
      }
    }
  }

  // ---- whole runs ----

  predicate Run(sys: System, steps: seq<Step>)
    decreases |steps|
  {
    steps == [] || (Enabled(sys, steps[0]) && Run(Next(sys, steps[0]), steps[1..]))
  }

  function After(sys: System, steps: seq<Step>): System
    requires Run(sys, steps)
    decreases |steps|
  {
    if steps == [] then sys else After(Next(sys, steps[0]), steps[1..])
  }

  const START := System(Hub(None, [], [], map[], {}), map[])

  lemma {:induction false} RunKeepsInvariant(sys: System, steps: seq<Step>)
    requires Invariant(sys) && Run(sys, steps)
    ensures Invariant(After(sys, steps))
    decreases |steps|
  {
    if steps != [] {
      StepKeepsInvariant(sys, steps[0]);
      RunKeepsInvariant(Next(sys, steps[0]), steps[1..]);
    }
  }

  /** After any run of flushes, incident events, session resets, late joins, cut-offs and
      deliveries: a client that is still registered and has caught up shows the server's session,
      vehicles and incidents; one that has not will, once it processes what is pending. */
  lemma ReplicasAgree(steps: seq<Step>, c: nat)
    requires Run(START, steps) && c in After(START, steps).hub.clients
    ensures var sys := After(START, steps);
      && c in sys.remotes
      && Agrees(sys.hub, OnMessages(sys.remotes[c].store, Pending(sys, c)))
      && (Pending(sys, c) == [] ==> Agrees(sys.hub, sys.remotes[c].store))
      && |sys.hub.clients[c]| <= CLIENT_QUEUE
  {
    RunKeepsInvariant(START, steps);
  }
}
