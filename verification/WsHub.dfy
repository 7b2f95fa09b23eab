/** The hub as the server runs it: fields reassigned by loops, each method one atomic step. */
module WsHub {
  import opened Options
  import opened Client
  import opened Replication

  class Fanout {
    var session: Option<string>
    var incidents: seq<Item>
    var lastSent: seq<Item>
    var clients: map<nat, Queue>
    var cut: set<nat>

    function Value(): Hub
      reads this
    {
      Hub(session, incidents, lastSent, clients, cut)
    }

    constructor ()
      ensures Value() == START.hub
    {
      session, incidents, lastSent, clients, cut := None, [], [], map[], {};
    }

    /** Puts the message into every queue; a client whose queue is full is dropped, its queue
        emptied and closed with the end marker. */
    method SendAll(m: Message)
      modifies this`clients, this`cut
      ensures Value() == Broadcast(old(Value()), m)
    {
      var todo := clients.Keys;
      while todo != {}
        invariant todo <= clients.Keys <= old(clients).Keys
        invariant forall c :: c in todo ==> clients[c] == old(clients)[c]
        invariant forall c :: c in old(clients) && c !in todo ==>
          (c in clients <==> |old(clients)[c]| < CLIENT_QUEUE)
        invariant forall c :: c in clients && c !in todo ==> clients[c] == old(clients)[c] + [m]
        invariant cut == old(cut) + set c | c in old(clients) && c !in todo && |old(clients)[c]| >= CLIENT_QUEUE
        decreases todo
      {
        var c :| c in todo;
        todo := todo - {c};
        if |clients[c]| < CLIENT_QUEUE {
          clients := clients[c := clients[c] + [m]];
        } else {
          clients := clients - {c};
          cut := cut + {c};
        }
      }
    }

    /** Sends the changed and the removed vehicles, if there are any, and remembers what was sent. */
    method FlushDelta(states: seq<Item>)
      modifies this
      ensures Value() == FlushHub(old(Value()), states)
    {
      var last, now := ById(lastSent), ById(states);
      var changed: seq<Item> := [];
      for i := 0 to |states|
        invariant changed == Changed(last, states[..i])
      {
        assert states[..i + 1][..i] == states[..i];
        var s := states[i];
        changed := changed + (if s.id in last && last[s.id] == s then [] else [s]);
      }
      assert states[..|states|] == states;
      var removed: seq<string> := [];
      for i := 0 to |lastSent|
        invariant removed == Removed(lastSent[..i], now)
      {
        assert lastSent[..i + 1][..i] == lastSent[..i];
        removed := removed + (if lastSent[i].id in now then [] else [lastSent[i].id]);
      }
      assert lastSent[..|lastSent|] == lastSent;
      if changed != [] || removed != [] {
        SendAll(Delta(Env(Value()), changed, removed));
      }
      lastSent := states;
    }

    /** A pass or a dispatcher has stored these incidents, in this order; the events go out. */
    method StoreIncidents(events: seq<Item>)
      modifies this
      ensures Value() == IncidentsHub(old(Value()), events)
    {
      incidents := PutAll(incidents, events);
      ghost var stored := Value();
      ghost var ms := Events(Env(stored), events);
      assert ms[0..] == ms;
      for i := 0 to |events|
        invariant BroadcastAll(Value(), ms[i..]) == BroadcastAll(stored, ms)
        invariant session == stored.session
      {
        assert ms[i..][1..] == ms[i + 1..];
        SendAll(Incident(Env(Value()), events[i]));
      }
    }

    /** A new session: the book and the vehicles start empty, every client gets a snapshot and
        the status. */
    method ResetSession(id: string, kpis: int, status: int)
      modifies this
      ensures Value() == NewSessionHub(old(Value()), id, kpis, status)
    {
      session, incidents, lastSent := Some(id), [], [];
      ghost var reset := Value();
      ghost var ms := [SnapshotOf(reset, kpis, status), Status(id, status)];
      assert ms[1..] == [Status(id, status)];
      OneBroadcast(Broadcast(reset, ms[0]), ms[1]);
      SendAll(SnapshotOf(Value(), kpis, status));
      SendAll(Status(id, status));
    }

    /** A connection is registered with a snapshot as the first entry of its queue. */
    method Serve(c: nat, kpis: int, status: int)
      modifies this`clients
      ensures Value() == JoinHub(old(Value()), c, kpis, status)
    {
      clients := clients[c := [SnapshotOf(Value(), kpis, status)]];
    }

    method Leave(c: nat)
      modifies this`clients, this`cut
      ensures Value() == LeaveHub(old(Value()), c)
    {
      clients, cut := clients - {c}, cut - {c};
    }
  }
}
