/** The dashboard's replica: the store and what each WebSocket message does to it. */
module Client {
  import opened Options

  /** A keyed record (a vehicle or an incident): its key and everything else about it. */
  datatype Item = Item(id: string, content: int)

  datatype Message =
    | Snapshot(session: string, vehicles: seq<Item>, incidents: seq<Item>, kpis: int, status: int)
    | Delta(session: string, vehicles: seq<Item>, removed: seq<string>)
    | Incident(session: string, incident: Item)
    | Kpis(session: string, kpis: int)
    | Status(session: string, status: int)
    | Ping(session: string)

  datatype Store = Store(
    session: Option<string>, vehicles: map<string, Item>, incidents: map<string, Item>,
    kpis: Option<int>, status: Option<int>)

  const EMPTY := Store(None, map[], map[], None, None)

  /** The records by key; a later record with the same key wins. */
  function ById(items: seq<Item>): map<string, Item> {
    if items == [] then map[]
    else
      var n := |items| - 1;
      ById(items[..n])[items[n].id := items[n]]
  }

  function Ids(ids: seq<string>): set<string> {
    set id | id in ids
  }

  /** `onMessage`: a snapshot replaces everything; any other message of a foreign session is
      ignored. */
  function OnMessage(s: Store, m: Message): Store {
    if m.Snapshot? then
      Store(Some(m.session), ById(m.vehicles), ById(m.incidents), Some(m.kpis), Some(m.status))
    else if s.session != Some(m.session) then s
    else
      match m
      case Delta(_, vehicles, removed) => s.(vehicles := s.vehicles + ById(vehicles) - Ids(removed))
      case Incident(_, inc) => s.(incidents := s.incidents[inc.id := inc])
      case Kpis(_, k) => s.(kpis := Some(k))
      case Status(_, st) => s.(status := Some(st))
      case Ping(_) => s
  }

  function OnMessages(s: Store, ms: seq<Message>): Store
    decreases |ms|
  {
    if ms == [] then s else OnMessages(OnMessage(s, ms[0]), ms[1..])
  }

  lemma {:induction false} OnMessagesConcat(s: Store, a: seq<Message>, b: seq<Message>)
    ensures OnMessages(s, a + b) == OnMessages(OnMessages(s, a), b)
    decreases |a|
  {
    if a == [] {
      assert a + b == b;
    } else {
      assert (a + b)[1..] == a[1..] + b;
      OnMessagesConcat(OnMessage(s, a[0]), a[1..], b);
    }
  }

  /** The session a client is in after some messages: that of the latest snapshot. */
  function SessionAfter(s: Store, ms: seq<Message>): Option<string> {
    if ms == [] then s.session
    else if ms[|ms| - 1].Snapshot? then Some(ms[|ms| - 1].session)
    else SessionAfter(s, ms[..|ms| - 1])
  }

  /** The indicators shown: those of the latest message of the session that told them. */
  function KpisAfter(s: Store, ms: seq<Message>): Option<int> {
    if ms == [] then s.kpis
    else
      var m, before := ms[|ms| - 1], ms[..|ms| - 1];
      if m.Snapshot? || (m.Kpis? && SessionAfter(s, before) == Some(m.session)) then Some(m.kpis)
      else KpisAfter(s, before)
  }

  function StatusAfter(s: Store, ms: seq<Message>): Option<int> {
    if ms == [] then s.status
    else
      var m, before := ms[|ms| - 1], ms[..|ms| - 1];
      if m.Snapshot? || (m.Status? && SessionAfter(s, before) == Some(m.session)) then Some(m.status)
      else StatusAfter(s, before)
  }

  /** A client shows the session, the indicators and the status it was told last. */
  lemma {:induction false} ShowsLatest(s: Store, ms: seq<Message>)
    ensures var shown := OnMessages(s, ms);
      && shown.session == SessionAfter(s, ms) && shown.kpis == KpisAfter(s, ms)
      && shown.status == StatusAfter(s, ms)
  {
    if ms != [] {
      var m, before := ms[|ms| - 1], ms[..|ms| - 1];
      assert ms == before + [m] && [m][1..] == [];
      OnMessagesConcat(s, before, [m]);
      ShowsLatest(s, before);
    }
  }

  class StreamStore {
    var session: Option<string>
    var vehicles: map<string, Item>
    var incidents: map<string, Item>
    var kpis: Option<int>
    var status: Option<int>

    function Value(): Store
      reads this
    {
      Store(session, vehicles, incidents, kpis, status)
    }

    constructor ()
      ensures Value() == EMPTY
    {
      session, vehicles, incidents, kpis, status := None, map[], map[], None, None;
    }

    method ReplaceAll(m: Message)
      requires m.Snapshot?
      modifies this
      ensures Value() == OnMessage(old(Value()), m)
    {
      var byVehicle := IndexItems(m.vehicles);
      var byIncident := IndexItems(m.incidents);
      session, kpis, status := Some(m.session), Some(m.kpis), Some(m.status);
      vehicles, incidents := byVehicle, byIncident;
    }

    /** Assigns every changed vehicle, then deletes every removed one. */
    method UpsertVehicles(list: seq<Item>, removed: seq<string>)
      modifies this`vehicles
      ensures vehicles == old(vehicles) + ById(list) - Ids(removed)
    {
      var next := vehicles;
      for i := 0 to |list|
        invariant next == vehicles + ById(list[..i])
      {
        assert list[..i + 1][..i] == list[..i];
        next := next[list[i].id := list[i]];
      }
      assert list[..|list|] == list;
      ghost var upserted := next;
      for i := 0 to |removed|
        invariant next == upserted - Ids(removed[..i])
      {
        assert Ids(removed[..i + 1]) == Ids(removed[..i]) + {removed[i]};
        next := next - {removed[i]};
      }
      assert removed[..|removed|] == removed;
      vehicles := next;
    }

    method Receive(m: Message)
      modifies this
      ensures Value() == OnMessage(old(Value()), m)
    {
      if m.Snapshot? {
        ReplaceAll(m);
        return;
      }
      if session != Some(m.session) {
        return;
      }
      match m {
        case Delta(_, list, removed) => UpsertVehicles(list, removed);
        case Incident(_, inc) => incidents := incidents[inc.id := inc];
        case Kpis(_, k) => kpis := Some(k);
        case Status(_, st) => status := Some(st);
        case Ping(_) =>
      }
    }
  }

  /** `Object.fromEntries` over the records. */
  method IndexItems(items: seq<Item>) returns (byId: map<string, Item>)
    ensures byId == ById(items)
  {
    byId := map[];
    for i := 0 to |items|
      invariant byId == ById(items[..i])
    {
      assert items[..i + 1][..i] == items[..i];
      byId := byId[items[i].id := items[i]];
    }
    assert items[..|items|] == items;
  }
}
