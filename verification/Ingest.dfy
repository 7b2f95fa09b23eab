/** Packet statistics over a sliding window of whole seconds, and the bounded queue of frames. */
module Ingest {
  import opened Options

  const PPS_WINDOW_S := 10

  /** Frames counted in one whole second. */
  datatype Bucket = Bucket(sec: int, n: nat)

  /** The frames after second `edge` in a full history of their seconds. */
  function CountAfter(history: seq<int>, edge: int): nat {
    if history == [] then 0
    else CountAfter(history[..|history| - 1], edge) + (if history[|history| - 1] > edge then 1 else 0)
  }

  lemma {:induction false} CountIs(history: seq<int>, edge: int)
    ensures CountAfter(history, edge) == |set i | 0 <= i < |history| && history[i] > edge|
  {
    var late := set i | 0 <= i < |history| && history[i] > edge;
    if history == [] {
      assert late == {};
    } else {
      var n := |history| - 1;
      CountIs(history[..n], edge);
      var before := set i | 0 <= i < n && history[..n][i] > edge;
      assert late == before + if history[n] > edge then {n} else {};
    }
  }

  /** The frames after second `edge` in the buckets. */
  function TotalAfter(buckets: seq<Bucket>, edge: int): nat {
    if buckets == [] then 0
    else TotalAfter(buckets[..|buckets| - 1], edge)
         + (if buckets[|buckets| - 1].sec > edge then buckets[|buckets| - 1].n else 0)
  }

  predicate Ascending(buckets: seq<Bucket>) {
    forall i, j :: 0 <= i < j < |buckets| ==> buckets[i].sec < buckets[j].sec
  }

  /** Dropping a front bucket not after `edge` does not change what lies after it. */
  lemma {:induction false} FrontIsOld(buckets: seq<Bucket>, edge: int)
    requires buckets != [] && buckets[0].sec <= edge
    ensures TotalAfter(buckets[1..], edge) == TotalAfter(buckets, edge)
  {
    var k := |buckets| - 1;
    if k > 0 {
      FrontIsOld(buckets[..k], edge);
      assert buckets[..k][1..] == buckets[1..][..k - 1];
    }
  }

  predicate Agree(buckets: seq<Bucket>, history: seq<int>, edge: int) {
    TotalAfter(buckets, edge) == CountAfter(history, edge)
  }

  class IngestStats {
    var packetsTotal: nat
    var buckets: seq<Bucket>
    var lastWall: Option<real>
    var dropped: nat
    ghost var history: seq<int>

    /** The buckets agree with the full history at every edge a window can still ask for. */
    ghost predicate Valid()
      reads this
    {
      && packetsTotal == |history|
      && Ascending(buckets)
      && (lastWall.None? ==> history == [] && buckets == [])
      && (lastWall.Some? ==>
            var last := lastWall.value.Floor;
            && buckets != [] && buckets[|buckets| - 1].sec == last && buckets[0].sec > last - PPS_WINDOW_S
            && (forall i :: 0 <= i < |history| ==> history[i] <= last)
            && (forall edge :: edge >= last - PPS_WINDOW_S ==> Agree(buckets, history, edge)))
    }

    constructor ()
      ensures Valid() && history == [] && dropped == 0
    {
      packetsTotal, buckets, lastWall, dropped, history := 0, [], None, 0, [];
    }

    /** A frame at a wall time not before the last one. */
    method OnFrame(wall: real)
      requires Valid() && (lastWall.Some? ==> lastWall.value <= wall)
      modifies `packetsTotal, `buckets, `lastWall, `history
      ensures Valid()
      ensures history == old(history) + [wall.Floor] && lastWall == Some(wall)
    {
      var sec := wall.Floor;
      ghost var oldBuckets, oldHistory, oldLast := buckets, history, lastWall;
      packetsTotal := packetsTotal + 1;
      if buckets != [] && buckets[|buckets| - 1].sec == sec {
        buckets := buckets[|buckets| - 1 := Bucket(sec, buckets[|buckets| - 1].n + 1)];
      } else {
        buckets := buckets + [Bucket(sec, 1)];
      }
      history := history + [sec];
      forall edge | edge >= sec - PPS_WINDOW_S ensures Agree(buckets, history, edge) {
        assert oldLast.Some? ==> Agree(oldBuckets, oldHistory, edge);
        Counted(oldBuckets, oldHistory, oldLast, sec, edge);
      }
      assert Ascending(buckets);
      while buckets != [] && buckets[0].sec <= sec - PPS_WINDOW_S
        invariant history == oldHistory + [sec] && packetsTotal == |history|
        invariant Ascending(buckets) && buckets != [] && buckets[|buckets| - 1].sec == sec
        invariant forall edge :: edge >= sec - PPS_WINDOW_S ==> Agree(buckets, history, edge)
        decreases |buckets|
      {
        ghost var was := buckets;
        buckets := buckets[1..];
        forall edge | edge >= sec - PPS_WINDOW_S ensures Agree(buckets, history, edge) {
          FrontIsOld(was, edge);
          assert Agree(was, history, edge);
        }
      }
      lastWall := Some(wall);
    }

    /** The frames of the last whole seconds, as a count over the full history. */
    method InWindow(wall: real) returns (total: nat)
      requires Valid() && (lastWall.Some? ==> lastWall.value <= wall)
      ensures total == CountAfter(history, wall.Floor - 10)
    {
      var edge := wall.Floor - PPS_WINDOW_S;
      total := 0;
      for i := 0 to |buckets|
        invariant total == TotalAfter(buckets[..i], edge)
      {
        assert buckets[..i + 1][..i] == buckets[..i];
        total := total + if buckets[i].sec > edge then buckets[i].n else 0;
      }
      assert buckets[..|buckets|] == buckets;
      assert lastWall.Some? ==> Agree(buckets, history, edge);
    }
  }

  /** The buckets after one more frame. */
  function Grown(buckets: seq<Bucket>, sec: int): seq<Bucket> {
    if buckets != [] && buckets[|buckets| - 1].sec == sec then
      buckets[|buckets| - 1 := Bucket(sec, buckets[|buckets| - 1].n + 1)]
    else buckets + [Bucket(sec, 1)]
  }

  lemma Counted(buckets: seq<Bucket>, history: seq<int>, last: Option<real>, sec: int, edge: int)
    requires edge >= sec - PPS_WINDOW_S
    requires last.None? ==> history == [] && buckets == []
    requires last.Some? ==> last.value.Floor <= sec && TotalAfter(buckets, edge) == CountAfter(history, edge)
    ensures TotalAfter(Grown(buckets, sec), edge) == CountAfter(history + [sec], edge)
  {
    assert (history + [sec])[..|history|] == history;
    var k := |buckets| - 1;
    if buckets != [] && buckets[k].sec == sec {
      assert Grown(buckets, sec)[..k] == buckets[..k];
    } else {
      assert Grown(buckets, sec)[..|buckets|] == buckets;
    }
  }

  // ---- the bounded queue ----

  class DropOldestQueue<T> {
    const maxsize: int
    const stats: IngestStats
    var content: seq<T>
    ghost var puts: seq<T>
    ghost var taken: nat
    ghost var discarded: nat
    ghost var cleared: nat

    /** Every element put is still queued or was taken, discarded or cleared; the content is the
        newest suffix of all elements put, within the bound when there is one. */
    ghost predicate Valid()
      reads this
    {
      && |puts| == taken + discarded + cleared + |content|
      && content == puts[|puts| - |content|..]
      && (maxsize > 0 ==> |content| <= maxsize)
    }

    constructor (maxsize: int, stats: IngestStats)
      ensures Valid() && content == [] && puts == [] && this.stats == stats && this.maxsize == maxsize
    {
      this.maxsize, this.stats := maxsize, stats;
      content, puts, taken, discarded, cleared := [], [], 0, 0, 0;
    }

    /** Never waits: a full queue loses its oldest element, and the loss is counted. */
    method Put(item: T)
      requires Valid()
      modifies this, stats`dropped
      ensures Valid() && puts == old(puts) + [item]
      ensures var full := maxsize > 0 && |old(content)| == maxsize;
        && content == (if full then old(content)[1..] else old(content)) + [item]
        && discarded == old(discarded) + (if full then 1 else 0)
        && stats.dropped == old(stats.dropped) + (if full then 1 else 0)
        && taken == old(taken) && cleared == old(cleared)
    {
      while maxsize > 0 && |content| >= maxsize
        invariant content == old(content) || (maxsize > 0 && |old(content)| == maxsize && content == old(content)[1..])
        invariant discarded == old(discarded) + |old(content)| - |content|
        invariant stats.dropped == old(stats.dropped) + |old(content)| - |content|
        invariant puts == old(puts) && taken == old(taken) && cleared == old(cleared)
        decreases |content|
      {
        content := content[1..];
        stats.dropped := stats.dropped + 1;
        discarded := discarded + 1;
      }
      content := content + [item];
      puts := puts + [item];
    }

    method GetNowait() returns (item: Option<T>)
      requires Valid()
      modifies this
      ensures Valid() && puts == old(puts) && discarded == old(discarded) && cleared == old(cleared)
      ensures item.None? <==> old(content) == []
      ensures item.None? ==> content == old(content) && taken == old(taken)
      ensures item.Some? ==> [item.value] + content == old(content) && taken == old(taken) + 1
    {
      if content == [] {
        return None;
      }
      item := Some(content[0]);
      content := content[1..];
      taken := taken + 1;
    }

    /** Throws everything away and says how much. */
    method Clear() returns (n: nat)
      requires Valid()
      modifies this
      ensures Valid() && content == [] && n == |old(content)|
      ensures puts == old(puts) && taken == old(taken) && discarded == old(discarded)
      ensures cleared == old(cleared) + n
    {
      n := 0;
      while content != []
        invariant Valid() && puts == old(puts) && taken == old(taken) && discarded == old(discarded)
        invariant n + |content| == |old(content)| && cleared == old(cleared) + n
        decreases |content|
      {
        content := content[1..];
        n := n + 1;
        cleared := cleared + 1;
      }
    }
  }
}
