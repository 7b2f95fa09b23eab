/** Which planned visits the walk finds: every one that can be found after the latest found before it. */
module Visits {
  import opened Approach
  import opened Numbers
  import opened Options
  import opened RouteLine
  import Searching
  import opened StopsDetector

  /** The latest moment among the answers, `prev` if there is none. */
  function Latest(prev: Option<real>, at: seq<Option<real>>): Option<real> {
    if at == [] then prev
    else if at[|at| - 1].Some? then at[|at| - 1]
    else Latest(prev, at[..|at| - 1])
  }

  /** What the search says of every visit, each asked for after the latest moment before it. */
  function Answers(find: Finder, visits: seq<Visit>, prev: Option<real>): (at: seq<Option<real>>)
    ensures |at| == |visits|
  {
    if visits == [] then []
    else
      var n := |visits| - 1;
      var at := Answers(find, visits[..n], prev);
      at + [find(visits[n], Latest(prev, at))]
  }

  function ArrivalAt(v: Visit, at: Option<real>): seq<Arrival> {
    if at.None? then [] else [Arrival(v.id, at.value, at.value - v.tb)]
  }

  /** The arrivals of the visits that were found, in plan order. */
  function Kept(visits: seq<Visit>, at: seq<Option<real>>): seq<Arrival>
    requires |at| == |visits|
  {
    if visits == [] then []
    else
      var n := |visits| - 1;
      Kept(visits[..n], at[..n]) + ArrivalAt(visits[n], at[n])
  }

  /** What the walk remembers after `visits`. */
  function Carried(find: Finder, visits: seq<Visit>, prev: Option<real>): Option<real>
    decreases |visits|
  {
    if visits == [] then prev
    else
      var at := find(visits[0], prev);
      Carried(find, visits[1..], if at.None? then prev else at)
  }

  lemma {:induction false} WalkOneMore(find: Finder, visits: seq<Visit>, v: Visit, prev: Option<real>)
    ensures var at := find(v, Carried(find, visits, prev));
      && Walk(find, visits + [v], prev) == Walk(find, visits, prev) + ArrivalAt(v, at)
      && Carried(find, visits + [v], prev) == if at.None? then Carried(find, visits, prev) else at
    decreases |visits|
  {
    if visits == [] {
      assert [v][1..] == [];
      assert [] + [v] == [v];
    } else {
      var at := find(visits[0], prev);
      var next := if at.None? then prev else at;
      assert (visits + [v])[0] == visits[0] && (visits + [v])[1..] == visits[1..] + [v];
      WalkOneMore(find, visits[1..], v, next);
      assert Walk(find, visits + [v], prev) == ArrivalAt(visits[0], at) + Walk(find, visits[1..] + [v], next);
      assert Walk(find, visits, prev) == ArrivalAt(visits[0], at) + Walk(find, visits[1..], next);
    }
  }

  /** The walk keeps exactly the visits that were found, and asks for each after the latest of them. */
  lemma {:induction false} WalkIsComplete(find: Finder, visits: seq<Visit>, prev: Option<real>)
    ensures var at := Answers(find, visits, prev);
      Walk(find, visits, prev) == Kept(visits, at) && Carried(find, visits, prev) == Latest(prev, at)
  {
    if visits != [] {
      var n := |visits| - 1;
      assert visits == visits[..n] + [visits[n]];
      WalkIsComplete(find, visits[..n], prev);
      WalkOneMore(find, visits[..n], visits[n], prev);
      var at := Answers(find, visits, prev);
      assert at[..n] == Answers(find, visits[..n], prev);
    }
  }

  /** Each is asked for after the latest of those before it. */
  lemma {:induction false} AnswerAt(
      find: Finder, visits: seq<Visit>, prev: Option<real>, at: seq<Option<real>>, k: nat)
    requires at == Answers(find, visits, prev) && k < |visits|
    ensures at[k] == find(visits[k], Latest(prev, at[..k]))
  {
    var n := |visits| - 1;
    var before := Answers(find, visits[..n], prev);
    assert at[..n] == before;
    if k < n {
      AnswerAt(find, visits[..n], prev, before, k);
      assert before[..k] == at[..k];
    }
  }

  lemma {:induction false} KeptAt(visits: seq<Visit>, at: seq<Option<real>>, k: nat)
    requires |at| == |visits| && k < |visits| && at[k].Some?
    ensures Arrival(visits[k].id, at[k].value, at[k].value - visits[k].tb) in Kept(visits, at)
  {
    if k < |visits| - 1 {
      KeptAt(visits[..|visits| - 1], at[..|visits| - 1], k);
    }
  }

  /** No arrival is made up: each is that of a visit that was found. */
  lemma {:induction false} KeptFrom(visits: seq<Visit>, at: seq<Option<real>>, a: Arrival)
    requires |at| == |visits| && a in Kept(visits, at)
    ensures exists k :: 0 <= k < |visits| && at[k].Some? && a in ArrivalAt(visits[k], at[k])
  {
    var n := |visits| - 1;
    if a in ArrivalAt(visits[n], at[n]) {
    } else {
      KeptFrom(visits[..n], at[..n], a);
      var k :| 0 <= k < n && at[..n][k].Some? && a in ArrivalAt(visits[..n][k], at[..n][k]);
      assert at[k].Some? && a in ArrivalAt(visits[k], at[k]);
    }
  }

  // ---- the visits asked for, and the points they are looked for in ----

  /** A visit is asked for, as often as it is planned, when its plan is after `since` and not after `until`. */
  lemma {:induction false} SelectedIff(plan: seq<Visit>, until: real, since: Option<real>, v: Visit)
    ensures multiset(Selected(plan, until, since))[v]
         == if v.tb <= until && (since.Some? ==> since.value < v.tb) then multiset(plan)[v] else 0
  {
    if plan != [] {
      assert plan == plan[..|plan| - 1] + [plan[|plan| - 1]];
      SelectedIff(plan[..|plan| - 1], until, since, v);
    }
  }

  /** In plan order: the visits of the first part of a plan come first. */
  lemma {:induction false} SelectedConcat(a: seq<Visit>, b: seq<Visit>, until: real, since: Option<real>)
    ensures Selected(a + b, until, since) == Selected(a, until, since) + Selected(b, until, since)
  {
    if b == [] {
      assert a + b == a;
    } else {
      assert (a + b)[..|a + b| - 1] == a + b[..|b| - 1];
      SelectedConcat(a, b[..|b| - 1], until, since);
    }
  }

  lemma {:induction false} ValidTrackIff(track: seq<Point>, until: real, p: Point)
    ensures multiset(ValidTrack(track, until))[p] == if p.valid && p.t <= until then multiset(track)[p] else 0
  {
    if track != [] {
      assert track == track[..|track| - 1] + [track[|track| - 1]];
      ValidTrackIff(track[..|track| - 1], until, p);
    }
  }

  /** From 12 minutes before its plan, and from the previous arrival, up to 20 minutes after. */
  predicate InTime(v: Visit, prev: Option<real>, t: real) {
    v.tb - 720.0 <= t < v.tb + 1200.0 && (prev.Some? ==> prev.value <= t)
  }

  ghost predicate IsPart(pts: seq<Point>, v: Visit, prev: Option<real>, w: seq<Point>, a: nat, b: nat) {
    && a <= b <= |pts| && w == pts[a..b]
    && (forall k :: 0 <= k < |pts| ==> (a <= k < b <==> InTime(v, prev, pts[k].t)))
  }

  /** The window of a visit is the part of the track in its time. */
  lemma WindowHolds(pts: seq<Point>, v: Visit, prev: Option<real>)
    requires InOrder(pts)
    ensures exists a: nat, b: nat :: IsPart(pts, v, prev, WindowOf(pts, v, prev), a, b)
  {
    var lo := if prev.Some? then Max(v.tb - WINDOW_BEFORE_S, prev.value) else v.tb - WINDOW_BEFORE_S;
    Searching.LeftSplits(Times(pts), lo);
    Searching.LeftSplits(Times(pts), v.tb + WINDOW_AFTER_S);
    var a, b := Searching.Left(Times(pts), lo), Searching.Left(Times(pts), v.tb + WINDOW_AFTER_S);
    var end := if a <= b then b else a;
    assert a > b ==> pts[a..a] == [];
    forall k | 0 <= k < |pts| ensures a <= k < end <==> InTime(v, prev, pts[k].t) {
      assert Times(pts)[k] == pts[k].t;
    }
    assert IsPart(pts, v, prev, WindowOf(pts, v, prev), a, end);
  }

  /** A visit that does not start a trip is found where its window first enters the circle. */
  lemma FoundArrives(
      g: Geometry, pts: seq<Point>, v: Visit, prev: Option<real>, w: seq<Point>, i: nat, t: real)
    requires !v.first && w == WindowOf(pts, v, prev) && Euclidean(g.h) && Roots(g.sqrt)
    requires On(g, w, v, i, t) && AwayAt(g, w, v, i, t) <= 15.0
    ensures exists j: nat, f: real ::
              EntersAt(g, w, v, j, f) && Found(g, pts, v, prev) == Some(TimeAt(w[j], w[j + 1], f))
  {
    ArrivalIsEntry(g, w, v, i, t);
  }

  /** One that does is found where its window first leaves the wider circle. */
  lemma FoundDeparts(g: Geometry, pts: seq<Point>, v: Visit, prev: Option<real>, w: seq<Point>, i: nat, j: nat)
    requires v.first && w == WindowOf(pts, v, prev)
    requires i < j < |w| && Within(g, w[i], v) && !Within(g, w[j], v)
    ensures exists k: nat, f: real ::
              LeavesAt(g, w, v, k, f) && Found(g, pts, v, prev) == Some(TimeAt(w[k - 1], w[k], f))
  {
    DepartureNoneIff(g, w, v);
    DepartureIsLeaving(g, w, v);
  }

  /** The arrivals detected are those of the visits that are found, in plan order. */
  lemma DetectKeepsFound(
      g: Geometry, plan: seq<Visit>, track: seq<Point>, until: real, since: Option<real>,
      find: Finder, visits: seq<Visit>, at: seq<Option<real>>)
    requires visits == Selected(plan, until, since) && find == FinderOf(g, ValidTrack(track, until))
    requires at == Answers(find, visits, None)
    ensures Detect(g, plan, track, until, since) == Kept(visits, at)
  {
    WalkIsComplete(find, visits, None);
  }

  /** Every selected visit whose window yields a moment is in the output, with its delay. */
  lemma DetectIsComplete(
      g: Geometry, plan: seq<Visit>, track: seq<Point>, until: real, since: Option<real>,
      find: Finder, visits: seq<Visit>, at: seq<Option<real>>, k: nat)
    requires visits == Selected(plan, until, since) && find == FinderOf(g, ValidTrack(track, until))
    requires at == Answers(find, visits, None) && k < |visits|
    ensures at[k] == find(visits[k], Latest(None, at[..k]))
    ensures at[k].Some? ==>
              Arrival(visits[k].id, at[k].value, at[k].value - visits[k].tb)
              in Detect(g, plan, track, until, since)
  {
    AnswerAt(find, visits, None, at, k);
    DetectKeepsFound(g, plan, track, until, since, find, visits, at);
    if at[k].Some? {
      KeptAt(visits, at, k);
    }
  }

  /** The last visit that was found. */
  ghost predicate LastFound(at: seq<Option<real>>, k: nat) {
    k < |at| && at[k].Some? && forall j :: k < j < |at| ==> at[j].None?
  }

  lemma {:induction false} KeptEndsWith(visits: seq<Visit>, at: seq<Option<real>>, k: nat)
    requires |at| == |visits| && LastFound(at, k)
    ensures var kept := Kept(visits, at);
      kept != [] && kept[|kept| - 1] == Arrival(visits[k].id, at[k].value, at[k].value - visits[k].tb)
  {
    var n := |visits| - 1;
    if k < n {
      assert at[n].None?;
      KeptEndsWith(visits[..n], at[..n], k);
      assert Kept(visits, at) == Kept(visits[..n], at[..n]) + [];
    }
  }

  lemma {:induction false} NoneKept(visits: seq<Visit>, at: seq<Option<real>>)
    requires |at| == |visits| && forall j :: 0 <= j < |at| ==> at[j].None?
    ensures Kept(visits, at) == []
  {
    if visits != [] {
      NoneKept(visits[..|visits| - 1], at[..|visits| - 1]);
    }
  }

  predicate NoneFound(at: seq<Option<real>>) { forall j :: 0 <= j < |at| ==> at[j].None? }

  lemma DeviationIs(g: Geometry, plan: seq<Visit>, track: seq<Point>, t: real, found: seq<Arrival>)
    requires found == Detect(g, plan, track, t, Some(t - 2700.0))
    ensures OnlineDeviation(g, plan, track, t) == if found == [] then None else Some(found[|found| - 1].delay)
  {
  }

  lemma LastKept(visits: seq<Visit>, at: seq<Option<real>>, k: nat, found: seq<Arrival>)
    requires |at| == |visits| && found == Kept(visits, at)
    ensures LastFound(at, k) ==> found != [] && found[|found| - 1].delay == at[k].value - visits[k].tb
    ensures NoneFound(at) ==> found == []
  {
    if LastFound(at, k) {
      KeptEndsWith(visits, at, k);
    }
    if NoneFound(at) {
      NoneKept(visits, at);
    }
  }

  /** What is known of a deviation: that of the last visit found, none when none was found. */
  ghost predicate DeviationOf(r: Option<real>, visits: seq<Visit>, at: seq<Option<real>>, k: nat)
    requires |at| == |visits|
  {
    && (LastFound(at, k) ==> r == Some(at[k].value - visits[k].tb))
    && (NoneFound(at) ==> r == None)
  }

  lemma DeviationOfLast(
      g: Geometry, plan: seq<Visit>, track: seq<Point>, t: real, visits: seq<Visit>, at: seq<Option<real>>, k: nat)
    requires |at| == |visits| && Detect(g, plan, track, t, Some(t - 2700.0)) == Kept(visits, at)
    ensures DeviationOf(OnlineDeviation(g, plan, track, t), visits, at, k)
  {
    DeviationIs(g, plan, track, t, Kept(visits, at));
    LastKept(visits, at, k, Kept(visits, at));
  }

  /** The deviation of a vehicle now: how late it reached the last visit found among those planned in the last 45
      minutes; none when none was found. */
  lemma OnlineDeviationIs(
      g: Geometry, plan: seq<Visit>, track: seq<Point>, t: real, find: Finder, visits: seq<Visit>,
      at: seq<Option<real>>, k: nat)
    requires visits == Selected(plan, t, Some(t - 2700.0)) && find == FinderOf(g, ValidTrack(track, t))
    requires at == Answers(find, visits, None)
    ensures DeviationOf(OnlineDeviation(g, plan, track, t), visits, at, k)
  {
    DetectKeepsFound(g, plan, track, t, Some(t - 2700.0), find, visits, at);
    DeviationOfLast(g, plan, track, t, visits, at, k);
  }
}
