/** The part of a vehicle's track that the features of a forecast at time `t` are computed from. */
module Features {
  import opened Options
  import opened Searching
  import S = StopsDetector

  const ROUTE_WINDOW_S := 2400.0

  /** How many points there are up to a moment. */
  function UpTo(track: seq<S.Point>, t: real): (n: nat)
    requires S.InOrder(track)
    ensures n <= |track| && forall i :: 0 <= i < |track| ==> (i < n <==> track[i].t <= t)
  {
    RightSplits(S.Times(track), t);
    assert forall i :: 0 <= i < |track| ==> S.Times(track)[i] == track[i].t;
    Right(S.Times(track), t)
  }

  /** The points up to `t` in the window before it; the latest one even if it is older. */
  function TrackSlice(track: seq<S.Point>, t: real): seq<S.Point>
    requires S.InOrder(track)
  {
    var n, a := UpTo(track, t), UpTo(track, t - ROUTE_WINDOW_S);
    if n == 0 then [] else track[if a < n then a else n - 1..n]
  }

  /** The age of the latest point, if there is any. */
  function Stale(track: seq<S.Point>, t: real): Option<real>
    requires S.InOrder(track)
  {
    var s := TrackSlice(track, t);
    if s == [] then None else Some(t - s[|s| - 1].t)
  }

  lemma UpToIsAsOf(track: seq<S.Point>, later: seq<S.Point>, t: real)
    requires S.InOrder(track + later) && S.InOrder(track) && forall i :: 0 <= i < |later| ==> later[i].t > t
    ensures UpTo(track + later, t) == UpTo(track, t)
  {
    assert S.Times(track + later) == S.Times(track) + S.Times(later);
    RightIsPrefix(S.Times(track), S.Times(later), t);
  }

  /** Points after `t` change neither the slice nor anything computed from it. */
  lemma SliceIsAsOf(track: seq<S.Point>, later: seq<S.Point>, t: real)
    requires S.InOrder(track + later) && S.InOrder(track) && forall i :: 0 <= i < |later| ==> later[i].t > t
    ensures TrackSlice(track + later, t) == TrackSlice(track, t)
  {
    UpToIsAsOf(track, later, t);
    UpToIsAsOf(track, later, t - ROUTE_WINDOW_S);
  }

  lemma WindowHolds(track: seq<S.Point>, t: real, i: nat)
    requires S.InOrder(track) && i < |track| && t - 2400.0 < track[i].t <= t
    ensures track[i] in TrackSlice(track, t)
  {
    var n, a := UpTo(track, t), UpTo(track, t - ROUTE_WINDOW_S);
    assert a <= i < n;
    assert track[a..n][i - a] == track[i];
  }

  lemma WindowOnly(track: seq<S.Point>, t: real, i: nat)
    requires S.InOrder(track) && |TrackSlice(track, t)| > 1 && i < |TrackSlice(track, t)|
    ensures t - 2400.0 < TrackSlice(track, t)[i].t <= t
  {
    var n, a := UpTo(track, t), UpTo(track, t - ROUTE_WINDOW_S);
    assert a < n;
    assert track[a..n][i] == track[a + i];
  }

  lemma EndsWithLatest(track: seq<S.Point>, t: real, i: nat)
    requires S.InOrder(track) && i < |track| && track[i].t <= t
    ensures TrackSlice(track, t) != [] && track[i].t <= TrackSlice(track, t)[|TrackSlice(track, t)| - 1].t <= t
  {
    var n, s := UpTo(track, t), TrackSlice(track, t);
    assert i < n;
    assert s[|s| - 1] == track[n - 1];
  }

  /** The slice is empty only when no point is old enough; otherwise it ends with the latest point up
      to `t` and, unless that one is alone, holds exactly the points of the window. */
  lemma SliceIsWindow(track: seq<S.Point>, t: real)
    requires S.InOrder(track)
    ensures var s := TrackSlice(track, t);
      && (s == [] <==> forall i :: 0 <= i < |track| ==> track[i].t > t)
      && (forall i :: 0 <= i < |track| && t - 2400.0 < track[i].t <= t ==> track[i] in s)
      && (|s| > 1 ==> forall i :: 0 <= i < |s| ==> t - 2400.0 < s[i].t <= t)
      && (s != [] ==> forall i :: 0 <= i < |track| && track[i].t <= t ==> track[i].t <= s[|s| - 1].t <= t)
      && Stale(track, t) == (if s == [] then None else Some(t - s[|s| - 1].t))
      && (Stale(track, t).Some? ==> Stale(track, t).value >= 0.0)
  {
    var s := TrackSlice(track, t);
    forall i | 0 <= i < |track| && t - 2400.0 < track[i].t <= t ensures track[i] in s {
      WindowHolds(track, t, i);
    }
    if |s| > 1 {
      forall i | 0 <= i < |s| ensures t - 2400.0 < s[i].t <= t {
        WindowOnly(track, t, i);
      }
    }
    forall i | 0 <= i < |track| && track[i].t <= t ensures s != [] && track[i].t <= s[|s| - 1].t <= t {
      EndsWithLatest(track, t, i);
    }
    if s != [] {
      EndsWithLatest(track, t, UpTo(track, t) - 1);
    }
  }
}
