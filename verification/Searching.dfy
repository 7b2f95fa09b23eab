/** Binary searches in sorted sequences of reals. */
module Searching {
  predicate Sorted(a: seq<real>) {
    forall i, j :: 0 <= i <= j < |a| ==> a[i] <= a[j]
  }

  /** `searchsorted(a, v, side="left")`: how many entries are below `v`. */
  function Left(a: seq<real>, v: real): (k: nat)
    ensures k <= |a|
  {
    if a == [] || a[0] >= v then 0 else 1 + Left(a[1..], v)
  }

  /** `searchsorted(a, v, side="right")`: how many entries are at most `v`. */
  function Right(a: seq<real>, v: real): (k: nat)
    ensures k <= |a|
  {
    if a == [] || a[0] > v then 0 else 1 + Right(a[1..], v)
  }

  lemma {:induction false} LeftSplits(a: seq<real>, v: real)
    requires Sorted(a)
    ensures forall i :: 0 <= i < |a| ==> (i < Left(a, v) <==> a[i] < v)
  {
    if a != [] && a[0] < v {
      LeftSplits(a[1..], v);
    }
  }

  lemma {:induction false} RightSplits(a: seq<real>, v: real)
    requires Sorted(a)
    ensures forall i :: 0 <= i < |a| ==> (i < Right(a, v) <==> a[i] <= v)
  {
    if a != [] && a[0] <= v {
      RightSplits(a[1..], v);
    }
  }

  /** The binary search behind both: the first index where `below` stops holding. */
  method BinarySearch(a: seq<real>, v: real, right: bool) returns (k: nat)
    requires Sorted(a)
    ensures k == if right then Right(a, v) else Left(a, v)
  {
    k := 0;
    var hi := |a|;
    while k < hi
      invariant 0 <= k <= hi <= |a|
      invariant forall i :: 0 <= i < k ==> a[i] < v || (right && a[i] == v)
      invariant forall i :: hi <= i < |a| ==> a[i] > v || (!right && a[i] == v)
    {
      var mid := (k + hi) / 2;
      if a[mid] < v || (right && a[mid] == v) {
        k := mid + 1;
      } else {
        hi := mid;
      }
    }
    SplitIsUnique(a, v, right, k);
  }

  lemma SplitIsUnique(a: seq<real>, v: real, right: bool, k: nat)
    requires Sorted(a) && k <= |a|
    requires forall i :: 0 <= i < k ==> a[i] < v || (right && a[i] == v)
    requires forall i :: k <= i < |a| ==> a[i] > v || (!right && a[i] == v)
    ensures k == if right then Right(a, v) else Left(a, v)
  {
    LeftSplits(a, v);
    RightSplits(a, v);
    var n := if right then Right(a, v) else Left(a, v);
    assert n < |a| ==> !(a[n] < v || (right && a[n] == v));
    assert k < |a| ==> !(a[k] < v || (right && a[k] == v));
  }

  /** A larger value is never found earlier. */
  lemma {:induction false} SearchesMonotone(a: seq<real>, v: real, w: real)
    requires v <= w
    ensures Left(a, v) <= Left(a, w) && Right(a, v) <= Right(a, w)
  {
    if a != [] {
      SearchesMonotone(a[1..], v, w);
    }
  }

  /** Entries above the value, put at the end, are never reached. */
  lemma {:induction false} RightIsPrefix(a: seq<real>, b: seq<real>, v: real)
    requires forall i :: 0 <= i < |b| ==> b[i] > v
    ensures Right(a + b, v) == Right(a, v)
  {
    if a == [] {
      assert a + b == b;
    } else {
      assert (a + b)[1..] == a[1..] + b;
      RightIsPrefix(a[1..], b, v);
    }
  }
}
