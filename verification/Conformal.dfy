/** Split-conformal widening of the predicted quantiles: the factor and what it covers. */
module Conformal {
  import opened Numbers
  import opened Searching

  const EPS := 0.000001

  /** One row of predictions: the 10, 50 and 90 per cent quantiles. */
  datatype Quantiles = Quantiles(q10: real, q50: real, q90: real)

  function Ceil(v: real): int { -((-v).Floor) }

  /** How many gaps to the quantile on its side `y` lies away from the median. */
  function Score(q: Quantiles, y: real): real {
    Max((q.q50 - y) / Max(q.q50 - q.q10, EPS), (y - q.q50) / Max(q.q90 - q.q50, EPS))
  }

  function Scores(q: seq<Quantiles>, y: seq<real>): (s: seq<real>)
    requires |q| == |y|
    ensures |s| == |q|
  {
    seq(|q|, i requires 0 <= i < |q| => Score(q[i], y[i]))
  }

  /** Stretches the outer quantiles away from the median. */
  function Widen(q: Quantiles, scale: real): Quantiles {
    Quantiles(q.q50 - scale * (q.q50 - q.q10), q.q50, q.q50 + scale * (q.q90 - q.q50))
  }

  /** Widening keeps the median and stretches both gaps by the factor; two times is once by the product. */
  lemma WidenScales(q: Quantiles, scale: real, again: real)
    ensures var w := Widen(q, scale);
      && w.q50 == q.q50 && w.q50 - w.q10 == scale * (q.q50 - q.q10) && w.q90 - w.q50 == scale * (q.q90 - q.q50)
      && Widen(w, again) == Widen(q, again * scale)
  {
    var low, high := q.q50 - q.q10, q.q90 - q.q50;
    assert again * (scale * low) == again * scale * low && again * (scale * high) == again * scale * high;
  }

  predicate Covers(q: Quantiles, y: real) { q.q10 <= y <= q.q90 }

  predicate Ordered(q: Quantiles) { q.q10 <= q.q50 <= q.q90 }

  predicate Apart(q: Quantiles) { q.q50 - q.q10 >= EPS && q.q90 - q.q50 >= EPS }

  // ---- one row ----

  lemma QuotientAtMost(a: real, g: real, k: real)
    requires g > 0.0
    ensures a / g <= k <==> a <= k * g
  {
    var v := a / g;
    assert v * g == a;
    if v <= k {
      assert (k - v) * g >= 0.0;
      assert k * g - v * g == (k - v) * g;
    } else {
      assert (v - k) * g > 0.0;
      assert v * g - k * g == (v - k) * g;
    }
  }

  lemma QuotientAtLeast(a: real, g: real, k: real)
    requires g > 0.0
    ensures a / g >= k <==> a >= k * g
  {
    QuotientAtMost(-a, g, -k);
    assert -a / g == -(a / g) && -k * g == -(k * g);
  }

  /** With gaps of at least `EPS` the widened row covers `y` exactly when its score is within the
      factor. */
  lemma CoversIff(q: Quantiles, y: real, scale: real)
    requires Apart(q)
    ensures Covers(Widen(q, scale), y) <==> Score(q, y) <= scale
  {
    var low, high := q.q50 - q.q10, q.q90 - q.q50;
    QuotientAtMost(q.q50 - y, low, scale);
    QuotientAtMost(y - q.q50, high, scale);
    assert Score(q, y) == Max((q.q50 - y) / low, (y - q.q50) / high);
    assert Widen(q, scale) == Quantiles(q.q50 - scale * low, q.q50, q.q50 + scale * high);
  }

  lemma ScoreNonnegative(q: Quantiles, y: real)
    ensures Score(q, y) >= 0.0
  {
    if y <= q.q50 {
      QuotientAtMost(y - q.q50, Max(q.q50 - q.q10, EPS), 0.0);
      assert (q.q50 - y) / Max(q.q50 - q.q10, EPS) >= 0.0;
    } else {
      assert (y - q.q50) / Max(q.q90 - q.q50, EPS) >= 0.0;
    }
  }

  /** Widening keeps ordered quantiles ordered exactly when no gap is turned around. */
  lemma WidenKeepsOrder(q: Quantiles, scale: real)
    requires Ordered(q) && scale >= 0.0
    ensures Ordered(Widen(q, scale))
  {
    assert scale * (q.q50 - q.q10) >= 0.0 && scale * (q.q90 - q.q50) >= 0.0;
  }

  /** Whether the score of a row says if it covers `y` once widened. */
  predicate Faithful(q: Quantiles, y: real, scale: real) {
    Covers(Widen(q, scale), y) <==> Score(q, y) <= scale
  }

  /** The score of a row of ordered quantiles is faithful exactly when both gaps are at least `EPS`:
      a narrower gap lets an observation one `EPS` away escape a factor of one. */
  lemma FaithfulIffApart(q: Quantiles)
    requires Ordered(q)
    ensures Apart(q) <==> forall y, scale :: Faithful(q, y, scale)
  {
    if Apart(q) {
      forall y, scale ensures Faithful(q, y, scale) {
        CoversIff(q, y, scale);
      }
    } else if q.q50 - q.q10 < EPS {
      assert Score(q, q.q50 - EPS) <= 1.0 by {
        QuotientAtMost(-EPS, Max(q.q90 - q.q50, EPS), 1.0);
      }
      assert !Faithful(q, q.q50 - EPS, 1.0);
    } else {
      assert Score(q, q.q50 + EPS) <= 1.0 by {
        QuotientAtMost(-EPS, Max(q.q50 - q.q10, EPS), 1.0);
      }
      assert !Faithful(q, q.q50 + EPS, 1.0);
    }
  }

  // ---- order statistics ----

  function Insert(a: seq<real>, v: real): (r: seq<real>)
    ensures |r| == |a| + 1 && multiset(r) == multiset(a) + multiset{v}
  {
    if a == [] || v <= a[0] then [v] + a
    else
      assert a == [a[0]] + a[1..];
      [a[0]] + Insert(a[1..], v)
  }

  lemma SortedCons(x: real, a: seq<real>)
    requires Sorted(a) && (a != [] ==> x <= a[0])
    ensures Sorted([x] + a)
  {
  }

  lemma {:induction false} InsertSorts(a: seq<real>, v: real)
    requires Sorted(a)
    ensures Sorted(Insert(a, v)) && Insert(a, v)[0] == (if a == [] then v else Min(a[0], v))
  {
    if a == [] || v <= a[0] {
      SortedCons(v, a);
    } else {
      InsertSorts(a[1..], v);
      SortedCons(a[0], Insert(a[1..], v));
    }
  }

  function Sort(a: seq<real>): (r: seq<real>)
    ensures Sorted(r) && multiset(r) == multiset(a) && |r| == |a|
  {
    if a == [] then []
    else
      var init, last := a[..|a| - 1], a[|a| - 1];
      assert a == init + [last];
      InsertSorts(Sort(init), last);
      Insert(Sort(init), last)
  }

  /** How many entries are at most `v`. */
  function CountAtMost(a: seq<real>, v: real): (n: nat)
    ensures n <= |a|
  {
    if a == [] then 0 else CountAtMost(a[..|a| - 1], v) + (if a[|a| - 1] <= v then 1 else 0)
  }

  lemma {:induction false} CountInsert(a: seq<real>, x: real, v: real)
    ensures CountAtMost(Insert(a, x), v) == CountAtMost(a, v) + (if x <= v then 1 else 0)
  {
    if a == [] || x <= a[0] {
      CountPrepend(x, a, v);
    } else {
      CountInsert(a[1..], x, v);
      CountPrepend(a[0], Insert(a[1..], x), v);
      CountPrepend(a[0], a[1..], v);
      assert a == [a[0]] + a[1..];
    }
  }

  lemma {:induction false} CountPrepend(x: real, a: seq<real>, v: real)
    ensures CountAtMost([x] + a, v) == CountAtMost(a, v) + (if x <= v then 1 else 0)
  {
    if a != [] {
      CountPrepend(x, a[..|a| - 1], v);
      assert ([x] + a)[..|a|] == [x] + a[..|a| - 1];
    }
  }

  lemma {:induction false} CountSort(a: seq<real>, v: real)
    ensures CountAtMost(Sort(a), v) == CountAtMost(a, v)
  {
    if a != [] {
      CountSort(a[..|a| - 1], v);
      CountInsert(Sort(a[..|a| - 1]), a[|a| - 1], v);
    }
  }

  /** At least `k + 1` entries are at most the one of rank `k`. */
  lemma {:induction false} RankCounts(a: seq<real>, k: nat, n: nat)
    requires Sorted(a) && k < |a| && n <= |a|
    ensures CountAtMost(a[..n], a[k]) >= (if n <= k then n else k + 1)
  {
    if n > 0 {
      assert a[..n][..n - 1] == a[..n - 1];
      RankCounts(a, k, n - 1);
    }
  }

  // ---- the factor ----

  /** The number of rows asked for: `ceil((n + 1) * target)`, and no more than there are. */
  function Asked(n: nat, target: real): int
    requires n > 0
  {
    var m := Ceil((n + 1) as real * target);
    if m < n then m else n
  }

  /** The rank the "higher" quantile of that level takes. */
  function Rank(n: nat, target: real): int
    requires n > 0
  {
    var level := Min(1.0, Ceil((n + 1) as real * target) as real / n as real);
    Ceil(level * (n - 1) as real)
  }

  /** The rank is the number of rows asked for, except at the ends: the factor is one row more
      generous than the level alone demands. */
  lemma RankIs(n: nat, target: real)
    requires n > 0 && target >= 0.0
    ensures 0 <= Asked(n, target) <= n
    ensures Rank(n, target) == if Asked(n, target) == n then n - 1 else Asked(n, target)
  {
    var m := Ceil((n + 1) as real * target);
    assert (n + 1) as real * target >= 0.0;
    assert m >= 0;
    var share := m as real / n as real;
    assert share * n as real == m as real;
    if m >= n {
      QuotientAtLeast(m as real, n as real, 1.0);
      assert Min(1.0, share) == 1.0;
    } else {
      assert share < 1.0 by {
        QuotientAtMost(m as real, n as real, 1.0);
      }
      assert share >= 0.0;
      assert share * (n - 1) as real == m as real - share by {
        assert (n - 1) as real == n as real - 1.0;
      }
      if m == 0 {
        assert share == 0.0;
      }
    }
  }

  /** The conformal factor of a calibration set. */
  function Scale(q: seq<Quantiles>, y: seq<real>, target: real): real
    requires |q| == |y| > 0 && 0.0 <= target
  {
    RankIs(|q|, target);
    Sort(Scores(q, y))[Rank(|q|, target)]
  }

  lemma {:induction false} RankCountsBelow(a: seq<real>, k: nat, v: real, n: nat)
    requires Sorted(a) && k < |a| && v < a[k] && n <= |a|
    ensures CountAtMost(a[..n], v) <= k
  {
    if n > 0 {
      assert a[..n][..n - 1] == a[..n - 1];
      if n <= k {
        CountIsAtMost(a[..n], v);
      } else {
        RankCountsBelow(a, k, v, n - 1);
      }
    }
  }

  lemma CountIsAtMost(a: seq<real>, v: real)
    ensures CountAtMost(a, v) <= |a|
  {
  }

  /** The factor is the score of that rank: more than `Rank` scores are at most the factor, and no smaller one has as
      many. */
  lemma ScaleIsOfRank(q: seq<Quantiles>, y: seq<real>, target: real, v: real)
    requires |q| == |y| > 0 && 0.0 <= target
    ensures var scores, scale, k := Scores(q, y), Scale(q, y, target), Rank(|q|, target);
      && scale in scores && CountAtMost(scores, scale) > k
      && (v < scale ==> CountAtMost(scores, v) <= k)
  {
    RankIs(|q|, target);
    var scores, k := Scores(q, y), Rank(|q|, target);
    var sorted, scale := Sort(scores), Sort(scores)[k];
    assert sorted[..|sorted|] == sorted;
    RankCounts(sorted, k, |sorted|);
    CountSort(scores, scale);
    CountSort(scores, v);
    if v < scale {
      RankCountsBelow(sorted, k, v, |sorted|);
    }
    assert scale in multiset(sorted);
  }

  function CountCovered(q: seq<Quantiles>, y: seq<real>, scale: real): nat
    requires |q| == |y|
  {
    if q == [] then 0
    else
      var k := |q| - 1;
      CountCovered(q[..k], y[..k], scale) + (if Covers(Widen(q[k], scale), y[k]) then 1 else 0)
  }

  lemma {:induction false} CoveredAreCounted(q: seq<Quantiles>, y: seq<real>, scale: real)
    requires |q| == |y| && forall i :: 0 <= i < |q| ==> Apart(q[i])
    ensures CountCovered(q, y, scale) == CountAtMost(Scores(q, y), scale)
  {
    if q != [] {
      var k := |q| - 1;
      assert Scores(q, y)[..k] == Scores(q[..k], y[..k]);
      CoveredAreCounted(q[..k], y[..k], scale);
      CoversIff(q[k], y[k], scale);
    }
  }

  /** Widening by the conformal factor covers at least the rows asked for, and one more unless that
      is all of them. */
  lemma ConformalCovers(q: seq<Quantiles>, y: seq<real>, target: real)
    requires |q| == |y| > 0 && 0.0 <= target && forall i :: 0 <= i < |q| ==> Apart(q[i])
    ensures CountCovered(q, y, Scale(q, y, target)) >= Asked(|q|, target)
    ensures Asked(|q|, target) < |q| ==> CountCovered(q, y, Scale(q, y, target)) >= Asked(|q|, target) + 1
  {
    var scores, k := Scores(q, y), Rank(|q|, target);
    RankIs(|q|, target);
    var scale := Sort(scores)[k];
    CoveredAreCounted(q, y, scale);
    CountSort(scores, scale);
    RankCounts(Sort(scores), k, |scores|);
    assert Sort(scores)[..|scores|] == Sort(scores);
  }

  // ---- narrow gaps ----

  lemma {:induction false} AllAtMost(a: seq<real>, v: real, i: nat)
    requires CountAtMost(a, v) == |a| && i < |a|
    ensures a[i] <= v
  {
    if i < |a| - 1 {
      AllAtMost(a[..|a| - 1], v, i);
    }
  }

  lemma {:induction false} OneEscapes(q: seq<Quantiles>, y: seq<real>, scale: real, j: nat)
    requires |q| == |y| && j < |q| && !Covers(Widen(q[j], scale), y[j])
    ensures CountCovered(q, y, scale) < |q|
  {
    var k := |q| - 1;
    CoveredAtMost(q[..k], y[..k], scale);
    if j < k {
      OneEscapes(q[..k], y[..k], scale, j);
    }
  }

  lemma {:induction false} CoveredAtMost(q: seq<Quantiles>, y: seq<real>, scale: real)
    requires |q| == |y|
    ensures CountCovered(q, y, scale) <= |q|
  {
    if q != [] {
      CoveredAtMost(q[..|q| - 1], y[..|q| - 1], scale);
    }
  }

  lemma ScaleIsScore(q: seq<Quantiles>, y: seq<real>, target: real) returns (i: nat)
    requires |q| == |y| > 0 && 0.0 <= target
    ensures i < |q| && Scale(q, y, target) == Score(q[i], y[i])
  {
    RankIs(|q|, target);
    var scores := Scores(q, y);
    assert Scale(q, y, target) in multiset(Sort(scores));
    assert Scale(q, y, target) in scores;
    i :| 0 <= i < |scores| && scores[i] == Scale(q, y, target);
  }

  lemma AllAsked(n: nat)
    requires n > 0
    ensures Asked(n, 1.0) == n && Rank(n, 1.0) == n - 1
  {
    RankIs(n, 1.0);
  }

  /** Asked for all rows, the factor is the largest score. */
  lemma ScaleOfAll(q: seq<Quantiles>, y: seq<real>, i: nat)
    requires |q| == |y| && i < |q|
    ensures Score(q[i], y[i]) <= Scale(q, y, 1.0)
  {
    var scores, n := Scores(q, y), |q|;
    AllAsked(n);
    RankCounts(Sort(scores), n - 1, n);
    assert Sort(scores)[..n] == Sort(scores);
    CountSort(scores, Scale(q, y, 1.0));
    AllAtMost(scores, Scale(q, y, 1.0), i);
  }

  /** The observation one `EPS` off the median on a narrow side. */
  function Escape(q: Quantiles): real {
    if q.q50 - q.q10 < EPS then q.q50 - EPS else q.q50 + EPS
  }

  lemma EscapeIsMissed(q: Quantiles)
    requires Ordered(q) && !Apart(q)
    ensures Score(q, Escape(q)) == 1.0 && !Covers(Widen(q, 1.0), Escape(q))
  {
    assert Widen(q, 1.0) == q;
    assert EPS / EPS == 1.0;
    if q.q50 - q.q10 < EPS {
      QuotientAtMost(-EPS, Max(q.q90 - q.q50, EPS), 0.0);
    } else {
      QuotientAtMost(-EPS, Max(q.q50 - q.q10, EPS), 0.0);
    }
  }

  lemma ScoreOfMedian(q: Quantiles)
    ensures Score(q, q.q50) == 0.0
  {
  }

  function Observed(q: seq<Quantiles>, j: nat): (y: seq<real>)
    requires j < |q|
    ensures |y| == |q|
  {
    seq(|q|, i requires 0 <= i < |q| => if i == j then Escape(q[i]) else q[i].q50)
  }

  /** With every other row at its median, the row with a narrow gap escapes a factor of one. */
  lemma NarrowGapEscapes(q: seq<Quantiles>, j: nat)
    requires j < |q| && Ordered(q[j]) && !Apart(q[j])
    ensures Scale(q, Observed(q, j), 1.0) == 1.0
    ensures CountCovered(q, Observed(q, j), 1.0) < Asked(|q|, 1.0) == |q|
  {
    var y := Observed(q, j);
    EscapeIsMissed(q[j]);
    ScaleOfAll(q, y, j);
    var i := ScaleIsScore(q, y, 1.0);
    if i != j {
      ScoreOfMedian(q[i]);
    }
    OneEscapes(q, y, 1.0, j);
    AllAsked(|q|);
  }

  /** Whatever is observed and whatever share is asked for, that many rows are covered. */
  ghost predicate AlwaysCovers(q: seq<Quantiles>)
    requires q != []
  {
    forall y: seq<real>, target: real :: |y| == |q| && target >= 0.0 ==>
      CountCovered(q, y, Scale(q, y, target)) >= Asked(|q|, target)
  }

  /** Conformal widening keeps its promise on a calibration set exactly when no gap is narrower than the
      guard. */
  lemma AlwaysCoversIffApart(q: seq<Quantiles>)
    requires q != [] && forall i :: 0 <= i < |q| ==> Ordered(q[i])
    ensures AlwaysCovers(q) <==> forall i :: 0 <= i < |q| ==> Apart(q[i])
  {
    if forall i :: 0 <= i < |q| ==> Apart(q[i]) {
      forall y: seq<real>, target: real | |y| == |q| && target >= 0.0
        ensures CountCovered(q, y, Scale(q, y, target)) >= Asked(|q|, target)
      {
        ConformalCovers(q, y, target);
      }
    } else {
      var j :| 0 <= j < |q| && !Apart(q[j]);
      NarrowGapEscapes(q, j);
      assert !AlwaysCovers(q);
    }
  }

  /** One row without gaps, one observation off by the guard, four fifths asked for: nothing is covered. */
  lemma OneRowEscapes()
    ensures var q, y := [Quantiles(0.0, 0.0, 0.0)], [EPS];
      && Asked(1, 0.8) == 1 && Scale(q, y, 0.8) == 1.0
      && CountCovered(q, y, Scale(q, y, 0.8)) == 0
  {
    var q, y := [Quantiles(0.0, 0.0, 0.0)], [EPS];
    RankIs(1, 0.8);
    assert (-1.6 as real).Floor == -2;
    var i := ScaleIsScore(q, y, 0.8);
    assert EPS / EPS == 1.0;
    OneEscapes(q, y, 1.0, 0);
  }

  // ---- the factor keeps order ----

  /** The factor is never negative, so widening by it keeps every row of ordered quantiles ordered. */
  lemma ConformalKeepsOrder(q: seq<Quantiles>, y: seq<real>, target: real, row: Quantiles)
    requires |q| == |y| > 0 && 0.0 <= target && Ordered(row)
    ensures Scale(q, y, target) >= 0.0 && Ordered(Widen(row, Scale(q, y, target)))
  {
    var i := ScaleIsScore(q, y, target);
    ScoreNonnegative(q[i], y[i]);
    WidenKeepsOrder(row, Scale(q, y, target));
  }

  // ---- the probability of exceeding a threshold ----

  /** How far the distribution rises over a stretch `d`, four tenths to a gap. */
  function Rise(gap: real, d: real): real { d * (0.4 / Max(gap, EPS)) }

  /** The distribution through the three quantiles, linear between them and beyond. */
  function Cdf(q: Quantiles, x: real): real {
    var low, high := q.q50 - q.q10, q.q90 - q.q50;
    if x < q.q10 then 0.1 - Rise(low, q.q10 - x)
    else if x > q.q90 then 0.9 + Rise(high, x - q.q90)
    else if x <= q.q50 then 0.1 + Rise(low, x - q.q10)
    else 0.5 + Rise(high, x - q.q50)
  }

  function PExceed(q: Quantiles, x: real): real { 1.0 - Min(Max(Cdf(q, x), 0.0), 1.0) }

  lemma RiseBounds(gap: real, d: real)
    requires 0.0 <= d
    ensures 0.0 <= Rise(gap, d) && (d <= gap ==> Rise(gap, d) <= 0.4)
  {
    var m := Max(gap, EPS);
    var v := 0.4 / m;
    assert v * m == 0.4;
    assert v >= 0.0;
    assert d * v >= 0.0;
    if d <= gap {
      assert (m - d) * v >= 0.0;
      assert m * v - d * v == (m - d) * v;
    }
  }

  lemma RiseMonotone(gap: real, d: real, d1: real)
    requires d <= d1
    ensures Rise(gap, d) <= Rise(gap, d1)
  {
    RiseBounds(gap, d1 - d);
    var v := 0.4 / Max(gap, EPS);
    assert d1 * v - d * v == (d1 - d) * v;
  }

  /** On which side of one half, and of the outer levels, the distribution is. */
  lemma CdfLevels(q: Quantiles, x: real)
    requires Ordered(q)
    ensures x <= q.q50 ==> Cdf(q, x) <= 0.5
    ensures q.q50 < x ==> Cdf(q, x) >= 0.5
    ensures x < q.q10 ==> Cdf(q, x) <= 0.1
    ensures q.q10 <= x ==> Cdf(q, x) >= 0.1
    ensures x <= q.q90 ==> Cdf(q, x) <= 0.9
    ensures q.q90 < x ==> Cdf(q, x) >= 0.9
  {
    var low, high := q.q50 - q.q10, q.q90 - q.q50;
    if x < q.q10 {
      RiseBounds(low, q.q10 - x);
    } else if x > q.q90 {
      RiseBounds(high, x - q.q90);
    } else if x <= q.q50 {
      RiseBounds(low, x - q.q10);
    } else {
      RiseBounds(high, x - q.q50);
    }
  }

  lemma RiseIs(gap: real, d: real)
    requires gap >= EPS
    ensures Rise(gap, d) * gap == 0.4 * d
  {
    var v := 0.4 / gap;
    assert v * gap == 0.4;
    assert d * v * gap == d * (v * gap);
  }

  /** The distribution passes a tenth, one half and nine tenths at the quantiles, evenly between them and beyond. */
  lemma CdfIsEven(q: Quantiles, x: real)
    requires Apart(q)
    ensures x <= q.q50 ==> (Cdf(q, x) - 0.1) * (q.q50 - q.q10) == 0.4 * (x - q.q10)
    ensures q.q50 < x ==> (Cdf(q, x) - 0.5) * (q.q90 - q.q50) == 0.4 * (x - q.q50)
  {
    var low, high := q.q50 - q.q10, q.q90 - q.q50;
    if x < q.q10 {
      RiseIs(low, q.q10 - x);
    } else if x <= q.q50 {
      RiseIs(low, x - q.q10);
    } else if x <= q.q90 {
      RiseIs(high, x - q.q50);
    } else {
      RiseIs(high, x - q.q90);
    }
  }

  /** So the quantiles are exceeded with their own probabilities. */
  lemma PExceedAtQuantiles(q: Quantiles)
    requires Apart(q)
    ensures PExceed(q, q.q10) == 0.9 && PExceed(q, q.q50) == 0.5 && PExceed(q, q.q90) == 0.1
  {
    RiseIs(q.q50 - q.q10, 0.0);
    RiseIs(q.q50 - q.q10, q.q50 - q.q10);
    RiseIs(q.q90 - q.q50, q.q90 - q.q50);
  }

  /** A higher threshold is never more likely to be exceeded. */
  lemma PExceedFalls(q: Quantiles, x: real, x1: real)
    requires Ordered(q) && x <= x1
    ensures 0.0 <= PExceed(q, x1) <= PExceed(q, x) <= 1.0
  {
    var low, high := q.q50 - q.q10, q.q90 - q.q50;
    CdfLevels(q, x);
    CdfLevels(q, x1);
    if x1 < q.q10 {
      RiseMonotone(low, q.q10 - x1, q.q10 - x);
    } else if q.q90 < x {
      RiseMonotone(high, x - q.q90, x1 - q.q90);
    } else if q.q10 <= x && x1 <= q.q50 {
      RiseMonotone(low, x - q.q10, x1 - q.q10);
    } else if q.q50 < x && x1 <= q.q90 {
      RiseMonotone(high, x - q.q50, x1 - q.q50);
    }
  }
}
