/** A trip as a polyline through its planned stops: windows, projections, planned time.

    Lengths and times are reals. The distance function is a parameter of which only
    nonnegativity is used; a heading is given as the sine and cosine of the course. */
module RouteLine {
  import opened Numbers
  import opened Options
  import opened Searching

  type Distance = h: (real, real) -> real | forall x, y :: h(x, y) >= 0.0 witness ((x, y) => 0.0)

  datatype TripLine = TripLine(
    trip: int, rows: seq<int>, x: seq<real>, y: seq<real>, cum: seq<real>, tb: seq<real>,
    segLen: seq<real>, ux: seq<real>, uy: seq<real>)
  {
    /** What building a line from two or more stops of a plan sorted by time gives. */
    ghost predicate Valid() {
      && |cum| >= 2 && |rows| == |x| == |y| == |tb| == |cum|
      && |segLen| == |ux| == |uy| == |cum| - 1
      && cum[0] == 0.0
      && (forall i :: 0 <= i < |segLen| ==> segLen[i] >= 0.0 && cum[i + 1] == cum[i] + segLen[i])
      && Sorted(cum) && Sorted(tb)
    }

    function Length(): real
      requires |cum| > 0
    {
      cum[|cum| - 1]
    }

    function Start(): real
      requires |tb| > 0
    {
      tb[0]
    }

    function End(): real
      requires |tb| > 0
    {
      tb[|tb| - 1]
    }
  }

  // ---- windows ----

  /** The segments `[a, b)` that meet the distances `[lo, hi]`. */
  function Window(line: TripLine, lo: real, hi: real): (int, int) {
    var a := Right(line.cum, lo) - 1;
    var b := Left(line.cum, hi);
    (MaxInt(a, 0), MinInt(MaxInt(b, a + 1), |line.segLen|))
  }

  /** A window is a nonempty range of segments exactly when it starts before the end of the line,
      provided it reaches past the beginning. */
  lemma WindowNonempty(line: TripLine, lo: real, hi: real)
    requires line.Valid() && lo <= hi && hi > 0.0
    ensures var (a, b) := Window(line, lo, hi);
      && 0 <= a && b <= |line.segLen|
      && (a < b <==> lo < line.Length())
  {
    LeftSplits(line.cum, hi);
    RightSplits(line.cum, lo);
  }

  /** A window that starts before the end of the line holds exactly the segments that begin before `hi` and
      end after `lo`. */
  lemma WindowIs(line: TripLine, lo: real, hi: real, k: nat)
    requires line.Valid() && lo < line.Length() && lo < hi && 0.0 < hi
    ensures var (a, b) := Window(line, lo, hi);
      a <= k < b <==> k < |line.segLen| && line.cum[k] < hi && lo < line.cum[k + 1]
  {
    LeftSplits(line.cum, hi);
    RightSplits(line.cum, lo);
    var r, l := Right(line.cum, lo), Left(line.cum, hi);
    assert r > 0 ==> line.cum[r - 1] <= lo;
    assert l < |line.cum| ==> line.cum[l] >= hi;
  }

  // ---- projection ----

  datatype Projection = Projection(s: real, dist: real, cos: real)

  datatype Heading = Heading(sin: real, cos: real)

  /** How far in the direction `(c, d)` from `(x, y)` the foot of the perpendicular from a point lies, kept
      within `len`. */
  function Foot(x: real, y: real, c: real, d: real, len: real, px: real, py: real): real {
    Clip((px - x) * c + (py - y) * d, 0.0, len)
  }

  /** One coordinate of the point `u` metres on, relative to `px`. */
  function Offset(x: real, c: real, u: real, px: real): real { x + u * c - px }

  /** The projection of a point onto segment `k`. */
  function ProjectOn(h: Distance, line: TripLine, px: real, py: real, heading: Option<Heading>, k: nat): Projection
    requires line.Valid() && k < |line.segLen|
  {
    var u := Foot(line.x[k], line.y[k], line.ux[k], line.uy[k], line.segLen[k], px, py);
    Projection(
      line.cum[k] + u,
      h(Offset(line.x[k], line.ux[k], u, px), Offset(line.y[k], line.uy[k], u, py)),
      match heading case None => 0.0 case Some(d) => d.sin * line.ux[k] + d.cos * line.uy[k])
  }

  /** A projection lies within its segment, hence on the line, at a nonnegative distance. */
  lemma ProjectionOnLine(h: Distance, line: TripLine, px: real, py: real, heading: Option<Heading>, k: nat)
    requires line.Valid() && k < |line.segLen|
    ensures var pr := ProjectOn(h, line, px, py, heading, k);
      && line.cum[k] <= pr.s <= line.cum[k + 1] && 0.0 <= pr.s <= line.Length() && pr.dist >= 0.0
  {
    assert line.cum[k + 1] == line.cum[k] + line.segLen[k];
    assert line.cum[0] <= line.cum[k] && line.cum[k + 1] <= line.cum[|line.cum| - 1];
  }

  /** Distances as the plane has them. */
  ghost predicate Euclidean(h: Distance) {
    forall x, y :: h(x, y) * h(x, y) == x * x + y * y
  }

  /** The direction of a segment that has a length is a unit vector. */
  predicate UnitAt(line: TripLine, k: nat)
    requires line.Valid() && k < |line.segLen|
  {
    line.segLen[k] > 0.0 ==> line.ux[k] * line.ux[k] + line.uy[k] * line.uy[k] == 1.0
  }

  /** One coordinate of the point `v` metres along a segment. */
  function Coordinate(x: real, c: real, v: real): real { x + v * c }

  /** The distance from a point to the point `v` metres along segment `k`. */
  function DistanceAlong(h: Distance, line: TripLine, px: real, py: real, k: nat, v: real): real
    requires line.Valid() && k < |line.segLen|
  {
    h(Coordinate(line.x[k], line.ux[k], v) - px, Coordinate(line.y[k], line.uy[k], v) - py)
  }

  lemma AlongIs(h: Distance, line: TripLine, px: real, py: real, k: nat, v: real)
    requires line.Valid() && k < |line.segLen|
    ensures DistanceAlong(h, line, px, py, k, v)
         == h(Offset(line.x[k], line.ux[k], v, px), Offset(line.y[k], line.uy[k], v, py))
  {
    assert Offset(line.x[k], line.ux[k], v, px) == Coordinate(line.x[k], line.ux[k], v) - px;
    assert Offset(line.y[k], line.uy[k], v, py) == Coordinate(line.y[k], line.uy[k], v) - py;
  }

  lemma SquaresAlong(a: real, b: real, c: real, d: real, v: real, w: real, u: real)
    requires c * c + d * d == 1.0 && w == -(a * c + b * d)
    ensures (a + v * c) * (a + v * c) + (b + v * d) * (b + v * d)
            - ((a + u * c) * (a + u * c) + (b + u * d) * (b + u * d))
         == (v - u) * (v + u - 2.0 * w)
  {
    SquareAlong(a, b, c, d, v, w);
    SquareAlong(a, b, c, d, u, w);
    assert (v - u) * (v + u - 2.0 * w) == v * v - u * u - 2.0 * w * v + 2.0 * w * u;
  }

  lemma SquareAlong(a: real, b: real, c: real, d: real, v: real, w: real)
    requires c * c + d * d == 1.0 && w == -(a * c + b * d)
    ensures (a + v * c) * (a + v * c) + (b + v * d) * (b + v * d) == a * a + b * b - 2.0 * w * v + v * v
  {
    assert (a + v * c) * (a + v * c) == a * a + 2.0 * (a * c) * v + c * c * (v * v);
    assert (b + v * d) * (b + v * d) == b * b + 2.0 * (b * d) * v + d * d * (v * v);
    assert c * c * (v * v) + d * d * (v * v) == v * v;
  }

  lemma ClipIsNearest(w: real, len: real, v: real)
    requires 0.0 <= v <= len
    ensures var u := Clip(w, 0.0, len); (v - u) * (v + u - 2.0 * w) >= 0.0
  {
    var u := Clip(w, 0.0, len);
    if v >= u {
      assert v + u - 2.0 * w >= 0.0 || v == u;
      Products(v - u, v + u - 2.0 * w);
    } else {
      Products(u - v, 2.0 * w - v - u);
      assert (u - v) * (2.0 * w - v - u) == (v - u) * (v + u - 2.0 * w);
    }
  }

  lemma Products(a: real, b: real)
    requires a >= 0.0 && (b >= 0.0 || a == 0.0)
    ensures a * b >= 0.0
  {
  }

  lemma SquareDifference(a: real, b: real)
    ensures (a - b) * (a + b) == a * a - b * b
  {
  }

  lemma RootsInOrder(a: real, b: real)
    requires a >= 0.0 && b >= 0.0 && a * a <= b * b
    ensures a <= b
  {
    SquareDifference(a, b);
    if a > b {
      PositiveProduct(a - b, a + b);
    }
  }

  lemma DistancesInOrder(h: Distance, x: real, y: real, x1: real, y1: real)
    requires Euclidean(h) && x * x + y * y <= x1 * x1 + y1 * y1
    ensures h(x, y) <= h(x1, y1)
  {
    assert h(x, y) * h(x, y) == x * x + y * y && h(x1, y1) * h(x1, y1) == x1 * x1 + y1 * y1;
    RootsInOrder(h(x, y), h(x1, y1));
  }

  lemma SquaresInOrder(a: real, b: real, c: real, d: real, len: real, u: real, v: real)
    requires 0.0 <= v <= len && c * c + d * d == 1.0 && u == Clip(-(a * c + b * d), 0.0, len)
    ensures (a + u * c) * (a + u * c) + (b + u * d) * (b + u * d)
         <= (a + v * c) * (a + v * c) + (b + v * d) * (b + v * d)
  {
    var w := -(a * c + b * d);
    SquaresAlong(a, b, c, d, v, w, u);
    ClipIsNearest(w, len, v);
  }

  /** Of the points `u` and `v` metres on, the foot of the perpendicular is no farther. */
  lemma NearestAhead(
      h: Distance, a: real, b: real, c: real, d: real, len: real, u: real, v: real,
      p: real, q: real, p1: real, q1: real)
    requires Euclidean(h) && 0.0 <= v <= len && (len > 0.0 ==> c * c + d * d == 1.0)
    requires u == Clip(-(a * c + b * d), 0.0, len)
    requires p == a + u * c && q == b + u * d && p1 == a + v * c && q1 == b + v * d
    ensures h(p, q) <= h(p1, q1)
  {
    if len > 0.0 {
      SquaresInOrder(a, b, c, d, len, u, v);
      DistancesInOrder(h, p, q, p1, q1);
    } else {
      assert u == v;
    }
  }

  lemma OffsetIs(x: real, c: real, u: real, px: real, a: real)
    requires a == x - px
    ensures Offset(x, c, u, px) == a + u * c
  {
  }

  lemma FootIs(x: real, y: real, c: real, d: real, len: real, px: real, py: real, a: real, b: real)
    requires a == x - px && b == y - py
    ensures Foot(x, y, c, d, len, px, py) == Clip(-(a * c + b * d), 0.0, len)
  {
    assert (px - x) * c == -(a * c) && (py - y) * d == -(b * d);
  }

  lemma FootIsNearest(
      h: Distance, x: real, y: real, c: real, d: real, len: real, px: real, py: real, u: real, v: real)
    requires Euclidean(h) && 0.0 <= v <= len && (len > 0.0 ==> c * c + d * d == 1.0)
    requires u == Foot(x, y, c, d, len, px, py)
    ensures h(Offset(x, c, u, px), Offset(y, d, u, py)) <= h(Offset(x, c, v, px), Offset(y, d, v, py))
  {
    var a, b := x - px, y - py;
    FootIs(x, y, c, d, len, px, py, a, b);
    OffsetIs(x, c, u, px, a);
    OffsetIs(y, d, u, py, b);
    OffsetIs(x, c, v, px, a);
    OffsetIs(y, d, v, py, b);
    NearestAhead(h, a, b, c, d, len, u, v,
                 Offset(x, c, u, px), Offset(y, d, u, py), Offset(x, c, v, px), Offset(y, d, v, py));
  }

  lemma SameAlong(h: Distance, line: TripLine, px: real, py: real, k: nat, u: real, v: real)
    requires line.Valid() && k < |line.segLen| && u == v
    ensures DistanceAlong(h, line, px, py, k, u) == DistanceAlong(h, line, px, py, k, v)
  {
  }

  /** No point of a segment is nearer than the projection onto it. */
  lemma ProjectionIsNearest(
      h: Distance, line: TripLine, px: real, py: real, heading: Option<Heading>, k: nat, v: real)
    requires line.Valid() && k < |line.segLen| && Euclidean(h) && UnitAt(line, k) && 0.0 <= v <= line.segLen[k]
    ensures var pr := ProjectOn(h, line, px, py, heading, k);
      && pr.dist == DistanceAlong(h, line, px, py, k, pr.s - line.cum[k])
      && pr.dist <= DistanceAlong(h, line, px, py, k, v)
  {
    var s := ProjectOn(h, line, px, py, heading, k).s;
    var u := Foot(line.x[k], line.y[k], line.ux[k], line.uy[k], line.segLen[k], px, py);
    assert s - line.cum[k] == u;
    SameAlong(h, line, px, py, k, u, s - line.cum[k]);
    AlongIs(h, line, px, py, k, u);
    AlongIs(h, line, px, py, k, v);
    FootIsNearest(h, line.x[k], line.y[k], line.ux[k], line.uy[k], line.segLen[k], px, py, u, v);
  }

  /** The cosine between course and segment: of a unit vector along the segment times `c` and a vector across it
      times `d`, the part along it. */
  lemma CosineIsPartAlong(
      h: Distance, line: TripLine, px: real, py: real, k: nat, c: real, d: real)
    requires line.Valid() && k < |line.segLen| && line.segLen[k] > 0.0 && UnitAt(line, k)
    ensures var heading := Heading(c * line.ux[k] + d * line.uy[k], c * line.uy[k] - d * line.ux[k]);
      ProjectOn(h, line, px, py, Some(heading), k).cos == c
    ensures ProjectOn(h, line, px, py, None, k).cos == 0.0
  {
    var x, y := line.ux[k], line.uy[k];
    assert (c * x + d * y) * x + (c * y - d * x) * y == c * (x * x + y * y);
  }

  // ---- stops and planned time ----

  function StopsAround(line: TripLine, s: real): (nat, Option<nat>)
    requires line.Valid()
  {
    var prev := ClipInt(Right(line.cum, s) - 1, 0, |line.cum| - 1);
    (prev, if prev + 1 < |line.cum| then Some(prev + 1) else None)
  }

  /** On the line the stops around a point are the last one not after it and the first one after it;
      there is none after it exactly at the end. */
  lemma StopsAroundBracket(line: TripLine, s: real)
    requires line.Valid() && 0.0 <= s <= line.Length()
    ensures var (prev, next) := StopsAround(line, s);
      && prev < |line.cum| && line.cum[prev] <= s
      && (next.None? <==> s == line.Length())
      && (next.Some? ==> next.value == prev + 1 < |line.cum| && s < line.cum[next.value])
  {
    RightSplits(line.cum, s);
    var k := Right(line.cum, s);
    assert k > 0;
    assert k < |line.cum| ==> line.cum[k] > s;
    assert line.cum[k - 1] <= s;
  }

  const AT_STOP := 0.5

  /** `tb[i] + frac * (tb[i + 1] - tb[i])` between two stops. */
  function Between(line: TripLine, k: nat, s: real): real
    requires line.Valid() && k < |line.segLen|
  {
    Lerp(line.tb[k], line.tb[k + 1], Fraction(line, k, s))
  }

  function Lerp(a: real, b: real, f: real): real { a + f * (b - a) }

  /** Waiting at the stops `[lo, hi)`: the moment itself within their plan. */
  function AtStops(tb: seq<real>, lo: nat, hi: nat, t: real): real
    requires lo < hi <= |tb|
  {
    if lo == 0 then Min(t, tb[hi - 1]) else Clip(t, tb[lo], tb[hi - 1])
  }

  lemma AtStopsMonotone(tb: seq<real>, lo: nat, hi: nat, lo1: nat, hi1: nat, t: real)
    requires Sorted(tb) && lo < hi <= |tb| && lo1 < hi1 <= |tb| && lo <= lo1 && hi <= hi1
    ensures AtStops(tb, lo, hi, t) <= AtStops(tb, lo1, hi1, t)
  {
    assert tb[hi - 1] <= tb[hi1 - 1] && tb[lo] <= tb[lo1] && tb[lo] <= tb[hi - 1] && tb[lo1] <= tb[hi1 - 1];
  }

  /** The planned time of passing `s`. Within half a metre of stops the plan is the window from
      the first to the last of them; at the first stop of the trip it is open below. */
  function PlannedAt(line: TripLine, s: real, t: real): real
    requires line.Valid()
  {
    var lo, hi := Left(line.cum, s - AT_STOP), Right(line.cum, s + AT_STOP);
    if hi > lo then AtStops(line.tb, lo, hi, t)
    else Between(line, ClipInt(lo - 1, 0, |line.segLen| - 1), s)
  }

  lemma Scaled(f: real, g: real, d: real)
    requires 0.0 <= f <= g <= 1.0 && d >= 0.0
    ensures 0.0 <= f * d <= g * d <= d
  {
    assert g * d - f * d == (g - f) * d;
    assert d - g * d == (1.0 - g) * d;
  }

  lemma LerpMonotone(a: real, b: real, f: real, g: real)
    requires a <= b && 0.0 <= f <= g <= 1.0
    ensures a <= Lerp(a, b, f) <= Lerp(a, b, g) <= b
  {
    Scaled(f, g, b - a);
  }

  lemma Divided(a: real, b: real, d: real)
    requires a <= b && d > 0.0
    ensures a / d <= b / d
  {
    assert b / d - a / d == (b - a) / d;
  }

  function Fraction(line: TripLine, k: nat, s: real): (f: real)
    requires line.Valid() && k < |line.segLen|
    ensures 0.0 <= f <= 1.0
  {
    Clip(if line.segLen[k] > 0.0 then (s - line.cum[k]) / line.segLen[k] else 1.0, 0.0, 1.0)
  }

  lemma BetweenBounds(line: TripLine, k: nat, s: real)
    requires line.Valid() && k < |line.segLen|
    ensures line.tb[k] <= Between(line, k, s) <= line.tb[k + 1]
  {
    assert line.tb[k] <= line.tb[k + 1];
    LerpMonotone(line.tb[k], line.tb[k + 1], Fraction(line, k, s), 1.0);
  }

  lemma LerpShare(a: real, b: real, x: real, len: real)
    requires len > 0.0
    ensures (Lerp(a, b, x / len) - a) * len == x * (b - a)
  {
    var f := x / len;
    assert f * len == x;
    assert f * (b - a) * len == (f * len) * (b - a);
  }

  lemma PartOfWhole(x: real, len: real)
    requires 0.0 <= x <= len && len > 0.0
    ensures 0.0 <= x / len <= 1.0
  {
    Divided(0.0, x, len);
    Divided(x, len, len);
    assert 0.0 / len == 0.0 && len / len == 1.0;
  }

  /** `x` is to `d` as `part` is to `whole`. */
  predicate Share(x: real, d: real, part: real, whole: real) { x * whole == part * d }

  /** Between two stops the plan passes in proportion to the distance; a segment of no length is passed at the
      plan of its end. */
  lemma BetweenIsLinear(line: TripLine, k: nat, s: real)
    requires line.Valid() && k < |line.segLen| && line.cum[k] <= s <= line.cum[k + 1]
    ensures line.segLen[k] > 0.0 ==>
              Share(Between(line, k, s) - line.tb[k], line.tb[k + 1] - line.tb[k], s - line.cum[k], line.segLen[k])
    ensures line.segLen[k] == 0.0 ==> Between(line, k, s) == line.tb[k + 1]
  {
    var x, len := s - line.cum[k], line.segLen[k];
    if len > 0.0 {
      PartOfWhole(x, len);
      assert Fraction(line, k, s) == x / len;
      LerpShare(line.tb[k], line.tb[k + 1], x, len);
    }
  }

  /** More than half a metre from any stop the plan is the one between the stops around the point. */
  lemma PlannedIsLinear(line: TripLine, k: nat, s: real, t: real)
    requires line.Valid() && k < |line.segLen| && line.cum[k] + AT_STOP < s < line.cum[k + 1] - AT_STOP
    ensures Share(PlannedAt(line, s, t) - line.tb[k], line.tb[k + 1] - line.tb[k], s - line.cum[k], line.segLen[k])
  {
    LeftSplits(line.cum, s - AT_STOP);
    RightSplits(line.cum, s + AT_STOP);
    var lo, hi := Left(line.cum, s - AT_STOP), Right(line.cum, s + AT_STOP);
    assert k < lo && hi <= k + 1;
    assert lo <= k + 1;
    BetweenIsLinear(line, k, s);
  }

  lemma FractionMonotone(line: TripLine, k: nat, s1: real, s2: real)
    requires line.Valid() && k < |line.segLen| && s1 <= s2
    ensures Fraction(line, k, s1) <= Fraction(line, k, s2)
  {
    if line.segLen[k] > 0.0 {
      Divided(s1 - line.cum[k], s2 - line.cum[k], line.segLen[k]);
    }
  }

  lemma BetweenMonotone(line: TripLine, k: nat, s1: real, s2: real)
    requires line.Valid() && k < |line.segLen| && s1 <= s2
    ensures Between(line, k, s1) <= Between(line, k, s2)
  {
    FractionMonotone(line, k, s1, s2);
    assert line.tb[k] <= line.tb[k + 1];
    LerpMonotone(line.tb[k], line.tb[k + 1], Fraction(line, k, s1), Fraction(line, k, s2));
  }

  /** The searches behind `PlannedAt` for a point on the line. */
  lemma Searches(line: TripLine, s: real)
    requires line.Valid() && 0.0 <= s <= line.Length()
    ensures var lo, hi := Left(line.cum, s - AT_STOP), Right(line.cum, s + AT_STOP);
      lo <= hi && (hi == lo ==> 1 <= lo < |line.cum|)
  {
    var lo, hi := Left(line.cum, s - AT_STOP), Right(line.cum, s + AT_STOP);
    LeftSplits(line.cum, s - AT_STOP);
    RightSplits(line.cum, s + AT_STOP);
    if lo > 0 {
      assert line.cum[lo - 1] < s - AT_STOP;
    }
  }

  /** The plan of a point lies between the plans of the stops its searches name. */
  lemma PlannedBounds(line: TripLine, s: real, t: real)
    requires line.Valid() && 0.0 <= s <= line.Length()
    ensures var lo, hi := Left(line.cum, s - AT_STOP), Right(line.cum, s + AT_STOP);
      && lo <= hi && (hi == lo ==> 1 <= lo < |line.cum|)
      && (hi > lo > 0 ==> PlannedAt(line, s, t) >= line.tb[lo])
      && (hi > lo ==> PlannedAt(line, s, t) <= line.tb[hi - 1])
      && (hi == lo ==> line.tb[lo - 1] <= PlannedAt(line, s, t) <= line.tb[lo])
  {
    Searches(line, s);
    var lo, hi := Left(line.cum, s - AT_STOP), Right(line.cum, s + AT_STOP);
    if hi == lo {
      BetweenBounds(line, lo - 1, s);
    }
  }

  /** Further along the line the plan is never earlier, clusters of coincident stops included. */
  lemma PlannedMonotoneInProgress(line: TripLine, s1: real, s2: real, t: real)
    requires line.Valid() && 0.0 <= s1 <= s2 <= line.Length()
    ensures PlannedAt(line, s1, t) <= PlannedAt(line, s2, t)
  {
    var lo1, hi1 := Left(line.cum, s1 - AT_STOP), Right(line.cum, s1 + AT_STOP);
    var lo2, hi2 := Left(line.cum, s2 - AT_STOP), Right(line.cum, s2 + AT_STOP);
    PlannedBounds(line, s1, t);
    PlannedBounds(line, s2, t);
    SearchesMonotone(line.cum, s1 - AT_STOP, s2 - AT_STOP);
    SearchesMonotone(line.cum, s1 + AT_STOP, s2 + AT_STOP);
    if hi1 > lo1 {
      if hi2 == lo2 {
        assert line.tb[hi1 - 1] <= line.tb[lo2 - 1];
      } else {
        AtStopsMonotone(line.tb, lo1, hi1, lo2, hi2, t);
      }
    } else if hi2 > lo2 {
      assert line.tb[lo1] <= line.tb[lo2];
    } else if lo1 == lo2 {
      BetweenMonotone(line, lo1 - 1, s1, s2);
    } else {
      assert line.tb[lo1] <= line.tb[lo2 - 1];
    }
  }

  /** At a later moment the plan is never earlier. */
  lemma PlannedMonotoneInTime(line: TripLine, s: real, t1: real, t2: real)
    requires line.Valid() && t1 <= t2
    ensures PlannedAt(line, s, t1) <= PlannedAt(line, s, t2)
  {
  }

  /** Deviation from the schedule, positive when late; none before the trip starts. */
  function Deviation(line: TripLine, progress: real, t: real): real
    requires line.Valid()
  {
    if t < line.Start() then 0.0 else t - PlannedAt(line, progress, t)
  }

  lemma DeviationFallsWithProgress(line: TripLine, s1: real, s2: real, t: real)
    requires line.Valid() && 0.0 <= s1 <= s2 <= line.Length()
    ensures Deviation(line, s2, t) <= Deviation(line, s1, t)
  {
    PlannedMonotoneInProgress(line, s1, s2, t);
  }

  /** At stops, waiting is on time exactly inside their planned window. */
  lemma WaitingIsOnTimeIff(line: TripLine, s: real, t: real)
    requires line.Valid() && 0.0 <= s <= line.Length() && t >= line.Start()
    requires Right(line.cum, s + AT_STOP) > Left(line.cum, s - AT_STOP)
    ensures var lo, hi := Left(line.cum, s - AT_STOP), Right(line.cum, s + AT_STOP);
      Deviation(line, s, t) == 0.0 <==> line.tb[lo] <= t <= line.tb[hi - 1]
  {
  }

  /** The stops `[i, j]` are those within half a metre of `s`. */
  ghost predicate StopsHere(line: TripLine, s: real, i: nat, j: nat)
    requires line.Valid()
  {
    && i <= j < |line.cum|
    && (forall k :: 0 <= k < |line.cum| ==> (i <= k <= j <==> s - 0.5 <= line.cum[k] <= s + 0.5))
  }

  /** Waiting at stops: late after the last of their plans, early before the first, unless it begins the trip, and on
      time in between. */
  lemma WaitingIs(line: TripLine, s: real, t: real, i: nat, j: nat)
    requires line.Valid() && 0.0 <= s <= line.Length() && StopsHere(line, s, i, j)
    ensures Deviation(line, s, t)
         == if t > line.tb[j] then t - line.tb[j] else if i > 0 && line.tb[0] <= t < line.tb[i] then t - line.tb[i]
            else 0.0
  {
    LeftSplits(line.cum, s - AT_STOP);
    RightSplits(line.cum, s + AT_STOP);
    var lo, hi := Left(line.cum, s - AT_STOP), Right(line.cum, s + AT_STOP);
    assert s - 0.5 <= line.cum[i] <= s + 0.5 && s - 0.5 <= line.cum[j] <= s + 0.5;
    assert lo <= i && j < hi;
    assert s - 0.5 <= line.cum[lo] <= line.cum[i];
    assert line.cum[j] <= line.cum[hi - 1] <= s + 0.5;
    assert line.tb[0] <= line.tb[i] <= line.tb[j];
  }

  lemma SameShare(x: real, y: real, d: real, part: real, whole: real)
    requires whole > 0.0 && Share(x, d, part, whole) && Share(y, d, part, whole)
    ensures x == y
  {
    assert (x - y) * whole == 0.0;
    if x > y {
      PositiveProduct(x - y, whole);
    }
    if x < y {
      PositiveProduct(y - x, whole);
    }
  }

  /** Between stops: the moment less the plan, in proportion to the way between them; nothing before the trip. */
  lemma UnderwayIs(line: TripLine, k: nat, s: real, t: real, plan: real)
    requires line.Valid() && k < |line.segLen| && line.cum[k] + 0.5 < s < line.cum[k + 1] - 0.5
    requires Share(plan - line.tb[k], line.tb[k + 1] - line.tb[k], s - line.cum[k], line.segLen[k])
    ensures Deviation(line, s, t) == if t < line.tb[0] then 0.0 else t - plan
  {
    PlannedIsLinear(line, k, s, t);
    SameShare(PlannedAt(line, s, t) - line.tb[k], plan - line.tb[k], line.tb[k + 1] - line.tb[k],
              s - line.cum[k], line.segLen[k]);
  }
}
