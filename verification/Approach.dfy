/** What the two detectors find in one window, said of the way between its points. */
module Approach {
  import opened Numbers
  import opened Options
  import opened RouteLine
  import opened StopsDetector

  /** The distance to the stop at fraction `t` of the way from `a` to `b`. */
  function Away(g: Geometry, a: Point, b: Point, v: Visit, t: real): real {
    g.h(Lerp(a.x, b.x, t) - v.x, Lerp(a.y, b.y, t) - v.y)
  }

  /** Not against the route: along it, or no more than five metres. */
  predicate Driven(g: Geometry, a: Point, b: Point, v: Visit) {
    (b.x - a.x) * v.dirX + (b.y - a.y) * v.dirY >= 0.0 || g.h(b.x - a.x, b.y - a.y) <= 5.0
  }

  /** The distance of a point to the stop. */
  function Off(g: Geometry, p: Point, v: Visit): real { g.h(p.x - v.x, p.y - v.y) }

  /** The moment at fraction `f` of the way from `a` to `b`. */
  function TimeAt(a: Point, b: Point, f: real): real { Lerp(a.t, b.t, f) }

  // ---- one segment ----

  lemma SquareIs(a: real, b: real, c: real, d: real, t: real, ll: real, p: real)
    requires ll == c * c + d * d && p == a * c + b * d
    ensures (a + t * c) * (a + t * c) + (b + t * d) * (b + t * d) == a * a + b * b + 2.0 * (t * p) + ll * (t * t)
  {
    assert (a + t * c) * (a + t * c) == a * a + 2.0 * (t * (a * c)) + c * c * (t * t);
    assert (b + t * d) * (b + t * d) == b * b + 2.0 * (t * (b * d)) + d * d * (t * t);
    assert t * p == t * (a * c) + t * (b * d);
    assert ll * (t * t) == c * c * (t * t) + d * d * (t * t);
  }

  /** The value at `t` of a parabola with its lowest point at `w`, less that at `u`. */
  lemma Difference(ll: real, p: real, w: real, t: real, u: real, m: real, n: real)
    requires p == -(w * ll) && m == t - u && n == t + u - 2.0 * w
    ensures 2.0 * (t * p) + ll * (t * t) - (2.0 * (u * p) + ll * (u * u)) == ll * (m * n)
  {
    assert t * p == -(ll * (t * w)) && u * p == -(ll * (u * w));
    assert m * n == t * t - u * u - 2.0 * (t * w) + 2.0 * (u * w);
  }

  lemma NegativeProduct(a: real, b: real)
    requires a < 0.0 && b < 0.0
    ensures a * b > 0.0
  {
    PositiveProduct(-a, -b);
  }

  lemma Positively(ll: real, a: real, b: real)
    requires ll > 0.0 && a < 0.0 && b < 0.0
    ensures ll * (a * b) > 0.0
  {
    NegativeProduct(a, b);
    PositiveProduct(ll, a * b);
  }

  lemma LowestAt(ll: real, p: real, u: real, t: real)
    requires ll >= 0.0 && (ll == 0.0 ==> p == 0.0) && 0.0 <= t <= 1.0 && u == LowestFraction(p, ll)
    ensures 2.0 * (u * p) + ll * (u * u) <= 2.0 * (t * p) + ll * (t * t)
    ensures t < u ==> 2.0 * (u * p) + ll * (u * u) < 2.0 * (t * p) + ll * (t * t)
  {
    if ll > 0.0 {
      var w := -p / ll;
      assert w * ll == -p;
      var m, n := t - u, t + u - 2.0 * w;
      Difference(ll, p, w, t, u, m, n);
      ClipIsNearest(w, 1.0, t);
      assert m * n >= 0.0;
      Products(ll, m * n);
      if t < u {
        Positively(ll, m, n);
      }
    }
  }

  lemma SquaresLowest(a: real, b: real, c: real, d: real, u: real, t: real, ll: real, p: real)
    requires ll == c * c + d * d && p == a * c + b * d && 0.0 <= t <= 1.0
    requires u == LowestFraction(p, ll)
    ensures (a + u * c) * (a + u * c) + (b + u * d) * (b + u * d)
         <= (a + t * c) * (a + t * c) + (b + t * d) * (b + t * d)
    ensures t < u ==> ((a + u * c) * (a + u * c) + (b + u * d) * (b + u * d)
                     < (a + t * c) * (a + t * c) + (b + t * d) * (b + t * d))
  {
    SquareIs(a, b, c, d, t, ll, p);
    SquareIs(a, b, c, d, u, ll, p);
    NoVectorWith(a, b, c, d, ll, 2.0 * p);
    LowestAt(ll, p, u, t);
  }

  lemma Farther(h: Distance, x: real, y: real, x1: real, y1: real)
    requires Euclidean(h) && x * x + y * y < x1 * x1 + y1 * y1
    ensures h(x, y) < h(x1, y1)
  {
    DistancesInOrder(h, x, y, x1, y1);
    assert h(x, y) * h(x, y) == x * x + y * y && h(x1, y1) * h(x1, y1) == x1 * x1 + y1 * y1;
  }

  /** No point of the way is nearer to the origin than the one at the nearest fraction, and none before it as
      near. */
  lemma FractionIsNearest(h: Distance, ax: real, ay: real, dx: real, dy: real, t: real)
    requires Euclidean(h) && 0.0 <= t <= 1.0
    ensures var u := NearestFraction(ax, ay, dx, dy);
      && h(Place(ax, dx, u), Place(ay, dy, u)) <= h(Place(ax, dx, t), Place(ay, dy, t))
      && (t < u ==> h(Place(ax, dx, u), Place(ay, dy, u)) < h(Place(ax, dx, t), Place(ay, dy, t)))
  {
    var u := NearestFraction(ax, ay, dx, dy);
    SquaresLowest(ax, ay, dx, dy, u, t, dx * dx + dy * dy, ax * dx + ay * dy);
    Nearer(h, ax, ay, dx, dy, u, t, Place(ax, dx, u), Place(ay, dy, u), Place(ax, dx, t), Place(ay, dy, t));
  }

  lemma Nearer(
      h: Distance, ax: real, ay: real, dx: real, dy: real, u: real, t: real, x: real, y: real, x1: real, y1: real)
    requires Euclidean(h) && x == ax + u * dx && y == ay + u * dy && x1 == ax + t * dx && y1 == ay + t * dy
    requires (ax + u * dx) * (ax + u * dx) + (ay + u * dy) * (ay + u * dy)
          <= (ax + t * dx) * (ax + t * dx) + (ay + t * dy) * (ay + t * dy)
    requires t < u ==> ((ax + u * dx) * (ax + u * dx) + (ay + u * dy) * (ay + u * dy)
                      < (ax + t * dx) * (ax + t * dx) + (ay + t * dy) * (ay + t * dy))
    ensures h(x, y) <= h(x1, y1) && (t < u ==> h(x, y) < h(x1, y1))
  {
    DistancesInOrder(h, x, y, x1, y1);
    if t < u {
      Farther(h, x, y, x1, y1);
    }
  }

  lemma PlaceIs(a: real, b: real, x: real, t: real)
    ensures Place(a - x, b - a, t) == Lerp(a, b, t) - x
  {
  }

  lemma AwayIs(g: Geometry, a: Point, b: Point, v: Visit, t: real)
    ensures Away(g, a, b, v, t) == g.h(Place(a.x - v.x, b.x - a.x, t), Place(a.y - v.y, b.y - a.y, t))
  {
    PlaceIs(a.x, b.x, v.x, t);
    PlaceIs(a.y, b.y, v.y, t);
  }

  lemma DotIs(dx: real, dy: real, dirX: real, dirY: real)
    ensures Dot(dx, dy, dirX, dirY) == dx * dirX + dy * dirY
  {
  }

  lemma DrivenIs(g: Geometry, a: Point, b: Point, v: Visit)
    ensures Driven(g, a, b, v)
       <==> Dot(b.x - a.x, b.y - a.y, v.dirX, v.dirY) >= 0.0 || g.h(b.x - a.x, b.y - a.y) <= STILL_M
  {
    DotIs(b.x - a.x, b.y - a.y, v.dirX, v.dirY);
  }

  /** A segment counts unless driven against the route, at the distance of its first nearest point. */
  lemma SegmentIsNearest(g: Geometry, a: Point, b: Point, v: Visit, t: real)
    requires Euclidean(g.h) && 0.0 <= t <= 1.0
    ensures var s := SegmentOf(g, a, b, v);
      && (s.near.Some? <==> Driven(g, a, b, v))
      && (s.near.Some? ==> s.near.value == Away(g, a, b, v, s.u) <= Away(g, a, b, v, t))
      && (s.near.Some? && t < s.u ==> s.near.value < Away(g, a, b, v, t))
  {
    DrivenIs(g, a, b, v);
    AwayIs(g, a, b, v, t);
    AwayIs(g, a, b, v, SegmentOf(g, a, b, v).u);
    FractionIsNearest(g.h, a.x - v.x, a.y - v.y, b.x - a.x, b.y - a.y, t);
  }

  /** On a circle or within it: the distance at most the radius. */
  lemma CircleIs(h: Distance, x: real, y: real, radius: real)
    requires Euclidean(h) && radius >= 0.0
    ensures x * x + y * y <= radius * radius <==> h(x, y) <= radius
  {
    assert h(x, y) * h(x, y) == x * x + y * y;
    if h(x, y) <= radius {
      SquareMonotone(h(x, y), radius);
    }
    if x * x + y * y <= radius * radius {
      RootsInOrder(h(x, y), radius);
    }
  }

  lemma InCircleAt(s: Segment, radius: real, t: real, x: real, y: real)
    requires x == Place(s.ax, s.dx, t) && y == Place(s.ay, s.dy, t)
    ensures InCircle(s, radius, t) <==> x * x + y * y <= radius * radius
  {
  }

  lemma InCircleIs(g: Geometry, a: Point, b: Point, v: Visit, radius: real, t: real)
    requires Euclidean(g.h) && radius >= 0.0
    ensures InCircle(SegmentOf(g, a, b, v), radius, t) <==> Away(g, a, b, v, t) <= radius
  {
    var x, y := Place(a.x - v.x, b.x - a.x, t), Place(a.y - v.y, b.y - a.y, t);
    AwayIs(g, a, b, v, t);
    CircleIs(g.h, x, y, radius);
    InCircleAt(SegmentOf(g, a, b, v), radius, t, x, y);
  }

  // ---- arrival ----

  /** A moment driven in the window. */
  predicate On(g: Geometry, pts: seq<Point>, v: Visit, j: nat, t: real) {
    j + 1 < |pts| && 0.0 <= t <= 1.0 && Driven(g, pts[j], pts[j + 1], v)
  }

  function AwayAt(g: Geometry, pts: seq<Point>, v: Visit, j: nat, t: real): real
    requires j + 1 < |pts|
  {
    Away(g, pts[j], pts[j + 1], v, t)
  }

  predicate Before(i: nat, t: real, j: nat, f: real) { i < j || (i == j && t < f) }

  /** The first moment driven within 15 metres. */
  ghost predicate EntersAt(g: Geometry, pts: seq<Point>, v: Visit, j: nat, f: real) {
    && On(g, pts, v, j, f) && AwayAt(g, pts, v, j, f) <= 15.0
    && (forall i: nat, t: real :: On(g, pts, v, i, t) && Before(i, t, j, f) ==> AwayAt(g, pts, v, i, t) > 15.0)
  }

  /** The first of the moments driven nearest to the stop. */
  ghost predicate NearestAt(g: Geometry, pts: seq<Point>, v: Visit, j: nat, f: real) {
    && On(g, pts, v, j, f)
    && (forall i: nat, t: real :: On(g, pts, v, i, t) ==>
          && AwayAt(g, pts, v, j, f) <= AwayAt(g, pts, v, i, t)
          && (Before(i, t, j, f) ==> AwayAt(g, pts, v, j, f) < AwayAt(g, pts, v, i, t)))
  }

  lemma EntryIsFirstOn(g: Geometry, pts: seq<Point>, v: Visit, j: nat, f: real, t: real)
    requires Euclidean(g.h) && Roots(g.sqrt) && |pts| > 1
    requires j == FirstWithin(Segments(g, pts, v), ENTER_RADIUS_M) < |pts| - 1
    requires f == EntryFraction(g, SegmentOf(g, pts[j], pts[j + 1], v), ENTER_RADIUS_M)
    ensures On(g, pts, v, j, f) && AwayAt(g, pts, v, j, f) <= 15.0
    ensures 0.0 <= t < f ==> AwayAt(g, pts, v, j, t) > 15.0
  {
    ArrivalIsFirstEntry(g, pts, v, j);
    var s := SegmentOf(g, pts[j], pts[j + 1], v);
    assert Segments(g, pts, v)[j] == s;
    SegmentIsNearest(g, pts[j], pts[j + 1], v, f);
    InCircleIs(g, pts[j], pts[j + 1], v, ENTER_RADIUS_M, f);
    InCircleIs(g, pts[j], pts[j + 1], v, ENTER_RADIUS_M, t);
  }

  lemma NotWithin(g: Geometry, pts: seq<Point>, v: Visit, i: nat, t: real)
    requires Euclidean(g.h) && i < FirstWithin(Segments(g, pts, v), ENTER_RADIUS_M) && On(g, pts, v, i, t)
    ensures AwayAt(g, pts, v, i, t) > 15.0
  {
    assert Segments(g, pts, v)[i] == SegmentOf(g, pts[i], pts[i + 1], v);
    SegmentIsNearest(g, pts[i], pts[i + 1], v, t);
  }

  /** When the vehicle comes within 15 metres of the stop, driving along the route, the arrival is the first
      moment at which it does. */
  lemma ArrivalIsEntry(g: Geometry, pts: seq<Point>, v: Visit, i: nat, t: real)
    requires Euclidean(g.h) && Roots(g.sqrt) && On(g, pts, v, i, t) && AwayAt(g, pts, v, i, t) <= 15.0
    ensures exists j: nat, f: real ::
              EntersAt(g, pts, v, j, f) && ArrivalTime(g, pts, v) == Some(TimeAt(pts[j], pts[j + 1], f))
  {
    var segs := Segments(g, pts, v);
    var j := FirstWithin(segs, ENTER_RADIUS_M);
    if j == |segs| {
      NotWithin(g, pts, v, i, t);
    }
    var f := EntryFraction(g, SegmentOf(g, pts[j], pts[j + 1], v), ENTER_RADIUS_M);
    ArrivalIsFirstEntry(g, pts, v, j);
    EntryIsFirstOn(g, pts, v, j, f, f);
    forall k: nat, w: real | On(g, pts, v, k, w) && Before(k, w, j, f) ensures AwayAt(g, pts, v, k, w) > 15.0 {
      if k < j {
        NotWithin(g, pts, v, k, w);
      } else {
        EntryIsFirstOn(g, pts, v, j, f, w);
      }
    }
    assert EntersAt(g, pts, v, j, f);
  }

  lemma NearestIsFirst(g: Geometry, pts: seq<Point>, v: Visit, j: nat, f: real, i: nat, t: real)
    requires Euclidean(g.h) && |pts| > 1 && On(g, pts, v, i, t)
    requires j == Nearest(Segments(g, pts, v)) && f == SegmentOf(g, pts[j], pts[j + 1], v).u
    ensures On(g, pts, v, j, f) && AwayAt(g, pts, v, j, f) <= AwayAt(g, pts, v, i, t)
    ensures Before(i, t, j, f) ==> AwayAt(g, pts, v, j, f) < AwayAt(g, pts, v, i, t)
    ensures Segments(g, pts, v)[j].near == Some(AwayAt(g, pts, v, j, f))
  {
    var segs := Segments(g, pts, v);
    assert segs[i] == SegmentOf(g, pts[i], pts[i + 1], v) && segs[j] == SegmentOf(g, pts[j], pts[j + 1], v);
    SegmentIsNearest(g, pts[i], pts[i + 1], v, t);
    SegmentIsNearest(g, pts[j], pts[j + 1], v, f);
  }

  /** Nothing driven comes within 15 metres of the stop. */
  ghost predicate StaysOut(g: Geometry, pts: seq<Point>, v: Visit) {
    forall i: nat, t: real :: On(g, pts, v, i, t) ==> AwayAt(g, pts, v, i, t) > 15.0
  }

  lemma StaysOutIs(g: Geometry, pts: seq<Point>, v: Visit)
    requires Euclidean(g.h) && Roots(g.sqrt) && |pts| > 1 && StaysOut(g, pts, v)
    ensures FirstWithin(Segments(g, pts, v), ENTER_RADIUS_M) == |pts| - 1
  {
    var j := FirstWithin(Segments(g, pts, v), ENTER_RADIUS_M);
    if j < |pts| - 1 {
      var f := EntryFraction(g, SegmentOf(g, pts[j], pts[j + 1], v), ENTER_RADIUS_M);
      EntryIsFirstOn(g, pts, v, j, f, f);
    }
  }

  /** The moment itself if it is within 80 metres and the last point 30 metres farther away. */
  function WhenPassed(g: Geometry, pts: seq<Point>, v: Visit, j: nat, f: real): Option<real>
    requires j + 1 < |pts|
  {
    var away := AwayAt(g, pts, v, j, f);
    if away <= 80.0 && Off(g, pts[|pts| - 1], v) >= away + 30.0 then Some(TimeAt(pts[j], pts[j + 1], f))
    else None
  }

  lemma NearestIsAt(g: Geometry, pts: seq<Point>, v: Visit, j: nat, f: real, i: nat, t: real)
    requires Euclidean(g.h) && |pts| > 1 && On(g, pts, v, i, t)
    requires j == Nearest(Segments(g, pts, v)) && f == SegmentOf(g, pts[j], pts[j + 1], v).u
    ensures NearestAt(g, pts, v, j, f)
  {
    NearestIsFirst(g, pts, v, j, f, i, t);
    forall k: nat, w: real | On(g, pts, v, k, w)
      ensures AwayAt(g, pts, v, j, f) <= AwayAt(g, pts, v, k, w)
      ensures Before(k, w, j, f) ==> AwayAt(g, pts, v, j, f) < AwayAt(g, pts, v, k, w)
    {
      NearestIsFirst(g, pts, v, j, f, k, w);
    }
  }

  lemma ArrivalTimeIs(g: Geometry, pts: seq<Point>, v: Visit, j: nat, f: real)
    requires |pts| > 1 && FirstWithin(Segments(g, pts, v), ENTER_RADIUS_M) == |pts| - 1
    requires j == Nearest(Segments(g, pts, v)) && f == SegmentOf(g, pts[j], pts[j + 1], v).u
    requires Segments(g, pts, v)[j].near == Some(AwayAt(g, pts, v, j, f))
    ensures ArrivalTime(g, pts, v) == WhenPassed(g, pts, v, j, f)
  {
    assert Segments(g, pts, v)[j] == SegmentOf(g, pts[j], pts[j + 1], v);
  }

  /** When it does not, the arrival is the first moment driven nearest to the stop, once the vehicle has passed. */
  lemma ArrivalIsNearest(g: Geometry, pts: seq<Point>, v: Visit, i: nat, t: real)
    requires Euclidean(g.h) && Roots(g.sqrt) && StaysOut(g, pts, v) && On(g, pts, v, i, t)
    ensures exists j: nat, f: real ::
              NearestAt(g, pts, v, j, f) && ArrivalTime(g, pts, v) == WhenPassed(g, pts, v, j, f)
  {
    StaysOutIs(g, pts, v);
    var j := Nearest(Segments(g, pts, v));
    var f := SegmentOf(g, pts[j], pts[j + 1], v).u;
    NearestIsFirst(g, pts, v, j, f, i, t);
    ArrivalTimeIs(g, pts, v, j, f);
    NearestIsAt(g, pts, v, j, f, i, t);
  }

  /** Driven against the route all the way, the vehicle does not arrive; a single point arrives within 80 metres. */
  lemma ArrivalWithout(g: Geometry, pts: seq<Point>, v: Visit)
    requires Euclidean(g.h) && forall i: nat, t: real :: !On(g, pts, v, i, t)
    ensures ArrivalTime(g, pts, v)
         == if |pts| == 1 && Off(g, pts[0], v) <= 80.0 then Some(pts[0].t) else None
  {
    if |pts| > 1 {
      forall k | 0 <= k < |pts| - 1 ensures Segments(g, pts, v)[k].near.None? {
        assert Segments(g, pts, v)[k] == SegmentOf(g, pts[k], pts[k + 1], v);
        SegmentIsNearest(g, pts[k], pts[k + 1], v, 0.0);
        assert !On(g, pts, v, k, 0.0);
      }
    }
  }

  // ---- departure ----

  predicate Within(g: Geometry, p: Point, v: Visit) { Off(g, p, v) <= 35.0 }

  /** The vehicle has been within 35 metres and is now farther away, for the first time. */
  ghost predicate Leaves(g: Geometry, pts: seq<Point>, v: Visit, k: nat) {
    && 0 < k < |pts| && Within(g, pts[k - 1], v) && !Within(g, pts[k], v)
    && (forall i, j :: 0 <= i < j < k && Within(g, pts[i], v) ==> Within(g, pts[j], v))
  }

  /** Then, at fraction `f` of the way out of the circle, it is 35 metres away if the distance grows evenly. */
  ghost predicate LeavesAt(g: Geometry, pts: seq<Point>, v: Visit, k: nat, f: real) {
    && Leaves(g, pts, v, k) && 0.0 <= f <= 1.0
    && Lerp(Off(g, pts[k - 1], v), Off(g, pts[k], v), f) == 35.0
  }

  lemma LerpReaches(a: real, b: real, c: real)
    requires a <= c < b
    ensures var f := (c - a) / (b - a); 0.0 <= f <= 1.0 && Lerp(a, b, f) == c
  {
    Crossing(c, a, b);
    var f := (c - a) / (b - a);
    assert f * (b - a) == c - a;
  }

  /** There is no departure exactly when the vehicle never enters the circle or never leaves it again. */
  lemma DepartureNoneIff(g: Geometry, pts: seq<Point>, v: Visit)
    ensures DepartureTime(g, pts, v).None?
       <==> (forall i, j :: 0 <= i < j < |pts| && Within(g, pts[i], v) ==> Within(g, pts[j], v))
  {
    var inside := FirstSide(g, pts, v, 0, true);
    var k := FirstSide(g, pts, v, inside, false);
    if k < |pts| {
      assert Within(g, pts[inside], v) && !Within(g, pts[k], v) && inside < k;
    }
  }

  /** Otherwise it is the moment the circle is left first. */
  lemma DepartureIsLeaving(g: Geometry, pts: seq<Point>, v: Visit)
    requires DepartureTime(g, pts, v).Some?
    ensures exists k: nat, f: real ::
              LeavesAt(g, pts, v, k, f) && DepartureTime(g, pts, v) == Some(TimeAt(pts[k - 1], pts[k], f))
  {
    var inside := FirstSide(g, pts, v, 0, true);
    var k := FirstSide(g, pts, v, inside, false);
    var d0, d1 := Off(g, pts[k - 1], v), Off(g, pts[k], v);
    assert Within(g, pts[inside], v) && !Within(g, pts[k], v) && inside < k && Within(g, pts[k - 1], v);
    LerpReaches(d0, d1, DEPART_RADIUS_M);
    assert LeavesAt(g, pts, v, k, (DEPART_RADIUS_M - d0) / (d1 - d0));
  }
}
