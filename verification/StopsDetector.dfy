/** Arrivals at planned stops found in a track of positions.

    Distances and square roots are parameters: of a distance only its sign is used, of a square root
    nothing, because every fraction it enters is clipped. */
module StopsDetector {
  import opened Numbers
  import opened Options
  import opened RouteLine
  import opened Searching

  const ENTER_RADIUS_M := 15.0
  const NEAR_RADIUS_M := 80.0
  const STILL_M := 5.0
  const NEAR_LEAVE_M := 30.0
  const DEPART_RADIUS_M := 35.0
  const WINDOW_BEFORE_S := 720.0
  const WINDOW_AFTER_S := 1200.0

  datatype Geometry = Geometry(h: Distance, sqrt: real -> real)

  /** A track point and whether its position is valid. */
  datatype Point = Point(t: real, x: real, y: real, valid: bool)

  /** A planned visit: its time, place, the direction of the route there, and whether it starts a
      trip. */
  datatype Visit = Visit(id: int, tb: real, x: real, y: real, dirX: real, dirY: real, first: bool)

  datatype Arrival = Arrival(visit: int, at: real, delay: real)

  predicate InOrder(pts: seq<Point>) { forall i, j :: 0 <= i <= j < |pts| ==> pts[i].t <= pts[j].t }

  // ---- one segment of the track ----

  /** A segment of the track relative to a stop: its start, its vector, the fraction of its nearest
      point and the distance there, absent when driven against the route. */
  datatype Segment = Segment(ax: real, ay: real, dx: real, dy: real, u: real, near: Option<real>)

  /** Where `ll * t^2 + 2 * p * t` is lowest between 0 and 1. */
  function LowestFraction(p: real, ll: real): (u: real)
    ensures 0.0 <= u <= 1.0
  {
    Clip(if ll > 0.0 then -p / ll else 0.0, 0.0, 1.0)
  }

  /** The fraction of the nearest point on the way from `(ax, ay)` along `(dx, dy)` to the origin. */
  function NearestFraction(ax: real, ay: real, dx: real, dy: real): (u: real)
    ensures 0.0 <= u <= 1.0
  {
    LowestFraction(ax * dx + ay * dy, dx * dx + dy * dy)
  }

  /** One coordinate at fraction `t`. */
  function Place(a: real, d: real, t: real): real { a + t * d }

  function Dot(dx: real, dy: real, dirX: real, dirY: real): real { dx * dirX + dy * dirY }

  function SegmentOf(g: Geometry, a: Point, b: Point, v: Visit): (s: Segment)
    ensures 0.0 <= s.u <= 1.0
  {
    var ax, ay, dx, dy := a.x - v.x, a.y - v.y, b.x - a.x, b.y - a.y;
    var u := NearestFraction(ax, ay, dx, dy);
    var against := Dot(dx, dy, v.dirX, v.dirY) < 0.0 && g.h(dx, dy) > STILL_M;
    Segment(ax, ay, dx, dy, u, if against then None else Some(g.h(Place(ax, dx, u), Place(ay, dy, u))))
  }

  function Segments(g: Geometry, pts: seq<Point>, v: Visit): (segs: seq<Segment>)
    ensures |segs| == if pts == [] then 0 else |pts| - 1
    ensures forall i :: 0 <= i < |segs| ==> 0.0 <= segs[i].u <= 1.0
  {
    if pts == [] then []
    else seq(|pts| - 1, i requires 0 <= i < |pts| - 1 => SegmentOf(g, pts[i], pts[i + 1], v))
  }

  /** `a * t^2 + b * t + c`. */
  datatype Parabola = Parabola(a: real, b: real, c: real) {
    function At(t: real): real { a * t * t + b * t + c }

    function Disc(): real { b * b - 4.0 * a * c }

    /** The smaller root. */
    function Root(sqrt: real -> real): real
      requires a > 0.0
    {
      (-b - sqrt(Disc())) / (2.0 * a)
    }
  }

  /** The square of the distance to the stop along a segment, less that of the radius. */
  function ParabolaOf(s: Segment, radius: real): Parabola {
    Parabola(s.dx * s.dx + s.dy * s.dy, 2.0 * (s.ax * s.dx + s.ay * s.dy),
             s.ax * s.ax + s.ay * s.ay - radius * radius)
  }

  /** The smaller root between 0 and `u`, 0 if the parabola starts out nonpositive. */
  function Entry(sqrt: real -> real, q: Parabola, u: real): (f: real)
    requires 0.0 <= u
    ensures 0.0 <= f <= u
  {
    if q.c <= 0.0 then 0.0
    else
      if q.a <= 0.0 || q.Disc() < 0.0 then u else Clip(q.Root(sqrt), 0.0, u)
  }

  /** The smallest fraction of a segment at which the stop is `radius` away. */
  function EntryFraction(g: Geometry, s: Segment, radius: real): (f: real)
    requires 0.0 <= s.u
    ensures 0.0 <= f <= s.u
  {
    Entry(g.sqrt, ParabolaOf(s, radius), s.u)
  }

  /** The first segment that comes within `radius`. */
  function FirstWithin(segs: seq<Segment>, radius: real): (j: nat)
    ensures j <= |segs|
    ensures j < |segs| ==> segs[j].near.Some? && segs[j].near.value <= radius
    ensures forall i :: 0 <= i < j ==> segs[i].near.None? || segs[i].near.value > radius
  {
    if segs == [] || (segs[0].near.Some? && segs[0].near.value <= radius) then 0
    else 1 + FirstWithin(segs[1..], radius)
  }

  /** `argmin` of the distances, absent ones counting as infinite: the first of the nearest. */
  function Nearest(segs: seq<Segment>): (j: nat)
    requires segs != []
    ensures j < |segs|
    ensures forall i :: 0 <= i < |segs| && segs[i].near.Some? ==>
              segs[j].near.Some? && segs[j].near.value <= segs[i].near.value
              && (i < j ==> segs[j].near.value < segs[i].near.value)
  {
    var n := |segs| - 1;
    if n == 0 then 0
    else
      var j := Nearest(segs[..n]);
      if segs[n].near.Some? && (segs[j].near.None? || segs[n].near.value < segs[j].near.value) then n else j
  }

  /** The moment at fraction `f` between two points. */
  function Moment(a: Point, b: Point, f: real): real { Lerp(a.t, b.t, f) }

  // ---- the two detectors ----

  function ArrivalTime(g: Geometry, pts: seq<Point>, v: Visit): Option<real> {
    if pts == [] then None
    else if |pts| == 1 then
      if g.h(pts[0].x - v.x, pts[0].y - v.y) <= NEAR_RADIUS_M then Some(pts[0].t) else None
    else
      var segs := Segments(g, pts, v);
      var j := FirstWithin(segs, ENTER_RADIUS_M);
      if j < |segs| then Some(Moment(pts[j], pts[j + 1], EntryFraction(g, segs[j], ENTER_RADIUS_M)))
      else
        var j := Nearest(segs);
        var lastD := g.h(pts[|pts| - 1].x - v.x, pts[|pts| - 1].y - v.y);
        var near := segs[j].near;
        if near.None? || near.value > NEAR_RADIUS_M || lastD < near.value + NEAR_LEAVE_M then None
        else Some(Moment(pts[j], pts[j + 1], segs[j].u))
  }

  function DistanceTo(g: Geometry, p: Point, v: Visit): real { g.h(p.x - v.x, p.y - v.y) }

  /** The first point from index `i` on whose distance to the stop is within the circle, or outside. */
  function FirstSide(g: Geometry, pts: seq<Point>, v: Visit, i: nat, within: bool): (k: nat)
    requires i <= |pts|
    ensures i <= k <= |pts|
    ensures k < |pts| ==> (DistanceTo(g, pts[k], v) <= DEPART_RADIUS_M) == within
    ensures forall j :: i <= j < k ==> (DistanceTo(g, pts[j], v) <= DEPART_RADIUS_M) != within
    decreases |pts| - i
  {
    if i == |pts| || (DistanceTo(g, pts[i], v) <= DEPART_RADIUS_M) == within then i
    else FirstSide(g, pts, v, i + 1, within)
  }

  /** The first stop of a trip: leaving the circle after having been in it. */
  function DepartureTime(g: Geometry, pts: seq<Point>, v: Visit): Option<real> {
    var inside := FirstSide(g, pts, v, 0, true);
    var i := FirstSide(g, pts, v, inside, false);
    if i == |pts| then None
    else
      assert inside < i;
      assert DistanceTo(g, pts[i - 1], v) <= DEPART_RADIUS_M < DistanceTo(g, pts[i], v);
      var d0, d1 := DistanceTo(g, pts[i - 1], v), DistanceTo(g, pts[i], v);
      Some(Moment(pts[i - 1], pts[i], (DEPART_RADIUS_M - d0) / (d1 - d0)))
  }

  /** A found moment lies between the first and the last point it was found in. */
  ghost predicate Inside(pts: seq<Point>, r: Option<real>) {
    r.Some? ==> pts != [] && pts[0].t <= r.value <= pts[|pts| - 1].t
  }

  lemma MomentBetween(pts: seq<Point>, j: nat, f: real)
    requires InOrder(pts) && j + 1 < |pts| && 0.0 <= f <= 1.0
    ensures Inside(pts, Some(Moment(pts[j], pts[j + 1], f)))
  {
    LerpMonotone(pts[j].t, pts[j + 1].t, 0.0, f);
    LerpMonotone(pts[j].t, pts[j + 1].t, f, 1.0);
  }

  lemma ArrivalInside(g: Geometry, pts: seq<Point>, v: Visit)
    requires InOrder(pts)
    ensures Inside(pts, ArrivalTime(g, pts, v))
  {
    if |pts| > 1 {
      var segs := Segments(g, pts, v);
      var j := FirstWithin(segs, ENTER_RADIUS_M);
      if j < |segs| {
        MomentBetween(pts, j, EntryFraction(g, segs[j], ENTER_RADIUS_M));
      } else {
        MomentBetween(pts, Nearest(segs), segs[Nearest(segs)].u);
      }
    }
  }

  lemma Crossing(radius: real, d0: real, d1: real)
    requires d0 <= radius < d1
    ensures 0.0 <= (radius - d0) / (d1 - d0) <= 1.0
  {
    Divided(0.0, radius - d0, d1 - d0);
    Divided(radius - d0, d1 - d0, d1 - d0);
  }

  lemma DepartureInside(g: Geometry, pts: seq<Point>, v: Visit)
    requires InOrder(pts)
    ensures Inside(pts, DepartureTime(g, pts, v))
  {
    var inside := FirstSide(g, pts, v, 0, true);
    var i := FirstSide(g, pts, v, inside, false);
    if i < |pts| {
      var d0, d1 := DistanceTo(g, pts[i - 1], v), DistanceTo(g, pts[i], v);
      Crossing(DEPART_RADIUS_M, d0, d1);
      MomentBetween(pts, i - 1, (DEPART_RADIUS_M - d0) / (d1 - d0));
    }
  }

  // ---- the moment of entry ----

  /** The square of the distance to the stop at fraction `t` of a segment. */
  function Square(s: Segment, t: real): real {
    (s.ax + t * s.dx) * (s.ax + t * s.dx) + (s.ay + t * s.dy) * (s.ay + t * s.dy)
  }

  /** Four times `a` times the value, with the square completed. */
  lemma Completed(q: Parabola, t: real, r: real)
    requires r * r == q.b * q.b - 4.0 * q.a * q.c
    ensures var w := 2.0 * q.a * t + q.b; 4.0 * q.a * q.At(t) == (w - r) * (w + r)
  {
    var w := 2.0 * q.a * t + q.b;
    assert (w - r) * (w + r) == w * w - r * r;
    assert w * w == 4.0 * q.a * (q.a * t * t) + 4.0 * q.a * (q.b * t) + q.b * q.b;
  }

  lemma SignOf(a: real, x: real, p: real, q: real)
    requires a > 0.0 && 4.0 * a * x == p * q
    ensures p < 0.0 && q < 0.0 ==> x > 0.0
    ensures p > 0.0 && q > 0.0 ==> x > 0.0
    ensures p == 0.0 || q == 0.0 ==> x == 0.0
    ensures x > 0.0 ==> (p < 0.0 && q < 0.0) || (p > 0.0 && q > 0.0)
  {
    if p < 0.0 && q < 0.0 {
      assert (-p) * (-q) > 0.0;
    }
    if p > 0.0 && q > 0.0 {
      assert p * q > 0.0;
    }
    if x > 0.0 {
      assert 4.0 * a * x > 0.0;
      assert p <= 0.0 && q >= 0.0 ==> (-p) * q >= 0.0;
      assert p >= 0.0 && q <= 0.0 ==> p * (-q) >= 0.0;
    }
  }

  /** Of a parabola opening upwards that is positive at 0 and not positive at `u`, the smaller root
      lies between them, and nothing before it is nonpositive. */
  lemma SmallerRoot(q: Parabola, r: real, u: real)
    requires q.a > 0.0 && q.c > 0.0 && r >= 0.0 && r * r == q.b * q.b - 4.0 * q.a * q.c
    requires u >= 0.0 && q.At(u) <= 0.0
    ensures var f := (-q.b - r) / (2.0 * q.a);
      0.0 <= f <= u && q.At(f) == 0.0 && forall t :: t < f ==> q.At(t) > 0.0
  {
    var f := (-q.b - r) / (2.0 * q.a);
    assert 2.0 * q.a * f == -q.b - r;
    Completed(q, f, r);
    SignOf(q.a, q.At(f), -r - r, 0.0);
    forall t | t < f ensures q.At(t) > 0.0 {
      assert 2.0 * q.a * t < 2.0 * q.a * f;
      Completed(q, t, r);
      SignOf(q.a, q.At(t), 2.0 * q.a * t + q.b - r, 2.0 * q.a * t + q.b + r);
    }
    RootBetween(q, r, u, f);
  }

  lemma RootBetween(q: Parabola, r: real, u: real, f: real)
    requires q.a > 0.0 && q.c > 0.0 && r >= 0.0 && r * r == q.b * q.b - 4.0 * q.a * q.c
    requires u >= 0.0 && q.At(u) <= 0.0 && 2.0 * q.a * f == -q.b - r
    requires forall t :: t < f ==> q.At(t) > 0.0
    ensures 0.0 <= f <= u
  {
    if f < 0.0 {
      assert 2.0 * q.a * f < 0.0;
      PositiveFrom(q, r, u);
    }
  }

  lemma PositiveFrom(q: Parabola, r: real, u: real)
    requires q.a > 0.0 && q.c > 0.0 && r >= 0.0 && r * r == q.b * q.b - 4.0 * q.a * q.c
    requires u >= 0.0 && q.b + r > 0.0
    ensures q.At(u) > 0.0
  {
    Completed(q, 0.0, r);
    SignOf(q.a, q.At(0.0), q.b - r, q.b + r);
    assert 2.0 * q.a * u >= 0.0;
    Completed(q, u, r);
    SignOf(q.a, q.At(u), 2.0 * q.a * u + q.b - r, 2.0 * q.a * u + q.b + r);
  }

  lemma Reaches(q: Parabola, u: real)
    requires q.c > 0.0 && q.a >= 0.0 && (q.a == 0.0 ==> q.b == 0.0) && q.At(u) <= 0.0
    ensures q.a > 0.0 && q.b * q.b - 4.0 * q.a * q.c >= 0.0
  {
    var w := 2.0 * q.a * u + q.b;
    assert w * w == 4.0 * q.a * (q.a * u * u) + 4.0 * q.a * (q.b * u) + q.b * q.b;
    assert w * w >= 0.0;
    assert 4.0 * q.a * q.At(u) == 4.0 * q.a * (q.a * u * u) + 4.0 * q.a * (q.b * u) + 4.0 * q.a * q.c;
    assert q.a * (-q.At(u)) >= 0.0;
  }

  /** What a square root is. */
  ghost predicate Roots(sqrt: real -> real) {
    forall v :: v >= 0.0 ==> sqrt(v) >= 0.0 && sqrt(v) * sqrt(v) == v
  }

  /** A parabola that has become nonpositive by `u` does so first at its entry. */
  lemma EntryIsFirstRoot(sqrt: real -> real, q: Parabola, u: real)
    requires Roots(sqrt) && 0.0 <= u && q.a >= 0.0 && (q.a == 0.0 ==> q.b == 0.0) && q.At(u) <= 0.0
    ensures var f := Entry(sqrt, q, u); q.At(f) <= 0.0 && forall t :: 0.0 <= t < f ==> q.At(t) > 0.0
  {
    if q.c > 0.0 {
      Reaches(q, u);
      var r := sqrt(q.Disc());
      assert r >= 0.0 && r * r == q.Disc();
      SmallerRoot(q, r, u);
      assert q.Root(sqrt) == (-q.b - r) / (2.0 * q.a);
      assert Entry(sqrt, q, u) == q.Root(sqrt);
    }
  }

  predicate InCircle(s: Segment, radius: real, t: real) { Square(s, t) <= radius * radius }

  /** The first moment of a segment at which the stop is within the radius. */
  ghost predicate FirstIn(s: Segment, radius: real, f: real) {
    InCircle(s, radius, f) && forall t :: 0.0 <= t < f ==> !InCircle(s, radius, t)
  }

  lemma OnCircle(s: Segment, radius: real, t: real)
    ensures InCircle(s, radius, t) <==> ParabolaOf(s, radius).At(t) <= 0.0
  {
    OneAxis(s.ax, s.dx, t);
    OneAxis(s.ay, s.dy, t);
    assert (s.dx * s.dx + s.dy * s.dy) * t * t == s.dx * s.dx * t * t + s.dy * s.dy * t * t;
  }

  lemma OneAxis(a: real, d: real, t: real)
    ensures (a + t * d) * (a + t * d) == d * d * t * t + 2.0 * (a * d) * t + a * a
  {
  }

  lemma OnCircleFrom(s: Segment, radius: real, q: Parabola, f: real)
    requires q == ParabolaOf(s, radius)
    requires q.At(f) <= 0.0 && forall t :: 0.0 <= t < f ==> q.At(t) > 0.0
    ensures FirstIn(s, radius, f)
  {
    OnCircle(s, radius, f);
    forall t | 0.0 <= t < f ensures !InCircle(s, radius, t) {
      OnCircle(s, radius, t);
    }
  }

  /** The entry into a segment that comes within the radius is the first moment at which it does. */
  lemma EntryIsFirst(g: Geometry, s: Segment, radius: real)
    requires 0.0 <= s.u && InCircle(s, radius, s.u) && Roots(g.sqrt)
    ensures FirstIn(s, radius, EntryFraction(g, s, radius))
  {
    var q := ParabolaOf(s, radius);
    NoVector(s, radius);
    OnCircle(s, radius, s.u);
    EntryIsFirstRoot(g.sqrt, q, s.u);
    OnCircleFrom(s, radius, q, Entry(g.sqrt, q, s.u));
  }

  lemma NearIsInCircle(g: Geometry, a: Point, b: Point, v: Visit, radius: real)
    requires Euclidean(g.h) && radius >= 0.0
    ensures var s := SegmentOf(g, a, b, v);
      s.near.Some? && s.near.value <= radius ==> InCircle(s, radius, s.u)
  {
    var s := SegmentOf(g, a, b, v);
    if s.near.Some? && s.near.value <= radius {
      var x, y := s.ax + s.u * s.dx, s.ay + s.u * s.dy;
      assert g.h(x, y) * g.h(x, y) == x * x + y * y;
      SquareMonotone(s.near.value, radius);
    }
  }

  lemma SquareMonotone(x: real, y: real)
    requires 0.0 <= x <= y
    ensures x * x <= y * y
  {
    assert (y - x) * (y + x) >= 0.0;
  }

  /** When any segment driven along the route comes within 15 metres of the stop, the arrival is the
      first moment of the first such segment at which it does. */
  lemma ArrivalIsFirstEntry(g: Geometry, pts: seq<Point>, v: Visit, j: nat)
    requires Euclidean(g.h) && Roots(g.sqrt) && |pts| > 1
    requires j == FirstWithin(Segments(g, pts, v), ENTER_RADIUS_M) < |pts| - 1
    ensures var s := SegmentOf(g, pts[j], pts[j + 1], v);
      var f := EntryFraction(g, s, ENTER_RADIUS_M);
      FirstIn(s, ENTER_RADIUS_M, f) && ArrivalTime(g, pts, v) == Some(Moment(pts[j], pts[j + 1], f))
  {
    var segs := Segments(g, pts, v);
    assert segs[j] == SegmentOf(g, pts[j], pts[j + 1], v);
    NearIsInCircle(g, pts[j], pts[j + 1], v, ENTER_RADIUS_M);
    EntryIsFirst(g, segs[j], ENTER_RADIUS_M);
  }

  lemma NoVector(s: Segment, radius: real)
    ensures var q := ParabolaOf(s, radius); q.a >= 0.0 && (q.a == 0.0 ==> q.b == 0.0)
  {
    var q := ParabolaOf(s, radius);
    NoVectorWith(s.ax, s.ay, s.dx, s.dy, q.a, q.b);
  }

  lemma NoVectorWith(ax: real, ay: real, dx: real, dy: real, a: real, b: real)
    requires a == dx * dx + dy * dy && b == 2.0 * (ax * dx + ay * dy)
    ensures a >= 0.0 && (a == 0.0 ==> b == 0.0)
  {
    var xx, yy := dx * dx, dy * dy;
    Positive(dx, xx);
    Positive(dy, yy);
    if xx + yy == 0.0 {
      assert dx == 0.0 && dy == 0.0;
    }
  }

  // ---- the walk over the visits ----

  /** The valid points of a track up to `until`. */
  function ValidTrack(track: seq<Point>, until: real): (pts: seq<Point>)
    ensures forall i :: 0 <= i < |pts| ==> pts[i].t <= until
    ensures forall i :: 0 <= i < |pts| ==> pts[i] in track
  {
    if track == [] then []
    else
      var k := |track| - 1;
      var pts := ValidTrack(track[..k], until);
      if track[k].valid && track[k].t <= until then pts + [track[k]] else pts
  }

  function Times(pts: seq<Point>): (ts: seq<real>)
    ensures |ts| == |pts| && forall i :: 0 <= i < |ts| ==> ts[i] == pts[i].t
  {
    seq(|pts|, i requires 0 <= i < |pts| => pts[i].t)
  }

  function Slice(pts: seq<Point>, a: nat, b: nat): seq<Point>
    requires b <= |pts|
  {
    if a <= b then pts[a..b] else []
  }

  /** The points a visit may have been made at: around its plan, not before the previous arrival. */
  function WindowOf(pts: seq<Point>, v: Visit, prev: Option<real>): seq<Point> {
    var lo := if prev.Some? then Max(v.tb - WINDOW_BEFORE_S, prev.value) else v.tb - WINDOW_BEFORE_S;
    Slice(pts, Left(Times(pts), lo), Left(Times(pts), v.tb + WINDOW_AFTER_S))
  }

  function Found(g: Geometry, pts: seq<Point>, v: Visit, prev: Option<real>): Option<real> {
    var w := WindowOf(pts, v, prev);
    if v.first then DepartureTime(g, w, v) else ArrivalTime(g, w, v)
  }

  /** The search for one visit after the previous arrival. */
  type Finder = (Visit, Option<real>) -> Option<real>

  function FinderOf(g: Geometry, pts: seq<Point>): Finder { (v, prev) => Found(g, pts, v, prev) }

  /** The arrivals at `visits` in plan order, each looked for after the one found before it. */
  function Walk(find: Finder, visits: seq<Visit>, prev: Option<real>): seq<Arrival>
    decreases |visits|
  {
    if visits == [] then []
    else
      var at := find(visits[0], prev);
      if at.None? then Walk(find, visits[1..], prev)
      else [Arrival(visits[0].id, at.value, at.value - visits[0].tb)] + Walk(find, visits[1..], at)
  }

  /** The visits planned after `since`, if given, and up to `until`. */
  function Selected(plan: seq<Visit>, until: real, since: Option<real>): (vs: seq<Visit>)
    ensures forall i :: 0 <= i < |vs| ==> vs[i] in plan && vs[i].tb <= until
  {
    if plan == [] then []
    else
      var k := |plan| - 1;
      var vs := Selected(plan[..k], until, since);
      if plan[k].tb <= until && (since.Some? ==> plan[k].tb > since.value) then vs + [plan[k]] else vs
  }

  function Detect(g: Geometry, plan: seq<Visit>, track: seq<Point>, until: real, since: Option<real>): seq<Arrival> {
    Walk(FinderOf(g, ValidTrack(track, until)), Selected(plan, until, since), None)
  }

  // ---- order and bounds ----

  /** An arrival after `prev`, no later than `until`, and close to its plan. */
  predicate Sound(a: Arrival, prev: Option<real>, until: real) {
    && (prev.Some? ==> prev.value <= a.at)
    && a.at <= until
    && -WINDOW_BEFORE_S <= a.delay < WINDOW_AFTER_S
  }

  predicate AllSound(arrivals: seq<Arrival>, prev: Option<real>, until: real)
    decreases |arrivals|
  {
    arrivals != [] ==> Sound(arrivals[0], prev, until) && AllSound(arrivals[1..], Some(arrivals[0].at), until)
  }

  lemma {:induction false} TrackInOrder(track: seq<Point>, until: real)
    requires InOrder(track)
    ensures InOrder(ValidTrack(track, until))
    ensures forall i :: 0 <= i < |ValidTrack(track, until)| ==>
              track != [] && ValidTrack(track, until)[i].t <= track[|track| - 1].t
  {
    if track != [] {
      TrackInOrder(track[..|track| - 1], until);
    }
  }

  /** Every point of a visit's window lies in the time the visit allows. */
  lemma WindowBounds(pts: seq<Point>, v: Visit, prev: Option<real>)
    requires InOrder(pts)
    ensures var w := WindowOf(pts, v, prev);
      && InOrder(w)
      && (forall i :: 0 <= i < |w| ==>
            && w[i] in pts && v.tb - WINDOW_BEFORE_S <= w[i].t < v.tb + WINDOW_AFTER_S
            && (prev.Some? ==> prev.value <= w[i].t))
  {
    var lo := if prev.Some? then Max(v.tb - WINDOW_BEFORE_S, prev.value) else v.tb - WINDOW_BEFORE_S;
    LeftSplits(Times(pts), lo);
    LeftSplits(Times(pts), v.tb + WINDOW_AFTER_S);
  }

  lemma FoundIsSound(g: Geometry, pts: seq<Point>, v: Visit, prev: Option<real>, until: real)
    requires InOrder(pts) && forall i :: 0 <= i < |pts| ==> pts[i].t <= until
    ensures var at := Found(g, pts, v, prev);
      at.Some? ==> Sound(Arrival(v.id, at.value, at.value - v.tb), prev, until)
  {
    var w := WindowOf(pts, v, prev);
    WindowBounds(pts, v, prev);
    ArrivalInside(g, w, v);
    DepartureInside(g, w, v);
    assert Inside(w, Found(g, pts, v, prev));
    if w != [] {
      assert w[0] in pts && w[|w| - 1] in pts;
    }
  }

  predicate SoundFind(find: Finder, v: Visit, prev: Option<real>, until: real) {
    var at := find(v, prev);
    at.Some? ==> Sound(Arrival(v.id, at.value, at.value - v.tb), prev, until)
  }

  lemma {:induction false} WalkIsSound(find: Finder, visits: seq<Visit>, prev: Option<real>, until: real)
    requires forall v, p :: SoundFind(find, v, p, until)
    ensures AllSound(Walk(find, visits, prev), prev, until)
    decreases |visits|
  {
    if visits != [] {
      var at := find(visits[0], prev);
      assert SoundFind(find, visits[0], prev, until);
      WalkIsSound(find, visits[1..], if at.None? then prev else at, until);
    }
  }

  lemma FinderIsSound(g: Geometry, track: seq<Point>, until: real)
    requires InOrder(track)
    ensures forall v, p :: SoundFind(FinderOf(g, ValidTrack(track, until)), v, p, until)
  {
    TrackInOrder(track, until);
    forall v, p ensures SoundFind(FinderOf(g, ValidTrack(track, until)), v, p, until) {
      FoundIsSound(g, ValidTrack(track, until), v, p, until);
    }
  }

  /** Detected arrivals never decrease in plan order, are never later than `until`, and are at most
      12 minutes before and less than 20 minutes after their plan. */
  lemma DetectIsSound(g: Geometry, plan: seq<Visit>, track: seq<Point>, until: real, since: Option<real>)
    requires InOrder(track)
    ensures var found := Detect(g, plan, track, until, since);
      && (forall i :: 0 <= i < |found| ==> Sound(found[i], None, until))
      && (forall i, j :: 0 <= i <= j < |found| ==> found[i].at <= found[j].at)
  {
    FinderIsSound(g, track, until);
    WalkIsSound(FinderOf(g, ValidTrack(track, until)), Selected(plan, until, since), None, until);
    Unchain(Detect(g, plan, track, until, since), None, until);
  }

  lemma {:induction false} Unchain(found: seq<Arrival>, prev: Option<real>, until: real)
    requires AllSound(found, prev, until)
    ensures forall i :: 0 <= i < |found| ==> Sound(found[i], prev, until)
    ensures forall i, j :: 0 <= i <= j < |found| ==> found[i].at <= found[j].at
    decreases |found|
  {
    if found != [] {
      Unchain(found[1..], Some(found[0].at), until);
      forall i | 0 <= i < |found| ensures Sound(found[i], prev, until) && found[0].at <= found[i].at {
        if i > 0 {
          assert Sound(found[1..][i - 1], Some(found[0].at), until);
        }
      }
      forall i, j | 0 <= i <= j < |found| ensures found[i].at <= found[j].at {
        if i > 0 {
          assert found[1..][i - 1].at <= found[1..][j - 1].at;
        }
      }
    }
  }

  /** Points after `until` change nothing. */
  lemma DetectIsAsOf(
      g: Geometry, plan: seq<Visit>, track: seq<Point>, later: seq<Point>, until: real, since: Option<real>)
    requires forall i :: 0 <= i < |later| ==> later[i].t > until
    ensures Detect(g, plan, track + later, until, since) == Detect(g, plan, track, until, since)
  {
    LaterIsIgnored(track, later, until);
  }

  lemma {:induction false} LaterIsIgnored(track: seq<Point>, later: seq<Point>, until: real)
    requires forall i :: 0 <= i < |later| ==> later[i].t > until
    ensures ValidTrack(track + later, until) == ValidTrack(track, until)
  {
    var k := |later| - 1;
    if later == [] {
      assert track + later == track;
    } else {
      assert (track + later)[..|track + later| - 1] == track + later[..k];
      LaterIsIgnored(track, later[..k], until);
    }
  }

  // ---- the loop ----

  lemma WalkFrom(find: Finder, visits: seq<Visit>, k: nat, prev: Option<real>, rest: seq<Visit>)
    requires k < |visits| && rest == visits[k..]
    ensures var at := find(visits[k], prev);
      Walk(find, rest, prev)
      == if at.None? then Walk(find, visits[k + 1..], prev)
         else [Arrival(visits[k].id, at.value, at.value - visits[k].tb)] + Walk(find, visits[k + 1..], at)
  {
    assert rest[1..] == visits[k + 1..];
  }

  lemma Moved(found: seq<Arrival>, a: Arrival, rest: seq<Arrival>)
    ensures found + ([a] + rest) == (found + [a]) + rest
  {
  }

  /** The walk as the program runs it: one pass over the visits, remembering the last arrival. */
  method WalkVisits(find: Finder, visits: seq<Visit>) returns (found: seq<Arrival>)
    ensures found == Walk(find, visits, None)
  {
    var prev: Option<real> := None;
    found := [];
    for k := 0 to |visits|
      invariant found + Walk(find, visits[k..], prev) == Walk(find, visits, None)
    {
      WalkFrom(find, visits, k, prev, visits[k..]);
      var at := find(visits[k], prev);
      if at.Some? {
        var a := Arrival(visits[k].id, at.value, at.value - visits[k].tb);
        Moved(found, a, Walk(find, visits[k + 1..], at));
        found := found + [a];
        prev := at;
      }
    }
  }

  method DetectArrivals(g: Geometry, plan: seq<Visit>, track: seq<Point>, until: real, since: Option<real>)
    returns (found: seq<Arrival>)
    ensures found == Detect(g, plan, track, until, since)
  {
    found := WalkVisits(FinderOf(g, ValidTrack(track, until)), Selected(plan, until, since));
  }

  /** The deviation of a vehicle now: the delay of its last arrival in the look-back window. */
  function OnlineDeviation(g: Geometry, plan: seq<Visit>, track: seq<Point>, t: real): (r: Option<real>) {
    var found := Detect(g, plan, track, t, Some(t - 2700.0));
    if found == [] then None else Some(found[|found| - 1].delay)
  }

  /** It is bounded by the detector's window and depends on no later point. */
  lemma OnlineDeviationBounds(g: Geometry, plan: seq<Visit>, track: seq<Point>, later: seq<Point>, t: real)
    requires InOrder(track) && forall i :: 0 <= i < |later| ==> later[i].t > t
    ensures var r := OnlineDeviation(g, plan, track + later, t);
      && r == OnlineDeviation(g, plan, track, t)
      && (r.Some? ==> -WINDOW_BEFORE_S <= r.value < WINDOW_AFTER_S)
  {
    DetectIsAsOf(g, plan, track, later, t, Some(t - 2700.0));
    DetectIsSound(g, plan, track, t, Some(t - 2700.0));
  }
}
