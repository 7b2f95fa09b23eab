/** The choices of the matcher by score, on the lines of a plan. */
module MatchEnv {
  import opened Options
  import opened RouteLine
  import opened Candidates
  import opened Matching

  /** The record of a match on line `i` at progress `s`. */
  function Result(trips: Trips, p: Point, i: nat, s: real, dist: real, onRoute: bool): MatchResult
    requires trips.Valid() && i < |trips.lines|
  {
    var line := trips.lines[i];
    var (prev, next) := StopsAround(line, s);
    MatchResult(p.t, line.trip, s, if prev < |line.segLen| then prev else |line.segLen| - 1, dist, line.rows[prev],
                match next case None => None case Some(k) => Some(line.rows[k]),
                match next case None => None case Some(k) => Some(line.cum[k] - s),
                onRoute && dist <= ON_ROUTE_M)
  }

  const NO_MATCH := MatchResult(0.0, 0, 0.0, 0, 0.0, 0, None, None, false)

  function Tracks(trips: Trips): (nat, real, Point, Option<Heading>, real) -> Option<Cand>
    requires trips.Valid()
  {
    (i: nat, s: real, p: Point, heading: Option<Heading>, dt: real) =>
      if i < |trips.lines| && 0.0 <= s <= trips.lines[i].Length() && dt >= 0.0 then Track(trips, i, s, p, heading, dt)
      else None
  }

  function Searches(trips: Trips): (Point, Option<Heading>) -> Option<Cand>
    requires trips.Valid()
  {
    (p, heading) => Search(trips, p, heading)
  }

  function Arrives(trips: Trips): (nat, Point) -> Option<Cand>
    requires trips.Valid()
  {
    (i: nat, p: Point) => if i < |trips.lines| then Arrival(trips, i, p) else None
  }

  function Results(trips: Trips): (Point, nat, real, real, bool) -> MatchResult
    requires trips.Valid()
  {
    (p: Point, i: nat, s: real, dist: real, on: bool) =>
      if i < |trips.lines| then Result(trips, p, i, s, dist, on) else NO_MATCH
  }

  function LinesOf(trips: Trips): (lines: seq<Line>)
    requires trips.Valid()
    ensures |lines| == |trips.lines|
    ensures forall i :: 0 <= i < |lines| ==>
      lines[i] == Line(trips.lines[i].trip, trips.lines[i].Length(), trips.lines[i].End())
  {
    seq(|trips.lines|, i requires 0 <= i < |trips.lines| =>
      Line(trips.lines[i].trip, trips.lines[i].Length(), trips.lines[i].End()))
  }

  /** The matcher's environment on the given trips. */
  function EnvOf(trips: Trips): Env
    requires trips.Valid()
  {
    Env(LinesOf(trips), Tracks(trips), Searches(trips), Arrives(trips), trips.h, Results(trips))
  }

  lemma TracksLie(trips: Trips, i: nat, s: real, p: Point, heading: Option<Heading>, dt: real)
    requires trips.Valid() && i < |trips.lines| && 0.0 <= s <= trips.lines[i].Length() && dt >= 0.0
    ensures Tracked(LinesOf(trips), i, Tracks(trips)(i, s, p, heading, dt))
  {
    var c := Track(trips, i, s, p, heading, dt);
    assert Tracks(trips)(i, s, p, heading, dt) == c;
  }

  lemma SearchesLie(trips: Trips, p: Point, heading: Option<Heading>)
    requires trips.Valid()
    ensures var c := Searches(trips)(p, heading); c.Some? ==> Lies(LinesOf(trips), c.value)
  {
    var c := Search(trips, p, heading);
    assert Searches(trips)(p, heading) == c;
  }

  lemma ArrivesLie(trips: Trips, i: nat, p: Point)
    requires trips.Valid() && i < |trips.lines|
    ensures Arrived(LinesOf(trips), i, Arrives(trips)(i, p))
  {
    var c := Arrival(trips, i, p);
    assert Arrives(trips)(i, p) == c;
  }

  lemma ResultsTell(trips: Trips, p: Point, i: nat, s: real, dist: real, on: bool)
    requires trips.Valid() && i < |trips.lines|
    ensures Records(LinesOf(trips), p, i, s, dist, on, Results(trips)(p, i, s, dist, on))
  {
  }

  /** The choices by score lie on their lines, and are missing only where a line has no length. */
  lemma EnvOfIsValid(trips: Trips)
    requires trips.Valid()
    ensures EnvOf(trips).Valid()
  {
    var env, lines := EnvOf(trips), LinesOf(trips);
    var track, search, arrive, result := Tracks(trips), Searches(trips), Arrives(trips), Results(trips);
    forall i: nat, s, p, heading, dt | i < |lines| && 0.0 <= s <= lines[i].length && dt >= 0.0
      ensures Tracked(lines, i, track(i, s, p, heading, dt))
    {
      TracksLie(trips, i, s, p, heading, dt);
    }
    forall p, heading | search(p, heading).Some? ensures Lies(lines, search(p, heading).value) {
      SearchesLie(trips, p, heading);
    }
    forall i: nat, p | i < |lines| ensures Arrived(lines, i, arrive(i, p)) {
      ArrivesLie(trips, i, p);
    }
    forall p, i: nat, s, d, on | i < |lines| ensures Records(lines, p, i, s, d, on, result(p, i, s, d, on)) {
      ResultsTell(trips, p, i, s, d, on);
    }
    ValidFrom(env, lines, track, search, arrive, trips.h, result);
  }

  lemma ValidFrom(env: Env, lines: seq<Line>,
      track: (nat, real, Point, Option<Heading>, real) -> Option<Cand>,
      search: (Point, Option<Heading>) -> Option<Cand>, arrive: (nat, Point) -> Option<Cand>,
      h: Distance, result: (Point, nat, real, real, bool) -> MatchResult)
    requires env == Env(lines, track, search, arrive, h, result)
    requires forall i, j :: 0 <= i < j < |lines| ==> lines[i].trip != lines[j].trip
    requires forall i: nat, s, p, heading, dt :: i < |lines| && 0.0 <= s <= lines[i].length && dt >= 0.0 ==>
               Tracked(lines, i, track(i, s, p, heading, dt))
    requires forall p, heading :: search(p, heading).Some? ==> Lies(lines, search(p, heading).value)
    requires forall i: nat, p :: i < |lines| ==> Arrived(lines, i, arrive(i, p))
    requires forall p, i: nat, s, d, on :: i < |lines| ==> Records(lines, p, i, s, d, on, result(p, i, s, d, on))
    ensures env.Valid()
  {
  }

  lemma BracketIsUnique(line: TripLine, s: real, a: nat, b: nat)
    requires line.Valid() && a < |line.cum| && b < |line.cum| && line.cum[a] <= s && line.cum[b] <= s
    requires a + 1 < |line.cum| ==> s < line.cum[a + 1]
    requires b + 1 < |line.cum| ==> s < line.cum[b + 1]
    ensures a == b
  {
  }

  /** The record of a match at `s`: the last stop not after it, the first after it and how far that is, none at the
      end of the line; on the route only within 120 metres. */
  lemma RecordTells(trips: Trips, p: Point, i: nat, s: real, dist: real, on: bool, k: nat)
    requires trips.Valid() && i < |trips.lines| && k < |trips.lines[i].cum|
    requires var line := trips.lines[i];
      && 0.0 <= s <= line.Length() && line.cum[k] <= s && (k + 1 < |line.cum| ==> s < line.cum[k + 1])
    ensures var line, m := trips.lines[i], Results(trips)(p, i, s, dist, on);
      && m.t == p.t && m.trip == line.trip && m.progress == s && m.offset == dist
      && m.prevStop == line.rows[k]
      && (if k + 1 < |line.cum| then
            m.segment == k && m.nextStop == Some(line.rows[k + 1]) && m.toNext == Some(line.cum[k + 1] - s)
          else m.segment == k - 1 && m.nextStop == None && m.toNext == None)
      && (m.onRoute <==> on && dist <= 120.0)
  {
    var line := trips.lines[i];
    var (prev, next) := StopsAround(line, s);
    StopsAroundBracket(line, s);
    BracketIsUnique(line, s, prev, k);
  }
}
