/** How long an alert condition has held: the counter the book keeps pass by pass, and the run
    lengths the offline replay computes from a sorted table of predictions. */
module Streaks {
  import opened Incidents

  // ---- online ----

  datatype TimedPass = TimedPass(minute: int, preds: seq<Prediction>)

  predicate Alerts(policy: Policy, p: Prediction, visit: string) {
    p.visit == visit && p.horizonOk && Hits(policy, p)
  }

  /** The visit is in the window and meets the alert condition. */
  predicate HitIn(policy: Policy, preds: seq<Prediction>, visit: string) {
    exists i :: 0 <= i < |preds| && Alerts(policy, preds[i], visit)
  }

  /** The series of a vehicle after observing the passes one by one. */
  function ObserveAll(policy: Policy, passes: seq<TimedPass>): map<string, nat> {
    if passes == [] then map[]
    else
      var n := |passes| - 1;
      NextSeries(policy, ObserveAll(policy, passes[..n]), passes[n].preds)
  }

  lemma {:induction false} NextSeriesAt(policy: Policy, prev: map<string, nat>, preds: seq<Prediction>, visit: string)
    ensures SeriesOf(NextSeries(policy, prev, preds), visit)
         == if HitIn(policy, preds, visit) then SeriesOf(prev, visit) + 1 else 0
  {
    if preds != [] {
      var n := |preds| - 1;
      NextSeriesAt(policy, prev, preds[..n], visit);
      assert HitIn(policy, preds, visit) <==> HitIn(policy, preds[..n], visit) || Alerts(policy, preds[n], visit) by {
        assert forall i :: 0 <= i < n ==> preds[..n][i] == preds[i];
      }
    }
  }

  /** One pass as a visit sees it. */
  datatype Mark = Mark(minute: int, hit: bool)

  function Marks(policy: Policy, passes: seq<TimedPass>, visit: string): (marks: seq<Mark>)
    ensures |marks| == |passes|
  {
    seq(|passes|, i requires 0 <= i < |passes| => Mark(passes[i].minute, HitIn(policy, passes[i].preds, visit)))
  }

  /** The length of the maximal suffix of hits. */
  function Suffix(marks: seq<Mark>): nat {
    if marks == [] || !marks[|marks| - 1].hit then 0 else 1 + Suffix(marks[..|marks| - 1])
  }

  lemma {:induction false} OnlineIsSuffix(policy: Policy, passes: seq<TimedPass>, visit: string)
    ensures SeriesOf(ObserveAll(policy, passes), visit) == Suffix(Marks(policy, passes, visit))
  {
    if passes != [] {
      var n := |passes| - 1;
      OnlineIsSuffix(policy, passes[..n], visit);
      NextSeriesAt(policy, ObserveAll(policy, passes[..n]), passes[n].preds, visit);
      assert Marks(policy, passes, visit)[..n] == Marks(policy, passes[..n], visit);
    }
  }

  lemma {:induction false} SuffixIsMaximal(marks: seq<Mark>)
    ensures var n, k := |marks|, Suffix(marks);
      && k <= n
      && (forall i :: n - k <= i < n ==> marks[i].hit)
      && (k < n ==> !marks[n - k - 1].hit)
  {
    if marks != [] && marks[|marks| - 1].hit {
      SuffixIsMaximal(marks[..|marks| - 1]);
    }
  }

  // ---- offline ----

  datatype Row = Row(vehicle: string, visit: string, minute: int, ok: bool)

  predicate SameKey(a: Row, b: Row) {
    a.vehicle == b.vehicle && a.visit == b.visit
  }

  /** What sorting by vehicle, visit and time gives: keys lie together, times grow within a key. */
  predicate Sorted(rows: seq<Row>) {
    && (forall i, j :: 0 <= i < j < |rows| && SameKey(rows[i], rows[j]) ==> rows[i].minute < rows[j].minute)
    && (forall i, j, k :: 0 <= i < j < k < |rows| && SameKey(rows[i], rows[k]) ==> SameKey(rows[i], rows[j]))
  }

  /** The previous row is the same visit one minute earlier, and it met the condition. */
  predicate Continued(rows: seq<Row>, i: nat)
    requires i < |rows|
  {
    i > 0 && SameKey(rows[i], rows[i - 1]) && rows[i].minute - rows[i - 1].minute == 1 && rows[i - 1].ok
  }

  /** The run a row belongs to: the cumulative sum of run starts. */
  function RunOf(rows: seq<Row>, i: nat): nat
    requires i < |rows|
  {
    (if !Continued(rows, i) || !rows[i].ok then 1 else 0) + (if i == 0 then 0 else RunOf(rows, i - 1))
  }

  /** How many of the first `n` rows belong to `run`. */
  function CountOf(rows: seq<Row>, run: nat, n: nat): nat
    requires n <= |rows|
  {
    if n == 0 then 0 else CountOf(rows, run, n - 1) + (if RunOf(rows, n - 1) == run then 1 else 0)
  }

  /** Position within the run plus one, zero where the condition does not hold. */
  function RunLength(rows: seq<Row>, i: nat): nat
    requires i < |rows|
  {
    if rows[i].ok then CountOf(rows, RunOf(rows, i), i) + 1 else 0
  }

  lemma {:induction false} NoEarlierRun(rows: seq<Row>, run: nat, n: nat)
    requires n <= |rows| && (n > 0 ==> RunOf(rows, n - 1) < run)
    ensures CountOf(rows, run, n) == 0
    decreases n
  {
    if n > 0 {
      NoEarlierRun(rows, run, n - 1);
    }
  }

  /** The vectorised run length obeys the recurrence of a counter. */
  lemma RunLengthStep(rows: seq<Row>, i: nat)
    requires i < |rows|
    ensures RunLength(rows, i)
         == if !rows[i].ok then 0 else if Continued(rows, i) then RunLength(rows, i - 1) + 1 else 1
  {
    if rows[i].ok && !Continued(rows, i) {
      NoEarlierRun(rows, RunOf(rows, i), i);
    }
  }

  // ---- the two agree ----

  predicate OneMinuteApart(marks: seq<Mark>, i: nat)
    requires 0 < i < |marks|
  {
    marks[i].minute == marks[i - 1].minute + 1
  }

  /** The length of the maximal suffix of hits in consecutive minutes. */
  function Dense(marks: seq<Mark>): nat {
    var n := |marks|;
    if n == 0 || !marks[n - 1].hit then 0
    else if n >= 2 && OneMinuteApart(marks, n - 1) then 1 + Dense(marks[..n - 1])
    else 1
  }

  predicate Increasing(marks: seq<Mark>) {
    forall i, j :: 0 <= i < j < |marks| ==> marks[i].minute < marks[j].minute
  }

  predicate RowOf(row: Row, vehicle: string, visit: string) {
    row.vehicle == vehicle && row.visit == visit
  }

  /** The table holds what the passes predicted for the visit: every row is a pass, every pass
      that hits has its row. */
  predicate Logged(rows: seq<Row>, vehicle: string, visit: string, marks: seq<Mark>) {
    && (forall i :: 0 <= i < |rows| && RowOf(rows[i], vehicle, visit) ==>
          Mark(rows[i].minute, rows[i].ok) in marks)
    && (forall m :: 0 <= m < |marks| && marks[m].hit ==>
          Row(vehicle, visit, marks[m].minute, true) in rows)
  }

  /** The row of the visit one pass and one minute earlier carries the run, if it was a hit. */
  lemma RowStep(rows: seq<Row>, vehicle: string, visit: string, marks: seq<Mark>, i: nat, m: nat) returns (j: nat)
    requires Sorted(rows) && Increasing(marks) && Logged(rows, vehicle, visit, marks)
    requires i < |rows| && RowOf(rows[i], vehicle, visit)
    requires m < |marks| && marks[m].minute == rows[i].minute
    ensures !marks[m].hit ==> RunLength(rows, i) == 0
    ensures marks[m].hit && !(m > 0 && OneMinuteApart(marks, m) && marks[m - 1].hit) ==> RunLength(rows, i) == 1
    ensures marks[m].hit && m > 0 && OneMinuteApart(marks, m) && marks[m - 1].hit ==>
      && j < |rows| && RowOf(rows[j], vehicle, visit) && rows[j].minute == marks[m - 1].minute
      && RunLength(rows, i) == RunLength(rows, j) + 1
  {
    j := i;
    RunLengthStep(rows, i);
    SameMinuteSameMark(marks, m, Mark(rows[i].minute, rows[i].ok));
    if rows[i].ok {
      if m > 0 && OneMinuteApart(marks, m) && marks[m - 1].hit {
        j :| 0 <= j < |rows| && rows[j] == Row(vehicle, visit, marks[m - 1].minute, true);
        PreviousRow(rows, j, i);
      } else {
        NotContinued(rows, vehicle, visit, marks, i, m);
      }
    }
  }

  lemma {:induction false} OfflineIsDense(
      rows: seq<Row>, vehicle: string, visit: string, marks: seq<Mark>, i: nat, m: nat)
    requires Sorted(rows) && Increasing(marks) && Logged(rows, vehicle, visit, marks)
    requires i < |rows| && RowOf(rows[i], vehicle, visit)
    requires m < |marks| && marks[m].minute == rows[i].minute
    ensures RunLength(rows, i) == Dense(marks[..m + 1])
    decreases m
  {
    var j := RowStep(rows, vehicle, visit, marks, i, m);
    DenseStep(marks, m);
    if marks[m].hit && m > 0 && OneMinuteApart(marks, m) && marks[m - 1].hit {
      OfflineIsDense(rows, vehicle, visit, marks, j, m - 1);
    }
  }

  lemma DenseStep(marks: seq<Mark>, m: nat)
    requires m < |marks|
    ensures Dense(marks[..m + 1])
         == if !marks[m].hit then 0
            else if m > 0 && OneMinuteApart(marks, m) && marks[m - 1].hit then 1 + Dense(marks[..m])
            else 1
  {
    assert marks[..m + 1][..m] == marks[..m];
  }

  lemma SameMinuteSameMark(marks: seq<Mark>, m: nat, mark: Mark)
    requires Increasing(marks) && mark in marks && m < |marks| && marks[m].minute == mark.minute
    ensures marks[m] == mark
  {
  }

  lemma KeysLieTogether(rows: seq<Row>, i: nat, j: nat, k: nat)
    requires Sorted(rows) && i < j < k < |rows| && SameKey(rows[i], rows[k])
    ensures rows[i].minute < rows[j].minute < rows[k].minute
  {
    assert SameKey(rows[i], rows[j]) && SameKey(rows[j], rows[k]);
  }

  /** Nothing lies between a row and the row of the same visit one minute later. */
  lemma PreviousRow(rows: seq<Row>, j: nat, i: nat)
    requires Sorted(rows) && j < |rows| && i < |rows|
    requires SameKey(rows[j], rows[i]) && SameKey(rows[i], rows[j]) && rows[i].minute == rows[j].minute + 1
    ensures j == i - 1
  {
    if j < i - 1 {
      KeysLieTogether(rows, j, i - 1, i);
    }
  }

  lemma NotContinued(rows: seq<Row>, vehicle: string, visit: string, marks: seq<Mark>, i: nat, m: nat)
    requires Increasing(marks) && Logged(rows, vehicle, visit, marks)
    requires i < |rows| && RowOf(rows[i], vehicle, visit) && rows[i].ok
    requires m < |marks| && marks[m].minute == rows[i].minute
    requires m > 0 && OneMinuteApart(marks, m) ==> !marks[m - 1].hit
    ensures !Continued(rows, i)
  {
    if Continued(rows, i) {
      var k :| 0 <= k < |marks| && marks[k] == Mark(rows[i - 1].minute, rows[i - 1].ok);
      EarlierMinute(marks, k, m);
    }
  }

  lemma EarlierMinute(marks: seq<Mark>, k: nat, m: nat)
    requires Increasing(marks) && k < |marks| && m < |marks| && marks[m].minute == marks[k].minute + 1
    ensures k == m - 1
  {
    if k < m - 1 {
      MinutesBetween(marks, k, m - 1, m);
    }
  }

  lemma MinutesBetween(marks: seq<Mark>, k: nat, l: nat, m: nat)
    requires Increasing(marks) && k < l < m < |marks|
    ensures marks[k].minute < marks[l].minute < marks[m].minute
  {
  }

  /** Minutes follow each other without a gap over the last `k` marks. */
  predicate Gapless(marks: seq<Mark>, k: nat) {
    forall i :: 0 < i < |marks| && i > |marks| - k ==> OneMinuteApart(marks, i)
  }

  lemma GaplessStep(marks: seq<Mark>, k: nat)
    requires 0 < k < |marks|
    ensures Gapless(marks, k + 1)
       <==> OneMinuteApart(marks, |marks| - 1) && Gapless(marks[..|marks| - 1], k)
  {
    var n := |marks| - 1;
    forall i | 0 < i < n
      ensures OneMinuteApart(marks[..n], i) == OneMinuteApart(marks, i)
    {
    }
    if OneMinuteApart(marks, n) && Gapless(marks[..n], k) {
      forall i | 0 < i < |marks| && i > |marks| - (k + 1)
        ensures OneMinuteApart(marks, i)
      {
        if i < n { assert OneMinuteApart(marks[..n], i); }
      }
    }
  }

  /** The minute-wise length never exceeds the pass-wise one, and they are equal exactly when the
      passes of the series follow each other minute by minute. */
  lemma {:induction false} DenseIffGapless(marks: seq<Mark>)
    ensures Dense(marks) <= Suffix(marks)
    ensures Dense(marks) == Suffix(marks) <==> Gapless(marks, Suffix(marks))
  {
    var n := |marks|;
    if n > 0 && marks[n - 1].hit {
      var init := marks[..n - 1];
      DenseIffGapless(init);
      SuffixIsMaximal(init);
      if Suffix(init) > 0 {
        GaplessStep(marks, Suffix(init));
      }
    }
  }

  /** The run length the replay computes for a row equals the counter the book had after the pass
      of that minute exactly when the passes of the series were one minute apart. */
  lemma OfflineEqualsOnlineIff(
      policy: Policy, rows: seq<Row>, vehicle: string, visit: string, passes: seq<TimedPass>, i: nat, m: nat)
    requires Sorted(rows) && i < |rows| && RowOf(rows[i], vehicle, visit)
    requires m < |passes| && passes[m].minute == rows[i].minute
    requires Increasing(Marks(policy, passes, visit)) && Logged(rows, vehicle, visit, Marks(policy, passes, visit))
    ensures var online := SeriesOf(ObserveAll(policy, passes[..m + 1]), visit);
      && RunLength(rows, i) <= online
      && (RunLength(rows, i) == online <==> Gapless(Marks(policy, passes[..m + 1], visit), online))
  {
    OfflineIsDense(rows, vehicle, visit, Marks(policy, passes, visit), i, m);
    assert Marks(policy, passes, visit)[..m + 1] == Marks(policy, passes[..m + 1], visit);
    OnlineIsSuffix(policy, passes[..m + 1], visit);
    DenseIffGapless(Marks(policy, passes[..m + 1], visit));
  }

  /** A skipped minute: two passes in a row, at minutes 0 and 2, predict a delay above the threshold. The book
      counts two, the replay one. */
  lemma SkippedMinuteDiffers(vehicle: string, visit: string)
    ensures var policy := Policy(120.0, 1.0, false, 2);
      var preds := [Prediction(visit, 1, 600, true, 180.0, 0.9, 2)];
      var passes := [TimedPass(0, preds), TimedPass(2, preds)];
      var rows := [Row(vehicle, visit, 0, true), Row(vehicle, visit, 2, true)];
      && Sorted(rows) && Logged(rows, vehicle, visit, Marks(policy, passes, visit))
      && SeriesOf(ObserveAll(policy, passes), visit) == 2
      && RunLength(rows, 1) == 1
  {
    var policy := Policy(120.0, 1.0, false, 2);
    var preds := [Prediction(visit, 1, 600, true, 180.0, 0.9, 2)];
    var passes := [TimedPass(0, preds), TimedPass(2, preds)];
    var rows := [Row(vehicle, visit, 0, true), Row(vehicle, visit, 2, true)];
    assert Alerts(policy, preds[0], visit);
    var marks := Marks(policy, passes, visit);
    assert marks == [Mark(0, true), Mark(2, true)];
    assert marks[0] in marks && marks[1] in marks && rows[0] in rows && rows[1] in rows;
    OnlineIsSuffix(policy, passes, visit);
    assert marks[..1] == [Mark(0, true)] && Suffix(marks[..1]) == 1;
    RunLengthStep(rows, 1);
  }
}
