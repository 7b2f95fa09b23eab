/** When passes run, and why a pass prepared in one session is never applied in another. */
module Scheduler {
  import opened Options

  /** A pass between its two halves: the minute, the epoch captured when it started, and (for the
      statement below) the epoch its inputs were copied in. */
  datatype Flight = Flight(minute: int, epoch: nat, preparedIn: nat)

  /** A pass whose results were applied, in which epoch, and which epoch its inputs came from. */
  datatype Applied = Applied(minute: int, epoch: nat, preparedIn: nat)

  /** `last` and `epoch` are the runner's; `sessionEpoch` is the runtime's, bumped by every session
      reset; at most one pass is in flight because the loop awaits it. */
  datatype Runner = Runner(
    last: Option<int>, epoch: Option<nat>, sessionEpoch: nat, flight: Option<Flight>, log: seq<Applied>)

  const IDLE := Runner(None, None, 0, None, [])

  /** `Tick` is a round of the loop: `active` says a session runs, `rested` that half a second has
      passed since the last pass, `minute` is the current sim minute. `Reset` may come at any
      moment, also while a pass is in flight. `Fail` is a pass that raises. */
  datatype Step = Tick(active: bool, rested: bool, minute: int) | Reset | Finish | Fail

  /** `due`: first notices a new epoch, then decides whether the minute is new. */
  function Due(r: Runner, active: bool, rested: bool, minute: int): (Runner, Option<int>) {
    if !active then (r, None)
    else
      var seen := if r.epoch != Some(r.sessionEpoch) then r.(last := None, epoch := Some(r.sessionEpoch)) else r;
      if seen.last.Some? && !rested then (seen, None)
      else if seen.last.None? || minute > seen.last.value then (seen, Some(minute))
      else (seen, None)
  }

  function Next(r: Runner, step: Step): Runner {
    match step
    case Tick(active, rested, minute) =>
      if r.flight.Some? then r
      else
        var (seen, due) := Due(r, active, rested, minute);
        if due.None? then seen
        else seen.(flight := Some(Flight(due.value, seen.sessionEpoch, seen.sessionEpoch)))
    case Reset => r.(sessionEpoch := r.sessionEpoch + 1)
    case Finish =>
      if r.flight.None? then r
      else
        var f := r.flight.value;
        if f.epoch != r.sessionEpoch then r.(flight := None)
        else
          r.(flight := None, last := Some(f.minute), log := r.log + [Applied(f.minute, r.sessionEpoch, f.preparedIn)])
    case Fail =>
      if r.flight.None? then r else r.(flight := None, last := Some(r.flight.value.minute))
  }

  /** Results are applied in the epoch they were prepared in, and the applied minutes of an epoch
      strictly increase. */
  predicate Guarded(log: seq<Applied>) {
    && (forall i :: 0 <= i < |log| ==> log[i].preparedIn == log[i].epoch)
    && (forall i, j :: 0 <= i < j < |log| ==> log[i].epoch <= log[j].epoch)
    && (forall i, j :: 0 <= i < j < |log| && log[i].epoch == log[j].epoch ==> log[i].minute < log[j].minute)
  }

  /** Nothing was applied in a later epoch, nor in this one at a later minute. */
  predicate Past(log: seq<Applied>, epoch: Option<nat>, last: Option<int>) {
    forall i :: 0 <= i < |log| ==>
      && epoch.Some? && log[i].epoch <= epoch.value
      && (log[i].epoch == epoch.value ==> last.Some? && log[i].minute <= last.value)
  }

  predicate Invariant(r: Runner) {
    && Guarded(r.log)
    && (r.epoch.Some? ==> r.epoch.value <= r.sessionEpoch)
    && Past(r.log, r.epoch, r.last)
    && (r.flight.Some? ==>
          var f := r.flight.value;
          && r.epoch == Some(f.epoch) && f.preparedIn == f.epoch
          && (r.last.Some? ==> f.minute > r.last.value))
  }

  /** Noticing a new epoch starts the minutes anew; a minute is due only after the last one. */
  lemma DueKeeps(r: Runner, active: bool, rested: bool, minute: int)
    requires Invariant(r) && r.flight.None?
    ensures var (seen, due) := Due(r, active, rested, minute);
      && Invariant(seen) && seen.flight.None? && seen.log == r.log && seen.sessionEpoch == r.sessionEpoch
      && (due.Some? ==>
            seen.epoch == Some(seen.sessionEpoch) && (seen.last.Some? ==> due.value > seen.last.value))
  {
  }

  lemma TickKeeps(r: Runner, active: bool, rested: bool, minute: int)
    requires Invariant(r)
    ensures Invariant(Next(r, Tick(active, rested, minute))) && Next(r, Tick(active, rested, minute)).log == r.log
  {
    assert Next(r, Tick(active, rested, minute)).log == r.log;
    if r.flight.None? {
      DueKeeps(r, active, rested, minute);
    }
  }

  lemma FinishKeeps(r: Runner)
    requires Invariant(r)
    ensures Invariant(Next(r, Finish)) && r.log <= Next(r, Finish).log
  {
  }

  lemma ResetKeeps(r: Runner)
    requires Invariant(r)
    ensures Invariant(Next(r, Reset)) && Next(r, Reset).log == r.log
  {
  }

  lemma FailKeeps(r: Runner)
    requires Invariant(r)
    ensures Invariant(Next(r, Fail)) && Next(r, Fail).log == r.log
  {
  }

  /** Every step keeps the invariant, and what was applied stays applied. */
  lemma StepKeeps(r: Runner, step: Step)
    requires Invariant(r)
    ensures Invariant(Next(r, step)) && r.log <= Next(r, step).log
  {
    match step
    case Tick(active, rested, minute) => TickKeeps(r, active, rested, minute);
    case Finish => FinishKeeps(r);
    case Reset => ResetKeeps(r);
    case Fail => FailKeeps(r);
  }

  function Run(r: Runner, steps: seq<Step>): Runner
    decreases |steps|
  {
    if steps == [] then r else Run(Next(r, steps[0]), steps[1..])
  }

  lemma {:induction false} RunKeeps(r: Runner, steps: seq<Step>)
    requires Invariant(r)
    ensures Invariant(Run(r, steps))
    decreases |steps|
  {
    if steps != [] {
      StepKeeps(r, steps[0]);
      RunKeeps(Next(r, steps[0]), steps[1..]);
    }
  }

  /** Over every interleaving of loop rounds, session resets, finished and failed passes. */
  lemma EpochGuard(steps: seq<Step>)
    ensures Guarded(Run(IDLE, steps).log)
  {
    RunKeeps(IDLE, steps);
  }

  // ---- when a pass must start, and what becomes of it ----

  /** While no pass is in flight, a round starts one exactly when a session runs and the minute is the first of its
      epoch, or a later one after half a second's rest. */
  lemma StartsIff(r: Runner, active: bool, rested: bool, minute: int)
    requires r.flight.None?
    ensures var next := Next(r, Tick(active, rested, minute));
      && (next.flight.Some? <==>
            active && (r.epoch != Some(r.sessionEpoch) || r.last.None? || (rested && minute > r.last.value)))
      && (next.flight.Some? ==> next.flight.value == Flight(minute, r.sessionEpoch, r.sessionEpoch))
      && next.log == r.log && next.sessionEpoch == r.sessionEpoch
  {
  }

  function Resets(steps: seq<Step>): nat {
    if steps == [] then 0 else Resets(steps[..|steps| - 1]) + if steps[|steps| - 1].Reset? then 1 else 0
  }

  lemma {:induction false} RunOneMore(r: Runner, steps: seq<Step>, step: Step)
    ensures Run(r, steps + [step]) == Next(Run(r, steps), step)
    decreases |steps|
  {
    if steps == [] {
      assert [] + [step] == [step] && [step][1..] == [];
    } else {
      assert (steps + [step])[1..] == steps[1..] + [step] && (steps + [step])[0] == steps[0];
      RunOneMore(Next(r, steps[0]), steps[1..], step);
    }
  }

  /** While a pass is in flight, rounds change nothing and resets only the epoch of the session. */
  lemma {:induction false} InFlight(r: Runner, steps: seq<Step>)
    requires r.flight.Some? && forall i :: 0 <= i < |steps| ==> steps[i].Tick? || steps[i].Reset?
    ensures Run(r, steps) == r.(sessionEpoch := r.sessionEpoch + Resets(steps))
  {
    if steps != [] {
      var n := |steps| - 1;
      assert steps == steps[..n] + [steps[n]];
      RunOneMore(r, steps[..n], steps[n]);
      InFlight(r, steps[..n]);
    }
  }

  /** A pass that finishes is applied, once, exactly when no session has begun since it started; then its minute is
      over, and otherwise the next round of a running session starts one whatever the minute. */
  lemma FinishedIsApplied(r: Runner, active: bool, rested: bool, minute: int, steps: seq<Step>, minute1: int)
    requires r.flight.None? && Next(r, Tick(active, rested, minute)).flight.Some?
    requires forall i :: 0 <= i < |steps| ==> steps[i].Tick? || steps[i].Reset?
    ensures var after := Next(Run(Next(r, Tick(active, rested, minute)), steps), Finish);
      && after.flight.None?
      && after.log == r.log + (if Resets(steps) == 0 then [Applied(minute, r.sessionEpoch, r.sessionEpoch)] else [])
      && (Resets(steps) == 0 ==> after.last == Some(minute))
      && (Resets(steps) > 0 ==> Next(after, Tick(true, false, minute1)).flight.Some?)
  {
    var started := Next(r, Tick(active, rested, minute));
    StartsIff(r, active, rested, minute);
    InFlight(started, steps);
    StartsIff(Next(Run(started, steps), Finish), true, false, minute1);
  }

  /** A pass that raises is not applied and uses up its minute, unless a session has begun since it started. */
  lemma FailedUsesMinute(r: Runner, rested: bool)
    requires r.flight.Some?
    ensures var after := Next(r, Fail);
      && after.flight.None? && after.log == r.log
      && (Next(after, Tick(true, rested, r.flight.value.minute)).flight.Some? <==> r.epoch != Some(r.sessionEpoch))
  {
    StartsIff(Next(r, Fail), true, rested, r.flight.value.minute);
  }

  class PipelineRunner {
    var last: Option<int>
    var epoch: Option<nat>
    var sessionEpoch: nat
    var flight: Option<Flight>
    ghost var log: seq<Applied>

    ghost function Value(): Runner
      reads this
    {
      Runner(last, epoch, sessionEpoch, flight, log)
    }

    constructor ()
      ensures Value() == IDLE
    {
      last, epoch, sessionEpoch, flight, log := None, None, 0, None, [];
    }

    method DueMinute(active: bool, rested: bool, minute: int) returns (due: Option<int>)
      modifies this`last, this`epoch
      ensures (Value(), due) == Due(old(Value()), active, rested, minute)
    {
      if !active {
        return None;
      }
      if epoch != Some(sessionEpoch) {
        last, epoch := None, Some(sessionEpoch);
      }
      if last.Some? && !rested {
        return None;
      }
      due := if last.None? || minute > last.value then Some(minute) else None;
    }

    /** One round of the loop up to the first await of the pass. */
    method Round(active: bool, rested: bool, minute: int)
      modifies this
      ensures Value() == Next(old(Value()), Tick(active, rested, minute))
    {
      if flight.Some? {
        return;
      }
      var due := DueMinute(active, rested, minute);
      if due.Some? {
        flight := Some(Flight(due.value, sessionEpoch, sessionEpoch));
      }
    }

    method ResetSession()
      modifies this`sessionEpoch
      ensures Value() == Next(old(Value()), Reset)
    {
      sessionEpoch := sessionEpoch + 1;
    }

    /** The rest of the pass after its awaits: dropped if a new session has begun meanwhile. */
    method FinishPass() returns (apply: bool)
      modifies this
      ensures Value() == Next(old(Value()), Finish)
      ensures apply == (log != old(log))
    {
      if flight.None? {
        return false;
      }
      var f := flight.value;
      flight := None;
      if f.epoch != sessionEpoch {
        return false;
      }
      last := Some(f.minute);
      log := log + [Applied(f.minute, sessionEpoch, f.preparedIn)];
      apply := true;
    }

    method FailPass()
      modifies this`last, this`flight
      ensures Value() == Next(old(Value()), Fail)
    {
      if flight.Some? {
        last := Some(flight.value.minute);
        flight := None;
      }
    }
  }
}
