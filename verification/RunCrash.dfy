/** Why histories treat a gap loop's appends and its checkpoint as one action: the code commits them
    one after the other, and a worker that stops in between leaves a target that cannot end well. */
module RunCrash {
  import opened Domain
  import opened RunRows
  import opened RunOperations
  import opened RunInvariants

  const OVER: set<RunStatus> := {RunStatus.Succeeded, RunStatus.Failed, RunStatus.Cancelled}

  /** The run after the first `n` appends of a gap loop. */
  function PartlyExtended(run: Run, t: nat, n: nat): Run
    requires t < |run.targets| && n <= 9
  {
    var target := run.targets[t];
    WithSteps(run, t, target.steps + GapBlock(|target.steps|, target.loopCount + 1)[..n])
  }

  /** A later success of the COMPLETE step without `continue_loop` gives the target its outcome; it
      leaves no open step behind exactly when nothing had been appended. */
  lemma PlainSuccessIsCleanIffNothingWasAppended(
    run: Run, t: nat, s: nat, n: nat, effectKey: string, outputRefs: seq<string>, outcome: Option<RunOutcome>, now: int)
    requires RunShape(run) && run.status != RunStatus.Cancelling && IsRunning(run, t, s) && n <= 9
    requires run.targets[t].steps[s].kind == StepKind.Complete
    ensures HasStep(PartlyExtended(run, t, n), t, s)
    ensures var longer := PartlyExtended(run, t, n);
      var after := SucceedStep(longer, t, s, effectKey, outputRefs, StepState(false, outcome), now);
      && HasStep(after, t, s)
      && after.targets[t].outcome.Some?
      && (AllIn(after.targets[t].steps, OVER) <==> n == 0)
  {
    var longer := PartlyExtended(run, t, n);
    var after := SucceedStep(longer, t, s, effectKey, outputRefs, StepState(false, outcome), now);
    RunningMeansActive(run, t, s);
    SuccessSetsOneStep(longer, t, s, effectKey, outputRefs, outcome, now);
    if n == 0 {
      NothingBehind(run, t, s);
    } else {
      OrphanIsNext(run, t, s, n);
      assert after.targets[t].steps[|run.targets[t].steps|].status == RunStatus.Pending;
    }
  }

  lemma NothingBehind(run: Run, t: nat, s: nat)
    requires RunShape(run) && IsRunning(run, t, s) && run.status != RunStatus.Cancelled
    requires run.status != RunStatus.Cancelling && run.targets[t].steps[s].kind == StepKind.Complete
    ensures PartlyExtended(run, t, 0).targets[t].steps == run.targets[t].steps && s == |run.targets[t].steps| - 1
    ensures forall i :: 0 <= i < s ==> run.targets[t].steps[i].status == RunStatus.Succeeded
  {
    RunningMeansActive(run, t, s);
    CompleteIsLast(run.targets[t].steps, s);
    BeforeRunning(run.targets[t].steps, s);
  }

  /** The first step left behind can be leased, at any time, exactly while some target has no outcome
      yet; once all have, the run is closed with the step still open. */
  lemma OrphansAreLeasableUntilTheRunCloses(
    run: Run, t: nat, s: nat, n: nat, effectKey: string, outputRefs: seq<string>, outcome: Option<RunOutcome>,
    now: int, later: int)
    requires RunShape(run) && run.status != RunStatus.Cancelling && IsRunning(run, t, s) && 0 < n <= 9
    requires run.targets[t].steps[s].kind == StepKind.Complete
    ensures HasStep(PartlyExtended(run, t, n), t, s)
    ensures var orphan := |run.targets[t].steps|;
      var longer := PartlyExtended(run, t, n);
      var after := SucceedStep(longer, t, s, effectKey, outputRefs, StepState(false, outcome), now);
      && HasStep(after, t, orphan) && after.targets[t].steps[orphan].status == RunStatus.Pending
      && (EligibleStep(after, t, orphan, later) <==> !AllOutcomesKnown(after.targets))
      && (AllOutcomesKnown(after.targets) ==> after.status in {RunStatus.Succeeded, RunStatus.Failed})
  {
    var longer := PartlyExtended(run, t, n);
    var after := SucceedStep(longer, t, s, effectKey, outputRefs, StepState(false, outcome), now);
    RunningMeansActive(run, t, s);
    OrphanIsNext(run, t, s, n);
    SuccessSetsOneStep(longer, t, s, effectKey, outputRefs, outcome, now);
    OnlyLastOpen(longer.targets[t].steps, after.targets[t].steps, s, |run.targets[t].steps|);
  }

  /** The COMPLETE step's success changes its own step, and closes the run when it was the last target. */
  lemma SuccessSetsOneStep(
    run: Run, t: nat, s: nat, effectKey: string, outputRefs: seq<string>, outcome: Option<RunOutcome>, now: int)
    requires HasStep(run, t, s) && run.targets[t].steps[s].kind == StepKind.Complete
    requires run.status in LEASABLE_RUNS
    ensures var after := SucceedStep(run, t, s, effectKey, outputRefs, StepState(false, outcome), now);
      && t < |after.targets| && |after.targets[t].steps| == |run.targets[t].steps|
      && (forall i :: 0 <= i < |run.targets[t].steps| && i != s ==>
            after.targets[t].steps[i] == run.targets[t].steps[i])
      && after.targets[t].steps[s].status == RunStatus.Succeeded
      && after.targets[t].steps[s].position == run.targets[t].steps[s].position
      && after.targets[t].outcome.Some?
      && (after.status in LEASABLE_RUNS <==> !AllOutcomesKnown(after.targets))
      && (AllOutcomesKnown(after.targets) ==> after.status in {RunStatus.Succeeded, RunStatus.Failed})
  {}

  /** All steps before the running one have succeeded, and the appended ones follow it. */
  lemma OrphanIsNext(run: Run, t: nat, s: nat, n: nat)
    requires RunShape(run) && IsRunning(run, t, s) && 0 < n <= 9
    requires run.status != RunStatus.Cancelling && run.targets[t].steps[s].kind == StepKind.Complete
    ensures var steps, orphan := PartlyExtended(run, t, n).targets[t].steps, |run.targets[t].steps|;
      && orphan == s + 1 < |steps| && steps[s] == run.targets[t].steps[s]
      && (forall i :: 0 <= i < |steps| ==> steps[i].position == i)
      && (forall i :: 0 <= i < s ==> steps[i].status == RunStatus.Succeeded)
      && steps[orphan].status == RunStatus.Pending
  {
    var steps := run.targets[t].steps;
    RunningMeansActive(run, t, s);
    CompleteIsLast(steps, s);
    BeforeRunning(steps, s);
    assert Contiguous(steps);
  }

  lemma OnlyLastOpen(before: seq<Step>, after: seq<Step>, s: nat, orphan: nat)
    requires |after| == |before| && orphan == s + 1 < |after|
    requires forall i :: 0 <= i < |before| ==> before[i].position == i
    requires forall i :: 0 <= i < |before| && i != s ==> after[i] == before[i]
    requires forall i :: 0 <= i < s ==> before[i].status == RunStatus.Succeeded
    requires after[s].status == RunStatus.Succeeded && after[s].position == before[s].position
    ensures PriorSucceeded(after, orphan)
  {
    assert forall i :: 0 <= i < |after| ==> after[i].position == i;
  }
}
