/** How one operation may move one step and one run, whatever else it does: the edges behind the
    transition table, the attempt ledger, fencing and the attempt budget. */
module RunMoves {
  import opened Collections
  import opened Domain
  import opened RunRows
  import opened RunOperations
  import opened RunInvariants

  /** Who moves the rows of a run. */
  datatype Cause =
    | ByLease(target: nat, step: nat)
    | ByHolder(target: nat, step: nat, success: bool)
    | ByReclaim
    | ByCancel
    | ByFinish
    | ByRetry

  // ---------------------------------------------------------------- one step

  /** How often the step's lease ran out and was taken back. */
  function Reclaims(attempts: seq<Attempt>): nat {
    if attempts == [] then 0
    else
      var last := attempts[|attempts| - 1];
      Reclaims(attempts[..|attempts| - 1]) + (if last.error == Some(LeaseExpired) then 1 else 0)
  }

  ghost predicate SameRow(a: Step, b: Step) {
    a.kind == b.kind && a.position == b.position && a.key == b.key
  }

  ghost predicate Leased(a: Step, b: Step) {
    && a.status in {RunStatus.Pending, RunStatus.WaitingRetry}
    && b.status == RunStatus.Running
    && b.attemptCount == a.attemptCount + 1
    && Reclaims(b.attempts) == Reclaims(a.attempts)
  }

  /** The attempt in flight has been settled and no other attempt touched. */
  ghost predicate Ended(a: Step, b: Step) {
    && a.status == RunStatus.Running
    && b.attemptCount == a.attemptCount
    && |b.attempts| == |a.attempts| > 0
    && b.attempts[..|a.attempts| - 1] == a.attempts[..|a.attempts| - 1]
    && b.attempts[|a.attempts| - 1].status != RunStatus.Running
  }

  ghost predicate EndedByHolder(maxAttempts: nat, success: bool, a: Step, b: Step) {
    && Ended(a, b)
    && Reclaims(b.attempts) == Reclaims(a.attempts)
    && b.status in {RunStatus.Succeeded, RunStatus.Failed, RunStatus.WaitingRetry, RunStatus.Cancelled}
    && (b.status == RunStatus.WaitingRetry ==> a.attemptCount < maxAttempts)
    && (b.status == RunStatus.Succeeded ==> success)
  }

  ghost predicate Reclaimed(a: Step, b: Step) {
    Ended(a, b) && b.status == RunStatus.Pending && Reclaims(b.attempts) == Reclaims(a.attempts) + 1
  }

  ghost predicate Stopped(a: Step, b: Step) {
    Ended(a, b) && b.status == RunStatus.Cancelled && Reclaims(b.attempts) == Reclaims(a.attempts)
  }

  ghost predicate Swept(a: Step, b: Step) {
    a.status in {RunStatus.Pending, RunStatus.WaitingRetry} && b == a.(status := RunStatus.Cancelled)
  }

  ghost predicate Retried(a: Step, b: Step) {
    a.status == RunStatus.Failed && b == a.(status := RunStatus.WaitingRetry, retryDueAt := b.retryDueAt)
  }

  ghost predicate Reopened(a: Step, b: Step) {
    && a.status == RunStatus.Cancelled && a.attempts == []
    && b == a.(status := RunStatus.Pending, error := None, retryDueAt := None)
  }

  /** The only ways an operation changes a step that exists. */
  ghost predicate StepEdge(cause: Cause, t: nat, s: nat, maxAttempts: nat, a: Step, b: Step) {
    && SameRow(a, b)
    && (|| b == a
        || (cause == ByLease(t, s) && Leased(a, b))
        || (cause.ByHolder? && cause == ByHolder(t, s, cause.success)
            && EndedByHolder(maxAttempts, cause.success, a, b))
        || (cause.ByReclaim? && (Reclaimed(a, b) || Stopped(a, b)))
        || ((cause.ByHolder? || cause.ByReclaim? || cause.ByCancel?) && Swept(a, b))
        || (cause.ByRetry? && (Retried(a, b) || Reopened(a, b))))
  }

  lemma {:induction false} ReclaimsSplit(attempts: seq<Attempt>, n: nat)
    requires |attempts| == n + 1
    ensures Reclaims(attempts)
         == Reclaims(attempts[..n]) + (if attempts[n].error == Some(LeaseExpired) then 1 else 0)
  {}

  lemma ReleaseEnds(
    step: Step, status: RunStatus, attemptStatus: RunStatus, error: Option<AttemptError>, now: int)
    requires LedgerOk(step) && step.status == RunStatus.Running && attemptStatus != RunStatus.Running
    ensures var after := ReleaseRow(step, status, attemptStatus, error, now);
      && Ended(step, after)
      && Reclaims(after.attempts) == Reclaims(step.attempts) + (if error == Some(LeaseExpired) then 1 else 0)
  {
    var n := |step.attempts|;
    var after := ReleaseRow(step, status, attemptStatus, error, now);
    assert after.attempts[..n - 1] == step.attempts[..n - 1];
    ReclaimsSplit(step.attempts, n - 1);
    ReclaimsSplit(after.attempts, n - 1);
  }

  lemma LeaseRowLeases(step: Step, owner: string, now: int, duration: int)
    requires step.status in {RunStatus.Pending, RunStatus.WaitingRetry}
    ensures Leased(step, LeaseRow(step, owner, now, duration))
  {
    var after := LeaseRow(step, owner, now, duration);
    assert after.attempts[..|step.attempts|] == step.attempts;
    ReclaimsSplit(after.attempts, |step.attempts|);
  }

  // ---------------------------------------------------------------- one run

  ghost predicate StatusEdge(cause: Cause, a: RunStatus, b: RunStatus) {
    || (&& CanMove(a, b)
        && (a == RunStatus.Cancelling ==> b in {RunStatus.Cancelling, RunStatus.Cancelled})
        && (b in {RunStatus.Cancelling, RunStatus.Cancelled} ==>
              cause.ByCancel? || a in {RunStatus.Cancelling, RunStatus.Cancelled}))
    || (cause.ByRetry? && a in {RunStatus.Succeeded, RunStatus.Failed} && b == RunStatus.WaitingRetry)
  }

  ghost predicate FreshFrom(steps: seq<Step>, n: nat) {
    n <= |steps| && forall i :: n <= i < |steps| ==>
      steps[i].status in UNSTARTED && steps[i].attemptCount == 0 && steps[i].attempts == []
  }

  ghost predicate TargetEdge(cause: Cause, t: nat, maxAttempts: nat, a: Target, b: Target) {
    && a.worldId == b.worldId
    && a.loopCount <= b.loopCount
    && FreshFrom(b.steps, |a.steps|)
    && forall s :: 0 <= s < |a.steps| ==> StepEdge(cause, t, s, maxAttempts, a.steps[s], b.steps[s])
  }

  /** The outbox only grows, and only a manual retry announces a retry. */
  ghost predicate EventsEdge(cause: Cause, a: seq<Event>, b: seq<Event>) {
    && a <= b
    && (cause.ByRetry? || forall i :: |a| <= i < |b| ==> !b[i].RunRetried?)
  }

  ghost predicate RunEdge(cause: Cause, a: Run, b: Run) {
    && b.maxAttempts == a.maxAttempts && b.idempotencyKey == a.idempotencyKey && b.payload == a.payload
    && |b.targets| == |a.targets|
    && StatusEdge(cause, a.status, b.status)
    && EventsEdge(cause, a.events, b.events)
    && forall t :: 0 <= t < |a.targets| ==> TargetEdge(cause, t, a.maxAttempts, a.targets[t], b.targets[t])
  }

  lemma SameTargetEdge(cause: Cause, t: nat, maxAttempts: nat, a: Target, b: Target)
    requires a.worldId == b.worldId && a.loopCount <= b.loopCount && a.steps == b.steps
    ensures TargetEdge(cause, t, maxAttempts, a, b)
  {}

  lemma OneStepEdge(cause: Cause, t: nat, maxAttempts: nat, a: Target, s: nat, step: Step, b: Target)
    requires s < |a.steps| && StepEdge(cause, t, s, maxAttempts, a.steps[s], step)
    requires a.worldId == b.worldId && a.loopCount <= b.loopCount
    requires |b.steps| >= |a.steps| && FreshFrom(b.steps, |a.steps|)
    requires b.steps[..|a.steps|] == a.steps[s := step]
    ensures TargetEdge(cause, t, maxAttempts, a, b)
  {
    forall i | 0 <= i < |a.steps| ensures StepEdge(cause, t, i, maxAttempts, a.steps[i], b.steps[i]) {
      assert b.steps[i] == b.steps[..|a.steps|][i];
    }
  }

  ghost predicate Sweepable(steps: seq<Step>, which: set<RunStatus>) {
    forall i :: 0 <= i < |steps| && steps[i].status in which ==>
      steps[i].status in {RunStatus.Pending, RunStatus.WaitingRetry}
  }

  /** A bulk cancel behind a first change of the target, on rows that change had left alone. */
  lemma SweepEdge(cause: Cause, t: nat, maxAttempts: nat, a: Target, b: Target, which: set<RunStatus>)
    requires cause.ByHolder? || cause.ByReclaim? || cause.ByCancel?
    requires TargetEdge(cause, t, maxAttempts, a, b)
    requires Sweepable(b.steps, which)
    requires forall i :: 0 <= i < |a.steps| && b.steps[i] != a.steps[i] ==> b.steps[i].status !in which
    ensures TargetEdge(cause, t, maxAttempts, a, b.(steps := BulkCancel(b.steps, which)))
  {
    var after := BulkCancel(b.steps, which);
    forall i | 0 <= i < |a.steps| ensures StepEdge(cause, t, i, maxAttempts, a.steps[i], after[i]) {
      assert StepEdge(cause, t, i, maxAttempts, a.steps[i], b.steps[i]);
      if b.steps[i].status in which {
        assert b.steps[i] == a.steps[i];
        assert Swept(a.steps[i], after[i]);
      }
    }
  }

  /** Every step status a reachable run can hold. */
  ghost predicate Plain(run: Run) {
    forall t, s :: 0 <= t < |run.targets| && 0 <= s < |run.targets[t].steps| ==>
      run.targets[t].steps[s].status !in {RunStatus.WaitingInput, RunStatus.Cancelling}
  }

  lemma ShapeIsPlain(run: Run)
    requires RunShape(run)
    ensures Plain(run)
  {
    forall t, s | 0 <= t < |run.targets| && 0 <= s < |run.targets[t].steps|
      ensures run.targets[t].steps[s].status !in {RunStatus.WaitingInput, RunStatus.Cancelling}
    {
      StatusesInUse(run, t, s);
    }
  }

  lemma StatusesInUse(run: Run, t: nat, s: nat)
    requires RunShape(run) && HasStep(run, t, s)
    ensures run.targets[t].steps[s].status !in {RunStatus.WaitingInput, RunStatus.Cancelling}
    ensures RowOk(run.targets[t].steps[s], s)
  {
    var target := run.targets[t];
    assert Open(target) || Settled(target) || Stopping(target);
  }

  lemma LeaseEdge(run: Run, t: nat, s: nat, owner: string, now: int, duration: int)
    requires HasStep(run, t, s) && EligibleStep(run, t, s, now)
    ensures RunEdge(ByLease(t, s), run, LeaseStep(run, t, s, owner, now, duration))
  {
    var leased := LeaseRow(run.targets[t].steps[s], owner, now, duration);
    LeaseRowLeases(run.targets[t].steps[s], owner, now, duration);
    LeasedEdge(run, t, s, leased);
  }

  lemma LeasedEdge(run: Run, t: nat, s: nat, leased: Step)
    requires HasStep(run, t, s) && run.status in LEASABLE_RUNS
    requires StepEdge(ByLease(t, s), t, s, run.maxAttempts, run.targets[t].steps[s], leased)
    ensures RunEdge(ByLease(t, s), run, WithStep(run, t, s, leased).(status := RunStatus.Running))
  {
    var target := run.targets[t].(steps := run.targets[t].steps[s := leased]);
    OneStepEdge(ByLease(t, s), t, run.maxAttempts, run.targets[t], s, leased, target);
    QuietEdge(ByLease(t, s), run, run.(status := RunStatus.Running, targets := run.targets[t := target]), t, target);
  }

  /** One target and perhaps the status change, and nothing is announced. */
  lemma QuietEdge(cause: Cause, run: Run, after: Run, t: nat, b: Target)
    requires t < |run.targets| && TargetEdge(cause, t, run.maxAttempts, run.targets[t], b)
    requires after == run.(status := after.status, targets := run.targets[t := b])
    requires StatusEdge(cause, run.status, after.status)
    ensures RunEdge(cause, run, after)
  {
    OneTargetEdges(cause, run, t, b);
  }

  lemma OneTargetEdges(cause: Cause, run: Run, t: nat, b: Target)
    requires t < |run.targets| && TargetEdge(cause, t, run.maxAttempts, run.targets[t], b)
    ensures forall u :: 0 <= u < |run.targets| ==>
      TargetEdge(cause, u, run.maxAttempts, run.targets[u], run.targets[t := b][u])
  {
    forall u | 0 <= u < |run.targets| && u != t
      ensures TargetEdge(cause, u, run.maxAttempts, run.targets[u], run.targets[u])
    {
      SameTargetEdge(cause, u, run.maxAttempts, run.targets[u], run.targets[u]);
    }
  }

  /** Ending one step and sweeping the run, possibly behind appended rows. */
  lemma BoundaryTargets(run: Run, t: nat, s: nat, block: seq<Step>, extra: nat, after: Run, now: int, cause: Cause)
    requires Plain(run) && IsRunning(run, t, s) && LedgerOk(run.targets[t].steps[s]) && FreshFrom(block, 0)
    requires cause == ByHolder(t, s, false) || cause == ByReclaim
    requires var step := ReleaseRow(run.targets[t].steps[s], RunStatus.Cancelled, RunStatus.Cancelled, None, now);
      after.targets == BulkCancelTargets(
        run.targets[t := run.targets[t].(loopCount := run.targets[t].loopCount + extra,
                                         steps := (run.targets[t].steps + block)[s := step])], WAITING)
    ensures forall u :: 0 <= u < |run.targets| ==>
      TargetEdge(cause, u, run.maxAttempts, run.targets[u], after.targets[u])
  {
    var a := run.targets[t];
    var step := ReleaseRow(a.steps[s], RunStatus.Cancelled, RunStatus.Cancelled, None, now);
    ReleaseEnds(a.steps[s], RunStatus.Cancelled, RunStatus.Cancelled, None, now);
    var b := a.(loopCount := a.loopCount + extra, steps := (a.steps + block)[s := step]);
    assert StepEdge(cause, t, s, run.maxAttempts, a.steps[s], step) by {
      assert Stopped(a.steps[s], step) && EndedByHolder(run.maxAttempts, false, a.steps[s], step);
    }
    assert b.steps[..|a.steps|] == a.steps[s := step];
    OneStepEdge(cause, t, run.maxAttempts, a, s, step, b);
    forall u | 0 <= u < |run.targets|
      ensures TargetEdge(cause, u, run.maxAttempts, run.targets[u], after.targets[u])
    {
      var c := if u == t then b else run.targets[u];
      if u != t {
        SameTargetEdge(cause, u, run.maxAttempts, run.targets[u], c);
      }
      SweepEdge(cause, u, run.maxAttempts, run.targets[u], c, WAITING);
    }
  }

  lemma BoundaryEdge(run: Run, t: nat, s: nat, now: int, cause: Cause)
    requires RunShape(run) && run.status == RunStatus.Cancelling && IsRunning(run, t, s)
    requires cause == ByHolder(t, s, false) || cause == ByReclaim
    ensures RunEdge(cause, run, CancelAtBoundary(run, t, s, now))
  {
    RunningMeansActive(run, t, s);
    ShapeIsPlain(run);
    PlainBoundaryEdge(run, t, s, now, cause);
  }

  lemma PlainBoundaryEdge(run: Run, t: nat, s: nat, now: int, cause: Cause)
    requires Plain(run) && run.status == RunStatus.Cancelling && IsRunning(run, t, s)
    requires LedgerOk(run.targets[t].steps[s])
    requires cause == ByHolder(t, s, false) || cause == ByReclaim
    ensures RunEdge(cause, run, CancelAtBoundary(run, t, s, now))
  {
    assert run.targets[t].steps + [] == run.targets[t].steps;
    BoundaryTargets(run, t, s, [], 0, CancelAtBoundary(run, t, s, now), now, cause);
  }

  lemma CancelledGapLoopEdge(run: Run, t: nat, s: nat, now: int)
    requires RunShape(run) && run.status == RunStatus.Cancelling && IsRunning(run, t, s)
    ensures HasStep(ExtendTarget(run, t), t, s)
    ensures RunEdge(ByHolder(t, s, false), run, CancelAtBoundary(ExtendTarget(run, t), t, s, now))
  {
    RunningMeansActive(run, t, s);
    ShapeIsPlain(run);
    Extended(run, t);
    var block := GapBlock(|run.targets[t].steps|, run.targets[t].loopCount + 1);
    BlocksAreFresh(|run.targets[t].steps|, run.targets[t].loopCount + 1);
    CancelledExtensionEdge(run, t, s, block, now);
  }

  lemma BlocksAreFresh(n: nat, loop: nat)
    ensures FreshFrom(GapBlock(n, loop), 0) && FreshFrom(RetryBlock(n), 0)
  {}

  lemma CancelledExtensionEdge(run: Run, t: nat, s: nat, block: seq<Step>, now: int)
    requires Plain(run) && run.status == RunStatus.Cancelling && IsRunning(run, t, s)
    requires LedgerOk(run.targets[t].steps[s]) && FreshFrom(block, 0)
    ensures RunEdge(ByHolder(t, s, false), run, CancelAtBoundary(ExtendedBy(run, t, block), t, s, now))
  {
    var longer := ExtendedBy(run, t, block);
    assert longer.targets[t].steps[s] == run.targets[t].steps[s];
    BoundaryTargets(run, t, s, block, 1, CancelAtBoundary(longer, t, s, now), now, ByHolder(t, s, false));
  }

  /** The holder ends its step; the target may get an outcome and lose its open steps. */
  lemma HolderEdge(run: Run, t: nat, s: nat, success: bool, step: Step, after: Run, which: set<RunStatus>)
    requires IsRunning(run, t, s) && EndedByHolder(run.maxAttempts, success, run.targets[t].steps[s], step)
    requires SameRow(run.targets[t].steps[s], step) && step.status !in which
    requires Sweepable(run.targets[t].steps, which)
    requires |after.targets| == |run.targets|
    requires forall u :: 0 <= u < |run.targets| && u != t ==> after.targets[u] == run.targets[u]
    requires after.targets[t].worldId == run.targets[t].worldId
    requires after.targets[t].loopCount == run.targets[t].loopCount
    requires after.targets[t].steps == BulkCancel(run.targets[t].steps[s := step], which)
    ensures forall u :: 0 <= u < |run.targets| ==>
      TargetEdge(ByHolder(t, s, success), u, run.maxAttempts, run.targets[u], after.targets[u])
  {
    var a := run.targets[t];
    var b := a.(steps := a.steps[s := step]);
    OneStepEdge(ByHolder(t, s, success), t, run.maxAttempts, a, s, step, b);
    SweepEdge(ByHolder(t, s, success), t, run.maxAttempts, a, b, which);
    var c := b.(steps := BulkCancel(b.steps, which));
    assert TargetEdge(ByHolder(t, s, success), t, run.maxAttempts, a, c);
    assert TargetEdge(ByHolder(t, s, success), t, run.maxAttempts, a, after.targets[t]);
  }

  lemma NothingSwept(steps: seq<Step>)
    ensures BulkCancel(steps, {}) == steps
  {}

  lemma SuccessEdge(
    run: Run, t: nat, s: nat, effectKey: string, outputRefs: seq<string>, outcome: Option<RunOutcome>, now: int)
    requires RunShape(run) && run.status != RunStatus.Cancelling && IsRunning(run, t, s)
    ensures RunEdge(ByHolder(t, s, true), run,
                    SucceedStep(run, t, s, effectKey, outputRefs, StepState(false, outcome), now))
  {
    RunningMeansActive(run, t, s);
    var step := run.targets[t].steps[s];
    ReleaseEnds(step, RunStatus.Succeeded, RunStatus.Succeeded, None, now);
    var done := ReleaseRow(step, RunStatus.Succeeded, RunStatus.Succeeded, None, now).(outputRefs := outputRefs);
    var after := SucceedStep(run, t, s, effectKey, outputRefs, StepState(false, outcome), now);
    SuccessRows(run, t, s, effectKey, outputRefs, outcome, now);
    ClosingEdge(run, after, t);
    HolderEdge(run, t, s, true, done, after, {});
  }

  /** A success touches one step, one target's outcome and the run's ending, nothing else. */
  lemma SuccessRows(
    run: Run, t: nat, s: nat, effectKey: string, outputRefs: seq<string>, outcome: Option<RunOutcome>, now: int)
    requires HasStep(run, t, s)
    ensures var done := ReleaseRow(run.targets[t].steps[s], RunStatus.Succeeded, RunStatus.Succeeded, None, now)
                        .(outputRefs := outputRefs);
      var after := SucceedStep(run, t, s, effectKey, outputRefs, StepState(false, outcome), now);
      && |after.targets| == |run.targets|
      && (forall u :: 0 <= u < |run.targets| && u != t ==> after.targets[u] == run.targets[u])
      && after.targets[t].worldId == run.targets[t].worldId
      && after.targets[t].loopCount == run.targets[t].loopCount
      && after.targets[t].steps == BulkCancel(run.targets[t].steps[s := done], {})
      && (after.status == run.status
          || (AllOutcomesKnown(after.targets) && after.status in {RunStatus.Succeeded, RunStatus.Failed}))
      && EventsEdge(ByFinish, run.events, after.events)
      && after.maxAttempts == run.maxAttempts && after.idempotencyKey == run.idempotencyKey
      && after.payload == run.payload
  {
    var done := ReleaseRow(run.targets[t].steps[s], RunStatus.Succeeded, RunStatus.Succeeded, None, now)
                .(outputRefs := outputRefs);
    NothingSwept(run.targets[t].steps[s := done]);
  }

  /** Settling one target moves an active run to its end only when no target is left open, so
      never straight from WAITING_RETRY. */
  lemma ClosingEdge(run: Run, after: Run, t: nat)
    requires RunShape(run) && run.status in {RunStatus.Running, RunStatus.WaitingRetry}
    requires t < |run.targets| == |after.targets| && !Idle(run.targets[t].steps)
    requires forall u :: 0 <= u < |run.targets| && u != t ==> after.targets[u] == run.targets[u]
    requires after.status == run.status
             || (AllOutcomesKnown(after.targets) && after.status in {RunStatus.Succeeded, RunStatus.Failed})
    ensures CanMove(run.status, after.status) && after.status !in {RunStatus.Cancelling, RunStatus.Cancelled}
  {
    if run.status == RunStatus.WaitingRetry {
      var u :| 0 <= u < |run.targets| && Open(run.targets[u]) && Idle(run.targets[u].steps);
      assert after.targets[u].outcome.None?;
    }
  }

  lemma GapLoopEdge(run: Run, t: nat, s: nat, effectKey: string, outputRefs: seq<string>, now: int)
    requires RunShape(run) && run.status != RunStatus.Cancelling && IsRunning(run, t, s)
    ensures HasStep(ExtendTarget(run, t), t, s)
    ensures RunEdge(ByHolder(t, s, true), run,
                    SucceedStep(ExtendTarget(run, t), t, s, effectKey, outputRefs, StepState(true, None), now))
  {
    RunningMeansActive(run, t, s);
    Extended(run, t);
    var block := GapBlock(|run.targets[t].steps|, run.targets[t].loopCount + 1);
    BlocksAreFresh(|run.targets[t].steps|, run.targets[t].loopCount + 1);
    ExtendedSuccessEdge(run, t, s, block, effectKey, outputRefs, now);
  }

  lemma ExtendedSuccessEdge(
    run: Run, t: nat, s: nat, block: seq<Step>, effectKey: string, outputRefs: seq<string>, now: int)
    requires IsRunning(run, t, s) && LedgerOk(run.targets[t].steps[s]) && FreshFrom(block, 0)
    ensures RunEdge(ByHolder(t, s, true), run,
                    SucceedStep(ExtendedBy(run, t, block), t, s, effectKey, outputRefs, StepState(true, None), now))
  {
    var a := run.targets[t];
    ReleaseEnds(a.steps[s], RunStatus.Succeeded, RunStatus.Succeeded, None, now);
    var done := ReleaseRow(a.steps[s], RunStatus.Succeeded, RunStatus.Succeeded, None, now).(outputRefs := outputRefs);
    var after := SucceedStep(ExtendedBy(run, t, block), t, s, effectKey, outputRefs, StepState(true, None), now);
    var b := after.targets[t];
    assert b.steps == (a.steps + block)[s := done];
    assert b.steps[..|a.steps|] == a.steps[s := done];
    OneStepEdge(ByHolder(t, s, true), t, run.maxAttempts, a, s, done, b);
  }

  lemma RetryLaterEdge(run: Run, t: nat, s: nat, error: string, retryAt: int, now: int)
    requires RunShape(run) && run.status != RunStatus.Cancelling && IsRunning(run, t, s)
    requires run.targets[t].steps[s].attemptCount < run.maxAttempts
    ensures RunEdge(ByHolder(t, s, false), run, ScheduleRetry(run, t, s, error, retryAt, now))
  {
    RunningMeansActive(run, t, s);
    ReleaseEnds(run.targets[t].steps[s], RunStatus.WaitingRetry, RunStatus.Failed, Some(Reported(error)), now);
    var after := ScheduleRetry(run, t, s, error, retryAt, now);
    var step := after.targets[t].steps[s];
    assert after.targets[t].steps == run.targets[t].steps[s := step];
    NothingSwept(after.targets[t].steps);
    HolderEdge(run, t, s, false, step, after, {});
  }

  lemma CloseEdge(
    run: Run, t: nat, s: nat, error: string, outcome: RunOutcome, which: set<RunStatus>, now: int)
    requires RunShape(run) && run.status != RunStatus.Cancelling && IsRunning(run, t, s)
    requires which == {RunStatus.Pending} || which == {RunStatus.Pending, RunStatus.WaitingRetry}
    ensures RunEdge(ByHolder(t, s, false), run, CloseTarget(run, t, s, error, outcome, which, now))
  {
    RunningMeansActive(run, t, s);
    ClosingEdge(run, CloseTarget(run, t, s, error, outcome, which, now), t);
    ClosedTargets(run, t, s, error, outcome, which, now);
  }

  lemma ClosedTargets(
    run: Run, t: nat, s: nat, error: string, outcome: RunOutcome, which: set<RunStatus>, now: int)
    requires IsRunning(run, t, s) && LedgerOk(run.targets[t].steps[s])
    requires which == {RunStatus.Pending} || which == {RunStatus.Pending, RunStatus.WaitingRetry}
    ensures var after := CloseTarget(run, t, s, error, outcome, which, now);
      |after.targets| == |run.targets|
      && forall u :: 0 <= u < |run.targets| ==>
           TargetEdge(ByHolder(t, s, false), u, run.maxAttempts, run.targets[u], after.targets[u])
  {
    var step := run.targets[t].steps[s];
    ReleaseEnds(step, RunStatus.Failed, RunStatus.Failed, Some(Reported(error)), now);
    var failed := ReleaseRow(step, RunStatus.Failed, RunStatus.Failed, Some(Reported(error)), now)
                  .(error := Some(error));
    HolderEdge(run, t, s, false, failed, CloseTarget(run, t, s, error, outcome, which, now), which);
  }

  lemma RequestCancelEdge(run: Run, now: int)
    requires RunShape(run) && run.status !in TERMINAL
    ensures RunEdge(ByCancel, run, RequestCancelRun(run, now))
  {
    ShapeIsPlain(run);
    assert run.status != RunStatus.WaitingInput;
    CancelTargets(run, RequestCancelRun(run, now));
  }

  lemma CancelTargets(run: Run, after: Run)
    requires Plain(run) && run.status != RunStatus.WaitingInput
    requires if HasRunning(run) then after.targets == run.targets
             else after.targets == BulkCancelTargets(run.targets, UNFINISHED)
    ensures forall u :: 0 <= u < |run.targets| ==>
      TargetEdge(ByCancel, u, run.maxAttempts, run.targets[u], after.targets[u])
  {
    forall u | 0 <= u < |run.targets|
      ensures TargetEdge(ByCancel, u, run.maxAttempts, run.targets[u], after.targets[u])
    {
      var a, b := run.targets[u], after.targets[u];
      forall s | 0 <= s < |a.steps| ensures StepEdge(ByCancel, u, s, run.maxAttempts, a.steps[s], b.steps[s]) {
        if !HasRunning(run) && a.steps[s].status in {RunStatus.Pending, RunStatus.WaitingRetry} {
          assert Swept(a.steps[s], b.steps[s]);
        }
      }
    }
  }

  lemma FinishEdge(run: Run)
    requires RunShape(run) && AllOutcomesKnown(run.targets)
    ensures RunEdge(ByFinish, run, Aggregate(run))
  {
    FinishKeepsShape(run);
    SameTargets(run, Aggregate(run));
  }

  lemma SameTargets(run: Run, after: Run)
    requires after.targets == run.targets
    ensures forall u :: 0 <= u < |run.targets| ==>
      TargetEdge(ByFinish, u, run.maxAttempts, run.targets[u], after.targets[u])
  {}

  lemma RetryEdge(run: Run, now: int)
    requires RunShape(run) && Retryable(run)
    ensures RunEdge(ByRetry, run, RetryRun(run, now))
  {
    var after := RetryRun(run, now);
    forall u | 0 <= u < |run.targets|
      ensures TargetEdge(ByRetry, u, run.maxAttempts, run.targets[u], after.targets[u])
    {
      RetryTargetEdge(u, run.maxAttempts, run.targets[u], run.outcome == Some(RunOutcome.Partial), now);
    }
  }

  lemma RetryTargetEdge(u: nat, maxAttempts: nat, target: Target, partialRun: bool, now: int)
    requires Settled(target)
    ensures TargetEdge(ByRetry, u, maxAttempts, target, RetryTarget(target, partialRun, now))
  {
    var after := RetryTarget(target, partialRun, now);
    if HasFailedStep(target) {
      var steps := ReopenSteps(target.steps, now);
      forall s | 0 <= s < |target.steps| ensures StepEdge(ByRetry, u, s, maxAttempts, target.steps[s], steps[s]) {
        ReopenEdge(u, maxAttempts, target.steps, s, now);
      }
    } else if partialRun && target.outcome == Some(RunOutcome.Partial) {
      NextPositionIsLength(target.steps);
      BlocksAreFresh(|target.steps|, 0);
      AppendedEdge(ByRetry, u, maxAttempts, target, RetryBlock(|target.steps|), after);
    }
  }

  lemma AppendedEdge(cause: Cause, u: nat, maxAttempts: nat, a: Target, block: seq<Step>, b: Target)
    requires FreshFrom(block, 0) && b.steps == a.steps + block
    requires a.worldId == b.worldId && a.loopCount <= b.loopCount
    ensures TargetEdge(cause, u, maxAttempts, a, b)
  {}

  lemma ReopenEdge(u: nat, maxAttempts: nat, steps: seq<Step>, s: nat, now: int)
    requires SettledSteps(steps) && s < |steps|
    ensures StepEdge(ByRetry, u, s, maxAttempts, steps[s], ReopenSteps(steps, now)[s])
  {
    var a, b := steps[s], ReopenSteps(steps, now)[s];
    if a.status == RunStatus.Cancelled {
      assert a.attempts == [] by {
        assert steps[s - 1].status != RunStatus.Succeeded;
      }
      assert b == a || Reopened(a, b);
    } else if a.status == RunStatus.Failed {
      assert Retried(a, b);
    }
  }

  // ---------------------------------------------------------------- reconciling one run

  /** What becomes of one step when `listed` says whether its own lease is taken back. */
  ghost predicate ReclaimedStep(run: Run, listed: bool, a: Step, b: Step, now: int) {
    if listed then
      b == if run.status == RunStatus.Cancelling
           then ReleaseRow(a, RunStatus.Cancelled, RunStatus.Cancelled, None, now)
           else ReleaseRow(a, RunStatus.Pending, RunStatus.Failed, Some(LeaseExpired), now)
    else
      || b == a
      || (&& run.status == RunStatus.Cancelling
          && a.status in {RunStatus.Pending, RunStatus.WaitingRetry}
          && b == a.(status := RunStatus.Cancelled))
  }

  ghost predicate ReclaimedRun(run: Run, ids: seq<(nat, nat)>, after: Run, now: int)
    requires SameShape(run, after)
  {
    && RunShape(after)
    && (after.status == run.status
        || (run.status == RunStatus.Cancelling && after.status == RunStatus.Cancelled))
    && (after.events == run.events
        || (after.status == RunStatus.Cancelled && run.status == RunStatus.Cancelling
            && after.events == run.events + [RunCancelled]))
    && after.maxAttempts == run.maxAttempts && after.idempotencyKey == run.idempotencyKey
    && after.payload == run.payload
    && (forall t :: 0 <= t < |run.targets| ==>
          && after.targets[t].worldId == run.targets[t].worldId
          && after.targets[t].loopCount == run.targets[t].loopCount)
    && (forall t: nat, s: nat :: HasStep(run, t, s) ==>
          ReclaimedStep(run, (t, s) in ids, run.targets[t].steps[s], after.targets[t].steps[s], now))
  }

  ghost predicate ReclaimedBy(run: Run, ids: seq<(nat, nat)>, after: Run, now: int) {
    SameShape(run, after) && ReclaimedRun(run, ids, after, now)
  }

  lemma {:induction false} ReclaimAllFacts(run: Run, ids: seq<(nat, nat)>, now: int)
    requires RunShape(run) && Distinct(ids)
    requires forall x :: x in ids ==> IsRunning(run, x.0, x.1)
    ensures forall x :: x in ids ==> HasStep(run, x.0, x.1)
    ensures ReclaimedBy(run, ids, ReclaimAll(run, ids, now), now)
  {
    if ids == [] {
      ReclaimedNone(run, now);
    } else {
      var rest, x := ids[..|ids| - 1], ids[|ids| - 1];
      AllButLast(ids);
      ReclaimAllFacts(run, rest, now);
      ReclaimNext(run, ids, now);
      ReclaimedRunStep(run, rest, x, ReclaimAll(run, rest, now), now);
    }
  }

  lemma AllButLast(ids: seq<(nat, nat)>)
    requires ids != [] && Distinct(ids)
    ensures var rest, x := ids[..|ids| - 1], ids[|ids| - 1];
      rest + [x] == ids && x !in rest && Distinct(rest) && forall y :: y in ids <==> y in rest || y == x
  {
    var rest, x := ids[..|ids| - 1], ids[|ids| - 1];
    assert rest + [x] == ids;
  }

  lemma ReclaimNext(run: Run, ids: seq<(nat, nat)>, now: int)
    requires ids != [] && forall x :: x in ids ==> HasStep(run, x.0, x.1)
    ensures forall x :: x in ids[..|ids| - 1] ==> HasStep(run, x.0, x.1)
    ensures var before := ReclaimAll(run, ids[..|ids| - 1], now);
      var last := ids[|ids| - 1];
      && HasStep(before, last.0, last.1)
      && ReclaimAll(run, ids, now) == ReclaimStep(before, last.0, last.1, now)
  {
    assert ids[|ids| - 1] in ids;
  }

  lemma ReclaimedNone(run: Run, now: int)
    requires RunShape(run)
    ensures ReclaimedBy(run, [], run, now)
  {}

  lemma ReclaimedRunStep(run: Run, rest: seq<(nat, nat)>, x: (nat, nat), before: Run, now: int)
    requires RunShape(run) && ReclaimedBy(run, rest, before, now)
    requires x !in rest && IsRunning(run, x.0, x.1) && forall y :: y in rest ==> IsRunning(run, y.0, y.1)
    ensures HasStep(before, x.0, x.1)
    ensures ReclaimedBy(run, rest + [x], ReclaimStep(before, x.0, x.1, now), now)
  {
    StillRunning(run, rest, x, before, now);
    ReclaimHeader(before, x.0, x.1, now);
    ReclaimedOnceMore(run, before, rest, x, now);
  }

  lemma StillRunning(run: Run, rest: seq<(nat, nat)>, x: (nat, nat), before: Run, now: int)
    requires ReclaimedBy(run, rest, before, now) && x !in rest && IsRunning(run, x.0, x.1)
    ensures IsRunning(before, x.0, x.1)
  {
    assert ReclaimedStep(run, false, run.targets[x.0].steps[x.1], before.targets[x.0].steps[x.1], now);
  }

  lemma ReclaimHeader(run: Run, t: nat, s: nat, now: int)
    requires RunShape(run) && IsRunning(run, t, s)
    ensures run.status != RunStatus.Cancelled
    ensures var after := ReclaimStep(run, t, s, now);
      && RunShape(after)
      && (after.status == run.status
          || (run.status == RunStatus.Cancelling && after.status == RunStatus.Cancelled))
      && (after.events == run.events
          || (after.status == RunStatus.Cancelled && run.status == RunStatus.Cancelling
              && after.events == run.events + [RunCancelled]))
      && after.maxAttempts == run.maxAttempts && after.idempotencyKey == run.idempotencyKey
      && after.payload == run.payload
      && SameShape(run, after)
      && (forall u :: 0 <= u < |run.targets| ==>
            && after.targets[u].worldId == run.targets[u].worldId
            && after.targets[u].loopCount == run.targets[u].loopCount)
  {
    RunningMeansActive(run, t, s);
    ReclaimKeepsShape(run, t, s, now);
    ReclaimTargets(run, t, s, now);
  }

  lemma ReclaimTargets(run: Run, t: nat, s: nat, now: int)
    requires HasStep(run, t, s)
    ensures var after := ReclaimStep(run, t, s, now);
      && SameShape(run, after)
      && (forall u :: 0 <= u < |run.targets| ==>
            && after.targets[u].worldId == run.targets[u].worldId
            && after.targets[u].loopCount == run.targets[u].loopCount)
  {}

  lemma ReclaimedOnceMore(run: Run, before: Run, rest: seq<(nat, nat)>, x: (nat, nat), now: int)
    requires RunShape(run) && SameShape(run, before) && before.status == run.status
    requires IsRunning(run, x.0, x.1) && IsRunning(before, x.0, x.1)
    requires before.targets[x.0].steps[x.1] == run.targets[x.0].steps[x.1]
    requires x !in rest && forall y :: y in rest ==> IsRunning(run, y.0, y.1)
    requires forall t: nat, s: nat :: HasStep(run, t, s) ==>
      ReclaimedStep(run, (t, s) in rest, run.targets[t].steps[s], before.targets[t].steps[s], now)
    ensures SameShape(run, ReclaimStep(before, x.0, x.1, now))
    ensures forall t: nat, s: nat :: HasStep(run, t, s) ==>
      ReclaimedStep(run, (t, s) in rest + [x], run.targets[t].steps[s],
                    ReclaimStep(before, x.0, x.1, now).targets[t].steps[s], now)
  {
    ReclaimTargets(before, x.0, x.1, now);
    forall t: nat, s: nat | HasStep(run, t, s)
      ensures ReclaimedStep(run, (t, s) in rest + [x], run.targets[t].steps[s],
                            ReclaimStep(before, x.0, x.1, now).targets[t].steps[s], now)
    {
      assert (t, s) in rest ==> IsRunning(run, t, s);
      StatusesInUse(run, t, s);
      OneMoreReclaimed(run, before, x.0, x.1, t, s, (t, s) in rest, now);
      assert (t, s) in rest + [x] <==> (t, s) in rest || (t, s) == x;
    }
  }

  lemma OneMoreReclaimed(run: Run, before: Run, x: nat, y: nat, t: nat, s: nat, listed: bool, now: int)
    requires HasStep(run, t, s) && HasStep(before, t, s) && IsRunning(run, x, y) && IsRunning(before, x, y)
    requires before.status == run.status
    requires before.targets[x].steps[y] == run.targets[x].steps[y]
    requires run.targets[t].steps[s].status !in {RunStatus.WaitingInput, RunStatus.Cancelling}
    requires listed ==> IsRunning(run, t, s)
    requires listed ==> (t, s) != (x, y)
    requires ReclaimedStep(run, listed, run.targets[t].steps[s], before.targets[t].steps[s], now)
    ensures HasStep(ReclaimStep(before, x, y, now), t, s)
    ensures ReclaimedStep(run, listed || (t, s) == (x, y),
                          run.targets[t].steps[s], ReclaimStep(before, x, y, now).targets[t].steps[s], now)
  {}

  lemma ReconcileFacts(run: Run, now: int)
    requires RunShape(run)
    ensures ReclaimedBy(run, Expired(run, now), ReconcileRun(run, now), now)
  {
    ReclaimAllFacts(run, Expired(run, now), now);
  }

  lemma ReconcileEdge(run: Run, now: int)
    requires RunShape(run)
    ensures RunShape(ReconcileRun(run, now))
    ensures RunEdge(ByReclaim, run, ReconcileRun(run, now))
  {
    ReconcileFacts(run, now);
    var after := ReconcileRun(run, now);
    forall t | 0 <= t < |run.targets|
      ensures TargetEdge(ByReclaim, t, run.maxAttempts, run.targets[t], after.targets[t])
    {
      forall s | 0 <= s < |run.targets[t].steps|
        ensures StepEdge(ByReclaim, t, s, run.maxAttempts, run.targets[t].steps[s], after.targets[t].steps[s])
      {
        ReconciledStep(run, after, Expired(run, now), now, t, s);
      }
    }
  }

  lemma ReconciledStep(run: Run, after: Run, ids: seq<(nat, nat)>, now: int, t: nat, s: nat)
    requires RunShape(run) && ReclaimedBy(run, ids, after, now) && HasStep(run, t, s)
    requires (t, s) in ids ==> IsRunning(run, t, s)
    ensures HasStep(after, t, s)
    ensures StepEdge(ByReclaim, t, s, run.maxAttempts, run.targets[t].steps[s], after.targets[t].steps[s])
  {
    var a, b := run.targets[t].steps[s], after.targets[t].steps[s];
    assert ReclaimedStep(run, (t, s) in ids, a, b, now);
    StatusesInUse(run, t, s);
    if (t, s) in ids {
      if run.status == RunStatus.Cancelling {
        ReleaseEnds(a, RunStatus.Cancelled, RunStatus.Cancelled, None, now);
      } else {
        ReleaseEnds(a, RunStatus.Pending, RunStatus.Failed, Some(LeaseExpired), now);
      }
    }
  }
}
