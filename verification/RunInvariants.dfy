/** What every reachable run looks like, and that each operation on one run keeps it so. */
module RunInvariants {
  import opened Domain
  import opened RunRows
  import opened RunOperations

  // ---------------------------------------------------------------- rows

  /** Attempts are numbered 1..attemptCount; only the last may be RUNNING, and it is exactly when
      the step is; a step holds a lease exactly while it is RUNNING. */
  ghost predicate LedgerOk(step: Step) {
    var n := |step.attempts|;
    && n == step.attemptCount
    && (forall i :: 0 <= i < n ==> step.attempts[i].number == i + 1)
    && (forall i :: 0 <= i < n - 1 ==> step.attempts[i].status != RunStatus.Running)
    && (step.status == RunStatus.Running <==> n > 0 && step.attempts[n - 1].status == RunStatus.Running)
    && (if step.status == RunStatus.Running then
          step.leaseOwner == Some(step.attempts[n - 1].owner)
          && step.leaseExpiresAt == Some(step.attempts[n - 1].expiresAt)
          && step.attempts[n - 1].error.None?
        else step.leaseOwner.None? && step.leaseExpiresAt.None?)
    && (step.status == RunStatus.Succeeded ==> n > 0 && step.attempts[n - 1].status == RunStatus.Succeeded)
    && (step.status == RunStatus.WaitingRetry ==> step.retryDueAt.Some?)
  }

  /** The kind found at a position: all ten kinds, then PLAN..COMPLETE over and over. */
  function KindAt(position: nat): StepKind {
    if position < 10 then STEP_KINDS[position] else KindAt(position - 9)
  }

  /** The lengths a target's step list can have: ten steps, then nine more at a time. */
  ghost predicate WholeBlocks(n: nat) {
    n == 10 || (n > 10 && WholeBlocks(n - 9))
  }

  lemma {:induction false} BlockKind(n: nat, i: nat)
    requires WholeBlocks(n) && i < 9
    ensures KindAt(n + i) == STEP_KINDS[1 + i]
  {
    if n > 10 {
      BlockKind(n - 9, i);
    }
  }

  lemma {:induction false} LastBlockKind(n: nat, s: nat)
    requires WholeBlocks(n) && s < n && (n > 10 ==> s >= n - 9)
    ensures KindAt(s) == StepKind.Complete <==> s == n - 1
  {
    if n > 10 {
      BlockKind(n - 9, s - (n - 9));
    }
  }

  ghost predicate RowOk(step: Step, i: nat) {
    && step.position == i
    && step.kind == KindAt(i)
    && LedgerOk(step)
  }

  ghost predicate RowsOk(steps: seq<Step>) {
    && WholeBlocks(|steps|)
    && forall i :: 0 <= i < |steps| ==> RowOk(steps[i], i)
  }

  // ---------------------------------------------------------------- the shape of a target

  const UNSTARTED: set<RunStatus> := {RunStatus.Pending, RunStatus.Cancelled}

  /** A step that has not succeeded is followed only by PENDING or CANCELLED steps that were
      never leased. */
  ghost predicate Ordered(steps: seq<Step>) {
    forall i, j :: 0 <= i < j < |steps| && steps[i].status != RunStatus.Succeeded ==>
      steps[j].status in UNSTARTED && steps[j].attempts == []
  }

  ghost predicate AllIn(steps: seq<Step>, which: set<RunStatus>) {
    forall i :: 0 <= i < |steps| ==> steps[i].status in which
  }

  /** Every block of steps but the last has succeeded. */
  ghost predicate EarlierBlocksDone(steps: seq<Step>) {
    |steps| > 10 ==> forall i :: 0 <= i < |steps| - 9 ==> steps[i].status == RunStatus.Succeeded
  }

  ghost predicate Idle(steps: seq<Step>) {
    forall i :: 0 <= i < |steps| ==> steps[i].status != RunStatus.Running
  }

  /** Steps with work left to do. */
  ghost predicate OpenSteps(steps: seq<Step>) {
    && Ordered(steps)
    && AllIn(steps, {RunStatus.Succeeded, RunStatus.Pending, RunStatus.Running, RunStatus.WaitingRetry})
    && steps != [] && steps[|steps| - 1].status != RunStatus.Succeeded
    && EarlierBlocksDone(steps)
  }

  /** All steps succeeded, or one FAILED step precedes CANCELLED ones. */
  ghost predicate SettledSteps(steps: seq<Step>) {
    && Ordered(steps)
    && AllIn(steps, {RunStatus.Succeeded, RunStatus.Failed, RunStatus.Cancelled})
    && (forall i :: 0 <= i < |steps| && steps[i].status == RunStatus.Cancelled ==>
          i > 0 && steps[i - 1].status != RunStatus.Succeeded)
    && EarlierBlocksDone(steps)
  }

  /** Nothing left but, possibly, one step in flight. */
  ghost predicate StoppingSteps(steps: seq<Step>) {
    && Ordered(steps)
    && AllIn(steps, {RunStatus.Succeeded, RunStatus.Running, RunStatus.Cancelled})
    && steps != [] && steps[|steps| - 1].status != RunStatus.Succeeded
  }

  /** A target that still has work to do. */
  ghost predicate Open(target: Target) {
    target.outcome.None? && RowsOk(target.steps) && OpenSteps(target.steps)
  }

  /** A target with an outcome. */
  ghost predicate Settled(target: Target) {
    target.outcome.Some? && RowsOk(target.steps) && SettledSteps(target.steps)
  }

  /** A target its cancelled run gave up: no outcome, and at most a step in flight. */
  ghost predicate Stopping(target: Target) {
    target.outcome.None? && RowsOk(target.steps) && StoppingSteps(target.steps)
  }

  // ---------------------------------------------------------------- the shape of a run

  ghost predicate Live(target: Target) {
    Open(target) || Settled(target)
  }

  ghost predicate HasOpen(run: Run) {
    exists t :: 0 <= t < |run.targets| && Open(run.targets[t])
  }

  ghost predicate HasIdleOpen(run: Run) {
    exists t :: 0 <= t < |run.targets| && Open(run.targets[t]) && Idle(run.targets[t].steps)
  }

  ghost predicate HasUnsettled(run: Run) {
    exists t :: 0 <= t < |run.targets| && run.targets[t].outcome.None?
  }

  ghost predicate RunShape(run: Run) {
    && |run.targets| >= 1
    && run.maxAttempts >= 1
    && match run.status
       case Pending =>
         && run.outcome.None?
         && (forall t :: 0 <= t < |run.targets| ==>
               Open(run.targets[t]) && AllIn(run.targets[t].steps, {RunStatus.Pending}))
       case Running =>
         && run.outcome.None?
         && (forall t :: 0 <= t < |run.targets| ==> Live(run.targets[t]))
         && HasOpen(run)
       case WaitingRetry =>
         && run.outcome.None?
         && (forall t :: 0 <= t < |run.targets| ==> Live(run.targets[t]))
         && HasIdleOpen(run)
       case WaitingInput => false
       case Cancelling =>
         && run.outcome.None?
         && (forall t :: 0 <= t < |run.targets| ==> Live(run.targets[t]) || Stopping(run.targets[t]))
         && HasRunning(run)
       case Cancelled =>
         && run.outcome == Some(RunOutcome.Cancelled)
         && (forall t :: 0 <= t < |run.targets| ==>
               Settled(run.targets[t]) || (Stopping(run.targets[t]) && Idle(run.targets[t].steps)))
         && HasUnsettled(run)
       case Succeeded =>
         && run.outcome == Some(AggregateOutcome(run.targets))
         && run.status == AggregateStatus(run.targets)
         && (forall t :: 0 <= t < |run.targets| ==> Settled(run.targets[t]))
       case Failed =>
         && run.outcome == Some(AggregateOutcome(run.targets))
         && run.status == AggregateStatus(run.targets)
         && (forall t :: 0 <= t < |run.targets| ==> Settled(run.targets[t]))
  }

  ghost predicate IsRunning(run: Run, t: nat, s: nat) {
    HasStep(run, t, s) && run.targets[t].steps[s].status == RunStatus.Running
  }

  // ---------------------------------------------------------------- rows under the row updates

  lemma ReleaseKeepsLedger(
    step: Step, status: RunStatus, attemptStatus: RunStatus, error: Option<AttemptError>, now: int)
    requires LedgerOk(step) && step.status == RunStatus.Running
    requires status != RunStatus.Running && attemptStatus != RunStatus.Running
    requires status == RunStatus.Succeeded ==> attemptStatus == RunStatus.Succeeded
    requires status == RunStatus.WaitingRetry ==> step.retryDueAt.Some?
    ensures LedgerOk(ReleaseRow(step, status, attemptStatus, error, now))
  {}

  lemma LeaseKeepsLedger(step: Step, owner: string, now: int, duration: int)
    requires LedgerOk(step) && step.status != RunStatus.Running
    ensures LedgerOk(LeaseRow(step, owner, now, duration))
  {}

  /** COMPLETE stands at the end of each block, so the COMPLETE step in flight is the last step. */
  lemma CompleteIsLast(steps: seq<Step>, s: nat)
    requires RowsOk(steps) && EarlierBlocksDone(steps)
    requires s < |steps| && steps[s].status != RunStatus.Succeeded
    ensures steps[s].kind == StepKind.Complete <==> s == |steps| - 1
  {
    assert RowOk(steps[s], s);
    LastBlockKind(|steps|, s);
  }

  ghost predicate Contiguous(steps: seq<Step>) {
    forall i :: 0 <= i < |steps| ==> steps[i].position == i
  }

  lemma NextIsLength(steps: seq<Step>)
    requires Contiguous(steps)
    ensures NextPosition(steps) == |steps|
  {
    var p := NextPosition(steps);
    if steps != [] {
      assert steps[|steps| - 1].position < p;
    }
  }

  lemma NextPositionIsLength(steps: seq<Step>)
    requires RowsOk(steps)
    ensures NextPosition(steps) == |steps|
  {
    assert Contiguous(steps) by {
      forall i | 0 <= i < |steps| ensures steps[i].position == i {
        assert RowOk(steps[i], i);
      }
    }
    NextIsLength(steps);
  }

  /** A new version of a row that keeps the row's place and kind. */
  ghost predicate NewVersion(steps: seq<Step>, s: nat, step: Step) {
    s < |steps| && steps[s].position == step.position && steps[s].kind == step.kind && LedgerOk(step)
  }

  lemma RowsAfterStep(steps: seq<Step>, s: nat, step: Step)
    requires RowsOk(steps) && NewVersion(steps, s, step)
    ensures RowsOk(steps[s := step])
  {
    assert RowOk(steps[s], s);
  }

  lemma RowsAfterBulkCancel(steps: seq<Step>, which: set<RunStatus>)
    requires RowsOk(steps)
    requires RunStatus.Running !in which && RunStatus.Succeeded !in which
    ensures RowsOk(BulkCancel(steps, which))
  {
    var after := BulkCancel(steps, which);
    forall i | 0 <= i < |after| ensures RowOk(after[i], i) {
      assert RowOk(steps[i], i);
    }
  }

  /** Nine new rows that continue a list of `n` rows. */
  ghost predicate BlockRows(block: seq<Step>, n: nat) {
    |block| == 9
    && forall i :: 0 <= i < 9 ==>
         RowOk(block[i], n + i) && block[i].status == RunStatus.Pending && block[i].attempts == []
  }

  lemma RowsAfterBlock(steps: seq<Step>, block: seq<Step>)
    requires RowsOk(steps) && BlockRows(block, |steps|)
    ensures RowsOk(steps + block)
  {
    var n := |steps|;
    assert WholeBlocks(n + 9);
    forall i | 0 <= i < n + 9 ensures RowOk((steps + block)[i], i) {
      if i < n {
        assert RowOk(steps[i], i);
      } else {
        assert RowOk(block[i - n], n + (i - n));
      }
    }
  }

  lemma GapBlockRows(n: nat, loop: nat)
    requires WholeBlocks(n)
    ensures BlockRows(GapBlock(n, loop), n)
  {
    var block := GapBlock(n, loop);
    forall i | 0 <= i < 9
      ensures RowOk(block[i], n + i) && block[i].status == RunStatus.Pending && block[i].attempts == []
    {
      BlockKind(n, i);
      assert block[i] == NewStep(GapLoop(loop, STEP_KINDS[1 + i]), STEP_KINDS[1 + i], n + i);
    }
  }

  lemma RetryBlockRows(n: nat)
    requires WholeBlocks(n)
    ensures BlockRows(RetryBlock(n), n)
  {
    var block := RetryBlock(n);
    forall i | 0 <= i < 9
      ensures RowOk(block[i], n + i) && block[i].status == RunStatus.Pending && block[i].attempts == []
    {
      BlockKind(n, i);
      assert block[i] == NewStep(ManualRetry(n, STEP_KINDS[1 + i]), STEP_KINDS[1 + i], n + i);
    }
  }

  // ---------------------------------------------------------------- reading a target off its first open step

  /** `k` steps have succeeded, the next has status `x`, the ones behind it `rest` and no attempt. */
  ghost predicate Profile(steps: seq<Step>, k: nat, x: RunStatus, rest: RunStatus) {
    && k < |steps|
    && (forall i :: 0 <= i < k ==> steps[i].status == RunStatus.Succeeded)
    && steps[k].status == x
    && (forall i :: k < i < |steps| ==> steps[i].status == rest && steps[i].attempts == [])
  }

  ghost predicate InLastBlock(steps: seq<Step>, k: nat) {
    |steps| > 10 ==> k >= |steps| - 9
  }

  ghost predicate AllBefore(steps: seq<Step>, k: nat) {
    k <= |steps| && forall i :: 0 <= i < k ==> steps[i].status == RunStatus.Succeeded
  }

  lemma OrderedFromProfile(steps: seq<Step>, k: nat, x: RunStatus, rest: RunStatus)
    requires Profile(steps, k, x, rest) && rest in UNSTARTED
    ensures Ordered(steps)
  {
    forall i, j | 0 <= i < j < |steps| && steps[i].status != RunStatus.Succeeded
      ensures steps[j].status in UNSTARTED && steps[j].attempts == []
    {
      assert i >= k;
    }
  }

  lemma OpenFromProfile(steps: seq<Step>, k: nat, x: RunStatus)
    requires Profile(steps, k, x, RunStatus.Pending) && InLastBlock(steps, k)
    requires x in {RunStatus.Pending, RunStatus.Running, RunStatus.WaitingRetry}
    ensures OpenSteps(steps)
    ensures x != RunStatus.Running ==> Idle(steps)
  {
    OrderedFromProfile(steps, k, x, RunStatus.Pending);
  }

  lemma SettledFromProfile(steps: seq<Step>, k: nat)
    requires Profile(steps, k, RunStatus.Failed, RunStatus.Cancelled) && InLastBlock(steps, k)
    ensures SettledSteps(steps)
  {
    OrderedFromProfile(steps, k, RunStatus.Failed, RunStatus.Cancelled);
    forall i | 0 <= i < |steps| && steps[i].status == RunStatus.Cancelled
      ensures i > 0 && steps[i - 1].status != RunStatus.Succeeded
    {
      assert i > k;
    }
  }

  lemma StoppingFromProfile(steps: seq<Step>, k: nat, x: RunStatus)
    requires Profile(steps, k, x, RunStatus.Cancelled)
    requires x in {RunStatus.Running, RunStatus.Cancelled}
    ensures StoppingSteps(steps)
    ensures x != RunStatus.Running ==> Idle(steps)
  {
    OrderedFromProfile(steps, k, x, RunStatus.Cancelled);
  }

  lemma ProfileOfOpen(steps: seq<Step>, k: nat)
    requires OpenSteps(steps) && k < |steps|
    requires steps[k].status != RunStatus.Succeeded && AllBefore(steps, k)
    ensures Profile(steps, k, steps[k].status, RunStatus.Pending) && InLastBlock(steps, k)
  {}

  lemma ProfileOfStopping(steps: seq<Step>, k: nat)
    requires StoppingSteps(steps) && k < |steps|
    requires steps[k].status != RunStatus.Succeeded && AllBefore(steps, k)
    ensures Profile(steps, k, steps[k].status, RunStatus.Cancelled)
  {
    forall i | k < i < |steps| ensures steps[i].status == RunStatus.Cancelled {
      assert steps[i].status in UNSTARTED;
    }
  }

  /** The first step that has not succeeded. */
  lemma FirstOpenStep(steps: seq<Step>) returns (k: nat)
    requires !AllIn(steps, {RunStatus.Succeeded})
    ensures k < |steps| && steps[k].status != RunStatus.Succeeded && AllBefore(steps, k)
    ensures k > 0 ==> steps[k - 1].status == RunStatus.Succeeded
  {
    k := 0;
    while k < |steps| && steps[k].status == RunStatus.Succeeded
      invariant AllBefore(steps, k)
    {
      k := k + 1;
    }
  }

  /** Everything before a RUNNING step has succeeded. */
  lemma BeforeRunning(steps: seq<Step>, s: nat)
    requires Ordered(steps) && s < |steps| && steps[s].status == RunStatus.Running
    ensures AllBefore(steps, s)
  {}

  // ---------------------------------------------------------------- targets under the operations

  lemma OpenAfterLease(steps: seq<Step>, s: nat, owner: string, now: int, duration: int)
    requires RowsOk(steps) && OpenSteps(steps) && s < |steps|
    requires Due(steps[s], now) && PriorSucceeded(steps, s)
    ensures var after := steps[s := LeaseRow(steps[s], owner, now, duration)];
      RowsOk(after) && OpenSteps(after)
  {
    var step := LeaseRow(steps[s], owner, now, duration);
    assert RowOk(steps[s], s);
    LeaseKeepsLedger(steps[s], owner, now, duration);
    RowsAfterStep(steps, s, step);
    forall i | 0 <= i < s ensures steps[i].status == RunStatus.Succeeded {
      assert RowOk(steps[i], i);
    }
    ProfileOfOpen(steps, s);
    OpenFromProfile(steps[s := step], s, RunStatus.Running);
  }

  lemma OpenAfterRelease(steps: seq<Step>, s: nat, step: Step)
    requires OpenSteps(steps) && s < |steps| && steps[s].status == RunStatus.Running
    requires step.status in {RunStatus.Pending, RunStatus.WaitingRetry}
             || (step.status == RunStatus.Succeeded && s < |steps| - 1)
    ensures OpenSteps(steps[s := step]) && Idle(steps[s := step])
  {
    BeforeRunning(steps, s);
    ProfileOfOpen(steps, s);
    if step.status == RunStatus.Succeeded {
      OpenFromProfile(steps[s := step], s + 1, RunStatus.Pending);
    } else {
      OpenFromProfile(steps[s := step], s, step.status);
    }
  }

  lemma SettledAfterLastSuccess(steps: seq<Step>, s: nat, step: Step)
    requires OpenSteps(steps) && s == |steps| - 1
    requires steps[s].status == RunStatus.Running && step.status == RunStatus.Succeeded
    ensures SettledSteps(steps[s := step])
  {
    BeforeRunning(steps, s);
  }

  lemma SettledAfterFailure(steps: seq<Step>, s: nat, step: Step, which: set<RunStatus>)
    requires OpenSteps(steps) && s < |steps|
    requires steps[s].status == RunStatus.Running && step.status == RunStatus.Failed
    requires which == {RunStatus.Pending} || which == {RunStatus.Pending, RunStatus.WaitingRetry}
    ensures SettledSteps(BulkCancel(steps[s := step], which))
  {
    BeforeRunning(steps, s);
    ProfileOfOpen(steps, s);
    SettledFromProfile(BulkCancel(steps[s := step], which), s);
  }

  lemma OpenAfterGapLoop(steps: seq<Step>, s: nat, step: Step, block: seq<Step>)
    requires OpenSteps(steps) && s == |steps| - 1 && BlockRows(block, |steps|)
    requires steps[s].status == RunStatus.Running && step.status == RunStatus.Succeeded
    ensures OpenSteps((steps + block)[s := step])
  {
    BeforeRunning(steps, s);
    OpenFromProfile((steps + block)[s := step], |steps|, RunStatus.Pending);
  }

  /** Sweeping a target none of whose steps is at its boundary. */
  lemma StoppingAfterSweep(steps: seq<Step>)
    requires OpenSteps(steps) || StoppingSteps(steps)
    ensures StoppingSteps(BulkCancel(steps, WAITING))
    ensures Idle(steps) ==> Idle(BulkCancel(steps, WAITING))
  {
    var k := FirstOpenStep(steps);
    var after := BulkCancel(steps, WAITING);
    if OpenSteps(steps) {
      ProfileOfOpen(steps, k);
    } else {
      ProfileOfStopping(steps, k);
    }
    StoppingFromProfile(after, k, after[k].status);
  }

  lemma SettledAfterSweep(steps: seq<Step>)
    requires SettledSteps(steps)
    ensures BulkCancel(steps, WAITING) == steps
  {}

  lemma StoppingAfterRelease(steps: seq<Step>, s: nat, step: Step)
    requires (OpenSteps(steps) || StoppingSteps(steps)) && s < |steps|
    requires steps[s].status == RunStatus.Running && step.status == RunStatus.Cancelled
    ensures StoppingSteps(BulkCancel(steps[s := step], WAITING))
  {
    BeforeRunning(steps, s);
    if OpenSteps(steps) {
      ProfileOfOpen(steps, s);
    } else {
      ProfileOfStopping(steps, s);
    }
    StoppingFromProfile(BulkCancel(steps[s := step], WAITING), s, RunStatus.Cancelled);
  }

  /** The appended steps of a gap loop are cancelled together with the step at its boundary. */
  lemma StoppingAfterGapLoop(steps: seq<Step>, s: nat, step: Step, block: seq<Step>)
    requires (OpenSteps(steps) || StoppingSteps(steps)) && s < |steps| && BlockRows(block, |steps|)
    requires steps[s].status == RunStatus.Running && step.status == RunStatus.Cancelled
    ensures StoppingSteps(BulkCancel((steps + block)[s := step], WAITING))
  {
    BeforeRunning(steps, s);
    if OpenSteps(steps) {
      ProfileOfOpen(steps, s);
    } else {
      ProfileOfStopping(steps, s);
    }
    StoppingFromProfile(BulkCancel((steps + block)[s := step], WAITING), s, RunStatus.Cancelled);
  }

  const UNFINISHED: set<RunStatus> := {RunStatus.Pending, RunStatus.Running, RunStatus.WaitingRetry,
    RunStatus.WaitingInput, RunStatus.Cancelling, RunStatus.Cancelled}

  lemma AfterImmediateCancel(target: Target)
    requires Live(target) && Idle(target.steps)
    ensures var after := target.(steps := BulkCancel(target.steps, UNFINISHED));
      if Open(target) then Stopping(after) && Idle(after.steps) else after == target
  {
    var after := target.(steps := BulkCancel(target.steps, UNFINISHED));
    if Open(target) {
      assert after.steps == BulkCancel(target.steps, WAITING);
      RowsAfterBulkCancel(target.steps, WAITING);
      StoppingAfterSweep(target.steps);
    } else {
      assert after.steps == target.steps;
    }
  }

  lemma AfterRetry(target: Target, partialRun: bool, now: int)
    requires Settled(target)
    ensures var after := RetryTarget(target, partialRun, now);
      if HasFailedStep(target) || (partialRun && target.outcome == Some(RunOutcome.Partial))
      then Open(after) && Idle(after.steps) else after == target
  {
    if HasFailedStep(target) {
      OpenAfterReopen(target.steps, now);
    } else if partialRun && target.outcome == Some(RunOutcome.Partial) {
      NextPositionIsLength(target.steps);
      OpenAfterRetryBlock(target);
    }
  }

  lemma OpenAfterRetryBlock(target: Target)
    requires Settled(target) && !HasFailedStep(target)
    ensures var after := target.steps + RetryBlock(|target.steps|);
      RowsOk(after) && OpenSteps(after) && Idle(after)
  {
    var block := RetryBlock(|target.steps|);
    RetryBlockRows(|target.steps|);
    RowsAfterBlock(target.steps, block);
    AllSucceeded(target);
    OpenAfterFreshBlock(target.steps, block);
  }

  lemma OpenAfterFreshBlock(steps: seq<Step>, block: seq<Step>)
    requires AllIn(steps, {RunStatus.Succeeded}) && BlockRows(block, |steps|)
    ensures OpenSteps(steps + block) && Idle(steps + block)
  {
    OpenFromProfile(steps + block, |steps|, RunStatus.Pending);
  }

  /** A settled target without a FAILED step has succeeded throughout. */
  lemma AllSucceeded(target: Target)
    requires Settled(target) && !HasFailedStep(target)
    ensures AllIn(target.steps, {RunStatus.Succeeded})
  {
    if !AllIn(target.steps, {RunStatus.Succeeded}) {
      var k := FirstOpenStep(target.steps);
    }
  }

  lemma OpenAfterReopen(steps: seq<Step>, now: int)
    requires RowsOk(steps) && SettledSteps(steps)
    requires exists f :: 0 <= f < |steps| && steps[f].status == RunStatus.Failed
    ensures var after := ReopenSteps(steps, now);
      RowsOk(after) && OpenSteps(after) && Idle(after)
  {
    var f :| 0 <= f < |steps| && steps[f].status == RunStatus.Failed;
    var after := ReopenSteps(steps, now);
    forall i | 0 <= i < |steps|
      ensures RowOk(after[i], i) && ReopenedRow(steps[i], after[i], i, f)
    {
      ReopenRow(steps, now, f, i);
    }
    OpenFromReopened(steps, after, f);
  }

  ghost predicate ReopenedRow(before: Step, after: Step, i: nat, f: nat) {
    && (i < f ==> after.status == RunStatus.Succeeded)
    && (i == f ==> after.status == RunStatus.WaitingRetry)
    && (i > f ==> after.status == RunStatus.Pending && after.attempts == [])
  }

  lemma ReopenRow(steps: seq<Step>, now: int, f: nat, i: nat)
    requires RowsOk(steps) && SettledSteps(steps)
    requires f < |steps| && steps[f].status == RunStatus.Failed && i < |steps|
    ensures RowOk(ReopenSteps(steps, now)[i], i)
    ensures ReopenedRow(steps[i], ReopenSteps(steps, now)[i], i, f)
  {
    assert RowOk(steps[f], f) && RowOk(steps[i], i);
    if i > f {
      assert steps[i].status == RunStatus.Cancelled;
      assert steps[f].position < steps[i].position;
    }
  }

  lemma OpenFromReopened(steps: seq<Step>, after: seq<Step>, f: nat)
    requires SettledSteps(steps) && f < |steps| == |after| && steps[f].status == RunStatus.Failed
    requires forall i :: 0 <= i < |steps| ==> ReopenedRow(steps[i], after[i], i, f)
    ensures OpenSteps(after) && Idle(after)
  {
    assert ReopenedRow(steps[f], after[f], f, f);
    assert Profile(after, f, RunStatus.WaitingRetry, RunStatus.Pending) by {
      forall i | 0 <= i < |after| ensures i < f ==> after[i].status == RunStatus.Succeeded
                                  ensures i > f ==> after[i].status == RunStatus.Pending && after[i].attempts == []
      {
        assert ReopenedRow(steps[i], after[i], i, f);
      }
    }
    OpenFromProfile(after, f, RunStatus.WaitingRetry);
  }

  // ---------------------------------------------------------------- runs under the operations

  lemma RunningMeansActive(run: Run, t: nat, s: nat)
    requires RunShape(run) && IsRunning(run, t, s)
    ensures run.status in {RunStatus.Running, RunStatus.WaitingRetry, RunStatus.Cancelling}
    ensures run.status != RunStatus.Cancelling ==> Open(run.targets[t])
    ensures Open(run.targets[t]) || Stopping(run.targets[t])
    ensures RowOk(run.targets[t].steps[s], s)
  {
    var target := run.targets[t];
    assert target.steps[s].status == RunStatus.Running;
    assert !Settled(target);
  }

  /** A change confined to the target `t` that leaves it live keeps the rest in shape. */
  lemma OthersStayLive(run: Run, after: Run, t: nat)
    requires RunShape(run) && run.status in {RunStatus.Running, RunStatus.WaitingRetry}
    requires |after.targets| == |run.targets| && t < |run.targets|
    requires forall u :: 0 <= u < |run.targets| && u != t ==> after.targets[u] == run.targets[u]
    requires !Idle(run.targets[t].steps) && Live(after.targets[t])
    ensures forall u :: 0 <= u < |after.targets| ==> Live(after.targets[u])
    ensures run.status == RunStatus.WaitingRetry ==> HasIdleOpen(after)
  {
    if run.status == RunStatus.WaitingRetry {
      var u :| 0 <= u < |run.targets| && Open(run.targets[u]) && Idle(run.targets[u].steps);
      assert Open(after.targets[u]) && Idle(after.targets[u].steps);
    }
  }

  lemma LeaseKeepsShape(run: Run, t: nat, s: nat, owner: string, now: int, duration: int)
    requires RunShape(run) && HasStep(run, t, s) && EligibleStep(run, t, s, now)
    ensures RunShape(LeaseStep(run, t, s, owner, now, duration))
  {
    assert Live(run.targets[t]);
    assert !Settled(run.targets[t]);
    OpenAfterLease(run.targets[t].steps, s, owner, now, duration);
    var after := LeaseStep(run, t, s, owner, now, duration);
    assert Open(after.targets[t]);
  }

  lemma ReclaimKeepsShape(run: Run, t: nat, s: nat, now: int)
    requires RunShape(run) && IsRunning(run, t, s)
    ensures RunShape(ReclaimStep(run, t, s, now))
  {
    RunningMeansActive(run, t, s);
    if run.status == RunStatus.Cancelling {
      BoundaryKeepsShape(run, t, s, now);
    } else {
      var steps := run.targets[t].steps;
      var step := ReleaseRow(steps[s], RunStatus.Pending, RunStatus.Failed, Some(LeaseExpired), now);
      ReleaseKeepsLedger(steps[s], RunStatus.Pending, RunStatus.Failed, Some(LeaseExpired), now);
      RowsAfterStep(steps, s, step);
      OpenAfterRelease(steps, s, step);
      var after := ReclaimStep(run, t, s, now);
      assert Open(after.targets[t]);
      OthersStayLive(run, after, t);
    }
  }

  lemma SweepOthers(run: Run, after: Run, t: nat)
    requires |after.targets| == |run.targets|
    requires forall u :: 0 <= u < |run.targets| ==> Live(run.targets[u]) || Stopping(run.targets[u])
    requires forall u :: 0 <= u < |run.targets| && u != t ==>
      after.targets[u] == run.targets[u].(steps := BulkCancel(run.targets[u].steps, WAITING))
    ensures forall u :: 0 <= u < |run.targets| && u != t ==> Settled(after.targets[u]) || Stopping(after.targets[u])
  {
    forall u | 0 <= u < |run.targets| && u != t
      ensures Settled(after.targets[u]) || Stopping(after.targets[u])
    {
      if Settled(run.targets[u]) {
        SettledAfterSweep(run.targets[u].steps);
      } else {
        RowsAfterBulkCancel(run.targets[u].steps, WAITING);
        StoppingAfterSweep(run.targets[u].steps);
      }
    }
  }

  /** What the boundary leaves is CANCELLING or CANCELLED, as a step is still in flight or not. */
  lemma AfterSweep(run: Run, t: nat)
    requires run.status == RunStatus.Cancelling && run.outcome.None? && run.maxAttempts >= 1
    requires t < |run.targets| && Stopping(run.targets[t])
    requires forall u :: 0 <= u < |run.targets| ==> Settled(run.targets[u]) || Stopping(run.targets[u])
    ensures HasRunning(run) ==> RunShape(run)
    ensures !HasRunning(run) ==>
      RunShape(WithEvent(run.(status := RunStatus.Cancelled, outcome := Some(RunOutcome.Cancelled)), RunCancelled))
  {}

  lemma BoundaryKeepsShape(run: Run, t: nat, s: nat, now: int)
    requires RunShape(run) && run.status == RunStatus.Cancelling && IsRunning(run, t, s)
    ensures RunShape(CancelAtBoundary(run, t, s, now))
  {
    RunningMeansActive(run, t, s);
    var steps := run.targets[t].steps;
    var step := ReleaseRow(steps[s], RunStatus.Cancelled, RunStatus.Cancelled, None, now);
    ReleaseKeepsLedger(steps[s], RunStatus.Cancelled, RunStatus.Cancelled, None, now);
    RowsAfterStep(steps, s, step);
    RowsAfterBulkCancel(steps[s := step], WAITING);
    StoppingAfterRelease(steps, s, step);
    var stopped := WithStep(run, t, s, step);
    var swept := stopped.(targets := BulkCancelTargets(stopped.targets, WAITING));
    assert Stopping(swept.targets[t]);
    SweepOthers(run, swept, t);
    AfterSweep(swept, t);
  }

  /** In a run that is being cancelled the appended steps are cancelled with everything else. */
  lemma CancelledGapLoopKeepsShape(run: Run, t: nat, s: nat, now: int)
    requires RunShape(run) && run.status == RunStatus.Cancelling && IsRunning(run, t, s)
    ensures HasStep(ExtendTarget(run, t), t, s)
    ensures RunShape(CancelAtBoundary(ExtendTarget(run, t), t, s, now))
  {
    RunningMeansActive(run, t, s);
    Extended(run, t);
    var longer := ExtendTarget(run, t);
    assert longer.targets[t].steps[s] == run.targets[t].steps[s];
    var step := ReleaseRow(run.targets[t].steps[s], RunStatus.Cancelled, RunStatus.Cancelled, None, now);
    var stopped := WithStep(longer, t, s, step);
    assert CancelAtBoundary(longer, t, s, now).targets == BulkCancelTargets(stopped.targets, WAITING);
    var swept := stopped.(targets := BulkCancelTargets(stopped.targets, WAITING));
    LongerTargetStops(run, t, s, step, swept.targets[t], now);
    SweepOthers(run, swept, t);
    AfterSweep(swept, t);
  }

  lemma LongerTargetStops(run: Run, t: nat, s: nat, step: Step, swept: Target, now: int)
    requires RunShape(run) && run.status == RunStatus.Cancelling && IsRunning(run, t, s)
    requires step == ReleaseRow(run.targets[t].steps[s], RunStatus.Cancelled, RunStatus.Cancelled, None, now)
    requires var steps := run.targets[t].steps;
      var block := GapBlock(|steps|, run.targets[t].loopCount + 1);
      swept == run.targets[t].(steps := BulkCancel((steps + block)[s := step], WAITING),
                               loopCount := run.targets[t].loopCount + 1)
    ensures Stopping(swept)
  {
    var steps := run.targets[t].steps;
    var block := GapBlock(|steps|, run.targets[t].loopCount + 1);
    RunningMeansActive(run, t, s);
    ReleaseKeepsLedger(steps[s], RunStatus.Cancelled, RunStatus.Cancelled, None, now);
    GapBlockRows(|steps|, run.targets[t].loopCount + 1);
    RowsAfterBlock(steps, block);
    RowsAfterStep(steps + block, s, step);
    RowsAfterBulkCancel((steps + block)[s := step], WAITING);
    StoppingAfterGapLoop(steps, s, step, block);
  }

  lemma AggregateKeepsShape(run: Run)
    requires run.status in {RunStatus.Running, RunStatus.WaitingRetry} && run.outcome.None?
    requires |run.targets| >= 1 && run.maxAttempts >= 1
    requires forall t :: 0 <= t < |run.targets| ==> Live(run.targets[t])
    requires run.status == RunStatus.WaitingRetry ==> HasIdleOpen(run)
    ensures RunShape(Aggregate(run))
    ensures Aggregate(run).status != run.status ==> run.status == RunStatus.Running
  {
    if AllOutcomesKnown(run.targets) {
      assert forall t :: 0 <= t < |run.targets| ==> Settled(run.targets[t]);
    } else {
      var t :| 0 <= t < |run.targets| && run.targets[t].outcome.None?;
      assert Open(run.targets[t]);
    }
  }

  lemma SuccessKeepsShape(
    run: Run, t: nat, s: nat, effectKey: string, outputRefs: seq<string>, outcome: Option<RunOutcome>, now: int)
    requires RunShape(run) && run.status != RunStatus.Cancelling && IsRunning(run, t, s)
    ensures RunShape(SucceedStep(run, t, s, effectKey, outputRefs, StepState(false, outcome), now))
  {
    RunningMeansActive(run, t, s);
    var steps := run.targets[t].steps;
    var done := ReleaseRow(steps[s], RunStatus.Succeeded, RunStatus.Succeeded, None, now).(outputRefs := outputRefs);
    ReleaseKeepsLedger(steps[s], RunStatus.Succeeded, RunStatus.Succeeded, None, now);
    RowsAfterStep(steps, s, done);
    CompleteIsLast(steps, s);
    var moved := WithStep(run, t, s, done);
    if steps[s].kind == StepKind.Complete {
      SettledAfterLastSuccess(steps, s, done);
      var finished := WithOutcome(moved, t, Some(if outcome.Some? then outcome.value else RunOutcome.Complete), None);
      assert Settled(finished.targets[t]);
      OthersStayLive(run, finished, t);
      AggregateKeepsShape(finished);
      EventKeepsShape(Aggregate(finished), StepSucceeded(effectKey));
    } else {
      OpenAfterRelease(steps, s, done);
      assert Open(moved.targets[t]);
      OthersStayLive(run, moved, t);
      EventKeepsShape(moved, StepSucceeded(effectKey));
    }
  }

  lemma EventKeepsShape(run: Run, event: Event)
    requires RunShape(run)
    ensures RunShape(WithEvent(run, event))
  {
    var after := WithEvent(run, event);
    assert after.targets == run.targets && after.status == run.status;
    assert HasOpen(run) ==> HasOpen(after);
    assert HasIdleOpen(run) ==> HasIdleOpen(after);
    assert HasRunning(run) ==> HasRunning(after);
    assert HasUnsettled(run) ==> HasUnsettled(after);
  }

  /** Under the shape of its rows a target is extended right behind its last step. */
  lemma Extended(run: Run, t: nat)
    requires t < |run.targets| && RowsOk(run.targets[t].steps)
    ensures ExtendTarget(run, t) == ExtendedBy(run, t, GapBlock(|run.targets[t].steps|, run.targets[t].loopCount + 1))
  {
    NextPositionIsLength(run.targets[t].steps);
  }

  function ExtendedBy(run: Run, t: nat, block: seq<Step>): Run
    requires t < |run.targets|
  {
    run.(targets := run.targets[t := run.targets[t].(
      loopCount := run.targets[t].loopCount + 1, steps := run.targets[t].steps + block)])
  }

  lemma GapLoopKeepsShape(run: Run, t: nat, s: nat, effectKey: string, outputRefs: seq<string>, now: int)
    requires RunShape(run) && run.status != RunStatus.Cancelling && IsRunning(run, t, s)
    requires run.targets[t].steps[s].kind == StepKind.Complete
    ensures HasStep(ExtendTarget(run, t), t, s)
    ensures RunShape(SucceedStep(ExtendTarget(run, t), t, s, effectKey, outputRefs, StepState(true, None), now))
  {
    RunningMeansActive(run, t, s);
    Extended(run, t);
    var steps := run.targets[t].steps;
    var block := GapBlock(|steps|, run.targets[t].loopCount + 1);
    GapBlockRows(|steps|, run.targets[t].loopCount + 1);
    ExtendedSuccess(run, t, s, block, effectKey, outputRefs, now);
  }

  lemma ExtendedSuccess(
    run: Run, t: nat, s: nat, block: seq<Step>, effectKey: string, outputRefs: seq<string>, now: int)
    requires RunShape(run) && run.status != RunStatus.Cancelling && IsRunning(run, t, s)
    requires run.targets[t].steps[s].kind == StepKind.Complete && BlockRows(block, |run.targets[t].steps|)
    ensures RunShape(SucceedStep(ExtendedBy(run, t, block), t, s, effectKey, outputRefs, StepState(true, None), now))
  {
    RunningMeansActive(run, t, s);
    var steps := run.targets[t].steps;
    CompleteIsLast(steps, s);
    var done := ReleaseRow(steps[s], RunStatus.Succeeded, RunStatus.Succeeded, None, now).(outputRefs := outputRefs);
    ReleaseKeepsLedger(steps[s], RunStatus.Succeeded, RunStatus.Succeeded, None, now);
    RowsAfterBlock(steps, block);
    RowsAfterStep(steps + block, s, done);
    OpenAfterGapLoop(steps, s, done, block);
    var after := WithStep(ExtendedBy(run, t, block), t, s, done);
    assert after.targets[t].steps == (steps + block)[s := done];
    assert Open(after.targets[t]);
    OthersStayLive(run, after, t);
    EventKeepsShape(after, StepSucceeded(effectKey));
  }

  lemma RetryLaterKeepsShape(run: Run, t: nat, s: nat, error: string, retryAt: int, now: int)
    requires RunShape(run) && run.status != RunStatus.Cancelling && IsRunning(run, t, s)
    ensures CanMove(run.status, RunStatus.WaitingRetry)
    ensures RunShape(ScheduleRetry(run, t, s, error, retryAt, now))
  {
    RunningMeansActive(run, t, s);
    var steps := run.targets[t].steps;
    var after := ScheduleRetry(run, t, s, error, retryAt, now);
    var step := after.targets[t].steps[s];
    assert LedgerOk(step);
    assert after.targets[t].steps == steps[s := step];
    RowsAfterStep(steps, s, step);
    OpenAfterRelease(steps, s, step);
    assert Open(after.targets[t]) && Idle(after.targets[t].steps);
    OthersStayLive(run, after, t);
  }

  lemma CloseKeepsShape(
    run: Run, t: nat, s: nat, error: string, outcome: RunOutcome, which: set<RunStatus>, now: int)
    requires RunShape(run) && run.status != RunStatus.Cancelling && IsRunning(run, t, s)
    requires which == {RunStatus.Pending} || which == {RunStatus.Pending, RunStatus.WaitingRetry}
    ensures RunShape(CloseTarget(run, t, s, error, outcome, which, now))
  {
    RunningMeansActive(run, t, s);
    var steps := run.targets[t].steps;
    var step := ReleaseRow(steps[s], RunStatus.Failed, RunStatus.Failed, Some(Reported(error)), now)
                .(error := Some(error));
    ReleaseKeepsLedger(steps[s], RunStatus.Failed, RunStatus.Failed, Some(Reported(error)), now);
    RowsAfterStep(steps, s, step);
    RowsAfterBulkCancel(steps[s := step], which);
    SettledAfterFailure(steps, s, step, which);
    var failed := WithOutcome(FailStep(run, t, s, RunStatus.Failed, error, now), t, Some(outcome), Some(error));
    var swept := WithSteps(failed, t, BulkCancel(failed.targets[t].steps, which));
    assert Settled(swept.targets[t]);
    OthersStayLive(run, swept, t);
    AggregateKeepsShape(swept);
  }

  lemma RequestCancelKeepsShape(run: Run, now: int)
    requires RunShape(run) && run.status !in TERMINAL
    ensures RunShape(RequestCancelRun(run, now))
    ensures run.status == RunStatus.Cancelling ==> HasRunning(run)
  {
    var after := RequestCancelRun(run, now);
    assert forall u :: 0 <= u < |run.targets| ==> Live(run.targets[u]) || Stopping(run.targets[u]);
    if HasRunning(run) {
      var t, s :| 0 <= t < |run.targets| && 0 <= s < |run.targets[t].steps|
                  && run.targets[t].steps[s].status == RunStatus.Running;
      assert after.targets == run.targets && after.targets[t].steps[s].status == RunStatus.Running;
    } else {
      assert run.status != RunStatus.Cancelling;
      forall t | 0 <= t < |run.targets|
        ensures Settled(after.targets[t]) || (Stopping(after.targets[t]) && Idle(after.targets[t].steps))
        ensures Open(run.targets[t]) ==> after.targets[t].outcome.None?
      {
        assert Live(run.targets[t]) && Idle(run.targets[t].steps);
        AfterImmediateCancel(run.targets[t]);
      }
      assert run.status == RunStatus.Pending ==> Open(run.targets[0]);
      var t :| 0 <= t < |run.targets| && Open(run.targets[t]);
      assert after.targets[t].outcome.None?;
    }
  }

  lemma FinishKeepsShape(run: Run)
    requires RunShape(run) && AllOutcomesKnown(run.targets)
    ensures RunShape(Aggregate(run))
    ensures run.status in {RunStatus.Succeeded, RunStatus.Failed}
    ensures Aggregate(run).status == run.status && Aggregate(run).outcome == run.outcome
  {
    assert run.targets[0].outcome.Some?;
    if run.status == RunStatus.Cancelling {
      var t, s :| 0 <= t < |run.targets| && 0 <= s < |run.targets[t].steps|
                  && run.targets[t].steps[s].status == RunStatus.Running;
      RunningMeansActive(run, t, s);
    }
  }

  lemma RetryKeepsShape(run: Run, now: int)
    requires RunShape(run) && Retryable(run)
    requires exists t :: 0 <= t < |run.targets| && Reopens(run, t)
    ensures RunShape(RetryRun(run, now))
  {
    var after := RetryRun(run, now);
    forall t | 0 <= t < |run.targets|
      ensures Live(after.targets[t])
      ensures Reopens(run, t) ==> Open(after.targets[t]) && Idle(after.targets[t].steps)
    {
      assert Settled(run.targets[t]);
      AfterRetry(run.targets[t], run.outcome == Some(RunOutcome.Partial), now);
    }
    var t :| 0 <= t < |run.targets| && Reopens(run, t);
    assert Open(after.targets[t]) && Idle(after.targets[t].steps);
  }

  lemma NewRunShape(command: CreateCommand, key: string)
    requires ValidCommand(command)
    ensures RunShape(NewRun(command, key))
  {
    var steps := InitialSteps();
    assert forall i :: 0 <= i < 10 ==> RowOk(steps[i], i);
    OpenFromProfile(steps, 0, RunStatus.Pending);
    var run := NewRun(command, key);
    assert forall t :: 0 <= t < |run.targets| ==> run.targets[t].steps == steps;
  }
}
