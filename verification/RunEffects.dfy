/** What each call leaves in the rows, field by field: what is recorded, what others then see, and that
    nothing else changes. */
module RunEffects {
  import opened Domain
  import opened RunRows
  import opened RunOperations
  import opened RunInvariants
  import opened RunMoves
  import opened RunRecords
  import opened RunHistory
  import opened RunTheorems

  // ---------------------------------------------------------------- what stays

  predicate OtherRunsStay(before: Db, after: Db, r: nat) {
    |after.runs| == |before.runs| && forall q :: 0 <= q < |before.runs| && q != r ==> after.runs[q] == before.runs[q]
  }

  /** Identity and limits of a run, and all targets but `t`. */
  predicate OtherTargetsStay(a: Run, b: Run, t: nat) {
    && b.maxAttempts == a.maxAttempts && b.idempotencyKey == a.idempotencyKey && b.payload == a.payload
    && |b.targets| == |a.targets|
    && (forall u :: 0 <= u < |a.targets| && u != t ==> b.targets[u] == a.targets[u])
    && (t < |a.targets| ==>
          b.targets[t].worldId == a.targets[t].worldId && b.targets[t].loopCount == a.targets[t].loopCount)
  }

  predicate OtherStepsStay(a: seq<Step>, b: seq<Step>, s: nat) {
    |b| == |a| && forall i :: 0 <= i < |a| && i != s ==> b[i] == a[i]
  }

  // ---------------------------------------------------------------- how an attempt ends

  /** The attempt in flight ended as `status` at `now`; the earlier ones stay. */
  predicate LastAttemptEnded(
    a: seq<Attempt>, b: seq<Attempt>, status: RunStatus, error: Option<AttemptError>, now: int)
  {
    && |b| == |a| > 0
    && (forall i :: 0 <= i < |a| - 1 ==> b[i] == a[i])
    && b[|a| - 1] == a[|a| - 1].(status := status, finishedAt := Some(now), error := error)
  }

  /** A step that gave its lease back. */
  predicate Released(a: Step, b: Step, status: RunStatus) {
    && b.status == status && b.leaseOwner.None? && b.leaseExpiresAt.None?
    && b.key == a.key && b.kind == a.kind && b.position == a.position && b.attemptCount == a.attemptCount
  }

  /** The run is closed when the last outcome comes in: COMPLETE or FAILED if all targets agree on it,
      else PARTIAL; then its end is announced, and after it what happened to the step. */
  predicate ClosedWhenDone(a: Run, b: Run, announcement: Event) {
    var done := forall u :: 0 <= u < |b.targets| ==> b.targets[u].outcome.Some?;
    var complete := forall u :: 0 <= u < |b.targets| ==> b.targets[u].outcome == Some(RunOutcome.Complete);
    var failed := forall u :: 0 <= u < |b.targets| ==> b.targets[u].outcome == Some(RunOutcome.Failed);
    && b.cancelRequestedAt == a.cancelRequestedAt
    && b.status == (if !done then a.status else if failed then RunStatus.Failed else RunStatus.Succeeded)
    && b.outcome == (if !done then a.outcome
                     else if complete then Some(RunOutcome.Complete)
                     else if failed then Some(RunOutcome.Failed)
                     else Some(RunOutcome.Partial))
    && b.events == a.events + (if done && RunFinished !in a.events then [RunFinished] else []) + [announcement]
  }

  /** The last attempt is the one the lease is for. */
  lemma LeasedRun(trace: seq<Action>, maxGapLoops: nat, lease: Lease, now: int)
    requires LeaseValid(Exec(trace, maxGapLoops), lease, now)
    ensures var run := Exec(trace, maxGapLoops).runs[lease.id.run];
      && RunShape(run) && IsRunning(run, lease.id.target, lease.id.step)
      && LedgerOk(run.targets[lease.id.target].steps[lease.id.step])
      && run.status in {RunStatus.Running, RunStatus.WaitingRetry, RunStatus.Cancelling}
      && run.targets != []
  {
    ReachableRun(trace, maxGapLoops, lease.id.run);
    var run := Exec(trace, maxGapLoops).runs[lease.id.run];
    RunningMeansActive(run, lease.id.target, lease.id.step);
    StatusesInUse(run, lease.id.target, lease.id.step);
  }

  lemma ReleaseEffect(
    step: Step, status: RunStatus, attemptStatus: RunStatus, error: Option<AttemptError>, now: int)
    requires LedgerOk(step) && step.status == RunStatus.Running
    ensures var after := ReleaseRow(step, status, attemptStatus, error, now);
      && Released(step, after, status)
      && LastAttemptEnded(step.attempts, after.attempts, attemptStatus, error, now)
      && after.outputRefs == step.outputRefs && after.error == step.error && after.retryDueAt == step.retryDueAt
  {
  }

  /** Closing a run whose targets were changed before. */
  lemma AggregateEffect(a: Run, moved: Run, announcement: Event)
    requires moved == a.(targets := moved.targets) && moved.targets != []
    ensures var after := WithEvent(Aggregate(moved), announcement);
      && ClosedWhenDone(a, after, announcement) && after.targets == moved.targets
      && after.maxAttempts == a.maxAttempts && after.idempotencyKey == a.idempotencyKey && after.payload == a.payload
  {
    var first := moved.targets[0].outcome;
    assert AllOutcomesAre(moved.targets, RunOutcome.Complete) ==> first == Some(RunOutcome.Complete);
    assert AllOutcomesAre(moved.targets, RunOutcome.Failed) ==> first == Some(RunOutcome.Failed);
    assert a.events + [] + [announcement] == a.events + [announcement];
  }

  lemma OpenEffect(a: Run, moved: Run, t: nat, announcement: Event)
    requires moved == a.(targets := moved.targets) && t < |moved.targets| && moved.targets[t].outcome.None?
    ensures var after := WithEvent(moved, announcement);
      && ClosedWhenDone(a, after, announcement) && after.targets == moved.targets
      && after.maxAttempts == a.maxAttempts && after.idempotencyKey == a.idempotencyKey && after.payload == a.payload
  {
    assert WithEvent(moved, announcement).targets[t].outcome.None?;
    assert a.events + [] + [announcement] == a.events + [announcement];
  }

  // ---------------------------------------------------------------- success

  predicate StepDone(a: Step, b: Step, outputRefs: seq<string>, now: int) {
    && Released(a, b, RunStatus.Succeeded)
    && LastAttemptEnded(a.attempts, b.attempts, RunStatus.Succeeded, None, now)
    && b.outputRefs == outputRefs && b.error == a.error && b.retryDueAt == a.retryDueAt
  }

  /** The outcome a target has after one of its steps succeeded: a COMPLETE step brings the outcome it
      reports, COMPLETE if it reports none. */
  predicate OutcomeReported(a: Target, b: Target, kind: StepKind, outcome: Option<RunOutcome>) {
    if kind == StepKind.Complete then
      b.error.None? && b.outcome == (if outcome.Some? then outcome else Some(RunOutcome.Complete))
    else b.outcome == a.outcome && b.error == a.error
  }

  /** `checkpoint_success` stores one checkpoint and ends one step; the target gets the outcome its
      COMPLETE step reports and no other step does that. */
  lemma SuccessRecords(
    trace: seq<Action>, maxGapLoops: nat, lease: Lease, effectKey: string, outputRefs: seq<string>,
    outcome: Option<RunOutcome>, now: int)
    requires var db := Exec(trace, maxGapLoops);
      LeaseValid(db, lease, now) && effectKey !in db.checkpoints
      && db.runs[lease.id.run].status != RunStatus.Cancelling
    ensures var db, (r, t, s) := Exec(trace, maxGapLoops), (lease.id.run, lease.id.target, lease.id.step);
      var after := CheckpointSuccess(db, lease, effectKey, outputRefs, StepState(false, outcome), now).db;
      && after.checkpoints == db.checkpoints[effectKey := Checkpoint(lease.id, effectKey, outputRefs, now)]
      && OtherRunsStay(db, after, r)
      && SuccessfulRun(db.runs[r], after.runs[r], t, s, effectKey, outputRefs, outcome, now)
  {
    LeasedRun(trace, maxGapLoops, lease, now);
    var run := Exec(trace, maxGapLoops).runs[lease.id.run];
    SuccessOfRun(run, lease.id.target, lease.id.step, effectKey, outputRefs, outcome, now);
  }

  predicate SuccessfulRun(
    a: Run, b: Run, t: nat, s: nat, effectKey: string, outputRefs: seq<string>, outcome: Option<RunOutcome>, now: int)
    requires HasStep(a, t, s)
  {
    && OtherTargetsStay(a, b, t)
    && OtherStepsStay(a.targets[t].steps, b.targets[t].steps, s)
    && StepDone(a.targets[t].steps[s], b.targets[t].steps[s], outputRefs, now)
    && OutcomeReported(a.targets[t], b.targets[t], a.targets[t].steps[s].kind, outcome)
    && ClosedWhenDone(a, b, StepSucceeded(effectKey))
  }

  /** Before the call the target was open, so only its own outcome can close the run. */
  lemma SuccessOfRun(
    run: Run, t: nat, s: nat, effectKey: string, outputRefs: seq<string>, outcome: Option<RunOutcome>, now: int)
    requires RunShape(run) && IsRunning(run, t, s) && run.status != RunStatus.Cancelling
    requires LedgerOk(run.targets[t].steps[s])
    ensures var after := SucceedStep(run, t, s, effectKey, outputRefs, StepState(false, outcome), now);
      SuccessfulRun(run, after, t, s, effectKey, outputRefs, outcome, now)
  {
    RunningMeansActive(run, t, s);
    var step, target := run.targets[t].steps[s], run.targets[t];
    var done := ReleaseRow(step, RunStatus.Succeeded, RunStatus.Succeeded, None, now).(outputRefs := outputRefs);
    ReleaseEffect(step, RunStatus.Succeeded, RunStatus.Succeeded, None, now);
    var moved := WithStep(run, t, s, done);
    if step.kind == StepKind.Complete {
      var finished := WithOutcome(moved, t, Some(if outcome.Some? then outcome.value else RunOutcome.Complete), None);
      AggregateEffect(run, finished, StepSucceeded(effectKey));
    } else {
      OpenEffect(run, moved, t, StepSucceeded(effectKey));
    }
  }

  // ---------------------------------------------------------------- failure

  predicate StepFailedWith(a: Step, b: Step, status: RunStatus, message: string, now: int) {
    && Released(a, b, status)
    && LastAttemptEnded(a.attempts, b.attempts, RunStatus.Failed, Some(Reported(message)), now)
    && b.outputRefs == a.outputRefs && b.error == Some(message)
  }

  /** A retryable failure with attempts left: the step waits, and whatever the run does by then, it can
      be leased again exactly from its due time on. */
  lemma FailureWaits(
    trace: seq<Action>, maxGapLoops: nat, lease: Lease, error: string, retryAt: int, now: int, later: int)
    requires var db := Exec(trace, maxGapLoops);
      && LeaseValid(db, lease, now) && db.runs[lease.id.run].status != RunStatus.Cancelling
      && StepAt(db, lease.id).attemptCount < db.runs[lease.id.run].maxAttempts
    ensures var db, (r, t, s) := Exec(trace, maxGapLoops), (lease.id.run, lease.id.target, lease.id.step);
      var after := CheckpointFailure(db, lease, error, true, Some(retryAt), now).db;
      && after.checkpoints == db.checkpoints && OtherRunsStay(db, after, r)
      && WaitingRun(db.runs[r], after.runs[r], t, s, error, retryAt, now)
      && (Eligible(after, lease.id, later) <==> retryAt <= later)
  {
    LeasedRun(trace, maxGapLoops, lease, now);
    var run := Exec(trace, maxGapLoops).runs[lease.id.run];
    WaitOfRun(run, lease.id.target, lease.id.step, error, retryAt, now, later);
  }

  predicate WaitingRun(a: Run, b: Run, t: nat, s: nat, error: string, retryAt: int, now: int)
    requires HasStep(a, t, s)
  {
    && OtherTargetsStay(a, b, t)
    && OtherStepsStay(a.targets[t].steps, b.targets[t].steps, s)
    && StepFailedWith(a.targets[t].steps[s], b.targets[t].steps[s], RunStatus.WaitingRetry, error, now)
    && b.targets[t].steps[s].retryDueAt == Some(retryAt)
    && b.targets[t].outcome == a.targets[t].outcome && b.targets[t].error == a.targets[t].error
    && b.status == RunStatus.WaitingRetry && b.outcome == a.outcome && b.cancelRequestedAt == a.cancelRequestedAt
    && b.events == a.events + [StepFailed(t, s, a.targets[t].steps[s].attemptCount)]
  }

  lemma WaitOfRun(run: Run, t: nat, s: nat, error: string, retryAt: int, now: int, later: int)
    requires RunShape(run) && IsRunning(run, t, s) && run.status != RunStatus.Cancelling
    requires LedgerOk(run.targets[t].steps[s])
    ensures CanMove(run.status, RunStatus.WaitingRetry)
    ensures var after := WithEvent(ScheduleRetry(run, t, s, error, retryAt, now),
                                   StepFailed(t, s, run.targets[t].steps[s].attemptCount));
      && WaitingRun(run, after, t, s, error, retryAt, now)
      && (EligibleStep(after, t, s, later) <==> retryAt <= later)
  {
    RunningMeansActive(run, t, s);
    ReleaseEffect(run.targets[t].steps[s], RunStatus.WaitingRetry, RunStatus.Failed, Some(Reported(error)), now);
    var after := WithEvent(ScheduleRetry(run, t, s, error, retryAt, now),
                           StepFailed(t, s, run.targets[t].steps[s].attemptCount));
    PriorStays(run, after, t, s);
  }

  /** Whatever happens to a running step itself, the steps before it have succeeded. */
  lemma PriorStays(run: Run, after: Run, t: nat, s: nat)
    requires RunShape(run) && IsRunning(run, t, s)
    requires HasStep(after, t, s) && OtherStepsStay(run.targets[t].steps, after.targets[t].steps, s)
    requires after.targets[t].steps[s].position == run.targets[t].steps[s].position
    ensures PriorSucceeded(after.targets[t].steps, s)
  {
    RunningMeansActive(run, t, s);
    var steps := run.targets[t].steps;
    if run.status != RunStatus.Cancelled {
      BeforeRunning(steps, s);
      forall i | 0 <= i < |steps| ensures steps[i].position == i {
        assert RowOk(steps[i], i);
      }
    }
  }

  /** A final failure or a partial result: the step fails, the target gets that outcome with the error,
      its steps in `which` are cancelled, and the run is closed when it was the last. */
  predicate ClosedRun(
    a: Run, b: Run, t: nat, s: nat, error: string, outcome: RunOutcome, which: set<RunStatus>, announcement: Event,
    now: int)
    requires HasStep(a, t, s)
  {
    && OtherTargetsStay(a, b, t)
    && b.targets[t].outcome == Some(outcome) && b.targets[t].error == Some(error)
    && SweptSteps(a.targets[t].steps, b.targets[t].steps, s, which)
    && StepFailedWith(a.targets[t].steps[s], b.targets[t].steps[s], RunStatus.Failed, error, now)
    && b.targets[t].steps[s].retryDueAt == a.targets[t].steps[s].retryDueAt
    && ClosedWhenDone(a, b, announcement)
  }

  predicate SweptSteps(a: seq<Step>, b: seq<Step>, s: nat, which: set<RunStatus>) {
    && |b| == |a|
    && forall i :: 0 <= i < |a| && i != s ==>
         b[i] == if a[i].status in which then a[i].(status := RunStatus.Cancelled) else a[i]
  }

  lemma FailureCloses(
    trace: seq<Action>, maxGapLoops: nat, lease: Lease, error: string, retryable: bool, retryAt: Option<int>, now: int)
    requires var db := Exec(trace, maxGapLoops);
      && LeaseValid(db, lease, now) && db.runs[lease.id.run].status != RunStatus.Cancelling
      && (retryable ==> StepAt(db, lease.id).attemptCount >= db.runs[lease.id.run].maxAttempts)
    ensures var db, (r, t, s) := Exec(trace, maxGapLoops), (lease.id.run, lease.id.target, lease.id.step);
      var after := CheckpointFailure(db, lease, error, retryable, retryAt, now).db;
      && after.checkpoints == db.checkpoints && OtherRunsStay(db, after, r)
      && ClosedRun(db.runs[r], after.runs[r], t, s, error, RunOutcome.Failed, {RunStatus.Pending},
                   StepFailed(t, s, StepAt(db, lease.id).attemptCount), now)
  {
    LeasedRun(trace, maxGapLoops, lease, now);
    FailureClosesRow(Exec(trace, maxGapLoops), lease, error, retryable, retryAt, now);
  }

  lemma FailureClosesRow(db: Db, lease: Lease, error: string, retryable: bool, retryAt: Option<int>, now: int)
    requires LeaseValid(db, lease, now) && db.runs[lease.id.run].status != RunStatus.Cancelling
    requires LedgerOk(StepAt(db, lease.id))
    requires retryable ==> StepAt(db, lease.id).attemptCount >= db.runs[lease.id.run].maxAttempts
    ensures var (r, t, s) := (lease.id.run, lease.id.target, lease.id.step);
      var after := CheckpointFailure(db, lease, error, retryable, retryAt, now).db;
      && after.checkpoints == db.checkpoints && OtherRunsStay(db, after, r)
      && ClosedRun(db.runs[r], after.runs[r], t, s, error, RunOutcome.Failed, {RunStatus.Pending},
                   StepFailed(t, s, StepAt(db, lease.id).attemptCount), now)
  {
    FailureUnfolds(db, lease, error, retryable, retryAt, now);
    CloseOfRun(db.runs[lease.id.run], lease.id.target, lease.id.step, error, RunOutcome.Failed, {RunStatus.Pending},
               StepFailed(lease.id.target, lease.id.step, StepAt(db, lease.id).attemptCount), now);
  }

  lemma PartialCloses(trace: seq<Action>, maxGapLoops: nat, lease: Lease, error: string, now: int)
    requires var db := Exec(trace, maxGapLoops);
      LeaseValid(db, lease, now) && db.runs[lease.id.run].status != RunStatus.Cancelling
    ensures var db, (r, t, s) := Exec(trace, maxGapLoops), (lease.id.run, lease.id.target, lease.id.step);
      var after := CheckpointPartial(db, lease, error, Some((r, t)), now).db;
      && after.checkpoints == db.checkpoints && OtherRunsStay(db, after, r)
      && ClosedRun(db.runs[r], after.runs[r], t, s, error, RunOutcome.Partial,
                   {RunStatus.Pending, RunStatus.WaitingRetry},
                   StepPartial(t, s, StepAt(db, lease.id).attemptCount), now)
  {
    LeasedRun(trace, maxGapLoops, lease, now);
    PartialClosesRow(Exec(trace, maxGapLoops), lease, error, now);
  }

  lemma PartialClosesRow(db: Db, lease: Lease, error: string, now: int)
    requires LeaseValid(db, lease, now) && db.runs[lease.id.run].status != RunStatus.Cancelling
    requires LedgerOk(StepAt(db, lease.id))
    ensures var (r, t, s) := (lease.id.run, lease.id.target, lease.id.step);
      var after := CheckpointPartial(db, lease, error, Some((r, t)), now).db;
      && after.checkpoints == db.checkpoints && OtherRunsStay(db, after, r)
      && ClosedRun(db.runs[r], after.runs[r], t, s, error, RunOutcome.Partial,
                   {RunStatus.Pending, RunStatus.WaitingRetry},
                   StepPartial(t, s, StepAt(db, lease.id).attemptCount), now)
  {
    PartialUnfolds(db, lease, error, now);
    CloseOfRun(db.runs[lease.id.run], lease.id.target, lease.id.step, error, RunOutcome.Partial,
               {RunStatus.Pending, RunStatus.WaitingRetry},
               StepPartial(lease.id.target, lease.id.step, StepAt(db, lease.id).attemptCount), now);
  }

  lemma FailureUnfolds(db: Db, lease: Lease, error: string, retryable: bool, retryAt: Option<int>, now: int)
    requires LeaseValid(db, lease, now) && db.runs[lease.id.run].status != RunStatus.Cancelling
    requires retryable ==> StepAt(db, lease.id).attemptCount >= db.runs[lease.id.run].maxAttempts
    ensures var (run, t, s) := (db.runs[lease.id.run], lease.id.target, lease.id.step);
      var closed := CloseTarget(run, t, s, error, RunOutcome.Failed, {RunStatus.Pending}, now);
      CheckpointFailure(db, lease, error, retryable, retryAt, now).db
      == db.(runs := db.runs[lease.id.run := WithEvent(closed, StepFailed(t, s, StepAt(db, lease.id).attemptCount))])
  {
  }

  lemma PartialUnfolds(db: Db, lease: Lease, error: string, now: int)
    requires LeaseValid(db, lease, now) && db.runs[lease.id.run].status != RunStatus.Cancelling
    ensures var (run, t, s) := (db.runs[lease.id.run], lease.id.target, lease.id.step);
      var closed := CloseTarget(run, t, s, error, RunOutcome.Partial, {RunStatus.Pending, RunStatus.WaitingRetry}, now);
      CheckpointPartial(db, lease, error, Some((lease.id.run, t)), now).db
      == db.(runs := db.runs[lease.id.run := WithEvent(closed, StepPartial(t, s, StepAt(db, lease.id).attemptCount))])
  {
  }

  lemma CloseOfRun(
    run: Run, t: nat, s: nat, error: string, outcome: RunOutcome, which: set<RunStatus>, announcement: Event, now: int)
    requires IsRunning(run, t, s) && LedgerOk(run.targets[t].steps[s])
    requires RunStatus.Running !in which && RunStatus.Failed !in which
    ensures var after := WithEvent(CloseTarget(run, t, s, error, outcome, which, now), announcement);
      ClosedRun(run, after, t, s, error, outcome, which, announcement, now)
  {
    ReleaseEffect(run.targets[t].steps[s], RunStatus.Failed, RunStatus.Failed, Some(Reported(error)), now);
    var failed := WithOutcome(FailStep(run, t, s, RunStatus.Failed, error, now), t, Some(outcome), Some(error));
    AggregateEffect(run, WithSteps(failed, t, BulkCancel(failed.targets[t].steps, which)), announcement);
  }

  // ---------------------------------------------------------------- leasing and taking back

  /** `lease_next` starts one attempt of one step, and the run is running. */
  lemma LeaseStarts(trace: seq<Action>, maxGapLoops: nat, id: StepId, owner: string, now: int, duration: int)
    requires Eligible(Exec(trace, maxGapLoops), id, now)
    ensures var db, (r, t, s) := Exec(trace, maxGapLoops), (id.run, id.target, id.step);
      var after := GrantLease(db, id, owner, now, duration).0;
      && after.checkpoints == db.checkpoints && OtherRunsStay(db, after, r)
      && LeasedRunFrom(db.runs[r], after.runs[r], t, s, owner, now, duration)
  {
    ReachableRun(trace, maxGapLoops, id.run);
    StatusesInUse(Exec(trace, maxGapLoops).runs[id.run], id.target, id.step);
    LeaseOfRun(Exec(trace, maxGapLoops).runs[id.run], id.target, id.step, owner, now, duration);
  }

  lemma LeaseOfRun(run: Run, t: nat, s: nat, owner: string, now: int, duration: int)
    requires HasStep(run, t, s) && EligibleStep(run, t, s, now) && LedgerOk(run.targets[t].steps[s])
    ensures LeasedRunFrom(run, LeaseStep(run, t, s, owner, now, duration), t, s, owner, now, duration)
  {
    assert AttemptStarted(run.targets[t].steps[s], LeaseRow(run.targets[t].steps[s], owner, now, duration),
                          owner, now, duration);
  }

  predicate LeasedRunFrom(a: Run, b: Run, t: nat, s: nat, owner: string, now: int, duration: int)
    requires HasStep(a, t, s)
  {
    && OtherTargetsStay(a, b, t)
    && OtherStepsStay(a.targets[t].steps, b.targets[t].steps, s)
    && AttemptStarted(a.targets[t].steps[s], b.targets[t].steps[s], owner, now, duration)
    && b.targets[t].outcome == a.targets[t].outcome && b.targets[t].error == a.targets[t].error
    && b.status == RunStatus.Running && b.outcome == a.outcome && b.cancelRequestedAt == a.cancelRequestedAt
    && b.events == a.events
  }

  predicate AttemptStarted(a: Step, b: Step, owner: string, now: int, duration: int) {
    && b.status == RunStatus.Running && b.leaseOwner == Some(owner) && b.leaseExpiresAt == Some(now + duration)
    && b.key == a.key && b.kind == a.kind && b.position == a.position && b.attemptCount == a.attemptCount + 1
    && b.retryDueAt.None? && b.outputRefs == a.outputRefs && b.error == a.error
    && b.attempts
       == a.attempts + [Attempt(|a.attempts| + 1, RunStatus.Running, owner, now + duration, now, None, None)]
  }

  /** A reconciliation puts each expired step of a run that is not being cancelled back to PENDING, with
      its attempt failed for the lease; it can be leased again at once, and nothing else changes. */
  lemma ReclaimReturnsSteps(trace: seq<Action>, maxGapLoops: nat, r: nat, t: nat, s: nat, now: int, later: int)
    requires r < |Exec(trace, maxGapLoops).runs| && HasStep(Exec(trace, maxGapLoops).runs[r], t, s)
    requires Exec(trace, maxGapLoops).runs[r].status != RunStatus.Cancelling
    ensures var (db, id) := (Exec(trace, maxGapLoops), StepId(r, t, s));
      var after := Reconcile(db, now);
      var step := StepAt(db, id);
      var expired := step.status == RunStatus.Running && step.leaseExpiresAt.Some? && step.leaseExpiresAt.value < now;
      && HasId(after, id) && after.checkpoints == db.checkpoints
      && RunHeaderStays(db.runs[r], after.runs[r])
      && (!expired ==> StepAt(after, id) == step)
      && (expired ==> StepTakenBack(step, StepAt(after, id), now) && Eligible(after, id, later))
  {
    ReachableRun(trace, maxGapLoops, r);
    var run := Exec(trace, maxGapLoops).runs[r];
    StatusesInUse(run, t, s);
    ReclaimOfRun(run, t, s, now, later);
  }

  predicate RunHeaderStays(a: Run, b: Run) {
    && b.status == a.status && b.outcome == a.outcome && b.cancelRequestedAt == a.cancelRequestedAt
    && b.events == a.events && b.maxAttempts == a.maxAttempts && b.idempotencyKey == a.idempotencyKey
    && b.payload == a.payload && |b.targets| == |a.targets|
    && forall u :: 0 <= u < |a.targets| ==>
         && b.targets[u].outcome == a.targets[u].outcome && b.targets[u].error == a.targets[u].error
         && b.targets[u].worldId == a.targets[u].worldId && b.targets[u].loopCount == a.targets[u].loopCount
         && |b.targets[u].steps| == |a.targets[u].steps|
  }

  predicate StepTakenBack(a: Step, b: Step, now: int) {
    && Released(a, b, RunStatus.Pending)
    && LastAttemptEnded(a.attempts, b.attempts, RunStatus.Failed, Some(LeaseExpired), now)
    && b.outputRefs == a.outputRefs && b.error == a.error && b.retryDueAt == a.retryDueAt
  }

  lemma ReclaimOfRun(run: Run, t: nat, s: nat, now: int, later: int)
    requires RunShape(run) && HasStep(run, t, s) && run.status != RunStatus.Cancelling
    requires LedgerOk(run.targets[t].steps[s])
    ensures var after := ReconcileRun(run, now);
      var step := run.targets[t].steps[s];
      var expired := step.status == RunStatus.Running && step.leaseExpiresAt.Some? && step.leaseExpiresAt.value < now;
      && RunHeaderStays(run, after) && HasStep(after, t, s)
      && (!expired ==> after.targets[t].steps[s] == step)
      && (expired ==> StepTakenBack(step, after.targets[t].steps[s], now) && EligibleStep(after, t, s, later))
  {
    ReclaimHeaders(run, Expired(run, now), now);
    ReclaimOfStep(run, t, s, now);
    if (t, s) in Expired(run, now) {
      ReleaseEffect(run.targets[t].steps[s], RunStatus.Pending, RunStatus.Failed, Some(LeaseExpired), now);
      PriorKept(run, ReconcileRun(run, now), t, s, now);
    }
  }

  lemma ReclaimOfStep(run: Run, t: nat, s: nat, now: int)
    requires RunShape(run) && HasStep(run, t, s) && run.status != RunStatus.Cancelling
    ensures HasStep(ReconcileRun(run, now), t, s)
    ensures ReconcileRun(run, now).targets[t].steps[s]
            == if (t, s) in Expired(run, now)
               then ReleaseRow(run.targets[t].steps[s], RunStatus.Pending, RunStatus.Failed, Some(LeaseExpired), now)
               else run.targets[t].steps[s]
  {
    ReconcileFacts(run, now);
    assert ReclaimedStep(run, (t, s) in Expired(run, now), run.targets[t].steps[s],
                         ReconcileRun(run, now).targets[t].steps[s], now);
  }

  lemma {:induction false} ReclaimHeaders(run: Run, ids: seq<(nat, nat)>, now: int)
    requires run.status != RunStatus.Cancelling && forall x :: x in ids ==> HasStep(run, x.0, x.1)
    ensures RunHeaderStays(run, ReclaimAll(run, ids, now))
  {
    if ids != [] {
      var rest, last := ids[..|ids| - 1], ids[|ids| - 1];
      ReclaimHeaders(run, rest, now);
      assert last in ids;
      var before := ReclaimAll(run, rest, now);
      OneReclaimHeader(before, last.0, last.1, now);
    }
  }

  lemma OneReclaimHeader(run: Run, t: nat, s: nat, now: int)
    requires run.status != RunStatus.Cancelling && HasStep(run, t, s)
    ensures RunHeaderStays(run, ReclaimStep(run, t, s, now))
  {
  }

  lemma PriorKept(run: Run, after: Run, t: nat, s: nat, now: int)
    requires RunShape(run) && IsRunning(run, t, s) && run.status != RunStatus.Cancelling
    requires after == ReconcileRun(run, now) && HasStep(after, t, s)
    requires after.targets[t].steps[s].status == RunStatus.Pending && after.status == run.status
    ensures forall later :: EligibleStep(after, t, s, later)
  {
    RunningMeansActive(run, t, s);
    ReconcileFacts(run, now);
    var a, b := run.targets[t].steps, after.targets[t].steps;
    BeforeRunning(a, s);
    forall i | 0 <= i < |b| ensures b[i].position == i && (i < s ==> b[i] == a[i]) {
      StatusesInUse(run, t, i);
      assert ReclaimedStep(run, (t, i) in Expired(run, now), a[i], b[i], now);
    }
    assert PriorSucceeded(b, s);
  }

  // ---------------------------------------------------------------- cancelling

  /** At a boundary the held step is cancelled and every waiting step of the run with it; steps in flight
      and finished ones stay. With none in flight the run is CANCELLED and says so. */
  predicate StoppedRun(a: Run, b: Run, t: nat, s: nat, now: int)
    requires HasStep(a, t, s)
  {
    && RunIdentityStays(a, b)
    && (forall u :: 0 <= u < |a.targets| ==>
          TargetHeaderStays(a.targets[u], b.targets[u]) && |b.targets[u].steps| == |a.targets[u].steps|)
    && (forall u, i :: 0 <= u < |a.targets| && 0 <= i < |a.targets[u].steps| && (u != t || i != s) ==>
          var x := a.targets[u].steps[i];
          b.targets[u].steps[i]
          == if x.status in {RunStatus.Pending, RunStatus.WaitingRetry, RunStatus.WaitingInput}
             then x.(status := RunStatus.Cancelled) else x)
    && StepStopped(a.targets[t].steps[s], b.targets[t].steps[s], now)
    && (if HasRunning(b) then b.status == a.status && b.outcome == a.outcome && b.events == a.events
        else b.status == RunStatus.Cancelled && b.outcome == Some(RunOutcome.Cancelled)
             && b.events == a.events + [RunCancelled])
  }

  predicate RunIdentityStays(a: Run, b: Run) {
    && b.maxAttempts == a.maxAttempts && b.idempotencyKey == a.idempotencyKey && b.payload == a.payload
    && b.cancelRequestedAt == a.cancelRequestedAt && |b.targets| == |a.targets|
  }

  predicate TargetHeaderStays(a: Target, b: Target) {
    b.worldId == a.worldId && b.loopCount == a.loopCount && b.outcome == a.outcome && b.error == a.error
  }

  predicate StepStopped(a: Step, b: Step, now: int) {
    && Released(a, b, RunStatus.Cancelled)
    && LastAttemptEnded(a.attempts, b.attempts, RunStatus.Cancelled, None, now)
    && b.outputRefs == a.outputRefs && b.error == a.error && b.retryDueAt == a.retryDueAt
  }

  /** On a CANCELLING run every call under a valid lease stops its step, whatever it meant to report. */
  lemma CancellingStops(
    trace: seq<Action>, maxGapLoops: nat, lease: Lease, effectKey: string, outputRefs: seq<string>, state: StepState,
    error: string, retryable: bool, retryAt: Option<int>, workspaceTarget: Option<(nat, nat)>, now: int)
    requires var db := Exec(trace, maxGapLoops);
      LeaseValid(db, lease, now) && db.runs[lease.id.run].status == RunStatus.Cancelling
    ensures var db, (r, t, s) := Exec(trace, maxGapLoops), (lease.id.run, lease.id.target, lease.id.step);
      var after := CancelAtSafeBoundary(db, lease, now).db;
      && after.checkpoints == db.checkpoints && OtherRunsStay(db, after, r)
      && StoppedRun(db.runs[r], after.runs[r], t, s, now)
      && (effectKey !in db.checkpoints ==>
            CheckpointSuccess(db, lease, effectKey, outputRefs, state, now).db == after)
      && CheckpointFailure(db, lease, error, retryable, retryAt, now).db == after
      && CheckpointPartial(db, lease, error, workspaceTarget, now).db == after
  {
    LeasedRun(trace, maxGapLoops, lease, now);
    StopOfRun(Exec(trace, maxGapLoops).runs[lease.id.run], lease.id.target, lease.id.step, now);
  }

  lemma StopOfRun(run: Run, t: nat, s: nat, now: int)
    requires IsRunning(run, t, s) && LedgerOk(run.targets[t].steps[s])
    ensures StoppedRun(run, CancelAtBoundary(run, t, s, now), t, s, now)
  {
    var step := ReleaseRow(run.targets[t].steps[s], RunStatus.Cancelled, RunStatus.Cancelled, None, now);
    ReleaseEffect(run.targets[t].steps[s], RunStatus.Cancelled, RunStatus.Cancelled, None, now);
    StopOfTargets(run, t, s, step);
  }

  lemma StopOfTargets(run: Run, t: nat, s: nat, step: Step)
    requires HasStep(run, t, s) && step.status == RunStatus.Cancelled
    ensures var swept := BulkCancelTargets(WithStep(run, t, s, step).targets, WAITING);
      && |swept| == |run.targets|
      && (forall u :: 0 <= u < |run.targets| ==>
            TargetHeaderStays(run.targets[u], swept[u]) && |swept[u].steps| == |run.targets[u].steps|)
      && (forall u, i :: 0 <= u < |run.targets| && 0 <= i < |run.targets[u].steps| && (u != t || i != s) ==>
            var x := run.targets[u].steps[i];
            swept[u].steps[i]
            == if x.status in {RunStatus.Pending, RunStatus.WaitingRetry, RunStatus.WaitingInput}
               then x.(status := RunStatus.Cancelled) else x)
      && swept[t].steps[s] == step
  {
  }

  /** `request_cancel` notes the time and announces itself. With a step in flight the run waits for it as
      CANCELLING and no step changes; otherwise it is CANCELLED with everything that had not finished. */
  lemma CancelIsAsked(trace: seq<Action>, maxGapLoops: nat, r: nat, now: int)
    requires r < |Exec(trace, maxGapLoops).runs|
    requires var run := Exec(trace, maxGapLoops).runs[r];
      run.status !in {RunStatus.Cancelling, RunStatus.Cancelled, RunStatus.Succeeded, RunStatus.Failed}
    ensures var db := Exec(trace, maxGapLoops);
      var after := RequestCancel(db, r, now).db;
      && RequestCancel(db, r, now).result == Ok(())
      && after.checkpoints == db.checkpoints && OtherRunsStay(db, after, r)
      && AskedToCancel(db.runs[r], after.runs[r], now)
  {
    CancelTwiceIsRejected(trace, maxGapLoops, r, now);
    ReachableRun(trace, maxGapLoops, r);
    AskOfRun(Exec(trace, maxGapLoops).runs[r], now);
  }

  predicate AskedToCancel(a: Run, b: Run, now: int) {
    && b.maxAttempts == a.maxAttempts && b.idempotencyKey == a.idempotencyKey && b.payload == a.payload
    && b.cancelRequestedAt == Some(now) && b.events == a.events + [CancelRequested] && |b.targets| == |a.targets|
    && (if HasRunning(a) then b.status == RunStatus.Cancelling && b.outcome == a.outcome && b.targets == a.targets
        else
          && b.status == RunStatus.Cancelled && b.outcome == Some(RunOutcome.Cancelled)
          && forall u :: 0 <= u < |a.targets| ==>
               && TargetHeaderStays(a.targets[u], b.targets[u]) && |b.targets[u].steps| == |a.targets[u].steps|
               && forall i :: 0 <= i < |a.targets[u].steps| ==>
                    var x := a.targets[u].steps[i];
                    b.targets[u].steps[i]
                    == if x.status in {RunStatus.Succeeded, RunStatus.Failed}
                       then x else x.(status := RunStatus.Cancelled))
  }

  lemma AskOfRun(run: Run, now: int)
    requires RunShape(run)
    ensures AskedToCancel(run, RequestCancelRun(run, now), now)
  {
    if !HasRunning(run) {
      forall u | 0 <= u < |run.targets|
        ensures forall i :: 0 <= i < |run.targets[u].steps| ==>
                  var x := run.targets[u].steps[i];
                  RequestCancelRun(run, now).targets[u].steps[i]
                  == if x.status in {RunStatus.Succeeded, RunStatus.Failed}
                     then x else x.(status := RunStatus.Cancelled)
      {
        AskOfTarget(run, u, now);
      }
    }
  }

  lemma AskOfTarget(run: Run, u: nat, now: int)
    requires RunShape(run) && u < |run.targets| && !HasRunning(run)
    ensures |RequestCancelRun(run, now).targets| == |run.targets|
    ensures |RequestCancelRun(run, now).targets[u].steps| == |run.targets[u].steps|
    ensures forall i :: 0 <= i < |run.targets[u].steps| ==>
              var x := run.targets[u].steps[i];
              RequestCancelRun(run, now).targets[u].steps[i]
              == if x.status in {RunStatus.Succeeded, RunStatus.Failed} then x else x.(status := RunStatus.Cancelled)
  {
    forall i | 0 <= i < |run.targets[u].steps|
      ensures run.targets[u].steps[i].status !in {RunStatus.WaitingInput, RunStatus.Cancelling}
    {
      StatusesInUse(run, u, i);
    }
  }
}
