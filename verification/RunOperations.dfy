/** What each public method of ResearchRunKernel commits, as a function of the state it starts
    from. One call is one database transaction: a raised error leaves the state as it was, except
    RetryLimit, which is raised after the commit. */
module RunOperations {
  import opened Collections
  import opened Domain
  import opened RunRows

  // ---------------------------------------------------------------- rows

  function NewStep(key: StepKey, kind: StepKind, position: nat): Step {
    Step(key, kind, position, RunStatus.Pending, 0, None, None, None, [], None, [])
  }

  function SettleAttempts(
    attempts: seq<Attempt>, number: nat, status: RunStatus, error: Option<AttemptError>, now: int): seq<Attempt>
  {
    seq(|attempts|, i requires 0 <= i < |attempts| =>
      if attempts[i].number == number then
        attempts[i].(status := status, finishedAt := Some(now),
                     error := if error.Some? then error else attempts[i].error)
      else attempts[i])
  }

  function LeaseRow(step: Step, owner: string, now: int, duration: int): Step {
    step.(status := RunStatus.Running,
          attemptCount := step.attemptCount + 1,
          leaseOwner := Some(owner),
          leaseExpiresAt := Some(now + duration),
          retryDueAt := None,
          attempts := step.attempts
            + [Attempt(step.attemptCount + 1, RunStatus.Running, owner, now + duration, now, None, None)])
  }

  /** Ends the current attempt of a leased step and gives the lease back. */
  function ReleaseRow(
    step: Step, status: RunStatus, attemptStatus: RunStatus, error: Option<AttemptError>, now: int): Step
  {
    step.(status := status,
          leaseOwner := None,
          leaseExpiresAt := None,
          attempts := SettleAttempts(step.attempts, step.attemptCount, attemptStatus, error, now))
  }

  /** The bulk update that cancels every step whose status is in `which`. */
  function BulkCancel(steps: seq<Step>, which: set<RunStatus>): seq<Step> {
    seq(|steps|, i requires 0 <= i < |steps| =>
      if steps[i].status in which then steps[i].(status := RunStatus.Cancelled) else steps[i])
  }

  function BulkCancelTargets(targets: seq<Target>, which: set<RunStatus>): seq<Target> {
    seq(|targets|, t requires 0 <= t < |targets| =>
      targets[t].(steps := BulkCancel(targets[t].steps, which)))
  }

  function WithSteps(run: Run, t: nat, steps: seq<Step>): Run
    requires t < |run.targets|
  {
    run.(targets := run.targets[t := run.targets[t].(steps := steps)])
  }

  function WithStep(run: Run, t: nat, s: nat, step: Step): Run
    requires HasStep(run, t, s)
  {
    WithSteps(run, t, run.targets[t].steps[s := step])
  }

  function WithOutcome(run: Run, t: nat, outcome: Option<RunOutcome>, error: Option<string>): Run
    requires t < |run.targets|
  {
    run.(targets := run.targets[t := run.targets[t].(outcome := outcome, error := error)])
  }

  function WithEvent(run: Run, event: Event): Run {
    run.(events := run.events + [event])
  }

  predicate HasRunning(run: Run) {
    exists t, s :: 0 <= t < |run.targets| && 0 <= s < |run.targets[t].steps|
                   && run.targets[t].steps[s].status == RunStatus.Running
  }

  // ---------------------------------------------------------------- shared endings

  const WAITING: set<RunStatus> := {RunStatus.Pending, RunStatus.WaitingRetry, RunStatus.WaitingInput}

  /** `_cancel_run_at_boundary` */
  function CancelAtBoundary(run: Run, t: nat, s: nat, now: int): Run
    requires HasStep(run, t, s)
  {
    var step := ReleaseRow(run.targets[t].steps[s], RunStatus.Cancelled, RunStatus.Cancelled, None, now);
    var stopped := WithStep(run, t, s, step);
    var swept := stopped.(targets := BulkCancelTargets(stopped.targets, WAITING));
    if HasRunning(swept) then swept
    else WithEvent(swept.(status := RunStatus.Cancelled, outcome := Some(RunOutcome.Cancelled)), RunCancelled)
  }

  predicate AllOutcomesKnown(targets: seq<Target>) {
    targets != [] && forall t :: 0 <= t < |targets| ==> targets[t].outcome.Some?
  }

  predicate AllOutcomesAre(targets: seq<Target>, outcome: RunOutcome) {
    forall t :: 0 <= t < |targets| ==> targets[t].outcome == Some(outcome)
  }

  function AggregateOutcome(targets: seq<Target>): RunOutcome {
    if AllOutcomesAre(targets, RunOutcome.Complete) then RunOutcome.Complete
    else if AllOutcomesAre(targets, RunOutcome.Failed) then RunOutcome.Failed
    else RunOutcome.Partial
  }

  function AggregateStatus(targets: seq<Target>): RunStatus {
    if AggregateOutcome(targets) == RunOutcome.Failed then RunStatus.Failed else RunStatus.Succeeded
  }

  /** `_aggregate_targets` */
  function Aggregate(run: Run): Run {
    if !AllOutcomesKnown(run.targets) then run
    else
      var closed := run.(status := AggregateStatus(run.targets), outcome := Some(AggregateOutcome(run.targets)));
      if RunFinished in run.events then closed else WithEvent(closed, RunFinished)
  }

  // ---------------------------------------------------------------- create

  predicate ValidCommand(command: CreateCommand) {
    |command.worldIds| >= 1 && 1 <= command.maxAttempts <= 20
  }

  function InitialSteps(): seq<Step> {
    seq(|STEP_KINDS|, i requires 0 <= i < |STEP_KINDS| => NewStep(Initial(i), STEP_KINDS[i], i))
  }

  function NewRun(command: CreateCommand, key: string): Run {
    Run(RunStatus.Pending, None, command.maxAttempts, None, key, command,
        seq(|command.worldIds|, t requires 0 <= t < |command.worldIds| =>
          Target(command.worldIds[t], None, None, 0, InitialSteps())),
        [RunCreated])
  }

  /** The run created under `key`, if any. */
  function FindByKey(runs: seq<Run>, key: string): (found: Option<nat>)
    ensures found.Some? ==> found.value < |runs| && runs[found.value].idempotencyKey == key
    ensures found.None? ==> forall r :: 0 <= r < |runs| ==> runs[r].idempotencyKey != key
  {
    if runs == [] then None
    else if runs[|runs| - 1].idempotencyKey == key then Some(|runs| - 1)
    else FindByKey(runs[..|runs| - 1], key)
  }

  function Create(db: Db, command: CreateCommand, key: string): Tx<nat> {
    match FindByKey(db.runs, key)
    case Some(r) =>
      if db.runs[r].payload == command then Tx(db, Ok(r)) else Tx(db, Err(IdempotencyConflict))
    case None =>
      if !Distinct(command.worldIds) then Tx(db, Err(Integrity))
      else Tx(db.(runs := db.runs + [NewRun(command, key)]), Ok(|db.runs|))
  }

  // ---------------------------------------------------------------- append_step

  /** The step of this target that already carries `key`. */
  function FindStepKey(steps: seq<Step>, key: StepKey): (found: Option<nat>)
    ensures found.Some? ==> found.value < |steps| && steps[found.value].key == key
    ensures found.None? ==> forall i :: 0 <= i < |steps| ==> steps[i].key != key
  {
    if steps == [] then None
    else if steps[|steps| - 1].key == key then Some(|steps| - 1)
    else FindStepKey(steps[..|steps| - 1], key)
  }

  /** One past the highest position in use. */
  function NextPosition(steps: seq<Step>): (p: nat)
    ensures forall i :: 0 <= i < |steps| ==> steps[i].position < p
    ensures p == 0 || exists i :: 0 <= i < |steps| && steps[i].position == p - 1
  {
    if steps == [] then 0
    else
      var rest := NextPosition(steps[..|steps| - 1]);
      if steps[|steps| - 1].position >= rest then steps[|steps| - 1].position + 1 else rest
  }

  /** `append_step`. The step key is one of this target's keys, so a hit on it has the same run
      and target; only its kind can differ. */
  function AppendStep(db: Db, r: nat, t: nat, kind: StepKind, key: StepKey): Tx<StepId> {
    if r >= |db.runs| then Tx(db, Err(RunNotFound))
    else if t >= |db.runs[r].targets| then Tx(db, Err(Integrity))
    else
      var steps := db.runs[r].targets[t].steps;
      match FindStepKey(steps, key)
      case Some(s) =>
        if steps[s].kind == kind then Tx(db, Ok(StepId(r, t, s))) else Tx(db, Err(IdempotencyConflict))
      case None =>
        if db.runs[r].status in TERMINAL then Tx(db, Err(IllegalTransition))
        else
          var longer := steps + [NewStep(key, kind, NextPosition(steps))];
          Tx(db.(runs := db.runs[r := WithSteps(db.runs[r], t, longer)]), Ok(StepId(r, t, |steps|)))
  }

  // ---------------------------------------------------------------- lease_next

  const LEASABLE_RUNS: set<RunStatus> := {RunStatus.Pending, RunStatus.Running, RunStatus.WaitingRetry}

  predicate Due(step: Step, now: int) {
    || step.status == RunStatus.Pending
    || (step.status == RunStatus.WaitingRetry && step.retryDueAt.Some? && step.retryDueAt.value <= now)
  }

  predicate PriorSucceeded(steps: seq<Step>, s: nat)
    requires s < |steps|
  {
    forall i :: 0 <= i < |steps| && steps[i].position < steps[s].position ==> steps[i].status == RunStatus.Succeeded
  }

  predicate EligibleStep(run: Run, t: nat, s: nat, now: int)
    requires HasStep(run, t, s)
  {
    && run.status in LEASABLE_RUNS
    && Due(run.targets[t].steps[s], now)
    && PriorSucceeded(run.targets[t].steps, s)
  }

  predicate Eligible(db: Db, id: StepId, now: int) {
    HasId(db, id) && EligibleStep(db.runs[id.run], id.target, id.step, now)
  }

  function LeaseStep(run: Run, t: nat, s: nat, owner: string, now: int, duration: int): Run
    requires HasStep(run, t, s)
  {
    WithStep(run, t, s, LeaseRow(run.targets[t].steps[s], owner, now, duration))
      .(status := if run.status == RunStatus.Pending || run.status == RunStatus.WaitingRetry
                  then RunStatus.Running else run.status)
  }

  /** What `lease_next` commits once it has picked `id`. */
  function GrantLease(db: Db, id: StepId, owner: string, now: int, duration: int): (Db, Lease)
    requires HasId(db, id)
  {
    var step := StepAt(db, id);
    (db.(runs := db.runs[id.run := LeaseStep(db.runs[id.run], id.target, id.step, owner, now, duration)]),
     Lease(id, step.kind, owner, step.attemptCount + 1, now + duration))
  }

  // ---------------------------------------------------------------- reconcile_startup

  predicate ExpiredStep(run: Run, t: nat, s: nat, now: int)
    requires HasStep(run, t, s)
  {
    var step := run.targets[t].steps[s];
    step.status == RunStatus.Running && step.leaseExpiresAt.Some? && step.leaseExpiresAt.value < now
  }

  function ReclaimStep(run: Run, t: nat, s: nat, now: int): Run
    requires HasStep(run, t, s)
  {
    if run.status == RunStatus.Cancelling then CancelAtBoundary(run, t, s, now)
    else
      WithStep(run, t, s,
               ReleaseRow(run.targets[t].steps[s], RunStatus.Pending, RunStatus.Failed, Some(LeaseExpired), now))
  }

  /** The expired steps of the first `s` steps of target `t`, then of all earlier targets. */
  function ExpiredIn(run: Run, t: nat, s: nat, now: int): (ids: seq<(nat, nat)>)
    requires t < |run.targets| && s <= |run.targets[t].steps|
    ensures forall x :: x in ids <==>
              (HasStep(run, x.0, x.1) && (x.0 < t || (x.0 == t && x.1 < s)) && ExpiredStep(run, x.0, x.1, now))
    ensures Distinct(ids)
    decreases t, s
  {
    if s > 0 then
      var before := ExpiredIn(run, t, s - 1, now);
      if ExpiredStep(run, t, s - 1, now) then before + [(t, s - 1)] else before
    else if t > 0 then ExpiredIn(run, t - 1, |run.targets[t - 1].steps|, now)
    else []
  }

  function Expired(run: Run, now: int): (ids: seq<(nat, nat)>)
    ensures forall x :: x in ids <==> HasStep(run, x.0, x.1) && ExpiredStep(run, x.0, x.1, now)
    ensures Distinct(ids)
  {
    if run.targets == [] then []
    else ExpiredIn(run, |run.targets| - 1, |run.targets[|run.targets| - 1].steps|, now)
  }

  predicate SameShape(a: Run, b: Run) {
    |a.targets| == |b.targets| && forall t :: 0 <= t < |a.targets| ==> |a.targets[t].steps| == |b.targets[t].steps|
  }

  /** Reclaims the listed steps one after the other. */
  function ReclaimAll(run: Run, ids: seq<(nat, nat)>, now: int): (after: Run)
    requires forall x :: x in ids ==> HasStep(run, x.0, x.1)
    ensures SameShape(run, after)
  {
    if ids == [] then run
    else
      var last := |ids| - 1;
      var before := ReclaimAll(run, ids[..last], now);
      assert HasStep(run, ids[last].0, ids[last].1);
      ReclaimStep(before, ids[last].0, ids[last].1, now)
  }

  function ReconcileRun(run: Run, now: int): Run {
    ReclaimAll(run, Expired(run, now), now)
  }

  function Reconcile(db: Db, now: int): Db {
    db.(runs := seq(|db.runs|, r requires 0 <= r < |db.runs| => ReconcileRun(db.runs[r], now)))
  }

  // ---------------------------------------------------------------- checkpoints

  /** `_validate_lease` */
  predicate LeaseValid(db: Db, lease: Lease, now: int) {
    && HasId(db, lease.id)
    && var step := StepAt(db, lease.id);
    && step.status == RunStatus.Running
    && step.leaseOwner == Some(lease.owner)
    && step.attemptCount == lease.attemptNumber
    && step.leaseExpiresAt.Some? && now <= step.leaseExpiresAt.value
    && exists i :: 0 <= i < |step.attempts| && step.attempts[i].number == lease.attemptNumber
  }

  /** The part of a step's state the kernel reads. */
  datatype StepState = StepState(continueLoop: bool, outcome: Option<RunOutcome>)

  function FinishTarget(run: Run, t: nat, outcome: RunOutcome): Run
    requires t < |run.targets|
  {
    Aggregate(WithOutcome(run, t, Some(outcome), None))
  }

  function SucceedStep(
    run: Run, t: nat, s: nat, effectKey: string, outputRefs: seq<string>, state: StepState, now: int): Run
    requires HasStep(run, t, s)
  {
    var step := run.targets[t].steps[s];
    var done := ReleaseRow(step, RunStatus.Succeeded, RunStatus.Succeeded, None, now).(outputRefs := outputRefs);
    var moved := WithStep(run, t, s, done);
    WithEvent(
      if step.kind == StepKind.Complete && !state.continueLoop then
        FinishTarget(moved, t, if state.outcome.Some? then state.outcome.value else RunOutcome.Complete)
      else moved,
      StepSucceeded(effectKey))
  }

  function CheckpointSuccess(
    db: Db, lease: Lease, effectKey: string, outputRefs: seq<string>, state: StepState, now: int)
    : Tx<Option<Checkpoint>>
  {
    if effectKey in db.checkpoints then Tx(db, Ok(Some(db.checkpoints[effectKey])))
    else if !LeaseValid(db, lease, now) then Tx(db, Err(LeaseConflict))
    else
      var (r, t, s) := (lease.id.run, lease.id.target, lease.id.step);
      var run := db.runs[r];
      if run.status == RunStatus.Cancelling then
        Tx(db.(runs := db.runs[r := CancelAtBoundary(run, t, s, now)]), Ok(None))
      else
        var checkpoint := Checkpoint(lease.id, effectKey, outputRefs, now);
        Tx(Db(db.runs[r := SucceedStep(run, t, s, effectKey, outputRefs, state, now)],
              db.checkpoints[effectKey := checkpoint]),
           Ok(Some(checkpoint)))
  }

  function FailStep(run: Run, t: nat, s: nat, status: RunStatus, error: string, now: int): Run
    requires HasStep(run, t, s)
  {
    WithStep(run, t, s,
             ReleaseRow(run.targets[t].steps[s], status, RunStatus.Failed, Some(Reported(error)), now)
             .(error := Some(error)))
  }

  function ScheduleRetry(run: Run, t: nat, s: nat, error: string, retryAt: int, now: int): Run
    requires HasStep(run, t, s)
  {
    var failed := FailStep(run, t, s, RunStatus.WaitingRetry, error, now);
    WithStep(failed, t, s, failed.targets[t].steps[s].(retryDueAt := Some(retryAt))).(status := RunStatus.WaitingRetry)
  }

  /** A final failure: the target gets `outcome` and its open steps are cancelled. */
  function CloseTarget(
    run: Run, t: nat, s: nat, error: string, outcome: RunOutcome, which: set<RunStatus>, now: int): Run
    requires HasStep(run, t, s)
  {
    var failed := WithOutcome(FailStep(run, t, s, RunStatus.Failed, error, now), t, Some(outcome), Some(error));
    Aggregate(WithSteps(failed, t, BulkCancel(failed.targets[t].steps, which)))
  }

  function CheckpointFailure(
    db: Db, lease: Lease, error: string, retryable: bool, retryAt: Option<int>, now: int): Tx<()>
  {
    if !LeaseValid(db, lease, now) then Tx(db, Err(LeaseConflict))
    else
      var (r, t, s) := (lease.id.run, lease.id.target, lease.id.step);
      var run := db.runs[r];
      var attempt := run.targets[t].steps[s].attemptCount;
      if run.status == RunStatus.Cancelling then
        Tx(db.(runs := db.runs[r := CancelAtBoundary(run, t, s, now)]), Ok(()))
      else if retryable && attempt < run.maxAttempts then
        if retryAt.None? then Tx(db, Err(MissingRetryDue))
        else if !CanMove(run.status, RunStatus.WaitingRetry) then Tx(db, Err(IllegalTransition))
        else
          var later := WithEvent(ScheduleRetry(run, t, s, error, retryAt.value, now), StepFailed(t, s, attempt));
          Tx(db.(runs := db.runs[r := later]), Ok(()))
      else
        var closed := CloseTarget(run, t, s, error, RunOutcome.Failed, {RunStatus.Pending}, now);
        Tx(db.(runs := db.runs[r := WithEvent(closed, StepFailed(t, s, attempt))]),
           if retryable then Err(RetryLimit) else Ok(()))
  }

  /** `checkpoint_partial`; `workspaceTarget` is the target the named workspace belongs to, if
      there is such a workspace. */
  function CheckpointPartial(
    db: Db, lease: Lease, error: string, workspaceTarget: Option<(nat, nat)>, now: int): Tx<()>
  {
    if !LeaseValid(db, lease, now) then Tx(db, Err(LeaseConflict))
    else
      var (r, t, s) := (lease.id.run, lease.id.target, lease.id.step);
      var run := db.runs[r];
      if run.status == RunStatus.Cancelling then
        Tx(db.(runs := db.runs[r := CancelAtBoundary(run, t, s, now)]), Ok(()))
      else if workspaceTarget != Some((r, t)) then Tx(db, Err(Lookup))
      else
        var closed := CloseTarget(run, t, s, error, RunOutcome.Partial,
                                  {RunStatus.Pending, RunStatus.WaitingRetry}, now);
        var attempt := run.targets[t].steps[s].attemptCount;
        Tx(db.(runs := db.runs[r := WithEvent(closed, StepPartial(t, s, attempt))]), Ok(()))
  }

  // ---------------------------------------------------------------- the gap loop

  /** The nine steps after INVENTORY, as gap loop number `loop` appends them from position `n`. */
  function GapBlock(n: nat, loop: nat): seq<Step> {
    seq(9, i requires 0 <= i < 9 => NewStep(GapLoop(loop, STEP_KINDS[1 + i]), STEP_KINDS[1 + i], n + i))
  }

  /** The same nine steps, as a manual retry appends them. */
  function RetryBlock(n: nat): seq<Step> {
    seq(9, i requires 0 <= i < 9 => NewStep(ManualRetry(n, STEP_KINDS[1 + i]), STEP_KINDS[1 + i], n + i))
  }

  /** The target's workspace counts one more gap loop and the nine steps of that loop follow. */
  function ExtendTarget(run: Run, t: nat): Run
    requires t < |run.targets|
  {
    var target := run.targets[t];
    run.(targets := run.targets[t := target.(
      loopCount := target.loopCount + 1,
      steps := target.steps + GapBlock(NextPosition(target.steps), target.loopCount + 1))])
  }

  /** The COMPLETE step of a target with open questions: nine more steps and this step's success
      are committed together. */
  function ContinueGapLoop(
    db: Db, lease: Lease, effectKey: string, outputRefs: seq<string>, now: int): Tx<Option<Checkpoint>>
  {
    if effectKey in db.checkpoints then Tx(db, Ok(Some(db.checkpoints[effectKey])))
    else if !LeaseValid(db, lease, now) then Tx(db, Err(LeaseConflict))
    else
      var longer := db.(runs := db.runs[lease.id.run := ExtendTarget(db.runs[lease.id.run], lease.id.target)]);
      CheckpointSuccess(longer, lease, effectKey, outputRefs, StepState(true, None), now)
  }

  // ---------------------------------------------------------------- cancelling

  function RequestCancelRun(run: Run, now: int): Run {
    var asked := run.(cancelRequestedAt := Some(now));
    WithEvent(
      if HasRunning(run) then asked.(status := RunStatus.Cancelling)
      else asked.(status := RunStatus.Cancelled,
                  outcome := Some(RunOutcome.Cancelled),
                  targets := BulkCancelTargets(run.targets,
                    {RunStatus.Pending, RunStatus.Running, RunStatus.WaitingRetry, RunStatus.WaitingInput,
                     RunStatus.Cancelling, RunStatus.Cancelled})),
      CancelRequested)
  }

  /** The outbox row is keyed `cancel:<run id>`; a second one violates the unique index. */
  function RequestCancel(db: Db, r: nat, now: int): Tx<()> {
    if r >= |db.runs| then Tx(db, Err(RunNotFound))
    else if db.runs[r].status in TERMINAL then Tx(db, Err(IllegalTransition))
    else if CancelRequested in db.runs[r].events then Tx(db, Err(Integrity))
    else Tx(db.(runs := db.runs[r := RequestCancelRun(db.runs[r], now)]), Ok(()))
  }

  function CancelAtSafeBoundary(db: Db, lease: Lease, now: int): Tx<()> {
    if !LeaseValid(db, lease, now) then Tx(db, Err(LeaseConflict))
    else
      var (r, t, s) := (lease.id.run, lease.id.target, lease.id.step);
      if db.runs[r].status != RunStatus.Cancelling then Tx(db, Err(IllegalTransition))
      else Tx(db.(runs := db.runs[r := CancelAtBoundary(db.runs[r], t, s, now)]), Ok(()))
  }

  // ---------------------------------------------------------------- finish, resume, retry

  function FinishFromTargets(db: Db, r: nat): Tx<()> {
    if r >= |db.runs| then Tx(db, Err(RunNotFound))
    else
      var run := db.runs[r];
      if !AllOutcomesKnown(run.targets) then Tx(db, Err(IllegalTransition))
      else if exists t, s :: 0 <= t < |run.targets| && 0 <= s < |run.targets[t].steps|
                             && run.targets[t].steps[s].kind == StepKind.Complete
                             && run.targets[t].steps[s].status != RunStatus.Succeeded
      then Tx(db, Err(IllegalTransition))
      else Tx(db.(runs := db.runs[r := Aggregate(run)]), Ok(()))
  }

  function Resume(db: Db, r: nat): Tx<()> {
    if r >= |db.runs| then Tx(db, Err(RunNotFound))
    else if db.runs[r].status != RunStatus.WaitingInput then Tx(db, Err(IllegalTransition))
    else Tx(db.(runs := db.runs[r := db.runs[r].(status := RunStatus.Running)]), Ok(()))
  }

  predicate HasFailedStep(target: Target) {
    exists s :: 0 <= s < |target.steps| && target.steps[s].status == RunStatus.Failed
  }

  /** Every FAILED step waits for its retry; CANCELLED steps behind one are open again. */
  function ReopenSteps(steps: seq<Step>, now: int): seq<Step> {
    seq(|steps|, i requires 0 <= i < |steps| =>
      if steps[i].status == RunStatus.Failed then
        steps[i].(status := RunStatus.WaitingRetry, retryDueAt := Some(now))
      else if steps[i].status == RunStatus.Cancelled
              && exists j :: 0 <= j < |steps| && steps[j].status == RunStatus.Failed
                             && steps[j].position < steps[i].position then
        steps[i].(status := RunStatus.Pending, error := None, retryDueAt := None)
      else steps[i])
  }

  function RetryTarget(target: Target, partialRun: bool, now: int): Target {
    if HasFailedStep(target) then
      target.(outcome := None, error := None, steps := ReopenSteps(target.steps, now))
    else if partialRun && target.outcome == Some(RunOutcome.Partial) then
      target.(outcome := None, error := None, steps := target.steps + RetryBlock(NextPosition(target.steps)))
    else target
  }

  function RetriedCount(events: seq<Event>): nat {
    if events == [] then 0
    else RetriedCount(events[..|events| - 1]) + (if events[|events| - 1].RunRetried? then 1 else 0)
  }

  predicate Retryable(run: Run) {
    || run.status == RunStatus.Failed
    || (run.status == RunStatus.Succeeded && run.outcome == Some(RunOutcome.Partial))
  }

  predicate Reopens(run: Run, t: nat)
    requires t < |run.targets|
  {
    || HasFailedStep(run.targets[t])
    || (run.outcome == Some(RunOutcome.Partial) && run.targets[t].outcome == Some(RunOutcome.Partial))
  }

  function RetryRun(run: Run, now: int): Run {
    var partialRun := run.outcome == Some(RunOutcome.Partial);
    WithEvent(
      run.(status := RunStatus.WaitingRetry,
           outcome := None,
           targets := seq(|run.targets|, t requires 0 <= t < |run.targets| =>
             RetryTarget(run.targets[t], partialRun, now))),
      RunRetried(RetriedCount(run.events) + 1))
  }

  function Retry(db: Db, r: nat, now: int): Tx<()> {
    if r >= |db.runs| then Tx(db, Err(RunNotFound))
    else if !Retryable(db.runs[r]) then Tx(db, Err(IllegalTransition))
    else if !exists t :: 0 <= t < |db.runs[r].targets| && Reopens(db.runs[r], t) then Tx(db, Err(IllegalTransition))
    else Tx(db.(runs := db.runs[r := RetryRun(db.runs[r], now)]), Ok(()))
  }
}
