/** The rows of the run kernel's tables (backend/app/v2/models.py), one value per row.

    A run owns its targets, a target its steps and a step its attempts, so a row is named by
    where it stands: nothing is ever deleted and every list only grows at its end. Outbox events
    are kept with their run; each stands for its `effect_key`. */
module RunRows {
  import opened Domain

  datatype AttemptError = LeaseExpired | Reported(message: string)

  datatype Attempt = Attempt(
    number: nat,
    status: RunStatus,
    owner: string,
    expiresAt: int,
    startedAt: int,
    finishedAt: Option<int>,
    error: Option<AttemptError>)

  /** The three formats of a step's idempotency key, without the run and target ids they contain. */
  datatype StepKey =
    | Initial(position: nat)
    | GapLoop(loop: nat, kind: StepKind)
    | ManualRetry(next: nat, kind: StepKind)

  datatype Step = Step(
    key: StepKey,
    kind: StepKind,
    position: nat,
    status: RunStatus,
    attemptCount: nat,
    leaseOwner: Option<string>,
    leaseExpiresAt: Option<int>,
    retryDueAt: Option<int>,
    outputRefs: seq<string>,
    error: Option<string>,
    attempts: seq<Attempt>)

  /** `loopCount` is the `loop_count` entry of the target's workspace. */
  datatype Target = Target(
    worldId: string,
    outcome: Option<RunOutcome>,
    error: Option<string>,
    loopCount: nat,
    steps: seq<Step>)

  /** Outbox effect keys; the owning run's id is part of every key but StepSucceeded's. */
  datatype Event =
    | RunCreated
    | StepSucceeded(effectKey: string)
    | StepFailed(target: nat, step: nat, attempt: nat)
    | StepPartial(target: nat, step: nat, attempt: nat)
    | CancelRequested
    | RunCancelled
    | RunRetried(number: nat)
    | RunFinished

  datatype CreateCommand = CreateCommand(
    objective: string, scope: string, worldIds: seq<string>, maxAttempts: nat)

  datatype Run = Run(
    status: RunStatus,
    outcome: Option<RunOutcome>,
    maxAttempts: nat,
    cancelRequestedAt: Option<int>,
    idempotencyKey: string,
    payload: CreateCommand,
    targets: seq<Target>,
    events: seq<Event>)

  datatype StepId = StepId(run: nat, target: nat, step: nat)

  datatype Checkpoint = Checkpoint(id: StepId, effectKey: string, outputRefs: seq<string>, createdAt: int)

  datatype Db = Db(runs: seq<Run>, checkpoints: map<string, Checkpoint>)

  datatype Lease = Lease(id: StepId, kind: StepKind, owner: string, attemptNumber: nat, expiresAt: int)

  datatype KernelError =
    | IdempotencyConflict
    | IllegalTransition
    | LeaseConflict
    | RetryLimit
    | MissingRetryDue
    | RunNotFound
    | Lookup
    | Integrity

  datatype Result<+T> = Ok(value: T) | Err(error: KernelError)

  /** What one transaction leaves behind: the committed state and what the caller gets. */
  datatype Tx<+T> = Tx(db: Db, result: Result<T>)

  predicate HasStep(run: Run, t: nat, s: nat) {
    t < |run.targets| && s < |run.targets[t].steps|
  }

  predicate HasId(db: Db, id: StepId) {
    id.run < |db.runs| && HasStep(db.runs[id.run], id.target, id.step)
  }

  function StepAt(db: Db, id: StepId): Step
    requires HasId(db, id)
  {
    db.runs[id.run].targets[id.target].steps[id.step]
  }
}
