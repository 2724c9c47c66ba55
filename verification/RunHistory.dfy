/** Whole histories of the kernel: any interleaving of its transactions, by any number of workers.

    One action is one transaction. The one assumption about callers is that the workflow's
    COMPLETE step appends a gap loop's nine steps and checkpoints with `continue_loop` as one
    action (ContinueLoop), at most `maxGapLoops` times per target. Everything else is arbitrary:
    stale leases, reused effect keys, clocks running backwards, cancel and retry at any time. */
module RunHistory {
  import opened Domain
  import opened RunRows
  import opened RunOperations
  import opened RunInvariants
  import opened RunMoves
  import opened RunRecords

  datatype Action =
    | CreateRun(command: CreateCommand, key: string)
    | LeaseNext(id: StepId, owner: string, now: int, duration: int)
    | ReconcileStartup(now: int)
    | Succeed(lease: Lease, effectKey: string, outputRefs: seq<string>, outcome: Option<RunOutcome>, now: int)
    | ContinueLoop(lease: Lease, effectKey: string, outputRefs: seq<string>, now: int)
    | Fail(lease: Lease, error: string, retryable: bool, retryAt: Option<int>, now: int)
    | Degrade(lease: Lease, error: string, workspaceTarget: Option<(nat, nat)>, now: int)
    | AskCancel(run: nat, now: int)
    | StopAtBoundary(lease: Lease, now: int)
    | Finish(run: nat)
    | ResumeRun(run: nat)
    | RetryAgain(run: nat, now: int)

  /** The workflow continues a gap loop only from a target's COMPLETE step and only so often. */
  ghost predicate MayContinue(db: Db, lease: Lease, maxGapLoops: nat) {
    && HasId(db, lease.id)
    && StepAt(db, lease.id).kind == StepKind.Complete
    && db.runs[lease.id.run].targets[lease.id.target].loopCount < maxGapLoops
  }

  ghost function Apply(db: Db, a: Action, maxGapLoops: nat): Db {
    match a
    case CreateRun(command, key) => if ValidCommand(command) then Create(db, command, key).db else db
    case LeaseNext(id, owner, now, duration) =>
      if Eligible(db, id, now) then GrantLease(db, id, owner, now, duration).0 else db
    case ReconcileStartup(now) => Reconcile(db, now)
    case Succeed(lease, effectKey, outputRefs, outcome, now) =>
      CheckpointSuccess(db, lease, effectKey, outputRefs, StepState(false, outcome), now).db
    case ContinueLoop(lease, effectKey, outputRefs, now) =>
      if MayContinue(db, lease, maxGapLoops) then ContinueGapLoop(db, lease, effectKey, outputRefs, now).db else db
    case Fail(lease, error, retryable, retryAt, now) =>
      CheckpointFailure(db, lease, error, retryable, retryAt, now).db
    case Degrade(lease, error, workspaceTarget, now) =>
      CheckpointPartial(db, lease, error, workspaceTarget, now).db
    case AskCancel(r, now) => RequestCancel(db, r, now).db
    case StopAtBoundary(lease, now) => CancelAtSafeBoundary(db, lease, now).db
    case Finish(r) => FinishFromTargets(db, r).db
    case ResumeRun(r) => Resume(db, r).db
    case RetryAgain(r, now) => Retry(db, r, now).db
  }

  const EMPTY: Db := Db([], map[])

  ghost function Exec(trace: seq<Action>, maxGapLoops: nat): Db {
    if trace == [] then EMPTY
    else Apply(Exec(trace[..|trace| - 1], maxGapLoops), trace[|trace| - 1], maxGapLoops)
  }

  // ---------------------------------------------------------------- what every state satisfies

  ghost predicate HasCheckpoint(db: Db, id: StepId) {
    exists key :: key in db.checkpoints && db.checkpoints[key].id == id
  }

  ghost predicate CheckpointOk(db: Db, key: string, checkpoint: Checkpoint) {
    && checkpoint.effectKey == key
    && HasId(db, checkpoint.id)
    && StepAt(db, checkpoint.id).status == RunStatus.Succeeded
  }

  /** Checkpoints and succeeded steps correspond one to one, and each announced success has its
      checkpoint in the same run. */
  ghost predicate CheckpointsOk(db: Db) {
    && (forall key :: key in db.checkpoints ==> CheckpointOk(db, key, db.checkpoints[key]))
    && OneCheckpointEach(db)
    && SuccessesChecked(db)
    && SuccessesAnnounced(db)
  }

  ghost predicate OneCheckpointEach(db: Db) {
    forall k, l :: k in db.checkpoints && l in db.checkpoints && k != l ==>
      db.checkpoints[k].id != db.checkpoints[l].id
  }

  ghost predicate SuccessesChecked(db: Db) {
    forall id :: HasId(db, id) && StepAt(db, id).status == RunStatus.Succeeded ==> HasCheckpoint(db, id)
  }

  ghost predicate SuccessesAnnounced(db: Db) {
    forall r, key :: 0 <= r < |db.runs| && StepSucceeded(key) in db.runs[r].events ==>
      key in db.checkpoints && db.checkpoints[key].id.run == r
  }

  ghost predicate KeysOnce(db: Db) {
    forall i, j :: 0 <= i < j < |db.runs| ==> db.runs[i].idempotencyKey != db.runs[j].idempotencyKey
  }

  ghost predicate RunsOk(db: Db, maxGapLoops: nat) {
    forall r :: 0 <= r < |db.runs| ==> RunOk(db.runs[r], maxGapLoops)
  }

  ghost predicate DbOk(db: Db, maxGapLoops: nat) {
    RunsOk(db, maxGapLoops) && CheckpointsOk(db) && KeysOnce(db)
  }

  // ---------------------------------------------------------------- how one action moves the runs

  ghost predicate OnRun(a: Action, r: nat) {
    match a
    case CreateRun(_, _) => false
    case LeaseNext(id, _, _, _) => id.run == r
    case ReconcileStartup(_) => true
    case Succeed(lease, _, _, _, _) => lease.id.run == r
    case ContinueLoop(lease, _, _, _) => lease.id.run == r
    case Fail(lease, _, _, _, _) => lease.id.run == r
    case Degrade(lease, _, _, _) => lease.id.run == r
    case StopAtBoundary(lease, _) => lease.id.run == r
    case AskCancel(run, _) => run == r
    case Finish(run) => run == r
    case ResumeRun(run) => run == r
    case RetryAgain(run, _) => run == r
  }

  /** `success` tells a holder's success from its other endings. */
  ghost function CauseOf(a: Action, success: bool): Cause {
    match a
    case CreateRun(_, _) => ByFinish
    case LeaseNext(id, _, _, _) => ByLease(id.target, id.step)
    case ReconcileStartup(_) => ByReclaim
    case Succeed(lease, _, _, _, _) => ByHolder(lease.id.target, lease.id.step, success)
    case ContinueLoop(lease, _, _, _) => ByHolder(lease.id.target, lease.id.step, success)
    case Fail(lease, _, _, _, _) => ByHolder(lease.id.target, lease.id.step, success)
    case Degrade(lease, _, _, _) => ByHolder(lease.id.target, lease.id.step, success)
    case StopAtBoundary(lease, _) => ByHolder(lease.id.target, lease.id.step, success)
    case AskCancel(_, _) => ByCancel
    case Finish(_) => ByFinish
    case ResumeRun(_) => ByFinish
    case RetryAgain(_, _) => ByRetry
  }

  ghost predicate RunMoved(a: Action, r: nat, success: bool, before: Run, after: Run) {
    after == before || (OnRun(a, r) && RunEdge(CauseOf(a, success), before, after))
  }

  ghost predicate DbEdge(db: Db, a: Action, success: bool, after: Db) {
    && |db.runs| <= |after.runs|
    && forall r :: 0 <= r < |db.runs| ==> RunMoved(a, r, success, db.runs[r], after.runs[r])
  }

  // ---------------------------------------------------------------- keeping it

  /** Replacing one run leaves the other runs as they were. */
  lemma OneRun(db: Db, a: Action, success: bool, r: nat, run: Run, after: Db, maxGapLoops: nat)
    requires RunsOk(db, maxGapLoops) && KeysOnce(db) && r < |db.runs|
    requires after.runs == db.runs[r := run]
    requires RunOk(run, maxGapLoops) && OnRun(a, r) && RunEdge(CauseOf(a, success), db.runs[r], run)
    ensures RunsOk(after, maxGapLoops) && KeysOnce(after) && DbEdge(db, a, success, after)
  {
    assert run.idempotencyKey == db.runs[r].idempotencyKey;
  }

  /** Without a success no step becomes SUCCEEDED and none stops being so. */
  lemma SuccessesKept(db: Db, a: Action, after: Db)
    requires DbEdge(db, a, false, after) && |after.runs| == |db.runs|
    ensures forall id :: HasId(db, id) ==> HasId(after, id)
    ensures forall id :: HasId(after, id) && StepAt(after, id).status == RunStatus.Succeeded ==>
      HasId(db, id) && StepAt(db, id).status == RunStatus.Succeeded
    ensures forall id :: HasId(db, id) && StepAt(db, id).status == RunStatus.Succeeded ==>
      StepAt(after, id).status == RunStatus.Succeeded
  {
    forall id | HasId(db, id)
      ensures HasId(after, id)
      ensures StepAt(db, id).status == RunStatus.Succeeded <==> StepAt(after, id).status == RunStatus.Succeeded
    {
      StepMoved(db, a, false, after, id);
    }
    forall id | HasId(after, id) && !HasId(db, id) ensures StepAt(after, id).status != RunStatus.Succeeded {
      NewStepFresh(db, a, false, after, id);
    }
  }

  lemma StepMoved(db: Db, a: Action, success: bool, after: Db, id: StepId)
    requires DbEdge(db, a, success, after) && HasId(db, id)
    ensures HasId(after, id)
    ensures SameRow(StepAt(db, id), StepAt(after, id))
    ensures StepAt(after, id) == StepAt(db, id)
            || (OnRun(a, id.run)
                && StepEdge(CauseOf(a, success), id.target, id.step, db.runs[id.run].maxAttempts,
                            StepAt(db, id), StepAt(after, id)))
    ensures after.runs[id.run].maxAttempts == db.runs[id.run].maxAttempts
  {
    var before, run := db.runs[id.run], after.runs[id.run];
    assert RunMoved(a, id.run, success, before, run);
    if run != before {
      assert TargetEdge(CauseOf(a, success), id.target, before.maxAttempts,
                        before.targets[id.target], run.targets[id.target]);
    }
  }

  lemma NewStepFresh(db: Db, a: Action, success: bool, after: Db, id: StepId)
    requires DbEdge(db, a, success, after) && HasId(after, id) && !HasId(db, id) && id.run < |db.runs|
    ensures StepAt(after, id).status in UNSTARTED && StepAt(after, id).attempts == []
    ensures StepAt(after, id).attemptCount == 0
  {
    var before, run := db.runs[id.run], after.runs[id.run];
    assert RunMoved(a, id.run, success, before, run);
    assert TargetEdge(CauseOf(a, success), id.target, before.maxAttempts,
                      before.targets[id.target], run.targets[id.target]);
  }

  lemma CheckpointsKept(db: Db, a: Action, after: Db)
    requires CheckpointsOk(db) && DbEdge(db, a, false, after) && |after.runs| == |db.runs|
    requires after.checkpoints == db.checkpoints
    requires forall r :: 0 <= r < |db.runs| ==> SameSuccessEvents(db.runs[r], after.runs[r])
    ensures CheckpointsOk(after)
  {
    SuccessesKept(db, a, after);
    forall key | key in after.checkpoints ensures CheckpointOk(after, key, after.checkpoints[key]) {
      assert CheckpointOk(db, key, db.checkpoints[key]);
    }
    forall id | HasId(after, id) && StepAt(after, id).status == RunStatus.Succeeded
      ensures HasCheckpoint(after, id)
    {
      assert HasCheckpoint(db, id);
    }
  }

  /** Any operation on one run that checkpoints nothing. */
  lemma QuietStep(db: Db, a: Action, r: nat, run: Run, maxGapLoops: nat)
    requires DbOk(db, maxGapLoops) && r < |db.runs|
    requires RunOk(run, maxGapLoops) && OnRun(a, r) && RunEdge(CauseOf(a, false), db.runs[r], run)
    requires SameSuccessEvents(db.runs[r], run)
    ensures DbOk(db.(runs := db.runs[r := run]), maxGapLoops)
    ensures DbEdge(db, a, false, db.(runs := db.runs[r := run]))
  {
    var after := db.(runs := db.runs[r := run]);
    OneRun(db, a, false, r, run, after, maxGapLoops);
    CheckpointsKept(db, a, after);
  }

  lemma NothingMoves(db: Db, a: Action)
    ensures DbEdge(db, a, false, db) && DbEdge(db, a, true, db)
  {}

  /** A lease's step succeeds and its checkpoint is stored under a new key. */
  lemma LoudStep(db: Db, a: Action, id: StepId, run: Run, checkpoint: Checkpoint, maxGapLoops: nat)
    requires DbOk(db, maxGapLoops) && HasId(db, id)
    requires RunOk(run, maxGapLoops) && OnRun(a, id.run) && RunEdge(CauseOf(a, true), db.runs[id.run], run)
    requires CauseOf(a, true) == ByHolder(id.target, id.step, true)
    requires StepAt(db, id).status == RunStatus.Running
    requires checkpoint.id == id && checkpoint.effectKey !in db.checkpoints
    requires HasStep(run, id.target, id.step)
    requires run.targets[id.target].steps[id.step].status == RunStatus.Succeeded
    requires forall key :: StepSucceeded(key) in run.events ==>
      key == checkpoint.effectKey || StepSucceeded(key) in db.runs[id.run].events
    ensures var after := Db(db.runs[id.run := run], db.checkpoints[checkpoint.effectKey := checkpoint]);
      DbOk(after, maxGapLoops) && DbEdge(db, a, true, after)
  {
    var after := Db(db.runs[id.run := run], db.checkpoints[checkpoint.effectKey := checkpoint]);
    OneRun(db, a, true, id.run, run, after, maxGapLoops);
    LoudCheckpoints(db, a, id, checkpoint, after);
  }

  lemma LoudCheckpoints(db: Db, a: Action, id: StepId, checkpoint: Checkpoint, after: Db)
    requires CheckpointsOk(db) && HasId(db, id) && DbEdge(db, a, true, after) && |after.runs| == |db.runs|
    requires CauseOf(a, true) == ByHolder(id.target, id.step, true)
    requires forall r :: 0 <= r < |db.runs| && r != id.run ==> after.runs[r] == db.runs[r]
    requires StepAt(db, id).status == RunStatus.Running
    requires checkpoint.id == id && checkpoint.effectKey !in db.checkpoints
    requires after.checkpoints == db.checkpoints[checkpoint.effectKey := checkpoint]
    requires HasId(after, id) && StepAt(after, id).status == RunStatus.Succeeded
    requires forall key :: StepSucceeded(key) in after.runs[id.run].events ==>
      key == checkpoint.effectKey || StepSucceeded(key) in db.runs[id.run].events
    ensures CheckpointsOk(after)
  {
    forall key | key in db.checkpoints ensures CheckpointOk(after, key, db.checkpoints[key]) {
      LoudKept(db, a, after, key);
    }
    LoudUnique(db, id, checkpoint, after);
    LoudChecked(db, a, id, checkpoint, after);
    LoudAnnounced(db, id, checkpoint, after);
  }

  lemma LoudKept(db: Db, a: Action, after: Db, key: string)
    requires DbEdge(db, a, true, after) && key in db.checkpoints && CheckpointOk(db, key, db.checkpoints[key])
    ensures CheckpointOk(after, key, db.checkpoints[key])
  {
    StepMoved(db, a, true, after, db.checkpoints[key].id);
  }

  lemma LoudUnique(db: Db, id: StepId, checkpoint: Checkpoint, after: Db)
    requires CheckpointsOk(db) && HasId(db, id) && StepAt(db, id).status == RunStatus.Running
    requires checkpoint.id == id && checkpoint.effectKey !in db.checkpoints
    requires after.checkpoints == db.checkpoints[checkpoint.effectKey := checkpoint]
    ensures OneCheckpointEach(after)
  {
    forall k | k in db.checkpoints ensures db.checkpoints[k].id != id {
      assert CheckpointOk(db, k, db.checkpoints[k]);
    }
  }

  lemma LoudChecked(db: Db, a: Action, id: StepId, checkpoint: Checkpoint, after: Db)
    requires SuccessesChecked(db) && HasId(db, id) && DbEdge(db, a, true, after) && |after.runs| == |db.runs|
    requires CauseOf(a, true) == ByHolder(id.target, id.step, true)
    requires forall r :: 0 <= r < |db.runs| && r != id.run ==> after.runs[r] == db.runs[r]
    requires checkpoint.id == id && checkpoint.effectKey !in db.checkpoints
    requires after.checkpoints == db.checkpoints[checkpoint.effectKey := checkpoint]
    ensures SuccessesChecked(after)
  {
    forall x | HasId(after, x) && StepAt(after, x).status == RunStatus.Succeeded
      ensures HasCheckpoint(after, x)
    {
      if x == id {
        assert after.checkpoints[checkpoint.effectKey].id == x;
      } else if HasId(db, x) {
        StepMoved(db, a, true, after, x);
        var key :| key in db.checkpoints && db.checkpoints[key].id == x;
        assert after.checkpoints[key].id == x;
      } else {
        NewStepFresh(db, a, true, after, x);
      }
    }
  }

  lemma LoudAnnounced(db: Db, id: StepId, checkpoint: Checkpoint, after: Db)
    requires SuccessesAnnounced(db) && |after.runs| == |db.runs| && id.run < |db.runs|
    requires forall r :: 0 <= r < |db.runs| && r != id.run ==> after.runs[r] == db.runs[r]
    requires checkpoint.id == id && checkpoint.effectKey !in db.checkpoints
    requires after.checkpoints == db.checkpoints[checkpoint.effectKey := checkpoint]
    requires forall key :: StepSucceeded(key) in after.runs[id.run].events ==>
      key == checkpoint.effectKey || StepSucceeded(key) in db.runs[id.run].events
    ensures SuccessesAnnounced(after)
  {}

  lemma NewKey(db: Db, r: nat, key: string)
    requires CheckpointsOk(db) && r < |db.runs| && key !in db.checkpoints
    ensures StepSucceeded(key) !in db.runs[r].events
  {}

  lemma SucceedKeeps(db: Db, a: Action, maxGapLoops: nat)
    requires DbOk(db, maxGapLoops) && a.Succeed?
    ensures DbOk(Apply(db, a, maxGapLoops), maxGapLoops) && DbEdge(db, a, true, Apply(db, a, maxGapLoops))
  {
    if a.effectKey in db.checkpoints || !LeaseValid(db, a.lease, a.now) {
      NothingMoves(db, a);
    } else if db.runs[a.lease.id.run].status == RunStatus.Cancelling {
      SucceedAtBoundary(db, a, maxGapLoops);
    } else {
      SucceedNow(db, a, maxGapLoops);
    }
  }

  lemma SucceedAtBoundary(db: Db, a: Action, maxGapLoops: nat)
    requires DbOk(db, maxGapLoops) && a.Succeed?
    requires a.effectKey !in db.checkpoints && LeaseValid(db, a.lease, a.now)
    requires db.runs[a.lease.id.run].status == RunStatus.Cancelling
    ensures DbOk(Apply(db, a, maxGapLoops), maxGapLoops) && DbEdge(db, a, true, Apply(db, a, maxGapLoops))
  {
    var (r, t, s) := (a.lease.id.run, a.lease.id.target, a.lease.id.step);
    BoundaryRunOk(db.runs[r], t, s, a.now, maxGapLoops);
    QuietStep(db, a, r, CancelAtBoundary(db.runs[r], t, s, a.now), maxGapLoops);
    QuietIsLoud(db, a, Apply(db, a, maxGapLoops));
  }

  lemma SucceedNow(db: Db, a: Action, maxGapLoops: nat)
    requires DbOk(db, maxGapLoops) && a.Succeed?
    requires a.effectKey !in db.checkpoints && LeaseValid(db, a.lease, a.now)
    requires db.runs[a.lease.id.run].status != RunStatus.Cancelling
    ensures DbOk(Apply(db, a, maxGapLoops), maxGapLoops) && DbEdge(db, a, true, Apply(db, a, maxGapLoops))
  {
    var (key, id) := (a.effectKey, a.lease.id);
    var run, state := db.runs[id.run], StepState(false, a.outcome);
    NewKey(db, id.run, key);
    SuccessRunOk(run, id.target, id.step, key, a.outputRefs, a.outcome, a.now, maxGapLoops);
    SuccessHeader(run, id.target, id.step, key, a.outputRefs, state, a.now);
    SucceedStepSucceeds(run, id.target, id.step, key, a.outputRefs, state, a.now);
    LoudStep(db, a, id, SucceedStep(run, id.target, id.step, key, a.outputRefs, state, a.now),
             Checkpoint(id, key, a.outputRefs, a.now), maxGapLoops);
  }

  lemma SucceedStepSucceeds(
    run: Run, t: nat, s: nat, effectKey: string, outputRefs: seq<string>, state: StepState, now: int)
    requires HasStep(run, t, s)
    ensures var after := SucceedStep(run, t, s, effectKey, outputRefs, state, now);
      HasStep(after, t, s) && after.targets[t].steps[s].status == RunStatus.Succeeded
  {}

  /** What holds without a success holds all the more when one is allowed. */
  lemma QuietIsLoud(db: Db, a: Action, after: Db)
    requires DbEdge(db, a, false, after)
    ensures DbEdge(db, a, true, after)
  {
    forall r | 0 <= r < |db.runs| ensures RunMoved(a, r, true, db.runs[r], after.runs[r]) {
      var before, run := db.runs[r], after.runs[r];
      assert RunMoved(a, r, false, before, run);
      if run != before {
        EdgeWeakens(CauseOf(a, false), CauseOf(a, true), before, run);
      }
    }
  }

  lemma EdgeWeakens(quiet: Cause, loud: Cause, a: Run, b: Run)
    requires RunEdge(quiet, a, b)
    requires loud == quiet
             || (quiet.ByHolder? && !quiet.success && loud == ByHolder(quiet.target, quiet.step, true))
    ensures RunEdge(loud, a, b)
  {
    forall t | 0 <= t < |a.targets| ensures TargetEdge(loud, t, a.maxAttempts, a.targets[t], b.targets[t]) {
      assert TargetEdge(quiet, t, a.maxAttempts, a.targets[t], b.targets[t]);
      forall s | 0 <= s < |a.targets[t].steps|
        ensures StepEdge(loud, t, s, a.maxAttempts, a.targets[t].steps[s], b.targets[t].steps[s])
      {
        assert StepEdge(quiet, t, s, a.maxAttempts, a.targets[t].steps[s], b.targets[t].steps[s]);
      }
    }
  }

  lemma ContinueKeeps(db: Db, a: Action, maxGapLoops: nat)
    requires DbOk(db, maxGapLoops) && a.ContinueLoop?
    ensures DbOk(Apply(db, a, maxGapLoops), maxGapLoops) && DbEdge(db, a, true, Apply(db, a, maxGapLoops))
  {
    var (lease, key) := (a.lease, a.effectKey);
    if !MayContinue(db, lease, maxGapLoops) || key in db.checkpoints || !LeaseValid(db, lease, a.now) {
      NothingMoves(db, a);
    } else {
      var (r, t, s) := (lease.id.run, lease.id.target, lease.id.step);
      var run := db.runs[r];
      ExtendedIn(run, t, s);
      ContinueUnfolds(db, lease, key, a.outputRefs, a.now);
      if run.status == RunStatus.Cancelling {
        CancelledGapLoopRunOk(run, t, s, a.now, maxGapLoops);
        QuietStep(db, a, r, CancelAtBoundary(ExtendTarget(run, t), t, s, a.now), maxGapLoops);
        QuietIsLoud(db, a, Apply(db, a, maxGapLoops));
      } else {
        LoopsKeep(db, a, maxGapLoops);
      }
    }
  }

  lemma LoopsKeep(db: Db, a: Action, maxGapLoops: nat)
    requires DbOk(db, maxGapLoops) && a.ContinueLoop? && MayContinue(db, a.lease, maxGapLoops)
    requires a.effectKey !in db.checkpoints && LeaseValid(db, a.lease, a.now)
    requires db.runs[a.lease.id.run].status != RunStatus.Cancelling
    ensures DbOk(Apply(db, a, maxGapLoops), maxGapLoops) && DbEdge(db, a, true, Apply(db, a, maxGapLoops))
  {
    var (lease, key) := (a.lease, a.effectKey);
    var (r, t, s) := (lease.id.run, lease.id.target, lease.id.step);
    var run := db.runs[r];
    ExtendedIn(run, t, s);
    ContinueUnfolds(db, lease, key, a.outputRefs, a.now);
    NewKey(db, r, key);
    GapLoopRunOk(run, t, s, key, a.outputRefs, a.now, maxGapLoops);
    ContinueHeader(ExtendTarget(run, t), t, s, key, a.outputRefs, a.now);
    SucceedStepSucceeds(ExtendTarget(run, t), t, s, key, a.outputRefs, StepState(true, None), a.now);
    LoudStep(db, a, lease.id,
             SucceedStep(ExtendTarget(run, t), t, s, key, a.outputRefs, StepState(true, None), a.now),
             Checkpoint(lease.id, key, a.outputRefs, a.now), maxGapLoops);
  }

  /** Appending behind the leased step leaves its lease as valid as it was. */
  lemma ContinueUnfolds(db: Db, lease: Lease, effectKey: string, outputRefs: seq<string>, now: int)
    requires effectKey !in db.checkpoints && LeaseValid(db, lease, now)
    ensures var (r, t, s) := (lease.id.run, lease.id.target, lease.id.step);
      var longer := ExtendTarget(db.runs[r], t);
      && HasStep(longer, t, s)
      && ContinueGapLoop(db, lease, effectKey, outputRefs, now).db
         == if longer.status == RunStatus.Cancelling then
              db.(runs := db.runs[r := CancelAtBoundary(longer, t, s, now)])
            else
              Db(db.runs[r := SucceedStep(longer, t, s, effectKey, outputRefs, StepState(true, None), now)],
                 db.checkpoints[effectKey := Checkpoint(lease.id, effectKey, outputRefs, now)])
  {
    var (r, t, s) := (lease.id.run, lease.id.target, lease.id.step);
    var longer := db.(runs := db.runs[r := ExtendTarget(db.runs[r], t)]);
    assert StepAt(longer, lease.id) == StepAt(db, lease.id);
    assert LeaseValid(longer, lease, now);
  }

  lemma FailKeeps(db: Db, a: Action, maxGapLoops: nat)
    requires DbOk(db, maxGapLoops) && a.Fail?
    ensures DbOk(Apply(db, a, maxGapLoops), maxGapLoops) && DbEdge(db, a, false, Apply(db, a, maxGapLoops))
  {
    var lease := a.lease;
    if !LeaseValid(db, lease, a.now) {
      NothingMoves(db, a);
    } else {
      var (r, t, s) := (lease.id.run, lease.id.target, lease.id.step);
      var run := db.runs[r];
      var attempt := run.targets[t].steps[s].attemptCount;
      if run.status == RunStatus.Cancelling {
        BoundaryRunOk(run, t, s, a.now, maxGapLoops);
        QuietStep(db, a, r, CancelAtBoundary(run, t, s, a.now), maxGapLoops);
      } else if a.retryable && attempt < run.maxAttempts {
        if a.retryAt.None? {
          NothingMoves(db, a);
        } else {
          RetryLaterRunOk(run, t, s, a.error, a.retryAt.value, a.now, maxGapLoops);
          QuietStep(db, a, r, WithEvent(ScheduleRetry(run, t, s, a.error, a.retryAt.value, a.now),
                                        StepFailed(t, s, attempt)), maxGapLoops);
        }
      } else {
        CloseRunOk(run, t, s, a.error, RunOutcome.Failed, {RunStatus.Pending}, StepFailed(t, s, attempt), a.now,
                   maxGapLoops);
        QuietStep(db, a, r, WithEvent(CloseTarget(run, t, s, a.error, RunOutcome.Failed, {RunStatus.Pending}, a.now),
                                      StepFailed(t, s, attempt)), maxGapLoops);
      }
    }
  }

  lemma DegradeKeeps(db: Db, a: Action, maxGapLoops: nat)
    requires DbOk(db, maxGapLoops) && a.Degrade?
    ensures DbOk(Apply(db, a, maxGapLoops), maxGapLoops) && DbEdge(db, a, false, Apply(db, a, maxGapLoops))
  {
    var lease := a.lease;
    if !LeaseValid(db, lease, a.now) {
      NothingMoves(db, a);
    } else {
      var (r, t, s) := (lease.id.run, lease.id.target, lease.id.step);
      var run := db.runs[r];
      var attempt := run.targets[t].steps[s].attemptCount;
      var which := {RunStatus.Pending, RunStatus.WaitingRetry};
      if run.status == RunStatus.Cancelling {
        BoundaryRunOk(run, t, s, a.now, maxGapLoops);
        QuietStep(db, a, r, CancelAtBoundary(run, t, s, a.now), maxGapLoops);
      } else if a.workspaceTarget != Some((r, t)) {
        NothingMoves(db, a);
      } else {
        CloseRunOk(run, t, s, a.error, RunOutcome.Partial, which, StepPartial(t, s, attempt), a.now, maxGapLoops);
        QuietStep(db, a, r, WithEvent(CloseTarget(run, t, s, a.error, RunOutcome.Partial, which, a.now),
                                      StepPartial(t, s, attempt)), maxGapLoops);
      }
    }
  }

  lemma CreateKeeps(db: Db, a: Action, maxGapLoops: nat)
    requires DbOk(db, maxGapLoops) && a.CreateRun?
    ensures DbOk(Apply(db, a, maxGapLoops), maxGapLoops) && DbEdge(db, a, false, Apply(db, a, maxGapLoops))
  {
    if Apply(db, a, maxGapLoops) == db {
      NothingMoves(db, a);
    } else {
      var run := NewRun(a.command, a.key);
      NewRunOk(a.command, a.key, maxGapLoops);
      NewRunCheckpoints(db, run);
      OneMoreRun(db, a, run, maxGapLoops);
    }
  }

  lemma OneMoreRun(db: Db, a: Action, run: Run, maxGapLoops: nat)
    requires RunsOk(db, maxGapLoops) && KeysOnce(db) && RunOk(run, maxGapLoops)
    requires forall r :: 0 <= r < |db.runs| ==> db.runs[r].idempotencyKey != run.idempotencyKey
    ensures var after := db.(runs := db.runs + [run]);
      RunsOk(after, maxGapLoops) && KeysOnce(after) && DbEdge(db, a, false, after)
  {
  }

  lemma NewRunCheckpoints(db: Db, run: Run)
    requires CheckpointsOk(db)
    requires forall t, s :: 0 <= t < |run.targets| && 0 <= s < |run.targets[t].steps| ==>
      run.targets[t].steps[s].status != RunStatus.Succeeded
    requires forall key :: StepSucceeded(key) !in run.events
    ensures CheckpointsOk(db.(runs := db.runs + [run]))
  {
    var after := db.(runs := db.runs + [run]);
    forall key | key in after.checkpoints ensures CheckpointOk(after, key, after.checkpoints[key]) {
      assert CheckpointOk(db, key, db.checkpoints[key]);
    }
    forall id | HasId(after, id) && StepAt(after, id).status == RunStatus.Succeeded
      ensures HasCheckpoint(after, id)
    {
      assert HasId(db, id);
      assert HasCheckpoint(db, id);
    }
  }

  lemma ReconcileKeeps(db: Db, a: Action, maxGapLoops: nat)
    requires DbOk(db, maxGapLoops) && a.ReconcileStartup?
    ensures DbOk(Apply(db, a, maxGapLoops), maxGapLoops) && DbEdge(db, a, false, Apply(db, a, maxGapLoops))
  {
    var after := Apply(db, a, maxGapLoops);
    forall r | 0 <= r < |db.runs|
      ensures RunOk(after.runs[r], maxGapLoops) && RunMoved(a, r, false, db.runs[r], after.runs[r])
      ensures SameSuccessEvents(db.runs[r], after.runs[r])
      ensures after.runs[r].idempotencyKey == db.runs[r].idempotencyKey
    {
      ReconcileRunOk(db.runs[r], a.now, maxGapLoops);
    }
    CheckpointsKept(db, a, after);
  }

  /** Every action keeps every invariant and moves runs and steps only along the known edges. */
  lemma ActionKeeps(db: Db, a: Action, maxGapLoops: nat)
    requires DbOk(db, maxGapLoops)
    ensures DbOk(Apply(db, a, maxGapLoops), maxGapLoops)
    ensures DbEdge(db, a, true, Apply(db, a, maxGapLoops))
    ensures !a.Succeed? && !a.ContinueLoop? ==> DbEdge(db, a, false, Apply(db, a, maxGapLoops))
  {
    match a
    case Succeed(_, _, _, _, _) => SucceedKeeps(db, a, maxGapLoops);
    case ContinueLoop(_, _, _, _) => ContinueKeeps(db, a, maxGapLoops);
    case CreateRun(_, _) =>
      CreateKeeps(db, a, maxGapLoops);
      QuietIsLoud(db, a, Apply(db, a, maxGapLoops));
    case ReconcileStartup(_) =>
      ReconcileKeeps(db, a, maxGapLoops);
      QuietIsLoud(db, a, Apply(db, a, maxGapLoops));
    case Fail(_, _, _, _, _) =>
      FailKeeps(db, a, maxGapLoops);
      QuietIsLoud(db, a, Apply(db, a, maxGapLoops));
    case Degrade(_, _, _, _) =>
      DegradeKeeps(db, a, maxGapLoops);
      QuietIsLoud(db, a, Apply(db, a, maxGapLoops));
    case ResumeRun(r) =>
      NothingMoves(db, a);
      assert r < |db.runs| ==> RunShape(db.runs[r]);
    case _ =>
      SimpleKeeps(db, a, maxGapLoops);
      QuietIsLoud(db, a, Apply(db, a, maxGapLoops));
  }

  lemma SimpleKeeps(db: Db, a: Action, maxGapLoops: nat)
    requires DbOk(db, maxGapLoops)
    requires a.LeaseNext? || a.AskCancel? || a.StopAtBoundary? || a.Finish? || a.RetryAgain?
    ensures DbOk(Apply(db, a, maxGapLoops), maxGapLoops) && DbEdge(db, a, false, Apply(db, a, maxGapLoops))
  {
    if Apply(db, a, maxGapLoops) == db {
      NothingMoves(db, a);
    } else if a.LeaseNext? {
      LeaseKeeps(db, a, maxGapLoops);
    } else if a.StopAtBoundary? {
      StopKeeps(db, a, maxGapLoops);
    } else {
      RunCallKeeps(db, a, maxGapLoops);
    }
  }

  lemma LeaseKeeps(db: Db, a: Action, maxGapLoops: nat)
    requires DbOk(db, maxGapLoops) && a.LeaseNext? && Apply(db, a, maxGapLoops) != db
    ensures DbOk(Apply(db, a, maxGapLoops), maxGapLoops) && DbEdge(db, a, false, Apply(db, a, maxGapLoops))
  {
    var run, id := db.runs[a.id.run], a.id;
    LeaseRunOk(run, id.target, id.step, a.owner, a.now, a.duration, maxGapLoops);
    QuietStep(db, a, id.run, LeaseStep(run, id.target, id.step, a.owner, a.now, a.duration), maxGapLoops);
  }

  lemma StopKeeps(db: Db, a: Action, maxGapLoops: nat)
    requires DbOk(db, maxGapLoops) && a.StopAtBoundary? && Apply(db, a, maxGapLoops) != db
    ensures DbOk(Apply(db, a, maxGapLoops), maxGapLoops) && DbEdge(db, a, false, Apply(db, a, maxGapLoops))
  {
    var run, id := db.runs[a.lease.id.run], a.lease.id;
    BoundaryRunOk(run, id.target, id.step, a.now, maxGapLoops);
    QuietStep(db, a, id.run, CancelAtBoundary(run, id.target, id.step, a.now), maxGapLoops);
  }

  /** The calls that name a run and no lease. */
  lemma RunCallKeeps(db: Db, a: Action, maxGapLoops: nat)
    requires DbOk(db, maxGapLoops) && (a.AskCancel? || a.Finish? || a.RetryAgain?) && Apply(db, a, maxGapLoops) != db
    ensures DbOk(Apply(db, a, maxGapLoops), maxGapLoops) && DbEdge(db, a, false, Apply(db, a, maxGapLoops))
  {
    var run := db.runs[a.run];
    match a
    case AskCancel(r, now) =>
      RequestCancelRunOk(run, now, maxGapLoops);
      QuietStep(db, a, r, RequestCancelRun(run, now), maxGapLoops);
    case Finish(r) =>
      FinishRunOk(run, maxGapLoops);
      QuietStep(db, a, r, Aggregate(run), maxGapLoops);
    case RetryAgain(r, now) =>
      RetryRunOk(run, now, maxGapLoops);
      QuietStep(db, a, r, RetryRun(run, now), maxGapLoops);
  }

  /** Every reachable state satisfies every invariant. */
  lemma {:induction false} Reachable(trace: seq<Action>, maxGapLoops: nat)
    ensures DbOk(Exec(trace, maxGapLoops), maxGapLoops)
  {
    if trace != [] {
      Reachable(trace[..|trace| - 1], maxGapLoops);
      ActionKeeps(Exec(trace[..|trace| - 1], maxGapLoops), trace[|trace| - 1], maxGapLoops);
    }
  }
}
