/** ResearchRunKernel as the source writes it: methods that update rows in place, one transaction
    each. Every method is proved against its function in RunOperations, so a call is one Action of
    RunHistory on `Rows()`, and a sequence of calls from the constructor is a history. */
module ResearchRuns {
  import opened Collections
  import opened Domain
  import opened RunRows
  import opened RunOperations
  import opened RunInvariants
  import opened RunMoves
  import opened RunRecords
  import opened RunHistory

  // ---------------------------------------------------------------- shared endings

  /** `_cancel_run_at_boundary` */
  method CancelRunAtBoundary(run: Run, t: nat, s: nat, now: int) returns (after: Run)
    requires HasStep(run, t, s)
    ensures after == CancelAtBoundary(run, t, s, now)
  {
    var step := run.targets[t].steps[s];
    step := ReleaseRow(step, RunStatus.Cancelled, RunStatus.Cancelled, None, now);
    after := WithStep(run, t, s, step);
    after := after.(targets := BulkCancelTargets(after.targets, WAITING));
    if !HasRunning(after) {
      after := after.(status := RunStatus.Cancelled, outcome := Some(RunOutcome.Cancelled));
      after := WithEvent(after, RunCancelled);
    }
  }

  /** `_aggregate_targets`: collects the set of outcomes, then decides. */
  method AggregateTargets(run: Run) returns (after: Run)
    ensures after == Aggregate(run)
  {
    after := run;
    var outcomes: set<RunOutcome> := {};
    for t := 0 to |run.targets|
      invariant forall u :: 0 <= u < t ==> run.targets[u].outcome.Some?
      invariant outcomes == set u | 0 <= u < t && run.targets[u].outcome.Some? :: run.targets[u].outcome.value
    {
      if run.targets[t].outcome.None? {
        return;
      }
      outcomes := outcomes + {run.targets[t].outcome.value};
    }
    if run.targets == [] {
      return;
    }
    OutcomesDecide(run.targets, outcomes);
    if outcomes == {RunOutcome.Complete} {
      after := after.(outcome := Some(RunOutcome.Complete), status := RunStatus.Succeeded);
    } else if outcomes == {RunOutcome.Failed} {
      after := after.(outcome := Some(RunOutcome.Failed), status := RunStatus.Failed);
    } else {
      after := after.(outcome := Some(RunOutcome.Partial), status := RunStatus.Succeeded);
    }
    if RunFinished !in after.events {
      after := WithEvent(after, RunFinished);
    }
  }

  lemma OutcomesDecide(targets: seq<Target>, outcomes: set<RunOutcome>)
    requires targets != [] && forall u :: 0 <= u < |targets| ==> targets[u].outcome.Some?
    requires outcomes == set u | 0 <= u < |targets| && targets[u].outcome.Some? :: targets[u].outcome.value
    ensures forall x :: outcomes == {x} <==> AllOutcomesAre(targets, x)
  {
    assert targets[0].outcome.value in outcomes;
    forall x ensures outcomes == {x} <==> AllOutcomesAre(targets, x) {
      if outcomes == {x} {
        forall t | 0 <= t < |targets| ensures targets[t].outcome == Some(x) {
          assert targets[t].outcome.value in outcomes;
        }
      }
    }
  }

  class ResearchRunKernel {
    var runs: seq<Run>
    var checkpoints: map<string, Checkpoint>

    function Rows(): Db
      reads this
    {
      Db(runs, checkpoints)
    }

    constructor ()
      ensures Rows() == EMPTY
    {
      runs := [];
      checkpoints := map[];
    }

    method CreateRun(command: CreateCommand, key: string) returns (r: Result<nat>)
      requires ValidCommand(command)
      modifies this
      ensures Tx(Rows(), r) == Create(old(Rows()), command, key)
    {
      var existing := FindByKey(runs, key);
      if existing.Some? {
        if runs[existing.value].payload != command {
          return Err(IdempotencyConflict);
        }
        return Ok(existing.value);
      }
      if !Distinct(command.worldIds) {
        return Err(Integrity);
      }
      var targets: seq<Target> := [];
      for t := 0 to |command.worldIds|
        invariant targets == NewRun(command, key).targets[..t]
      {
        var steps: seq<Step> := [];
        for position := 0 to |STEP_KINDS|
          invariant steps == InitialSteps()[..position]
        {
          steps := steps + [NewStep(Initial(position), STEP_KINDS[position], position)];
        }
        assert steps == InitialSteps();
        targets := targets + [Target(command.worldIds[t], None, None, 0, steps)];
      }
      assert targets == NewRun(command, key).targets;
      runs := runs + [Run(RunStatus.Pending, None, command.maxAttempts, None, key, command, targets, [RunCreated])];
      return Ok(|runs| - 1);
    }

    /** `append_step`; on its own it does not keep the runs in shape, see ContinueLoop. */
    method Append(r: nat, t: nat, kind: StepKind, key: StepKey) returns (result: Result<StepId>)
      modifies this`runs
      ensures Tx(Rows(), result) == AppendStep(old(Rows()), r, t, kind, key)
    {
      if r >= |runs| {
        return Err(RunNotFound);
      }
      if t >= |runs[r].targets| {
        return Err(Integrity);
      }
      var steps := runs[r].targets[t].steps;
      var existing := FindStepKey(steps, key);
      if existing.Some? {
        if steps[existing.value].kind != kind {
          return Err(IdempotencyConflict);
        }
        return Ok(StepId(r, t, existing.value));
      }
      if runs[r].status in TERMINAL {
        return Err(IllegalTransition);
      }
      steps := steps + [NewStep(key, kind, NextPosition(steps))];
      runs := runs[r := WithSteps(runs[r], t, steps)];
      return Ok(StepId(r, t, |steps| - 1));
    }

    // -------------------------------------------------------------- leasing

    /** The order in which candidates are tried: creation, then position, then target. */
    static ghost predicate Earlier(a: StepId, b: StepId) {
      || a.run < b.run
      || (a.run == b.run && a.step < b.step)
      || (a.run == b.run && a.step == b.step && a.target < b.target)
    }

    static ghost predicate Wanted(runId: Option<nat>, id: StepId) {
      runId.None? || runId.value == id.run
    }

    /** The first candidate that is leasable now. */
    method FirstEligible(now: int, runId: Option<nat>) returns (found: Option<StepId>)
      ensures found.Some? ==> Eligible(Rows(), found.value, now) && Wanted(runId, found.value)
      ensures found.Some? ==> forall id :: Eligible(Rows(), id, now) && Wanted(runId, id) ==>
        id == found.value || Earlier(found.value, id)
      ensures found.None? ==> forall id :: Eligible(Rows(), id, now) ==> !Wanted(runId, id)
    {
      for r := 0 to |runs|
        invariant forall id :: Eligible(Rows(), id, now) && Wanted(runId, id) ==> id.run >= r
      {
        if runId.None? || runId.value == r {
          var longest: nat := 0;
          for t := 0 to |runs[r].targets|
            invariant forall u :: 0 <= u < t ==> |runs[r].targets[u].steps| <= longest
          {
            if |runs[r].targets[t].steps| > longest {
              longest := |runs[r].targets[t].steps|;
            }
          }
          for position := 0 to longest
            invariant forall id :: Eligible(Rows(), id, now) && Wanted(runId, id) ==>
              id.run > r || (id.run == r && id.step >= position)
          {
            for t := 0 to |runs[r].targets|
              invariant forall id :: Eligible(Rows(), id, now) && Wanted(runId, id) ==>
                id.run > r || (id.run == r && (id.step > position || (id.step == position && id.target >= t)))
            {
              if position < |runs[r].targets[t].steps| && EligibleStep(runs[r], t, position, now) {
                return Some(StepId(r, t, position));
              }
            }
          }
        }
      }
      return None;
    }

    method LeaseNext(owner: string, now: int, duration: int, runId: Option<nat>) returns (r: Result<Option<Lease>>)
      modifies this`runs
      ensures r.Ok? && r.value.Some? ==>
        var lease := r.value.value;
        && Eligible(old(Rows()), lease.id, now) && Wanted(runId, lease.id)
        && (forall id :: Eligible(old(Rows()), id, now) && Wanted(runId, id) ==>
              id == lease.id || Earlier(lease.id, id))
        && (Rows(), lease) == GrantLease(old(Rows()), lease.id, owner, now, duration)
      ensures !(r.Ok? && r.value.Some?) ==>
        && Rows() == old(Rows())
        && (forall id :: Eligible(Rows(), id, now) ==> !Wanted(runId, id))
        && r == if runId.Some? && runId.value < |runs| && HasRunning(runs[runId.value])
                then Err(LeaseConflict) else Ok(None)
    {
      var found := FirstEligible(now, runId);
      if found.None? {
        if runId.Some? && runId.value < |runs| && HasRunning(runs[runId.value]) {
          return Err(LeaseConflict);
        }
        return Ok(None);
      }
      var id := found.value;
      var run := runs[id.run];
      var step := run.targets[id.target].steps[id.step];
      var kind := step.kind;
      step := LeaseRow(step, owner, now, duration);
      var attemptNumber := step.attemptCount;
      run := WithStep(run, id.target, id.step, step);
      if run.status in {RunStatus.Pending, RunStatus.WaitingRetry} {
        run := run.(status := RunStatus.Running);
      }
      runs := runs[id.run := run];
      return Ok(Some(Lease(id, kind, owner, attemptNumber, now + duration)));
    }

    /** One run's share of `reconcile_startup`. */
    static method ReclaimExpired(run: Run, now: int) returns (after: Run, count: nat)
      ensures after == ReconcileRun(run, now) && count == |Expired(run, now)|
    {
      var ids := Expired(run, now);
      after := run;
      for i := 0 to |ids|
        invariant after == ReclaimAll(run, ids[..i], now)
      {
        ReclaimNext(run, ids[..i + 1], now);
        assert ids[..i + 1][..i] == ids[..i];
        var (t, s) := ids[i];
        if after.status == RunStatus.Cancelling {
          after := CancelRunAtBoundary(after, t, s, now);
        } else {
          var step := after.targets[t].steps[s];
          step := ReleaseRow(step, RunStatus.Pending, RunStatus.Failed, Some(LeaseExpired), now);
          after := WithStep(after, t, s, step);
        }
      }
      assert ids[..|ids|] == ids;
      count := |ids|;
    }

    /** Takes back every expired lease; returns how many. */
    method ReconcileStartup(now: int) returns (reclaimed: nat)
      modifies this`runs
      ensures Rows() == Reconcile(old(Rows()), now)
      ensures reclaimed == ExpiredCount(old(runs), now)
    {
      runs, reclaimed := ReclaimAllExpired(runs, now);
    }

    static method ReclaimAllExpired(before: seq<Run>, now: int) returns (runs: seq<Run>, reclaimed: nat)
      ensures runs == seq(|before|, r requires 0 <= r < |before| => ReconcileRun(before[r], now))
      ensures reclaimed == ExpiredCount(before, now)
    {
      runs, reclaimed := before, 0;
      for r := 0 to |before|
        invariant |runs| == |before|
        invariant forall q :: 0 <= q < r ==> runs[q] == ReconcileRun(before[q], now)
        invariant forall q :: r <= q < |before| ==> runs[q] == before[q]
        invariant reclaimed == ExpiredCount(before[..r], now)
      {
        var run, count := ReclaimExpired(runs[r], now);
        assert before[..r + 1][..r] == before[..r];
        runs := runs[r := run];
        reclaimed := reclaimed + count;
      }
      assert before[..|before|] == before;
    }

    static function ExpiredCount(runs: seq<Run>, now: int): nat {
      if runs == [] then 0
      else ExpiredCount(runs[..|runs| - 1], now) + |Expired(runs[|runs| - 1], now)|
    }

    static predicate HasExpired(runs: seq<Run>, now: int, id: StepId) {
      && id.run < |runs| && HasStep(runs[id.run], id.target, id.step)
      && var step := runs[id.run].targets[id.target].steps[id.step];
      step.status == RunStatus.Running && step.leaseExpiresAt.Some? && step.leaseExpiresAt.value < now
    }

    /** The number returned is that of the steps under a lease that has run out. */
    static lemma {:induction false} EachExpiredCounts(runs: seq<Run>, now: int, ids: set<StepId>)
      requires forall id :: id in ids <==> HasExpired(runs, now, id)
      ensures ExpiredCount(runs, now) == |ids|
    {
      if runs == [] {
        assert ids == {};
      } else {
        var last := |runs| - 1;
        forall id ensures HasExpired(runs, now, id) ==> id.run <= last {
          EarlierOrLast(runs, now, id);
        }
        var before, here := SplitAt(ids, last);
        forall id ensures id in before <==> HasExpired(runs[..last], now, id) {
          EarlierOrLast(runs, now, id);
        }
        EachExpiredCounts(runs[..last], now, before);
        forall id ensures id in here <==> id.run == last && (id.target, id.step) in Expired(runs[last], now) {
          EarlierOrLast(runs, now, id);
        }
        ListsAll(Expired(runs[last], now), last, here);
      }
    }

    static lemma SplitAt(ids: set<StepId>, last: nat) returns (before: set<StepId>, here: set<StepId>)
      requires forall id :: id in ids ==> id.run <= last
      ensures forall id :: id in before <==> id in ids && id.run < last
      ensures forall id :: id in here <==> id in ids && id.run == last
      ensures |ids| == |before| + |here|
    {
      before, here := (set id | id in ids && id.run < last), (set id | id in ids && id.run == last);
      assert ids == before + here;
    }

    static lemma EarlierOrLast(runs: seq<Run>, now: int, id: StepId)
      requires runs != []
      ensures var last := |runs| - 1;
        && (HasExpired(runs[..last], now, id) <==> id.run < last && HasExpired(runs, now, id))
        && (id.run == last ==>
              (HasExpired(runs, now, id) <==> (id.target, id.step) in Expired(runs[last], now)))
        && (HasExpired(runs, now, id) ==> id.run <= last)
    {
      var x := (id.target, id.step);
      var listed := Expired(runs[|runs| - 1], now);
      assert x.0 == id.target && x.1 == id.step;
    }

    static lemma {:induction false} ListsAll(listed: seq<(nat, nat)>, r: nat, ids: set<StepId>)
      requires Distinct(listed)
      requires forall id :: id in ids <==> id.run == r && (id.target, id.step) in listed
      ensures |listed| == |ids|
    {
      if listed != [] {
        var (t, s) := listed[0];
        ListsAll(listed[1..], r, ids - {StepId(r, t, s)});
        assert StepId(r, t, s) in ids;
      } else {
        assert ids == {};
      }
    }

    // -------------------------------------------------------------- checkpoints

    method CheckpointSuccess(
      lease: Lease, effectKey: string, outputRefs: seq<string>, state: StepState, now: int)
      returns (r: Result<Option<Checkpoint>>)
      modifies this
      ensures Tx(Rows(), r) == RunOperations.CheckpointSuccess(old(Rows()), lease, effectKey, outputRefs, state, now)
    {
      if effectKey in checkpoints {
        return Ok(Some(checkpoints[effectKey]));
      }
      if !LeaseValid(Rows(), lease, now) {
        return Err(LeaseConflict);
      }
      var (i, t, s) := (lease.id.run, lease.id.target, lease.id.step);
      var run := runs[i];
      if run.status == RunStatus.Cancelling {
        run := CancelRunAtBoundary(run, t, s, now);
        runs := runs[i := run];
        return Ok(None);
      }
      var checkpoint := Checkpoint(lease.id, effectKey, outputRefs, now);
      checkpoints := checkpoints[effectKey := checkpoint];
      var step := run.targets[t].steps[s];
      var kind := step.kind;
      step := ReleaseRow(step, RunStatus.Succeeded, RunStatus.Succeeded, None, now);
      step := step.(outputRefs := outputRefs);
      run := WithStep(run, t, s, step);
      if kind == StepKind.Complete && !state.continueLoop {
        var outcome := if state.outcome.Some? then state.outcome.value else RunOutcome.Complete;
        run := WithOutcome(run, t, Some(outcome), None);
        run := AggregateTargets(run);
      }
      run := WithEvent(run, StepSucceeded(effectKey));
      runs := runs[i := run];
      return Ok(Some(checkpoint));
    }

    method CheckpointFailure(lease: Lease, error: string, retryable: bool, retryAt: Option<int>, now: int)
      returns (r: Result<()>)
      modifies this`runs
      ensures Tx(Rows(), r) == RunOperations.CheckpointFailure(old(Rows()), lease, error, retryable, retryAt, now)
    {
      if !LeaseValid(Rows(), lease, now) {
        return Err(LeaseConflict);
      }
      var (i, t, s) := (lease.id.run, lease.id.target, lease.id.step);
      var run := runs[i];
      if run.status == RunStatus.Cancelling {
        run := CancelRunAtBoundary(run, t, s, now);
        runs := runs[i := run];
        return Ok(());
      }
      var exhausted := false;
      var step := run.targets[t].steps[s];
      var attempt := step.attemptCount;
      step := ReleaseRow(step, step.status, RunStatus.Failed, Some(Reported(error)), now);
      step := step.(error := Some(error));
      if retryable && attempt < run.maxAttempts {
        if retryAt.None? {
          return Err(MissingRetryDue);
        }
        step := step.(status := RunStatus.WaitingRetry, retryDueAt := retryAt);
        if !CanMove(run.status, RunStatus.WaitingRetry) {
          return Err(IllegalTransition);
        }
        run := WithStep(run, t, s, step).(status := RunStatus.WaitingRetry);
        RetryRows(runs[i], t, s, error, retryAt.value, now);
      } else {
        step := step.(status := RunStatus.Failed);
        run := WithStep(run, t, s, step);
        run := WithOutcome(run, t, Some(RunOutcome.Failed), Some(error));
        run := WithSteps(run, t, BulkCancel(run.targets[t].steps, {RunStatus.Pending}));
        run := AggregateTargets(run);
        exhausted := retryable;
      }
      run := WithEvent(run, StepFailed(t, s, attempt));
      runs := runs[i := run];
      return if exhausted then Err(RetryLimit) else Ok(());
    }

    static lemma RetryRows(run: Run, t: nat, s: nat, error: string, retryAt: int, now: int)
      requires HasStep(run, t, s)
      ensures var step := ReleaseRow(run.targets[t].steps[s], RunStatus.WaitingRetry, RunStatus.Failed,
                                     Some(Reported(error)), now)
                          .(error := Some(error), retryDueAt := Some(retryAt));
        ScheduleRetry(run, t, s, error, retryAt, now)
        == WithStep(run, t, s, step).(status := RunStatus.WaitingRetry)
    {
      var failed := FailStep(run, t, s, RunStatus.WaitingRetry, error, now);
      var step := failed.targets[t].steps[s].(retryDueAt := Some(retryAt));
      assert failed.targets[t].steps[s := step] == run.targets[t].steps[s := step];
      assert WithStep(failed, t, s, step).targets == WithStep(run, t, s, step).targets;
    }

    method CheckpointPartial(lease: Lease, error: string, workspaceTarget: Option<(nat, nat)>, now: int)
      returns (r: Result<()>)
      modifies this`runs
      ensures Tx(Rows(), r) == RunOperations.CheckpointPartial(old(Rows()), lease, error, workspaceTarget, now)
    {
      if !LeaseValid(Rows(), lease, now) {
        return Err(LeaseConflict);
      }
      var (i, t, s) := (lease.id.run, lease.id.target, lease.id.step);
      var run := runs[i];
      if run.status == RunStatus.Cancelling {
        run := CancelRunAtBoundary(run, t, s, now);
        runs := runs[i := run];
        return Ok(());
      }
      if workspaceTarget != Some((i, t)) {
        return Err(Lookup);
      }
      var step := run.targets[t].steps[s];
      var attempt := step.attemptCount;
      step := ReleaseRow(step, RunStatus.Failed, RunStatus.Failed, Some(Reported(error)), now);
      step := step.(error := Some(error));
      run := WithStep(run, t, s, step);
      run := WithOutcome(run, t, Some(RunOutcome.Partial), Some(error));
      run := WithSteps(run, t, BulkCancel(run.targets[t].steps, {RunStatus.Pending, RunStatus.WaitingRetry}));
      run := AggregateTargets(run);
      run := WithEvent(run, StepPartial(t, s, attempt));
      runs := runs[i := run];
      return Ok(());
    }

    /** The appends of one gap loop: each of the nine kinds after INVENTORY, then the counter. */
    method AppendGapLoop(r: nat, t: nat)
      requires r < |runs| && t < |runs[r].targets| && MayExtend(runs[r], t)
      modifies this`runs
      ensures runs == old(runs)[r := ExtendTarget(old(runs)[r], t)]
    {
      ghost var start := runs;
      ghost var steps := runs[r].targets[t].steps;
      var nextLoop := runs[r].targets[t].loopCount + 1;
      ghost var block := GapBlock(|steps|, nextLoop);
      SameSteps(start[r], t);
      assert steps + block[..0] == steps;
      for k := 1 to |STEP_KINDS|
        invariant runs == start[r := WithSteps(start[r], t, steps + block[..k - 1])]
      {
        AppendsNext(start, r, t, k - 1, checkpoints);
        var _ := Append(r, t, STEP_KINDS[k], GapLoop(nextLoop, STEP_KINDS[k]));
      }
      assert block[..9] == block;
      var target := runs[r].targets[t].(loopCount := nextLoop);
      runs := runs[r := runs[r].(targets := runs[r].targets[t := target])];
      Extends(start[r], t);
      assert runs[r].targets == ExtendTarget(start[r], t).targets;
    }

    static ghost predicate MayExtend(run: Run, t: nat)
      requires t < |run.targets|
    {
      var target := run.targets[t];
      run.status !in TERMINAL && Contiguous(target.steps) && KeysOk(target.steps, target.loopCount)
    }

    static lemma Extends(run: Run, t: nat)
      requires t < |run.targets| && MayExtend(run, t)
      ensures var target := run.targets[t];
        var longer := target.steps + GapBlock(|target.steps|, target.loopCount + 1);
        ExtendTarget(run, t)
        == run.(targets := run.targets[t := target.(steps := longer, loopCount := target.loopCount + 1)])
    {
      NextIsLength(run.targets[t].steps);
    }

    static lemma SameSteps(run: Run, t: nat)
      requires t < |run.targets|
      ensures WithSteps(run, t, run.targets[t].steps) == run
    {
    }

    static lemma AppendsNext(runs: seq<Run>, r: nat, t: nat, k: nat, checkpoints: map<string, Checkpoint>)
      requires r < |runs| && t < |runs[r].targets| && MayExtend(runs[r], t) && k < 9
      ensures var steps := runs[r].targets[t].steps;
        var nextLoop := runs[r].targets[t].loopCount + 1;
        var block := GapBlock(|steps|, nextLoop);
        var kind := STEP_KINDS[k + 1];
        AppendStep(Db(runs[r := WithSteps(runs[r], t, steps + block[..k])], checkpoints),
                   r, t, kind, GapLoop(nextLoop, kind)).db
        == Db(runs[r := WithSteps(runs[r], t, steps + block[..k + 1])], checkpoints)
    {
      var target := runs[r].targets[t];
      var sofar := target.steps + GapBlock(|target.steps|, target.loopCount + 1)[..k];
      var longer := target.steps + GapBlock(|target.steps|, target.loopCount + 1)[..k + 1];
      KeyIsNew(target, k);
      LongerByOne(target.steps, target.loopCount + 1, k);
      AppendsFresh(runs, r, t, sofar, STEP_KINDS[k + 1], GapLoop(target.loopCount + 1, STEP_KINDS[k + 1]), checkpoints);
    }

    static lemma AppendsFresh(
      runs: seq<Run>, r: nat, t: nat, steps: seq<Step>, kind: StepKind, key: StepKey,
      checkpoints: map<string, Checkpoint>)
      requires r < |runs| && t < |runs[r].targets| && runs[r].status !in TERMINAL
      requires FindStepKey(steps, key).None?
      ensures AppendStep(Db(runs[r := WithSteps(runs[r], t, steps)], checkpoints), r, t, kind, key).db
        == Db(runs[r := WithSteps(runs[r], t, steps + [NewStep(key, kind, NextPosition(steps))])], checkpoints)
    {
      var before := WithSteps(runs[r], t, steps);
      var longer := steps + [NewStep(key, kind, NextPosition(steps))];
      assert WithSteps(before, t, longer).targets == WithSteps(runs[r], t, longer).targets;
    }

    static lemma LongerByOne(steps: seq<Step>, loop: nat, k: nat)
      requires k < 9 && Contiguous(steps)
      ensures var block := GapBlock(|steps|, loop);
        var sofar := steps + block[..k];
        sofar + [NewStep(GapLoop(loop, STEP_KINDS[k + 1]), STEP_KINDS[k + 1], NextPosition(sofar))]
        == steps + block[..k + 1]
    {
      var block := GapBlock(|steps|, loop);
      SofarIsContiguous(steps, loop, k);
      NextIsLength(steps + block[..k]);
      OneMoreOfBlock(steps, block, k);
    }

    static lemma SofarIsContiguous(steps: seq<Step>, loop: nat, k: nat)
      requires k < 9 && Contiguous(steps)
      ensures Contiguous(steps + GapBlock(|steps|, loop)[..k])
    {
    }

    static lemma OneMoreOfBlock(steps: seq<Step>, block: seq<Step>, k: nat)
      requires k < |block|
      ensures steps + block[..k] + [block[k]] == steps + block[..k + 1]
    {
    }

    static lemma KeyIsNew(target: Target, k: nat)
      requires k < 9 && KeysOk(target.steps, target.loopCount)
      ensures var sofar := target.steps + GapBlock(|target.steps|, target.loopCount + 1)[..k];
        FindStepKey(sofar, GapLoop(target.loopCount + 1, STEP_KINDS[k + 1])).None?
    {
      var steps := target.steps;
      var sofar := steps + GapBlock(|steps|, target.loopCount + 1)[..k];
      var key := GapLoop(target.loopCount + 1, STEP_KINDS[k + 1]);
      forall j | 0 <= j < |sofar| ensures sofar[j].key != key {
        if j < |steps| {
          OldKeysDiffer(steps, target.loopCount, j);
        } else {
          KindsDiffer(j - |steps|, k);
          assert sofar[j] == GapBlock(|steps|, target.loopCount + 1)[j - |steps|];
        }
      }
      Absent(sofar, key);
    }

    static lemma Absent(steps: seq<Step>, key: StepKey)
      requires forall j :: 0 <= j < |steps| ==> steps[j].key != key
      ensures FindStepKey(steps, key).None?
    {
    }

    static lemma OldKeysDiffer(steps: seq<Step>, loops: nat, j: nat)
      requires j < |steps| && KeysOk(steps, loops)
      ensures steps[j].key.GapLoop? ==> steps[j].key.loop <= loops
    {
      assert KeyOk(steps[j].key, j, loops);
    }

    /** The gap loop of `_complete`: nine appended steps, one more counted loop and the COMPLETE
        step's success, as one action. */
    method ContinueLoop(lease: Lease, effectKey: string, outputRefs: seq<string>, now: int)
      returns (r: Result<Option<Checkpoint>>)
      requires LeaseValid(Rows(), lease, now) ==> MayExtend(runs[lease.id.run], lease.id.target)
      modifies this
      ensures Tx(Rows(), r) == ContinueGapLoop(old(Rows()), lease, effectKey, outputRefs, now)
    {
      if effectKey in checkpoints {
        return Ok(Some(checkpoints[effectKey]));
      }
      if !LeaseValid(Rows(), lease, now) {
        return Err(LeaseConflict);
      }
      AppendGapLoop(lease.id.run, lease.id.target);
      r := CheckpointSuccess(lease, effectKey, outputRefs, StepState(true, None), now);
    }

    /** In every reachable state a valid lease's target can be extended. */
    static lemma ValidLeaseMayExtend(db: Db, lease: Lease, now: int, maxGapLoops: nat)
      requires DbOk(db, maxGapLoops) && LeaseValid(db, lease, now)
      ensures MayExtend(db.runs[lease.id.run], lease.id.target)
    {
      var run := db.runs[lease.id.run];
      assert RunOk(run, maxGapLoops);
      RunningMeansActive(run, lease.id.target, lease.id.step);
      assert TargetRecords(run.targets[lease.id.target], maxGapLoops, RetriedCount(run.events));
      var steps := run.targets[lease.id.target].steps;
      forall i | 0 <= i < |steps| ensures steps[i].position == i {
        assert RowOk(steps[i], i);
      }
    }

    // -------------------------------------------------------------- cancelling

    method RequestCancel(r: nat, now: int) returns (result: Result<()>)
      modifies this`runs
      ensures Tx(Rows(), result) == RunOperations.RequestCancel(old(Rows()), r, now)
    {
      if r >= |runs| {
        return Err(RunNotFound);
      }
      var run := runs[r];
      if run.status in TERMINAL {
        return Err(IllegalTransition);
      }
      run := run.(cancelRequestedAt := Some(now));
      if !HasRunning(run) {
        run := run.(status := RunStatus.Cancelled, outcome := Some(RunOutcome.Cancelled));
        run := run.(targets := BulkCancelTargets(run.targets, UNFINISHED));
      } else {
        run := run.(status := RunStatus.Cancelling);
      }
      if CancelRequested in run.events {
        return Err(Integrity);
      }
      runs := runs[r := WithEvent(run, CancelRequested)];
      return Ok(());
    }

    method CancelAtSafeBoundary(lease: Lease, now: int) returns (result: Result<()>)
      modifies this`runs
      ensures Tx(Rows(), result) == RunOperations.CancelAtSafeBoundary(old(Rows()), lease, now)
    {
      if !LeaseValid(Rows(), lease, now) {
        return Err(LeaseConflict);
      }
      var run := runs[lease.id.run];
      if run.status != RunStatus.Cancelling {
        return Err(IllegalTransition);
      }
      run := CancelRunAtBoundary(run, lease.id.target, lease.id.step, now);
      runs := runs[lease.id.run := run];
      return Ok(());
    }

    // -------------------------------------------------------------- finishing and retrying

    method FinishFromTargets(r: nat) returns (result: Result<()>)
      modifies this`runs
      ensures Tx(Rows(), result) == RunOperations.FinishFromTargets(old(Rows()), r)
    {
      if r >= |runs| {
        return Err(RunNotFound);
      }
      var run := runs[r];
      if !AllOutcomesKnown(run.targets) {
        return Err(IllegalTransition);
      }
      for t := 0 to |run.targets|
        invariant forall u, s :: 0 <= u < t && 0 <= s < |run.targets[u].steps|
                                 && run.targets[u].steps[s].kind == StepKind.Complete ==>
          run.targets[u].steps[s].status == RunStatus.Succeeded
      {
        for s := 0 to |run.targets[t].steps|
          invariant forall i :: 0 <= i < s && run.targets[t].steps[i].kind == StepKind.Complete ==>
            run.targets[t].steps[i].status == RunStatus.Succeeded
        {
          if run.targets[t].steps[s].kind == StepKind.Complete
             && run.targets[t].steps[s].status != RunStatus.Succeeded {
            return Err(IllegalTransition);
          }
        }
      }
      run := AggregateTargets(run);
      runs := runs[r := run];
      return Ok(());
    }

    method Resume(r: nat) returns (result: Result<()>)
      modifies this`runs
      ensures Tx(Rows(), result) == RunOperations.Resume(old(Rows()), r)
    {
      if r >= |runs| {
        return Err(RunNotFound);
      }
      if runs[r].status != RunStatus.WaitingInput {
        return Err(IllegalTransition);
      }
      runs := runs[r := runs[r].(status := RunStatus.Running)];
      return Ok(());
    }

    method Retry(r: nat, now: int) returns (result: Result<()>)
      modifies this`runs
      ensures Tx(Rows(), result) == RunOperations.Retry(old(Rows()), r, now)
    {
      if r >= |runs| {
        return Err(RunNotFound);
      }
      var run := runs[r];
      if !Retryable(run) {
        return Err(IllegalTransition);
      }
      if !exists t :: 0 <= t < |run.targets| && Reopens(run, t) {
        return Err(IllegalTransition);
      }
      var targets := ReopenTargets(run, now);
      var number := RetriedCount(run.events) + 1;
      run := run.(status := RunStatus.WaitingRetry, outcome := None, targets := targets);
      runs := runs[r := WithEvent(run, RunRetried(number))];
      return Ok(());
    }

    /** The loop of `retry` over the run's targets. */
    static method ReopenTargets(run: Run, now: int) returns (targets: seq<Target>)
      ensures targets == RetryRun(run, now).targets
    {
      var partialRun := run.outcome == Some(RunOutcome.Partial);
      targets := run.targets;
      for t := 0 to |run.targets|
        invariant |targets| == |run.targets|
        invariant forall u :: 0 <= u < t ==> targets[u] == RetryTarget(run.targets[u], partialRun, now)
        invariant forall u :: t <= u < |targets| ==> targets[u] == run.targets[u]
      {
        var target := run.targets[t];
        var steps, retried := RetryFailedSteps(target.steps, now);
        if retried {
          target := target.(outcome := None, error := None, steps := steps);
        } else if partialRun && target.outcome == Some(RunOutcome.Partial) {
          steps := AppendRetryBlock(target.steps);
          target := target.(outcome := None, error := None, steps := steps);
        }
        targets := targets[t := target];
      }
    }

    /** Each FAILED step waits again and the CANCELLED steps behind it become PENDING. */
    static method RetryFailedSteps(steps: seq<Step>, now: int) returns (after: seq<Step>, retried: bool)
      ensures retried == exists s :: 0 <= s < |steps| && steps[s].status == RunStatus.Failed
      ensures after == ReopenSteps(steps, now)
    {
      after := steps;
      retried := false;
      for s := 0 to |steps|
        invariant |after| == |steps|
        invariant retried == FailedBefore(steps, s)
        invariant forall i :: 0 <= i < |steps| ==> after[i] == ReopenedSoFar(steps, i, s, now)
      {
        if steps[s].status == RunStatus.Failed {
          after := after[s := after[s].(status := RunStatus.WaitingRetry, retryDueAt := Some(now))];
          after := ReopenBehind(after, steps[s].position);
          retried := true;
        }
      }
    }

    /** Nine new steps for a partial target that has no failed one. */
    static method AppendRetryBlock(steps: seq<Step>) returns (longer: seq<Step>)
      ensures longer == steps + RetryBlock(NextPosition(steps))
    {
      var next := NextPosition(steps);
      ghost var block := RetryBlock(next);
      longer := steps;
      for k := 1 to |STEP_KINDS|
        invariant longer == steps + block[..k - 1]
      {
        NextOfBlock(next, k);
        longer := longer + [NewStep(ManualRetry(next, STEP_KINDS[k]), STEP_KINDS[k], next + k - 1)];
      }
      assert block[..9] == block;
    }

    static lemma NextOfBlock(next: nat, k: nat)
      requires 1 <= k < |STEP_KINDS|
      ensures RetryBlock(next)[..k] == RetryBlock(next)[..k - 1]
                + [NewStep(ManualRetry(next, STEP_KINDS[k]), STEP_KINDS[k], next + k - 1)]
    {
      var block := RetryBlock(next);
      assert block[k - 1] == NewStep(ManualRetry(next, STEP_KINDS[k]), STEP_KINDS[k], next + k - 1);
      assert block[..k] == block[..k - 1] + [block[k - 1]];
    }

    static predicate FailedBefore(steps: seq<Step>, n: nat)
      requires n <= |steps|
    {
      exists j :: 0 <= j < n && steps[j].status == RunStatus.Failed
    }

    /** The bulk update behind one retried step. */
    static function ReopenBehind(steps: seq<Step>, position: nat): seq<Step> {
      seq(|steps|, i requires 0 <= i < |steps| =>
        if steps[i].position > position && steps[i].status == RunStatus.Cancelled then
          steps[i].(status := RunStatus.Pending, error := None, retryDueAt := None)
        else steps[i])
    }

    static ghost function ReopenedSoFar(steps: seq<Step>, i: nat, n: nat, now: int): Step
      requires i < |steps| && n <= |steps|
    {
      if steps[i].status == RunStatus.Failed then
        if i < n then steps[i].(status := RunStatus.WaitingRetry, retryDueAt := Some(now)) else steps[i]
      else if steps[i].status == RunStatus.Cancelled
              && exists j :: 0 <= j < n && steps[j].status == RunStatus.Failed
                             && steps[j].position < steps[i].position then
        steps[i].(status := RunStatus.Pending, error := None, retryDueAt := None)
      else steps[i]
    }
  }
}
