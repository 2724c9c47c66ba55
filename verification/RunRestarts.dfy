/** What creating, extending and retrying a run leave in the rows, and who can be leased then. */
module RunRestarts {
  import opened Collections
  import opened Domain
  import opened RunRows
  import opened RunOperations
  import opened RunInvariants
  import opened RunMoves
  import opened RunRecords
  import opened RunHistory
  import opened RunTheorems
  import opened RunEffects

  // ---------------------------------------------------------------- new steps

  /** A step nobody has worked on. */
  predicate Untouched(step: Step, kind: StepKind, position: nat) {
    && step.kind == kind && step.position == position && step.status == RunStatus.Pending
    && step.attemptCount == 0 && step.attempts == [] && step.leaseOwner.None? && step.leaseExpiresAt.None?
    && step.retryDueAt.None? && step.outputRefs == [] && step.error.None?
  }

  /** The order of a target's work. */
  lemma OrderOfWork()
    ensures STEP_KINDS
            == [StepKind.Inventory, StepKind.Plan, StepKind.Scout, StepKind.Acquire, StepKind.Extract,
                StepKind.Synthesize, StepKind.Audit, StepKind.Integrate, StepKind.Summarize, StepKind.Complete]
  {
  }

  /** Behind the `n` old steps nine new ones, one for each kind after INVENTORY. */
  predicate NineMore(steps: seq<Step>, n: nat) {
    && |steps| == n + 9
    && forall i :: n <= i < n + 9 ==> Untouched(steps[i], STEP_KINDS[1 + i - n], i)
  }

  // ---------------------------------------------------------------- creating

  /** A new key creates a run of one target for each world, in order, each with the ten steps; the first
      step of every target can be leased at once, and no other. */
  lemma CreatedRunIsReady(
    trace: seq<Action>, maxGapLoops: nat, command: CreateCommand, key: string, t: nat, s: nat, now: int)
    requires ValidCommand(command) && Distinct(command.worldIds) && t < |command.worldIds| && s < 10
    requires forall r :: 0 <= r < |Exec(trace, maxGapLoops).runs| ==>
               Exec(trace, maxGapLoops).runs[r].idempotencyKey != key
    ensures var (db, made) := (Exec(trace, maxGapLoops), Create(Exec(trace, maxGapLoops), command, key));
      && made.result == Ok(|db.runs|) && made.db.checkpoints == db.checkpoints
      && |made.db.runs| == |db.runs| + 1 && made.db.runs[..|db.runs|] == db.runs
      && var run := made.db.runs[|db.runs|];
      && run.status == RunStatus.Pending && run.outcome.None? && run.cancelRequestedAt.None?
      && run.maxAttempts == command.maxAttempts && run.idempotencyKey == key && run.payload == command
      && run.events == [RunCreated] && |run.targets| == |command.worldIds|
      && run.targets[t].worldId == command.worldIds[t] && run.targets[t].outcome.None? && run.targets[t].error.None?
      && run.targets[t].loopCount == 0 && |run.targets[t].steps| == 10
      && Untouched(run.targets[t].steps[s], STEP_KINDS[s], s) && run.targets[t].steps[s].key == Initial(s)
      && (Eligible(made.db, StepId(|db.runs|, t, s), now) <==> s == 0)
  {
    var db := Exec(trace, maxGapLoops);
    var steps := InitialSteps();
    if s > 0 {
      assert steps[0].position < steps[s].position && steps[0].status == RunStatus.Pending;
    }
  }

  // ---------------------------------------------------------------- the gap loop

  /** A COMPLETE step that goes on: it has succeeded, its target has no outcome, one more loop counted
      and the nine steps of that loop, of which exactly the first can be leased. */
  lemma GapLoopGoesOn(
    trace: seq<Action>, maxGapLoops: nat, lease: Lease, effectKey: string, outputRefs: seq<string>, now: int,
    later: int)
    requires var db := Exec(trace, maxGapLoops);
      && LeaseValid(db, lease, now) && effectKey !in db.checkpoints
      && db.runs[lease.id.run].status != RunStatus.Cancelling && StepAt(db, lease.id).kind == StepKind.Complete
    ensures var db, (r, t, s) := Exec(trace, maxGapLoops), (lease.id.run, lease.id.target, lease.id.step);
      var after := ContinueGapLoop(db, lease, effectKey, outputRefs, now).db;
      && after.checkpoints == db.checkpoints[effectKey := Checkpoint(lease.id, effectKey, outputRefs, now)]
      && OtherRunsStay(db, after, r)
      && LoopedRun(db.runs[r], after.runs[r], t, s, effectKey, outputRefs, now, later)
  {
    LeasedRun(trace, maxGapLoops, lease, now);
    ContinueUnfolds(Exec(trace, maxGapLoops), lease, effectKey, outputRefs, now);
    LoopOfRun(Exec(trace, maxGapLoops).runs[lease.id.run], lease.id.target, lease.id.step, effectKey, outputRefs, now,
              later);
  }

  predicate LoopedRun(
    a: Run, b: Run, t: nat, s: nat, effectKey: string, outputRefs: seq<string>, now: int, later: int)
    requires HasStep(a, t, s)
  {
    && RunIdentityStays(a, b)
    && b.status == a.status && b.outcome == a.outcome && b.events == a.events + [StepSucceeded(effectKey)]
    && (forall u :: 0 <= u < |a.targets| && u != t ==> b.targets[u] == a.targets[u])
    && LoopedTarget(a.targets[t], b.targets[t], s, outputRefs, now)
    && forall i :: |a.targets[t].steps| <= i < |b.targets[t].steps| ==>
         (EligibleStep(b, t, i, later) <==> i == |a.targets[t].steps|)
  }

  predicate LoopedTarget(a: Target, b: Target, s: nat, outputRefs: seq<string>, now: int)
    requires s < |a.steps|
  {
    var n := |a.steps|;
    && b.worldId == a.worldId && b.outcome.None? && b.error == a.error && b.loopCount == a.loopCount + 1
    && NineMore(b.steps, n)
    && (forall i :: n <= i < n + 9 ==> b.steps[i].key == GapLoop(b.loopCount, b.steps[i].kind))
    && (forall i :: 0 <= i < n && i != s ==> b.steps[i] == a.steps[i])
    && StepDone(a.steps[s], b.steps[s], outputRefs, now)
  }

  lemma LoopOfRun(
    run: Run, t: nat, s: nat, effectKey: string, outputRefs: seq<string>, now: int, later: int)
    requires RunShape(run) && IsRunning(run, t, s) && run.status != RunStatus.Cancelling
    requires LedgerOk(run.targets[t].steps[s]) && run.targets[t].steps[s].kind == StepKind.Complete
    ensures var longer := ExtendTarget(run, t);
      && HasStep(longer, t, s)
      && LoopedRun(run, SucceedStep(longer, t, s, effectKey, outputRefs, StepState(true, None), now), t, s,
                   effectKey, outputRefs, now, later)
  {
    RunningMeansActive(run, t, s);
    var longer := ExtendTarget(run, t);
    var after := SucceedStep(longer, t, s, effectKey, outputRefs, StepState(true, None), now);
    LoopOfTarget(run, t, s, effectKey, outputRefs, now);
    CompleteIsLast(run.targets[t].steps, s);
    BeforeRunning(run.targets[t].steps, s);
    forall i | |run.targets[t].steps| <= i < |after.targets[t].steps|
      ensures EligibleStep(after, t, i, later) <==> i == |run.targets[t].steps|
    {
      FirstNewIsNext(after.targets[t].steps, |run.targets[t].steps|, i);
    }
  }

  lemma LoopOfTarget(run: Run, t: nat, s: nat, effectKey: string, outputRefs: seq<string>, now: int)
    requires RunShape(run) && IsRunning(run, t, s) && run.status != RunStatus.Cancelling
    requires LedgerOk(run.targets[t].steps[s])
    ensures HasStep(ExtendTarget(run, t), t, s)
    ensures var after := SucceedStep(ExtendTarget(run, t), t, s, effectKey, outputRefs, StepState(true, None), now);
      && t < |after.targets| && LoopedTarget(run.targets[t], after.targets[t], s, outputRefs, now)
      && (forall i :: 0 <= i < |run.targets[t].steps| ==> after.targets[t].steps[i].position == i)
  {
    RunningMeansActive(run, t, s);
    var longer, step := ExtendTarget(run, t), run.targets[t].steps[s];
    ExtendedTarget(run, t);
    assert longer.targets[t].steps[..|run.targets[t].steps|][s] == step;
    ReleaseEffect(step, RunStatus.Succeeded, RunStatus.Succeeded, None, now);
    SucceedInPlace(longer, t, s, effectKey, outputRefs, now);
    var done := ReleaseRow(step, RunStatus.Succeeded, RunStatus.Succeeded, None, now).(outputRefs := outputRefs);
    DoneInExtended(run.targets[t], longer.targets[t], s, done, outputRefs, now);
  }

  predicate Extended(a: Target, b: Target) {
    && b.worldId == a.worldId && b.outcome.None? && b.error == a.error && b.loopCount == a.loopCount + 1
    && NineMore(b.steps, |a.steps|) && b.steps[..|a.steps|] == a.steps
    && (forall i :: |a.steps| <= i < |b.steps| ==> b.steps[i].key == GapLoop(b.loopCount, b.steps[i].kind))
    && (forall i :: 0 <= i < |a.steps| ==> a.steps[i].position == i)
  }

  lemma DoneInExtended(a: Target, b: Target, s: nat, done: Step, outputRefs: seq<string>, now: int)
    requires Extended(a, b) && s < |a.steps| && StepDone(a.steps[s], done, outputRefs, now)
    ensures s < |b.steps|
    ensures var after := b.(steps := b.steps[s := done]);
      && LoopedTarget(a, after, s, outputRefs, now)
      && forall i :: 0 <= i < |a.steps| ==> after.steps[i].position == i
  {
    var after := b.(steps := b.steps[s := done]);
    forall i | 0 <= i < |a.steps| && i != s ensures after.steps[i] == a.steps[i] {
      assert b.steps[..|a.steps|][i] == b.steps[i];
    }
  }

  /** A success that goes on changes one step of the target. */
  lemma SucceedInPlace(run: Run, t: nat, s: nat, effectKey: string, outputRefs: seq<string>, now: int)
    requires HasStep(run, t, s)
    ensures var done := ReleaseRow(run.targets[t].steps[s], RunStatus.Succeeded, RunStatus.Succeeded, None, now);
      SucceedStep(run, t, s, effectKey, outputRefs, StepState(true, None), now).targets
      == run.targets[t := run.targets[t].(steps := run.targets[t].steps[s := done.(outputRefs := outputRefs)])]
  {
  }

  lemma ExtendedTarget(run: Run, t: nat)
    requires RunShape(run) && t < |run.targets| && Open(run.targets[t])
    ensures |ExtendTarget(run, t).targets| == |run.targets|
    ensures Extended(run.targets[t], ExtendTarget(run, t).targets[t])
  {
    var steps, loop := run.targets[t].steps, run.targets[t].loopCount + 1;
    PositionsCount(steps);
    GapBlockFacts(|steps|, loop);
    BlockFollows(steps, GapBlock(|steps|, loop));
    ExtendedSteps(run, t);
  }

  lemma ExtendedSteps(run: Run, t: nat)
    requires t < |run.targets| && NextPosition(run.targets[t].steps) == |run.targets[t].steps|
    ensures var (a, b) := (run.targets[t], ExtendTarget(run, t).targets[t]);
      && b == a.(steps := a.steps + GapBlock(|a.steps|, a.loopCount + 1), loopCount := a.loopCount + 1)
  {
  }

  lemma PositionsCount(steps: seq<Step>)
    requires RowsOk(steps)
    ensures NextPosition(steps) == |steps| && forall i :: 0 <= i < |steps| ==> steps[i].position == i
  {
    forall i | 0 <= i < |steps| ensures steps[i].position == i {
      assert RowOk(steps[i], i);
    }
    NextIsLength(steps);
  }

  lemma GapBlockFacts(n: nat, loop: nat)
    ensures var block := GapBlock(n, loop);
      forall k :: 0 <= k < 9 ==>
        Untouched(block[k], STEP_KINDS[1 + k], n + k) && block[k].key == GapLoop(loop, block[k].kind)
  {
  }

  lemma RetryBlockFacts(n: nat)
    ensures var block := RetryBlock(n);
      forall k :: 0 <= k < 9 ==>
        Untouched(block[k], STEP_KINDS[1 + k], n + k) && block[k].key == ManualRetry(n, block[k].kind)
  {
  }

  /** The nine steps of a block, as either of its two kinds. */
  lemma BlockFollows(steps: seq<Step>, block: seq<Step>)
    requires |block| == 9 && forall k :: 0 <= k < 9 ==> Untouched(block[k], STEP_KINDS[1 + k], |steps| + k)
    ensures NineMore(steps + block, |steps|) && (steps + block)[..|steps|] == steps
    ensures forall i :: |steps| <= i < |steps| + 9 ==> (steps + block)[i] == block[i - |steps|]
  {
    forall i | |steps| <= i < |steps| + 9 ensures Untouched((steps + block)[i], STEP_KINDS[1 + i - |steps|], i) {
      assert (steps + block)[i] == block[i - |steps|];
    }
  }

  /** Behind nothing but successes the first new step is next. */
  lemma FirstNewIsNext(steps: seq<Step>, n: nat, i: nat)
    requires NineMore(steps, n) && n <= i < |steps|
    requires forall j :: 0 <= j < n ==> steps[j].position == j && steps[j].status == RunStatus.Succeeded
    ensures PriorSucceeded(steps, i) <==> i == n
  {
    forall j | n <= j < |steps| ensures steps[j].position == j && steps[j].status == RunStatus.Pending {
      assert Untouched(steps[j], STEP_KINDS[1 + j - n], j);
    }
    assert i > n ==> steps[n].position < steps[i].position;
  }

  // ---------------------------------------------------------------- retrying by hand

  predicate SomeFailed(steps: seq<Step>) {
    exists i :: 0 <= i < |steps| && steps[i].status == RunStatus.Failed
  }

  /** A target with a failed step: that step waits for its retry, due now, and what was cancelled behind
      it is open again. A partial target of a partial run without one gets nine new steps. */
  predicate RetriedTarget(a: Target, b: Target, partialRun: bool, now: int) {
    if SomeFailed(a.steps) then
      && b.worldId == a.worldId && b.loopCount == a.loopCount && b.outcome.None? && b.error.None?
      && |b.steps| == |a.steps|
      && forall i :: 0 <= i < |a.steps| ==> RetriedStep(a.steps, i, b.steps[i], now)
    else if partialRun && a.outcome == Some(RunOutcome.Partial) then
      && b.worldId == a.worldId && b.loopCount == a.loopCount && b.outcome.None? && b.error.None?
      && NineMore(b.steps, |a.steps|) && b.steps[..|a.steps|] == a.steps
      && forall i :: |a.steps| <= i < |b.steps| ==> b.steps[i].key == ManualRetry(|a.steps|, b.steps[i].kind)
    else b == a
  }

  predicate RetriedStep(steps: seq<Step>, i: nat, after: Step, now: int)
    requires i < |steps|
  {
    var x := steps[i];
    if x.status == RunStatus.Failed then after == x.(status := RunStatus.WaitingRetry, retryDueAt := Some(now))
    else if x.status == RunStatus.Cancelled && SomeFailed(steps[..i]) then
      after == x.(status := RunStatus.Pending, error := None, retryDueAt := None)
    else after == x
  }

  /** A FAILED or PARTIAL run can be retried exactly when some target has a failed step, or is partial in
      a partial run. It then waits for its retry without an outcome, under the next retry number. */
  lemma RetriedRunGoesOn(trace: seq<Action>, maxGapLoops: nat, r: nat, now: int)
    requires r < |Exec(trace, maxGapLoops).runs|
    ensures var (db, retried) := (Exec(trace, maxGapLoops), Retry(Exec(trace, maxGapLoops), r, now));
      if MayRetry(db.runs[r]) then
        && retried.result == Ok(()) && retried.db.checkpoints == db.checkpoints && OtherRunsStay(db, retried.db, r)
        && RetriedFrom(db.runs[r], retried.db.runs[r], now)
      else retried == Tx(db, Err(IllegalTransition))
  {
    ReachableRun(trace, maxGapLoops, r);
    var run := Exec(trace, maxGapLoops).runs[r];
    RetryAccepted(Exec(trace, maxGapLoops), r, now);
    if MayRetry(run) {
      RetryOfRun(run, now);
    }
  }

  predicate MayRetry(run: Run) {
    && (run.status == RunStatus.Failed || run.outcome == Some(RunOutcome.Partial))
    && exists t :: 0 <= t < |run.targets|
                   && (SomeFailed(run.targets[t].steps)
                       || (run.outcome == Some(RunOutcome.Partial)
                           && run.targets[t].outcome == Some(RunOutcome.Partial)))
  }

  predicate RetriedFrom(a: Run, b: Run, now: int) {
    && RunIdentityStays(a, b) && b.status == RunStatus.WaitingRetry && b.outcome.None?
    && b.events == a.events + [RunRetried(RetriedCount(a.events) + 1)]
    && forall t :: 0 <= t < |a.targets| ==>
         RetriedTarget(a.targets[t], b.targets[t], a.outcome == Some(RunOutcome.Partial), now)
  }

  lemma RetryOfRun(run: Run, now: int)
    requires forall t :: 0 <= t < |run.targets| ==> Settled(run.targets[t])
    ensures RetriedFrom(run, RetryRun(run, now), now)
  {
    forall t | 0 <= t < |run.targets|
      ensures RetriedTarget(run.targets[t], RetryRun(run, now).targets[t], run.outcome == Some(RunOutcome.Partial), now)
    {
      RetryOfTarget(run.targets[t], run.outcome == Some(RunOutcome.Partial), now);
    }
  }

  lemma RetryAccepted(db: Db, r: nat, now: int)
    requires r < |db.runs| && RunShape(db.runs[r])
    ensures var (run, retried) := (db.runs[r], Retry(db, r, now));
      if MayRetry(run) then
        && run.status in {RunStatus.Succeeded, RunStatus.Failed}
        && retried == Tx(db.(runs := db.runs[r := RetryRun(run, now)]), Ok(()))
      else retried == Tx(db, Err(IllegalTransition))
  {
    var run := db.runs[r];
    forall t | 0 <= t < |run.targets|
      ensures Reopens(run, t)
              <==> SomeFailed(run.targets[t].steps)
                   || (run.outcome == Some(RunOutcome.Partial) && run.targets[t].outcome == Some(RunOutcome.Partial))
    {
    }
  }

  lemma RetryOfTarget(target: Target, partialRun: bool, now: int)
    requires Settled(target)
    ensures RetriedTarget(target, RetryTarget(target, partialRun, now), partialRun, now)
  {
    if SomeFailed(target.steps) {
      FailedStepsWait(target.steps, now);
    } else if partialRun && target.outcome == Some(RunOutcome.Partial) {
      NineMoreSteps(target);
    }
  }

  lemma FailedStepsWait(steps: seq<Step>, now: int)
    requires forall i :: 0 <= i < |steps| ==> RowOk(steps[i], i)
    ensures |ReopenSteps(steps, now)| == |steps|
    ensures forall i :: 0 <= i < |steps| ==> RetriedStep(steps, i, ReopenSteps(steps, now)[i], now)
  {
    forall i | 0 <= i < |steps| ensures RetriedStep(steps, i, ReopenSteps(steps, now)[i], now) {
      FailedBefore(steps, i);
    }
  }

  lemma FailedBefore(steps: seq<Step>, i: nat)
    requires i < |steps| && forall j :: 0 <= j < |steps| ==> RowOk(steps[j], j)
    ensures SomeFailed(steps[..i])
            <==> exists j :: 0 <= j < |steps| && steps[j].status == RunStatus.Failed
                             && steps[j].position < steps[i].position
  {
    assert RowOk(steps[i], i);
    if j :| 0 <= j < |steps| && steps[j].status == RunStatus.Failed && steps[j].position < steps[i].position {
      assert RowOk(steps[j], j);
      assert steps[..i][j] == steps[j];
    }
    if SomeFailed(steps[..i]) {
      var j :| 0 <= j < i && steps[..i][j].status == RunStatus.Failed;
      assert RowOk(steps[j], j) && steps[j].status == RunStatus.Failed;
    }
  }

  lemma NineMoreSteps(target: Target)
    requires Settled(target)
    ensures var (a, b) := (target.steps, target.steps + RetryBlock(NextPosition(target.steps)));
      && NineMore(b, |a|) && b[..|a|] == a
      && forall i :: |a| <= i < |b| ==> b[i].key == ManualRetry(|a|, b[i].kind)
  {
    var steps := target.steps;
    PositionsCount(steps);
    RetryBlockFacts(|steps|);
    BlockFollows(steps, RetryBlock(|steps|));
  }

  /** The work of a retried target can go on: a step that had failed can be leased from `now` on. */
  lemma RetriedWorkIsLeasable(trace: seq<Action>, maxGapLoops: nat, r: nat, now: int, t: nat, s: nat, later: int)
    requires r < |Exec(trace, maxGapLoops).runs|
    requires var run := Exec(trace, maxGapLoops).runs[r];
      MayRetry(run) && HasStep(run, t, s) && run.targets[t].steps[s].status == RunStatus.Failed
    ensures Eligible(Retry(Exec(trace, maxGapLoops), r, now).db, StepId(r, t, s), later) <==> now <= later
  {
    ReachableRun(trace, maxGapLoops, r);
    RetryAccepted(Exec(trace, maxGapLoops), r, now);
    var run := Exec(trace, maxGapLoops).runs[r];
    RetriedOfRunLeasable(run, now, t, s, later);
  }

  lemma RetriedOfRunLeasable(run: Run, now: int, t: nat, s: nat, later: int)
    requires HasStep(run, t, s) && Settled(run.targets[t]) && run.targets[t].steps[s].status == RunStatus.Failed
    ensures HasStep(RetryRun(run, now), t, s)
    ensures EligibleStep(RetryRun(run, now), t, s, later) <==> now <= later
  {
    var steps := run.targets[t].steps;
    FailedStepsWait(steps, now);
    FailedComesFirst(steps, ReopenSteps(steps, now), s, now);
  }

  lemma FailedComesFirst(a: seq<Step>, b: seq<Step>, s: nat, now: int)
    requires RowsOk(a) && Ordered(a) && s < |a| == |b| && a[s].status == RunStatus.Failed
    requires forall i :: 0 <= i < |a| ==> RetriedStep(a, i, b[i], now)
    ensures PriorSucceeded(b, s) && b[s].status == RunStatus.WaitingRetry && b[s].retryDueAt == Some(now)
  {
    forall i | 0 <= i < |a| ensures b[i].position == i && (i < s ==> b[i].status == RunStatus.Succeeded) {
      assert RowOk(a[i], i) && RetriedStep(a, i, b[i], now);
    }
  }
}
