/** What is true of every history of the kernel. */
module RunTheorems {
  import opened Collections
  import opened Domain
  import opened RunRows
  import opened RunOperations
  import opened RunInvariants
  import opened RunMoves
  import opened RunRecords
  import opened RunHistory

  // ---------------------------------------------------------------- one more action

  lemma Next(trace: seq<Action>, a: Action, maxGapLoops: nat)
    ensures Exec(trace + [a], maxGapLoops) == Apply(Exec(trace, maxGapLoops), a, maxGapLoops)
  {
    assert (trace + [a])[..|trace|] == trace;
  }

  lemma ReachableRun(trace: seq<Action>, maxGapLoops: nat, r: nat)
    requires r < |Exec(trace, maxGapLoops).runs|
    ensures RunShape(Exec(trace, maxGapLoops).runs[r]) && EventsOk(Exec(trace, maxGapLoops).runs[r])
    ensures RecordsOk(Exec(trace, maxGapLoops).runs[r], maxGapLoops)
  {
    Reachable(trace, maxGapLoops);
    assert RunOk(Exec(trace, maxGapLoops).runs[r], maxGapLoops);
  }

  lemma NextRun(trace: seq<Action>, a: Action, maxGapLoops: nat, r: nat)
    requires r < |Exec(trace, maxGapLoops).runs|
    ensures r < |Exec(trace + [a], maxGapLoops).runs|
    ensures RunMoved(a, r, true, Exec(trace, maxGapLoops).runs[r], Exec(trace + [a], maxGapLoops).runs[r])
  {
    Next(trace, a, maxGapLoops);
    Reachable(trace, maxGapLoops);
    ActionKeeps(Exec(trace, maxGapLoops), a, maxGapLoops);
  }

  lemma NextStep(trace: seq<Action>, a: Action, maxGapLoops: nat, id: StepId)
    requires HasId(Exec(trace, maxGapLoops), id)
    ensures HasId(Exec(trace + [a], maxGapLoops), id)
    ensures var (before, after) := (Exec(trace, maxGapLoops), Exec(trace + [a], maxGapLoops));
      && (|| StepAt(after, id) == StepAt(before, id)
          || (OnRun(a, id.run)
              && StepEdge(CauseOf(a, true), id.target, id.step, before.runs[id.run].maxAttempts,
                          StepAt(before, id), StepAt(after, id))))
      && after.runs[id.run].maxAttempts == before.runs[id.run].maxAttempts
  {
    Next(trace, a, maxGapLoops);
    Reachable(trace, maxGapLoops);
    ActionKeeps(Exec(trace, maxGapLoops), a, maxGapLoops);
    StepMoved(Exec(trace, maxGapLoops), a, true, Exec(trace + [a], maxGapLoops), id);
  }

  // ---------------------------------------------------------------- the shape of targets

  /** Positions count up from 0, the statuses read SUCCEEDED*, one step of any status, then only
      PENDING or CANCELLED, and nothing behind the first unfinished step was ever leased. */
  lemma TargetsKeepTheirShape(trace: seq<Action>, maxGapLoops: nat, r: nat, t: nat) returns (k: nat)
    requires r < |Exec(trace, maxGapLoops).runs| && t < |Exec(trace, maxGapLoops).runs[r].targets|
    ensures var steps := Exec(trace, maxGapLoops).runs[r].targets[t].steps;
      && (forall i :: 0 <= i < |steps| ==> steps[i].position == i && steps[i].kind == KindAt(i))
      && k <= |steps| && AllBefore(steps, k)
      && (k < |steps| ==> steps[k].status != RunStatus.Succeeded)
      && (forall i :: k < i < |steps| ==>
            steps[i].status in {RunStatus.Pending, RunStatus.Cancelled} && steps[i].attempts == [])
  {
    ReachableRun(trace, maxGapLoops, r);
    var run := Exec(trace, maxGapLoops).runs[r];
    var steps := run.targets[t].steps;
    TargetFacts(run, t);
    if AllIn(steps, {RunStatus.Succeeded}) {
      k := |steps|;
    } else {
      k := FirstOpenStep(steps);
    }
    forall i | 0 <= i < |steps| ensures steps[i].position == i && steps[i].kind == KindAt(i) {
      assert RowOk(steps[i], i);
    }
  }

  lemma TargetFacts(run: Run, t: nat)
    requires RunShape(run) && t < |run.targets|
    ensures RowsOk(run.targets[t].steps) && Ordered(run.targets[t].steps)
    ensures AllIn(run.targets[t].steps, {RunStatus.Pending, RunStatus.Running, RunStatus.WaitingRetry,
                                         RunStatus.Succeeded, RunStatus.Failed, RunStatus.Cancelled})
  {
    assert Live(run.targets[t]) || Stopping(run.targets[t]);
  }

  /** Two steps of a target are never in flight at once. */
  lemma AtMostOneRunning(trace: seq<Action>, maxGapLoops: nat, a: StepId, b: StepId)
    requires var db := Exec(trace, maxGapLoops);
      && HasId(db, a) && HasId(db, b) && a.run == b.run && a.target == b.target
      && StepAt(db, a).status == RunStatus.Running && StepAt(db, b).status == RunStatus.Running
    ensures a == b
  {
    ReachableRun(trace, maxGapLoops, a.run);
    TargetFacts(Exec(trace, maxGapLoops).runs[a.run], a.target);
  }

  // ---------------------------------------------------------------- status changes

  /** One action takes a run's status along an edge of the table, or it is a manual retry
      re-opening a finished run; WAITING_INPUT is never reached. */
  lemma RunStatusMoves(trace: seq<Action>, a: Action, maxGapLoops: nat, r: nat)
    requires r < |Exec(trace, maxGapLoops).runs|
    ensures var (before, after) := (Exec(trace, maxGapLoops), Exec(trace + [a], maxGapLoops));
      && r < |after.runs|
      && (|| CanMove(before.runs[r].status, after.runs[r].status)
          || (&& a.RetryAgain? && a.run == r
              && before.runs[r].status in {RunStatus.Succeeded, RunStatus.Failed}
              && after.runs[r].status == RunStatus.WaitingRetry))
      && after.runs[r].status != RunStatus.WaitingInput
  {
    NextRun(trace, a, maxGapLoops, r);
    NotWaitingInput(trace + [a], maxGapLoops, r);
  }

  lemma NotWaitingInput(trace: seq<Action>, maxGapLoops: nat, r: nat)
    requires r < |Exec(trace, maxGapLoops).runs|
    ensures Exec(trace, maxGapLoops).runs[r].status != RunStatus.WaitingInput
  {
    ReachableRun(trace, maxGapLoops, r);
  }

  /** One action takes a step's status along an edge of the table, except that a reclaim puts a
      RUNNING step back to PENDING and a manual retry re-opens FAILED and CANCELLED steps. */
  lemma StepStatusMoves(trace: seq<Action>, a: Action, maxGapLoops: nat, id: StepId)
    requires HasId(Exec(trace, maxGapLoops), id)
    ensures var (before, after) := (Exec(trace, maxGapLoops), Exec(trace + [a], maxGapLoops));
      && HasId(after, id)
      && var (x, y) := (StepAt(before, id).status, StepAt(after, id).status);
      && (|| CanMove(x, y)
          || (a.ReconcileStartup? && x == RunStatus.Running && y == RunStatus.Pending)
          || (&& a.RetryAgain? && a.run == id.run
              && ((x == RunStatus.Failed && y == RunStatus.WaitingRetry)
                  || (x == RunStatus.Cancelled && y == RunStatus.Pending))))
      && (x == RunStatus.Succeeded ==> StepAt(after, id) == StepAt(before, id))
  {
    NextStep(trace, a, maxGapLoops, id);
    var (before, after) := (Exec(trace, maxGapLoops), Exec(trace + [a], maxGapLoops));
    if StepAt(after, id) != StepAt(before, id) {
      EdgeStatuses(CauseOf(a, true), id.target, id.step, before.runs[id.run].maxAttempts,
                   StepAt(before, id), StepAt(after, id));
    }
  }

  lemma EdgeStatuses(cause: Cause, t: nat, s: nat, maxAttempts: nat, a: Step, b: Step)
    requires StepEdge(cause, t, s, maxAttempts, a, b)
    ensures || CanMove(a.status, b.status)
            || (cause.ByReclaim? && a.status == RunStatus.Running && b.status == RunStatus.Pending)
            || (&& cause.ByRetry?
                && ((a.status == RunStatus.Failed && b.status == RunStatus.WaitingRetry)
                    || (a.status == RunStatus.Cancelled && b.status == RunStatus.Pending)))
    ensures a.status == RunStatus.Succeeded ==> b == a
  {}

  /** Once a step has succeeded nothing ever changes it again. */
  lemma {:induction false} SucceededIsPermanent(trace: seq<Action>, more: seq<Action>, maxGapLoops: nat, id: StepId)
    requires HasId(Exec(trace, maxGapLoops), id)
    requires StepAt(Exec(trace, maxGapLoops), id).status == RunStatus.Succeeded
    ensures HasId(Exec(trace + more, maxGapLoops), id)
    ensures StepAt(Exec(trace + more, maxGapLoops), id) == StepAt(Exec(trace, maxGapLoops), id)
  {
    if more == [] {
      assert trace + more == trace;
    } else {
      var rest, last := more[..|more| - 1], more[|more| - 1];
      SucceededIsPermanent(trace, rest, maxGapLoops, id);
      assert trace + more == (trace + rest) + [last];
      StepStatusMoves(trace + rest, last, maxGapLoops, id);
    }
  }

  /** With a valid lease no checkpoint call ends in an illegal transition, whatever the run's
      state; `cancel_at_safe_boundary` does exactly when the run is not being cancelled. */
  lemma ValidLeaseNeverMisfires(
    trace: seq<Action>, maxGapLoops: nat, lease: Lease, effectKey: string, outputRefs: seq<string>, state: StepState,
    error: string, retryable: bool, retryAt: Option<int>, workspaceTarget: Option<(nat, nat)>, now: int)
    requires LeaseValid(Exec(trace, maxGapLoops), lease, now)
    ensures var db := Exec(trace, maxGapLoops);
      var (r, t) := (lease.id.run, lease.id.target);
      var exhausted := StepAt(db, lease.id).attemptCount >= db.runs[r].maxAttempts;
      var cancelling := db.runs[r].status == RunStatus.Cancelling;
      && CheckpointSuccess(db, lease, effectKey, outputRefs, state, now).result.Ok?
      && CheckpointFailure(db, lease, error, retryable, retryAt, now).result
         == (if cancelling || !retryable then Ok(())
             else if exhausted then Err(RetryLimit)
             else if retryAt.None? then Err(MissingRetryDue)
             else Ok(()))
      && CheckpointPartial(db, lease, error, workspaceTarget, now).result
         == (if cancelling || workspaceTarget == Some((r, t)) then Ok(()) else Err(Lookup))
      && CancelAtSafeBoundary(db, lease, now).result
         == (if cancelling then Ok(()) else Err(IllegalTransition))
  {
    var db := Exec(trace, maxGapLoops);
    ReachableRun(trace, maxGapLoops, lease.id.run);
    RunningMeansActive(db.runs[lease.id.run], lease.id.target, lease.id.step);
  }

  /** Granting a lease never needs an edge the table does not have. */
  lemma LeasesAreLegal(db: Db, id: StepId, now: int)
    requires Eligible(db, id, now)
    ensures CanMove(StepAt(db, id).status, RunStatus.Running)
    ensures CanMove(db.runs[id.run].status, RunStatus.Running)
  {}

  // ---------------------------------------------------------------- no run gets stuck

  /** The first unfinished step of the target is in flight, or can be leased now or when due. */
  ghost predicate CanProceed(run: Run, t: nat, k: nat) {
    && HasStep(run, t, k)
    && run.targets[t].outcome.None?
    && AllBefore(run.targets[t].steps, k)
    && var step := run.targets[t].steps[k];
    || step.status == RunStatus.Running
    || (step.status == RunStatus.Pending && forall now :: EligibleStep(run, t, k, now))
    || (&& step.status == RunStatus.WaitingRetry && step.retryDueAt.Some?
        && forall now :: step.retryDueAt.value <= now ==> EligibleStep(run, t, k, now))
  }

  lemma OpenCanProceed(run: Run, t: nat) returns (k: nat)
    requires run.status in LEASABLE_RUNS && t < |run.targets| && Open(run.targets[t])
    ensures CanProceed(run, t, k)
  {
    var steps := run.targets[t].steps;
    k := FirstOpenStep(steps);
    assert RowOk(steps[k], k);
    assert PriorSucceeded(steps, k) by {
      forall i | 0 <= i < |steps| && steps[i].position < steps[k].position
        ensures steps[i].status == RunStatus.Succeeded
      {
        assert RowOk(steps[i], i);
      }
    }
  }

  /** An active run has a target that can go on; a CANCELLING run has a step in flight. */
  lemma NoRunIsStuck(trace: seq<Action>, maxGapLoops: nat, r: nat)
    requires r < |Exec(trace, maxGapLoops).runs|
    ensures var run := Exec(trace, maxGapLoops).runs[r];
      && (run.status in LEASABLE_RUNS ==> exists t, k :: CanProceed(run, t, k))
      && (run.status == RunStatus.Cancelling ==> HasRunning(run))
  {
    ReachableRun(trace, maxGapLoops, r);
    var run := Exec(trace, maxGapLoops).runs[r];
    if run.status in LEASABLE_RUNS {
      var t, k := LeasableStep(run);
    }
  }

  lemma OpenTarget(run: Run) returns (t: nat)
    requires RunShape(run) && run.status in LEASABLE_RUNS
    ensures t < |run.targets| && Open(run.targets[t])
  {
    if run.status == RunStatus.Pending {
      t := 0;
    } else {
      t :| 0 <= t < |run.targets| && Open(run.targets[t]);
    }
  }

  /** `now` is past every lease and every retry date of the run. */
  ghost predicate Late(run: Run, now: int) {
    forall t: nat, s: nat :: HasStep(run, t, s) ==>
      var step := run.targets[t].steps[s];
      && (step.status == RunStatus.Running && step.leaseExpiresAt.Some? ==> step.leaseExpiresAt.value < now)
      && (step.status == RunStatus.WaitingRetry && step.retryDueAt.Some? ==> step.retryDueAt.value <= now)
  }

  /** However the workers died: one late reconciliation makes an active run leasable again and
      brings a CANCELLING run to CANCELLED. */
  lemma ReconcileRecovers(trace: seq<Action>, maxGapLoops: nat, r: nat, now: int)
    requires r < |Exec(trace, maxGapLoops).runs| && Late(Exec(trace, maxGapLoops).runs[r], now)
    ensures var (before, after) := (Exec(trace, maxGapLoops).runs[r],
                                    Exec(trace + [ReconcileStartup(now)], maxGapLoops).runs[r]);
      && (before.status in LEASABLE_RUNS ==>
            exists t: nat, s: nat :: HasStep(after, t, s) && EligibleStep(after, t, s, now))
      && (before.status == RunStatus.Cancelling ==> after.status == RunStatus.Cancelled)
  {
    Next(trace, ReconcileStartup(now), maxGapLoops);
    ReachableRun(trace, maxGapLoops, r);
    RunRecovers(Exec(trace, maxGapLoops).runs[r], now);
  }

  lemma RunRecovers(run: Run, now: int)
    requires RunShape(run) && Late(run, now)
    ensures var after := ReconcileRun(run, now);
      && (run.status in LEASABLE_RUNS ==>
            exists t: nat, s: nat :: HasStep(after, t, s) && EligibleStep(after, t, s, now))
      && (run.status == RunStatus.Cancelling ==> after.status == RunStatus.Cancelled)
  {
    ReconcileEdge(run, now);
    ReconcileHeader(run, now);
    var after := ReconcileRun(run, now);
    if run.status in LEASABLE_RUNS {
      var t, k := LeasableStep(after);
      NothingStaysLeased(run, now, t, k);
    } else if after.status == RunStatus.Cancelling {
      var t, s := RunningStep(after);
      NothingStaysLeased(run, now, t, s);
    }
  }

  lemma LeasableStep(run: Run) returns (t: nat, k: nat)
    requires RunShape(run) && run.status in LEASABLE_RUNS
    ensures CanProceed(run, t, k)
  {
    t := OpenTarget(run);
    k := OpenCanProceed(run, t);
  }

  lemma RunningStep(run: Run) returns (t: nat, s: nat)
    requires RunShape(run) && run.status == RunStatus.Cancelling
    ensures IsRunning(run, t, s)
  {
    t, s :| 0 <= t < |run.targets| && 0 <= s < |run.targets[t].steps|
            && run.targets[t].steps[s].status == RunStatus.Running;
  }

  lemma NothingStaysLeased(run: Run, now: int, t: nat, s: nat)
    requires RunShape(run) && Late(run, now) && HasStep(ReconcileRun(run, now), t, s)
    ensures var step := ReconcileRun(run, now).targets[t].steps[s];
      && step.status != RunStatus.Running
      && (step.status == RunStatus.WaitingRetry && step.retryDueAt.Some? ==> step.retryDueAt.value <= now)
  {
    ReconcileFacts(run, now);
    assert HasStep(run, t, s);
    var a, b := run.targets[t].steps[s], ReconcileRun(run, now).targets[t].steps[s];
    assert ReclaimedStep(run, (t, s) in Expired(run, now), a, b, now);
    StatusesInUse(run, t, s);
  }

  // ---------------------------------------------------------------- terminal states

  ghost predicate ConsistentEnding(run: Run) {
    && (run.status in {RunStatus.Succeeded, RunStatus.Failed} <==> AllOutcomesKnown(run.targets))
    && (run.status in {RunStatus.Succeeded, RunStatus.Failed} ==>
          && run.outcome.Some? && run.outcome.value != RunOutcome.Cancelled
          && (run.outcome.value == RunOutcome.Complete <==> AllOutcomesAre(run.targets, RunOutcome.Complete))
          && (run.outcome.value == RunOutcome.Failed <==> AllOutcomesAre(run.targets, RunOutcome.Failed))
          && (run.status == RunStatus.Failed <==> run.outcome.value == RunOutcome.Failed))
    && (run.status == RunStatus.Cancelled ==> run.outcome == Some(RunOutcome.Cancelled))
    && (run.outcome.Some? <==> run.status in TERMINAL)
  }

  /** A run is SUCCEEDED or FAILED exactly when every target has an outcome; its own outcome is
      then what the targets add up to, and nothing of a finished run can still be leased. */
  lemma TerminalRunsAreConsistent(trace: seq<Action>, maxGapLoops: nat, r: nat)
    requires r < |Exec(trace, maxGapLoops).runs|
    ensures var run := Exec(trace, maxGapLoops).runs[r];
      && ConsistentEnding(run)
      && (run.status in TERMINAL ==> forall t, s :: 0 <= t < |run.targets| && 0 <= s < |run.targets[t].steps| ==>
            run.targets[t].steps[s].status in {RunStatus.Succeeded, RunStatus.Failed, RunStatus.Cancelled})
  {
    ReachableRun(trace, maxGapLoops, r);
    ConsistentRun(Exec(trace, maxGapLoops).runs[r]);
    TerminalSteps(Exec(trace, maxGapLoops).runs[r]);
  }

  lemma ConsistentRun(run: Run)
    requires RunShape(run)
    ensures ConsistentEnding(run)
  {
    TerminalRun(run);
    AggregateMeans(run.targets);
  }

  lemma AggregateMeans(targets: seq<Target>)
    requires targets != []
    ensures AggregateOutcome(targets) == RunOutcome.Complete <==> AllOutcomesAre(targets, RunOutcome.Complete)
    ensures AggregateOutcome(targets) == RunOutcome.Failed <==> AllOutcomesAre(targets, RunOutcome.Failed)
    ensures AggregateOutcome(targets) != RunOutcome.Cancelled
  {
    if AllOutcomesAre(targets, RunOutcome.Failed) {
      assert targets[0].outcome != Some(RunOutcome.Complete);
    }
  }

  lemma TerminalRun(run: Run)
    requires RunShape(run)
    ensures run.status in {RunStatus.Succeeded, RunStatus.Failed} <==> AllOutcomesKnown(run.targets)
    ensures run.status in {RunStatus.Succeeded, RunStatus.Failed} ==>
      run.outcome == Some(AggregateOutcome(run.targets)) && run.status == AggregateStatus(run.targets)
    ensures run.status == RunStatus.Cancelled ==> run.outcome == Some(RunOutcome.Cancelled)
    ensures run.outcome.Some? <==> run.status in TERMINAL
    ensures run.targets != []
  {
    if AllOutcomesKnown(run.targets) {
      FinishKeepsShape(run);
    }
  }

  lemma TerminalSteps(run: Run)
    requires RunShape(run)
    ensures run.status in TERMINAL ==>
      forall t, s :: 0 <= t < |run.targets| && 0 <= s < |run.targets[t].steps| ==>
        run.targets[t].steps[s].status in {RunStatus.Succeeded, RunStatus.Failed, RunStatus.Cancelled}
  {
    if run.status in TERMINAL {
      forall t, s | 0 <= t < |run.targets| && 0 <= s < |run.targets[t].steps|
        ensures run.targets[t].steps[s].status in {RunStatus.Succeeded, RunStatus.Failed, RunStatus.Cancelled}
      {
        assert Settled(run.targets[t]) || (Stopping(run.targets[t]) && Idle(run.targets[t].steps));
      }
    }
  }

  // ---------------------------------------------------------------- attempts and fencing

  /** The attempts of every step are numbered 1..attemptCount, only the last may be RUNNING, and
      it is exactly when the step is. */
  lemma AttemptLedger(trace: seq<Action>, maxGapLoops: nat, id: StepId)
    requires HasId(Exec(trace, maxGapLoops), id)
    ensures var step := StepAt(Exec(trace, maxGapLoops), id);
      && |step.attempts| == step.attemptCount
      && (forall i :: 0 <= i < |step.attempts| ==> step.attempts[i].number == i + 1)
      && (forall i :: 0 <= i < |step.attempts| && step.attempts[i].status == RunStatus.Running ==>
            i == |step.attempts| - 1)
      && (step.status == RunStatus.Running <==>
            exists i :: 0 <= i < |step.attempts| && step.attempts[i].status == RunStatus.Running)
      && (step.status == RunStatus.Running <==> step.leaseExpiresAt.Some?)
  {
    ReachableRun(trace, maxGapLoops, id.run);
    StatusesInUse(Exec(trace, maxGapLoops).runs[id.run], id.target, id.step);
    LedgerMeans(StepAt(Exec(trace, maxGapLoops), id));
  }

  lemma LedgerMeans(step: Step)
    requires LedgerOk(step)
    ensures |step.attempts| == step.attemptCount
    ensures forall i :: 0 <= i < |step.attempts| ==> step.attempts[i].number == i + 1
    ensures forall i :: 0 <= i < |step.attempts| && step.attempts[i].status == RunStatus.Running ==>
      i == |step.attempts| - 1
    ensures step.status == RunStatus.Running <==>
      exists i :: 0 <= i < |step.attempts| && step.attempts[i].status == RunStatus.Running
    ensures step.status == RunStatus.Running <==> step.leaseExpiresAt.Some?
  {}

  /** The attempt this lease was issued for is over. */
  ghost predicate Spent(db: Db, lease: Lease) {
    && HasId(db, lease.id)
    && var step := StepAt(db, lease.id);
    && step.attemptCount >= lease.attemptNumber
    && (step.attemptCount == lease.attemptNumber ==> step.status != RunStatus.Running)
  }

  ghost predicate Carries(a: Action, lease: Lease) {
    match a
    case Succeed(l, _, _, _, _) => l == lease
    case ContinueLoop(l, _, _, _) => l == lease
    case Fail(l, _, _, _, _) => l == lease
    case Degrade(l, _, _, _) => l == lease
    case StopAtBoundary(l, _) => l == lease
    case _ => false
  }

  lemma {:induction false} SpentForever(trace: seq<Action>, more: seq<Action>, maxGapLoops: nat, lease: Lease)
    requires Spent(Exec(trace, maxGapLoops), lease)
    ensures Spent(Exec(trace + more, maxGapLoops), lease)
  {
    if more == [] {
      assert trace + more == trace;
    } else {
      var rest, last := more[..|more| - 1], more[|more| - 1];
      SpentForever(trace, rest, maxGapLoops, lease);
      assert trace + more == (trace + rest) + [last];
      NextStep(trace + rest, last, maxGapLoops, lease.id);
    }
  }

  /** A spent lease changes nothing, although the step may be leased again under the same owner. */
  lemma SpentDoesNothing(db: Db, a: Action, maxGapLoops: nat, lease: Lease)
    requires Spent(db, lease) && Carries(a, lease)
    ensures Apply(db, a, maxGapLoops) == db
  {}

  /** A lease that changed anything is spent. */
  lemma UsedIsSpent(db: Db, a: Action, maxGapLoops: nat, lease: Lease)
    requires DbOk(db, maxGapLoops) && Carries(a, lease) && Apply(db, a, maxGapLoops) != db
    ensures Spent(Apply(db, a, maxGapLoops), lease)
  {
    ActionKeeps(db, a, maxGapLoops);
    assert LeaseValid(db, lease, a.now);
    StepMoved(db, a, true, Apply(db, a, maxGapLoops), lease.id);
    HolderEnds(db, a, maxGapLoops, lease);
    NotLeasing(a, lease, db.runs[lease.id.run].maxAttempts, StepAt(db, lease.id),
               StepAt(Apply(db, a, maxGapLoops), lease.id));
  }

  lemma NotLeasing(a: Action, lease: Lease, maxAttempts: nat, before: Step, after: Step)
    requires Carries(a, lease)
    requires after == before
             || StepEdge(CauseOf(a, true), lease.id.target, lease.id.step, maxAttempts, before, after)
    ensures after.attemptCount == before.attemptCount
  {}

  lemma HolderEnds(db: Db, a: Action, maxGapLoops: nat, lease: Lease)
    requires Carries(a, lease) && Apply(db, a, maxGapLoops) != db && LeaseValid(db, lease, a.now)
    ensures HasId(Apply(db, a, maxGapLoops), lease.id)
    ensures StepAt(Apply(db, a, maxGapLoops), lease.id).status != RunStatus.Running
  {
    BoundaryEnds(db.runs[lease.id.run], lease.id.target, lease.id.step, a.now);
    match a
    case ContinueLoop(_, key, refs, now) => ContinueEnds(db, lease, key, refs, now);
    case Succeed(_, key, refs, outcome, now) => SucceedEnds(db, lease, key, refs, outcome, now);
    case Fail(_, error, retryable, retryAt, now) => FailEnds(db, lease, error, retryable, retryAt, now);
    case Degrade(_, error, workspaceTarget, now) => DegradeEnds(db, lease, error, workspaceTarget, now);
    case StopAtBoundary(_, _) =>
  }

  lemma SucceedEnds(
    db: Db, lease: Lease, key: string, outputRefs: seq<string>, outcome: Option<RunOutcome>, now: int)
    requires LeaseValid(db, lease, now) && key !in db.checkpoints
    ensures var after := CheckpointSuccess(db, lease, key, outputRefs, StepState(false, outcome), now).db;
      HasId(after, lease.id) && StepAt(after, lease.id).status != RunStatus.Running
  {
    var (run, t, s) := (db.runs[lease.id.run], lease.id.target, lease.id.step);
    BoundaryEnds(run, t, s, now);
    SucceedStepSucceeds(run, t, s, key, outputRefs, StepState(false, outcome), now);
  }

  lemma FailEnds(db: Db, lease: Lease, error: string, retryable: bool, retryAt: Option<int>, now: int)
    requires LeaseValid(db, lease, now)
    ensures var after := CheckpointFailure(db, lease, error, retryable, retryAt, now).db;
      after == db || (HasId(after, lease.id) && StepAt(after, lease.id).status != RunStatus.Running)
  {
    var (run, t, s) := (db.runs[lease.id.run], lease.id.target, lease.id.step);
    BoundaryEnds(run, t, s, now);
    CloseHeader(run, t, s, error, RunOutcome.Failed, {RunStatus.Pending}, now);
    if retryAt.Some? {
      RetryLaterHeader(run, t, s, error, retryAt.value, now);
    }
  }

  lemma DegradeEnds(db: Db, lease: Lease, error: string, workspaceTarget: Option<(nat, nat)>, now: int)
    requires LeaseValid(db, lease, now)
    ensures var after := CheckpointPartial(db, lease, error, workspaceTarget, now).db;
      after == db || (HasId(after, lease.id) && StepAt(after, lease.id).status != RunStatus.Running)
  {
    var (run, t, s) := (db.runs[lease.id.run], lease.id.target, lease.id.step);
    BoundaryEnds(run, t, s, now);
    CloseHeader(run, t, s, error, RunOutcome.Partial, {RunStatus.Pending, RunStatus.WaitingRetry}, now);
  }

  lemma ContinueEnds(db: Db, lease: Lease, key: string, outputRefs: seq<string>, now: int)
    requires LeaseValid(db, lease, now) && key !in db.checkpoints
    ensures var after := ContinueGapLoop(db, lease, key, outputRefs, now).db;
      HasId(after, lease.id) && StepAt(after, lease.id).status != RunStatus.Running
  {
    ContinueUnfolds(db, lease, key, outputRefs, now);
    var longer := ExtendTarget(db.runs[lease.id.run], lease.id.target);
    BoundaryEnds(longer, lease.id.target, lease.id.step, now);
    SucceedStepSucceeds(longer, lease.id.target, lease.id.step, key, outputRefs, StepState(true, None), now);
  }

  lemma BoundaryEnds(run: Run, t: nat, s: nat, now: int)
    requires HasStep(run, t, s)
    ensures HasStep(CancelAtBoundary(run, t, s, now), t, s)
    ensures CancelAtBoundary(run, t, s, now).targets[t].steps[s].status == RunStatus.Cancelled
  {}

  /** Over a whole history the actions that carry one lease change the state at most once. */
  lemma LeaseSettlesOnce(
    before: seq<Action>, first: Action, between: seq<Action>, second: Action, maxGapLoops: nat, lease: Lease)
    requires Carries(first, lease) && Carries(second, lease)
    requires Exec(before + [first], maxGapLoops) != Exec(before, maxGapLoops)
    ensures var later := before + [first] + between;
      Exec(later + [second], maxGapLoops) == Exec(later, maxGapLoops)
  {
    var later := before + [first] + between;
    FirstUseSpends(before, first, maxGapLoops, lease);
    SpentForever(before + [first], between, maxGapLoops, lease);
    Next(later, second, maxGapLoops);
    SpentDoesNothing(Exec(later, maxGapLoops), second, maxGapLoops, lease);
  }

  lemma FirstUseSpends(trace: seq<Action>, a: Action, maxGapLoops: nat, lease: Lease)
    requires Carries(a, lease) && Exec(trace + [a], maxGapLoops) != Exec(trace, maxGapLoops)
    ensures Spent(Exec(trace + [a], maxGapLoops), lease)
  {
    Next(trace, a, maxGapLoops);
    Reachable(trace, maxGapLoops);
    UsedIsSpent(Exec(trace, maxGapLoops), a, maxGapLoops, lease);
  }

  /** A reclaim fences the old worker off for good: whatever happens in between, even a new lease
      of the same step to the same owner, its lease changes nothing any more. */
  lemma ReclaimFencesForGood(trace: seq<Action>, more: seq<Action>, a: Action, maxGapLoops: nat, lease: Lease, now: int)
    requires HasId(Exec(trace, maxGapLoops), lease.id)
    requires var step := StepAt(Exec(trace, maxGapLoops), lease.id);
      && step.status == RunStatus.Running && step.attemptCount == lease.attemptNumber
      && step.leaseExpiresAt.Some? && step.leaseExpiresAt.value < now
    requires Carries(a, lease)
    ensures var later := trace + [ReconcileStartup(now)] + more;
      Exec(later + [a], maxGapLoops) == Exec(later, maxGapLoops)
  {
    var reclaim := ReconcileStartup(now);
    ReclaimSpends(trace, maxGapLoops, lease, now);
    SpentForever(trace + [reclaim], more, maxGapLoops, lease);
    var later := trace + [reclaim] + more;
    Next(later, a, maxGapLoops);
    SpentDoesNothing(Exec(later, maxGapLoops), a, maxGapLoops, lease);
  }

  lemma ReclaimSpends(trace: seq<Action>, maxGapLoops: nat, lease: Lease, now: int)
    requires HasId(Exec(trace, maxGapLoops), lease.id)
    requires var step := StepAt(Exec(trace, maxGapLoops), lease.id);
      && step.status == RunStatus.Running && step.attemptCount == lease.attemptNumber
      && step.leaseExpiresAt.Some? && step.leaseExpiresAt.value < now
    ensures Spent(Exec(trace + [ReconcileStartup(now)], maxGapLoops), lease)
  {
    Next(trace, ReconcileStartup(now), maxGapLoops);
    ReachableRun(trace, maxGapLoops, lease.id.run);
    ReclaimedInRun(Exec(trace, maxGapLoops).runs[lease.id.run], lease.id.target, lease.id.step, now);
  }

  /** A reclaimed step keeps its attempt count and is no longer leased. */
  lemma ReclaimedInRun(run: Run, t: nat, s: nat, now: int)
    requires RunShape(run) && HasStep(run, t, s) && ExpiredStep(run, t, s, now)
    ensures var after := ReconcileRun(run, now);
      && HasStep(after, t, s)
      && after.targets[t].steps[s].attemptCount == run.targets[t].steps[s].attemptCount
      && after.targets[t].steps[s].status != RunStatus.Running
  {
    ReconcileFacts(run, now);
    assert (t, s) in Expired(run, now);
    assert ReclaimedStep(run, true, run.targets[t].steps[s], ReconcileRun(run, now).targets[t].steps[s], now);
  }

  // ---------------------------------------------------------------- checkpoints and keys

  /** Succeeded steps and checkpoints correspond one to one. */
  lemma CheckpointsAreSuccesses(trace: seq<Action>, maxGapLoops: nat)
    ensures var db := Exec(trace, maxGapLoops);
      && (forall key :: key in db.checkpoints ==>
            HasId(db, db.checkpoints[key].id) && StepAt(db, db.checkpoints[key].id).status == RunStatus.Succeeded)
      && (forall id :: HasId(db, id) && StepAt(db, id).status == RunStatus.Succeeded ==>
            exists key :: key in db.checkpoints && db.checkpoints[key].id == id
                          && forall l :: l in db.checkpoints && db.checkpoints[l].id == id ==> l == key)
  {
    Reachable(trace, maxGapLoops);
    var db := Exec(trace, maxGapLoops);
    forall key | key in db.checkpoints
      ensures HasId(db, db.checkpoints[key].id) && StepAt(db, db.checkpoints[key].id).status == RunStatus.Succeeded
    {
      assert CheckpointOk(db, key, db.checkpoints[key]);
    }
    forall id | HasId(db, id) && StepAt(db, id).status == RunStatus.Succeeded
      ensures exists key :: key in db.checkpoints && db.checkpoints[key].id == id
                            && forall l :: l in db.checkpoints && db.checkpoints[l].id == id ==> l == key
    {
      assert HasCheckpoint(db, id);
      var key :| key in db.checkpoints && db.checkpoints[key].id == id;
    }
  }

  /** Checkpointing again under a used effect key returns what was stored then and changes nothing,
      at any later time and whatever the lease. */
  lemma {:induction false} ReplayReturnsTheStored(
    trace: seq<Action>, more: seq<Action>, maxGapLoops: nat, key: string, lease: Lease, outputRefs: seq<string>,
    state: StepState, now: int)
    requires key in Exec(trace, maxGapLoops).checkpoints
    ensures var db := Exec(trace + more, maxGapLoops);
      CheckpointSuccess(db, lease, key, outputRefs, state, now)
      == Tx(db, Ok(Some(Exec(trace, maxGapLoops).checkpoints[key])))
  {
    if more == [] {
      assert trace + more == trace;
    } else {
      var rest, last := more[..|more| - 1], more[|more| - 1];
      ReplayReturnsTheStored(trace, rest, maxGapLoops, key, lease, outputRefs, state, now);
      assert trace + more == (trace + rest) + [last];
      Next(trace + rest, last, maxGapLoops);
      CheckpointsStay(Exec(trace + rest, maxGapLoops), last, maxGapLoops, key);
    }
  }

  lemma CheckpointsStay(db: Db, a: Action, maxGapLoops: nat, key: string)
    requires key in db.checkpoints
    ensures var after := Apply(db, a, maxGapLoops);
      key in after.checkpoints && after.checkpoints[key] == db.checkpoints[key]
  {
    if a.ContinueLoop? && MayContinue(db, a.lease, maxGapLoops)
       && a.effectKey !in db.checkpoints && LeaseValid(db, a.lease, a.now) {
      ContinueUnfolds(db, a.lease, a.effectKey, a.outputRefs, a.now);
    }
  }

  /** The outbox key of an event: all but a success's contain the run's id. */
  function OutboxKey(r: nat, e: Event): (Option<nat>, Event) {
    (if e.StepSucceeded? then None else Some(r), e)
  }

  /** No effect key ever enters the outbox twice, in one run or in two, retries included. */
  lemma OutboxKeysAreUnique(trace: seq<Action>, maxGapLoops: nat, r: nat, i: nat, q: nat, j: nat)
    requires var db := Exec(trace, maxGapLoops);
      && r < |db.runs| && i < |db.runs[r].events| && q < |db.runs| && j < |db.runs[q].events|
      && OutboxKey(r, db.runs[r].events[i]) == OutboxKey(q, db.runs[q].events[j])
    ensures r == q && i == j
  {
    var db := Exec(trace, maxGapLoops);
    var e := db.runs[r].events[i];
    assert e in db.runs[r].events && e in db.runs[q].events;
    if e.StepSucceeded? {
      SuccessKnowsItsRun(trace, maxGapLoops, r, e.effectKey);
      SuccessKnowsItsRun(trace, maxGapLoops, q, e.effectKey);
    }
    DistinctEvents(trace, maxGapLoops, r);
  }

  lemma SuccessKnowsItsRun(trace: seq<Action>, maxGapLoops: nat, r: nat, key: string)
    requires r < |Exec(trace, maxGapLoops).runs| && StepSucceeded(key) in Exec(trace, maxGapLoops).runs[r].events
    ensures var db := Exec(trace, maxGapLoops);
      key in db.checkpoints && db.checkpoints[key].id.run == r
  {
    Reachable(trace, maxGapLoops);
  }

  lemma DistinctEvents(trace: seq<Action>, maxGapLoops: nat, r: nat)
    requires r < |Exec(trace, maxGapLoops).runs|
    ensures Distinct(Exec(trace, maxGapLoops).runs[r].events)
  {
    ReachableRun(trace, maxGapLoops, r);
  }

  /** Step idempotency keys are unique within a target; the other targets' keys name other ids. */
  lemma StepKeysAreUnique(trace: seq<Action>, maxGapLoops: nat, a: StepId, b: StepId)
    requires var db := Exec(trace, maxGapLoops);
      && HasId(db, a) && HasId(db, b) && a.run == b.run && a.target == b.target
      && StepAt(db, a).key == StepAt(db, b).key
    ensures a == b
  {
    ReachableRun(trace, maxGapLoops, a.run);
    var run := Exec(trace, maxGapLoops).runs[a.run];
    assert TargetRecords(run.targets[a.target], maxGapLoops, RetriedCount(run.events));
  }

  /** A cancel request violates the outbox's unique index exactly when the run is already being
      cancelled, and is refused exactly when the run is over. */
  lemma CancelTwiceIsRejected(trace: seq<Action>, maxGapLoops: nat, r: nat, now: int)
    requires r < |Exec(trace, maxGapLoops).runs|
    ensures var db := Exec(trace, maxGapLoops);
      RequestCancel(db, r, now).result
      == (if db.runs[r].status == RunStatus.Cancelling then Err(Integrity)
          else if db.runs[r].status in TERMINAL then Err(IllegalTransition)
          else Ok(()))
  {
    ReachableRun(trace, maxGapLoops, r);
    var run := Exec(trace, maxGapLoops).runs[r];
    assert CancelRequested in run.events ==> EventOk(run, CancelRequested);
  }

  /** The key a run was created under leads back to it for ever: the same command again returns
      the run, any other command conflicts. */
  lemma {:induction false} CreateIsIdempotent(
    trace: seq<Action>, more: seq<Action>, maxGapLoops: nat, r: nat, command: CreateCommand)
    requires r < |Exec(trace, maxGapLoops).runs|
    ensures var (run, db) := (Exec(trace, maxGapLoops).runs[r], Exec(trace + more, maxGapLoops));
      && r < |db.runs| && db.runs[r].idempotencyKey == run.idempotencyKey && db.runs[r].payload == run.payload
      && Create(db, command, run.idempotencyKey)
         == Tx(db, if command == run.payload then Ok(r) else Err(IdempotencyConflict))
  {
    if more == [] {
      assert trace + more == trace;
    } else {
      var rest, last := more[..|more| - 1], more[|more| - 1];
      CreateIsIdempotent(trace, rest, maxGapLoops, r, command);
      assert trace + more == (trace + rest) + [last];
      NextRun(trace + rest, last, maxGapLoops, r);
    }
    KeyLeadsToRun(trace + more, maxGapLoops, r);
  }

  lemma KeyLeadsToRun(trace: seq<Action>, maxGapLoops: nat, r: nat)
    requires r < |Exec(trace, maxGapLoops).runs|
    ensures FindByKey(Exec(trace, maxGapLoops).runs, Exec(trace, maxGapLoops).runs[r].idempotencyKey) == Some(r)
  {
    Reachable(trace, maxGapLoops);
  }

  /** Nothing ever waits for input, so `resume` always refuses. */
  lemma ResumeAlwaysRefuses(trace: seq<Action>, maxGapLoops: nat, r: nat)
    ensures var db := Exec(trace, maxGapLoops);
      Resume(db, r) == Tx(db, Err(if r < |db.runs| then IllegalTransition else RunNotFound))
  {
    if r < |Exec(trace, maxGapLoops).runs| {
      NotWaitingInput(trace, maxGapLoops, r);
    }
  }
}
