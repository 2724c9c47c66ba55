/** Every run ends: how many leases a history can grant. */
module RunBudget {
  import opened Domain
  import opened RunRows
  import opened RunOperations
  import opened RunInvariants
  import opened RunMoves
  import opened RunRecords
  import opened RunHistory
  import opened RunTheorems

  // ---------------------------------------------------------------- sums over a run's steps

  function SumSteps(steps: seq<Step>, weight: Step -> nat): nat {
    if steps == [] then 0 else SumSteps(steps[..|steps| - 1], weight) + weight(steps[|steps| - 1])
  }

  function SumTargets(targets: seq<Target>, weight: Step -> nat): nat {
    if targets == [] then 0
    else SumTargets(targets[..|targets| - 1], weight) + SumSteps(targets[|targets| - 1].steps, weight)
  }

  function AttemptsOf(step: Step): nat { step.attemptCount }

  function ReclaimsOf(step: Step): nat { Reclaims(step.attempts) }

  function InFlight(step: Step): nat { if step.status == RunStatus.Running then 1 else 0 }

  /** All leases ever granted on the run, by its steps' own count. */
  function TotalAttempts(run: Run): nat { SumTargets(run.targets, AttemptsOf) }

  function TotalReclaims(run: Run): nat { SumTargets(run.targets, ReclaimsOf) }

  function RunningCount(run: Run): nat { SumTargets(run.targets, InFlight) }

  lemma {:induction false} SumStepsSame(a: seq<Step>, b: seq<Step>, weight: Step -> nat)
    requires |a| <= |b|
    requires forall i :: 0 <= i < |a| ==> weight(b[i]) == weight(a[i])
    requires forall i :: |a| <= i < |b| ==> weight(b[i]) == 0
    ensures SumSteps(b, weight) == SumSteps(a, weight)
    decreases |b|
  {
    if |b| > |a| {
      SumStepsSame(a, b[..|b| - 1], weight);
    } else if a != [] {
      SumStepsSame(a[..|a| - 1], b[..|b| - 1], weight);
    }
  }

  lemma {:induction false} SumStepsLess(a: seq<Step>, b: seq<Step>, weight: Step -> nat)
    requires |a| <= |b|
    requires forall i :: 0 <= i < |a| ==> weight(b[i]) <= weight(a[i])
    requires forall i :: |a| <= i < |b| ==> weight(b[i]) == 0
    ensures SumSteps(b, weight) <= SumSteps(a, weight)
    ensures (exists i :: 0 <= i < |a| && weight(b[i]) < weight(a[i])) ==> SumSteps(b, weight) < SumSteps(a, weight)
    decreases |b|
  {
    if |b| > |a| {
      SumStepsLess(a, b[..|b| - 1], weight);
      assert forall i :: 0 <= i < |a| ==> b[..|b| - 1][i] == b[i];
    } else if a != [] {
      SumStepsLess(a[..|a| - 1], b[..|b| - 1], weight);
      if exists i :: 0 <= i < |a| && weight(b[i]) < weight(a[i]) {
        var i :| 0 <= i < |a| && weight(b[i]) < weight(a[i]);
        assert i < |a| - 1 ==> b[..|b| - 1][i] == b[i] && a[..|a| - 1][i] == a[i];
      }
    }
  }

  lemma {:induction false} SumStepsOneMore(a: seq<Step>, s: nat, step: Step, weight: Step -> nat)
    requires s < |a| && weight(step) == weight(a[s]) + 1
    ensures SumSteps(a[s := step], weight) == SumSteps(a, weight) + 1
  {
    var n := |a| - 1;
    if s < n {
      SumStepsOneMore(a[..n], s, step, weight);
      assert a[s := step][..n] == a[..n][s := step];
    } else {
      assert a[s := step][..n] == a[..n];
    }
  }

  lemma {:induction false} SumStepsBound(steps: seq<Step>, n: nat)
    requires forall i :: 0 <= i < |steps| ==> AttemptsOf(steps[i]) <= n + ReclaimsOf(steps[i])
    ensures SumSteps(steps, AttemptsOf) <= |steps| * n + SumSteps(steps, ReclaimsOf)
  {
    if steps != [] {
      SumStepsBound(steps[..|steps| - 1], n);
      assert |steps| * n == (|steps| - 1) * n + n;
    }
  }

  lemma {:induction false} SumTargetsSame(a: seq<Target>, b: seq<Target>, weight: Step -> nat)
    requires |a| == |b|
    requires forall t :: 0 <= t < |a| ==> SumSteps(b[t].steps, weight) == SumSteps(a[t].steps, weight)
    ensures SumTargets(b, weight) == SumTargets(a, weight)
  {
    if a != [] {
      SumTargetsSame(a[..|a| - 1], b[..|b| - 1], weight);
    }
  }

  lemma {:induction false} SumTargetsLess(a: seq<Target>, b: seq<Target>, weight: Step -> nat)
    requires |a| == |b|
    requires forall t :: 0 <= t < |a| ==> SumSteps(b[t].steps, weight) <= SumSteps(a[t].steps, weight)
    ensures SumTargets(b, weight) <= SumTargets(a, weight)
    ensures (exists t :: 0 <= t < |a| && SumSteps(b[t].steps, weight) < SumSteps(a[t].steps, weight)) ==>
      SumTargets(b, weight) < SumTargets(a, weight)
  {
    if a != [] {
      SumTargetsLess(a[..|a| - 1], b[..|b| - 1], weight);
      if exists t :: 0 <= t < |a| && SumSteps(b[t].steps, weight) < SumSteps(a[t].steps, weight) {
        var t :| 0 <= t < |a| && SumSteps(b[t].steps, weight) < SumSteps(a[t].steps, weight);
        assert t < |a| - 1 ==> b[..|b| - 1][t] == b[t] && a[..|a| - 1][t] == a[t];
      }
    }
  }

  lemma {:induction false} SumTargetsOneMore(a: seq<Target>, t: nat, target: Target, weight: Step -> nat)
    requires t < |a| && SumSteps(target.steps, weight) == SumSteps(a[t].steps, weight) + 1
    ensures SumTargets(a[t := target], weight) == SumTargets(a, weight) + 1
  {
    var n := |a| - 1;
    if t < n {
      SumTargetsOneMore(a[..n], t, target, weight);
      assert a[t := target][..n] == a[..n][t := target];
    } else {
      assert a[t := target][..n] == a[..n];
    }
  }

  lemma {:induction false} SumTargetsBound(targets: seq<Target>, n: nat, perTarget: nat)
    requires forall t :: 0 <= t < |targets| ==> |targets[t].steps| * n <= perTarget
    requires forall t, i :: 0 <= t < |targets| && 0 <= i < |targets[t].steps| ==>
      AttemptsOf(targets[t].steps[i]) <= n + ReclaimsOf(targets[t].steps[i])
    ensures SumTargets(targets, AttemptsOf) <= |targets| * perTarget + SumTargets(targets, ReclaimsOf)
  {
    if targets != [] {
      var rest, last := targets[..|targets| - 1], targets[|targets| - 1];
      SumTargetsBound(rest, n, perTarget);
      SumStepsBound(last.steps, n);
      MulAdd(|rest|, 1, perTarget);
    }
  }

  lemma MulMonotone(a: nat, b: nat, n: nat)
    requires a <= b
    ensures a * n <= b * n
  {}

  lemma MulAdd(a: nat, b: nat, n: nat)
    ensures (a + b) * n == a * n + b * n
  {}

  // ---------------------------------------------------------------- leases granted by a history

  /** How many leases on run `r` the history grants. */
  ghost function LeasesGranted(trace: seq<Action>, maxGapLoops: nat, r: nat): nat {
    if trace == [] then 0
    else
      var (before, a) := (trace[..|trace| - 1], trace[|trace| - 1]);
      LeasesGranted(before, maxGapLoops, r)
      + (if GrantsOn(Exec(before, maxGapLoops), a, r) then 1 else 0)
  }

  ghost predicate GrantsOn(db: Db, a: Action, r: nat) {
    a.LeaseNext? && a.id.run == r && Eligible(db, a.id, a.now)
  }

  /** Without a lease no attempt is counted. */
  lemma QuietAttempts(cause: Cause, a: Run, b: Run)
    requires RunEdge(cause, a, b) && !cause.ByLease?
    ensures TotalAttempts(b) == TotalAttempts(a)
  {
    forall t | 0 <= t < |a.targets|
      ensures SumSteps(b.targets[t].steps, AttemptsOf) == SumSteps(a.targets[t].steps, AttemptsOf)
    {
      QuietTarget(cause, t, a.maxAttempts, a.targets[t], b.targets[t]);
    }
    SumTargetsSame(a.targets, b.targets, AttemptsOf);
  }

  lemma QuietTarget(cause: Cause, t: nat, maxAttempts: nat, a: Target, b: Target)
    requires TargetEdge(cause, t, maxAttempts, a, b) && !cause.ByLease?
    ensures SumSteps(b.steps, AttemptsOf) == SumSteps(a.steps, AttemptsOf)
  {
    forall s | 0 <= s < |a.steps| ensures AttemptsOf(b.steps[s]) == AttemptsOf(a.steps[s]) {
      assert StepEdge(cause, t, s, maxAttempts, a.steps[s], b.steps[s]);
    }
    SumStepsSame(a.steps, b.steps, AttemptsOf);
  }

  lemma LeaseCounts(run: Run, t: nat, s: nat, owner: string, now: int, duration: int)
    requires HasStep(run, t, s)
    ensures TotalAttempts(LeaseStep(run, t, s, owner, now, duration)) == TotalAttempts(run) + 1
  {
    var step := LeaseRow(run.targets[t].steps[s], owner, now, duration);
    SumStepsOneMore(run.targets[t].steps, s, step, AttemptsOf);
    var target := run.targets[t].(steps := run.targets[t].steps[s := step]);
    SumTargetsOneMore(run.targets, t, target, AttemptsOf);
    assert LeaseStep(run, t, s, owner, now, duration).targets == run.targets[t := target];
  }

  lemma {:induction false} FreshTargets(targets: seq<Target>)
    requires forall t :: 0 <= t < |targets| ==> targets[t].steps == InitialSteps()
    ensures SumTargets(targets, AttemptsOf) == 0
  {
    if targets != [] {
      FreshTargets(targets[..|targets| - 1]);
      SumStepsSame([], InitialSteps(), AttemptsOf);
    }
  }

  /** A lease is granted exactly when some step's attempt count goes up by one. */
  lemma {:induction false} AttemptsCountLeases(trace: seq<Action>, maxGapLoops: nat, r: nat)
    ensures LeasesGranted(trace, maxGapLoops, r)
         == if r < |Exec(trace, maxGapLoops).runs| then TotalAttempts(Exec(trace, maxGapLoops).runs[r]) else 0
  {
    if trace != [] {
      var (before, a) := (trace[..|trace| - 1], trace[|trace| - 1]);
      AttemptsCountLeases(before, maxGapLoops, r);
      assert trace == before + [a];
      OneActionCounts(before, a, maxGapLoops, r);
    }
  }

  lemma OneActionCounts(before: seq<Action>, a: Action, maxGapLoops: nat, r: nat)
    ensures var (db, after) := (Exec(before, maxGapLoops), Exec(before + [a], maxGapLoops));
      && (r < |db.runs| ==> r < |after.runs|)
      && (r < |after.runs| ==>
            TotalAttempts(after.runs[r])
            == (if r < |db.runs| then TotalAttempts(db.runs[r]) else 0) + (if GrantsOn(db, a, r) then 1 else 0))
      && (r >= |after.runs| ==> !GrantsOn(db, a, r))
  {
    Next(before, a, maxGapLoops);
    var (db, after) := (Exec(before, maxGapLoops), Exec(before + [a], maxGapLoops));
    if r < |db.runs| {
      NextRun(before, a, maxGapLoops, r);
      if GrantsOn(db, a, r) {
        LeaseCounts(db.runs[r], a.id.target, a.id.step, a.owner, a.now, a.duration);
      } else if after.runs[r] != db.runs[r] {
        assert !a.LeaseNext?;
        QuietAttempts(CauseOf(a, true), db.runs[r], after.runs[r]);
      }
    } else if r < |after.runs| {
      OnlyCreateAdds(db, a, maxGapLoops, r);
      FreshTargets(after.runs[r].targets);
    }
  }

  lemma OnlyCreateAdds(db: Db, a: Action, maxGapLoops: nat, r: nat)
    requires |db.runs| <= r < |Apply(db, a, maxGapLoops).runs|
    ensures a.CreateRun?
    ensures forall t :: 0 <= t < |Apply(db, a, maxGapLoops).runs[r].targets| ==>
      Apply(db, a, maxGapLoops).runs[r].targets[t].steps == InitialSteps()
  {
    if a.ContinueLoop? && MayContinue(db, a.lease, maxGapLoops)
       && a.effectKey !in db.checkpoints && LeaseValid(db, a.lease, a.now) {
      ContinueUnfolds(db, a.lease, a.effectKey, a.outputRefs, a.now);
    }
  }

  // ---------------------------------------------------------------- the budget of one step

  /** How often a manual retry put this step back to WAITING_RETRY. */
  ghost function ManualRetries(trace: seq<Action>, maxGapLoops: nat, id: StepId): nat {
    if trace == [] then 0
    else
      var (before, a) := (trace[..|trace| - 1], trace[|trace| - 1]);
      ManualRetries(before, maxGapLoops, id)
      + (if RetriesStep(Exec(before, maxGapLoops), a, maxGapLoops, id) then 1 else 0)
  }

  ghost predicate RetriesStep(db: Db, a: Action, maxGapLoops: nat, id: StepId) {
    && a.RetryAgain? && HasId(db, id) && HasId(Apply(db, a, maxGapLoops), id)
    && StepAt(db, id).status == RunStatus.Failed
    && StepAt(Apply(db, a, maxGapLoops), id).status == RunStatus.WaitingRetry
  }

  ghost predicate WithinBudget(step: Step, maxAttempts: nat, retries: nat) {
    && step.attemptCount <= maxAttempts + Reclaims(step.attempts) + retries
    && (step.status in {RunStatus.Pending, RunStatus.WaitingRetry} ==>
          step.attemptCount < maxAttempts + Reclaims(step.attempts) + retries)
  }

  lemma EdgeKeepsBudget(
    cause: Cause, t: nat, s: nat, maxAttempts: nat, a: Step, b: Step, retries: nat, retriesAfter: nat)
    requires StepEdge(cause, t, s, maxAttempts, a, b) && LedgerOk(a) && maxAttempts >= 1
    requires WithinBudget(a, maxAttempts, retries) && retries <= retriesAfter
    requires a.status == RunStatus.Failed && b.status == RunStatus.WaitingRetry && cause.ByRetry? ==>
      retries < retriesAfter
    ensures WithinBudget(b, maxAttempts, retriesAfter)
  {}

  /** A step is never leased more often than the run's budget, plus once for every time its lease
      was taken back and every time it was retried by hand. */
  lemma {:induction false} AttemptBudget(trace: seq<Action>, maxGapLoops: nat, id: StepId)
    requires HasId(Exec(trace, maxGapLoops), id)
    ensures var db := Exec(trace, maxGapLoops);
      WithinBudget(StepAt(db, id), db.runs[id.run].maxAttempts, ManualRetries(trace, maxGapLoops, id))
  {
    assert trace != [];
    var (before, a) := (trace[..|trace| - 1], trace[|trace| - 1]);
    assert trace == before + [a];
    var db := Exec(before, maxGapLoops);
    if HasId(db, id) {
      AttemptBudget(before, maxGapLoops, id);
      BudgetStep(before, a, maxGapLoops, id, ManualRetries(before, maxGapLoops, id));
    } else {
      NewStepHasBudget(before, a, maxGapLoops, id);
    }
  }

  lemma BudgetStep(before: seq<Action>, a: Action, maxGapLoops: nat, id: StepId, retries: nat)
    requires HasId(Exec(before, maxGapLoops), id)
    requires var db := Exec(before, maxGapLoops);
      WithinBudget(StepAt(db, id), db.runs[id.run].maxAttempts, retries)
    ensures HasId(Exec(before + [a], maxGapLoops), id)
    ensures var (db, after) := (Exec(before, maxGapLoops), Exec(before + [a], maxGapLoops));
      WithinBudget(StepAt(after, id), after.runs[id.run].maxAttempts,
                   retries + (if RetriesStep(db, a, maxGapLoops, id) then 1 else 0))
  {
    NextStep(before, a, maxGapLoops, id);
    Next(before, a, maxGapLoops);
    LedgerAt(before, maxGapLoops, id);
    var (db, after) := (Exec(before, maxGapLoops), Exec(before + [a], maxGapLoops));
    if StepAt(after, id) != StepAt(db, id) {
      EdgeKeepsBudget(CauseOf(a, true), id.target, id.step, db.runs[id.run].maxAttempts, StepAt(db, id),
                      StepAt(after, id), retries,
                      retries + (if RetriesStep(db, a, maxGapLoops, id) then 1 else 0));
    }
  }

  lemma LedgerAt(trace: seq<Action>, maxGapLoops: nat, id: StepId)
    requires HasId(Exec(trace, maxGapLoops), id)
    ensures LedgerOk(StepAt(Exec(trace, maxGapLoops), id))
    ensures Exec(trace, maxGapLoops).runs[id.run].maxAttempts >= 1
  {
    ReachableRun(trace, maxGapLoops, id.run);
    StatusesInUse(Exec(trace, maxGapLoops).runs[id.run], id.target, id.step);
  }

  lemma NewStepHasBudget(before: seq<Action>, a: Action, maxGapLoops: nat, id: StepId)
    requires !HasId(Exec(before, maxGapLoops), id) && HasId(Exec(before + [a], maxGapLoops), id)
    ensures var after := Exec(before + [a], maxGapLoops);
      forall retries: nat :: WithinBudget(StepAt(after, id), after.runs[id.run].maxAttempts, retries)
  {
    Next(before, a, maxGapLoops);
    LedgerAt(before + [a], maxGapLoops, id);
    NewStepCount(before, a, maxGapLoops, id);
  }

  lemma NewStepCount(before: seq<Action>, a: Action, maxGapLoops: nat, id: StepId)
    requires !HasId(Exec(before, maxGapLoops), id) && HasId(Exec(before + [a], maxGapLoops), id)
    ensures StepAt(Exec(before + [a], maxGapLoops), id).attemptCount == 0
  {
    Next(before, a, maxGapLoops);
    var (db, after) := (Exec(before, maxGapLoops), Exec(before + [a], maxGapLoops));
    if id.run < |db.runs| {
      Reachable(before, maxGapLoops);
      ActionKeeps(db, a, maxGapLoops);
      NewStepFresh(db, a, true, after, id);
    } else {
      OnlyCreateAdds(db, a, maxGapLoops, id.run);
      assert after.runs[id.run].targets[id.target].steps == InitialSteps();
    }
  }

  /** Each manual retry of a step is announced as a retry of its run. */
  lemma {:induction false} RetriesAreAnnounced(trace: seq<Action>, maxGapLoops: nat, id: StepId)
    ensures ManualRetries(trace, maxGapLoops, id)
         <= if id.run < |Exec(trace, maxGapLoops).runs|
            then RetriedCount(Exec(trace, maxGapLoops).runs[id.run].events) else 0
  {
    if trace != [] {
      var (before, a) := (trace[..|trace| - 1], trace[|trace| - 1]);
      assert trace == before + [a];
      RetriesAreAnnounced(before, maxGapLoops, id);
      Next(before, a, maxGapLoops);
      var (db, after) := (Exec(before, maxGapLoops), Exec(trace, maxGapLoops));
      if id.run < |db.runs| {
        NextRun(before, a, maxGapLoops, id.run);
        RetriedCountGrows(db.runs[id.run].events, after.runs[id.run].events);
        if RetriesStep(db, a, maxGapLoops, id) {
          RetryAnnounces(db, a, maxGapLoops, id);
        }
      }
    }
  }

  lemma RetryAnnounces(db: Db, a: Action, maxGapLoops: nat, id: StepId)
    requires RetriesStep(db, a, maxGapLoops, id)
    ensures RetriedCount(Apply(db, a, maxGapLoops).runs[id.run].events) == RetriedCount(db.runs[id.run].events) + 1
  {
    RetriedCountAppend(db.runs[id.run].events, RunRetried(RetriedCount(db.runs[id.run].events) + 1));
  }

  // ---------------------------------------------------------------- the budget of a run

  /** Ten steps and nine more per extension, each with so many attempts. */
  function LeasesPerTarget(attempts: nat, extensions: nat): nat {
    (10 + 9 * extensions) * attempts
  }

  ghost predicate StepsWithin(run: Run, n: nat) {
    forall t, i :: 0 <= t < |run.targets| && 0 <= i < |run.targets[t].steps| ==>
      AttemptsOf(run.targets[t].steps[i]) <= n + ReclaimsOf(run.targets[t].steps[i])
  }

  ghost predicate LengthsWithin(run: Run, extensions: nat) {
    forall t :: 0 <= t < |run.targets| ==> |run.targets[t].steps| <= 10 + 9 * extensions
  }

  /** What the run's size, budget and retry count allow, reclaims apart. */
  function LeaseLimit(run: Run, maxGapLoops: nat): nat {
    var retries := RetriedCount(run.events);
    |run.targets| * LeasesPerTarget(run.maxAttempts + retries, maxGapLoops + retries)
  }

  lemma RunBound(run: Run, maxGapLoops: nat)
    requires StepsWithin(run, run.maxAttempts + RetriedCount(run.events))
    requires LengthsWithin(run, maxGapLoops + RetriedCount(run.events))
    ensures TotalAttempts(run) <= LeaseLimit(run, maxGapLoops) + TotalReclaims(run)
  {
    var n, extensions := run.maxAttempts + RetriedCount(run.events), maxGapLoops + RetriedCount(run.events);
    forall t | 0 <= t < |run.targets| ensures |run.targets[t].steps| * n <= LeasesPerTarget(n, extensions) {
      MulMonotone(|run.targets[t].steps|, 10 + 9 * extensions, n);
    }
    SumTargetsBound(run.targets, n, LeasesPerTarget(n, extensions));
  }

  lemma StepsStayWithin(trace: seq<Action>, maxGapLoops: nat, r: nat)
    requires r < |Exec(trace, maxGapLoops).runs|
    ensures var run := Exec(trace, maxGapLoops).runs[r];
      StepsWithin(run, run.maxAttempts + RetriedCount(run.events))
      && LengthsWithin(run, maxGapLoops + RetriedCount(run.events))
  {
    var run := Exec(trace, maxGapLoops).runs[r];
    forall t, i | 0 <= t < |run.targets| && 0 <= i < |run.targets[t].steps|
      ensures AttemptsOf(run.targets[t].steps[i])
           <= run.maxAttempts + RetriedCount(run.events) + ReclaimsOf(run.targets[t].steps[i])
    {
      AttemptBudget(trace, maxGapLoops, StepId(r, t, i));
      RetriesAreAnnounced(trace, maxGapLoops, StepId(r, t, i));
    }
    ReachableRun(trace, maxGapLoops, r);
    SizesBounded(run, maxGapLoops);
  }

  /** All leases of a run, whatever happened: gap loops and manual retries lengthen its targets,
      manual retries and reclaims allow further attempts, nothing else does. */
  lemma LeasesAreBounded(trace: seq<Action>, maxGapLoops: nat, r: nat)
    requires r < |Exec(trace, maxGapLoops).runs|
    ensures var run := Exec(trace, maxGapLoops).runs[r];
      LeasesGranted(trace, maxGapLoops, r) <= LeaseLimit(run, maxGapLoops) + TotalReclaims(run)
  {
    AttemptsCountLeases(trace, maxGapLoops, r);
    StepsStayWithin(trace, maxGapLoops, r);
    RunBound(Exec(trace, maxGapLoops).runs[r], maxGapLoops);
  }

  lemma SizesBounded(run: Run, maxGapLoops: nat)
    requires RecordsOk(run, maxGapLoops)
    ensures forall t :: 0 <= t < |run.targets| ==>
      |run.targets[t].steps| <= 10 + 9 * (maxGapLoops + RetriedCount(run.events))
  {
    forall t | 0 <= t < |run.targets|
      ensures |run.targets[t].steps| <= 10 + 9 * (maxGapLoops + RetriedCount(run.events))
    {
      assert TargetRecords(run.targets[t], maxGapLoops, RetriedCount(run.events));
    }
  }

  /** A run of which nothing was taken back and which was not retried by hand got at most
      targets * (10 + 9 * maxGapLoops) * maxAttempts leases. */
  lemma UndisturbedRunsEnd(trace: seq<Action>, maxGapLoops: nat, r: nat)
    requires r < |Exec(trace, maxGapLoops).runs|
    requires var run := Exec(trace, maxGapLoops).runs[r]; TotalReclaims(run) == 0 && RetriedCount(run.events) == 0
    ensures var run := Exec(trace, maxGapLoops).runs[r];
      LeasesGranted(trace, maxGapLoops, r) <= |run.targets| * LeasesPerTarget(run.maxAttempts, maxGapLoops)
  {
    LeasesAreBounded(trace, maxGapLoops, r);
    LimitWithoutRetries(Exec(trace, maxGapLoops).runs[r], maxGapLoops);
  }

  lemma LimitWithoutRetries(run: Run, maxGapLoops: nat)
    requires RetriedCount(run.events) == 0
    ensures LeaseLimit(run, maxGapLoops) == |run.targets| * LeasesPerTarget(run.maxAttempts, maxGapLoops)
  {}

  ghost predicate Undisturbed(trace: seq<Action>) {
    forall i :: 0 <= i < |trace| ==> !trace[i].ReconcileStartup? && !trace[i].RetryAgain?
  }

  /** So are all runs of a history without reconciliations and manual retries. */
  lemma {:induction false} NothingExtra(trace: seq<Action>, maxGapLoops: nat, r: nat)
    requires Undisturbed(trace) && r < |Exec(trace, maxGapLoops).runs|
    ensures RetriedCount(Exec(trace, maxGapLoops).runs[r].events) == 0
    ensures TotalReclaims(Exec(trace, maxGapLoops).runs[r]) == 0
  {
    assert trace != [];
    var (before, a) := (trace[..|trace| - 1], trace[|trace| - 1]);
    assert trace == before + [a] && a == trace[|trace| - 1];
    Next(before, a, maxGapLoops);
    var db := Exec(before, maxGapLoops);
    if r < |db.runs| {
      NothingExtra(before, maxGapLoops, r);
      NothingExtraNext(before, a, maxGapLoops, r);
    } else {
      OnlyCreateAdds(db, a, maxGapLoops, r);
      NewRunIsClean(db, a, maxGapLoops, r);
    }
  }

  lemma NothingExtraNext(before: seq<Action>, a: Action, maxGapLoops: nat, r: nat)
    requires !a.ReconcileStartup? && !a.RetryAgain? && r < |Exec(before, maxGapLoops).runs|
    ensures r < |Exec(before + [a], maxGapLoops).runs|
    ensures var run, after := Exec(before, maxGapLoops).runs[r], Exec(before + [a], maxGapLoops).runs[r];
      RetriedCount(after.events) == RetriedCount(run.events) && TotalReclaims(after) == TotalReclaims(run)
  {
    NextRun(before, a, maxGapLoops, r);
    var run, after := Exec(before, maxGapLoops).runs[r], Exec(before + [a], maxGapLoops).runs[r];
    if after != run {
      NoNewRetries(CauseOf(a, true), run, after);
      NoNewReclaims(CauseOf(a, true), run, after);
    }
  }

  lemma NewRunIsClean(db: Db, a: Action, maxGapLoops: nat, r: nat)
    requires |db.runs| <= r < |Apply(db, a, maxGapLoops).runs| && a.CreateRun?
    ensures RetriedCount(Apply(db, a, maxGapLoops).runs[r].events) == 0
    ensures TotalReclaims(Apply(db, a, maxGapLoops).runs[r]) == 0
  {
    NoReclaimsInitially(Apply(db, a, maxGapLoops).runs[r].targets);
  }

  lemma {:induction false} NoReclaimsInitially(targets: seq<Target>)
    requires forall t :: 0 <= t < |targets| ==> targets[t].steps == InitialSteps()
    ensures SumTargets(targets, ReclaimsOf) == 0
  {
    if targets != [] {
      NoReclaimsInitially(targets[..|targets| - 1]);
      SumStepsSame([], InitialSteps(), ReclaimsOf);
    }
  }

  lemma NoNewRetries(cause: Cause, a: Run, b: Run)
    requires RunEdge(cause, a, b) && !cause.ByRetry?
    ensures RetriedCount(b.events) == RetriedCount(a.events)
  {
    CountUnchanged(a.events, b.events);
  }

  lemma {:induction false} CountUnchanged(a: seq<Event>, b: seq<Event>)
    requires a <= b && forall i :: |a| <= i < |b| ==> !b[i].RunRetried?
    ensures RetriedCount(b) == RetriedCount(a)
    decreases |b|
  {
    if |a| < |b| {
      CountUnchanged(a, b[..|b| - 1]);
    } else {
      assert a == b;
    }
  }

  lemma NoNewReclaims(cause: Cause, a: Run, b: Run)
    requires RunEdge(cause, a, b) && !cause.ByReclaim?
    ensures TotalReclaims(b) == TotalReclaims(a)
  {
    forall t | 0 <= t < |a.targets|
      ensures SumSteps(b.targets[t].steps, ReclaimsOf) == SumSteps(a.targets[t].steps, ReclaimsOf)
    {
      NoNewReclaimsIn(cause, t, a.maxAttempts, a.targets[t], b.targets[t]);
    }
    SumTargetsSame(a.targets, b.targets, ReclaimsOf);
  }

  lemma NoNewReclaimsIn(cause: Cause, t: nat, maxAttempts: nat, a: Target, b: Target)
    requires TargetEdge(cause, t, maxAttempts, a, b) && !cause.ByReclaim?
    ensures SumSteps(b.steps, ReclaimsOf) == SumSteps(a.steps, ReclaimsOf)
  {
    forall s | 0 <= s < |a.steps| ensures ReclaimsOf(b.steps[s]) == ReclaimsOf(a.steps[s]) {
      assert StepEdge(cause, t, s, maxAttempts, a.steps[s], b.steps[s]);
    }
    SumStepsSame(a.steps, b.steps, ReclaimsOf);
  }
}
