/** How a cancelled run drains: the steps in flight stop one by one, and nothing else happens to it. */
module RunDraining {
  import opened Domain
  import opened RunRows
  import opened RunOperations
  import opened RunInvariants
  import opened RunMoves
  import opened RunRecords
  import opened RunHistory
  import opened RunTheorems
  import opened RunBudget

  predicate BeingCancelled(run: Run) {
    run.status in {RunStatus.Cancelling, RunStatus.Cancelled}
  }

  /** An action that ends an attempt of run `r`: a call under a valid lease of one of its steps, unless
      it replays a checkpoint or may not continue, or a reconciliation when one of its leases expired. */
  ghost predicate EndsAttempt(db: Db, a: Action, maxGapLoops: nat, r: nat)
    requires r < |db.runs|
  {
    match a
    case Succeed(lease, key, _, _, now) => lease.id.run == r && LeaseValid(db, lease, now) && key !in db.checkpoints
    case ContinueLoop(lease, key, _, now) =>
      lease.id.run == r && LeaseValid(db, lease, now) && key !in db.checkpoints && MayContinue(db, lease, maxGapLoops)
    case Fail(lease, _, _, _, now) => lease.id.run == r && LeaseValid(db, lease, now)
    case Degrade(lease, _, _, now) => lease.id.run == r && LeaseValid(db, lease, now)
    case StopAtBoundary(lease, now) => lease.id.run == r && LeaseValid(db, lease, now)
    case ReconcileStartup(now) => Expired(db.runs[r], now) != []
    case _ => false
  }

  /** A CANCELLING run only ever gets closer to its end: it changes exactly when an action ends one of
      its attempts, every change lowers the number of steps in flight, no lease is granted, and it is
      CANCELLED exactly when none is left in flight. A CANCELLED run does not change any more. */
  lemma CancellingDrains(trace: seq<Action>, a: Action, maxGapLoops: nat, r: nat)
    requires r < |Exec(trace, maxGapLoops).runs| && BeingCancelled(Exec(trace, maxGapLoops).runs[r])
    ensures r < |Exec(trace + [a], maxGapLoops).runs|
    ensures var (before, after) := (Exec(trace, maxGapLoops).runs[r], Exec(trace + [a], maxGapLoops).runs[r]);
      && BeingCancelled(after)
      && (after != before ==> RunningCount(after) < RunningCount(before))
      && (after != before <==> EndsAttempt(Exec(trace, maxGapLoops), a, maxGapLoops, r))
      && (after.status == RunStatus.Cancelled <==> RunningCount(after) == 0)
      && TotalAttempts(after) == TotalAttempts(before)
  {
    NextRun(trace, a, maxGapLoops, r);
    ChangesByEnding(trace, a, maxGapLoops, r);
    StoppingStays(a, r, Exec(trace, maxGapLoops).runs[r], Exec(trace + [a], maxGapLoops).runs[r]);
    ReachableRun(trace + [a], maxGapLoops, r);
    NoneInFlight(Exec(trace + [a], maxGapLoops).runs[r]);
  }

  lemma StoppingStays(a: Action, r: nat, before: Run, after: Run)
    requires RunMoved(a, r, true, before, after) && BeingCancelled(before) && (after != before ==> !a.LeaseNext?)
    ensures BeingCancelled(after) && TotalAttempts(after) == TotalAttempts(before)
  {
    if after != before {
      QuietAttempts(CauseOf(a, true), before, after);
    }
  }

  lemma ChangesByEnding(trace: seq<Action>, a: Action, maxGapLoops: nat, r: nat)
    requires r < |Exec(trace, maxGapLoops).runs| && BeingCancelled(Exec(trace, maxGapLoops).runs[r])
    ensures r < |Exec(trace + [a], maxGapLoops).runs|
    ensures var (before, after) := (Exec(trace, maxGapLoops).runs[r], Exec(trace + [a], maxGapLoops).runs[r]);
      && (after != before ==> RunningCount(after) < RunningCount(before))
      && (after != before <==> EndsAttempt(Exec(trace, maxGapLoops), a, maxGapLoops, r))
  {
    if EndsAttempt(Exec(trace, maxGapLoops), a, maxGapLoops, r) {
      EndingLowers(trace, a, maxGapLoops, r);
    } else {
      OthersChangeNothing(trace, a, maxGapLoops, r);
    }
  }

  /** So however long a history goes on, a run that is CANCELLING with `n` steps in flight changes at
      most `n` times more. */
  lemma {:induction false} CancellingEnds(trace: seq<Action>, more: seq<Action>, maxGapLoops: nat, r: nat)
    requires r < |Exec(trace, maxGapLoops).runs| && BeingCancelled(Exec(trace, maxGapLoops).runs[r])
    ensures r < |Exec(trace + more, maxGapLoops).runs| && BeingCancelled(Exec(trace + more, maxGapLoops).runs[r])
    ensures Changes(trace, more, maxGapLoops, r) + RunningCount(Exec(trace + more, maxGapLoops).runs[r])
            <= RunningCount(Exec(trace, maxGapLoops).runs[r])
  {
    if more == [] {
      assert trace + more == trace;
    } else {
      var rest, last := more[..|more| - 1], more[|more| - 1];
      CancellingEnds(trace, rest, maxGapLoops, r);
      OneMoreEnds(trace, rest, last, maxGapLoops, r, RunningCount(Exec(trace, maxGapLoops).runs[r]));
      assert rest + [last] == more;
    }
  }

  lemma OneMoreEnds(trace: seq<Action>, rest: seq<Action>, last: Action, maxGapLoops: nat, r: nat, n: nat)
    requires r < |Exec(trace + rest, maxGapLoops).runs| && BeingCancelled(Exec(trace + rest, maxGapLoops).runs[r])
    requires Changes(trace, rest, maxGapLoops, r) + RunningCount(Exec(trace + rest, maxGapLoops).runs[r]) <= n
    ensures var (more, after) := (rest + [last], Exec(trace + (rest + [last]), maxGapLoops).runs);
      && r < |after| && BeingCancelled(after[r])
      && Changes(trace, more, maxGapLoops, r) + RunningCount(after[r]) <= n
  {
    CancellingDrains(trace + rest, last, maxGapLoops, r);
    OneMoreAction(trace, rest, last, maxGapLoops, r);
  }

  lemma OneMoreAction(trace: seq<Action>, rest: seq<Action>, last: Action, maxGapLoops: nat, r: nat)
    ensures trace + (rest + [last]) == (trace + rest) + [last]
    ensures var before, after := Exec(trace + rest, maxGapLoops).runs, Exec(trace + rest + [last], maxGapLoops).runs;
      Changes(trace, rest + [last], maxGapLoops, r)
      == Changes(trace, rest, maxGapLoops, r)
         + (if r < |before| && r < |after| && after[r] != before[r] then 1 else 0)
  {
    assert (rest + [last])[..|rest|] == rest;
    assert trace + (rest + [last]) == (trace + rest) + [last];
  }

  /** How many actions of `more` change run `r`. */
  ghost function Changes(trace: seq<Action>, more: seq<Action>, maxGapLoops: nat, r: nat): nat {
    if more == [] then 0
    else
      var rest := more[..|more| - 1];
      var (before, after) := (Exec(trace + rest, maxGapLoops).runs, Exec(trace + more, maxGapLoops).runs);
      Changes(trace, rest, maxGapLoops, r)
      + (if r < |before| && r < |after| && after[r] != before[r] then 1 else 0)
  }

  // ---------------------------------------------------------------- what changes such a run

  lemma EndingLowers(trace: seq<Action>, a: Action, maxGapLoops: nat, r: nat)
    requires r < |Exec(trace, maxGapLoops).runs| && BeingCancelled(Exec(trace, maxGapLoops).runs[r])
    requires EndsAttempt(Exec(trace, maxGapLoops), a, maxGapLoops, r)
    ensures r < |Exec(trace + [a], maxGapLoops).runs|
    ensures RunningCount(Exec(trace + [a], maxGapLoops).runs[r]) < RunningCount(Exec(trace, maxGapLoops).runs[r])
  {
    Reachable(trace, maxGapLoops);
    Next(trace, a, maxGapLoops);
    var id := EndedStep(Exec(trace, maxGapLoops), a, maxGapLoops, r);
    HoldersDrain(trace, a, maxGapLoops, id);
  }

  /** The step such an action ends. */
  lemma EndedStep(db: Db, a: Action, maxGapLoops: nat, r: nat) returns (id: StepId)
    requires r < |db.runs| && DbOk(db, maxGapLoops) && BeingCancelled(db.runs[r]) && EndsAttempt(db, a, maxGapLoops, r)
    ensures id.run == r && HasId(db, id) && StepAt(db, id).status == RunStatus.Running
    ensures HasId(Apply(db, a, maxGapLoops), id)
    ensures StepAt(Apply(db, a, maxGapLoops), id).status != RunStatus.Running
  {
    assert RunShape(db.runs[r]);
    if a.ReconcileStartup? {
      FirstIsReclaimed(db.runs[r], a.now);
      id := StepId(r, Expired(db.runs[r], a.now)[0].0, Expired(db.runs[r], a.now)[0].1);
    } else {
      HolderIsCancelling(db, a, maxGapLoops, r);
      HolderStops(db, a, maxGapLoops, r);
      id := a.lease.id;
    }
  }

  lemma HolderIsCancelling(db: Db, a: Action, maxGapLoops: nat, r: nat)
    requires r < |db.runs| && RunShape(db.runs[r]) && BeingCancelled(db.runs[r])
    requires EndsAttempt(db, a, maxGapLoops, r) && !a.ReconcileStartup?
    ensures db.runs[r].status == RunStatus.Cancelling
    ensures HasId(db, a.lease.id) && a.lease.id.run == r && StepAt(db, a.lease.id).status == RunStatus.Running
  {
    RunningMeansActive(db.runs[r], a.lease.id.target, a.lease.id.step);
  }

  lemma FirstIsReclaimed(run: Run, now: int)
    requires RunShape(run) && Expired(run, now) != []
    ensures var (x, after) := (Expired(run, now)[0], ReconcileRun(run, now));
      && IsRunning(run, x.0, x.1)
      && HasStep(after, x.0, x.1) && after.targets[x.0].steps[x.1].status != RunStatus.Running
  {
    var x := Expired(run, now)[0];
    assert x in Expired(run, now);
    ReclaimedInRun(run, x.0, x.1, now);
  }

  /** On a CANCELLING run every such call stops its step at this boundary. */
  lemma HolderStops(db: Db, a: Action, maxGapLoops: nat, r: nat)
    requires r < |db.runs| && db.runs[r].status == RunStatus.Cancelling
    requires EndsAttempt(db, a, maxGapLoops, r) && !a.ReconcileStartup?
    ensures HasId(Apply(db, a, maxGapLoops), a.lease.id)
    ensures StepAt(Apply(db, a, maxGapLoops), a.lease.id).status != RunStatus.Running
  {
    BoundaryEnds(db.runs[r], a.lease.id.target, a.lease.id.step, a.now);
    if a.ContinueLoop? {
      ContinueEnds(db, a.lease, a.effectKey, a.outputRefs, a.now);
    }
  }

  lemma OthersChangeNothing(trace: seq<Action>, a: Action, maxGapLoops: nat, r: nat)
    requires r < |Exec(trace, maxGapLoops).runs| && BeingCancelled(Exec(trace, maxGapLoops).runs[r])
    requires !EndsAttempt(Exec(trace, maxGapLoops), a, maxGapLoops, r)
    ensures r < |Exec(trace + [a], maxGapLoops).runs|
    ensures Exec(trace + [a], maxGapLoops).runs[r] == Exec(trace, maxGapLoops).runs[r]
  {
    Next(trace, a, maxGapLoops);
    if a.AskCancel? {
      if a.run == r {
        CancelTwiceIsRejected(trace, maxGapLoops, r, a.now);
      }
    } else {
      TerminalRunsAreConsistent(trace, maxGapLoops, r);
      OthersKeepRun(Exec(trace, maxGapLoops), a, maxGapLoops, r);
    }
  }

  lemma OthersKeepRun(db: Db, a: Action, maxGapLoops: nat, r: nat)
    requires r < |db.runs| && BeingCancelled(db.runs[r]) && ConsistentEnding(db.runs[r])
    requires !EndsAttempt(db, a, maxGapLoops, r) && !a.AskCancel?
    ensures r < |Apply(db, a, maxGapLoops).runs| && Apply(db, a, maxGapLoops).runs[r] == db.runs[r]
  {
    if a.Succeed? || a.ContinueLoop? {
      IdleSuccess(db, a, maxGapLoops, r);
    } else if a.Fail? || a.Degrade? || a.StopAtBoundary? {
      IdleEnding(db, a, maxGapLoops, r);
    }
  }

  lemma IdleSuccess(db: Db, a: Action, maxGapLoops: nat, r: nat)
    requires r < |db.runs| && !EndsAttempt(db, a, maxGapLoops, r) && (a.Succeed? || a.ContinueLoop?)
    ensures r < |Apply(db, a, maxGapLoops).runs| && Apply(db, a, maxGapLoops).runs[r] == db.runs[r]
  {}

  lemma IdleEnding(db: Db, a: Action, maxGapLoops: nat, r: nat)
    requires r < |db.runs| && !EndsAttempt(db, a, maxGapLoops, r) && (a.Fail? || a.Degrade? || a.StopAtBoundary?)
    ensures r < |Apply(db, a, maxGapLoops).runs| && Apply(db, a, maxGapLoops).runs[r] == db.runs[r]
  {}

  lemma FewerInFlight(cause: Cause, a: Run, b: Run)
    requires RunEdge(cause, a, b) && !cause.ByLease?
    ensures RunningCount(b) <= RunningCount(a)
  {
    forall t | 0 <= t < |a.targets|
      ensures SumSteps(b.targets[t].steps, InFlight) <= SumSteps(a.targets[t].steps, InFlight)
    {
      FewerInFlightIn(cause, t, a.maxAttempts, a.targets[t], b.targets[t]);
    }
    SumTargetsLess(a.targets, b.targets, InFlight);
  }

  lemma FewerInFlightIn(cause: Cause, t: nat, maxAttempts: nat, a: Target, b: Target)
    requires TargetEdge(cause, t, maxAttempts, a, b) && !cause.ByLease?
    ensures SumSteps(b.steps, InFlight) <= SumSteps(a.steps, InFlight)
    ensures (exists s :: 0 <= s < |a.steps| && InFlight(b.steps[s]) < InFlight(a.steps[s])) ==>
      SumSteps(b.steps, InFlight) < SumSteps(a.steps, InFlight)
  {
    forall s | 0 <= s < |a.steps| ensures InFlight(b.steps[s]) <= InFlight(a.steps[s]) {
      assert StepEdge(cause, t, s, maxAttempts, a.steps[s], b.steps[s]);
    }
    SumStepsLess(a.steps, b.steps, InFlight);
  }

  /** Whatever run it belongs to, a step that leaves RUNNING lowers the number in flight. */
  lemma HoldersDrain(trace: seq<Action>, a: Action, maxGapLoops: nat, id: StepId)
    requires HasId(Exec(trace, maxGapLoops), id) && StepAt(Exec(trace, maxGapLoops), id).status == RunStatus.Running
    ensures var (db, next) := (Exec(trace, maxGapLoops), Exec(trace + [a], maxGapLoops));
      && HasId(next, id)
      && (StepAt(next, id).status != RunStatus.Running ==>
            RunningCount(next.runs[id.run]) < RunningCount(db.runs[id.run]))
  {
    NextRun(trace, a, maxGapLoops, id.run);
    NextStep(trace, a, maxGapLoops, id);
    Next(trace, a, maxGapLoops);
    var (before, after) := (Exec(trace, maxGapLoops).runs[id.run], Exec(trace + [a], maxGapLoops).runs[id.run]);
    if StepAt(Exec(trace + [a], maxGapLoops), id).status != RunStatus.Running {
      var cause := CauseOf(a, true);
      EndingNeedsNoLease(cause, id.target, id.step, before.maxAttempts,
                         before.targets[id.target].steps[id.step], after.targets[id.target].steps[id.step]);
      InFlightDrops(cause, before, after, id.target, id.step);
    }
  }

  lemma EndingNeedsNoLease(cause: Cause, t: nat, s: nat, maxAttempts: nat, a: Step, b: Step)
    requires StepEdge(cause, t, s, maxAttempts, a, b)
    requires a.status == RunStatus.Running && b.status != RunStatus.Running
    ensures !cause.ByLease?
  {}

  lemma InFlightDrops(cause: Cause, a: Run, b: Run, t: nat, s: nat)
    requires RunEdge(cause, a, b) && !cause.ByLease?
    requires HasStep(a, t, s) && HasStep(b, t, s)
    requires InFlight(b.targets[t].steps[s]) < InFlight(a.targets[t].steps[s])
    ensures RunningCount(b) < RunningCount(a)
  {
    forall u | 0 <= u < |a.targets|
      ensures SumSteps(b.targets[u].steps, InFlight) <= SumSteps(a.targets[u].steps, InFlight)
      ensures u == t ==> SumSteps(b.targets[u].steps, InFlight) < SumSteps(a.targets[u].steps, InFlight)
    {
      FewerInFlightIn(cause, u, a.maxAttempts, a.targets[u], b.targets[u]);
    }
    SumTargetsLess(a.targets, b.targets, InFlight);
  }

  lemma NoneInFlight(run: Run)
    requires RunShape(run)
    ensures run.status == RunStatus.Cancelled ==> RunningCount(run) == 0
    ensures run.status == RunStatus.Cancelling ==> RunningCount(run) > 0
  {
    if run.status == RunStatus.Cancelled {
      TerminalSteps(run);
      forall t | 0 <= t < |run.targets| ensures SumSteps(run.targets[t].steps, InFlight) == 0 {
        NoneInFlightIn(run.targets[t].steps);
      }
      ZeroTargets(run.targets);
    } else if run.status == RunStatus.Cancelling {
      var t, s := RunningStep(run);
      SomeInFlight(run.targets, t, s);
    }
  }

  lemma {:induction false} NoneInFlightIn(steps: seq<Step>)
    requires forall i :: 0 <= i < |steps| ==> steps[i].status != RunStatus.Running
    ensures SumSteps(steps, InFlight) == 0
  {
    if steps != [] {
      NoneInFlightIn(steps[..|steps| - 1]);
    }
  }

  lemma {:induction false} ZeroTargets(targets: seq<Target>)
    requires forall t :: 0 <= t < |targets| ==> SumSteps(targets[t].steps, InFlight) == 0
    ensures SumTargets(targets, InFlight) == 0
  {
    if targets != [] {
      ZeroTargets(targets[..|targets| - 1]);
    }
  }

  lemma {:induction false} SomeInFlight(targets: seq<Target>, t: nat, s: nat)
    requires t < |targets| && s < |targets[t].steps| && targets[t].steps[s].status == RunStatus.Running
    ensures SumTargets(targets, InFlight) > 0
  {
    if t < |targets| - 1 {
      SomeInFlight(targets[..|targets| - 1], t, s);
    } else {
      SomeInFlightIn(targets[t].steps, s);
    }
  }

  lemma {:induction false} SomeInFlightIn(steps: seq<Step>, s: nat)
    requires s < |steps| && steps[s].status == RunStatus.Running
    ensures SumSteps(steps, InFlight) > 0
  {
    if s < |steps| - 1 {
      SomeInFlightIn(steps[..|steps| - 1], s);
    }
  }
}
