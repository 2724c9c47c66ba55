/** What the calls that change little answer, in terms of the rows: creating again, appending a step,
    finishing; and what makes a step leasable and a lease valid. */
module RunReplies {
  import opened Collections
  import opened Domain
  import opened RunRows
  import opened RunOperations
  import opened RunHistory
  import opened RunTheorems
  import opened RunRestarts

  // ---------------------------------------------------------------- leasing

  /** A step can be leased exactly when its run has not ended, is not being cancelled and waits for no
      input, the step is new or its retry is due, and every step before it has succeeded. */
  lemma EligibleMeans(db: Db, id: StepId, now: int)
    requires HasId(db, id)
    ensures var (run, step) := (db.runs[id.run], StepAt(db, id));
      Eligible(db, id, now)
      <==> && (run.status == RunStatus.Pending || run.status == RunStatus.Running
               || run.status == RunStatus.WaitingRetry)
           && (|| step.status == RunStatus.Pending
               || (step.status == RunStatus.WaitingRetry && exists due :: step.retryDueAt == Some(due) && due <= now))
           && !exists i :: 0 <= i < |run.targets[id.target].steps|
                           && run.targets[id.target].steps[i].position < step.position
                           && run.targets[id.target].steps[i].status != RunStatus.Succeeded
  {
  }

  /** A caller is told that its lease does not hold exactly when the step is not being worked on, by that
      owner, in that attempt, or the time has run out; and such a call changes nothing. */
  lemma LeaseConflictMeans(trace: seq<Action>, maxGapLoops: nat, lease: Lease, now: int)
    requires HasId(Exec(trace, maxGapLoops), lease.id)
    ensures var db := Exec(trace, maxGapLoops);
      var (step, tx) := (StepAt(db, lease.id), CancelAtSafeBoundary(db, lease, now));
      && (tx.result == Err(LeaseConflict)
          <==> || step.status != RunStatus.Running || step.leaseOwner != Some(lease.owner)
               || step.attemptCount != lease.attemptNumber
               || exists until :: step.leaseExpiresAt == Some(until) && until < now)
      && (tx.result.Err? ==> tx.db == db)
  {
    ReachableRun(trace, maxGapLoops, lease.id.run);
    var step := StepAt(Exec(trace, maxGapLoops), lease.id);
    AttemptLedger(trace, maxGapLoops, lease.id);
    if step.status == RunStatus.Running {
      assert step.attempts[|step.attempts| - 1].number == step.attemptCount;
    }
  }

  // ---------------------------------------------------------------- creating again

  /** A key in use leads to a run created under it, or to a conflict with one for another command; under a
      new key the only refusal is a repeated world; and no refusal changes anything. */
  lemma CreateAnswers(db: Db, command: CreateCommand, key: string)
    ensures var tx := Create(db, command, key);
      && ((exists r :: 0 <= r < |db.runs| && db.runs[r].idempotencyKey == key) ==>
            && tx.db == db
            && exists r :: 0 <= r < |db.runs| && db.runs[r].idempotencyKey == key
                           && tx.result == if db.runs[r].payload == command then Ok(r) else Err(IdempotencyConflict))
      && ((forall r :: 0 <= r < |db.runs| ==> db.runs[r].idempotencyKey != key) ==>
            && (tx.result == Err(Integrity)
                <==> exists i, j :: 0 <= i < j < |command.worldIds| && command.worldIds[i] == command.worldIds[j])
            && (tx.result.Err? ==> tx.db == db && tx.result == Err(Integrity)))
  {
    var found := FindByKey(db.runs, key);
    if found.Some? {
      assert db.runs[found.value].idempotencyKey == key;
    }
  }

  // ---------------------------------------------------------------- appending a step

  /** Appending under a new key adds one untouched step behind all others of that target, unless the run
      has ended; nothing else changes. */
  lemma AppendAdds(db: Db, r: nat, t: nat, kind: StepKind, key: StepKey)
    requires r < |db.runs| && t < |db.runs[r].targets|
    requires forall i :: 0 <= i < |db.runs[r].targets[t].steps| ==> db.runs[r].targets[t].steps[i].key != key
    ensures var (tx, run, n) := (AppendStep(db, r, t, kind, key), db.runs[r], |db.runs[r].targets[t].steps|);
      if run.status == RunStatus.Cancelled || run.status == RunStatus.Succeeded || run.status == RunStatus.Failed
      then tx == Tx(db, Err(IllegalTransition))
      else
        && tx.result == Ok(StepId(r, t, n)) && tx.db.checkpoints == db.checkpoints
        && |tx.db.runs| == |db.runs| && (forall q :: 0 <= q < |db.runs| && q != r ==> tx.db.runs[q] == db.runs[q])
        && var after := tx.db.runs[r];
        && after == run.(targets := after.targets) && |after.targets| == |run.targets|
        && (forall u :: 0 <= u < |run.targets| && u != t ==> after.targets[u] == run.targets[u])
        && after.targets[t] == run.targets[t].(steps := after.targets[t].steps)
        && |after.targets[t].steps| == n + 1 && after.targets[t].steps[..n] == run.targets[t].steps
        && after.targets[t].steps[n].key == key
        && Untouched(after.targets[t].steps[n], kind, after.targets[t].steps[n].position)
        && forall i :: 0 <= i < n ==> run.targets[t].steps[i].position < after.targets[t].steps[n].position
  {
    var steps := db.runs[r].targets[t].steps;
    assert FindStepKey(steps, key).None?;
    var longer := steps + [NewStep(key, kind, NextPosition(steps))];
    assert longer[..|steps|] == steps;
  }

  /** Appending again under the same key gives the same step and changes nothing; with another kind it
      conflicts. */
  lemma AppendIsIdempotent(db: Db, r: nat, t: nat, kind: StepKind, key: StepKey, other: StepKind)
    requires AppendStep(db, r, t, kind, key).result.Ok?
    ensures var tx := AppendStep(db, r, t, kind, key);
      AppendStep(tx.db, r, t, other, key) == Tx(tx.db, if other == kind then tx.result else Err(IdempotencyConflict))
  {
    var tx := AppendStep(db, r, t, kind, key);
    var s := AppendedStep(db, r, t, kind, key, tx);
    AppendFinds(tx.db, r, t, other, key, s);
  }

  lemma AppendedStep(db: Db, r: nat, t: nat, kind: StepKind, key: StepKey, tx: Tx<StepId>) returns (s: nat)
    requires tx == AppendStep(db, r, t, kind, key) && tx.result.Ok?
    ensures r < |tx.db.runs| && t < |tx.db.runs[r].targets|
    ensures FindStepKey(tx.db.runs[r].targets[t].steps, key) == Some(s)
    ensures tx.db.runs[r].targets[t].steps[s].kind == kind && tx.result == Ok(StepId(r, t, s))
  {
    var steps := db.runs[r].targets[t].steps;
    var found := FindStepKey(steps, key);
    s := if found.Some? then found.value else |steps|;
    if found.None? {
      assert tx.db.runs[r].targets[t].steps == steps + [NewStep(key, kind, NextPosition(steps))];
    }
  }

  lemma AppendFinds(db: Db, r: nat, t: nat, kind: StepKind, key: StepKey, s: nat)
    requires r < |db.runs| && t < |db.runs[r].targets| && FindStepKey(db.runs[r].targets[t].steps, key) == Some(s)
    ensures AppendStep(db, r, t, kind, key)
            == Tx(db, if db.runs[r].targets[t].steps[s].kind == kind then Ok(StepId(r, t, s))
                      else Err(IdempotencyConflict))
  {
  }

  // ---------------------------------------------------------------- finishing

  /** `finish_from_targets` succeeds exactly for a run that has already ended with an outcome for every
      target and whose COMPLETE steps have all succeeded, and does no more than announce that end. */
  lemma FinishOnlyAnnounces(trace: seq<Action>, maxGapLoops: nat, r: nat)
    requires r < |Exec(trace, maxGapLoops).runs|
    ensures var (db, run) := (Exec(trace, maxGapLoops), Exec(trace, maxGapLoops).runs[r]);
      var tx := FinishFromTargets(db, r);
      && (tx.result.Ok?
          <==> && (run.status == RunStatus.Succeeded || run.status == RunStatus.Failed)
               && forall t, s :: 0 <= t < |run.targets| && 0 <= s < |run.targets[t].steps|
                                 && run.targets[t].steps[s].kind == StepKind.Complete ==>
                    run.targets[t].steps[s].status == RunStatus.Succeeded)
      && (tx.result.Err? ==> tx == Tx(db, Err(IllegalTransition)))
      && (tx.result.Ok? ==>
            tx.db == db.(runs := db.runs[r := if RunFinished in run.events then run
                                              else run.(events := run.events + [RunFinished])]))
  {
    ReachableRun(trace, maxGapLoops, r);
    TerminalRun(Exec(trace, maxGapLoops).runs[r]);
  }
}
