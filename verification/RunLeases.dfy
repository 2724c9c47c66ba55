/** What a granted lease is worth: it is accepted until it runs out, whatever else happens in between. */
module RunLeases {
  import opened Domain
  import opened RunRows
  import opened RunOperations
  import opened RunInvariants
  import opened RunMoves
  import opened RunRecords
  import opened RunHistory
  import opened RunTheorems

  /** The three parts of a lease that a call is checked against. */
  predicate SameLease(a: Lease, b: Lease) {
    a.id == b.id && a.owner == b.owner && a.attemptNumber == b.attemptNumber
  }

  /** A call under the lease, or a reconciliation after it ran out. Any other action leaves the leased
      step alone: other workers, cancel requests, retries and earlier reconciliations. */
  ghost predicate Disturbs(a: Action, lease: Lease) {
    match a
    case Succeed(l, _, _, _, _) => SameLease(l, lease)
    case ContinueLoop(l, _, _, _) => SameLease(l, lease)
    case Fail(l, _, _, _, _) => SameLease(l, lease)
    case Degrade(l, _, _, _) => SameLease(l, lease)
    case StopAtBoundary(l, _) => SameLease(l, lease)
    case ReconcileStartup(now) => lease.expiresAt < now
    case _ => false
  }

  /** The lease is the one its step is held under, and it is accepted exactly until it runs out. */
  ghost predicate Held(db: Db, lease: Lease) {
    && HasId(db, lease.id)
    && StepAt(db, lease.id).status == RunStatus.Running
    && StepAt(db, lease.id).leaseExpiresAt == Some(lease.expiresAt)
    && forall later :: LeaseValid(db, lease, later) <==> later <= lease.expiresAt
  }

  /** `lease_next` at `now` for `duration` returns a lease on the step it picked, for its owner, and the
      lease is accepted exactly until `now + duration`. */
  lemma GrantedLeaseIsHeld(trace: seq<Action>, maxGapLoops: nat, id: StepId, owner: string, now: int, duration: int)
    requires Eligible(Exec(trace, maxGapLoops), id, now)
    ensures var db := Exec(trace, maxGapLoops);
      var (after, lease) := GrantLease(db, id, owner, now, duration);
      && Exec(trace + [LeaseNext(id, owner, now, duration)], maxGapLoops) == after
      && lease.id == id && lease.owner == owner && lease.kind == StepAt(db, id).kind
      && lease.attemptNumber == StepAt(db, id).attemptCount + 1 && lease.expiresAt == now + duration
      && Held(after, lease)
  {
    Next(trace, LeaseNext(id, owner, now, duration), maxGapLoops);
    var db := Exec(trace, maxGapLoops);
    var (after, lease) := GrantLease(db, id, owner, now, duration);
    var step := StepAt(after, id);
    var last := |step.attempts| - 1;
    assert step.attempts[last].number == lease.attemptNumber;
  }

  /** So it stays through any further actions that do not disturb it. */
  lemma {:induction false} LeaseHoldsUntilItRunsOut(
    trace: seq<Action>, more: seq<Action>, maxGapLoops: nat, id: StepId, owner: string, now: int, duration: int)
    requires Eligible(Exec(trace, maxGapLoops), id, now)
    requires var lease := GrantLease(Exec(trace, maxGapLoops), id, owner, now, duration).1;
      forall i :: 0 <= i < |more| ==> !Disturbs(more[i], lease)
    ensures var lease := GrantLease(Exec(trace, maxGapLoops), id, owner, now, duration).1;
      var db := Exec(trace + [LeaseNext(id, owner, now, duration)] + more, maxGapLoops);
      Held(db, lease) && lease.expiresAt == now + duration
  {
    var lease := GrantLease(Exec(trace, maxGapLoops), id, owner, now, duration).1;
    var granted := trace + [LeaseNext(id, owner, now, duration)];
    if more == [] {
      assert granted + more == granted;
      GrantedLeaseIsHeld(trace, maxGapLoops, id, owner, now, duration);
    } else {
      var rest, last := more[..|more| - 1], more[|more| - 1];
      LeaseHoldsUntilItRunsOut(trace, rest, maxGapLoops, id, owner, now, duration);
      assert granted + more == (granted + rest) + [last];
      UndisturbedStaysHeld(granted + rest, last, maxGapLoops, lease);
    }
  }

  lemma UndisturbedStaysHeld(trace: seq<Action>, a: Action, maxGapLoops: nat, lease: Lease)
    requires Held(Exec(trace, maxGapLoops), lease) && !Disturbs(a, lease)
    ensures Held(Exec(trace + [a], maxGapLoops), lease)
  {
    StepStays(trace, a, maxGapLoops, lease);
    var db, after := Exec(trace, maxGapLoops), Exec(trace + [a], maxGapLoops);
    forall later ensures LeaseValid(after, lease, later) <==> LeaseValid(db, lease, later) {
    }
  }

  lemma StepStays(trace: seq<Action>, a: Action, maxGapLoops: nat, lease: Lease)
    requires Held(Exec(trace, maxGapLoops), lease) && !Disturbs(a, lease)
    ensures HasId(Exec(trace + [a], maxGapLoops), lease.id)
    ensures StepAt(Exec(trace + [a], maxGapLoops), lease.id) == StepAt(Exec(trace, maxGapLoops), lease.id)
  {
    var db := Exec(trace, maxGapLoops);
    Next(trace, a, maxGapLoops);
    if a.ReconcileStartup? {
      ReachableRun(trace, maxGapLoops, lease.id.run);
      NotReclaimed(db.runs[lease.id.run], lease.id.target, lease.id.step, a.now);
    } else if HasLease(a) && a.lease.id == lease.id {
      assert LeaseValid(db, lease, lease.expiresAt);
      WrongLeaseDoesNothing(db, a, maxGapLoops);
    } else {
      NextStep(trace, a, maxGapLoops, lease.id);
      OthersLeaveRunning(a, lease.id.run, lease.id.target, lease.id.step, db.runs[lease.id.run].maxAttempts,
                         StepAt(db, lease.id), StepAt(Exec(trace + [a], maxGapLoops), lease.id));
    }
  }

  predicate HasLease(a: Action) {
    a.Succeed? || a.ContinueLoop? || a.Fail? || a.Degrade? || a.StopAtBoundary?
  }

  lemma WrongLeaseDoesNothing(db: Db, a: Action, maxGapLoops: nat)
    requires HasLease(a) && !LeaseValid(db, a.lease, a.now)
    ensures Apply(db, a, maxGapLoops) == db
  {
  }

  lemma OthersLeaveRunning(a: Action, r: nat, t: nat, s: nat, maxAttempts: nat, before: Step, after: Step)
    requires before.status == RunStatus.Running && !a.ReconcileStartup?
    requires OnRun(a, r) && HasLease(a) ==> a.lease.id != StepId(r, t, s)
    requires after == before
             || (OnRun(a, r) && StepEdge(CauseOf(a, true), t, s, maxAttempts, before, after))
    ensures after == before
  {
  }

  /** A lease that has not run out is not taken back. */
  lemma NotReclaimed(run: Run, t: nat, s: nat, now: int)
    requires RunShape(run) && IsRunning(run, t, s)
    requires run.targets[t].steps[s].leaseExpiresAt.Some? && now <= run.targets[t].steps[s].leaseExpiresAt.value
    ensures HasStep(ReconcileRun(run, now), t, s)
    ensures ReconcileRun(run, now).targets[t].steps[s] == run.targets[t].steps[s]
  {
    ReconcileFacts(run, now);
    assert (t, s) !in Expired(run, now);
    assert ReclaimedStep(run, false, run.targets[t].steps[s], ReconcileRun(run, now).targets[t].steps[s], now);
  }

  /** A worker that holds a lease can finish its work: up to the end of the lease a success under a
      fresh effect key is accepted and stores its checkpoint, or stops a run being cancelled; after it
      the same call conflicts. */
  lemma HeldLeaseFinishes(db: Db, lease: Lease, effectKey: string, outputRefs: seq<string>, state: StepState, now: int)
    requires Held(db, lease) && effectKey !in db.checkpoints
    ensures CheckpointSuccess(db, lease, effectKey, outputRefs, state, now).result
            == (if now > lease.expiresAt then Err(LeaseConflict)
                else if db.runs[lease.id.run].status == RunStatus.Cancelling then Ok(None)
                else Ok(Some(Checkpoint(lease.id, effectKey, outputRefs, now))))
  {
  }

  /** From the grant to the result: whatever undisturbing actions come in between, the work done under a
      lease is accepted exactly up to `now + duration`. */
  lemma WorkUnderALeaseCounts(
    trace: seq<Action>, more: seq<Action>, maxGapLoops: nat, id: StepId, owner: string, now: int, duration: int,
    effectKey: string, outputRefs: seq<string>, state: StepState, later: int)
    requires Eligible(Exec(trace, maxGapLoops), id, now)
    requires var lease := GrantLease(Exec(trace, maxGapLoops), id, owner, now, duration).1;
      forall i :: 0 <= i < |more| ==> !Disturbs(more[i], lease)
    requires effectKey !in Exec(trace + [LeaseNext(id, owner, now, duration)] + more, maxGapLoops).checkpoints
    ensures var lease := GrantLease(Exec(trace, maxGapLoops), id, owner, now, duration).1;
      var db := Exec(trace + [LeaseNext(id, owner, now, duration)] + more, maxGapLoops);
      CheckpointSuccess(db, lease, effectKey, outputRefs, state, later).result.Ok? <==> later <= now + duration
  {
    var lease := GrantLease(Exec(trace, maxGapLoops), id, owner, now, duration).1;
    var db := Exec(trace + [LeaseNext(id, owner, now, duration)] + more, maxGapLoops);
    LeaseHoldsUntilItRunsOut(trace, more, maxGapLoops, id, owner, now, duration);
    HeldLeaseFinishes(db, lease, effectKey, outputRefs, state, later);
  }
}
