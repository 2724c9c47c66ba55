/** The bookkeeping of a run: its outbox events, its steps' idempotency keys and how many steps it
    can have. */
module RunRecords {
  import opened Collections
  import opened Domain
  import opened RunRows
  import opened RunOperations
  import opened RunInvariants
  import opened RunMoves

  // ---------------------------------------------------------------- outbox events

  ghost predicate AttemptOver(run: Run, t: nat, s: nat, attempt: nat) {
    && HasStep(run, t, s)
    && var step := run.targets[t].steps[s];
    && attempt <= step.attemptCount
    && (attempt == step.attemptCount ==> step.status != RunStatus.Running)
  }

  ghost predicate EventOk(run: Run, event: Event) {
    match event
    case RunCreated => true
    case StepSucceeded(_) => true
    case StepFailed(t, s, attempt) => AttemptOver(run, t, s, attempt)
    case StepPartial(t, s, attempt) => AttemptOver(run, t, s, attempt)
    case CancelRequested => run.status in {RunStatus.Cancelling, RunStatus.Cancelled}
    case RunCancelled => run.status == RunStatus.Cancelled
    case RunRetried(number) => 1 <= number <= RetriedCount(run.events)
    case RunFinished => true
  }

  /** No effect key twice, and each event is one the run's state accounts for. */
  ghost predicate EventsOk(run: Run) {
    && Distinct(run.events)
    && (forall e :: e in run.events ==> EventOk(run, e))
    && (run.status in {RunStatus.Cancelling, RunStatus.Cancelled} ==> CancelRequested in run.events)
  }

  lemma {:induction false} RetriedCountGrows(a: seq<Event>, b: seq<Event>)
    requires a <= b
    ensures RetriedCount(a) <= RetriedCount(b)
    decreases |b|
  {
    if |a| < |b| {
      RetriedCountGrows(a, b[..|b| - 1]);
    } else {
      assert a == b;
    }
  }

  lemma RetriedCountAppend(a: seq<Event>, e: Event)
    ensures RetriedCount(a + [e]) == RetriedCount(a) + (if e.RunRetried? then 1 else 0)
  {
    assert (a + [e])[..|a|] == a;
  }

  lemma AttemptStaysOver(cause: Cause, a: Run, b: Run, t: nat, s: nat, attempt: nat)
    requires RunEdge(cause, a, b) && AttemptOver(a, t, s, attempt)
    ensures AttemptOver(b, t, s, attempt)
  {
    assert TargetEdge(cause, t, a.maxAttempts, a.targets[t], b.targets[t]);
    assert StepEdge(cause, t, s, a.maxAttempts, a.targets[t].steps[s], b.targets[t].steps[s]);
  }

  /** An event stays true of the run; RUN_CANCELLED because a cancelled run moves no more. */
  lemma EventStaysOk(cause: Cause, a: Run, b: Run, e: Event)
    requires RunEdge(cause, a, b) && EventOk(a, e)
    ensures EventOk(b, e)
  {
    match e
    case StepFailed(t, s, attempt) => AttemptStaysOver(cause, a, b, t, s, attempt);
    case StepPartial(t, s, attempt) => AttemptStaysOver(cause, a, b, t, s, attempt);
    case RunRetried(_) => RetriedCountGrows(a.events, b.events);
    case RunCreated =>
    case StepSucceeded(_) =>
    case CancelRequested =>
    case RunCancelled =>
    case RunFinished =>
  }

  /** The events an operation adds are new and true of the run it leaves. */
  ghost predicate NewEvents(a: Run, b: Run, added: seq<Event>) {
    && b.events == a.events + added
    && Distinct(added)
    && forall e :: e in added ==> e !in a.events && EventOk(b, e)
  }

  ghost predicate CancelAnnounced(a: Run, b: Run, added: seq<Event>) {
    b.status in {RunStatus.Cancelling, RunStatus.Cancelled} ==>
      a.status in {RunStatus.Cancelling, RunStatus.Cancelled} || CancelRequested in added
  }

  lemma EventsKept(cause: Cause, a: Run, b: Run, added: seq<Event>)
    requires RunEdge(cause, a, b) && EventsOk(a) && NewEvents(a, b, added)
    requires CancelAnnounced(a, b, added)
    ensures EventsOk(b)
  {
    forall e | e in b.events ensures EventOk(b, e) {
      if e in a.events {
        EventStaysOk(cause, a, b, e);
      }
    }
    assert forall i :: 0 <= i < |a.events| ==> b.events[i] in a.events;
    assert forall i :: |a.events| <= i < |b.events| ==> b.events[i] in added;
  }

  // ---------------------------------------------------------------- step keys

  ghost predicate KeyOk(key: StepKey, i: nat, loopCount: nat) {
    match key
    case Initial(p) => p == i
    case GapLoop(loop, _) => loop <= loopCount
    case ManualRetry(next, _) => next <= i
  }

  ghost predicate KeysOk(steps: seq<Step>, loopCount: nat) {
    && (forall i :: 0 <= i < |steps| ==> KeyOk(steps[i].key, i, loopCount))
    && (forall i, j :: 0 <= i < j < |steps| ==> steps[i].key != steps[j].key)
  }

  lemma KeysKept(a: seq<Step>, b: seq<Step>, loopCount: nat)
    requires KeysOk(a, loopCount) && |b| == |a|
    requires forall i :: 0 <= i < |a| ==> b[i].key == a[i].key
    ensures KeysOk(b, loopCount)
  {}

  lemma BlockKeys(steps: seq<Step>, block: seq<Step>, a: nat, b: nat)
    requires KeysOk(steps, a)
    requires (b == a + 1 && block == GapBlock(|steps|, b)) || (b == a && block == RetryBlock(|steps|))
    ensures KeysOk(steps + block, b)
  {
    forall i, j | 0 <= i < j < |steps + block| ensures (steps + block)[i].key != (steps + block)[j].key {
      TwoKeysDiffer(steps, block, a, b, i, j);
    }
    forall i | 0 <= i < |steps| ensures KeyOk(steps[i].key, i, b) {
      assert KeyOk(steps[i].key, i, a);
    }
  }

  lemma TwoKeysDiffer(steps: seq<Step>, block: seq<Step>, a: nat, b: nat, i: nat, j: nat)
    requires KeysOk(steps, a) && i < j < |steps + block|
    requires (b == a + 1 && block == GapBlock(|steps|, b)) || (b == a && block == RetryBlock(|steps|))
    ensures (steps + block)[i].key != (steps + block)[j].key
  {
    var n := |steps|;
    if j >= n {
      if i < n {
        OldKeyDiffers(steps, block, a, b, i, j - n);
      } else {
        BlockKeysDiffer(steps, block, b, i - n, j - n);
      }
    }
  }

  lemma BlockKeysDiffer(steps: seq<Step>, block: seq<Step>, b: nat, i: nat, j: nat)
    requires i < j < 9 && (block == GapBlock(|steps|, b) || block == RetryBlock(|steps|))
    ensures block[i].key != block[j].key
  {
    KindsDiffer(i, j);
  }

  lemma OldKeyDiffers(steps: seq<Step>, block: seq<Step>, a: nat, b: nat, i: nat, j: nat)
    requires KeysOk(steps, a) && i < |steps| && j < 9
    requires (b == a + 1 && block == GapBlock(|steps|, b)) || (b == a && block == RetryBlock(|steps|))
    ensures steps[i].key != block[j].key
  {
    assert KeyOk(steps[i].key, i, a);
  }

  lemma KindsDiffer(i: nat, j: nat)
    requires i < j < 9
    ensures STEP_KINDS[1 + i] != STEP_KINDS[1 + j]
  {}

  // ---------------------------------------------------------------- all of it

  /** Gap loops and manual retries are what makes a target longer, nine steps each. */
  ghost predicate SizeOk(target: Target, maxGapLoops: nat, retries: nat) {
    && target.loopCount <= maxGapLoops
    && |target.steps| <= 10 + 9 * (target.loopCount + retries)
  }

  ghost predicate TargetRecords(target: Target, maxGapLoops: nat, retries: nat) {
    KeysOk(target.steps, target.loopCount) && SizeOk(target, maxGapLoops, retries)
  }

  ghost predicate RecordsOk(run: Run, maxGapLoops: nat) {
    forall t :: 0 <= t < |run.targets| ==>
      TargetRecords(run.targets[t], maxGapLoops, RetriedCount(run.events))
  }

  ghost predicate RunOk(run: Run, maxGapLoops: nat) {
    RunShape(run) && EventsOk(run) && RecordsOk(run, maxGapLoops)
  }

  ghost predicate SameLength(a: Run, b: Run) {
    |a.targets| == |b.targets| && forall t :: 0 <= t < |a.targets| ==>
      |b.targets[t].steps| == |a.targets[t].steps| && b.targets[t].loopCount == a.targets[t].loopCount
  }

  lemma RecordsKept(cause: Cause, a: Run, b: Run, maxGapLoops: nat)
    requires RunEdge(cause, a, b) && RecordsOk(a, maxGapLoops) && SameLength(a, b)
    ensures RecordsOk(b, maxGapLoops)
  {
    RetriedCountGrows(a.events, b.events);
    forall t | 0 <= t < |b.targets|
      ensures TargetRecords(b.targets[t], maxGapLoops, RetriedCount(b.events))
    {
      TargetRecordsKept(cause, t, a.maxAttempts, a.targets[t], b.targets[t], maxGapLoops,
                        RetriedCount(a.events), RetriedCount(b.events));
    }
  }

  lemma TargetRecordsKept(
    cause: Cause, t: nat, maxAttempts: nat, a: Target, b: Target, maxGapLoops: nat, before: nat, after: nat)
    requires TargetEdge(cause, t, maxAttempts, a, b) && TargetRecords(a, maxGapLoops, before)
    requires |b.steps| == |a.steps| && b.loopCount == a.loopCount && before <= after
    ensures TargetRecords(b, maxGapLoops, after)
  {
    forall i | 0 <= i < |a.steps| ensures b.steps[i].key == a.steps[i].key {
      assert StepEdge(cause, t, i, maxAttempts, a.steps[i], b.steps[i]);
    }
    KeysKept(a.steps, b.steps, a.loopCount);
  }

  ghost predicate SameSuccessEvents(a: Run, b: Run) {
    forall key :: StepSucceeded(key) in b.events ==> StepSucceeded(key) in a.events
  }

  /** How the pieces fit: shape and edge are known, only new events and lengths are left to say. */
  lemma Assemble(cause: Cause, a: Run, b: Run, added: seq<Event>, maxGapLoops: nat)
    requires RunOk(a, maxGapLoops) && RunShape(b) && RunEdge(cause, a, b)
    requires NewEvents(a, b, added) && CancelAnnounced(a, b, added) && SameLength(a, b)
    ensures RunOk(b, maxGapLoops)
  {
    EventsKept(cause, a, b, added);
    RecordsKept(cause, a, b, maxGapLoops);
  }

  // ---------------------------------------------------------------- operation by operation

  lemma LeaseRunOk(run: Run, t: nat, s: nat, owner: string, now: int, duration: int, maxGapLoops: nat)
    requires RunOk(run, maxGapLoops) && HasStep(run, t, s) && EligibleStep(run, t, s, now)
    ensures RunOk(LeaseStep(run, t, s, owner, now, duration), maxGapLoops)
    ensures RunEdge(ByLease(t, s), run, LeaseStep(run, t, s, owner, now, duration))
    ensures SameSuccessEvents(run, LeaseStep(run, t, s, owner, now, duration))
  {
    var after := LeaseStep(run, t, s, owner, now, duration);
    LeaseKeepsShape(run, t, s, owner, now, duration);
    LeaseEdge(run, t, s, owner, now, duration);
    Assemble(ByLease(t, s), run, after, [], maxGapLoops);
  }

  /** RUN_CANCELLED is announced at the moment the run becomes CANCELLED. */
  lemma CancelledEvents(a: Run, b: Run) returns (added: seq<Event>)
    requires EventsOk(a)
    requires a.status in {RunStatus.Cancelling, RunStatus.Cancelled} || b.status == a.status
    requires || b.events == a.events
             || (a.status == RunStatus.Cancelling && b.status == RunStatus.Cancelled
                 && b.events == a.events + [RunCancelled])
    ensures NewEvents(a, b, added) && CancelAnnounced(a, b, added) && SameSuccessEvents(a, b)
  {
    if b.events == a.events {
      added := [];
    } else {
      added := [RunCancelled];
      assert EventOk(b, RunCancelled);
      assert RunCancelled in a.events ==> EventOk(a, RunCancelled);
    }
  }

  lemma ReconcileRunOk(run: Run, now: int, maxGapLoops: nat)
    requires RunOk(run, maxGapLoops)
    ensures RunOk(ReconcileRun(run, now), maxGapLoops)
    ensures RunEdge(ByReclaim, run, ReconcileRun(run, now))
    ensures SameSuccessEvents(run, ReconcileRun(run, now))
  {
    ReconcileHeader(run, now);
    ReconcileEdge(run, now);
    ReconciledRunOk(run, ReconcileRun(run, now), maxGapLoops);
  }

  lemma ReconcileHeader(run: Run, now: int)
    requires RunShape(run)
    ensures var after := ReconcileRun(run, now);
      && SameLength(run, after)
      && (after.status == run.status
          || (run.status == RunStatus.Cancelling && after.status == RunStatus.Cancelled))
      && (after.events == run.events
          || (after.status == RunStatus.Cancelled && run.status == RunStatus.Cancelling
              && after.events == run.events + [RunCancelled]))
  {
    ReconcileFacts(run, now);
  }

  lemma ReconciledRunOk(run: Run, after: Run, maxGapLoops: nat)
    requires RunOk(run, maxGapLoops) && RunShape(after) && RunEdge(ByReclaim, run, after)
    requires SameLength(run, after)
    requires after.status == run.status
             || (run.status == RunStatus.Cancelling && after.status == RunStatus.Cancelled)
    requires after.events == run.events
             || (after.status == RunStatus.Cancelled && run.status == RunStatus.Cancelling
                 && after.events == run.events + [RunCancelled])
    ensures RunOk(after, maxGapLoops) && SameSuccessEvents(run, after)
  {
    var added := CancelledEvents(run, after);
    Assemble(ByReclaim, run, after, added, maxGapLoops);
  }

  lemma BoundaryRunOk(run: Run, t: nat, s: nat, now: int, maxGapLoops: nat)
    requires RunOk(run, maxGapLoops) && run.status == RunStatus.Cancelling && IsRunning(run, t, s)
    ensures RunOk(CancelAtBoundary(run, t, s, now), maxGapLoops)
    ensures RunEdge(ByHolder(t, s, false), run, CancelAtBoundary(run, t, s, now))
    ensures SameSuccessEvents(run, CancelAtBoundary(run, t, s, now))
  {
    var after := CancelAtBoundary(run, t, s, now);
    BoundaryKeepsShape(run, t, s, now);
    BoundaryEdge(run, t, s, now, ByHolder(t, s, false));
    BoundaryHeader(run, t, s, now);
    var added := CancelledEvents(run, after);
    Assemble(ByHolder(t, s, false), run, after, added, maxGapLoops);
  }

  lemma BoundaryHeader(run: Run, t: nat, s: nat, now: int)
    requires HasStep(run, t, s)
    ensures var after := CancelAtBoundary(run, t, s, now);
      && SameLength(run, after)
      && (after.events == run.events
          || (after.status == RunStatus.Cancelled && after.events == run.events + [RunCancelled]))
      && (forall u :: 0 <= u < |run.targets| ==>
            forall i :: 0 <= i < |run.targets[u].steps| ==>
              after.targets[u].steps[i].key == run.targets[u].steps[i].key)
  {}

  /** The extended target's keys and size, whatever happens to its rows in the same action. */
  lemma ExtendedRecords(cause: Cause, a: Run, t: nat, longer: Run, b: Run, maxGapLoops: nat)
    requires RunEdge(cause, a, b) && RecordsOk(a, maxGapLoops) && t < |a.targets|
    requires a.targets[t].loopCount < maxGapLoops
    requires longer == ExtendedBy(a, t, GapBlock(|a.targets[t].steps|, a.targets[t].loopCount + 1))
    requires SameLength(longer, b)
    requires forall i :: 0 <= i < |longer.targets[t].steps| ==>
      b.targets[t].steps[i].key == longer.targets[t].steps[i].key
    ensures RecordsOk(b, maxGapLoops)
  {
    RetriedCountGrows(a.events, b.events);
    forall u | 0 <= u < |b.targets|
      ensures TargetRecords(b.targets[u], maxGapLoops, RetriedCount(b.events))
    {
      if u == t {
        ExtendedKeys(a.targets[t], b.targets[t]);
      } else {
        assert longer.targets[u] == a.targets[u];
        TargetRecordsKept(cause, u, a.maxAttempts, a.targets[u], b.targets[u], maxGapLoops,
                          RetriedCount(a.events), RetriedCount(b.events));
      }
    }
  }

  lemma ExtendedKeys(a: Target, b: Target)
    requires KeysOk(a.steps, a.loopCount) && b.loopCount == a.loopCount + 1
    requires var longer := a.steps + GapBlock(|a.steps|, a.loopCount + 1);
      && |b.steps| == |longer| && forall i :: 0 <= i < |longer| ==> b.steps[i].key == longer[i].key
    ensures KeysOk(b.steps, b.loopCount)
  {
    var block := GapBlock(|a.steps|, a.loopCount + 1);
    BlockKeys(a.steps, block, a.loopCount, a.loopCount + 1);
    KeysKept(a.steps + block, b.steps, a.loopCount + 1);
  }

  lemma CancelledGapLoopRunOk(run: Run, t: nat, s: nat, now: int, maxGapLoops: nat)
    requires RunOk(run, maxGapLoops) && run.status == RunStatus.Cancelling && IsRunning(run, t, s)
    requires run.targets[t].loopCount < maxGapLoops
    ensures HasStep(ExtendTarget(run, t), t, s)
    ensures RunOk(CancelAtBoundary(ExtendTarget(run, t), t, s, now), maxGapLoops)
    ensures RunEdge(ByHolder(t, s, false), run, CancelAtBoundary(ExtendTarget(run, t), t, s, now))
    ensures SameSuccessEvents(run, CancelAtBoundary(ExtendTarget(run, t), t, s, now))
  {
    CancelledGapLoopKeepsShape(run, t, s, now);
    CancelledGapLoopEdge(run, t, s, now);
    ExtendedIn(run, t, s);
    var longer := ExtendTarget(run, t);
    var after := CancelAtBoundary(longer, t, s, now);
    BoundaryHeader(longer, t, s, now);
    var added := CancelledEvents(run, after);
    EventsKept(ByHolder(t, s, false), run, after, added);
    ExtendedRecords(ByHolder(t, s, false), run, t, longer, after, maxGapLoops);
  }

  lemma ExtendedIn(run: Run, t: nat, s: nat)
    requires RunShape(run) && IsRunning(run, t, s)
    ensures ExtendTarget(run, t) == ExtendedBy(run, t, GapBlock(|run.targets[t].steps|, run.targets[t].loopCount + 1))
    ensures HasStep(ExtendTarget(run, t), t, s)
  {
    RunningMeansActive(run, t, s);
    Extended(run, t);
  }

  lemma SuccessRunOk(
    run: Run, t: nat, s: nat, effectKey: string, outputRefs: seq<string>, outcome: Option<RunOutcome>, now: int,
    maxGapLoops: nat)
    requires RunOk(run, maxGapLoops) && run.status != RunStatus.Cancelling && IsRunning(run, t, s)
    requires StepSucceeded(effectKey) !in run.events
    ensures var after := SucceedStep(run, t, s, effectKey, outputRefs, StepState(false, outcome), now);
      RunOk(after, maxGapLoops) && RunEdge(ByHolder(t, s, true), run, after)
  {
    var after := SucceedStep(run, t, s, effectKey, outputRefs, StepState(false, outcome), now);
    SuccessKeepsShape(run, t, s, effectKey, outputRefs, outcome, now);
    SuccessEdge(run, t, s, effectKey, outputRefs, outcome, now);
    SuccessHeader(run, t, s, effectKey, outputRefs, StepState(false, outcome), now);
    var added := FinishedEvents(run, after, StepSucceeded(effectKey));
    RunningNotCancelled(run, t, s, after);
    Assemble(ByHolder(t, s, true), run, after, added, maxGapLoops);
  }

  lemma RunningNotCancelled(run: Run, t: nat, s: nat, after: Run)
    requires RunShape(run) && run.status != RunStatus.Cancelling && IsRunning(run, t, s)
    requires after.status == run.status
             || after.status in {RunStatus.WaitingRetry, RunStatus.Succeeded, RunStatus.Failed}
    ensures forall added :: CancelAnnounced(run, after, added)
  {
    RunningMeansActive(run, t, s);
  }

  lemma SuccessHeader(
    run: Run, t: nat, s: nat, effectKey: string, outputRefs: seq<string>, state: StepState, now: int)
    requires HasStep(run, t, s)
    ensures var after := SucceedStep(run, t, s, effectKey, outputRefs, state, now);
      && (|| after.events == run.events + [StepSucceeded(effectKey)]
          || (after.events == run.events + [RunFinished, StepSucceeded(effectKey)] && RunFinished !in run.events))
      && SameLength(run, after)
      && (after.status == run.status || after.status in {RunStatus.Succeeded, RunStatus.Failed})
  {}

  /** One new event, with RUN_FINISHED before it when the run ends for the first time. */
  lemma FinishedEvents(a: Run, b: Run, event: Event) returns (added: seq<Event>)
    requires event !in a.events && EventOk(b, event) && event != RunFinished
    requires || b.events == a.events + [event]
             || (b.events == a.events + [RunFinished, event] && RunFinished !in a.events)
    ensures NewEvents(a, b, added)
    ensures !event.StepSucceeded? ==> SameSuccessEvents(a, b)
  {
    added := if b.events == a.events + [event] then [event] else [RunFinished, event];
  }

  lemma GapLoopRunOk(
    run: Run, t: nat, s: nat, effectKey: string, outputRefs: seq<string>, now: int, maxGapLoops: nat)
    requires RunOk(run, maxGapLoops) && run.status != RunStatus.Cancelling && IsRunning(run, t, s)
    requires run.targets[t].steps[s].kind == StepKind.Complete && run.targets[t].loopCount < maxGapLoops
    requires StepSucceeded(effectKey) !in run.events
    ensures HasStep(ExtendTarget(run, t), t, s)
    ensures var after := SucceedStep(ExtendTarget(run, t), t, s, effectKey, outputRefs, StepState(true, None), now);
      RunOk(after, maxGapLoops) && RunEdge(ByHolder(t, s, true), run, after)
  {
    GapLoopKeepsShape(run, t, s, effectKey, outputRefs, now);
    GapLoopEdge(run, t, s, effectKey, outputRefs, now);
    ExtendedIn(run, t, s);
    var longer := ExtendTarget(run, t);
    var after := SucceedStep(longer, t, s, effectKey, outputRefs, StepState(true, None), now);
    ContinueHeader(longer, t, s, effectKey, outputRefs, now);
    var added := FinishedEvents(run, after, StepSucceeded(effectKey));
    RunningNotCancelled(run, t, s, after);
    EventsKept(ByHolder(t, s, true), run, after, added);
    ExtendedRecords(ByHolder(t, s, true), run, t, longer, after, maxGapLoops);
  }

  lemma ContinueHeader(run: Run, t: nat, s: nat, effectKey: string, outputRefs: seq<string>, now: int)
    requires HasStep(run, t, s)
    ensures var after := SucceedStep(run, t, s, effectKey, outputRefs, StepState(true, None), now);
      && after.events == run.events + [StepSucceeded(effectKey)]
      && after.status == run.status
      && SameLength(run, after)
      && (forall i :: 0 <= i < |run.targets[t].steps| ==>
            after.targets[t].steps[i].key == run.targets[t].steps[i].key)
  {}

  /** Neither failure nor partial result of the attempt in flight has been announced. */
  lemma AttemptIsOpen(run: Run, t: nat, s: nat)
    requires EventsOk(run) && IsRunning(run, t, s)
    ensures StepFailed(t, s, run.targets[t].steps[s].attemptCount) !in run.events
    ensures StepPartial(t, s, run.targets[t].steps[s].attemptCount) !in run.events
  {
    var n := run.targets[t].steps[s].attemptCount;
    assert StepFailed(t, s, n) in run.events ==> EventOk(run, StepFailed(t, s, n));
    assert StepPartial(t, s, n) in run.events ==> EventOk(run, StepPartial(t, s, n));
  }

  lemma RetryLaterRunOk(run: Run, t: nat, s: nat, error: string, retryAt: int, now: int, maxGapLoops: nat)
    requires RunOk(run, maxGapLoops) && run.status != RunStatus.Cancelling && IsRunning(run, t, s)
    requires run.targets[t].steps[s].attemptCount < run.maxAttempts
    ensures CanMove(run.status, RunStatus.WaitingRetry)
    ensures var after := WithEvent(ScheduleRetry(run, t, s, error, retryAt, now),
                                   StepFailed(t, s, run.targets[t].steps[s].attemptCount));
      RunOk(after, maxGapLoops) && RunEdge(ByHolder(t, s, false), run, after) && SameSuccessEvents(run, after)
  {
    var event := StepFailed(t, s, run.targets[t].steps[s].attemptCount);
    var mid := ScheduleRetry(run, t, s, error, retryAt, now);
    RetryLaterKeepsShape(run, t, s, error, retryAt, now);
    RetryLaterEdge(run, t, s, error, retryAt, now);
    RetryLaterHeader(run, t, s, error, retryAt, now);
    EndingRunOk(run, t, s, mid, event, maxGapLoops);
  }

  lemma RetryLaterHeader(run: Run, t: nat, s: nat, error: string, retryAt: int, now: int)
    requires HasStep(run, t, s)
    ensures var after := ScheduleRetry(run, t, s, error, retryAt, now);
      && after.events == run.events && SameLength(run, after) && after.status == RunStatus.WaitingRetry
      && |after.targets[t].steps| == |run.targets[t].steps|
      && after.targets[t].steps[s].status == RunStatus.WaitingRetry
      && after.targets[t].steps[s].attemptCount == run.targets[t].steps[s].attemptCount
  {}

  /** The attempt in flight ends without success and is announced once. */
  lemma EndingRunOk(run: Run, t: nat, s: nat, mid: Run, event: Event, maxGapLoops: nat)
    requires RunOk(run, maxGapLoops) && run.status != RunStatus.Cancelling && IsRunning(run, t, s)
    requires RunShape(mid) && RunEdge(ByHolder(t, s, false), run, mid) && SameLength(run, mid)
    requires mid.events == run.events || (mid.events == run.events + [RunFinished] && RunFinished !in run.events)
    requires mid.status == run.status
             || mid.status in {RunStatus.WaitingRetry, RunStatus.Succeeded, RunStatus.Failed}
    requires HasStep(mid, t, s) && mid.targets[t].steps[s].status != RunStatus.Running
    requires mid.targets[t].steps[s].attemptCount == run.targets[t].steps[s].attemptCount
    requires var attempt := run.targets[t].steps[s].attemptCount;
      event == StepFailed(t, s, attempt) || event == StepPartial(t, s, attempt)
    ensures var after := WithEvent(mid, event);
      RunOk(after, maxGapLoops) && RunEdge(ByHolder(t, s, false), run, after) && SameSuccessEvents(run, after)
  {
    AttemptIsOpen(run, t, s);
    var added := EndingEvents(run, t, s, mid, event);
    EventKeepsShape(mid, event);
    RunningNotCancelled(run, t, s, mid);
    assert CancelAnnounced(run, mid, added);
    EndingEdge(ByHolder(t, s, false), run, mid, event);
    Assemble(ByHolder(t, s, false), run, WithEvent(mid, event), added, maxGapLoops);
  }

  lemma EndingEvents(run: Run, t: nat, s: nat, mid: Run, event: Event) returns (added: seq<Event>)
    requires HasStep(run, t, s) && HasStep(mid, t, s) && mid.targets[t].steps[s].status != RunStatus.Running
    requires mid.targets[t].steps[s].attemptCount == run.targets[t].steps[s].attemptCount
    requires var attempt := run.targets[t].steps[s].attemptCount;
      event == StepFailed(t, s, attempt) || event == StepPartial(t, s, attempt)
    requires event !in run.events
    requires mid.events == run.events || (mid.events == run.events + [RunFinished] && RunFinished !in run.events)
    ensures NewEvents(run, WithEvent(mid, event), added) && SameSuccessEvents(run, WithEvent(mid, event))
  {
    var after := WithEvent(mid, event);
    assert EventOk(after, event);
    assert mid.events == run.events + [RunFinished] ==> after.events == run.events + [RunFinished, event];
    added := FinishedEvents(run, after, event);
  }

  lemma EndingEdge(cause: Cause, run: Run, mid: Run, event: Event)
    requires RunEdge(cause, run, mid) && !event.RunRetried?
    ensures RunEdge(cause, run, WithEvent(mid, event))
  {
  }

  lemma CloseRunOk(
    run: Run, t: nat, s: nat, error: string, outcome: RunOutcome, which: set<RunStatus>, event: Event, now: int,
    maxGapLoops: nat)
    requires RunOk(run, maxGapLoops) && run.status != RunStatus.Cancelling && IsRunning(run, t, s)
    requires which == {RunStatus.Pending} || which == {RunStatus.Pending, RunStatus.WaitingRetry}
    requires var attempt := run.targets[t].steps[s].attemptCount;
      event == StepFailed(t, s, attempt) || event == StepPartial(t, s, attempt)
    ensures var after := WithEvent(CloseTarget(run, t, s, error, outcome, which, now), event);
      RunOk(after, maxGapLoops) && RunEdge(ByHolder(t, s, false), run, after) && SameSuccessEvents(run, after)
  {
    CloseKeepsShape(run, t, s, error, outcome, which, now);
    CloseEdge(run, t, s, error, outcome, which, now);
    CloseHeader(run, t, s, error, outcome, which, now);
    EndingRunOk(run, t, s, CloseTarget(run, t, s, error, outcome, which, now), event, maxGapLoops);
  }

  lemma CloseHeader(run: Run, t: nat, s: nat, error: string, outcome: RunOutcome, which: set<RunStatus>, now: int)
    requires HasStep(run, t, s)
    requires which == {RunStatus.Pending} || which == {RunStatus.Pending, RunStatus.WaitingRetry}
    ensures var after := CloseTarget(run, t, s, error, outcome, which, now);
      && (|| after.events == run.events
          || (after.events == run.events + [RunFinished] && RunFinished !in run.events))
      && SameLength(run, after)
      && (after.status == run.status || after.status in {RunStatus.Succeeded, RunStatus.Failed})
      && |after.targets[t].steps| == |run.targets[t].steps|
      && after.targets[t].steps[s].status == RunStatus.Failed
      && after.targets[t].steps[s].attemptCount == run.targets[t].steps[s].attemptCount
  {}

  lemma RequestCancelRunOk(run: Run, now: int, maxGapLoops: nat)
    requires RunOk(run, maxGapLoops) && run.status !in TERMINAL && CancelRequested !in run.events
    ensures RunOk(RequestCancelRun(run, now), maxGapLoops)
    ensures RunEdge(ByCancel, run, RequestCancelRun(run, now))
    ensures SameSuccessEvents(run, RequestCancelRun(run, now))
  {
    var after := RequestCancelRun(run, now);
    RequestCancelKeepsShape(run, now);
    RequestCancelEdge(run, now);
    RequestCancelHeader(run, now);
    Assemble(ByCancel, run, after, [CancelRequested], maxGapLoops);
  }

  lemma RequestCancelHeader(run: Run, now: int)
    requires CancelRequested !in run.events
    ensures var after := RequestCancelRun(run, now);
      SameLength(run, after) && NewEvents(run, after, [CancelRequested])
  {}

  lemma FinishRunOk(run: Run, maxGapLoops: nat)
    requires RunOk(run, maxGapLoops) && AllOutcomesKnown(run.targets)
    ensures RunOk(Aggregate(run), maxGapLoops)
    ensures RunEdge(ByFinish, run, Aggregate(run))
    ensures SameSuccessEvents(run, Aggregate(run))
  {
    FinishKeepsShape(run);
    FinishEdge(run);
    Assemble(ByFinish, run, Aggregate(run), if RunFinished in run.events then [] else [RunFinished], maxGapLoops);
  }

  lemma RetryRunOk(run: Run, now: int, maxGapLoops: nat)
    requires RunOk(run, maxGapLoops) && Retryable(run)
    requires exists t :: 0 <= t < |run.targets| && Reopens(run, t)
    ensures RunOk(RetryRun(run, now), maxGapLoops)
    ensures RunEdge(ByRetry, run, RetryRun(run, now))
    ensures SameSuccessEvents(run, RetryRun(run, now))
  {
    RetryKeepsShape(run, now);
    RetryEdge(run, now);
    RetryEvents(run, now);
    RetryRecords(run, now, maxGapLoops);
  }

  lemma RetryEvents(run: Run, now: int)
    requires EventsOk(run) && RunEdge(ByRetry, run, RetryRun(run, now))
    ensures EventsOk(RetryRun(run, now)) && SameSuccessEvents(run, RetryRun(run, now))
  {
    var after := RetryRun(run, now);
    var event := RunRetried(RetriedCount(run.events) + 1);
    RetriedCountAppend(run.events, event);
    assert event in run.events ==> EventOk(run, event);
    EventsKept(ByRetry, run, after, [event]);
  }

  lemma RetryRecords(run: Run, now: int, maxGapLoops: nat)
    requires RunShape(run) && Retryable(run) && RecordsOk(run, maxGapLoops)
    requires RunEdge(ByRetry, run, RetryRun(run, now))
    ensures RecordsOk(RetryRun(run, now), maxGapLoops)
  {
    var after := RetryRun(run, now);
    RetriedCountAppend(run.events, RunRetried(RetriedCount(run.events) + 1));
    forall t | 0 <= t < |run.targets|
      ensures TargetRecords(after.targets[t], maxGapLoops, RetriedCount(after.events))
    {
      RetryTargetRecords(t, run.maxAttempts, run.targets[t], run.outcome == Some(RunOutcome.Partial), now,
                         maxGapLoops, RetriedCount(run.events));
    }
  }

  lemma RetryTargetRecords(
    t: nat, maxAttempts: nat, target: Target, partialRun: bool, now: int, maxGapLoops: nat, retries: nat)
    requires Settled(target) && TargetRecords(target, maxGapLoops, retries)
    requires TargetEdge(ByRetry, t, maxAttempts, target, RetryTarget(target, partialRun, now))
    ensures TargetRecords(RetryTarget(target, partialRun, now), maxGapLoops, retries + 1)
  {
    if !HasFailedStep(target) && partialRun && target.outcome == Some(RunOutcome.Partial) {
      NextPositionIsLength(target.steps);
      BlockKeys(target.steps, RetryBlock(|target.steps|), target.loopCount, target.loopCount);
    } else {
      TargetRecordsKept(ByRetry, t, maxAttempts, target, RetryTarget(target, partialRun, now), maxGapLoops,
                        retries, retries + 1);
    }
  }

  lemma NewRunOk(command: CreateCommand, key: string, maxGapLoops: nat)
    requires ValidCommand(command)
    ensures RunOk(NewRun(command, key), maxGapLoops)
  {
    var run := NewRun(command, key);
    NewRunShape(command, key);
    assert KeysOk(InitialSteps(), 0);
    forall t | 0 <= t < |run.targets| ensures TargetRecords(run.targets[t], maxGapLoops, RetriedCount(run.events)) {
      assert run.targets[t].steps == InitialSteps();
    }
  }
}
