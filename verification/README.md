# Verified model of the v2 research backend

This project models the parts of the research backend whose correctness is hardest to see from the
code, and proves what they promise for all inputs, runs and histories. `dafny verify dfyconfig.toml`
checks all of it.

## The durable run kernel

A run has targets, a target an ordered list of steps, a step its numbered attempts. Workers lease
steps, checkpoint them and may die at any point; expired leases are reclaimed, runs are cancelled and
manually retried.

* `Domain`, `RunRows` hold the vocabulary and the rows. Rows are named by where they stand, since
  nothing is ever deleted and every list grows only at its end; this stands for the fresh ids the code
  draws. Outbox events are kept with their run, one constructor for each format of effect key.
* `RunOperations` says what each public method of the kernel commits, `ResearchRuns` is the class with
  the methods as the code has them, each proved to commit exactly that.
* `RunInvariants`, `RunMoves` and `RunRecords` hold the shape every run keeps, the edges one
  transaction can take a step or a run along, and the records (outbox keys, step keys, sizes).
* `RunHistory` puts the transactions together: a history is any sequence of them, by any number of
  workers, with stale leases, reused effect keys and clocks that run backwards. `RunTheorems`,
  `RunBudget` and `RunDraining` state what holds after every history, how long it can go on and how a
  cancelled run ends. `RunCrash` shows why one assumption is needed.
* `RunLeases` follows a lease from its grant to the work done under it. `RunEffects`, `RunRestarts` and
  `RunReplies` say, column by column, what each call leaves in the rows of a reachable state.

Assumptions. Each `session.begin()` block is one atomic step. The gap loop's `append_step` calls and
the COMPLETE step's success with `continue_loop` are one action, taken only while the lease is valid and
at most `maxGapLoops` times per target; a COMPLETE step checkpointed without it is the last of its target.
The code does not make this atomic; `RunCrash` proves what a crash in between does. The payload hash and
the effect key formats are injective. The unique index on outbox keys is not relied on: the model inserts
every event without checking (except a second cancel request, which the index does reject) and proves that
no key repeats.

## The canon graph, inheritance, and the independent algorithms

* `CanonGraph`: the depth-first cycle check and the two ways relationships are stored behind it.
* `Inheritance`: the relaxation loop of `effective_knowledge`.
* `JsonPointer`, `SchemaTranslation`, `SchemaReferences`, `SchemaCycles`: the translation of JSON schemas
  for Gemini, on all JSON documents; when it fails and when that means a reference cycle.
* `SchemaMeaning`, `SchemaWeakening`, `SchemaConditions`, `SchemaExactness`: what a schema means, when its
  translation only accepts more, where it does not, and when it means the same.
* `SeedImport`: wave-by-wave import of worlds.
* `LogFiles`, `LogPages`: rotation, and reading pages newest first while others write.
* `Routing`: credentials, candidates, attempts and the spread of load.
* `WikiQueue`: the budgeted greedy choice of wiki pages and the queue it feeds.
* `SearchCache`: the cache of search results under concurrent searches.
* `Chunking`: cutting a text at blank lines.
* `Ordering`, `Collections`, `Utf8`: sorting, string order, sets and byte sizes used by these.

Lemmas called `...Means` or `...Mean` state a definition over again in the source's terms, with its
constants and boundaries; those that follow from one definition alone have no row below.

## Findings

* backend/app/v2/workflow.py:2206-2221: a worker that stops between the gap loop's appends and the
  checkpoint leaves the appended steps behind; a later success without `continue_loop` finishes the target
  cleanly exactly when nothing had been appended (`RunCrash.PlainSuccessIsCleanIffNothingWasAppended`).
  Otherwise the first of them can be leased in the finished target while another target is unfinished, and
  is left open when the run closes (`RunCrash.OrphansAreLeasableUntilTheRunCloses`).
* backend/app/v2/research_runs.py:724-732: nothing ever sets WAITING_INPUT, so `resume` always refuses
  (`RunTheorems.ResumeAlwaysRefuses`).
* backend/app/v2/research_runs.py:622-656: a second `request_cancel` on a CANCELLING run violates the
  outbox index, as its effect key is the same (`RunTheorems.CancelTwiceIsRejected`).
* backend/app/v2/providers.py:284-292: what stands beside a reference is translated while the reference is
  open. Entries that hold references can make a schema without any reference cycle fail as recursive
  (`SchemaCycles.SiblingsCanLookRecursive`), entries that override one can make a cyclic schema translatable
  (`SchemaCycles.SiblingsCanHideRecursion`). The error is met exactly when a route of nested uses repeats a
  reference (`SchemaReferences.RecursionIffUsesRepeat`); where no sibling holds or hides references, exactly
  when the references have a cycle (`SchemaCycles.TranslatableIffAcyclic`).
* backend/app/v2/providers.py:305-314: whatever else an integer schema with a fractional exclusive bound
  holds, the bound written in its place refuses an integer the exclusive bound accepts; the bound written
  weakens the original one exactly when that is whole
  (`SchemaConditions.IntegersWeakenIffTheBoundIsWhole`). `{"type": "integer", "exclusiveMinimum": 0.5}` accepts
  1 and its translation refuses it (`SchemaConditions.FractionalBoundsRefuse`); a schema of only an integer's
  exclusive bound is translated soundly exactly when the bound is whole
  (`SchemaConditions.BareIntegersWeakenIffTheBoundIsWhole`).
* backend/app/v2/providers.py:291-293: a `prefixItems` beside a reference replaces the target's. A shorter one
  lets the target's `items` start earlier: a use of pairs with a `prefixItems` of one beside it accepts a pair
  and its translation refuses it (`SchemaConditions.ShorterPrefixesRefuse`). Items that start elsewhere accept
  all they did exactly when they start no earlier or accept everything
  (`SchemaConditions.ItemsWeakenIffLaterOrFree`).
* backend/app/v2/providers.py:293-304: the values of `const` and `enum` are rewritten as if they were
  schemas. `{"const": {"$schema": "x"}}` is translated to `{"const": {}}`
  (`SchemaConditions.ConstantsAreRewritten`); what such a keyword accepts is still accepted exactly when its
  value holds no reference and no dropped keyword (`SchemaConditions.ConstantsWeakenIffClean`).
* backend/app/v2/preprocessing.py:600-626: the comment in `_chunk_for_context` says a block larger than the
  budget occupies its own chunk. It joins whatever is open and is alone exactly when it comes first or
  follows another oversized block (`Chunking.OversizedBlocksAreAloneIff`).
* backend/app/v2/routing.py:351-368: the check for a candidate whose structured output was refused never
  skips anything, because each model appears once among the snapshots (`Routing.SnapshotModels`).

## Model

| member | source | states |
|---|---|---|
| ResearchRuns.CancelRunAtBoundary | backend/app/v2/research_runs.py:838-873 | the step and its attempt end CANCELLED, waiting steps of the whole run are swept, and only without another step in flight does the run become CANCELLED and announce it |
| ResearchRuns.AggregateTargets | backend/app/v2/research_runs.py:876-903 | a run is closed only when every target has an outcome: all COMPLETE, all FAILED, else PARTIAL; RUN_FINISHED is announced once |
| ResearchRuns.ResearchRunKernel.CreateRun | backend/app/v2/research_runs.py:108-169 | same key and command returns the run, same key and another command conflicts, a repeated world id is rejected, otherwise each target starts with the ten pending steps |
| ResearchRuns.ResearchRunKernel.Append | backend/app/v2/research_runs.py:246-291 | a known step key returns its step or conflicts on the kind, a finished run refuses, otherwise a pending step takes the next position |
| ResearchRuns.ResearchRunKernel.FirstEligible | backend/app/v2/research_runs.py:312-366 | the candidate found is leasable and no leasable one comes earlier; none is found only if none exists |
| ResearchRuns.ResearchRunKernel.LeaseNext | backend/app/v2/research_runs.py:312-408 | leases the first leasable step with the next attempt number and moves the run to RUNNING; otherwise nothing changes and a run with a step in flight reports a conflict |
| ResearchRuns.ResearchRunKernel.ReclaimExpired | backend/app/v2/research_runs.py:410-441 | one run's expired leases, one after the other, each reclaimed by what the run's status is by then |
| ResearchRuns.ResearchRunKernel.ReconcileStartup | backend/app/v2/research_runs.py:410-441 | every expired lease of every run is taken back and counted |
| ResearchRuns.ResearchRunKernel.CheckpointSuccess | backend/app/v2/research_runs.py:443-506 | a used effect key returns the stored checkpoint first; a stale lease conflicts; a cancelling run stops at this boundary; otherwise step, checkpoint, target outcome and events change together |
| ResearchRuns.ResearchRunKernel.CheckpointFailure | backend/app/v2/research_runs.py:508-560 | retryable with attempts left waits for its due time, otherwise the target fails and its pending steps are cancelled, with RetryLimit raised after the commit |
| ResearchRuns.ResearchRunKernel.CheckpointPartial | backend/app/v2/research_runs.py:562-620 | the step fails, the target ends PARTIAL, its open steps are cancelled and the run aggregated |
| ResearchRuns.ResearchRunKernel.AppendGapLoop | backend/app/v2/workflow.py:2202-2215 | nine appends through `append_step` add exactly the nine kinds after INVENTORY at the next positions and count the loop |
| ResearchRuns.ResearchRunKernel.ContinueLoop | backend/app/v2/workflow.py:2202-2221 | appends and checkpoint with `continue_loop` as one action |
| ResearchRuns.ResearchRunKernel.ValidLeaseMayExtend | backend/app/v2/research_runs.py:905-927 | in every reachable state a valid lease's target meets what the gap loop needs |
| ResearchRuns.ResearchRunKernel.RequestCancel | backend/app/v2/research_runs.py:622-656 | without a step in flight the run is CANCELLED at once with all unfinished steps, otherwise CANCELLING; a second request is rejected |
| ResearchRuns.ResearchRunKernel.CancelAtSafeBoundary | backend/app/v2/research_runs.py:658-669 | needs a valid lease and a CANCELLING run |
| ResearchRuns.ResearchRunKernel.FinishFromTargets | backend/app/v2/research_runs.py:698-722 | refuses until every target has an outcome and every COMPLETE step has succeeded |
| ResearchRuns.ResearchRunKernel.Resume | backend/app/v2/research_runs.py:724-732 | only from WAITING_INPUT |
| ResearchRuns.ResearchRunKernel.ReopenTargets | backend/app/v2/research_runs.py:752-815 | per target: failed steps wait again, cancelled steps behind one reopen, a partial target without a failed step gets nine new steps |
| ResearchRuns.ResearchRunKernel.Retry | backend/app/v2/research_runs.py:734-836 | only a FAILED or PARTIAL run with something to reopen, which then waits for retry under a new retry number |
| RunOperations.NextPosition | backend/app/v2/research_runs.py:262-280 | the position after the highest in use |
| RunOperations.Expired | backend/app/v2/research_runs.py:410-424 | exactly the running steps whose lease has expired, each once |
| RunHistory.ActionKeeps | backend/app/v2/research_runs.py:104-954 | every transaction keeps every invariant and moves rows only along the allowed edges, whatever the arguments |
| RunHistory.Reachable | backend/app/v2/research_runs.py:104-954 | so every state after every interleaving satisfies every invariant |
| RunTheorems.TargetsKeepTheirShape | backend/app/v2/research_runs.py:340-362 | positions are contiguous from 0, kinds follow the step order, statuses read SUCCEEDED*, one step of any status, then only PENDING or CANCELLED steps never leased |
| RunTheorems.AtMostOneRunning | backend/app/v2/research_runs.py:340-362 | a target never has two steps in flight |
| RunTheorems.RunStatusMoves | backend/app/v2/domain.py:44-72 | every run status change is an edge of the table, except the re-opening by a manual retry; WAITING_INPUT is never reached |
| RunTheorems.StepStatusMoves | backend/app/v2/domain.py:44-72 | step statuses leave the table only at reclaim and manual retry; a succeeded step does not change |
| RunTheorems.SucceededIsPermanent | backend/app/v2/research_runs.py:488-499 | once SUCCEEDED a step row never changes again, through retries and cancels |
| RunTheorems.ValidLeaseNeverMisfires | backend/app/v2/research_runs.py:85-101 | with a valid lease no checkpoint raises IllegalTransition; exactly which result each of the four calls gives |
| RunTheorems.LeasesAreLegal | backend/app/v2/research_runs.py:374-396 | granting a lease never needs an edge the table lacks, for step or run |
| RunTheorems.NoRunIsStuck | backend/app/v2/research_runs.py:312-408 | an active run has a target whose first unfinished step is in flight, leasable now or leasable when due; a CANCELLING run has a step in flight |
| RunTheorems.ReconcileRecovers | backend/app/v2/research_runs.py:410-441 | one late reconciliation makes an active run leasable again and brings a CANCELLING one to CANCELLED |
| RunTheorems.TerminalRunsAreConsistent | backend/app/v2/research_runs.py:838-903 | SUCCEEDED or FAILED exactly when every target has an outcome and then with the aggregate; no step of a finished run is open |
| RunTheorems.AttemptLedger | backend/app/v2/research_runs.py:383-396 | attempts are numbered 1..attempt_count, only the last may be RUNNING and it is exactly when the step is |
| RunTheorems.SpentForever | backend/app/v2/research_runs.py:905-927 | a lease whose attempt is over stays over through every later history |
| RunTheorems.SpentDoesNothing | backend/app/v2/research_runs.py:905-927 | every call that carries a spent lease changes nothing |
| RunTheorems.LeaseSettlesOnce | backend/app/v2/research_runs.py:905-927 | over a whole history the calls that carry one lease change the state at most once |
| RunTheorems.ReclaimFencesForGood | backend/app/v2/research_runs.py:410-441 | after a reclaim the old lease changes nothing any more, even when the same owner leases the step again |
| RunTheorems.CheckpointsAreSuccesses | backend/app/v2/research_runs.py:474-499 | checkpoints and SUCCEEDED steps correspond one to one |
| RunTheorems.ReplayReturnsTheStored | backend/app/v2/research_runs.py:453-470 | a used effect key returns the stored checkpoint and changes nothing, at any later time and for any lease |
| RunTheorems.OutboxKeysAreUnique | backend/app/v2/research_runs.py:937-954 | no effect key enters the outbox twice, across runs, steps and retries |
| RunTheorems.StepKeysAreUnique | backend/app/v2/research_runs.py:246-291 | no step key repeats within a target |
| RunTheorems.CancelTwiceIsRejected | backend/app/v2/research_runs.py:622-656 | exactly which result a cancel request gives in each state; a second one is rejected by the unique key |
| RunTheorems.CreateIsIdempotent | backend/app/v2/research_runs.py:108-124 | a creation key leads to its run for ever, and only the same command may use it again |
| RunTheorems.ResumeAlwaysRefuses | backend/app/v2/research_runs.py:724-732 | no reachable run waits for input |
| RunLeases.GrantedLeaseIsHeld | backend/app/v2/research_runs.py:367-408 | a lease granted at `now` for `duration` is accepted exactly up to `now + duration` |
| RunLeases.LeaseHoldsUntilItRunsOut | backend/app/v2/research_runs.py:905-927 | it stays so through any further actions that neither carry it nor reconcile after it ran out; cancel requests, other workers, retries and earlier reconciliations do not take it away |
| RunLeases.WorkUnderALeaseCounts | backend/app/v2/research_runs.py:443-506 | after such a history a success under a fresh effect key stores its checkpoint, or stops a run being cancelled, exactly up to `now + duration`; later it conflicts |
| RunEffects.LeaseStarts | backend/app/v2/research_runs.py:367-408 | leasing sets owner, expiry and attempt number, adds one running attempt, moves the run to RUNNING and leaves all other rows |
| RunEffects.SuccessRecords | backend/app/v2/research_runs.py:474-506 | success stores one checkpoint, ends the step and its last attempt, frees the lease; a COMPLETE step gives its target the outcome it names, else COMPLETE, and the run closes with the aggregate once all targets have one; nothing else changes |
| RunEffects.FailureWaits | backend/app/v2/research_runs.py:508-560 | with attempts left the step waits with its error and can be leased again exactly from its due time on |
| RunEffects.FailureCloses | backend/app/v2/research_runs.py:508-560 | without, the target is FAILED with the error, its pending steps are cancelled, and the run closes once all targets have an outcome |
| RunEffects.PartialCloses | backend/app/v2/research_runs.py:562-620 | the same with outcome PARTIAL, cancelling steps that wait for a retry as well |
| RunEffects.ReclaimReturnsSteps | backend/app/v2/research_runs.py:410-441 | reconciling puts exactly the expired steps back to PENDING with a failed attempt, leasable at once |
| RunEffects.CancellingStops | backend/app/v2/research_runs.py:838-873 | on a CANCELLING run every call under a valid lease ends its step CANCELLED and stores no checkpoint |
| RunEffects.CancelIsAsked | backend/app/v2/research_runs.py:622-656 | with a step in flight no step changes, otherwise everything unfinished is CANCELLED with the run |
| RunRestarts.CreatedRunIsReady | backend/app/v2/research_runs.py:108-169 | a new run holds one target per world in order, each with ten untouched steps, of which exactly the first can be leased |
| RunRestarts.GapLoopGoesOn | backend/app/v2/workflow.py:2202-2221 | a gap loop leaves the COMPLETE step succeeded, the target without outcome and nine untouched steps behind, of which exactly the first can be leased |
| RunRestarts.RetriedRunGoesOn | backend/app/v2/research_runs.py:734-836 | a retry reopens exactly the failed steps and the cancelled ones behind them, extends partial targets without a failed step, and leaves all others |
| RunRestarts.RetriedWorkIsLeasable | backend/app/v2/research_runs.py:734-836 | a step that had failed can be leased from the retry on |
| RunReplies.LeaseConflictMeans | backend/app/v2/research_runs.py:905-927 | a lease is refused exactly when its step is not in flight, for another owner or attempt, or the time is past; a refusal changes nothing |
| RunReplies.CreateAnswers | backend/app/v2/research_runs.py:108-169 | a used key gives its run or a conflict; under a new one only a repeated world is refused; no refusal changes anything |
| RunReplies.AppendAdds | backend/app/v2/research_runs.py:246-291 | a new key adds one untouched step behind the others of its target, unless the run has ended |
| RunReplies.AppendIsIdempotent | backend/app/v2/research_runs.py:246-291 | the same key again gives the same step and changes nothing; another kind conflicts |
| RunReplies.FinishOnlyAnnounces | backend/app/v2/research_runs.py:698-722 | in reachable states it succeeds exactly for ended runs whose COMPLETE steps have succeeded, and at most announces the end |
| ResearchRuns.ResearchRunKernel.EachExpiredCounts | backend/app/v2/research_runs.py:410-441 | the number returned is that of the steps under an expired lease |
| RunBudget.AttemptsCountLeases | backend/app/v2/research_runs.py:383-396 | the attempts in the ledger are exactly the leases granted over the history |
| RunBudget.AttemptBudget | backend/app/v2/research_runs.py:531-536 | a step's attempt count is at most max_attempts plus its reclaims plus its manual retries |
| RunBudget.LeasesAreBounded | backend/app/v2/research_runs.py:383-396 | leases granted to a run are bounded by its size, max_attempts, reclaims and manual retries |
| RunBudget.UndisturbedRunsEnd | backend/app/v2/workflow.py:2199-2221 | a run of which nothing was taken back and which was not retried by hand was granted at most targets * (10 + 9 * max_gap_loops) * max_attempts leases, however often others were |
| RunDraining.CancellingDrains | backend/app/v2/research_runs.py:838-873 | a CANCELLING run changes exactly when a call under a valid lease or a reconciliation ends one of its attempts; every change lowers the number of steps in flight, no lease is granted, and it is CANCELLED exactly when none is left |
| RunDraining.CancellingEnds | backend/app/v2/research_runs.py:838-873 | over any further history a run CANCELLING with n steps in flight changes at most n times |
| RunDraining.HoldersDrain | backend/app/v2/research_runs.py:658-669 | in any run, a step that leaves RUNNING lowers the number of steps in flight |
| RunCrash.PlainSuccessIsCleanIffNothingWasAppended | backend/app/v2/workflow.py:2206-2221 | after a crash between appends and checkpoint, a success without `continue_loop` leaves no open step exactly when nothing had been appended |
| RunCrash.OrphansAreLeasableUntilTheRunCloses | backend/app/v2/workflow.py:2206-2221 | the first step left behind can be leased exactly while some target has no outcome; then the run is closed with the step open |
| CanonGraph.BuildAdjacency | backend/app/v2/domain.py:87-92 | the adjacency holds exactly the IS_A and INSTANCE_OF edges |
| CanonGraph.Visitor.Visit | backend/app/v2/domain.py:97-106 | a visit that returns leaves everything reachable finished in dependency order; one that raises has found a directed cycle; it terminates |
| CanonGraph.EnsureValidGraph | backend/app/v2/domain.py:87-109 | returns exactly when the inheritance subgraph has no directed cycle |
| CanonGraph.OtherTypesAreIgnored | backend/app/v2/domain.py:89-91 | an edge of another type never changes the verdict |
| CanonGraph.RefusedIffItClosesACycle | backend/app/v2/repositories.py:25-35 | an inheritance edge is refused exactly when its target already inherits from its source |
| CanonGraph.RelationshipStore.AddRelationship | backend/app/v2/repositories.py:16-59 | inserts exactly when stored edges and the new one have no cycle; the stored graph stays acyclic |
| CanonGraph.RelationshipStore.IntegrateRelationships | backend/app/v2/workflow.py:1945-1996 | a batch is stored exactly when every prefix of it keeps the graph acyclic, otherwise nothing is; the stored graph stays acyclic |
| CanonGraph.StoredGraphIsAcyclicAndMaximal | backend/app/v2/repositories.py:16-59 | after any serial sequence of inserts the graph is acyclic, and every refused edge closes a cycle in the final graph |
| Inheritance.Pass | backend/app/v2/projections.py:264-284 | one pass keeps every value sound, loses nothing, and carries each parent's fields one edge down; without a change nothing moved |
| Inheritance.EffectiveKnowledge | backend/app/v2/projections.py:263-287 | len(nodes) passes or an early stop leave every node sound and complete, for any edges, cyclic or not |
| Inheritance.CoveredIffEqual | backend/app/v2/projections.py:275-279 | the comparison of dictionaries detects exactly whether a parent has a field the child lacks |
| Inheritance.EnoughPasses | backend/app/v2/projections.py:263 | as many passes as nodes are enough, because a line of ancestors that repeats a node can be cut |
| Inheritance.FieldNamesAreTheAncestors | backend/app/v2/projections.py:263-287 | a node's field names are exactly those owned by some node reachable over active edges |
| Inheritance.OwnValuesStay | backend/app/v2/projections.py:275-280 | own values are never overwritten and name their own node as origin |
| Inheritance.NearestAncestorWins | backend/app/v2/projections.py:275-284 | with at most one parent per node the result is nearest-ancestor lookup, value and origin |
| Inheritance.InactiveEdgesGiveNothing | backend/app/v2/projections.py:263-285 | storing an edge that is not active changes no node's fields |
| JsonPointer.ResolveReference | backend/app/v2/providers.py:263-277 | follows the decoded tokens from the root; a reference out of the document or to nothing fails |
| JsonPointer.PointersNameEveryPath | backend/app/v2/providers.py:263-277 | the pointer written for a path of keys resolves to what stands there, whatever characters the keys hold (section 4 of RFC 6901) |
| JsonPointer.UnescapeUndoesEscape | backend/app/v2/providers.py:271 | decoding `~1` before `~0` undoes the encoding of every key |
| JsonPointer.UnescapeIsOnePass | backend/app/v2/providers.py:271 | the two replacements read any token as one pass from the left would |
| JsonPointer.SplitsAtEverySlash | backend/app/v2/providers.py:270 | splitting cuts at every slash and loses nothing else |
| JsonPointer.ResolveMeans | backend/app/v2/providers.py:263-277 | any reference is not local unless it starts with `#/`, and then leads to what stands under its decoded keys |
| SchemaTranslation.Transform | backend/app/v2/providers.py:279-315 | terminates on every document; succeeds exactly when the walk meets no failure, with the inlined schema, and otherwise raises a failure it met |
| SchemaTranslation.GeminiSchema | backend/app/v2/providers.py:260-317 | the same from the whole schema with no reference open |
| SchemaTranslation.MergedRefs | backend/app/v2/providers.py:291-293 | merging a target with its siblings brings in no reference the document does not hold |
| SchemaTranslation.EntryByEntry | backend/app/v2/providers.py:293-315 | the exact keys and values of a translated object: the five dropped keywords, the others translated, and inclusive bounds for numeric exclusive ones |
| SchemaTranslation.UseByEntry | backend/app/v2/providers.py:284-292 | a use is translated as its target with the other entries put over it |
| SchemaReferences.TranslationIsClean | backend/app/v2/providers.py:293-304 | no `$ref` and no dropped keyword is left at any depth |
| SchemaReferences.RecursionIffUsesRepeat | backend/app/v2/providers.py:284-292 | for every document and whatever stands beside its references: the recursion error is met exactly when a route of nested uses comes to a reference that is open or was passed |
| SchemaReferences.TranslatableIffNoUseRepeats | backend/app/v2/providers.py:284-292 | where every reference leads to an object, translation succeeds exactly when no route of nested uses repeats a reference, and recursion is the only failure |
| SchemaReferences.OtherFailuresIffLeadsNowhere | backend/app/v2/providers.py:263-292 | every failure other than recursion is met exactly when a route of nested uses without repetition comes to a reference that leads nowhere for that reason |
| SchemaCycles.TranslatableIffAcyclic | backend/app/v2/providers.py:284-292 | where siblings neither hold nor hide references, also behind aliases, that is exactly when no kept reference leads back to itself |
| SchemaCycles.SiblingsCanLookRecursive | backend/app/v2/providers.py:284-292 | a schema without a reference cycle for which the recursion error is met |
| SchemaCycles.SiblingsCanHideRecursion | backend/app/v2/providers.py:284-292 | a schema with a reference cycle that is translated |
| SchemaWeakening.TranslationAcceptsMore | backend/app/v2/providers.py:260-317 | every instance valid for the original is valid for the translation, when no integer has a fractional exclusive bound, no `prefixItems` beside a reference moves the target's items forward, and no constraining keyword outside those interpreted (so no `const` or `enum`) has a value the translation rewrites; annotations may hold anything |
| SchemaMeaning.ValidRelaxes | backend/app/v2/providers.py:293-304 | dropping additionalProperties, and having fewer references open, only accepts more |
| SchemaWeakening.MergedIsValid | backend/app/v2/providers.py:291-293 | what satisfies a reference and its siblings satisfies the merged object, unless that lets the target's items start earlier |
| SchemaConditions.WholeBoundsAreExact | backend/app/v2/providers.py:305-314 | for an integer with a whole exclusive bound the bound written in its place accepts exactly the same instances |
| SchemaConditions.IntegersWeakenIffTheBoundIsWhole | backend/app/v2/providers.py:305-314 | for any integer schema and either exclusive bound: all that type and bound accept satisfies the bound written in its place exactly when the exclusive one is whole |
| SchemaConditions.BareIntegersWeakenIffTheBoundIsWhole | backend/app/v2/providers.py:305-314 | a schema of only an integer's exclusive bound is translated to one that accepts all it accepts exactly when the bound is whole |
| SchemaConditions.FractionalBoundsRefuse | backend/app/v2/providers.py:305-314 | a schema with a fractional bound whose translation refuses an instance it accepts |
| SchemaConditions.ItemsWeakenIffLaterOrFree | backend/app/v2/providers.py:291-293 | items that start elsewhere accept all the arrays they did exactly when they start no earlier or their schema accepts everything |
| SchemaConditions.ShorterPrefixesRefuse | backend/app/v2/providers.py:291-293 | a use with a shorter `prefixItems` beside it whose translation refuses an instance it accepts |
| SchemaConditions.StaysIffClean | backend/app/v2/providers.py:279-315 | translation leaves a value alone exactly when it holds no reference and no dropped keyword |
| SchemaConditions.ConstantsWeakenIffClean | backend/app/v2/providers.py:293-304 | in any schema, all that `const` or `enum` accepts is accepted after translation exactly when the value is clean |
| SchemaConditions.ConstantsAreRewritten | backend/app/v2/providers.py:293-304 | a constant whose translation refuses it |
| SchemaExactness.TranslationMeansTheSame | backend/app/v2/providers.py:260-317 | original and translation accept the same instances, when nothing beside a reference overrides its target or moves items, exclusive bounds are whole bounds of integers without an inclusive one beside them, additional properties are free and no property, pattern or dependency has a dropped keyword's name |
| SchemaExactness.TranslationLosesExactlyAdditionalProperties | backend/app/v2/providers.py:293-304 | under the same conditions, with `additionalProperties` at any depth, the translation accepts exactly what the original accepts when only `additionalProperties` is not looked at |
| SchemaExactness.MergedOnlyIfValid | backend/app/v2/providers.py:291-293 | where nothing is overridden and items start where they did, what satisfies the merged object satisfies the reference and its siblings |
| SeedImport.Validate | backend/app/v2/bootstrap.py:100-113 | accepts exactly files with distinct ids and known parents, else names the first problem |
| SeedImport.DistinctMeansAsMany | backend/app/v2/bootstrap.py:106 | comparing list and set lengths finds duplicates exactly |
| SeedImport.WorldStore.InsertReady | backend/app/v2/bootstrap.py:144-161 | one wave inserts exactly the ready worlds, a self-parent as a root, and keeps the rest |
| SeedImport.WorldStore.InsertWaves | backend/app/v2/bootstrap.py:131-161 | all waves terminate; on success every parent is in a strictly earlier wave, and a stop leaves worlds whose parents are all among themselves |
| SeedImport.WorldStore.Import | backend/app/v2/bootstrap.py:116-172 | on new worlds ParentCycleError is raised exactly when parents form a cycle of two or more, otherwise each world is stored once, under the parent the file gives it, and a forest stays one; errors change nothing and a known file imports nothing |
| SeedImport.StuckMeansCycle | backend/app/v2/bootstrap.py:141-142 | a wave with nothing ready means a cycle of two or more |
| SeedImport.WavesForbidCycles | backend/app/v2/bootstrap.py:134-140 | worlds stored in waves form a forest |
| SeedImport.StoredAsTheFileSays | backend/app/v2/bootstrap.py:144-161 | every stored row has the file's data and exactly the file's parent unless that is the world itself, and the parent is stored |
| SeedImport.ImportKeepsForest | backend/app/v2/bootstrap.py:116-172 | from a table whose stored parents form a forest the import leaves one |
| LogFiles.RotatingStream.Write | backend/app/v2/logging.py:205-214 | backups oldest-first then the current file are a contiguous end of all lines written, each file within max_bytes or one line; a write loses at most the oldest file |
| LogFiles.RotatingStream.Rotate | backend/app/v2/logging.py:216-229 | the retained lines afterwards are those of all files but the oldest |
| LogFiles.RotatingStream.ShiftFiles | backend/app/v2/logging.py:216-229 | every file stands one place higher, the last is gone, the current one is empty; with no backups it is dropped |
| LogPages.ReadLog | backend/app/v2/logging.py:522-573 | the window of filtered lines from the cursor, and their total, over all files oldest-first |
| LogPages.ReadLogPage | backend/app/v2/api.py:137-181 | one page of the newest lines not yet consumed, reversed, and the cursor after it |
| LogPages.WalkReturnsTheSnapshot | backend/app/v2/api.py:137-181 | walking from cursor 0 to the end returns exactly the reversed first-page snapshot, each line once, with lines added between and within pages, and ends |
| LogPages.WalkDuringWrites | backend/app/v2/api.py:137-181 | so does a walk whose reads are spread over any history of `write` calls, if since its first read no write pushed a file out |
| LogFiles.WriteLosesIffItPushesOut | backend/app/v2/logging.py:205-229 | a write only adds its line to what is retained exactly when it does not rotate a last backup that holds lines |
| LogFiles.RotatesMeans | backend/app/v2/logging.py:205-214 | a write rotates exactly when the file holds something and its text with the new line would be longer than max_bytes |
| Utf8.CharBytesAreItsEncoding | backend/app/v2/logging.py:206 | the size counted for a character is that of its UTF-8 encoding, which can be read back |
| LogPages.KeptLines | backend/app/v2/logging.py:522-573 | the filter selects every line that satisfies it and no other, in order |
| LogPages.ReadMeans | backend/app/v2/logging.py:522-573 | a read returns the next lines from the cursor, where to go on and the total |
| LogPages.PageMeans | backend/app/v2/api.py:137-181 | items, total and next cursor of any page, also after lines were lost |
| LogPages.WritesOnlyAppend | backend/app/v2/logging.py:205-214 | a write that pushes no file out only adds to what a reader sees |
| Routing.EligibleCredentials | backend/app/v2/routing.py:151-167 | exactly the active, enabled and cooled-down credentials, sorted by load and id |
| Routing.SnapshotModels | backend/app/v2/routing.py:286-326 | exactly the offered models some candidate lists, once each, at the first place that lists them and in that order |
| Routing.ProviderRouter.Complete | backend/app/v2/routing.py:337-659 | the attempts made, the health rows they leave and what is returned or raised, read off the attempts alone, for every route and every sequence of answers |
| Routing.ResultMeans | backend/app/v2/routing.py:560-659 | served exactly when the last attempt succeeded; the error of a last attempt that ends the call; else the last CAPABILITY, RATE_LIMIT or TRANSIENT error, or TRANSIENT |
| Routing.EveryCredentialIsReached | backend/app/v2/routing.py:337-659 | every credential of every usable candidate is tried unless the call ended, left that candidate or had it fail before; where its attempt succeeds the call is served |
| Routing.AttemptWrites | backend/app/v2/routing.py:461-608 | what each answer writes to the health row of its credential, and to no other |
| Routing.CallFollowsTheRoute | backend/app/v2/routing.py:458-608 | attempts follow usable candidates and their credentials in order; a credential that failed with AUTH, RATE_LIMIT or TRANSIENT is never used again in the call under any model |
| Routing.UnendedCallsTriedEverything | backend/app/v2/routing.py:458-608 | a call that no attempt ended left no usable candidate with an untried credential, unless a CAPABILITY error made it leave early |
| Routing.CountsRiseByAttempts | backend/app/v2/routing.py:461-463 | each selection count rises by exactly that credential's attempts; untried credentials keep their row |
| Routing.AttemptsAreTheTotalRise | backend/app/v2/routing.py:461-463 | primary attempts are the total rise in selection counts |
| Routing.FailedIsNotEligible | backend/app/v2/routing.py:143-167 | a credential that failed is not eligible before its cooldown ends, and never after AUTH |
| Routing.ServedByTheFirst | backend/app/v2/routing.py:151-167 | a call whose first attempt succeeds on the eligible credentials in order uses the least loaded one and counts it there alone |
| Routing.SelectionIsFair | backend/app/v2/routing.py:151-167 | from fresh health rows, over any sequence of such calls among always eligible credentials, count_i * w_j <= count_j * w_i + w_j |
| WikiQueue.CollectMatches | backend/app/v2/wiki.py:464-484 | all matches of open active pages for all questions |
| WikiQueue.PickGreedily | backend/app/v2/wiki.py:485-501 | the single pass, counting each question's budget down |
| WikiQueue.GreedyTakesTheBest | backend/app/v2/wiki.py:485-501 | a match is taken exactly when fewer better matches of its question exist than its budget |
| WikiQueue.EachQuestionGetsItsBest | backend/app/v2/wiki.py:445-501 | each question gets exactly its best min(budget, matches) pages by score then address, although one pass serves all questions |
| WikiQueue.WikiPageQueue.SelectAndEnqueue | backend/app/v2/wiki.py:436-564 | every chosen page ends in an open row with its question, so external work is then deferred; rows merge by union, lowest priority and highest score; terminal rows stay |
| WikiQueue.WikiPageQueue.Select | backend/app/v2/wiki.py:445-507 | the first session and the choice: per page the questions, lowest priority and highest score of the picks |
| WikiQueue.WikiPageQueue.Enqueue | backend/app/v2/wiki.py:508-564 | the second session, for any choice: absent and open pages end in open rows, merged with what they had; terminal rows kept |
| WikiQueue.WikiPageQueue.MarkTerminal | backend/app/v2/wiki.py:603-611 | only terminal statuses are accepted, and they touch existing rows only |
| WikiQueue.WikiPageQueue.ShouldDefer | backend/app/v2/wiki.py:566-576 | defers exactly while some row is open |
| WikiQueue.RowsOnlyGain | backend/app/v2/wiki.py:520-548 | over any history of enqueued choices, made at any earlier time, and markings, rows only gain questions, urgency and score, and a terminal row gains nothing more |
| WikiQueue.RowsHoldExactlyWhatWasAdded | backend/app/v2/wiki.py:520-564 | over any history a row's questions, priority and score are exactly the union, least and greatest of what was enqueued for it while absent or open |
| WikiQueue.ChoiceIsMadeOfItsPicks | backend/app/v2/wiki.py:485-504 | what is chosen for a page is exactly the union, least and greatest of its picks |
| WikiQueue.OnlyMarkingEndsARow | backend/app/v2/wiki.py:520-611 | a row is open from its first enqueuing until a marking names it |
| WikiQueue.ChosenPagesAreQueued | backend/app/v2/wiki.py:436-564 | no closed page is chosen, and whatever others write between the two sessions a chosen page ends in a row with its question, urgency and score, unless that row became terminal meanwhile, which then stays |
| SearchCache.CachedFallbackSearch.Lookup | backend/app/v2/search.py:118-133 | a fresh entry is returned and becomes the most recently used; an expired one is removed |
| SearchCache.CachedFallbackSearch.Store | backend/app/v2/search.py:157-161 | the value is stored as most recently used and the surplus evicted from the front |
| SearchCache.CachedFallbackSearch.Search | backend/app/v2/search.py:115-165 | cache, then the first provider that answers, else the last error |
| SearchCache.NeverTooMany | backend/app/v2/search.py:157-161 | under any interleaving the cache never holds more than max_entries |
| SearchCache.HitIsTheLatestPut | backend/app/v2/search.py:118-131 | a hit is the value last stored for exactly that query and limit, less than the time to live before the clock reading |
| SearchCache.EntriesInOrderOfUse | backend/app/v2/search.py:121-161 | entries always stand in the order of their last use |
| SearchCache.OnlyExpiryOrEvictionLoses | backend/app/v2/search.py:132-161 | a stored key is gone only if it was seen expired or max_entries other keys were used since its own last use |
| SearchCache.StoredIsHitUntilItExpires | backend/app/v2/search.py:118-161 | a stored key that was not seen expired and not pushed out by others is hit exactly until its time to live has passed |
| Chunking.ChunkForContext | backend/app/v2/preprocessing.py:600-631 | the loop's chunks are the joined groups of pieces |
| Chunking.ChunksJoinToTheText | backend/app/v2/preprocessing.py:600-631 | joining the chunks gives back the text, minus one newline exactly when it ends in an odd run of newlines |
| Chunking.SplitsAtBlankLines | backend/app/v2/preprocessing.py:609 | the blocks joined are the text, none holds a blank line and only the last may end in a newline |
| Chunking.ChunkBudgetMeans | backend/app/v2/preprocessing.py:47-49 | eleven fifths of half the tokens, rounded down, at least one byte |
| Chunking.GroupsPartition | backend/app/v2/preprocessing.py:609-626 | cuts fall only between blocks and no chunk is empty of blocks |
| Chunking.ChunksFitUnlessTheLastBlockIsTooLong | backend/app/v2/preprocessing.py:612-626 | a chunk exceeds the budget exactly when its last block alone does |
| Chunking.EveryCutIsNeeded | backend/app/v2/preprocessing.py:617-626 | a chunk ends only at an oversized block or where the next block would not fit |
| Chunking.OversizedBlocksAreAloneIff | backend/app/v2/preprocessing.py:604-626 | an oversized block is alone in its chunk exactly when it comes first or follows another oversized one |

## Left out

- SQL, locking and ORM behaviour: a transaction either commits all of what the model says or nothing.
- `record_target_outcome`, `get`, `events` and the optimistic version columns of the kernel: the first has no caller and breaks the outcome invariants, the others only read or count.
- Gap records and conflict rows the workflow writes beside the kernel, and everything else `_complete` and `_integrate` do before they call it.
- The crash window between gap-loop appends and the checkpoint: assumed away in histories, see the assumptions above.
- `created_at`, target ids and row ids as sort keys: the model orders runs and the candidates within a run by place. For runs that is the order of creation; for targets of one run at the same position the code orders by a random id, and the model's order is one of those it may take.
- RunOperations.CheckpointSuccess: the outcome a state names is one of the four outcomes; a string that names none raises ValueError in the code.
- Time in the kernel is an integer, in the search cache a real number; rounding of clock values is not modelled.
- JsonPointer.Resolve: a reference whose target is not an object counts as a failure; Python's `dict()` would also accept a list of pairs or of two-character strings.
- SchemaTranslation.Translate: numbers are reals, so the rounding of a float bound plus one is not modelled; which of several failures is raised first depends on key order and is left open.
- SchemaWeakening.TranslationAcceptsMore: keywords other than those interpreted in `SchemaMeaning` mean any predicate of their own value, and unless they are annotations that value is one the translation leaves alone; `not` and `oneOf` over schemas with references or dropped keywords are outside. For `const` and `enum` SchemaConditions.ConstantsWeakenIffClean gives the exact condition.
- SchemaExactness.TranslationMeansTheSame: as with additional properties beside it, a condition that suffices; a schema that misses it can still happen to mean the same, as when an overriding entry is equivalent to the one it replaces.
- SchemaMeaning.Holds: `contains` does not look at `minContains` and `maxContains`; any other keyword whose meaning depends on its siblings counts as a predicate of its own value. `patternProperties` matches as `pattern` does.
- SchemaCycles.TranslatableIffAcyclic: stated for schemas in which no sibling of a reference holds or hides references; the two lemmas beside it show why, and SchemaReferences.RecursionIffUsesRepeat covers the others.
- SeedImport: parsing and validation of the file, and world columns beyond parent and data.
- LogFiles: lines contain no newline, as the JSON they hold has none; file modes, `clear_logs`, redaction and locking.
- LogPages: parsing a line is a predicate; case folding of the search text is part of the filter.
- Routing: logging, repair attempts by the response validator (its verdict is part of an attempt's answer), rows of candidate health, and float rounding of the load.
- WikiQueue.WikiPageQueue.SelectAndEnqueue: runs its two sessions with nothing in between; other writers in between are covered by WikiQueue.RowsOnlyGain and WikiQueue.ChosenPagesAreQueued.
- WikiQueue: fetching and scoring pages (the score is a parameter), the order of a row's question ids and of the returned selections.
- SearchCache: which provider is tried first, retries and logging.
- Chunking: float rounding of the budget; the reformatting of chunks. Passage selection and block splitting elsewhere in the file.
- `CircuitBreaker`, context budgets, `evaluate_completion` and the evidence validators: branch-level facts.
- HTTP, browsing, OCR, SSH, model calls, templates, configuration and credentials on disk.
