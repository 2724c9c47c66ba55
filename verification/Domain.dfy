/** The vocabulary of backend/app/v2/domain.py: statuses, outcomes, step kinds and the
    table of legal status transitions. */
module Domain {
  datatype Option<+T> = None | Some(value: T)

  datatype RunStatus =
    Pending | Running | WaitingRetry | WaitingInput | Cancelling | Cancelled | Succeeded | Failed

  datatype RunOutcome = Complete | Partial | Failed | Cancelled

  datatype StepKind =
    Inventory | Plan | Scout | Acquire | Extract | Synthesize | Audit | Integrate | Summarize | Complete

  /** The step kinds in declaration order, as `list(StepKind)` yields them. */
  const STEP_KINDS: seq<StepKind> :=
    [StepKind.Inventory, StepKind.Plan, StepKind.Scout, StepKind.Acquire, StepKind.Extract,
     StepKind.Synthesize, StepKind.Audit, StepKind.Integrate, StepKind.Summarize, StepKind.Complete]

  function LegalTargets(current: RunStatus): set<RunStatus> {
    match current
    case Pending => {RunStatus.Running, RunStatus.Cancelling, RunStatus.Cancelled}
    case Running =>
      {RunStatus.WaitingRetry, RunStatus.WaitingInput, RunStatus.Cancelling, RunStatus.Cancelled,
       RunStatus.Succeeded, RunStatus.Failed}
    case WaitingRetry => {RunStatus.Running, RunStatus.Cancelling, RunStatus.Cancelled, RunStatus.Failed}
    case WaitingInput => {RunStatus.Running, RunStatus.Cancelling, RunStatus.Cancelled, RunStatus.Failed}
    case Cancelling => {RunStatus.Cancelled, RunStatus.Failed}
    case Cancelled => {}
    case Succeeded => {}
    case Failed => {}
  }

  predicate LegalTransition(current: RunStatus, target: RunStatus) {
    target in LegalTargets(current)
  }

  /** `_transition` succeeds: either nothing changes or the change is an edge of the table. */
  predicate CanMove(current: RunStatus, target: RunStatus) {
    current == target || LegalTransition(current, target)
  }

  /** The table read backwards: what may become what. */
  lemma WhatLeadsWhere(s: RunStatus)
    ensures !LegalTransition(s, RunStatus.Pending)
    ensures LegalTransition(s, RunStatus.Running) <==> s.Pending? || s.WaitingRetry? || s.WaitingInput?
    ensures LegalTransition(s, RunStatus.WaitingRetry) <==> s.Running?
    ensures LegalTransition(s, RunStatus.WaitingInput) <==> s.Running?
    ensures LegalTransition(s, RunStatus.Cancelling)
            <==> s.Pending? || s.Running? || s.WaitingRetry? || s.WaitingInput?
    ensures LegalTransition(s, RunStatus.Cancelled) <==> !s.Cancelled? && !s.Succeeded? && !s.Failed?
    ensures LegalTransition(s, RunStatus.Succeeded) <==> s.Running?
    ensures LegalTransition(s, RunStatus.Failed)
            <==> s.Running? || s.WaitingRetry? || s.WaitingInput? || s.Cancelling?
  {
  }

  const TERMINAL: set<RunStatus> := {RunStatus.Cancelled, RunStatus.Succeeded, RunStatus.Failed}
}
