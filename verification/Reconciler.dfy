/** The pure verdict function of the reconciler and its three time windows. */
module Reconciler {
  import opened Options
  import opened SendStateMachine

  const RECONCILE_RESOLUTION_WINDOW_MS := 24 * 60 * 60_000
  const RECONCILE_RESCAN_HORIZON_MS := 72 * 60 * 60_000
  const STALE_DISPATCHING_AGE_MS := 2 * 60 * 60_000

  datatype ReconcileVerdict = ResolveSent | ResolveUnknown | SweepToReconciling | Hold

  datatype ReconcileInput = ReconcileInput(
    status: SendStatus, queuedAt: int, reconcilingSince: Option<int>, hasEvidence: bool, now: int)

  function ClassifyReconcilableSend(input: ReconcileInput): ReconcileVerdict {
    var ReconcileInput(status, queuedAt, reconcilingSince, hasEvidence, now) := input;
    if status == Dispatching && now - queuedAt > STALE_DISPATCHING_AGE_MS then SweepToReconciling
    else if status == Reconciling && hasEvidence then ResolveSent
    else if status == Reconciling && !hasEvidence && now - reconcilingSince.GetOr(queuedAt) > RECONCILE_RESOLUTION_WINDOW_MS
    then ResolveUnknown
    else if status == Unknown && hasEvidence && now - queuedAt <= RECONCILE_RESCAN_HORIZON_MS then ResolveSent
    else Hold
  }

  /** The status a verdict asks for. */
  function VerdictTarget(from: SendStatus, verdict: ReconcileVerdict): SendStatus {
    match verdict
    case ResolveSent => Sent
    case ResolveUnknown => Unknown
    case SweepToReconciling => Reconciling
    case Hold => from
  }

  /** Every verdict that writes is an edge the reconciler is listed for, and none of them is `failed`. */
  lemma VerdictsAreReconcilerEdges(input: ReconcileInput)
    requires ClassifyReconcilableSend(input) != Hold
    ensures var to := VerdictTarget(input.status, ClassifyReconcilableSend(input));
            IsAllowedTransition(input.status, to) && SendReconciler in WritersFor(input.status, to) && to != Failed
  {
    var to := VerdictTarget(input.status, ClassifyReconcilableSend(input));
    match input.status
    case Dispatching => assert SendStatusTransitions(Dispatching)[2].to == to;
    case Reconciling => assert SendStatusTransitions(Reconciling)[if to == Sent then 0 else 1].to == to;
    case Unknown => assert SendStatusTransitions(Unknown)[0].to == to;
    AllowedIffSomeoneWrites(input.status, to);
  }

  /** The discovery query's WHERE clause. */
  predicate Discovered(status: SendStatus, queuedAt: int, now: int) {
    || status == Reconciling
    || (status == Unknown && queuedAt >= now - RECONCILE_RESCAN_HORIZON_MS)
    || (status == Dispatching && queuedAt < now - STALE_DISPATCHING_AGE_MS)
  }

  /**
   * Discovery and classification agree at every boundary: outside `reconciling`, a row is selected
   * exactly when some evidence would make the classifier act on it, so no actionable row is missed
   * and no inert row takes up a place in the batch.
   */
  lemma DiscoveryMatchesClassifier(status: SendStatus, queuedAt: int, since: Option<int>, now: int)
    ensures status != Reconciling ==>
              (Discovered(status, queuedAt, now) <==>
               exists evidence: bool ::
                 ClassifyReconcilableSend(ReconcileInput(status, queuedAt, since, evidence, now)) != Hold)
    ensures status == Reconciling ==>
              Discovered(status, queuedAt, now) &&
              ClassifyReconcilableSend(ReconcileInput(status, queuedAt, since, true, now)) == ResolveSent
  {
    if status != Reconciling && Discovered(status, queuedAt, now) {
      assert ClassifyReconcilableSend(ReconcileInput(status, queuedAt, since, true, now)) != Hold;
    }
  }
}
