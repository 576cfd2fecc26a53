/**
 Observation-first reconciliation: after an uncertain external effect, what happened is decided from the
 exact prior, requested and observed states alone.
 */
module Reconciliation {
  import opened Collections

  datatype ReconcileOperation = Apply | Restore

  datatype DispatchEvidence =
    | NotDispatched
    | ReturnedSuccess
    | ReturnedFailure
    | TimedOut
    | ResponseLost
    | AbandonedMutex

  datatype ExactState =
    | Exact(schemeId: string, stateHash: string, observedAt: string)
    | UnavailableState(reason: string)
    | UnknownState(reason: string)

  datatype Evidence = Evidence(
    transactionId: string,
    operationVersionId: string,
    operation: ReconcileOperation,
    dispatch: DispatchEvidence,
    prior: ExactState,
    requested: ExactState,
    observed: ExactState)

  datatype Decision =
    | AppliedNeedsReceipt(evidence: Evidence)
    | RestoredNeedsReceipt(evidence: Evidence)
    | NotAppliedDoNotRetry(evidence: Evidence)
    | NotRestoredDoNotRetry(evidence: Evidence)
    | UnknownBlockMutations(evidence: Evidence)
    | DriftRequiresUserChoice(evidence: Evidence)
    | ConflictRequiresUserChoice(evidence: Evidence)

  datatype Choice = KeepCurrentState | RestoreExactPriorState | ReapplyAfterFreshAdmission

  datatype Intent = Intent(
    transactionId: string,
    parentTransactionId: string,
    operationVersionId: string,
    choice: Choice,
    prior: ExactState,
    requested: ExactState)

  datatype PlanError = RecoveryBlocked(subject: string) | InvalidGeneratedTransport(subject: string)

  // ---------------------------------------------------------------- the policy

  /** Whether two known states are the same; the time of observation plays no part. */
  function KnownStatesMatch(left: ExactState, right: ExactState): Option<bool> {
    if left.Exact? && right.Exact? then
      Some(left.schemeId == right.schemeId && left.stateHash == right.stateHash)
    else
      None
  }

  datatype Observation = Requested | Prior | ThirdState | Unknown

  function Classify(prior: ExactState, requested: ExactState, observed: ExactState): Observation {
    match (KnownStatesMatch(observed, requested), KnownStatesMatch(observed, prior))
    case (None, _) => Unknown
    case (_, None) => Unknown
    case (Some(true), _) => Requested
    case (Some(false), Some(true)) => Prior
    case (Some(false), Some(false)) => ThirdState
  }

  function Reconcile(e: Evidence): Decision {
    match (Classify(e.prior, e.requested, e.observed), e.operation)
    case (Unknown, _) => UnknownBlockMutations(e)
    case (Requested, Apply) => AppliedNeedsReceipt(e)
    case (Requested, Restore) => RestoredNeedsReceipt(e)
    case (Prior, Apply) => NotAppliedDoNotRetry(e)
    case (Prior, Restore) => NotRestoredDoNotRetry(e)
    case (ThirdState, Apply) => DriftRequiresUserChoice(e)
    case (ThirdState, Restore) => ConflictRequiresUserChoice(e)
  }

  /** The entry points for one kind of operation refuse the other kind. */
  function ReconcileOnly(kind: ReconcileOperation, e: Evidence): Result<Decision, PlanError> {
    if e.operation != kind then Err(InvalidGeneratedTransport(e.operationVersionId)) else Ok(Reconcile(e))
  }

  predicate ReceiptEligible(d: Decision) {
    d.AppliedNeedsReceipt? || d.RestoredNeedsReceipt?
  }

  predicate RequiresUserChoice(d: Decision) {
    d.DriftRequiresUserChoice? || d.ConflictRequiresUserChoice?
  }

  function CreateResolutionIntent(d: Decision, choice: Choice, transactionId: string): Result<Intent, PlanError> {
    var e := d.evidence;
    if !RequiresUserChoice(d) || transactionId == e.transactionId then Err(RecoveryBlocked(e.operationVersionId))
    else
      var requested :=
        match choice
        case KeepCurrentState => e.observed
        case RestoreExactPriorState => if e.operation == Apply then e.prior else e.requested
        case ReapplyAfterFreshAdmission => e.requested;
      Ok(Intent(transactionId, e.transactionId, e.operationVersionId, choice, e.observed, requested))
  }

  // ---------------------------------------------------------------- theorems

  /** All three states were observed exactly. */
  predicate AllKnown(e: Evidence) {
    e.prior.Exact? && e.requested.Exact? && e.observed.Exact?
  }

  predicate SameState(a: ExactState, b: ExactState) {
    a.Exact? && b.Exact? && a.schemeId == b.schemeId && a.stateHash == b.stateHash
  }

  /** The kind of decision, for every input, and that it carries its evidence unchanged. */
  lemma DecisionFollowsObservation(e: Evidence)
    ensures Reconcile(e).evidence == e
    ensures Reconcile(e).UnknownBlockMutations? <==> !AllKnown(e)
    ensures ReceiptEligible(Reconcile(e)) <==> AllKnown(e) && SameState(e.observed, e.requested)
    ensures Reconcile(e).NotAppliedDoNotRetry? || Reconcile(e).NotRestoredDoNotRetry? <==>
            AllKnown(e) && SameState(e.observed, e.prior) && !SameState(e.observed, e.requested)
    ensures RequiresUserChoice(Reconcile(e)) <==>
            AllKnown(e) && !SameState(e.observed, e.prior) && !SameState(e.observed, e.requested)
    ensures AllKnown(e) ==>
              (e.operation == Apply <==>
                 Reconcile(e).AppliedNeedsReceipt? || Reconcile(e).NotAppliedDoNotRetry?
                 || Reconcile(e).DriftRequiresUserChoice?)
  {
    var requested, prior := KnownStatesMatch(e.observed, e.requested), KnownStatesMatch(e.observed, e.prior);
    if requested.Some? && prior.Some? {
      assert requested.value == SameState(e.observed, e.requested) && prior.value == SameState(e.observed, e.prior);
      match (requested.value, prior.value)
      case (true, _) =>
      case (false, true) =>
      case (false, false) =>
    }
  }

  /** An entry point decides for its own kind of operation and names the operation it refuses. */
  lemma EntryPointsRefuseTheOtherKind(kind: ReconcileOperation, e: Evidence)
    ensures ReconcileOnly(kind, e) ==
            if kind == e.operation then Ok(Reconcile(e)) else Err(InvalidGeneratedTransport(e.operationVersionId))
  {
  }

  predicate SameKind(a: Decision, b: Decision) {
    && (a.AppliedNeedsReceipt? <==> b.AppliedNeedsReceipt?)
    && (a.RestoredNeedsReceipt? <==> b.RestoredNeedsReceipt?)
    && (a.NotAppliedDoNotRetry? <==> b.NotAppliedDoNotRetry?)
    && (a.NotRestoredDoNotRetry? <==> b.NotRestoredDoNotRetry?)
    && (a.UnknownBlockMutations? <==> b.UnknownBlockMutations?)
    && (a.DriftRequiresUserChoice? <==> b.DriftRequiresUserChoice?)
    && (a.ConflictRequiresUserChoice? <==> b.ConflictRequiresUserChoice?)
  }

  /** Neither what the dispatch reported nor when a state was observed changes the kind of decision. */
  lemma OnlyObservedStatesMatter(a: Evidence, b: Evidence)
    requires a.operation == b.operation
    requires a.prior == b.prior || SameState(a.prior, b.prior)
    requires a.requested == b.requested || SameState(a.requested, b.requested)
    requires a.observed == b.observed || SameState(a.observed, b.observed)
    ensures SameKind(Reconcile(a), Reconcile(b))
  {
    DecisionFollowsObservation(a);
    DecisionFollowsObservation(b);
    assert AllKnown(a) <==> AllKnown(b);
    assert AllKnown(a) ==> (SameState(a.observed, a.requested) <==> SameState(b.observed, b.requested));
    assert AllKnown(a) ==> (SameState(a.observed, a.prior) <==> SameState(b.observed, b.prior));
    assert a.operation == Apply || a.operation == Restore;
  }

  /** What reconciling an intent again would be given. */
  function Reconsidered(i: Intent, operation: ReconcileOperation, dispatch: DispatchEvidence, observed: ExactState)
    : Evidence
  {
    Evidence(i.transactionId, i.operationVersionId, operation, dispatch, i.prior, i.requested, observed)
  }

  /**
   A resolution intent exists exactly for an unresolved decision and a new transaction. In an unchanged
   world, keeping the current state is receipt-eligible at once, and any other choice is not done yet.
   */
  lemma IntentsStartFromTheObservedState(e: Evidence, choice: Choice, transactionId: string,
                                         operation: ReconcileOperation, dispatch: DispatchEvidence,
                                         observed: ExactState)
    requires SameState(observed, e.observed)
    ensures var intent := CreateResolutionIntent(Reconcile(e), choice, transactionId);
            && (intent.Ok? <==>
                  && AllKnown(e) && !SameState(e.observed, e.prior) && !SameState(e.observed, e.requested)
                  && transactionId != e.transactionId)
            && (intent.Err? ==> intent.error == RecoveryBlocked(e.operationVersionId))
            && (intent.Ok? ==>
                  && intent.value.transactionId == transactionId && intent.value.parentTransactionId == e.transactionId
                  && intent.value.operationVersionId == e.operationVersionId && intent.value.choice == choice
                  && intent.value.prior == e.observed)
            && (intent.Ok? ==>
                  var again := Reconcile(Reconsidered(intent.value, operation, dispatch, observed));
                  if choice == KeepCurrentState then ReceiptEligible(again)
                  else again.NotAppliedDoNotRetry? || again.NotRestoredDoNotRetry?)
  {
    DecisionFollowsObservation(e);
    var intent := CreateResolutionIntent(Reconcile(e), choice, transactionId);
    if intent.Ok? {
      DecisionFollowsObservation(Reconsidered(intent.value, operation, dispatch, observed));
      match choice
      case KeepCurrentState =>
      case RestoreExactPriorState =>
      case ReapplyAfterFreshAdmission =>
    }
  }

  /**
   An intent is settled, at the entry point for its operation and whatever was reported, exactly by reaching
   the state its choice stands for: the one that was observed, the one before the operation that was in doubt,
   which a restoration was itself meant to reach, or the one requested then.
   */
  lemma ReachingTheChosenStateSettlesIt(e: Evidence, choice: Choice, transactionId: string,
                                        operation: ReconcileOperation, dispatch: DispatchEvidence, observed: ExactState)
    requires CreateResolutionIntent(Reconcile(e), choice, transactionId).Ok?
    ensures var intent := CreateResolutionIntent(Reconcile(e), choice, transactionId).value;
            var again := Reconsidered(intent, operation, dispatch, observed);
            var reached := ReconcileOnly(operation, again);
            && again.transactionId == transactionId && again.operationVersionId == e.operationVersionId
            && reached == Ok(Reconcile(again))
            && (ReceiptEligible(reached.value) <==>
                  match choice
                  case KeepCurrentState => SameState(observed, e.observed)
                  case RestoreExactPriorState =>
                    if e.operation == Apply then SameState(observed, e.prior) else SameState(observed, e.requested)
                  case ReapplyAfterFreshAdmission => SameState(observed, e.requested))
            && (forall other :: other != operation ==> ReconcileOnly(other, again).Err?)
  {
    DecisionFollowsObservation(e);
    var intent := CreateResolutionIntent(Reconcile(e), choice, transactionId).value;
    DecisionFollowsObservation(Reconsidered(intent, operation, dispatch, observed));
    match choice
    case KeepCurrentState =>
    case RestoreExactPriorState =>
    case ReapplyAfterFreshAdmission =>
  }
}
