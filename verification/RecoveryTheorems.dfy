/**
 The broker and reconciliation together: whatever goes wrong while a switch of the power scheme is
 submitted, observing the machine afterwards tells whether it happened.
 */
module RecoveryTheorems {
  import opened Collections
  import opened Dispatchers
  import opened Brokers
  import opened BrokerRuns
  import opened Reconciliation

  /** An observer of the active scheme: exact, and telling schemes apart. */
  ghost predicate Faithful(observe: World -> ExactState) {
    && (forall w :: ActiveExists(w) ==> observe(w).Exact?)
    && (forall v, w :: ActiveExists(v) && ActiveExists(w) ==>
          (SameState(observe(v), observe(w)) <==>
             v.active == w.active && v.schemes[v.active].fingerprint == w.schemes[w.active].fingerprint))
  }

  /** The evidence of one submitted switch from the machine as it was to the machine as it is. */
  function SwitchEvidence(observe: World -> ExactState, e: string, version: string, dispatch: DispatchEvidence,
                          before: World, target: SchemeId, after: World): Evidence {
    Evidence(e, version, Apply, dispatch, observe(before), observe(before.(active := target)), observe(after))
  }

  /** A submission that asks for a switch either performs exactly that switch or leaves the machine alone. */
  lemma SubmittedSwitchIsAllOrNothing(p: Primitives, r: Run, ev: Event, target: SchemeId, current: SchemeId)
    requires Inv(r) && ev.Submit? && AdmittedBy(p, r, ev).Ok?
    requires EffectOf(AdmittedBy(p, r, ev).value.request.operation) == Some(Switch(target, current))
    ensures var w, v := r.machine.world, Step(p, r, ev).machine.world;
            v == w || (v == w.(active := target) && Matches(w, Switch(target, current)))
  {
    var a := AdmittedBy(p, r, ev).value;
    if Reserves(p, r, ev) {
      ReservedShape(p, r, ev);
      OnlyTheEffectTouchesTheWorld(r.machine, a.request, ContextFor(a.session, ev.signed.content), ev.script);
    } else {
      NotReservedMeansUntouched(p, r, ev);
    }
  }

  /**
   After submitting a switch under any fault, with any evidence about the dispatch: the decision is
   receipt-eligible exactly when the machine was switched, and not-applied exactly when it was left alone.
   */
  lemma ReconcilingASubmittedSwitch(p: Primitives, r: Run, ev: Event, target: SchemeId, current: SchemeId,
                                    observe: World -> ExactState, dispatch: DispatchEvidence)
    requires Inv(r) && ev.Submit? && AdmittedBy(p, r, ev).Ok? && Faithful(observe)
    requires EffectOf(AdmittedBy(p, r, ev).value.request.operation) == Some(Switch(target, current))
    requires target in r.machine.world.schemes && target != r.machine.world.active
    ensures var w, v := r.machine.world, Step(p, r, ev).machine.world;
            var decision := Reconcile(SwitchEvidence(observe, ev.signed.content.transactionId,
                                                     ev.signed.content.operationVersionId, dispatch, w, target, v));
            && (decision.AppliedNeedsReceipt? <==> v == w.(active := target))
            && (decision.NotAppliedDoNotRetry? <==> v == w)
            && !decision.UnknownBlockMutations? && !RequiresUserChoice(decision)
  {
    var w, v := r.machine.world, Step(p, r, ev).machine.world;
    SubmittedSwitchIsAllOrNothing(p, r, ev, target, current);
    DecisionFollowsObservation(SwitchEvidence(observe, ev.signed.content.transactionId,
                                              ev.signed.content.operationVersionId, dispatch, w, target, v));
    assert ActiveExists(w) && ActiveExists(w.(active := target)) && ActiveExists(v);
  }
}
