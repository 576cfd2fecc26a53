/**
 Rollback after a failure: the worklist that closes over dependencies, the check of what is claimed to
 be applied, the split into restored and preserved operations, and the effect of running the restores.
 */
module DependencyRollback {
  import opened Collections
  import opened DependencyGraph
  import opened DependencyPolicy

  /** An exact operation state; the planner only carries it around and compares it. */
  datatype State = State(text: string)

  datatype Applied = Applied(op: Id, group: Id, appliedState: State, restoreState: State)

  datatype RestoreTarget = RestoreTarget(op: Id, group: Id, expected: State, restore: State)

  datatype Verdict = AffectedClosurePending | GuidedRecoveryRequired

  datatype RollbackDecision = RollbackDecision(
    failedOp: Id,
    affectedGroups: seq<Id>,
    restoreInOrder: seq<RestoreTarget>,
    preserve: seq<Id>,
    verdict: Verdict,
    restoreFailure: Option<Id>)

  datatype PlanErrorCode = UnknownOperationVersion | RecoveryBlocked

  datatype PlanError = PlanError(code: PlanErrorCode, subject: Id)

  // ---------------------------------------------------------------- graphs produced by validation

  /** What every graph accepted by validation satisfies, whatever input it came from. */
  ghost predicate ValidDag(dag: Dag) {
    && Populated(dag.groups) && Unique(dag.groups) && EdgesOk(dag.groups)
    && IsTopological(GraphOf(dag.groups), dag.groupOrder)
    && dag.operationOrder == Flatten(dag.groups, dag.groupOrder)
  }

  lemma AcceptedIsValid(input: seq<Group>, dag: Dag)
    requires Admissible(input) && Accepts(input, dag)
    ensures ValidDag(dag)
  {
    NormaliseKeepsUnique(input);
    NormaliseKeepsEdges(input);
    NormaliseKeepsGraph(input);
    NormaliseKeepsPopulated(input);
  }

  /** `op` belongs to the group called `id`. */
  ghost predicate BelongsTo(groups: seq<Group>, op: Id, id: Id) {
    exists gr :: gr in groups && gr.id == id && op in gr.ops
  }

  lemma OwnerIsUnique(groups: seq<Group>, op: Id, a: Id, b: Id)
    requires Unique(groups) && BelongsTo(groups, op, a) && BelongsTo(groups, op, b)
    ensures a == b
  {
    UniqueByPairs(groups);
    PairsByMembers(groups);
    var x :| x in groups && x.id == a && op in x.ops;
    var y :| y in groups && y.id == b && op in y.ops;
    assert x != y ==> Apart(x, y);
  }

  /** The index from operations to groups that the planner builds by walking the groups. */
  method OperationGroups(groups: seq<Group>) returns (index: map<Id, Id>)
    requires Unique(groups)
    ensures index.Keys == Operations(groups)
    ensures forall op :: op in index ==> BelongsTo(groups, op, index[op])
  {
    index := map[];
    for i := 0 to |groups|
      invariant index.Keys == Operations(groups[..i])
      invariant forall op :: op in index ==> BelongsTo(groups, op, index[op])
    {
      var gr := groups[i];
      assert gr in groups;
      OperationsPrefix(groups, i);
      var entries := map op | op in gr.ops :: gr.id;
      assert entries.Keys == ToSet(gr.ops);
      index := index + entries;
    }
    assert groups[..|groups|] == groups;
  }

  // ---------------------------------------------------------------- the dependency closure

  /** The groups the failed group depends on, directly or not, and the failed group itself. */
  ghost function Closure(g: Graph, failed: Id): set<Id> {
    set x | x in g && Reaches(g, failed, x)
  }

  ghost predicate Covered(g: Graph, closure: set<Id>, pending: seq<Id>) {
    forall x :: x in closure && x in g ==> forall d :: d in g[x] ==> d in closure || d in pending
  }

  lemma CoveredIsClosure(g: Graph, failed: Id, closure: set<Id>)
    requires Closed(g) && failed in closure && Covered(g, closure, [])
    requires forall x :: x in closure ==> x in g && Reaches(g, failed, x)
    ensures closure == Closure(g, failed)
  {
    forall x | x in g && Reaches(g, failed, x)
      ensures x in closure
    {
      var p :| IsWalk(g, failed, x, p);
      WalkStaysInside(g, closure, p, |p| - 1);
    }
  }

  lemma CoverStep(g: Graph, closure: set<Id>, pending: seq<Id>, id: Id, deps: seq<Id>)
    requires pending != [] && pending[|pending| - 1] == id && Covered(g, closure, pending)
    requires id in g && g[id] == ToSet(deps)
    ensures id in closure ==> Covered(g, closure, pending[..|pending| - 1])
    ensures Covered(g, closure + {id}, pending[..|pending| - 1] + deps)
  {
    var rest := pending[..|pending| - 1];
    assert pending == rest + [id];
    assert forall d :: d in pending ==> d in rest || d == id;
    assert forall d :: d in g[id] ==> d in deps;
  }

  /** Everything collected or still pending is reachable from the failed group. */
  ghost predicate Sound(g: Graph, failed: Id, closure: set<Id>, pending: seq<Id>) {
    forall x :: x in closure || x in pending ==> x in g && Reaches(g, failed, x)
  }

  lemma SoundStep(g: Graph, failed: Id, closure: set<Id>, pending: seq<Id>, id: Id, deps: seq<Id>)
    requires Closed(g) && Sound(g, failed, closure, pending)
    requires pending != [] && pending[|pending| - 1] == id && id in g && g[id] == ToSet(deps)
    ensures Sound(g, failed, closure, pending[..|pending| - 1])
    ensures Sound(g, failed, closure + {id}, pending[..|pending| - 1] + deps)
  {
    assert id in pending;
    forall d | d in deps
      ensures d in g && Reaches(g, failed, d)
    {
      assert d in ToSet(deps);
      ReachesStep(g, failed, id, d);
    }
  }

  /** `byId` looks up the groups of `g`. */
  ghost predicate Indexes(g: Graph, byId: map<Id, Group>) {
    byId.Keys == g.Keys && forall id :: id in byId ==> g[id] == ToSet(byId[id].deps)
  }

  method CloseOver(ghost g: Graph, byId: map<Id, Group>, failed: Id) returns (closure: set<Id>)
    requires Closed(g) && Indexes(g, byId) && failed in g
    ensures closure == Closure(g, failed)
  {
    closure := {};
    var pending := [failed];
    ReachesSelf(g, failed);
    while pending != []
      invariant failed in closure || failed in pending
      invariant Sound(g, failed, closure, pending)
      invariant Covered(g, closure, pending)
      invariant closure <= g.Keys
      decreases g.Keys - closure, |pending|
    {
      var id := pending[|pending| - 1];
      assert id in pending;
      var deps := byId[id].deps;
      CoverStep(g, closure, pending, id, deps);
      SoundStep(g, failed, closure, pending, id, deps);
      assert pending == pending[..|pending| - 1] + [id];
      pending := pending[..|pending| - 1];
      if id !in closure {
        closure := closure + {id};
        pending := pending + deps;
      }
    }
    CoveredIsClosure(g, failed, closure);
  }

  method IndexGroups(groups: seq<Group>) returns (byId: map<Id, Group>)
    requires forall i, j :: 0 <= i < j < |groups| ==> groups[i].id != groups[j].id
    ensures byId.Keys == GroupIds(groups)
    ensures forall i :: 0 <= i < |groups| ==> groups[i].id in byId && byId[groups[i].id] == groups[i]
  {
    byId := map[];
    for i := 0 to |groups|
      invariant byId.Keys == GroupIds(groups[..i])
      invariant forall k :: 0 <= k < i ==> groups[k].id in byId && byId[groups[k].id] == groups[k]
    {
      OperationsPrefix(groups, i);
      byId := byId[groups[i].id := groups[i]];
    }
    assert groups[..|groups|] == groups;
  }

  lemma IndexRepresents(groups: seq<Group>, byId: map<Id, Group>)
    requires Unique(groups) && EdgesOk(groups)
    requires byId.Keys == GroupIds(groups)
    requires forall i :: 0 <= i < |groups| ==> groups[i].id in byId && byId[groups[i].id] == groups[i]
    ensures Indexes(GraphOf(groups), byId)
  {
    GroupsInGraph(groups);
    forall id | id in byId
      ensures GraphOf(groups)[id] == ToSet(byId[id].deps)
    {
      var gr :| gr in groups && gr.id == id;
      var i :| 0 <= i < |groups| && groups[i] == gr;
    }
  }

  /**
   The worklist: it terminates, never looks up a missing group, and returns exactly the groups the
   failed one reaches along `deps`, i.e. towards prerequisites.
   */
  method DependencyClosure(dag: Dag, failed: Id) returns (closure: set<Id>)
    requires ValidDag(dag) && failed in GroupIds(dag.groups)
    ensures closure == Closure(GraphOf(dag.groups), failed)
  {
    DistinctIds(dag.groups);
    var byId := IndexGroups(dag.groups);
    IndexRepresents(dag.groups, byId);
    GroupsInGraph(dag.groups);
    closure := CloseOver(GraphOf(dag.groups), byId, failed);
  }

  // ---------------------------------------------------------------- what was applied

  ghost predicate AppliedOkAt(groups: seq<Group>, applied: seq<Applied>, i: nat)
    requires i < |applied|
  {
    && BelongsTo(groups, applied[i].op, applied[i].group)
    && forall k :: 0 <= k < i ==> applied[k].op != applied[i].op
  }

  /** Every applied operation is known, claims its own group, and is claimed once. */
  ghost predicate AppliedTruth(groups: seq<Group>, applied: seq<Applied>) {
    forall i :: 0 <= i < |applied| ==> AppliedOkAt(groups, applied, i)
  }

  ghost predicate AppliedFaultAt(groups: seq<Group>, applied: seq<Applied>, i: nat, e: PlanError) {
    && i < |applied| && AppliedTruth(groups, applied[..i]) && !AppliedOkAt(groups, applied, i)
    && e == PlanError(if applied[i].op in Operations(groups) then RecoveryBlocked else UnknownOperationVersion,
                      applied[i].op)
  }

  function ById(applied: seq<Applied>): map<Id, Applied> {
    if applied == [] then map[]
    else
      var last := applied[|applied| - 1];
      ById(applied[..|applied| - 1])[last.op := last]
  }

  lemma {:induction false} ByIdContents(applied: seq<Applied>)
    ensures forall op :: op in ById(applied) ==> ById(applied)[op] in applied && ById(applied)[op].op == op
    ensures forall a :: a in applied ==> a.op in ById(applied)
  {
    if applied != [] {
      var front := applied[..|applied| - 1];
      assert applied == front + [applied[|applied| - 1]];
      ByIdContents(front);
    }
  }

  lemma ByIdExact(groups: seq<Group>, applied: seq<Applied>)
    requires AppliedTruth(groups, applied)
    ensures forall a :: a in applied ==> a.op in ById(applied) && ById(applied)[a.op] == a
  {
    ByIdContents(applied);
    forall a | a in applied
      ensures ById(applied)[a.op] == a
    {
      var b := ById(applied)[a.op];
      var i :| 0 <= i < |applied| && applied[i] == a;
      var j :| 0 <= j < |applied| && applied[j] == b;
      assert AppliedOkAt(groups, applied, i) && AppliedOkAt(groups, applied, j);
    }
  }

  lemma BelongsToKnown(groups: seq<Group>, index: map<Id, Id>, op: Id, id: Id)
    requires Unique(groups) && index.Keys == Operations(groups)
    requires forall o :: o in index ==> BelongsTo(groups, o, index[o])
    ensures BelongsTo(groups, op, id) <==> op in index && index[op] == id
  {
    if BelongsTo(groups, op, id) {
      assert op in Operations(groups);
      OwnerIsUnique(groups, op, id, index[op]);
    }
  }

  /** Checks the claims one by one, stopping at the first false one. */
  method ValidateApplied(groups: seq<Group>, applied: seq<Applied>) returns (r: Result<map<Id, Applied>, PlanError>)
    requires Unique(groups)
    ensures AppliedTruth(groups, applied) ==> r == Ok(ById(applied))
    ensures !AppliedTruth(groups, applied) ==> r.Err? && exists i: nat :: AppliedFaultAt(groups, applied, i, r.error)
  {
    var known := OperationGroups(groups);
    var byId: map<Id, Applied> := map[];
    for i := 0 to |applied|
      invariant AppliedTruth(groups, applied[..i])
      invariant byId == ById(applied[..i])
    {
      var claim := applied[i];
      ByIdContents(applied[..i]);
      BelongsToKnown(groups, known, claim.op, claim.group);
      AppliedPrefix(groups, applied, i);
      if claim.op !in known {
        assert AppliedFaultAt(groups, applied, i, PlanError(UnknownOperationVersion, claim.op));
        return Err(PlanError(UnknownOperationVersion, claim.op));
      }
      if known[claim.op] != claim.group || claim.op in byId {
        assert AppliedFaultAt(groups, applied, i, PlanError(RecoveryBlocked, claim.op));
        return Err(PlanError(RecoveryBlocked, claim.op));
      }
      assert applied[..i + 1][..i] == applied[..i];
      byId := byId[claim.op := claim];
    }
    assert applied[..|applied|] == applied;
    r := Ok(byId);
  }

  lemma AppliedPrefix(groups: seq<Group>, applied: seq<Applied>, i: nat)
    requires i < |applied| && AppliedTruth(groups, applied[..i])
    ensures AppliedTruth(groups, applied[..i + 1]) <==> AppliedOkAt(groups, applied, i)
    ensures AppliedOkAt(groups, applied, i) <==>
            BelongsTo(groups, applied[i].op, applied[i].group) && applied[i].op !in ById(applied[..i])
  {
    var front, longer := applied[..i], applied[..i + 1];
    ByIdContents(front);
    assert applied[i].op in ById(front) <==> exists k :: 0 <= k < i && applied[k].op == applied[i].op by {
      if k :| 0 <= k < i && applied[k].op == applied[i].op {
        assert front[k] in front;
      }
    }
    forall k | 0 <= k <= i
      ensures AppliedOkAt(groups, longer, k) <==> AppliedOkAt(groups, applied, k)
      ensures k < i ==> AppliedOkAt(groups, longer, k)
    {
      assert k < i ==> AppliedOkAt(groups, front, k);
    }
  }

  // ---------------------------------------------------------------- the split

  function TargetOf(a: Applied): RestoreTarget {
    RestoreTarget(a.op, a.group, a.appliedState, a.restoreState)
  }

  /** Affected applied operations, last applied first. */
  function RestoreList(order: seq<Id>, applied: map<Id, Applied>, affected: set<Id>): seq<RestoreTarget> {
    if order == [] then []
    else
      var last := order[|order| - 1];
      (if last in applied && applied[last].group in affected then [TargetOf(applied[last])] else [])
      + RestoreList(order[..|order| - 1], applied, affected)
  }

  /** Unaffected applied operations, in apply order. */
  function PreserveList(order: seq<Id>, applied: map<Id, Applied>, affected: set<Id>): seq<Id> {
    if order == [] then []
    else
      var last := order[|order| - 1];
      PreserveList(order[..|order| - 1], applied, affected)
      + (if last in applied && applied[last].group !in affected then [last] else [])
  }

  function Keep(order: seq<Id>, wanted: set<Id>): seq<Id> {
    if order == [] then []
    else
      Keep(order[..|order| - 1], wanted)
      + (if order[|order| - 1] in wanted then [order[|order| - 1]] else [])
  }

  ghost predicate IsRollback(dag: Dag, failedOp: Id, applied: seq<Applied>, d: RollbackDecision) {
    exists failed ::
      && BelongsTo(dag.groups, failedOp, failed)
      && var affected := Closure(GraphOf(dag.groups), failed);
         d == RollbackDecision(
                failedOp,
                Keep(dag.groupOrder, affected),
                RestoreList(dag.operationOrder, ById(applied), affected),
                PreserveList(dag.operationOrder, ById(applied), affected),
                AffectedClosurePending,
                None)
  }

  method RollbackAfterFailure(dag: Dag, failedOp: Id, applied: seq<Applied>)
      returns (r: Result<RollbackDecision, PlanError>)
    requires ValidDag(dag)
    ensures failedOp !in Operations(dag.groups) ==> r == Err(PlanError(UnknownOperationVersion, failedOp))
    ensures failedOp in Operations(dag.groups) && !AppliedTruth(dag.groups, applied) ==>
              r.Err? && exists i: nat :: AppliedFaultAt(dag.groups, applied, i, r.error)
    ensures failedOp in Operations(dag.groups) && AppliedTruth(dag.groups, applied) ==>
              r.Ok? && IsRollback(dag, failedOp, applied, r.value)
  {
    var index := OperationGroups(dag.groups);
    if failedOp !in index {
      return Err(PlanError(UnknownOperationVersion, failedOp));
    }
    var failed := index[failedOp];
    var affected := DependencyClosure(dag, failed);
    var checked := ValidateApplied(dag.groups, applied);
    if checked.Err? {
      return Err(checked.error);
    }
    r := Ok(RollbackDecision(
              failedOp,
              Keep(dag.groupOrder, affected),
              RestoreList(dag.operationOrder, checked.value, affected),
              PreserveList(dag.operationOrder, checked.value, affected),
              AffectedClosurePending,
              None));
  }

  /** A restore that fails blocks later mutations; only an operation being restored can fail that way. */
  function WithRestoreFailure(d: RollbackDecision, op: Id): Result<RollbackDecision, PlanError> {
    if exists t :: t in d.restoreInOrder && t.op == op then
      Ok(d.(verdict := GuidedRecoveryRequired, restoreFailure := Some(op)))
    else
      Err(PlanError(RecoveryBlocked, op))
  }

  /** The operation to finish, if one is in flight, and the operations to keep. */
  datatype SafeBoundary = SafeBoundary(finishInFlight: Option<Id>, preserve: seq<Id>)

  /** Cancelling at a safe boundary finishes what is in flight and keeps everything applied, in apply order. */
  method SafeBoundaryCancellation(dag: Dag, inFlight: Option<Id>, applied: seq<Applied>)
      returns (r: Result<SafeBoundary, PlanError>)
    requires ValidDag(dag)
    ensures inFlight.Some? && inFlight.value !in dag.operationOrder ==>
              r == Err(PlanError(UnknownOperationVersion, inFlight.value))
    ensures (inFlight.Some? ==> inFlight.value in dag.operationOrder) && !AppliedTruth(dag.groups, applied) ==>
              r.Err? && exists i: nat :: AppliedFaultAt(dag.groups, applied, i, r.error)
    ensures (inFlight.Some? ==> inFlight.value in dag.operationOrder) && AppliedTruth(dag.groups, applied) ==>
              r == Ok(SafeBoundary(inFlight, PreserveList(dag.operationOrder, ById(applied), {})))
  {
    if inFlight.Some? && inFlight.value !in dag.operationOrder {
      return Err(PlanError(UnknownOperationVersion, inFlight.value));
    }
    var checked := ValidateApplied(dag.groups, applied);
    if checked.Err? {
      return Err(checked.error);
    }
    r := Ok(SafeBoundary(inFlight, PreserveList(dag.operationOrder, checked.value, {})));
  }

  // ---------------------------------------------------------------- the order operations are applied in

  ghost predicate Before(order: seq<Id>, a: Id, b: Id) {
    exists p, q :: 0 <= p < q < |order| && order[p] == a && order[q] == b
  }

  lemma BeforeIsStrict(order: seq<Id>, a: Id, b: Id)
    requires Distinct(order) && Before(order, a, b)
    ensures !Before(order, b, a)
  {
  }

  lemma BeforeInConcat(x: seq<Id>, y: seq<Id>, a: Id, b: Id)
    requires Before(x, a, b) || Before(y, a, b) || (a in x && b in y)
    ensures Before(x + y, a, b)
  {
    var z := x + y;
    if p, q :| 0 <= p < q < |x| && x[p] == a && x[q] == b {
      assert z[p] == a && z[q] == b;
    } else if p, q :| 0 <= p < q < |y| && y[p] == a && y[q] == b {
      assert z[|x| + p] == a && z[|x| + q] == b;
    } else {
      var p :| 0 <= p < |x| && x[p] == a;
      var q :| 0 <= q < |y| && y[q] == b;
      assert z[p] == a && z[|x| + q] == b;
    }
  }

  /** The restores run in strictly reverse apply order. */
  lemma {:induction false} RestoreListOrder(order: seq<Id>, applied: map<Id, Applied>, affected: set<Id>)
    requires forall op :: op in applied ==> applied[op].op == op
    ensures forall t :: t in RestoreList(order, applied, affected) <==>
              exists op :: op in order && op in applied && applied[op].group in affected && t == TargetOf(applied[op])
    ensures forall i, j :: 0 <= i < j < |RestoreList(order, applied, affected)| ==>
              Before(order, RestoreList(order, applied, affected)[j].op, RestoreList(order, applied, affected)[i].op)
  {
    if order != [] {
      var front, last := order[..|order| - 1], order[|order| - 1];
      var rest := RestoreList(front, applied, affected);
      var all := RestoreList(order, applied, affected);
      assert order == front + [last];
      RestoreListOrder(front, applied, affected);
      forall i, j | 0 <= i < j < |all|
        ensures Before(order, all[j].op, all[i].op)
      {
        var shift := |all| - |rest|;
        assert all[j] == rest[j - shift] && rest[j - shift] in rest;
        if i >= shift {
          assert all[i] == rest[i - shift];
        }
        BeforeInConcat(front, [last], all[j].op, all[i].op);
      }
    }
  }

  /** The preserved operations stay in apply order. */
  lemma {:induction false} PreserveListOrder(order: seq<Id>, applied: map<Id, Applied>, affected: set<Id>)
    ensures forall op :: op in PreserveList(order, applied, affected) <==>
              op in order && op in applied && applied[op].group !in affected
    ensures forall i, j :: 0 <= i < j < |PreserveList(order, applied, affected)| ==>
              Before(order, PreserveList(order, applied, affected)[i], PreserveList(order, applied, affected)[j])
  {
    if order != [] {
      var front, last := order[..|order| - 1], order[|order| - 1];
      var rest := PreserveList(front, applied, affected);
      var all := PreserveList(order, applied, affected);
      assert order == front + [last];
      PreserveListOrder(front, applied, affected);
      forall i, j | 0 <= i < j < |all|
        ensures Before(order, all[i], all[j])
      {
        assert all[i] == rest[i] && rest[i] in rest;
        if j < |rest| {
          assert all[j] == rest[j];
        }
        BeforeInConcat(front, [last], all[i], all[j]);
      }
    }
  }
}
