/**
 What a rollback decision guarantees: an exact split of what was applied, dependents restored before
 their prerequisites, independence of the order of the claims, and exact restoration when it is run.
 */
module RollbackTheorems {
  import opened Collections
  import opened DependencyGraph
  import opened DependencyPolicy
  import opened DependencyRollback

  // ---------------------------------------------------------------- the apply order

  lemma {:induction false} OpsOfNone(groups: seq<Group>, id: Id)
    requires forall gr :: gr in groups ==> gr.id != id
    ensures OpsOf(groups, id) == []
  {
    if groups != [] {
      assert groups[0] in groups;
      OpsOfNone(groups[1..], id);
    }
  }

  lemma OpsOfMember(groups: seq<Group>, op: Id, id: Id)
    requires Unique(groups)
    ensures BelongsTo(groups, op, id) <==> op in OpsOf(groups, id)
    ensures Distinct(OpsOf(groups, id))
  {
    DistinctIds(groups);
    if gr :| gr in groups && gr.id == id {
      var i :| 0 <= i < |groups| && groups[i] == gr;
      OpsOfIndex(groups, i);
      assert CleanAt(groups, i);
      forall other | other in groups && other.id == id
        ensures other == gr
      {
        var j :| 0 <= j < |groups| && groups[j] == other;
      }
    } else {
      OpsOfNone(groups, id);
    }
  }

  lemma {:induction false} FlattenMembers(groups: seq<Group>, order: seq<Id>, op: Id)
    ensures op in Flatten(groups, order) <==> exists id :: id in order && op in OpsOf(groups, id)
  {
    if order != [] {
      var head, rest := order[0], order[1..];
      FlattenMembers(groups, rest, op);
      if op in OpsOf(groups, head) {
        assert head in order;
      } else if id :| id in rest && op in OpsOf(groups, id) {
        assert id in order;
      }
      if id :| id in order && op in OpsOf(groups, id) {
        assert id == head || id in rest;
      }
    }
  }

  lemma ConcatDistinct(a: seq<Id>, b: seq<Id>)
    requires Distinct(a) && Distinct(b) && forall x :: x in a ==> x !in b
    ensures Distinct(a + b)
  {
    var c := a + b;
    forall i, j | 0 <= i < j < |c|
      ensures c[i] != c[j]
    {
      if i < |a| && j >= |a| {
        assert c[i] in a && c[j] in b;
      }
    }
  }

  lemma {:induction false} FlattenDistinct(groups: seq<Group>, order: seq<Id>)
    requires Unique(groups) && Distinct(order)
    ensures Distinct(Flatten(groups, order))
  {
    if order != [] {
      var id, rest := order[0], order[1..];
      FlattenDistinct(groups, rest);
      OpsOfMember(groups, id, id);
      forall op | op in OpsOf(groups, id)
        ensures op !in Flatten(groups, rest)
      {
        FlattenMembers(groups, rest, op);
        forall other | other in rest && op in OpsOf(groups, other)
          ensures other == id
        {
          OpsOfMember(groups, op, id);
          OpsOfMember(groups, op, other);
          OwnerIsUnique(groups, op, id, other);
        }
        assert id !in rest;
      }
      ConcatDistinct(OpsOf(groups, id), Flatten(groups, rest));
    }
  }

  lemma {:induction false} FlattenBefore(groups: seq<Group>, order: seq<Id>, x: Id, y: Id, a: Id, b: Id)
    requires Before(order, x, y) && a in OpsOf(groups, x) && b in OpsOf(groups, y)
    ensures Before(Flatten(groups, order), a, b)
  {
    var head, rest := order[0], order[1..];
    assert order == [head] + rest;
    var p, q :| 0 <= p < q < |order| && order[p] == x && order[q] == y;
    if p == 0 {
      assert y == rest[q - 1];
      FlattenMembers(groups, rest, b);
      BeforeInConcat(OpsOf(groups, head), Flatten(groups, rest), a, b);
    } else {
      assert rest[p - 1] == x && rest[q - 1] == y;
      FlattenBefore(groups, rest, x, y, a, b);
      BeforeInConcat(OpsOf(groups, head), Flatten(groups, rest), a, b);
    }
  }

  lemma {:induction false} WalkGoesBack(g: Graph, order: seq<Id>, p: seq<Id>, i: nat)
    requires IsTopological(g, order) && p != [] && i < |p|
    requires forall k :: 0 <= k < |p| ==> p[k] in g
    requires forall k :: 0 <= k < |p| - 1 ==> p[k + 1] in g[p[k]]
    ensures p[0] in order && p[i] in order && Position(order, p[i]) <= Position(order, p[0])
  {
    assert p[0] in ToSet(order) && p[i] in ToSet(order);
    if i > 0 {
      WalkGoesBack(g, order, p, i - 1);
      EdgeGoesBack(g, order, p[i - 1], p[i]);
    }
  }

  /** Every operation is applied after all operations of the groups its group depends on, directly or not. */
  lemma PrerequisitesAppliedFirst(dag: Dag, a: Id, ga: Id, b: Id, gb: Id)
    requires ValidDag(dag)
    requires BelongsTo(dag.groups, a, ga) && BelongsTo(dag.groups, b, gb)
    requires ga != gb && Reaches(GraphOf(dag.groups), ga, gb)
    ensures Before(dag.operationOrder, b, a)
  {
    var g := GraphOf(dag.groups);
    OpsOfMember(dag.groups, a, ga);
    OpsOfMember(dag.groups, b, gb);
    var p :| IsWalk(g, ga, gb, p);
    WalkGoesBack(g, dag.groupOrder, p, |p| - 1);
    var x, y := Position(dag.groupOrder, gb), Position(dag.groupOrder, ga);
    assert x != y;
    assert Before(dag.groupOrder, gb, ga);
    FlattenBefore(dag.groups, dag.groupOrder, gb, ga, b, a);
  }

  lemma OperationOrderFacts(dag: Dag)
    requires ValidDag(dag)
    ensures Distinct(dag.operationOrder)
    ensures forall op :: op in dag.operationOrder <==> op in Operations(dag.groups)
  {
    FlattenDistinct(dag.groups, dag.groupOrder);
    forall op
      ensures op in dag.operationOrder <==> op in Operations(dag.groups)
    {
      FlattenMembers(dag.groups, dag.groupOrder, op);
      if op in Operations(dag.groups) {
        var gr :| gr in dag.groups && op in gr.ops;
        OpsOfMember(dag.groups, op, gr.id);
        assert gr.id in ToSet(dag.groupOrder);
      }
      if id :| id in dag.groupOrder && op in OpsOf(dag.groups, id) {
        OpsOfMember(dag.groups, op, id);
      }
    }
  }

  // ---------------------------------------------------------------- the decision

  ghost function FailedGroup(dag: Dag, failedOp: Id): (id: Id)
    requires exists id :: BelongsTo(dag.groups, failedOp, id)
    ensures BelongsTo(dag.groups, failedOp, id)
  {
    var id :| BelongsTo(dag.groups, failedOp, id); id
  }

  ghost function Affected(dag: Dag, failedOp: Id): set<Id>
    requires exists id :: BelongsTo(dag.groups, failedOp, id)
  {
    Closure(GraphOf(dag.groups), FailedGroup(dag, failedOp))
  }

  ghost function RestoredOps(d: RollbackDecision): set<Id> {
    set t | t in d.restoreInOrder :: t.op
  }

  /** Names the groups a decision is about. */
  lemma DecisionParts(dag: Dag, failedOp: Id, applied: seq<Applied>, d: RollbackDecision)
    requires ValidDag(dag) && IsRollback(dag, failedOp, applied, d)
    ensures exists id :: BelongsTo(dag.groups, failedOp, id)
    ensures d.restoreInOrder == RestoreList(dag.operationOrder, ById(applied), Affected(dag, failedOp))
    ensures d.preserve == PreserveList(dag.operationOrder, ById(applied), Affected(dag, failedOp))
    ensures d.affectedGroups == Keep(dag.groupOrder, Affected(dag, failedOp))
    ensures d.failedOp == failedOp && d.verdict == AffectedClosurePending && d.restoreFailure == None
  {
    var failed :| BelongsTo(dag.groups, failedOp, failed)
                  && d.restoreInOrder == RestoreList(dag.operationOrder, ById(applied), Closure(GraphOf(dag.groups), failed))
                  && d.preserve == PreserveList(dag.operationOrder, ById(applied), Closure(GraphOf(dag.groups), failed))
                  && d.affectedGroups == Keep(dag.groupOrder, Closure(GraphOf(dag.groups), failed));
    OwnerIsUnique(dag.groups, failedOp, failed, FailedGroup(dag, failedOp));
  }

  lemma AppliedInOrder(dag: Dag, applied: seq<Applied>)
    requires ValidDag(dag) && AppliedTruth(dag.groups, applied)
    ensures forall op :: op in ById(applied) ==> op in dag.operationOrder && ById(applied)[op].op == op
    ensures forall a :: a in applied ==> a.op in ById(applied) && ById(applied)[a.op] == a
  {
    ByIdContents(applied);
    ByIdExact(dag.groups, applied);
    OperationOrderFacts(dag);
    forall op | op in ById(applied)
      ensures op in Operations(dag.groups)
    {
      var a := ById(applied)[op];
      var i :| 0 <= i < |applied| && applied[i] == a;
      assert AppliedOkAt(dag.groups, applied, i);
    }
  }

  /**
   The split is exact: an applied operation is restored when its group is the failed one or a
   prerequisite of it, and preserved otherwise; nothing else appears in either list.
   */
  lemma RollbackSplitsExactly(dag: Dag, failedOp: Id, applied: seq<Applied>, d: RollbackDecision)
    requires ValidDag(dag) && AppliedTruth(dag.groups, applied) && IsRollback(dag, failedOp, applied, d)
    ensures forall a :: a in applied ==>
              if a.group in Affected(dag, failedOp)
              then TargetOf(a) in d.restoreInOrder && a.op !in d.preserve
              else a.op in d.preserve && a.op !in RestoredOps(d)
    ensures forall t :: t in d.restoreInOrder ==> exists a :: a in applied && t == TargetOf(a)
    ensures forall op :: op in d.preserve ==> exists a :: a in applied && a.op == op
  {
    var affected, byId := Affected(dag, failedOp), ById(applied);
    DecisionParts(dag, failedOp, applied, d);
    AppliedInOrder(dag, applied);
    ByIdContents(applied);
    RestoreListOrder(dag.operationOrder, byId, affected);
    PreserveListOrder(dag.operationOrder, byId, affected);
  }

  /** No operation is restored twice, none is preserved twice, and none is lost. */
  lemma RollbackConserves(dag: Dag, failedOp: Id, applied: seq<Applied>, d: RollbackDecision)
    requires ValidDag(dag) && AppliedTruth(dag.groups, applied) && IsRollback(dag, failedOp, applied, d)
    ensures forall i, j :: 0 <= i < j < |d.restoreInOrder| ==> d.restoreInOrder[i].op != d.restoreInOrder[j].op
    ensures Distinct(d.preserve)
    ensures |d.restoreInOrder| + |d.preserve| == |applied|
  {
    var affected, byId := Affected(dag, failedOp), ById(applied);
    DecisionParts(dag, failedOp, applied, d);
    AppliedInOrder(dag, applied);
    OperationOrderFacts(dag);
    RestoreListOrder(dag.operationOrder, byId, affected);
    PreserveListOrder(dag.operationOrder, byId, affected);
    ListSizes(dag.operationOrder, byId, affected);
    ByIdSize(dag.groups, applied);
    assert ClaimedIn(dag.operationOrder, byId) == byId.Keys;
  }

  ghost function ClaimedIn(order: seq<Id>, applied: map<Id, Applied>): set<Id> {
    set op | op in order && op in applied
  }

  lemma OneMoreClaimed(front: seq<Id>, last: Id, applied: map<Id, Applied>)
    requires last !in front
    ensures |ClaimedIn(front + [last], applied)| == |ClaimedIn(front, applied)| + (if last in applied then 1 else 0)
  {
    var before, all := ClaimedIn(front, applied), ClaimedIn(front + [last], applied);
    assert last !in before;
    assert all == if last in applied then before + {last} else before;
  }

  lemma {:induction false} ListSizes(order: seq<Id>, applied: map<Id, Applied>, affected: set<Id>)
    requires Distinct(order)
    ensures |RestoreList(order, applied, affected)| + |PreserveList(order, applied, affected)|
            == |ClaimedIn(order, applied)|
  {
    if order != [] {
      var front, last := order[..|order| - 1], order[|order| - 1];
      ListSizes(front, applied, affected);
      assert order == front + [last];
      OneMoreClaimed(front, last, applied);
    }
  }

  lemma {:induction false} ByIdSize(groups: seq<Group>, applied: seq<Applied>)
    requires AppliedTruth(groups, applied)
    ensures |ById(applied)| == |applied|
  {
    if applied != [] {
      var n := |applied| - 1;
      var front := applied[..n];
      forall i | 0 <= i < n
        ensures AppliedOkAt(groups, front, i)
      {
        assert AppliedOkAt(groups, applied, i);
      }
      ByIdSize(groups, front);
      assert AppliedOkAt(groups, applied, n);
      ByIdContents(front);
      forall op | op in ById(front)
        ensures op != applied[n].op
      {
        var k :| 0 <= k < n && front[k] == ById(front)[op];
        assert applied[k].op == op;
      }
      assert ById(applied).Keys == ById(front).Keys + {applied[n].op};
    }
  }

  /** Restores run in strictly reverse apply order, so a dependent is restored before its prerequisites. */
  lemma DependentsRestoredFirst(dag: Dag, failedOp: Id, applied: seq<Applied>, d: RollbackDecision, i: nat, j: nat)
    requires ValidDag(dag) && AppliedTruth(dag.groups, applied) && IsRollback(dag, failedOp, applied, d)
    requires i < |d.restoreInOrder| && j < |d.restoreInOrder|
    ensures i < j ==> Before(dag.operationOrder, d.restoreInOrder[j].op, d.restoreInOrder[i].op)
    ensures (d.restoreInOrder[i].group != d.restoreInOrder[j].group
             && Reaches(GraphOf(dag.groups), d.restoreInOrder[i].group, d.restoreInOrder[j].group)) ==> i < j
  {
    var ti, tj := d.restoreInOrder[i], d.restoreInOrder[j];
    assert ti in d.restoreInOrder && tj in d.restoreInOrder;
    DecisionParts(dag, failedOp, applied, d);
    AppliedInOrder(dag, applied);
    RestoreListOrder(dag.operationOrder, ById(applied), Affected(dag, failedOp));
    RollbackSplitsExactly(dag, failedOp, applied, d);
    TargetBelongs(dag, applied, ti);
    TargetBelongs(dag, applied, tj);
    OperationOrderFacts(dag);
    if ti.group != tj.group && Reaches(GraphOf(dag.groups), ti.group, tj.group) {
      PrerequisitesAppliedFirst(dag, ti.op, ti.group, tj.op, tj.group);
      BeforeIsStrict(dag.operationOrder, tj.op, ti.op);
    }
  }

  lemma TargetBelongs(dag: Dag, applied: seq<Applied>, t: RestoreTarget)
    requires AppliedTruth(dag.groups, applied)
    requires exists a :: a in applied && t == TargetOf(a)
    ensures BelongsTo(dag.groups, t.op, t.group)
  {
    var a :| a in applied && t == TargetOf(a);
    var i :| 0 <= i < |applied| && applied[i] == a;
    assert AppliedOkAt(dag.groups, applied, i);
  }

  // ---------------------------------------------------------------- the order of the claims

  lemma TruthByMembers(groups: seq<Group>, applied: seq<Applied>)
    ensures AppliedTruth(groups, applied) <==>
            && (forall a :: a in applied ==> BelongsTo(groups, a.op, a.group))
            && (forall i, j :: 0 <= i < j < |applied| ==> applied[i].op != applied[j].op)
  {
    if AppliedTruth(groups, applied) {
      forall a | a in applied
        ensures BelongsTo(groups, a.op, a.group)
      {
        var i :| 0 <= i < |applied| && applied[i] == a;
        assert AppliedOkAt(groups, applied, i);
      }
      forall i, j | 0 <= i < j < |applied|
        ensures applied[i].op != applied[j].op
      {
        assert AppliedOkAt(groups, applied, j);
      }
    }
  }

  lemma TruthPermutes(dag: Dag, a: seq<Applied>, b: seq<Applied>)
    requires multiset(a) == multiset(b) && AppliedTruth(dag.groups, a)
    ensures AppliedTruth(dag.groups, b)
    ensures forall c :: c in a <==> c in b
  {
    TruthByMembers(dag.groups, a);
    TruthByMembers(dag.groups, b);
    MultisetToSet(a, b);
    forall c
      ensures c in a <==> c in b
    {
      assert c in ToSet(a) <==> c in ToSet(b);
    }
    OpsDiffer(a, b);
  }

  lemma OpsDiffer(a: seq<Applied>, b: seq<Applied>)
    requires multiset(a) == multiset(b) && forall i, j :: 0 <= i < j < |a| ==> a[i].op != a[j].op
    ensures forall i, j :: 0 <= i < j < |b| ==> b[i].op != b[j].op
  {
    assert Distinct(a);
    PermutationDistinct(a, b);
    MultisetToSet(a, b);
    forall i, j | 0 <= i < j < |b|
      ensures b[i].op != b[j].op
    {
      assert b[i] in ToSet(a) && b[j] in ToSet(a);
      var p :| 0 <= p < |a| && a[p] == b[i];
      var q :| 0 <= q < |a| && a[q] == b[j];
      assert p != q;
    }
  }

  lemma SameClaimsById(dag: Dag, a: seq<Applied>, b: seq<Applied>)
    requires AppliedTruth(dag.groups, a) && AppliedTruth(dag.groups, b) && forall c :: c in a <==> c in b
    ensures ById(a) == ById(b)
  {
    ByIdExact(dag.groups, a);
    ByIdExact(dag.groups, b);
    ByIdContents(a);
    ByIdContents(b);
    assert ById(a).Keys == ById(b).Keys;
  }

  /** Shuffling the claims changes neither whether they are accepted nor the decision. */
  lemma ClaimOrderIsIrrelevant(dag: Dag, failedOp: Id, a: seq<Applied>, b: seq<Applied>,
                               x: RollbackDecision, y: RollbackDecision)
    requires ValidDag(dag) && multiset(a) == multiset(b) && AppliedTruth(dag.groups, a)
    ensures AppliedTruth(dag.groups, b)
    ensures IsRollback(dag, failedOp, a, x) && IsRollback(dag, failedOp, b, y) ==> x == y
  {
    TruthPermutes(dag, a, b);
    SameClaimsById(dag, a, b);
    if IsRollback(dag, failedOp, a, x) && IsRollback(dag, failedOp, b, y) {
      DecisionParts(dag, failedOp, a, x);
      DecisionParts(dag, failedOp, b, y);
    }
  }

  // ---------------------------------------------------------------- running the restores

  /** Runs the restores one by one against the current states; a state that drifted stops the run. */
  function RunRestores(targets: seq<RestoreTarget>, states: map<Id, State>): (map<Id, State>, Option<Id>) {
    if targets == [] then (states, None)
    else
      var t := targets[0];
      if t.op in states && states[t.op] == t.expected then RunRestores(targets[1..], states[t.op := t.restore])
      else (states, Some(t.op))
  }

  lemma {:induction false} RunDistinctTargets(targets: seq<RestoreTarget>, states: map<Id, State>)
    requires forall i, j :: 0 <= i < j < |targets| ==> targets[i].op != targets[j].op
    requires forall t :: t in targets ==> t.op in states && states[t.op] == t.expected
    ensures RunRestores(targets, states).1 == None
    ensures RunRestores(targets, states).0.Keys == states.Keys
    ensures forall t :: t in targets ==> RunRestores(targets, states).0[t.op] == t.restore
    ensures forall op :: op in states && (forall t :: t in targets ==> t.op != op) ==>
              RunRestores(targets, states).0[op] == states[op]
  {
    if targets != [] {
      var head, rest := targets[0], targets[1..];
      assert targets == [head] + rest;
      forall t | t in rest
        ensures t.op != head.op
      {
        var i :| 0 <= i < |rest| && rest[i] == t;
        assert targets[i + 1] == t;
      }
      RunDistinctTargets(rest, states[head.op := head.restore]);
    }
  }

  /**
   When every applied operation holds its exact applied state, running the decision returns each
   restored operation to its exact restore state and changes nothing else.
   */
  lemma RollbackRestoresExactly(dag: Dag, failedOp: Id, applied: seq<Applied>, d: RollbackDecision,
                                states: map<Id, State>)
    requires ValidDag(dag) && AppliedTruth(dag.groups, applied) && IsRollback(dag, failedOp, applied, d)
    requires forall a :: a in applied ==> a.op in states && states[a.op] == a.appliedState
    ensures RunRestores(d.restoreInOrder, states).1 == None
    ensures RunRestores(d.restoreInOrder, states).0.Keys == states.Keys
    ensures forall a :: a in applied ==> RunRestores(d.restoreInOrder, states).0[a.op]
                                         == if a.group in Affected(dag, failedOp) then a.restoreState else a.appliedState
    ensures forall op :: op in states && op !in RestoredOps(d) ==> RunRestores(d.restoreInOrder, states).0[op] == states[op]
  {
    RollbackSplitsExactly(dag, failedOp, applied, d);
    RollbackConserves(dag, failedOp, applied, d);
    RunDistinctTargets(d.restoreInOrder, states);
    forall a | a in applied
      ensures RunRestores(d.restoreInOrder, states).0[a.op]
              == if a.group in Affected(dag, failedOp) then a.restoreState else a.appliedState
    {
      if a.group in Affected(dag, failedOp) {
        assert TargetOf(a) in d.restoreInOrder;
      } else {
        assert a.op !in RestoredOps(d);
      }
    }
  }

  /** A restore failure can be reported exactly of an operation that was to be restored, and blocks what follows. */
  lemma RestoreFailureExactlyWhen(d: RollbackDecision, op: Id)
    ensures var reported := WithRestoreFailure(d, op);
            && (reported.Ok? <==> op in RestoredOps(d))
            && (reported.Ok? ==>
                  && reported.value.verdict == GuidedRecoveryRequired && reported.value.restoreFailure == Some(op)
                  && reported.value.restoreInOrder == d.restoreInOrder && reported.value.preserve == d.preserve
                  && reported.value.affectedGroups == d.affectedGroups && reported.value.failedOp == d.failedOp)
            && (reported.Err? ==> reported.error == PlanError(RecoveryBlocked, op))
  {
    if op in RestoredOps(d) {
      var t :| t in d.restoreInOrder && t.op == op;
    }
  }

  lemma {:induction false} KeepInOrder(order: seq<Id>, wanted: set<Id>)
    ensures forall id :: id in Keep(order, wanted) <==> id in order && id in wanted
    ensures forall i, j :: 0 <= i < j < |Keep(order, wanted)| ==> Before(order, Keep(order, wanted)[i], Keep(order, wanted)[j])
  {
    if order != [] {
      var front, last := order[..|order| - 1], order[|order| - 1];
      var kept, all := Keep(front, wanted), Keep(order, wanted);
      assert order == front + [last];
      KeepInOrder(front, wanted);
      assert all == if last in wanted then kept + [last] else kept;
      forall i, j | 0 <= i < j < |all|
        ensures Before(order, all[i], all[j])
      {
        assert all[i] == kept[i] && kept[i] in kept;
        assert j < |kept| ==> all[j] == kept[j];
        BeforeInConcat(front, [last], all[i], all[j]);
      }
    }
  }

  /** A decision lists the groups it affects in apply order, names the operation that failed, and is still open. */
  lemma DecisionNamesWhatItAffects(dag: Dag, failedOp: Id, applied: seq<Applied>, d: RollbackDecision)
    requires ValidDag(dag) && IsRollback(dag, failedOp, applied, d)
    ensures exists id :: BelongsTo(dag.groups, failedOp, id)
    ensures forall id :: id in d.affectedGroups <==> id in dag.groupOrder && id in Affected(dag, failedOp)
    ensures forall i, j :: 0 <= i < j < |d.affectedGroups| ==> Before(dag.groupOrder, d.affectedGroups[i], d.affectedGroups[j])
    ensures d.failedOp == failedOp && d.verdict == AffectedClosurePending && d.restoreFailure == None
  {
    DecisionParts(dag, failedOp, applied, d);
    KeepInOrder(dag.groupOrder, Affected(dag, failedOp));
  }

  /** A run stops at the first target whose operation is not in its expected state, and has restored those before. */
  lemma {:induction false} RunStopsAtTheFirstDrift(targets: seq<RestoreTarget>, states: map<Id, State>, k: nat)
    requires forall i, j :: 0 <= i < j < |targets| ==> targets[i].op != targets[j].op
    requires k < |targets| && !(targets[k].op in states && states[targets[k].op] == targets[k].expected)
    requires forall i :: 0 <= i < k ==> targets[i].op in states && states[targets[i].op] == targets[i].expected
    ensures RunRestores(targets, states).1 == Some(targets[k].op)
    ensures forall i :: 0 <= i < k ==> targets[i].op in RunRestores(targets, states).0
                                       && RunRestores(targets, states).0[targets[i].op] == targets[i].restore
    ensures forall op :: op in states && (forall i :: 0 <= i < k ==> targets[i].op != op) ==>
              op in RunRestores(targets, states).0 && RunRestores(targets, states).0[op] == states[op]
    decreases |targets|
  {
    if k > 0 {
      var head, rest := targets[0], targets[1..];
      var next := states[head.op := head.restore];
      forall i | 0 <= i < |rest|
        ensures rest[i] == targets[i + 1] && rest[i].op != head.op
      {
      }
      RunStopsAtTheFirstDrift(rest, next, k - 1);
      assert forall i :: 0 < i < k ==> targets[i] == rest[i - 1];
      assert forall i :: 0 <= i < k - 1 ==> rest[i].op != head.op;
    }
  }

  /** A run that stops names an operation the decision can be blocked on. */
  lemma {:induction false} StoppedRunCanBeReported(d: RollbackDecision, k: nat, states: map<Id, State>)
    requires k <= |d.restoreInOrder|
    requires RunRestores(d.restoreInOrder[k..], states).1.Some?
    ensures var op := RunRestores(d.restoreInOrder[k..], states).1.value;
            WithRestoreFailure(d, op) == Ok(d.(verdict := GuidedRecoveryRequired, restoreFailure := Some(op)))
    decreases |d.restoreInOrder| - k
  {
    var t := d.restoreInOrder[k..][0];
    if t.op in states && states[t.op] == t.expected {
      assert d.restoreInOrder[k..][1..] == d.restoreInOrder[k + 1..];
      StoppedRunCanBeReported(d, k + 1, states[t.op := t.restore]);
    } else {
      assert t == d.restoreInOrder[k] && t in d.restoreInOrder;
    }
  }
}
