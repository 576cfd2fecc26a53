/**
 Whether what a rollback preserves depends on what it restores. The closure follows dependencies towards
 prerequisites, so a dependent of a restored group may well be preserved.
 */
module RollbackIndependence {
  import opened Collections
  import opened DependencyGraph
  import opened DependencyPolicy
  import opened DependencyRollback
  import opened RollbackTheorems

  /** The group of one operation reaches the group of another. */
  ghost predicate DependsOn(dag: Dag, op: Id, other: Id) {
    exists g, h :: BelongsTo(dag.groups, op, g) && BelongsTo(dag.groups, other, h) && Reaches(GraphOf(dag.groups), g, h)
  }

  ghost predicate PreservedIndependent(dag: Dag, d: RollbackDecision) {
    forall p, t :: p in d.preserve && t in d.restoreInOrder ==> !DependsOn(dag, p, t.op)
  }

  /** No claimed group outside the closure lists a group of the closure among its direct dependencies. */
  ghost predicate ClaimsKeepAway(dag: Dag, failedOp: Id, applied: seq<Applied>)
    requires exists id :: BelongsTo(dag.groups, failedOp, id)
  {
    forall a :: a in applied && a.group !in Affected(dag, failedOp) ==>
      DependenciesOf(dag.groups, a.group) !! Affected(dag, failedOp)
  }

  /** No claimed group outside the closure reaches a claimed group inside it. */
  ghost predicate ClaimsApart(dag: Dag, failedOp: Id, applied: seq<Applied>)
    requires exists id :: BelongsTo(dag.groups, failedOp, id)
  {
    forall a, c :: a in applied && c in applied && a.group !in Affected(dag, failedOp) && c.group in Affected(dag, failedOp) ==>
      !Reaches(GraphOf(dag.groups), a.group, c.group)
  }

  /** No preserved operation's group lists an affected group among its direct dependencies. */
  ghost predicate NoneTouchesAffected(dag: Dag, d: RollbackDecision) {
    forall p, g :: p in d.preserve && BelongsTo(dag.groups, p, g) ==>
      DependenciesOf(dag.groups, g) !! ToSet(d.affectedGroups)
  }

  /** Whenever an operation is claimed, so is some operation of every group its group depends on. */
  ghost predicate ClaimsClosed(groups: seq<Group>, applied: seq<Applied>) {
    forall a, id :: a in applied && id in DependenciesOf(groups, a.group) ==> HasClaimOf(applied, id)
  }

  ghost predicate HasClaimOf(applied: seq<Applied>, id: Id) {
    exists c :: c in applied && c.group == id
  }

  /** What is claimed is what was applied first. */
  ghost predicate ClaimsPrefix(dag: Dag, applied: seq<Applied>, k: nat) {
    k <= |dag.operationOrder| && forall op :: op in dag.operationOrder[..k] <==> op in ById(applied)
  }

  // ---------------------------------------------------------------- claims in apply order are closed

  lemma ClaimBelongs(groups: seq<Group>, applied: seq<Applied>, a: Applied)
    requires AppliedTruth(groups, applied) && a in applied
    ensures BelongsTo(groups, a.op, a.group)
  {
    TruthByMembers(groups, applied);
  }

  lemma DependencyHasAnOperation(dag: Dag, g: Id, id: Id) returns (op: Id)
    requires ValidDag(dag) && id in DependenciesOf(dag.groups, g)
    ensures BelongsTo(dag.groups, op, id) && g != id && g in GraphOf(dag.groups) && id in GraphOf(dag.groups)[g]
  {
    EdgesByMembers(dag.groups);
    PopulatedByMembers(dag.groups);
    var gr :| gr in dag.groups && gr.id == g && id in gr.deps;
    assert GoodEdge(GroupIds(dag.groups), gr, id);
    var dep :| dep in dag.groups && dep.id == id;
    op := dep.ops[0];
    assert op in dep.ops;
  }

  lemma PrefixHolds(order: seq<Id>, k: nat, op: Id, later: Id)
    requires Distinct(order) && k <= |order| && later in order[..k] && Before(order, op, later)
    ensures op in order[..k]
  {
    var p, q :| 0 <= p < q < |order| && order[p] == op && order[q] == later;
    var i :| 0 <= i < k && order[..k][i] == later;
    assert order[i] == later && i == q;
    assert order[..k][p] == op;
  }

  /** Claims of what was applied first are closed under dependencies. */
  lemma PrefixClaimsAreClosed(dag: Dag, applied: seq<Applied>, k: nat)
    requires ValidDag(dag) && AppliedTruth(dag.groups, applied) && ClaimsPrefix(dag, applied, k)
    ensures ClaimsClosed(dag.groups, applied)
  {
    OperationOrderFacts(dag);
    ByIdContents(applied);
    forall a, id | a in applied && id in DependenciesOf(dag.groups, a.group)
      ensures HasClaimOf(applied, id)
    {
      ClaimBelongs(dag.groups, applied, a);
      var op := DependencyHasAnOperation(dag, a.group, id);
      var g := GraphOf(dag.groups);
      ReachesSelf(g, a.group);
      ReachesStep(g, a.group, a.group, id);
      PrerequisitesAppliedFirst(dag, a.op, a.group, op, id);
      PrefixHolds(dag.operationOrder, k, op, a.op);
      var c := ById(applied)[op];
      ClaimBelongs(dag.groups, applied, c);
      OwnerIsUnique(dag.groups, op, c.group, id);
    }
  }

  // ---------------------------------------------------------------- the theorem

  lemma {:induction false} KeepMembers(order: seq<Id>, wanted: set<Id>)
    ensures ToSet(Keep(order, wanted)) == ToSet(order) * wanted
  {
    if order != [] {
      var front, last := order[..|order| - 1], order[|order| - 1];
      KeepMembers(front, wanted);
      assert order == front + [last];
      ToSetSnoc(front, last);
      ToSetSnoc(Keep(front, wanted), last);
      assert Keep(order, wanted) == if last in wanted then Keep(front, wanted) + [last] else Keep(front, wanted);
    }
  }

  lemma AffectedGroupsAre(dag: Dag, failedOp: Id, applied: seq<Applied>, d: RollbackDecision)
    requires ValidDag(dag) && IsRollback(dag, failedOp, applied, d)
    ensures exists id :: BelongsTo(dag.groups, failedOp, id)
    ensures ToSet(d.affectedGroups) == Affected(dag, failedOp)
  {
    DecisionParts(dag, failedOp, applied, d);
    KeepMembers(dag.groupOrder, Affected(dag, failedOp));
    GroupsInGraph(dag.groups);
  }

  ghost function ClaimedGroups(applied: seq<Applied>): set<Id> {
    set a | a in applied :: a.group
  }

  /** The decision touches an affected group exactly where the claims do. */
  lemma TouchingIsReadOffTheClaims(dag: Dag, failedOp: Id, applied: seq<Applied>, d: RollbackDecision)
    requires ValidDag(dag) && AppliedTruth(dag.groups, applied) && IsRollback(dag, failedOp, applied, d)
    ensures NoneTouchesAffected(dag, d) <==> ClaimsKeepAway(dag, failedOp, applied)
  {
    AffectedGroupsAre(dag, failedOp, applied, d);
    RollbackSplitsExactly(dag, failedOp, applied, d);
    if NoneTouchesAffected(dag, d) {
      forall a | a in applied && a.group !in Affected(dag, failedOp)
        ensures DependenciesOf(dag.groups, a.group) !! Affected(dag, failedOp)
      {
        ClaimBelongs(dag.groups, applied, a);
        assert a.op in d.preserve;
      }
    }
    if ClaimsKeepAway(dag, failedOp, applied) {
      forall p, g | p in d.preserve && BelongsTo(dag.groups, p, g)
        ensures DependenciesOf(dag.groups, g) !! ToSet(d.affectedGroups)
      {
        var a :| a in applied && a.op == p;
        ClaimBelongs(dag.groups, applied, a);
        OwnerIsUnique(dag.groups, p, a.group, g);
      }
    }
  }

  lemma ApartIsReadOffTheClaims(dag: Dag, failedOp: Id, applied: seq<Applied>, d: RollbackDecision)
    requires ValidDag(dag) && AppliedTruth(dag.groups, applied) && IsRollback(dag, failedOp, applied, d)
    ensures PreservedIndependent(dag, d) <==> ClaimsApart(dag, failedOp, applied)
  {
    RollbackSplitsExactly(dag, failedOp, applied, d);
    if PreservedIndependent(dag, d) {
      forall a, c | a in applied && c in applied && a.group !in Affected(dag, failedOp) && c.group in Affected(dag, failedOp)
        ensures !Reaches(GraphOf(dag.groups), a.group, c.group)
      {
        ClaimBelongs(dag.groups, applied, a);
        ClaimBelongs(dag.groups, applied, c);
        assert a.op in d.preserve && TargetOf(c) in d.restoreInOrder;
        assert !DependsOn(dag, a.op, TargetOf(c).op);
      }
    }
    if ClaimsApart(dag, failedOp, applied) {
      forall p, t | p in d.preserve && t in d.restoreInOrder
        ensures !DependsOn(dag, p, t.op)
      {
        var a :| a in applied && a.op == p;
        var c :| c in applied && t == TargetOf(c);
        ClaimBelongs(dag.groups, applied, a);
        ClaimBelongs(dag.groups, applied, c);
        forall g, h | BelongsTo(dag.groups, p, g) && BelongsTo(dag.groups, t.op, h)
          ensures !Reaches(GraphOf(dag.groups), g, h)
        {
          OwnerIsUnique(dag.groups, p, g, a.group);
          OwnerIsUnique(dag.groups, t.op, h, c.group);
        }
      }
    }
  }

  /**
   For all accepted claims, no preserved operation depends on a restored one exactly when no claimed group
   outside the failed group's closure reaches a claimed group inside it. For claims closed under dependencies
   it is enough to look at direct dependencies.
   */
  lemma PreservedIndependentExactlyWhen(dag: Dag, failedOp: Id, applied: seq<Applied>, d: RollbackDecision)
    requires ValidDag(dag) && AppliedTruth(dag.groups, applied) && IsRollback(dag, failedOp, applied, d)
    ensures PreservedIndependent(dag, d) <==> ClaimsApart(dag, failedOp, applied)
    ensures ClaimsClosed(dag.groups, applied) ==>
              (PreservedIndependent(dag, d) <==> ClaimsKeepAway(dag, failedOp, applied))
  {
    ApartIsReadOffTheClaims(dag, failedOp, applied, d);
    if ClaimsClosed(dag.groups, applied) {
      TouchingIsReadOffTheClaims(dag, failedOp, applied, d);
      if NoneTouchesAffected(dag, d) {
        UntouchedIsIndependent(dag, failedOp, applied, d);
      }
      if PreservedIndependent(dag, d) {
        IndependentIsUntouched(dag, failedOp, applied, d);
      }
    }
  }

  lemma IndependentIsUntouched(dag: Dag, failedOp: Id, applied: seq<Applied>, d: RollbackDecision)
    requires ValidDag(dag) && AppliedTruth(dag.groups, applied) && IsRollback(dag, failedOp, applied, d)
    requires ClaimsClosed(dag.groups, applied) && PreservedIndependent(dag, d)
    ensures NoneTouchesAffected(dag, d)
  {
    var graph := GraphOf(dag.groups);
    AffectedGroupsAre(dag, failedOp, applied, d);
    RollbackSplitsExactly(dag, failedOp, applied, d);
    forall p, g, id | p in d.preserve && BelongsTo(dag.groups, p, g) && id in DependenciesOf(dag.groups, g)
      ensures id !in Affected(dag, failedOp)
    {
      var a :| a in applied && a.op == p;
      ClaimBelongs(dag.groups, applied, a);
      OwnerIsUnique(dag.groups, p, a.group, g);
      assert HasClaimOf(applied, id);
      var c :| c in applied && c.group == id;
      if id in Affected(dag, failedOp) {
        ClaimBelongs(dag.groups, applied, c);
        assert TargetOf(c) in d.restoreInOrder;
        var op := DependencyHasAnOperation(dag, g, id);
        ReachesSelf(graph, g);
        ReachesStep(graph, g, g, id);
        assert DependsOn(dag, p, TargetOf(c).op);
      }
    }
  }

  lemma UntouchedIsIndependent(dag: Dag, failedOp: Id, applied: seq<Applied>, d: RollbackDecision)
    requires ValidDag(dag) && AppliedTruth(dag.groups, applied) && IsRollback(dag, failedOp, applied, d)
    requires ClaimsClosed(dag.groups, applied) && NoneTouchesAffected(dag, d)
    ensures PreservedIndependent(dag, d)
  {
    var graph, affected := GraphOf(dag.groups), Affected(dag, failedOp);
    AffectedGroupsAre(dag, failedOp, applied, d);
    RollbackSplitsExactly(dag, failedOp, applied, d);
    GroupsInGraph(dag.groups);
    var safe := ClaimedGroups(applied) - affected;
    forall g | g in safe
      ensures g in graph && graph[g] <= safe
    {
      SafeGroupStaysSafe(dag, failedOp, applied, d, g);
    }
    forall p, t | p in d.preserve && t in d.restoreInOrder
      ensures !DependsOn(dag, p, t.op)
    {
      var a :| a in applied && a.op == p;
      var c :| c in applied && t == TargetOf(c);
      ClaimBelongs(dag.groups, applied, a);
      ClaimBelongs(dag.groups, applied, c);
      NoWalkOut(dag, safe, a, c, affected);
    }
  }

  lemma SafeGroupStaysSafe(dag: Dag, failedOp: Id, applied: seq<Applied>, d: RollbackDecision, g: Id)
    requires ValidDag(dag) && AppliedTruth(dag.groups, applied) && IsRollback(dag, failedOp, applied, d)
    requires ClaimsClosed(dag.groups, applied) && NoneTouchesAffected(dag, d)
    requires exists f :: BelongsTo(dag.groups, failedOp, f)
    requires g in ClaimedGroups(applied) - Affected(dag, failedOp)
    ensures g in GraphOf(dag.groups)
    ensures GraphOf(dag.groups)[g] <= ClaimedGroups(applied) - Affected(dag, failedOp)
  {
    AffectedGroupsAre(dag, failedOp, applied, d);
    RollbackSplitsExactly(dag, failedOp, applied, d);
    GroupsInGraph(dag.groups);
    var a :| a in applied && a.group == g;
    ClaimBelongs(dag.groups, applied, a);
    assert a.op in d.preserve;
    forall id | id in DependenciesOf(dag.groups, g)
      ensures id in ClaimedGroups(applied) - Affected(dag, failedOp)
    {
      assert HasClaimOf(applied, id);
    }
  }

  lemma NoWalkOut(dag: Dag, safe: set<Id>, a: Applied, c: Applied, affected: set<Id>)
    requires ValidDag(dag) && BelongsTo(dag.groups, a.op, a.group) && BelongsTo(dag.groups, c.op, c.group)
    requires a.group in safe && c.group in affected && safe !! affected
    requires forall g :: g in safe ==> g in GraphOf(dag.groups) && GraphOf(dag.groups)[g] <= safe
    ensures !DependsOn(dag, a.op, c.op)
  {
    if DependsOn(dag, a.op, c.op) {
      var g, h :| BelongsTo(dag.groups, a.op, g) && BelongsTo(dag.groups, c.op, h) && Reaches(GraphOf(dag.groups), g, h);
      OwnerIsUnique(dag.groups, a.op, g, a.group);
      OwnerIsUnique(dag.groups, c.op, h, c.group);
      var w :| IsWalk(GraphOf(dag.groups), g, h, w);
      WalkStaysInside(GraphOf(dag.groups), safe, w, |w| - 1);
    }
  }

  // ---------------------------------------------------------------- two inputs

  const Base: Group := Group(Id(1), [], [Id(11)])
  const Tuning: Group := Group(Id(2), [Id(1)], [Id(12)])
  const Overlay: Group := Group(Id(3), [Id(1)], [Id(13)])

  /** A base group and two groups that depend on it. */
  const Fork: Dag := Dag([Base, Tuning, Overlay], [Id(1), Id(2), Id(3)], [Id(11), Id(12), Id(13)])

  const BaseClaim: Applied := Applied(Id(11), Id(1), State("base on"), State("base off"))
  const TuningClaim: Applied := Applied(Id(12), Id(2), State("tuning on"), State("tuning off"))

  lemma ForkMembers()
    ensures forall gr :: gr in Fork.groups <==> gr == Base || gr == Tuning || gr == Overlay
    ensures forall op, id :: BelongsTo(Fork.groups, op, id) <==>
              (op, id) == (Id(11), Id(1)) || (op, id) == (Id(12), Id(2)) || (op, id) == (Id(13), Id(3))
    ensures GraphOf(Fork.groups) == map[Id(1) := {}, Id(2) := {Id(1)}, Id(3) := {Id(1)}]
  {
    var groups := Fork.groups;
    assert groups[0] in groups && groups[1] in groups && groups[2] in groups;
    assert Base.ops[0] in Base.ops && Tuning.ops[0] in Tuning.ops && Overlay.ops[0] in Overlay.ops;
    assert Tuning.deps[0] in Tuning.deps && Overlay.deps[0] in Overlay.deps;
    assert BelongsTo(groups, Id(11), Id(1)) by { assert Base in groups; }
    assert BelongsTo(groups, Id(12), Id(2)) by { assert Tuning in groups; }
    assert BelongsTo(groups, Id(13), Id(3)) by { assert Overlay in groups; }
    assert GroupIds(groups) == {Id(1), Id(2), Id(3)};
    assert DependenciesOf(groups, Id(1)) == {};
    assert DependenciesOf(groups, Id(2)) == {Id(1)};
    assert DependenciesOf(groups, Id(3)) == {Id(1)};
  }

  lemma ForkUnique()
    ensures Unique(Fork.groups)
  {
    assert Base.ops[0] == Id(11) && Tuning.ops[0] == Id(12) && Overlay.ops[0] == Id(13);
    assert PairUnique(Fork.groups);
    UniqueByPairs(Fork.groups);
  }

  lemma FlattenFirst(groups: seq<Group>, id: Id, rest: seq<Id>)
    ensures Flatten(groups, [id] + rest) == OpsOf(groups, id) + Flatten(groups, rest)
  {
    assert ([id] + rest)[1..] == rest;
  }

  lemma ForkFlattens()
    ensures Flatten(Fork.groups, Fork.groupOrder) == Fork.operationOrder
  {
    var groups := Fork.groups;
    ForkUnique();
    OpsOfIndex(groups, 0);
    OpsOfIndex(groups, 1);
    OpsOfIndex(groups, 2);
    FlattenFirst(groups, Id(3), []);
    FlattenFirst(groups, Id(2), [Id(3)]);
    FlattenFirst(groups, Id(1), [Id(2), Id(3)]);
    assert [Id(3)] + [] == [Id(3)] && [Id(2)] + [Id(3)] == [Id(2), Id(3)];
    assert Fork.groupOrder == [Id(1)] + [Id(2), Id(3)];
  }

  lemma ForkOrder()
    ensures IsTopological(GraphOf(Fork.groups), Fork.groupOrder)
  {
    ForkMembers();
    var order := Fork.groupOrder;
    assert order[..1] == [Id(1)] && order[..2] == [Id(1), Id(2)];
    assert Id(1) in order[..1] && Id(1) in order[..2];
    assert order[0] in order && order[1] in order && order[2] in order;
  }

  lemma ForkIsValid()
    ensures ValidDag(Fork)
  {
    ForkMembers();
    ForkUnique();
    ForkOrder();
    ForkFlattens();
    EdgesByMembers(Fork.groups);
    assert GroupIds(Fork.groups) == GraphOf(Fork.groups).Keys;
  }

  /** When the overlay fails, its group and the base are affected; when the base fails, it alone. */
  lemma ForkClosures()
    ensures Closure(GraphOf(Fork.groups), Id(3)) == {Id(1), Id(3)}
    ensures Closure(GraphOf(Fork.groups), Id(1)) == {Id(1)}
    ensures Reaches(GraphOf(Fork.groups), Id(2), Id(1))
  {
    ForkMembers();
    var g := GraphOf(Fork.groups);
    ReachesSelf(g, Id(1));
    ReachesSelf(g, Id(2));
    ReachesSelf(g, Id(3));
    ReachesStep(g, Id(2), Id(2), Id(1));
    ReachesStep(g, Id(3), Id(3), Id(1));
    StaysWithin(g, Id(3), {Id(1), Id(3)});
    StaysWithin(g, Id(1), {Id(1)});
  }

  lemma StaysWithin(g: Graph, a: Id, inside: set<Id>)
    requires a in inside && forall x :: x in inside && x in g ==> g[x] <= inside
    ensures forall b :: Reaches(g, a, b) ==> b in inside
  {
    forall b | Reaches(g, a, b)
      ensures b in inside
    {
      var w :| IsWalk(g, a, b, w);
      WalkStaysInside(g, inside, w, |w| - 1);
    }
  }

  lemma RestoreThree(x: Id, y: Id, z: Id, applied: map<Id, Applied>, affected: set<Id>)
    ensures RestoreList([x, y, z], applied, affected) ==
            Restored(applied, affected, z) + (Restored(applied, affected, y) + Restored(applied, affected, x))
  {
    assert [x, y, z][..2] == [x, y] && [x, y][..1] == [x] && [x][..0] == [];
    assert RestoreList([x], applied, affected) == Restored(applied, affected, x) + [];
    assert RestoreList([x, y], applied, affected) == Restored(applied, affected, y) + RestoreList([x], applied, affected);
  }

  lemma PreserveThree(x: Id, y: Id, z: Id, applied: map<Id, Applied>, affected: set<Id>)
    ensures PreserveList([x, y, z], applied, affected) ==
            (Preserved(applied, affected, x) + Preserved(applied, affected, y)) + Preserved(applied, affected, z)
  {
    assert [x, y, z][..2] == [x, y] && [x, y][..1] == [x] && [x][..0] == [];
    assert PreserveList([x], applied, affected) == [] + Preserved(applied, affected, x);
    assert PreserveList([x, y], applied, affected) == PreserveList([x], applied, affected) + Preserved(applied, affected, y);
  }

  lemma KeepThree(x: Id, y: Id, z: Id, wanted: set<Id>)
    ensures Keep([x, y, z], wanted) == (Kept(x, wanted) + Kept(y, wanted)) + Kept(z, wanted)
  {
    assert [x, y, z][..2] == [x, y] && [x, y][..1] == [x] && [x][..0] == [];
    assert Keep([x], wanted) == [] + Kept(x, wanted);
    assert Keep([x, y], wanted) == Keep([x], wanted) + Kept(y, wanted);
  }

  function Kept(id: Id, wanted: set<Id>): seq<Id> {
    if id in wanted then [id] else []
  }

  function Restored(applied: map<Id, Applied>, affected: set<Id>, op: Id): seq<RestoreTarget> {
    if op in applied && applied[op].group in affected then [TargetOf(applied[op])] else []
  }

  function Preserved(applied: map<Id, Applied>, affected: set<Id>, op: Id): seq<Id> {
    if op in applied && applied[op].group !in affected then [op] else []
  }

  lemma BothClaimed()
    ensures ById([BaseClaim, TuningClaim]) == map[Id(11) := BaseClaim, Id(12) := TuningClaim]
    ensures ById([TuningClaim]) == map[Id(12) := TuningClaim]
    ensures AppliedTruth(Fork.groups, [BaseClaim, TuningClaim]) && AppliedTruth(Fork.groups, [TuningClaim])
  {
    ForkMembers();
    TruthByMembers(Fork.groups, [BaseClaim, TuningClaim]);
    TruthByMembers(Fork.groups, [TuningClaim]);
    assert [BaseClaim, TuningClaim][..1] == [BaseClaim];
    assert [BaseClaim][..0] == [] && [TuningClaim][..0] == [];
    assert ById([BaseClaim]) == map[Id(11) := BaseClaim];
  }

  /** What the overlay's failure leads to once base and tuning are applied. */
  const OverlayDecision: RollbackDecision :=
    RollbackDecision(Id(13), [Id(1), Id(3)], [TargetOf(BaseClaim)], [Id(12)], AffectedClosurePending, None)

  lemma OverlayFails()
    ensures IsRollback(Fork, Id(13), [BaseClaim, TuningClaim], OverlayDecision)
  {
    ForkMembers();
    ForkClosures();
    BothClaimed();
    var byId, affected := ById([BaseClaim, TuningClaim]), {Id(1), Id(3)};
    RestoreThree(Id(11), Id(12), Id(13), byId, affected);
    PreserveThree(Id(11), Id(12), Id(13), byId, affected);
    KeepThree(Id(1), Id(2), Id(3), affected);
    assert BelongsTo(Fork.groups, Id(13), Id(3));
  }

  /** Base and tuning are applied when the overlay fails: the base is restored under the preserved tuning. */
  lemma PreservedMayDependOnRestored()
    ensures ValidDag(Fork) && AppliedTruth(Fork.groups, [BaseClaim, TuningClaim])
    ensures ClaimsPrefix(Fork, [BaseClaim, TuningClaim], 2)
    ensures IsRollback(Fork, Id(13), [BaseClaim, TuningClaim], OverlayDecision)
    ensures !PreservedIndependent(Fork, OverlayDecision)
  {
    ForkIsValid();
    BothClaimed();
    OverlayFails();
    assert Fork.operationOrder[..2] == [Id(11), Id(12)];
    ForkMembers();
    ForkClosures();
    assert OverlayDecision.preserve[0] == Id(12) && OverlayDecision.restoreInOrder[0].op == Id(11);
    assert DependsOn(Fork, Id(12), Id(11)) by {
      assert BelongsTo(Fork.groups, Id(12), Id(2)) && BelongsTo(Fork.groups, Id(11), Id(1));
    }
  }

  /** What the base's failure leads to when only the tuning is claimed. */
  const BaseDecision: RollbackDecision :=
    RollbackDecision(Id(11), [Id(1)], [], [Id(12)], AffectedClosurePending, None)

  lemma BaseFails()
    ensures IsRollback(Fork, Id(11), [TuningClaim], BaseDecision)
  {
    ForkMembers();
    ForkClosures();
    BothClaimed();
    var byId, affected := ById([TuningClaim]), {Id(1)};
    RestoreThree(Id(11), Id(12), Id(13), byId, affected);
    PreserveThree(Id(11), Id(12), Id(13), byId, affected);
    KeepThree(Id(1), Id(2), Id(3), affected);
    assert BelongsTo(Fork.groups, Id(11), Id(1));
  }

  lemma OpenClaimsTouch()
    ensures !ClaimsClosed(Fork.groups, [TuningClaim])
    ensures PreservedIndependent(Fork, BaseDecision) && !NoneTouchesAffected(Fork, BaseDecision)
  {
    ForkMembers();
    assert GraphOf(Fork.groups)[Id(2)] == DependenciesOf(Fork.groups, Id(2));
    assert TuningClaim in [TuningClaim] && Id(1) in DependenciesOf(Fork.groups, TuningClaim.group);
    assert !HasClaimOf([TuningClaim], Id(1));
    assert BaseDecision.preserve[0] == Id(12) && BaseDecision.affectedGroups[0] in ToSet(BaseDecision.affectedGroups);
    assert BelongsTo(Fork.groups, Id(12), Id(2));
  }

  /**
   Claims that leave out a prerequisite: the base fails, and only the tuning that depends on it is claimed.
   Nothing is restored, so nothing preserved depends on a restored operation, although the claimed group
   depends directly on an affected one.
   */
  lemma OpenClaimsBreakTheEquivalence()
    ensures ValidDag(Fork) && AppliedTruth(Fork.groups, [TuningClaim]) && !ClaimsClosed(Fork.groups, [TuningClaim])
    ensures IsRollback(Fork, Id(11), [TuningClaim], BaseDecision)
    ensures PreservedIndependent(Fork, BaseDecision) && !ClaimsKeepAway(Fork, Id(11), [TuningClaim])
  {
    ForkIsValid();
    BothClaimed();
    BaseFails();
    OpenClaimsTouch();
    TouchingIsReadOffTheClaims(Fork, Id(11), [TuningClaim], BaseDecision);
  }
}
