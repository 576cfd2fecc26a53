/**
 The deterministic planner of `dependency.rs`: normalise the groups, reject malformed graphs, and
 order the groups by Kahn's algorithm, always taking the smallest group that is available.
 */
module DependencyPolicy {
  import opened Collections
  import opened DependencyGraph

  datatype Group = Group(id: Id, deps: seq<Id>, ops: seq<Id>)

  datatype Dag = Dag(groups: seq<Group>, groupOrder: seq<Id>, operationOrder: seq<Id>)

  datatype GraphError =
    | Empty
    | DuplicateGroup
    | DuplicateOperation
    | MissingDependency
    | SelfDependency
    | Cycle

  // ---------------------------------------------------------------- reading groups as a graph

  function GroupIds(groups: seq<Group>): set<Id> {
    set gr | gr in groups :: gr.id
  }

  function Operations(groups: seq<Group>): set<Id> {
    set gr, op | gr in groups && op in gr.ops :: op
  }

  function DependenciesOf(groups: seq<Group>, id: Id): set<Id> {
    set gr, d | gr in groups && gr.id == id && d in gr.deps :: d
  }

  function GraphOf(groups: seq<Group>): Graph {
    map id | id in GroupIds(groups) :: DependenciesOf(groups, id)
  }

  /** Group `i` repeats nothing of its own and nothing of an earlier group. */
  ghost predicate CleanAt(groups: seq<Group>, i: nat)
    requires i < |groups|
  {
    && groups[i].id !in GroupIds(groups[..i])
    && Distinct(groups[i].deps)
    && Distinct(groups[i].ops)
    && ToSet(groups[i].ops) !! Operations(groups[..i])
  }

  /** Identifiers, dependency lists and operations are all free of repetitions. */
  ghost predicate Unique(groups: seq<Group>) {
    forall i :: 0 <= i < |groups| ==> CleanAt(groups, i)
  }

  ghost predicate Populated(groups: seq<Group>) {
    groups != [] && forall i :: 0 <= i < |groups| ==> groups[i].ops != []
  }

  ghost predicate EdgeOk(groups: seq<Group>, i: nat, k: nat)
    requires i < |groups| && k < |groups[i].deps|
  {
    groups[i].deps[k] != groups[i].id && groups[i].deps[k] in GroupIds(groups)
  }

  ghost predicate EdgesOk(groups: seq<Group>) {
    forall i, k :: 0 <= i < |groups| && 0 <= k < |groups[i].deps| ==> EdgeOk(groups, i, k)
  }

  /** What an input must satisfy to be accepted. */
  ghost predicate Admissible(groups: seq<Group>) {
    && Populated(groups)
    && Unique(groups)
    && EdgesOk(groups)
    && Acyclic(GraphOf(groups))
  }

  // ---------------------------------------------------------------- normal form

  predicate GroupLeq(a: Group, b: Group) { IdLeq(a.id, b.id) }

  function SortMembers(gr: Group): Group {
    gr.(deps := Sort(IdLeq, gr.deps), ops := Sort(IdLeq, gr.ops))
  }

  function SortEach(groups: seq<Group>): (r: seq<Group>)
    ensures |r| == |groups|
  {
    if groups == [] then []
    else SortEach(groups[..|groups| - 1]) + [SortMembers(groups[|groups| - 1])]
  }

  lemma {:induction false} SortEachAt(groups: seq<Group>, i: nat)
    requires i < |groups|
    ensures SortEach(groups)[i] == SortMembers(groups[i])
  {
    if i < |groups| - 1 {
      SortEachAt(groups[..|groups| - 1], i);
    }
  }

  /** Sorted groups with sorted members: what every accepted graph carries. */
  function Normalise(groups: seq<Group>): seq<Group> {
    Sort(GroupLeq, SortEach(groups))
  }

  /** The operations of the groups, group by group in the given order. */
  function Flatten(groups: seq<Group>, order: seq<Id>): seq<Id> {
    if order == [] then []
    else OpsOf(groups, order[0]) + Flatten(groups, order[1..])
  }

  function OpsOf(groups: seq<Group>, id: Id): seq<Id> {
    if groups == [] then []
    else if groups[0].id == id then groups[0].ops
    else OpsOf(groups[1..], id)
  }

  /** The one graph an admissible input is turned into. */
  ghost predicate Accepts(input: seq<Group>, dag: Dag) {
    && dag.groups == Normalise(input)
    && LeastTopological(GraphOf(input), dag.groupOrder)
    && dag.operationOrder == Flatten(dag.groups, dag.groupOrder)
  }

  /** The first repetition found while scanning the normalised groups decides the error. */
  ghost predicate RepetitionAt(groups: seq<Group>, i: nat, e: GraphError) {
    && i < |groups| && Unique(groups[..i]) && !CleanAt(groups, i)
    && e == if groups[i].id in GroupIds(groups[..i]) || !Distinct(groups[i].deps)
            then DuplicateGroup else DuplicateOperation
  }

  /** Edge `k` is the first bad one of group `i`. */
  ghost predicate FirstBadEdge(groups: seq<Group>, i: nat, k: nat, e: GraphError)
    requires i < |groups|
  {
    && k < |groups[i].deps| && !EdgeOk(groups, i, k)
    && (forall k' :: 0 <= k' < k ==> EdgeOk(groups, i, k'))
    && e == if groups[i].deps[k] == groups[i].id then SelfDependency else MissingDependency
  }

  /** The first bad edge found while scanning the normalised groups decides the error. */
  ghost predicate BadEdgeAt(groups: seq<Group>, i: nat, k: nat, e: GraphError) {
    && i < |groups| && FirstBadEdge(groups, i, k, e)
    && forall i', k' :: 0 <= i' < i && 0 <= k' < |groups[i'].deps| ==> EdgeOk(groups, i', k')
  }

  /** Exactly which error an inadmissible input gets. */
  ghost predicate Rejects(input: seq<Group>, e: GraphError) {
    var groups := Normalise(input);
    if !Populated(input) then e == Empty
    else if !Unique(groups) then exists i: nat :: RepetitionAt(groups, i, e)
    else if !EdgesOk(groups) then exists i: nat, k: nat :: BadEdgeAt(groups, i, k, e)
    else e == Cycle && !Acyclic(GraphOf(input))
  }

  // ---------------------------------------------------------------- the normal form keeps the graph

  lemma SortMembersKeeps(gr: Group)
    ensures SortMembers(gr).id == gr.id
    ensures ToSet(SortMembers(gr).deps) == ToSet(gr.deps) && ToSet(SortMembers(gr).ops) == ToSet(gr.ops)
    ensures Distinct(SortMembers(gr).deps) <==> Distinct(gr.deps)
    ensures Distinct(SortMembers(gr).ops) <==> Distinct(gr.ops)
    ensures SortedBy(IdLeq, SortMembers(gr).deps) && SortedBy(IdLeq, SortMembers(gr).ops)
    ensures SortMembers(gr).ops == [] <==> gr.ops == []
  {
    var sorted := SortMembers(gr);
    SortSorted(IdLeq, gr.deps);
    SortSorted(IdLeq, gr.ops);
    SortPermutes(IdLeq, gr.deps);
    SortPermutes(IdLeq, gr.ops);
    MultisetToSet(sorted.deps, gr.deps);
    MultisetToSet(sorted.ops, gr.ops);
    PermutationDistinct(sorted.deps, gr.deps);
    PermutationDistinct(sorted.ops, gr.ops);
  }

  /** Membership in the normal form. */
  lemma NormaliseMembers(groups: seq<Group>)
    ensures forall gr :: gr in groups ==> SortMembers(gr) in Normalise(groups)
    ensures forall n :: n in Normalise(groups) ==> exists gr :: gr in groups && n == SortMembers(gr)
    ensures |Normalise(groups)| == |groups|
    ensures SortedBy(GroupLeq, Normalise(groups))
  {
    var each := SortEach(groups);
    SortSorted(GroupLeq, each);
    SortPermutes(GroupLeq, each);
    MultisetToSet(Normalise(groups), each);
    forall gr | gr in groups
      ensures SortMembers(gr) in Normalise(groups)
    {
      var i :| 0 <= i < |groups| && groups[i] == gr;
      SortEachAt(groups, i);
      assert each[i] in ToSet(each);
    }
    forall n | n in Normalise(groups)
      ensures exists gr :: gr in groups && n == SortMembers(gr)
    {
      assert n in ToSet(Normalise(groups));
      var i :| 0 <= i < |each| && each[i] == n;
      SortEachAt(groups, i);
      assert groups[i] in groups;
    }
  }

  ghost predicate SameContent(a: Group, b: Group) {
    && a.id == b.id
    && (forall d :: d in a.deps <==> d in b.deps)
    && (forall op :: op in a.ops <==> op in b.ops)
  }

  ghost predicate ContentWithin(a: seq<Group>, b: seq<Group>) {
    forall gr :: gr in a ==> exists other :: other in b && SameContent(gr, other)
  }

  lemma ContentWithinGraph(a: seq<Group>, b: seq<Group>)
    requires ContentWithin(a, b)
    ensures GroupIds(a) <= GroupIds(b)
    ensures Operations(a) <= Operations(b)
    ensures forall id :: DependenciesOf(a, id) <= DependenciesOf(b, id)
  {
    forall op | op in Operations(a)
      ensures op in Operations(b)
    {
      var gr :| gr in a && op in gr.ops;
      var other :| other in b && SameContent(gr, other);
    }
    forall id, d | d in DependenciesOf(a, id)
      ensures d in DependenciesOf(b, id)
    {
      var gr :| gr in a && gr.id == id && d in gr.deps;
      var other :| other in b && SameContent(gr, other);
    }
  }

  lemma SortMembersContent(gr: Group)
    ensures SameContent(gr, SortMembers(gr)) && SameContent(SortMembers(gr), gr)
  {
    var sorted := SortMembers(gr);
    SortMembersKeeps(gr);
    assert forall d :: d in gr.deps <==> d in ToSet(sorted.deps);
    assert forall op :: op in gr.ops <==> op in ToSet(sorted.ops);
  }

  lemma NormaliseContent(groups: seq<Group>)
    ensures ContentWithin(groups, Normalise(groups)) && ContentWithin(Normalise(groups), groups)
  {
    var n := Normalise(groups);
    NormaliseMembers(groups);
    forall gr | gr in groups
      ensures exists other :: other in n && SameContent(gr, other)
    {
      SortMembersContent(gr);
    }
    forall m | m in n
      ensures exists other :: other in groups && SameContent(m, other)
    {
      var gr :| gr in groups && m == SortMembers(gr);
      SortMembersContent(gr);
    }
  }

  /** Sorting changes neither the groups, nor the operations, nor the edges. */
  lemma NormaliseKeepsGraph(groups: seq<Group>)
    ensures GroupIds(Normalise(groups)) == GroupIds(groups)
    ensures Operations(Normalise(groups)) == Operations(groups)
    ensures GraphOf(Normalise(groups)) == GraphOf(groups)
  {
    NormaliseContent(groups);
    SameIds(groups, Normalise(groups));
    SameGraph(groups, Normalise(groups));
  }

  lemma SameIds(a: seq<Group>, b: seq<Group>)
    requires ContentWithin(a, b) && ContentWithin(b, a)
    ensures GroupIds(a) == GroupIds(b) && Operations(a) == Operations(b)
    ensures forall id :: DependenciesOf(a, id) == DependenciesOf(b, id)
  {
    ContentWithinGraph(a, b);
    ContentWithinGraph(b, a);
    forall id
      ensures DependenciesOf(a, id) == DependenciesOf(b, id)
    {
      assert DependenciesOf(a, id) <= DependenciesOf(b, id);
      assert DependenciesOf(b, id) <= DependenciesOf(a, id);
    }
  }

  lemma SameGraph(a: seq<Group>, b: seq<Group>)
    requires GroupIds(a) == GroupIds(b)
    requires forall id :: DependenciesOf(a, id) == DependenciesOf(b, id)
    ensures GraphOf(a) == GraphOf(b)
  {
  }

  // ---------------------------------------------------------------- the normal form keeps the rules

  ghost predicate Own(gr: Group) {
    Distinct(gr.deps) && Distinct(gr.ops)
  }

  ghost predicate Apart(a: Group, b: Group) {
    a.id != b.id && forall op :: op in a.ops ==> op !in b.ops
  }

  ghost predicate PairUnique(groups: seq<Group>) {
    && (forall i :: 0 <= i < |groups| ==> Own(groups[i]))
    && (forall i, j :: 0 <= i < j < |groups| ==> Apart(groups[i], groups[j]))
  }

  lemma UniqueByPairs(groups: seq<Group>)
    ensures Unique(groups) <==> PairUnique(groups)
  {
    if Unique(groups) {
      forall i, j | 0 <= i < j < |groups|
        ensures Apart(groups[i], groups[j])
      {
        assert CleanAt(groups, j) && groups[..j][i] in groups[..j];
        assert forall op :: op in groups[i].ops ==> op in Operations(groups[..j]);
        assert forall op :: op in groups[j].ops ==> op in ToSet(groups[j].ops);
      }
      assert forall i :: 0 <= i < |groups| ==> CleanAt(groups, i) && Own(groups[i]);
    }
    if PairUnique(groups) {
      forall j | 0 <= j < |groups|
        ensures CleanAt(groups, j)
      {
        forall gr | gr in groups[..j]
          ensures Apart(gr, groups[j])
        {
          var i :| 0 <= i < j && groups[..j][i] == gr;
          assert gr == groups[i];
        }
        assert Own(groups[j]);
      }
    }
  }

  lemma PairsByMembers(groups: seq<Group>)
    ensures PairUnique(groups) <==>
            && Distinct(groups)
            && (forall a :: a in groups ==> Own(a))
            && (forall a, b :: a in groups && b in groups && a != b ==> Apart(a, b))
  {
    if PairUnique(groups) {
      forall a, b | a in groups && b in groups && a != b
        ensures Apart(a, b)
      {
        var i :| 0 <= i < |groups| && groups[i] == a;
        var j :| 0 <= j < |groups| && groups[j] == b;
        assert Apart(groups[i], groups[j]) || Apart(groups[j], groups[i]);
      }
      forall i, j | 0 <= i < j < |groups|
        ensures groups[i] != groups[j]
      {
        assert Apart(groups[i], groups[j]);
      }
    }
  }

  lemma PairUniquePermutes(a: seq<Group>, b: seq<Group>)
    requires multiset(a) == multiset(b)
    ensures PairUnique(a) <==> PairUnique(b)
  {
    PermutationDistinct(a, b);
    MultisetToSet(a, b);
    assert forall x :: x in a <==> x in ToSet(b);
    PairsByMembers(a);
    PairsByMembers(b);
  }

  lemma PairUniqueSortEach(groups: seq<Group>)
    ensures PairUnique(SortEach(groups)) <==> PairUnique(groups)
  {
    var each := SortEach(groups);
    forall i | 0 <= i < |groups|
      ensures each[i].id == groups[i].id && (Own(each[i]) <==> Own(groups[i]))
      ensures forall op :: op in each[i].ops <==> op in groups[i].ops
    {
      SortEachAt(groups, i);
      SortMembersKeeps(groups[i]);
      SortMembersContent(groups[i]);
    }
    forall i, j | 0 <= i < j < |groups|
      ensures Apart(each[i], each[j]) <==> Apart(groups[i], groups[j])
    {
    }
  }

  ghost predicate GoodEdge(ids: set<Id>, gr: Group, d: Id) {
    d != gr.id && d in ids
  }

  ghost predicate GoodEdges(groups: seq<Group>, ids: set<Id>) {
    forall gr, d :: gr in groups && d in gr.deps ==> GoodEdge(ids, gr, d)
  }

  lemma EdgesByMembers(groups: seq<Group>)
    ensures EdgesOk(groups) <==> GoodEdges(groups, GroupIds(groups))
  {
    var ids := GroupIds(groups);
    if EdgesOk(groups) {
      forall gr, d | gr in groups && d in gr.deps
        ensures GoodEdge(ids, gr, d)
      {
        var i :| 0 <= i < |groups| && groups[i] == gr;
        var k :| 0 <= k < |gr.deps| && gr.deps[k] == d;
        assert EdgeOk(groups, i, k);
      }
    }
    if GoodEdges(groups, ids) {
      forall i, k | 0 <= i < |groups| && 0 <= k < |groups[i].deps|
        ensures EdgeOk(groups, i, k)
      {
        assert groups[i] in groups && groups[i].deps[k] in groups[i].deps;
        assert GoodEdge(ids, groups[i], groups[i].deps[k]);
      }
    }
  }

  lemma EdgesWithin(a: seq<Group>, b: seq<Group>)
    requires ContentWithin(a, b) && GroupIds(a) == GroupIds(b) && EdgesOk(b)
    ensures EdgesOk(a)
  {
    EdgesByMembers(a);
    EdgesByMembers(b);
    forall gr, d | gr in a && d in gr.deps
      ensures GoodEdge(GroupIds(a), gr, d)
    {
      var other :| other in b && SameContent(gr, other);
      assert GoodEdge(GroupIds(b), other, d);
    }
  }

  lemma NormaliseKeepsUnique(input: seq<Group>)
    ensures Unique(Normalise(input)) <==> Unique(input)
  {
    var n := Normalise(input);
    UniqueByPairs(n);
    UniqueByPairs(input);
    SortPermutes(GroupLeq, SortEach(input));
    PairUniquePermutes(n, SortEach(input));
    PairUniqueSortEach(input);
  }

  lemma NormaliseKeepsEdges(input: seq<Group>)
    ensures EdgesOk(Normalise(input)) <==> EdgesOk(input)
  {
    var n := Normalise(input);
    NormaliseContent(input);
    NormaliseKeepsGraph(input);
    if EdgesOk(n) {
      EdgesWithin(input, n);
    }
    if EdgesOk(input) {
      EdgesWithin(n, input);
    }
  }

  lemma PopulatedByMembers(groups: seq<Group>)
    ensures Populated(groups) <==> groups != [] && forall gr :: gr in groups ==> gr.ops != []
  {
    if Populated(groups) {
      forall gr | gr in groups
        ensures gr.ops != []
      {
        var i :| 0 <= i < |groups| && groups[i] == gr;
      }
    }
  }

  lemma NormaliseKeepsPopulated(input: seq<Group>)
    ensures Populated(Normalise(input)) <==> Populated(input)
  {
    NormaliseMembers(input);
    forall gr | gr in input
      ensures SortMembers(gr).ops == [] <==> gr.ops == []
    {
      SortMembersKeeps(gr);
    }
    PopulatedByMembers(input);
    PopulatedByMembers(Normalise(input));
  }

  lemma NormaliseSortsMembers(input: seq<Group>)
    ensures forall i :: 0 <= i < |Normalise(input)| ==> SortedBy(IdLeq, Normalise(input)[i].deps)
  {
    var n := Normalise(input);
    NormaliseMembers(input);
    forall i | 0 <= i < |n|
      ensures SortedBy(IdLeq, n[i].deps)
    {
      assert n[i] in n;
      var gr :| gr in input && n[i] == SortMembers(gr);
      SortMembersKeeps(gr);
    }
  }

  // ---------------------------------------------------------------- the scans of `validate`

  /** Sorts the members of every group; a group without operations ends the attempt. */
  method SortAllMembers(input: seq<Group>) returns (groups: seq<Group>, populated: bool)
    ensures populated <==> forall i :: 0 <= i < |input| ==> input[i].ops != []
    ensures populated ==> groups == SortEach(input)
  {
    groups := [];
    for i := 0 to |input|
      invariant groups == SortEach(input[..i])
      invariant forall k :: 0 <= k < i ==> input[k].ops != []
    {
      if input[i].ops == [] {
        return groups, false;
      }
      assert input[..i + 1][..i] == input[..i];
      groups := groups + [SortMembers(input[i])];
    }
    assert input[..|input|] == input;
    populated := true;
  }

  predicate HasAdjacentDuplicate(s: seq<Id>) {
    exists i :: 0 <= i < |s| - 1 && s[i] == s[i + 1]
  }

  lemma AdjacentDuplicate(s: seq<Id>)
    requires SortedBy(IdLeq, s)
    ensures HasAdjacentDuplicate(s) <==> !Distinct(s)
  {
    if i, j :| 0 <= i < j < |s| && s[i] == s[j] {
      assert IdLeq(s[i], s[i + 1]);
      assert i + 1 < j ==> IdLeq(s[i + 1], s[j]);
      assert s[i] == s[i + 1];
    }
  }

  lemma OperationsPrefix(groups: seq<Group>, i: nat)
    requires i < |groups|
    ensures Operations(groups[..i + 1]) == Operations(groups[..i]) + ToSet(groups[i].ops)
    ensures GroupIds(groups[..i + 1]) == GroupIds(groups[..i]) + {groups[i].id}
  {
    var before, after := groups[..i], groups[..i + 1];
    assert after == before + [groups[i]];
    forall op
      ensures op in Operations(after) <==> op in Operations(before) || op in groups[i].ops
    {
      if op in Operations(before) {
        var gr :| gr in before && op in gr.ops;
        assert gr in after;
      }
      if op in groups[i].ops {
        assert groups[i] in after;
      }
    }
  }

  lemma UniquePrefix(groups: seq<Group>, i: nat)
    requires i < |groups| && Unique(groups[..i])
    ensures CleanAt(groups, i) ==> Unique(groups[..i + 1])
  {
    if CleanAt(groups, i) {
      var longer := groups[..i + 1];
      forall k | 0 <= k < i + 1
        ensures CleanAt(longer, k)
      {
        assert longer[..k] == groups[..k];
        assert k < i ==> groups[..i][..k] == groups[..k] && CleanAt(groups[..i], k);
      }
    }
  }

  /** Enters the operations of one group; `isNew` tells whether none was there before. */
  method EnterOperations(known: set<Id>, ops: seq<Id>) returns (all: set<Id>, isNew: bool)
    ensures isNew <==> Distinct(ops) && ToSet(ops) !! known
    ensures isNew ==> all == known + ToSet(ops)
  {
    all := known;
    for k := 0 to |ops|
      invariant Distinct(ops[..k]) && ToSet(ops[..k]) !! known
      invariant all == known + ToSet(ops[..k])
    {
      if ops[k] in all {
        assert ops[k] in ToSet(ops);
        if ops[k] !in known {
          var i :| 0 <= i < k && ops[..k][i] == ops[k];
          assert ops[i] == ops[k];
        }
        return all, false;
      }
      assert ops[..k + 1] == ops[..k] + [ops[k]];
      all := all + {ops[k]};
    }
    assert ops[..|ops|] == ops;
    isNew := true;
  }

  /** What the scan knows after `i` groups without a repetition. */
  ghost predicate Scanned(groups: seq<Group>, i: nat, indexes: map<Id, nat>, operations: set<Id>)
    requires i <= |groups|
  {
    && Unique(groups[..i])
    && indexes.Keys == GroupIds(groups[..i])
    && (forall k :: 0 <= k < i ==> groups[k].id in indexes && indexes[groups[k].id] == k)
    && operations == Operations(groups[..i])
  }

  lemma ScannedStep(groups: seq<Group>, i: nat, indexes: map<Id, nat>, operations: set<Id>)
    requires i < |groups| && Scanned(groups, i, indexes, operations) && CleanAt(groups, i)
    ensures Scanned(groups, i + 1, indexes[groups[i].id := i], operations + ToSet(groups[i].ops))
  {
    OperationsPrefix(groups, i);
    UniquePrefix(groups, i);
  }

  /** Indexes the groups and rejects the first repetition met. */
  method CheckRepetitions(groups: seq<Group>) returns (e: Option<GraphError>, indexes: map<Id, nat>)
    requires forall i :: 0 <= i < |groups| ==> SortedBy(IdLeq, groups[i].deps)
    ensures e.None? ==> Unique(groups)
    ensures e.None? ==> indexes.Keys == GroupIds(groups)
    ensures e.None? ==> forall i :: 0 <= i < |groups| ==> groups[i].id in indexes && indexes[groups[i].id] == i
    ensures e.Some? ==> exists i: nat :: RepetitionAt(groups, i, e.value)
  {
    indexes := map[];
    var operations: set<Id> := {};
    for i := 0 to |groups|
      invariant Scanned(groups, i, indexes, operations)
    {
      AdjacentDuplicate(groups[i].deps);
      if groups[i].id in indexes || HasAdjacentDuplicate(groups[i].deps) {
        assert RepetitionAt(groups, i, DuplicateGroup);
        return Some(DuplicateGroup), indexes;
      }
      var entered, isNew := EnterOperations(operations, groups[i].ops);
      if !isNew {
        assert RepetitionAt(groups, i, DuplicateOperation);
        return Some(DuplicateOperation), indexes;
      }
      ScannedStep(groups, i, indexes, operations);
      indexes, operations := indexes[groups[i].id := i], entered;
    }
    assert groups[..|groups|] == groups;
    e := None;
  }

  // ---------------------------------------------------------------- the edges

  /** What the edge scan knows about one group once its edges are entered. */
  ghost predicate EdgesEntered(groups: seq<Group>, i: nat, indegree: map<Id, nat>, dependents: map<Id, set<Id>>)
    requires i <= |groups|
  {
    && indegree.Keys == GroupIds(groups[..i])
    && (forall k :: 0 <= k < i ==> groups[k].id in indegree && indegree[groups[k].id] == |groups[k].deps|)
    && DependentsAre(groups[..i], dependents)
  }

  ghost predicate HasEdge(groups: seq<Group>, d: Id, id: Id) {
    exists gr :: gr in groups && gr.id == id && d in gr.deps
  }

  predicate Lists(dependents: map<Id, set<Id>>, d: Id, id: Id) {
    d in dependents && id in dependents[d]
  }

  /** `dependents` inverts the dependency lists. */
  ghost predicate DependentsAre(groups: seq<Group>, dependents: map<Id, set<Id>>) {
    forall d, id :: Lists(dependents, d, id) <==> HasEdge(groups, d, id)
  }

  function AddDependent(dependents: map<Id, set<Id>>, d: Id, id: Id): (r: map<Id, set<Id>>)
    ensures forall d', x :: Lists(r, d', x) <==> Lists(dependents, d', x) || (d' == d && x == id)
  {
    dependents[d := (if d in dependents then dependents[d] else {}) + {id}]
  }

  lemma HasEdgeStep(groups: seq<Group>, i: nat, d: Id, id: Id)
    requires i < |groups|
    ensures HasEdge(groups[..i + 1], d, id) <==>
            HasEdge(groups[..i], d, id) || (id == groups[i].id && d in groups[i].deps)
  {
    var before, after := groups[..i], groups[..i + 1];
    assert after == before + [groups[i]];
    assert groups[i] in after;
    if HasEdge(before, d, id) {
      var gr :| gr in before && gr.id == id && d in gr.deps;
      assert gr in after;
    }
  }

  /** Enters the edges of group `i`, stopping at the first bad one. */
  method EnterEdges(groups: seq<Group>, i: nat, indexes: map<Id, nat>, before: map<Id, set<Id>>)
      returns (e: Option<GraphError>, dependents: map<Id, set<Id>>)
    requires i < |groups| && indexes.Keys == GroupIds(groups)
    requires DependentsAre(groups[..i], before)
    ensures e.None? ==> forall k :: 0 <= k < |groups[i].deps| ==> EdgeOk(groups, i, k)
    ensures e.None? ==> DependentsAre(groups[..i + 1], dependents)
    ensures e.Some? ==> exists k: nat :: FirstBadEdge(groups, i, k, e.value)
  {
    var deps, id := groups[i].deps, groups[i].id;
    dependents := before;
    for k := 0 to |deps|
      invariant forall k' :: 0 <= k' < k ==> EdgeOk(groups, i, k')
      invariant forall d, x :: Lists(dependents, d, x) <==> Lists(before, d, x) || (x == id && d in deps[..k])
    {
      if deps[k] == id {
        assert FirstBadEdge(groups, i, k, SelfDependency);
        return Some(SelfDependency), dependents;
      }
      if deps[k] !in indexes {
        assert FirstBadEdge(groups, i, k, MissingDependency);
        return Some(MissingDependency), dependents;
      }
      assert deps[..k + 1] == deps[..k] + [deps[k]];
      dependents := AddDependent(dependents, deps[k], id);
    }
    assert deps[..|deps|] == deps;
    forall d, x
      ensures Lists(dependents, d, x) <==> HasEdge(groups[..i + 1], d, x)
    {
      HasEdgeStep(groups, i, d, x);
    }
    e := None;
  }

  lemma CountEntered(groups: seq<Group>, i: nat, indegree: map<Id, nat>)
    requires i < |groups| && Unique(groups)
    requires indegree.Keys == GroupIds(groups[..i])
    requires forall k :: 0 <= k < i ==> groups[k].id in indegree && indegree[groups[k].id] == |groups[k].deps|
    ensures indegree[groups[i].id := |groups[i].deps|].Keys == GroupIds(groups[..i + 1])
    ensures forall k :: 0 <= k < i ==> groups[k].id != groups[i].id
  {
    assert CleanAt(groups, i);
    OperationsPrefix(groups, i);
    forall k | 0 <= k < i
      ensures groups[k].id != groups[i].id
    {
      assert groups[..i][k] in groups[..i];
    }
  }

  ghost predicate EdgesOkBefore(groups: seq<Group>, i: nat) {
    forall i', k' :: 0 <= i' < i && i' < |groups| && 0 <= k' < |groups[i'].deps| ==> EdgeOk(groups, i', k')
  }

  /** Counts dependencies and inverts them, rejecting the first bad edge met. */
  method CheckEdges(groups: seq<Group>, indexes: map<Id, nat>)
      returns (e: Option<GraphError>, indegree: map<Id, nat>, dependents: map<Id, set<Id>>)
    requires indexes.Keys == GroupIds(groups) && Unique(groups)
    ensures e.None? ==> EdgesOk(groups) && EdgesEntered(groups, |groups|, indegree, dependents)
    ensures e.Some? ==> exists i: nat, k: nat :: BadEdgeAt(groups, i, k, e.value)
  {
    indegree, dependents := map[], map[];
    for i := 0 to |groups|
      invariant EdgesOkBefore(groups, i)
      invariant EdgesEntered(groups, i, indegree, dependents)
    {
      CountEntered(groups, i, indegree);
      indegree := indegree[groups[i].id := |groups[i].deps|];
      e, dependents := EnterEdges(groups, i, indexes, dependents);
      if e.Some? {
        ghost var k: nat :| FirstBadEdge(groups, i, k, e.value);
        assert BadEdgeAt(groups, i, k, e.value);
        return;
      }
    }
    e := None;
  }

  // ---------------------------------------------------------------- Kahn's algorithm

  lemma GroupsInGraph(groups: seq<Group>)
    requires Unique(groups) && EdgesOk(groups)
    ensures forall i :: 0 <= i < |groups| ==>
              groups[i].id in GraphOf(groups) && GraphOf(groups)[groups[i].id] == ToSet(groups[i].deps)
    ensures Closed(GraphOf(groups))
    ensures forall x :: x in GraphOf(groups) ==> x !in GraphOf(groups)[x]
    ensures |GraphOf(groups)| == |groups|
  {
    var g := GraphOf(groups);
    forall i, j | 0 <= i < j < |groups|
      ensures groups[i].id != groups[j].id
    {
      assert CleanAt(groups, j) && groups[..j][i] in groups[..j];
    }
    forall i | 0 <= i < |groups|
      ensures groups[i].id in g && g[groups[i].id] == ToSet(groups[i].deps)
      ensures ToSet(groups[i].deps) <= GroupIds(groups) && groups[i].id !in groups[i].deps
    {
      assert groups[i] in groups;
      forall d | d in groups[i].deps
        ensures d in GroupIds(groups) && d != groups[i].id
      {
        var k :| 0 <= k < |groups[i].deps| && groups[i].deps[k] == d;
        assert EdgeOk(groups, i, k);
      }
    }
    forall x | x in g
      ensures exists i :: 0 <= i < |groups| && groups[i].id == x
    {
      var gr :| gr in groups && gr.id == x;
      var i :| 0 <= i < |groups| && groups[i] == gr;
    }
    IdCount(groups);
    assert g.Keys == GroupIds(groups);
  }

  lemma IdCount(groups: seq<Group>)
    requires forall i, j :: 0 <= i < j < |groups| ==> groups[i].id != groups[j].id
    ensures |GroupIds(groups)| == |groups|
    decreases |groups|
  {
    if groups != [] {
      var n := |groups| - 1;
      OperationsPrefix(groups, n);
      assert groups[..n + 1] == groups;
      IdCount(groups[..n]);
    }
  }

  /** The smallest available group, taken out. */
  method PopFirst(s: set<Id>) returns (x: Id, rest: set<Id>)
    requires s != {}
    ensures x in s && rest == s - {x}
    ensures forall y :: y in s ==> IdLeq(x, y)
  {
    x :| x in s;
    var unseen := s - {x};
    while unseen != {}
      invariant x in s && unseen <= s
      invariant forall y :: y in s && y !in unseen ==> IdLeq(x, y)
      decreases unseen
    {
      var y :| y in unseen;
      if y.rank < x.rank {
        x := y;
      }
      unseen := unseen - {y};
    }
    rest := s - {x};
  }

  /** For a group not yet ordered, the count is the number of its dependencies not yet ordered. */
  ghost predicate CountOk(g: Graph, done: set<Id>, indegree: map<Id, nat>, x: Id) {
    x in g && x !in done ==> x in indegree && indegree[x] == |g[x] - done|
  }

  lemma ReadyByCount(g: Graph, done: set<Id>, indegree: map<Id, nat>, x: Id)
    requires x in g && x !in done && CountOk(g, done, indegree, x)
    ensures indegree[x] == 0 <==> x in Ready(g, done)
  {
    if g[x] <= done {
      assert g[x] - done == {};
    } else {
      var d :| d in g[x] && d !in done;
      assert d in g[x] - done;
    }
  }

  lemma CountDrops(g: Graph, done: set<Id>, id: Id, x: Id)
    requires x in g && id !in done
    ensures |g[x] - done| == |g[x] - (done + {id})| + if id in g[x] then 1 else 0
  {
    if id in g[x] {
      assert g[x] - done == (g[x] - (done + {id})) + {id};
    } else {
      assert g[x] - done == g[x] - (done + {id});
    }
  }

  lemma OthersUnaffected(g: Graph, done: set<Id>, id: Id, children: set<Id>, counts: map<Id, nat>)
    requires id in g && id !in done && counts.Keys == g.Keys && forall x :: CountOk(g, done, counts, x)
    requires forall x :: x in children <==> x in g && id in g[x]
    ensures forall x :: x !in children ==> CountOk(g, done + {id}, counts, x)
    ensures Ready(g, done) - {id} == Ready(g, done + {id}) - children
  {
    var after := done + {id};
    var before, later := Ready(g, done) - {id}, Ready(g, after) - children;
    forall x
      ensures x !in children ==> CountOk(g, after, counts, x)
      ensures x in before <==> x in later
    {
      assert x in children ==> x !in Ready(g, done);
      if x in g && x !in children && x !in after {
        CountDrops(g, done, id, x);
        ReadyByCount(g, done, counts, x);
        ReadyByCount(g, after, counts, x);
      }
    }
  }

  /** Releases the dependents of a group just ordered, making available those that wait for nothing else. */
  method ReleaseDependents(ghost g: Graph, ghost done: set<Id>, id: Id, children: set<Id>,
                           counts: map<Id, nat>, ready: set<Id>)
      returns (indegree: map<Id, nat>, available: set<Id>)
    requires id in g && id !in done && id !in g[id]
    requires forall x :: x in g && x in done ==> g[x] <= done
    requires forall x :: x in children <==> x in g && id in g[x]
    requires counts.Keys == g.Keys && forall x :: CountOk(g, done, counts, x)
    requires ready == Ready(g, done) - {id}
    ensures indegree.Keys == g.Keys && forall x :: CountOk(g, done + {id}, indegree, x)
    ensures available == Ready(g, done + {id})
  {
    indegree, available := counts, ready;
    ghost var after := done + {id};
    var pending := children;
    OthersUnaffected(g, done, id, children, counts);
    while pending != {}
      invariant pending <= children && indegree.Keys == g.Keys
      invariant forall x :: x in pending ==> CountOk(g, done, indegree, x)
      invariant forall x :: x !in pending ==> CountOk(g, after, indegree, x)
      invariant available == Ready(g, after) - pending
      decreases pending
    {
      var child :| child in pending;
      CountDrops(g, done, id, child);
      assert child !in after;
      indegree := indegree[child := indegree[child] - 1];
      pending := pending - {child};
      ReadyByCount(g, after, indegree, child);
      if indegree[child] == 0 {
        available := available + {child};
      }
    }
  }

  /** Kahn's loop: the order it builds is the greedy one, and it stops short only in front of a cycle. */
  method KahnOrder(groups: seq<Group>, counts: map<Id, nat>, dependents: map<Id, set<Id>>) returns (order: seq<Id>)
    requires Unique(groups) && EdgesOk(groups) && EdgesEntered(groups, |groups|, counts, dependents)
    ensures |order| == |groups| ==> LeastTopological(GraphOf(groups), order)
    ensures |order| != |groups| ==> !Acyclic(GraphOf(groups))
  {
    ghost var g := GraphOf(groups);
    GroupsInGraph(groups);
    ghost var done: set<Id> := {};
    var indegree := counts;
    var available := set id | id in indegree && indegree[id] == 0;
    order := [];
    InitialCounts(groups, counts, dependents);
    InitiallyReady(g, counts);
    while available != {}
      invariant done == ToSet(order) && done <= g.Keys
      invariant available == Ready(g, done)
      invariant indegree.Keys == g.Keys && forall x :: CountOk(g, done, indegree, x)
      invariant forall x :: x in g && x in done ==> g[x] <= done
      invariant Greedy(g, order)
      decreases g.Keys - done
    {
      var id, rest := PopFirst(available);
      GreedyExtends(g, order, id);
      order := order + [id];
      var children := if id in dependents then dependents[id] else {};
      assert forall x :: x in children <==> Lists(dependents, id, x);
      ChildrenAre(groups, dependents, id);
      indegree, available := ReleaseDependents(g, done, id, children, indegree, rest);
      done := done + {id};
    }
    KahnEnds(g, order, |groups|);
  }

  lemma GreedyExtends(g: Graph, order: seq<Id>, id: Id)
    requires Greedy(g, order) && id in Ready(g, ToSet(order))
    requires forall y :: y in Ready(g, ToSet(order)) ==> IdLeq(id, y)
    ensures Greedy(g, order + [id])
    ensures ToSet(order + [id]) == ToSet(order) + {id}
  {
    var longer := order + [id];
    forall k | 0 <= k < |longer|
      ensures longer[k] in Ready(g, ToSet(longer[..k]))
      ensures forall x :: x in Ready(g, ToSet(longer[..k])) ==> IdLeq(longer[k], x)
    {
      assert longer[..k] == order[..k];
      assert k == |order| ==> order[..k] == order;
    }
  }

  lemma ChildrenAre(groups: seq<Group>, dependents: map<Id, set<Id>>, d: Id)
    requires DependentsAre(groups, dependents)
    ensures forall x :: Lists(dependents, d, x) <==> x in GraphOf(groups) && d in GraphOf(groups)[x]
  {
    forall x
      ensures HasEdge(groups, d, x) <==> x in GraphOf(groups) && d in GraphOf(groups)[x]
    {
    }
  }

  lemma InitialCount(groups: seq<Group>, counts: map<Id, nat>, x: Id)
    requires Unique(groups) && EdgesOk(groups)
    requires forall k :: 0 <= k < |groups| ==> groups[k].id in counts && counts[groups[k].id] == |groups[k].deps|
    requires x in GraphOf(groups)
    ensures x in counts && counts[x] == |GraphOf(groups)[x]|
  {
    GroupsInGraph(groups);
    var gr :| gr in groups && gr.id == x;
    var i :| 0 <= i < |groups| && groups[i] == gr;
    assert CleanAt(groups, i);
    DistinctLength(groups[i].deps);
  }

  lemma InitialCounts(groups: seq<Group>, counts: map<Id, nat>, dependents: map<Id, set<Id>>)
    requires Unique(groups) && EdgesOk(groups) && EdgesEntered(groups, |groups|, counts, dependents)
    ensures counts.Keys == GraphOf(groups).Keys
    ensures forall x :: CountOk(GraphOf(groups), {}, counts, x)
    ensures DependentsAre(groups, dependents)
  {
    var g := GraphOf(groups);
    assert groups[..|groups|] == groups;
    forall x | x in g
      ensures CountOk(g, {}, counts, x)
    {
      InitialCount(groups, counts, x);
      assert g[x] - {} == g[x];
    }
  }

  lemma InitiallyReady(g: Graph, counts: map<Id, nat>)
    requires counts.Keys == g.Keys && forall x :: CountOk(g, {}, counts, x)
    ensures (set id | id in counts && counts[id] == 0) == Ready(g, {})
  {
    forall x | x in g
      ensures counts[x] == 0 <==> x in Ready(g, {})
    {
      ReadyByCount(g, {}, counts, x);
    }
  }

  lemma KahnEnds(g: Graph, order: seq<Id>, n: nat)
    requires Closed(g) && |g| == n && Greedy(g, order)
    requires ToSet(order) <= g.Keys && Ready(g, ToSet(order)) == {}
    ensures |order| == n ==> LeastTopological(g, order)
    ensures |order| != n ==> !Acyclic(g)
  {
    forall i, j | 0 <= i < j < |order|
      ensures order[i] != order[j]
    {
      assert order[..j][i] in ToSet(order[..j]);
      assert order[j] in Ready(g, ToSet(order[..j]));
    }
    DistinctLength(order);
    SubsetSize(ToSet(order), g.Keys);
    if |order| == n {
      GreedyIsLeast(g, order);
    } else {
      assert |g| == |g.Keys|;
      assert ToSet(order) != g.Keys;
      StuckHasCycle(g, ToSet(order));
    }
  }

  /** The operations of each group in turn, looked up through the index. */
  method FlattenOrder(groups: seq<Group>, indexes: map<Id, nat>, order: seq<Id>) returns (ops: seq<Id>)
    requires forall i :: 0 <= i < |order| ==>
               order[i] in indexes && indexes[order[i]] < |groups| && groups[indexes[order[i]]].id == order[i]
    requires forall i, j :: 0 <= i < j < |groups| ==> groups[i].id != groups[j].id
    ensures ops == Flatten(groups, order)
  {
    ops := [];
    for k := 0 to |order|
      invariant Flatten(groups, order) == ops + Flatten(groups, order[k..])
    {
      var index := indexes[order[k]];
      OpsOfIndex(groups, index);
      assert order[k..][1..] == order[k + 1..];
      ops := ops + groups[index].ops;
    }
  }

  lemma {:induction false} OpsOfIndex(groups: seq<Group>, i: nat)
    requires i < |groups|
    requires forall i, j :: 0 <= i < j < |groups| ==> groups[i].id != groups[j].id
    ensures OpsOf(groups, groups[i].id) == groups[i].ops
  {
    if i > 0 {
      assert groups[i] == groups[1..][i - 1];
      OpsOfIndex(groups[1..], i - 1);
    }
  }

  lemma DistinctIds(groups: seq<Group>)
    requires Unique(groups)
    ensures forall i, j :: 0 <= i < j < |groups| ==> groups[i].id != groups[j].id
  {
    forall i, j | 0 <= i < j < |groups|
      ensures groups[i].id != groups[j].id
    {
      assert CleanAt(groups, j) && groups[..j][i] in groups[..j];
    }
  }

  lemma IndexOfOrder(groups: seq<Group>, indexes: map<Id, nat>, order: seq<Id>)
    requires ToSet(order) == GroupIds(groups) == indexes.Keys
    requires forall i :: 0 <= i < |groups| ==> groups[i].id in indexes && indexes[groups[i].id] == i
    ensures forall k :: 0 <= k < |order| ==>
              order[k] in indexes && indexes[order[k]] < |groups| && groups[indexes[order[k]]].id == order[k]
  {
    forall k | 0 <= k < |order|
      ensures order[k] in indexes && indexes[order[k]] < |groups| && groups[indexes[order[k]]].id == order[k]
    {
      assert order[k] in ToSet(order);
      var gr :| gr in groups && gr.id == order[k];
      var i :| 0 <= i < |groups| && groups[i] == gr;
    }
  }

  /** The part of validation that works on the normal form. */
  method OrderGroups(groups: seq<Group>) returns (r: Result<Dag, GraphError>)
    requires forall i :: 0 <= i < |groups| ==> SortedBy(IdLeq, groups[i].deps)
    ensures r.Ok? <==> Unique(groups) && EdgesOk(groups) && Acyclic(GraphOf(groups))
    ensures r.Ok? ==> r.value.groups == groups && LeastTopological(GraphOf(groups), r.value.groupOrder)
    ensures r.Ok? ==> r.value.operationOrder == Flatten(groups, r.value.groupOrder)
    ensures r.Err? && !Unique(groups) ==> exists i: nat :: RepetitionAt(groups, i, r.error)
    ensures r.Err? && Unique(groups) && !EdgesOk(groups) ==> exists i: nat, k: nat :: BadEdgeAt(groups, i, k, r.error)
    ensures r.Err? && Unique(groups) && EdgesOk(groups) ==> r.error == Cycle
  {
    var e, indexes := CheckRepetitions(groups);
    if e.Some? {
      return Err(e.value);
    }
    var indegree, dependents;
    e, indegree, dependents := CheckEdges(groups, indexes);
    if e.Some? {
      return Err(e.value);
    }
    var order := KahnOrder(groups, indegree, dependents);
    if |order| != |groups| {
      return Err(Cycle);
    }
    TopologicalIsAcyclic(GraphOf(groups), order);
    DistinctIds(groups);
    IndexOfOrder(groups, indexes, order);
    var operations := FlattenOrder(groups, indexes, order);
    r := Ok(Dag(groups, order, operations));
  }

  /**
   Validation. It succeeds exactly on the admissible inputs; a success carries the normal form and the
   least topological order, a failure names exactly one error.
   */
  method Validate(input: seq<Group>) returns (r: Result<Dag, GraphError>)
    ensures r.Ok? <==> Admissible(input)
    ensures r.Ok? ==> Accepts(input, r.value)
    ensures r.Err? ==> Rejects(input, r.error)
  {
    if input == [] {
      return Err(Empty);
    }
    var groups, populated := SortAllMembers(input);
    if !populated {
      return Err(Empty);
    }
    groups := Sort(GroupLeq, groups);
    NormaliseSortsMembers(input);
    NormaliseKeepsUnique(input);
    NormaliseKeepsEdges(input);
    NormaliseKeepsGraph(input);
    r := OrderGroups(groups);
  }
}
