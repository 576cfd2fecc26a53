/**
 What the planner's result does and does not depend on: shuffling the groups, their dependency lists
 and their operation lists changes neither the accepted graph nor, as long as no group identifier
 repeats, the error.
 */
module DependencyDeterminism {
  import opened Collections
  import opened DependencyGraph
  import opened DependencyPolicy

  ghost predicate MembersShuffled(a: Group, b: Group) {
    a.id == b.id && multiset(a.deps) == multiset(b.deps) && multiset(a.ops) == multiset(b.ops)
  }

  /** The groups shuffled as a whole, then each group's lists shuffled on their own. */
  ghost predicate Shuffled(a: seq<Group>, b: seq<Group>) {
    exists c :: multiset(a) == multiset(c) && EachShuffled(c, b)
  }

  ghost predicate EachShuffled(c: seq<Group>, b: seq<Group>) {
    |c| == |b| && forall i :: 0 <= i < |b| ==> MembersShuffled(c[i], b[i])
  }

  ghost predicate DistinctGroupIds(groups: seq<Group>) {
    forall i, j :: 0 <= i < j < |groups| ==> groups[i].id != groups[j].id
  }

  lemma SortIdsUnique(a: seq<Id>, b: seq<Id>)
    requires multiset(a) == multiset(b)
    ensures Sort(IdLeq, a) == Sort(IdLeq, b)
  {
    SortSorted(IdLeq, a);
    SortSorted(IdLeq, b);
    SortPermutes(IdLeq, a);
    SortPermutes(IdLeq, b);
    SortedUnique(IdLeq, Sort(IdLeq, a), Sort(IdLeq, b));
  }

  lemma EachShuffledSorts(c: seq<Group>, b: seq<Group>)
    requires EachShuffled(c, b)
    ensures SortEach(c) == SortEach(b)
  {
    forall i | 0 <= i < |b|
      ensures SortEach(c)[i] == SortEach(b)[i]
    {
      SortEachAt(c, i);
      SortEachAt(b, i);
      assert MembersShuffled(c[i], b[i]);
      SortIdsUnique(c[i].deps, b[i].deps);
      SortIdsUnique(c[i].ops, b[i].ops);
    }
  }

  lemma SortEachConcat(a: seq<Group>, b: seq<Group>)
    ensures SortEach(a + b) == SortEach(a) + SortEach(b)
  {
    forall i | 0 <= i < |a + b|
      ensures SortEach(a + b)[i] == (SortEach(a) + SortEach(b))[i]
    {
      SortEachAt(a + b, i);
      if i < |a| {
        SortEachAt(a, i);
      } else {
        SortEachAt(b, i - |a|);
      }
    }
  }

  lemma SortEachAround(before: seq<Group>, gr: Group, after: seq<Group>)
    ensures multiset(SortEach(before + [gr] + after)) == multiset(SortEach(before + after)) + multiset{SortMembers(gr)}
  {
    SortEachConcat(before + [gr], after);
    SortEachConcat(before, [gr]);
    SortEachConcat(before, after);
    SortEachAt([gr], 0);
    assert SortEach([gr]) == [SortMembers(gr)];
  }

  lemma {:induction false} SortEachPermutes(a: seq<Group>, c: seq<Group>)
    requires multiset(a) == multiset(c)
    ensures multiset(SortEach(a)) == multiset(SortEach(c))
    decreases |a|
  {
    MultisetToSet(a, c);
    if a != [] {
      var front, last := a[..|a| - 1], a[|a| - 1];
      assert last in ToSet(c);
      var i :| 0 <= i < |c| && c[i] == last;
      var rest := c[..i] + c[i + 1..];
      MultisetWithout(c, i);
      MultisetWithout(a, |a| - 1);
      assert front + a[|a|..] == front;
      SortEachPermutes(front, rest);
      SortEachAround(c[..i], last, c[i + 1..]);
    }
  }

  lemma NormaliseTieless(groups: seq<Group>)
    requires DistinctGroupIds(groups)
    ensures Tieless(GroupLeq, Normalise(groups))
  {
    NormaliseMembers(groups);
    forall x, y | x in Normalise(groups) && y in Normalise(groups) && GroupLeq(x, y) && GroupLeq(y, x)
      ensures x == y
    {
      var gx :| gx in groups && x == SortMembers(gx);
      var gy :| gy in groups && y == SortMembers(gy);
      var i :| 0 <= i < |groups| && groups[i] == gx;
      var j :| 0 <= j < |groups| && groups[j] == gy;
    }
  }

  /** Shuffled inputs with distinct group identifiers have one normal form. */
  lemma ShuffledNormalForm(a: seq<Group>, b: seq<Group>)
    requires Shuffled(a, b) && DistinctGroupIds(a)
    ensures Normalise(a) == Normalise(b)
  {
    var c :| multiset(a) == multiset(c) && EachShuffled(c, b);
    EachShuffledSorts(c, b);
    SortEachPermutes(a, c);
    NormaliseTieless(a);
    SortPermutes(GroupLeq, SortEach(a));
    SortPermutes(GroupLeq, SortEach(b));
    SortSorted(GroupLeq, SortEach(a));
    SortSorted(GroupLeq, SortEach(b));
    MultisetToSet(Normalise(a), Normalise(b));
    assert forall x :: x in Normalise(b) ==> x in ToSet(Normalise(a));
    SortedUnique(GroupLeq, Normalise(a), Normalise(b));
  }

  lemma AdmissibleByNormalForm(a: seq<Group>)
    ensures Admissible(a) <==> Populated(Normalise(a)) && Unique(Normalise(a)) && EdgesOk(Normalise(a))
                               && Acyclic(GraphOf(Normalise(a)))
    ensures Populated(Normalise(a)) <==> Populated(a)
  {
    NormaliseKeepsUnique(a);
    NormaliseKeepsEdges(a);
    NormaliseKeepsGraph(a);
    NormaliseKeepsPopulated(a);
  }

  lemma AdmissibleDistinct(a: seq<Group>)
    requires Admissible(a)
    ensures DistinctGroupIds(a)
  {
    DistinctIds(a);
  }

  /** The accepted graph is the same for every shuffle of an admissible input. */
  lemma AcceptedGraphIsShuffleInvariant(a: seq<Group>, b: seq<Group>, x: Dag, y: Dag)
    requires Shuffled(a, b) && Admissible(a)
    requires Accepts(a, x) && Accepts(b, y)
    ensures Admissible(b)
    ensures x == y
  {
    AdmissibleDistinct(a);
    ShuffledNormalForm(a, b);
    AdmissibleByNormalForm(a);
    AdmissibleByNormalForm(b);
    NormaliseKeepsGraph(a);
    NormaliseKeepsGraph(b);
    LeastIsUnique(GraphOf(a), x.groupOrder, y.groupOrder);
  }

  /** With distinct group identifiers the error is shuffle invariant as well. */
  lemma ErrorIsShuffleInvariant(a: seq<Group>, b: seq<Group>, e: GraphError)
    requires Shuffled(a, b) && DistinctGroupIds(a)
    ensures Rejects(a, e) <==> Rejects(b, e)
  {
    ShuffledNormalForm(a, b);
    AdmissibleByNormalForm(a);
    AdmissibleByNormalForm(b);
    NormaliseKeepsGraph(a);
    NormaliseKeepsGraph(b);
  }

  lemma CleanBefore(groups: seq<Group>, i: nat, j: nat)
    requires i < j <= |groups| && Unique(groups[..j])
    ensures CleanAt(groups, i)
  {
    assert CleanAt(groups[..j], i);
    assert groups[..j][..i] == groups[..i];
  }

  lemma FirstRepetition(groups: seq<Group>, i: nat, j: nat, e: GraphError, f: GraphError)
    requires RepetitionAt(groups, i, e) && RepetitionAt(groups, j, f)
    ensures i == j && e == f
  {
    if i < j {
      CleanBefore(groups, i, j);
    } else if j < i {
      CleanBefore(groups, j, i);
    }
  }

  /** The contract of `Validate` leaves no choice of error. */
  lemma ErrorIsUnique(a: seq<Group>, e: GraphError, f: GraphError)
    requires Rejects(a, e) && Rejects(a, f)
    ensures e == f
  {
    var n := Normalise(a);
    if Populated(a) && !Unique(n) {
      var i: nat :| RepetitionAt(n, i, e);
      var j: nat :| RepetitionAt(n, j, f);
      FirstRepetition(n, i, j, e, f);
    } else if Populated(a) && !EdgesOk(n) {
      var i: nat, k: nat :| BadEdgeAt(n, i, k, e);
      var i': nat, k': nat :| BadEdgeAt(n, i', k', f);
    }
  }

  const Repeating: Group := Group(Id(1), [], [Id(7), Id(7)])
  const Plain: Group := Group(Id(1), [], [Id(8)])

  lemma RepeatingFirst()
    ensures Rejects([Repeating, Plain], DuplicateOperation)
  {
    var a := [Repeating, Plain];
    NormaliseTwo(Repeating, Plain);
    assert a[..0] == [];
    assert a[0].ops[0] == a[0].ops[1];
    assert !CleanAt(a, 0);
    assert RepetitionAt(a, 0, DuplicateOperation);
  }

  lemma PlainFirst()
    ensures Rejects([Plain, Repeating], DuplicateGroup)
  {
    var b := [Plain, Repeating];
    NormaliseTwo(Plain, Repeating);
    assert b[..1] == [Plain] && Plain in b[..1];
    assert Repeating.id in GroupIds(b[..1]);
    assert [Plain][..0] == [] && CleanAt([Plain], 0);
    assert RepetitionAt(b, 1, DuplicateGroup);
  }

  /**
   When a group identifier repeats, which error is reported can depend on the order of the input: the
   stable sort keeps the two groups in input order, and the first one's repeated operation is seen
   before the repeated identifier only if that group comes first.
   */
  lemma RepeatedIdErrorDependsOnOrder()
    ensures Shuffled([Repeating, Plain], [Plain, Repeating])
    ensures Rejects([Repeating, Plain], DuplicateOperation)
    ensures Rejects([Plain, Repeating], DuplicateGroup)
  {
    assert multiset([Repeating, Plain]) == multiset([Plain, Repeating]);
    assert EachShuffled([Plain, Repeating], [Plain, Repeating]);
    RepeatingFirst();
    PlainFirst();
  }

  lemma NormaliseTwo(p: Group, q: Group)
    requires p.id == q.id
    requires SortMembers(p) == p && SortMembers(q) == q
    ensures Normalise([p, q]) == [p, q]
  {
    assert [p, q][..1] == [p];
    assert SortEach([p]) == [p] by { SortEachAt([p], 0); }
    SortEachAt([p, q], 0);
    SortEachAt([p, q], 1);
    assert SortEach([p, q]) == [p, q];
    assert Sort(GroupLeq, [q]) == [q];
  }
}
