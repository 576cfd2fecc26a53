/**
 Exactly when the planner's error does not depend on the order of its input. The scan runs over groups
 sorted by identifier, and the sort is stable, so the order of the input shows only where an identifier
 repeats: the first of the groups of that name may be faulty itself, or only the second be one too many.
 */
module DependencyErrors {
  import opened Collections
  import opened DependencyGraph
  import opened DependencyPolicy
  import opened DependencyDeterminism

  predicate Under(x: Id, y: Id) {
    x.rank < y.rank
  }

  ghost predicate Repeats(groups: seq<Group>, k: Id) {
    exists i, j :: 0 <= i < j < |groups| && groups[i].id == k && groups[j].id == k
  }

  ghost predicate LeastRepeated(groups: seq<Group>, k: Id) {
    Repeats(groups, k) && forall l :: Repeats(groups, l) ==> IdLeq(k, l)
  }

  /** The groups whose identifier is smaller than `k`. */
  function Below(groups: seq<Group>, k: Id): seq<Group> {
    if groups == [] then []
    else (if Under(groups[0].id, k) then [groups[0]] else []) + Below(groups[1..], k)
  }

  /** Met after the groups below it, this group has an operation too many and no other fault. */
  ghost predicate OperationFault(groups: seq<Group>, gr: Group) {
    Distinct(gr.deps) && !(Distinct(gr.ops) && ToSet(gr.ops) !! Operations(Below(groups, gr.id)))
  }

  /** The groups named `k` all have that fault, or none of them has. */
  ghost predicate Uniform(groups: seq<Group>, k: Id) {
    forall g, h :: g in groups && h in groups && g.id == k && h.id == k ==>
      (OperationFault(groups, g) <==> OperationFault(groups, h))
  }

  /** One error for all shuffles of the input. */
  ghost predicate OneError(a: seq<Group>) {
    exists e :: EveryShuffleGets(a, e)
  }

  ghost predicate EveryShuffleGets(a: seq<Group>, e: GraphError) {
    forall b :: Shuffled(a, b) ==> Rejects(b, e)
  }

  /** What a caller can check: where, if anywhere, the order of the input decides the error. */
  ghost predicate OrderPlaysNoPart(a: seq<Group>) {
    || !Populated(a)
    || DistinctGroupIds(a)
    || exists k :: LeastRepeated(a, k) && (!Unique(Below(a, k)) || Uniform(a, k))
  }

  // ---------------------------------------------------------------- groups below an identifier

  lemma {:induction false} BelowCounts(s: seq<Group>, k: Id, x: Group)
    ensures multiset(Below(s, k))[x] == if Under(x.id, k) then multiset(s)[x] else 0
  {
    if s != [] {
      BelowCounts(s[1..], k, x);
      assert s == [s[0]] + s[1..];
    }
  }

  lemma BelowPermutes(a: seq<Group>, b: seq<Group>, k: Id)
    requires multiset(a) == multiset(b)
    ensures multiset(Below(a, k)) == multiset(Below(b, k))
  {
    forall x
      ensures multiset(Below(a, k))[x] == multiset(Below(b, k))[x]
    {
      BelowCounts(a, k, x);
      BelowCounts(b, k, x);
    }
  }

  lemma BelowMembers(s: seq<Group>, k: Id)
    ensures forall x :: x in Below(s, k) <==> x in s && Under(x.id, k)
  {
    forall x
      ensures x in Below(s, k) <==> x in s && Under(x.id, k)
    {
      BelowCounts(s, k, x);
      assert x in Below(s, k) <==> x in multiset(Below(s, k));
      assert x in s <==> x in multiset(s);
    }
  }

  lemma {:induction false} BelowConcat(a: seq<Group>, b: seq<Group>, k: Id)
    ensures Below(a + b, k) == Below(a, k) + Below(b, k)
  {
    if a == [] {
      assert a + b == b;
    } else {
      assert (a + b)[1..] == a[1..] + b;
      BelowConcat(a[1..], b, k);
    }
  }

  lemma {:induction false} AllBelow(s: seq<Group>, k: Id)
    requires forall i :: 0 <= i < |s| ==> Under(s[i].id, k)
    ensures Below(s, k) == s
  {
    if s != [] {
      AllBelow(s[1..], k);
    }
  }

  lemma {:induction false} NoneBelow(s: seq<Group>, k: Id)
    requires forall i :: 0 <= i < |s| ==> !Under(s[i].id, k)
    ensures Below(s, k) == []
  {
    if s != [] {
      NoneBelow(s[1..], k);
    }
  }

  /** The first group named `k`, with only smaller names before it. */
  ghost predicate FirstOfName(n: seq<Group>, k: Id, p: nat) {
    p < |n| && n[p].id == k && forall i :: 0 <= i < p ==> Under(n[i].id, k)
  }

  lemma SplitAt(n: seq<Group>, k: Id, p: nat)
    requires SortedBy(GroupLeq, n) && FirstOfName(n, k, p)
    ensures Below(n, k) == n[..p]
  {
    forall i | 0 <= i < |n[p..]|
      ensures !Under(n[p..][i].id, k)
    {
      assert i > 0 ==> GroupLeq(n[p], n[p + i]);
    }
    AllBelow(n[..p], k);
    NoneBelow(n[p..], k);
    BelowConcat(n[..p], n[p..], k);
    assert n == n[..p] + n[p..];
  }

  /** Where a name first appears among sorted groups. */
  lemma {:induction false} FirstNamed(n: seq<Group>, k: Id, j: nat) returns (p: nat)
    requires SortedBy(GroupLeq, n) && j < |n| && n[j].id == k
    ensures p <= j && FirstOfName(n, k, p)
  {
    if i: nat :| i < j && n[i].id == k {
      p := FirstNamed(n, k, i);
    } else {
      p := j;
      forall i | 0 <= i < j
        ensures Under(n[i].id, k)
      {
        assert GroupLeq(n[i], n[j]) && n[i].id != k;
      }
    }
  }

  // ---------------------------------------------------------------- what shuffling keeps

  lemma RepeatsPermutes(a: seq<Group>, b: seq<Group>, k: Id)
    requires multiset(a) == multiset(b) && Repeats(a, k)
    ensures Repeats(b, k)
  {
    var i, j :| 0 <= i < j < |a| && a[i].id == k && a[j].id == k;
    assert a[i] in multiset(b);
    var p :| 0 <= p < |b| && b[p] == a[i];
    MultisetWithout(a, i);
    MultisetWithout(b, p);
    OneMoreElsewhere(a, i, j, b, p);
  }

  lemma OneMoreElsewhere(a: seq<Group>, i: nat, j: nat, b: seq<Group>, p: nat)
    requires i < j < |a| && p < |b| && b[p].id == a[j].id
    requires multiset(a[..i] + a[i + 1..]) == multiset(b[..p] + b[p + 1..])
    ensures Repeats(b, a[j].id)
  {
    var ra, rb := a[..i] + a[i + 1..], b[..p] + b[p + 1..];
    assert ra[j - 1] == a[j];
    assert a[j] in multiset(rb);
    var q :| 0 <= q < |rb| && rb[q] == a[j];
    assert q < p ==> b[q] == a[j];
    assert q >= p ==> b[q + 1] == a[j];
  }

  lemma SortEachKeepsNames(a: seq<Group>, k: Id)
    ensures Repeats(SortEach(a), k) <==> Repeats(a, k)
  {
    forall i | 0 <= i < |a|
      ensures SortEach(a)[i].id == a[i].id
    {
      SortEachAt(a, i);
    }
  }

  lemma {:induction false} SortEachBelow(a: seq<Group>, k: Id)
    ensures SortEach(Below(a, k)) == Below(SortEach(a), k)
    decreases |a|
  {
    if a != [] {
      var front, last := a[..|a| - 1], a[|a| - 1];
      SortEachBelow(front, k);
      BelowConcat(front, [last], k);
      BelowConcat(SortEach(front), [SortMembers(last)], k);
      assert a == front + [last];
      SortEachConcat(Below(front, k), Below([last], k));
      assert Below([last], k) == if Under(last.id, k) then [last] else [];
      SortEachAt([last], 0);
      assert SortEach([last]) == [SortMembers(last)];
    }
  }

  /** `n` is a normal form some shuffle of `a` may have. */
  ghost predicate Arranged(a: seq<Group>, n: seq<Group>) {
    multiset(n) == multiset(SortEach(a)) && SortedBy(GroupLeq, n)
  }

  lemma ShufflesAreArranged(a: seq<Group>, b: seq<Group>)
    requires Shuffled(a, b)
    ensures Arranged(a, Normalise(b))
    ensures Populated(a) <==> Populated(b)
  {
    var c :| multiset(a) == multiset(c) && EachShuffled(c, b);
    EachShuffledSorts(c, b);
    SortEachPermutes(a, c);
    SortPermutes(GroupLeq, SortEach(b));
    SortSorted(GroupLeq, SortEach(b));
    SortPermutes(GroupLeq, SortEach(a));
    NormaliseKeepsPopulated(a);
    NormaliseKeepsPopulated(b);
    PopulatedByMembers(Normalise(a));
    PopulatedByMembers(Normalise(b));
    MultisetToSet(Normalise(a), Normalise(b));
    assert forall x :: x in Normalise(a) <==> x in ToSet(Normalise(b));
  }

  /** The groups below the least repeated name are the same, in the same order, in every arrangement. */
  lemma SameBelow(a: seq<Group>, n: seq<Group>, k: Id, p: nat)
    requires Arranged(a, n) && LeastRepeated(a, k)
    requires FirstOfName(n, k, p)
    ensures n[..p] == Below(Normalise(a), k)
    ensures Unique(n[..p]) <==> Unique(Below(a, k))
  {
    var base := Normalise(a);
    SplitAt(n, k, p);
    SortPermutes(GroupLeq, SortEach(a));
    SortSorted(GroupLeq, SortEach(a));
    BelowPermutes(n, base, k);
    BelowSorted(base, k);
    BelowTieless(a, n, k);
    BelowPermutes(SortEach(a), n, k);
    TielessPermutes(Below(n, k), Below(base, k));
    SortedUnique(GroupLeq, Below(n, k), Below(base, k));
    SortEachBelow(a, k);
    UniqueByPairs(n[..p]);
    UniqueByPairs(Below(a, k));
    PairUniquePermutes(n[..p], SortEach(Below(a, k)));
    PairUniqueSortEach(Below(a, k));
  }

  lemma TielessPermutes(a: seq<Group>, b: seq<Group>)
    requires Tieless(GroupLeq, a) && multiset(a) == multiset(b)
    ensures Tieless(GroupLeq, b)
  {
    MultisetToSet(a, b);
    assert forall x :: x in b ==> x in ToSet(a);
  }

  lemma {:induction false} BelowSorted(n: seq<Group>, k: Id)
    requires SortedBy(GroupLeq, n)
    ensures SortedBy(GroupLeq, Below(n, k))
  {
    if n != [] {
      BelowSorted(n[1..], k);
      BelowMembers(n[1..], k);
      var rest := Below(n[1..], k);
      forall j | 0 <= j < |rest|
        ensures GroupLeq(n[0], rest[j])
      {
        assert rest[j] in n[1..];
      }
    }
  }

  lemma BelowTieless(a: seq<Group>, n: seq<Group>, k: Id)
    requires Arranged(a, n) && LeastRepeated(a, k)
    ensures Tieless(GroupLeq, Below(n, k))
  {
    BelowMembers(n, k);
    forall x, y | x in Below(n, k) && y in Below(n, k) && GroupLeq(x, y) && GroupLeq(y, x)
      ensures x == y
    {
      var i :| 0 <= i < |n| && n[i] == x;
      var j :| 0 <= j < |n| && n[j] == y;
      if x != y {
        assert Repeats(n, x.id) by {
          assert n[i].id == x.id == n[j].id && (i < j || j < i);
        }
        RepeatsPermutes(n, SortEach(a), x.id);
        SortEachKeepsNames(a, x.id);
      }
    }
  }

  /** A group is faulty in the input exactly when it is in an arrangement. */
  lemma FaultArranged(a: seq<Group>, n: seq<Group>, g: Group)
    requires Arranged(a, n)
    ensures OperationFault(n, SortMembers(g)) <==> OperationFault(a, g)
  {
    SortMembersKeeps(g);
    BelowMembers(n, g.id);
    BelowMembers(a, g.id);
    MultisetToSet(n, SortEach(a));
    var x, y := Below(a, g.id), Below(n, g.id);
    forall gr | gr in x
      ensures exists other :: other in y && SameContent(gr, other)
    {
      var i :| 0 <= i < |a| && a[i] == gr;
      SortEachAt(a, i);
      assert SortEach(a)[i] in ToSet(n);
      SortMembersContent(gr);
      assert SortMembers(gr) in y;
    }
    forall m | m in y
      ensures exists other :: other in x && SameContent(m, other)
    {
      assert m in ToSet(SortEach(a));
      var i :| 0 <= i < |SortEach(a)| && SortEach(a)[i] == m;
      SortEachAt(a, i);
      SortMembersContent(a[i]);
      assert a[i] in x;
    }
    SameIds(x, y);
  }

  // ---------------------------------------------------------------- the error of one arrangement

  lemma SecondNamed(n: seq<Group>, k: Id, p: nat)
    requires SortedBy(GroupLeq, n) && Repeats(n, k)
    requires FirstOfName(n, k, p)
    ensures p + 1 < |n| && n[p + 1].id == k
  {
    var i, j :| 0 <= i < j < |n| && n[i].id == k && n[j].id == k;
    assert p <= i;
    assert GroupLeq(n[p], n[p + 1]);
    assert j > p + 1 ==> GroupLeq(n[p + 1], n[j]);
  }

  /** The error this group causes when it is the first of a repeated name. */
  ghost function ErrorOf(groups: seq<Group>, gr: Group): GraphError {
    if OperationFault(groups, gr) then DuplicateOperation else DuplicateGroup
  }

  /** After clean groups below, the first group named `k` decides. */
  lemma FirstOfItsNameDecides(n: seq<Group>, k: Id, p: nat)
    requires FirstOfName(n, k, p)
    requires SortedBy(GroupLeq, n) && Repeats(n, k) && Unique(n[..p])
    ensures exists i: nat :: RepetitionAt(n, i, ErrorOf(n, n[p]))
  {
    SplitAt(n, k, p);
    forall gr | gr in n[..p]
      ensures gr.id != k
    {
      var i :| 0 <= i < p && n[i] == gr;
    }
    assert k !in GroupIds(n[..p]);
    if OperationFault(n, n[p]) {
      assert !CleanAt(n, p);
      assert RepetitionAt(n, p, ErrorOf(n, n[p]));
    } else if !Distinct(n[p].deps) {
      assert !CleanAt(n, p);
      assert RepetitionAt(n, p, ErrorOf(n, n[p]));
    } else {
      assert CleanAt(n, p);
      UniquePrefix(n, p);
      SecondNamed(n, k, p);
      assert n[..p + 1][p] == n[p] && n[p] in n[..p + 1];
      assert n[p + 1].id in GroupIds(n[..p + 1]);
      assert !CleanAt(n, p + 1);
      assert RepetitionAt(n, p + 1, ErrorOf(n, n[p]));
    }
  }

  /** A scan that fails, fails first somewhere. */
  lemma {:induction false} SomeRepetition(n: seq<Group>, m: nat) returns (i: nat, e: GraphError)
    requires m <= |n| && !Unique(n[..m])
    ensures RepetitionAt(n, i, e) && i < m
    decreases m
  {
    assert m > 0;
    if Unique(n[..m - 1]) {
      UniquePrefix(n, m - 1);
      i := m - 1;
      e := if n[i].id in GroupIds(n[..i]) || !Distinct(n[i].deps) then DuplicateGroup else DuplicateOperation;
    } else {
      i, e := SomeRepetition(n, m - 1);
    }
  }

  lemma RepetitionInPrefix(n: seq<Group>, m: seq<Group>, p: nat, i: nat, e: GraphError)
    requires p <= |n| && p <= |m| && n[..p] == m[..p] && RepetitionAt(n, i, e) && i < p
    ensures RepetitionAt(m, i, e)
  {
    assert n[..i] == n[..p][..i] == m[..p][..i] == m[..i];
    assert n[i] == n[..p][i] == m[..p][i] == m[i];
  }

  lemma RepetitionRejects(b: seq<Group>, i: nat, e: GraphError)
    requires Populated(b) && RepetitionAt(Normalise(b), i, e)
    ensures Rejects(b, e)
  {
    assert !CleanAt(Normalise(b), i);
  }

  lemma {:induction false} FirstBad(groups: seq<Group>, i: nat, k: nat) returns (first: nat, e: GraphError)
    requires i < |groups| && k < |groups[i].deps| && !EdgeOk(groups, i, k)
    ensures FirstBadEdge(groups, i, first, e)
    decreases k
  {
    if j: nat :| j < k && !EdgeOk(groups, i, j) {
      first, e := FirstBad(groups, i, j);
    } else {
      first := k;
      e := if groups[i].deps[k] == groups[i].id then SelfDependency else MissingDependency;
    }
  }

  lemma {:induction false} SomeBadEdge(groups: seq<Group>, i: nat, k: nat) returns (at: nat, edge: nat, e: GraphError)
    requires i < |groups| && k < |groups[i].deps| && !EdgeOk(groups, i, k)
    ensures BadEdgeAt(groups, at, edge, e)
    decreases i
  {
    if i', k': nat :| 0 <= i' < i && k' < |groups[i'].deps| && !EdgeOk(groups, i', k') {
      at, edge, e := SomeBadEdge(groups, i', k');
    } else {
      at := i;
      edge, e := FirstBad(groups, i, k);
    }
  }

  /** Every inadmissible input has an error. */
  lemma InadmissibleIsRejected(a: seq<Group>) returns (e: GraphError)
    requires !Admissible(a)
    ensures Rejects(a, e)
  {
    var n := Normalise(a);
    AdmissibleByNormalForm(a);
    NormaliseKeepsGraph(a);
    if !Populated(a) {
      e := Empty;
    } else if !Unique(n) {
      assert n[..|n|] == n;
      var i: nat;
      i, e := SomeRepetition(n, |n|);
    } else if !EdgesOk(n) {
      var i, k :| 0 <= i < |n| && 0 <= k < |n[i].deps| && !EdgeOk(n, i, k);
      var at: nat, edge: nat;
      at, edge, e := SomeBadEdge(n, i, k);
    } else {
      e := Cycle;
    }
  }

  // ---------------------------------------------------------------- the theorem

  /** The first group of the least repeated name decides the error of a shuffle. */
  lemma DecidedBy(a: seq<Group>, b: seq<Group>, k: Id, p: nat, g: Group)
    requires Shuffled(a, b) && Populated(a) && LeastRepeated(a, k) && Unique(Below(a, k))
    requires FirstOfName(Normalise(b), k, p) && Normalise(b)[p] == SortMembers(g)
    ensures Rejects(b, ErrorOf(a, g))
  {
    var n := Normalise(b);
    ShufflesAreArranged(a, b);
    SortEachKeepsNames(a, k);
    RepeatsPermutes(SortEach(a), n, k);
    SameBelow(a, n, k, p);
    FirstOfItsNameDecides(n, k, p);
    FaultArranged(a, n, g);
    var i: nat :| RepetitionAt(n, i, ErrorOf(n, n[p]));
    RepetitionRejects(b, i, ErrorOf(n, n[p]));
  }

  /** The error of a shuffle whose first repeated name is `k`, read off the input. */
  lemma ErrorOfShuffle(a: seq<Group>, b: seq<Group>, k: Id) returns (g: Group)
    requires Shuffled(a, b) && Populated(a) && LeastRepeated(a, k) && Unique(Below(a, k))
    ensures g in a && g.id == k && Rejects(b, ErrorOf(a, g))
  {
    var p: nat;
    p, g := FirstGroupNamed(a, b, k);
    DecidedBy(a, b, k, p, g);
  }

  /** Where the least repeated name first stands in the normal form of a shuffle, and whose group it is. */
  lemma FirstGroupNamed(a: seq<Group>, b: seq<Group>, k: Id) returns (p: nat, g: Group)
    requires Shuffled(a, b) && LeastRepeated(a, k)
    ensures var n := Normalise(b);
            && Arranged(a, n) && Repeats(n, k) && (Populated(a) <==> Populated(b))
            && FirstOfName(n, k, p)
            && g in a && g.id == k && n[p] == SortMembers(g)
  {
    var n := Normalise(b);
    ShufflesAreArranged(a, b);
    SortEachKeepsNames(a, k);
    RepeatsPermutes(SortEach(a), n, k);
    var i, j :| 0 <= i < j < |n| && n[i].id == k && n[j].id == k;
    p := FirstNamed(n, k, i);
    MultisetToSet(n, SortEach(a));
    assert n[p] in ToSet(SortEach(a));
    var q :| 0 <= q < |SortEach(a)| && SortEach(a)[q] == n[p];
    SortEachAt(a, q);
    g := a[q];
  }

  lemma LowPart(a: seq<Group>, b: seq<Group>, k: Id)
    requires Shuffled(a, b) && LeastRepeated(a, k)
    ensures |Below(Normalise(a), k)| <= |Normalise(b)|
    ensures Normalise(b)[..|Below(Normalise(a), k)|] == Below(Normalise(a), k)
    ensures Unique(Below(Normalise(a), k)) <==> Unique(Below(a, k))
  {
    var q, h := FirstGroupNamed(a, b, k);
    SameBelow(a, Normalise(b), k, q);
  }

  lemma LowRepetitionDecides(a: seq<Group>, b: seq<Group>, k: Id, i: nat, e: GraphError)
    requires Shuffled(a, b) && Populated(a) && LeastRepeated(a, k)
    requires RepetitionAt(Below(Normalise(a), k), i, e)
    ensures Rejects(b, e)
  {
    var low := Below(Normalise(a), k);
    LowPart(a, b, k);
    ShufflesAreArranged(a, b);
    assert low[..|low|] == low;
    RepetitionInPrefix(low, Normalise(b), |low|, i, e);
    RepetitionRejects(b, i, e);
  }

  /** A repetition below the least repeated name is met first, in every shuffle. */
  lemma RepetitionBelowDecides(a: seq<Group>, k: Id) returns (e: GraphError)
    requires Populated(a) && LeastRepeated(a, k) && !Unique(Below(a, k))
    ensures EveryShuffleGets(a, e)
  {
    var low := Below(Normalise(a), k);
    PermutedIsShuffled(a, a);
    LowPart(a, a, k);
    assert low[..|low|] == low;
    var i: nat;
    i, e := SomeRepetition(low, |low|);
    forall b | Shuffled(a, b)
      ensures Rejects(b, e)
    {
      LowRepetitionDecides(a, b, k, i, e);
    }
  }

  lemma PermutedIsShuffled(a: seq<Group>, b: seq<Group>)
    requires multiset(a) == multiset(b)
    ensures Shuffled(a, b)
  {
    assert EachShuffled(b, b);
  }

  /** Stable sorting puts a group that comes first in the input before every other of its name. */
  lemma {:induction false} InsertedFirst(x: Group, s: seq<Group>) returns (p: nat)
    ensures p < |Insert(GroupLeq, x, s)| && Insert(GroupLeq, x, s)[p] == x
    ensures forall i :: 0 <= i < p ==> Under(Insert(GroupLeq, x, s)[i].id, x.id)
  {
    if s == [] || GroupLeq(x, s[0]) {
      p := 0;
    } else {
      var q := InsertedFirst(x, s[1..]);
      p := q + 1;
    }
  }

  lemma FrontGroupStaysFirst(g: Group, rest: seq<Group>) returns (p: nat)
    ensures FirstOfName(Normalise([g] + rest), g.id, p) && Normalise([g] + rest)[p] == SortMembers(g)
  {
    var b := [g] + rest;
    SortEachAt([g], 0);
    SortEachConcat([g], rest);
    assert SortEach([g]) == [SortMembers(g)];
    var each := SortEach(b);
    assert each == [SortMembers(g)] + SortEach(rest);
    assert each[0] == SortMembers(g) && each[1..] == SortEach(rest);
    p := InsertedFirst(SortMembers(g), Sort(GroupLeq, SortEach(rest)));
  }

  /** Any group of the least repeated name can be made the one that decides. */
  lemma MadeFirst(a: seq<Group>, k: Id, g: Group) returns (b: seq<Group>)
    requires Populated(a) && LeastRepeated(a, k) && Unique(Below(a, k)) && g in a && g.id == k
    ensures Shuffled(a, b) && Rejects(b, ErrorOf(a, g))
  {
    var i :| 0 <= i < |a| && a[i] == g;
    b := MovedToFront(a, i);
    MovingPermutes(a, i);
    PermutedIsShuffled(a, b);
    var p := FrontGroupStaysFirst(g, a[..i] + a[i + 1..]);
    DecidedBy(a, b, k, p, g);
  }

  lemma UniformMeansOneError(a: seq<Group>, k: Id)
    requires Populated(a) && LeastRepeated(a, k) && Unique(Below(a, k)) && Uniform(a, k)
    ensures OneError(a)
  {
    PermutedIsShuffled(a, a);
    var g := ErrorOfShuffle(a, a, k);
    forall b | Shuffled(a, b)
      ensures Rejects(b, ErrorOf(a, g))
    {
      var h := ErrorOfShuffle(a, b, k);
    }
    assert EveryShuffleGets(a, ErrorOf(a, g));
  }

  lemma {:induction false} SomeLeastRepeated(a: seq<Group>, k: Id) returns (l: Id)
    requires Repeats(a, k)
    ensures LeastRepeated(a, l)
    decreases |Below(a, k)|
  {
    if m :| Repeats(a, m) && !IdLeq(k, m) {
      FewerBelow(a, m, k);
      l := SomeLeastRepeated(a, m);
    } else {
      l := k;
    }
  }

  lemma FewerBelow(a: seq<Group>, m: Id, k: Id)
    requires Repeats(a, m) && Under(m, k)
    ensures |Below(a, m)| < |Below(a, k)|
  {
    var i, j :| 0 <= i < j < |a| && a[i].id == m && a[j].id == m;
    var front, rest := a[..i], a[i..];
    assert a == front + rest && rest[0] == a[i];
    BelowMonotone(front, m, k);
    BelowMonotone(rest[1..], m, k);
    BelowConcat(front, rest, m);
    BelowConcat(front, rest, k);
  }

  lemma {:induction false} BelowMonotone(a: seq<Group>, m: Id, k: Id)
    requires Under(m, k)
    ensures |Below(a, m)| <= |Below(a, k)|
  {
    if a != [] {
      BelowMonotone(a[1..], m, k);
    }
  }

  lemma OrderPlaysNoPartSuffices(a: seq<Group>)
    requires !Admissible(a) && OrderPlaysNoPart(a)
    ensures OneError(a)
  {
    if !Populated(a) {
      forall b | Shuffled(a, b)
        ensures Rejects(b, Empty)
      {
        ShufflesAreArranged(a, b);
      }
      assert EveryShuffleGets(a, Empty);
    } else if DistinctGroupIds(a) {
      var e := InadmissibleIsRejected(a);
      forall b | Shuffled(a, b)
        ensures Rejects(b, e)
      {
        ErrorIsShuffleInvariant(a, b, e);
      }
      assert EveryShuffleGets(a, e);
    } else {
      var k :| LeastRepeated(a, k) && (!Unique(Below(a, k)) || Uniform(a, k));
      if Unique(Below(a, k)) {
        UniformMeansOneError(a, k);
      } else {
        var e := RepetitionBelowDecides(a, k);
      }
    }
  }

  /**
   The error of an inadmissible input is the same for every shuffle exactly when a group is empty, or no
   name repeats, or a repetition is met before the least repeated name, or the groups of that name all
   have an operation too many, or none has.
   */
  lemma ErrorIgnoresOrderExactlyWhen(a: seq<Group>)
    requires !Admissible(a)
    ensures OneError(a) <==> OrderPlaysNoPart(a)
  {
    if OrderPlaysNoPart(a) {
      OrderPlaysNoPartSuffices(a);
    } else {
      var i, j :| 0 <= i < j < |a| && a[i].id == a[j].id;
      assert Repeats(a, a[i].id);
      var k := SomeLeastRepeated(a, a[i].id);
      var g, h :| g in a && h in a && g.id == k && h.id == k && OperationFault(a, g) && !OperationFault(a, h);
      var b := MadeFirst(a, k, g);
      var c := MadeFirst(a, k, h);
      forall e
        ensures !EveryShuffleGets(a, e)
      {
        if EveryShuffleGets(a, e) {
          ErrorIsUnique(b, e, DuplicateOperation);
          ErrorIsUnique(c, e, DuplicateGroup);
        }
      }
    }
  }
}
