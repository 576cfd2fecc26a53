/**
 Graph theory behind the dependency planner: topological orders, cycles, the smallest-first
 (greedy) order and reachability. A graph maps every group to the groups it depends on.
 */
module DependencyGraph {
  import opened Collections

  /**
   The rank of a transaction identifier under its own ordering. Identifiers are strings of 1 to 128
   characters, so there are finitely many of them and their order embeds into the integers.
   */
  datatype Id = Id(rank: int)

  predicate IdLeq(a: Id, b: Id) {
    a.rank <= b.rank
  }

  type Graph = map<Id, set<Id>>

  /** No edge leaves the graph. */
  ghost predicate Closed(g: Graph) {
    forall x :: x in g ==> g[x] <= g.Keys
  }

  /** Every group once, and never before a group it depends on. */
  ghost predicate IsTopological(g: Graph, order: seq<Id>) {
    && Distinct(order)
    && ToSet(order) == g.Keys
    && forall i :: 0 <= i < |order| ==> g[order[i]] <= ToSet(order[..i])
  }

  /** `c[0]` depends on `c[1]`, and so on, and the last one depends on `c[0]` again. */
  ghost predicate IsCycle(g: Graph, c: seq<Id>) {
    && c != []
    && (forall i :: 0 <= i < |c| ==> c[i] in g)
    && (forall i :: 0 <= i < |c| - 1 ==> c[i + 1] in g[c[i]])
    && c[0] in g[c[|c| - 1]]
  }

  ghost predicate Acyclic(g: Graph) {
    forall c :: !IsCycle(g, c)
  }

  /** The groups whose dependencies are all done. */
  ghost function Ready(g: Graph, done: set<Id>): set<Id> {
    set x | x in g && x !in done && g[x] <= done
  }

  /** Each entry is the smallest group that was ready at its position. */
  ghost predicate Greedy(g: Graph, order: seq<Id>) {
    forall k :: 0 <= k < |order| ==>
      && order[k] in Ready(g, ToSet(order[..k]))
      && forall x :: x in Ready(g, ToSet(order[..k])) ==> IdLeq(order[k], x)
  }

  /** Lexicographic order on sequences. */
  ghost predicate LexLeq(a: seq<Id>, b: seq<Id>) {
    || a == b
    || exists k :: 0 <= k < |a| && k < |b| && a[..k] == b[..k] && a[k].rank < b[k].rank
  }

  ghost predicate LeastTopological(g: Graph, order: seq<Id>) {
    && IsTopological(g, order)
    && forall other :: IsTopological(g, other) ==> LexLeq(order, other)
  }

  // ---------------------------------------------------------------- greedy order

  lemma GreedyIsTopological(g: Graph, order: seq<Id>)
    requires Greedy(g, order)
    requires ToSet(order) == g.Keys
    ensures IsTopological(g, order)
  {
    forall i, j | 0 <= i < j < |order|
      ensures order[i] != order[j]
    {
      assert order[i] == order[..j][i];
      assert order[i] in ToSet(order[..j]);
      assert order[j] in Ready(g, ToSet(order[..j]));
    }
    forall i | 0 <= i < |order|
      ensures g[order[i]] <= ToSet(order[..i])
    {
      assert order[i] in Ready(g, ToSet(order[..i]));
    }
  }

  lemma {:induction false} GreedyFrom(g: Graph, order: seq<Id>, other: seq<Id>, k: nat)
    requires Greedy(g, order) && IsTopological(g, other)
    requires |order| == |other| && k <= |order|
    requires order[..k] == other[..k]
    ensures LexLeq(order, other)
    decreases |order| - k
  {
    if k == |order| {
      assert order == order[..k] && other == other[..k];
    } else if order[k] == other[k] {
      assert order[..k + 1] == order[..k] + [order[k]];
      assert other[..k + 1] == other[..k] + [other[k]];
      GreedyFrom(g, order, other, k + 1);
    } else {
      forall i | 0 <= i < k
        ensures other[..k][i] != other[k]
      {
        assert other[..k][i] == other[i];
      }
      assert other[k] in ToSet(other) && other[k] in Ready(g, ToSet(order[..k]));
    }
  }

  /** The smallest-first order is the least topological order. */
  lemma GreedyIsLeast(g: Graph, order: seq<Id>)
    requires Greedy(g, order)
    requires ToSet(order) == g.Keys
    ensures LeastTopological(g, order)
  {
    GreedyIsTopological(g, order);
    forall other | IsTopological(g, other)
      ensures LexLeq(order, other)
    {
      DistinctLength(order);
      DistinctLength(other);
      GreedyFrom(g, order, other, 0);
    }
  }

  lemma FirstDifference(a: seq<Id>, b: seq<Id>, i: nat, j: nat)
    requires i < |a| && i < |b| && a[..i] == b[..i] && a[i].rank < b[i].rank
    requires j < |a| && j < |b|
    ensures a[..j] == b[..j] ==> IdLeq(a[j], b[j])
  {
    if j < i {
      assert a[..i][j] == b[..i][j];
    } else if i < j {
      assert a[..j][i] == a[i] && b[..j][i] == b[i];
    }
  }

  /** There is only one least topological order. */
  lemma LeastIsUnique(g: Graph, a: seq<Id>, b: seq<Id>)
    requires LeastTopological(g, a) && LeastTopological(g, b)
    ensures a == b
  {
    if a != b {
      var i :| 0 <= i < |a| && i < |b| && a[..i] == b[..i] && a[i].rank < b[i].rank;
      forall j | 0 <= j < |a| && j < |b|
        ensures a[..j] == b[..j] ==> IdLeq(a[j], b[j])
      {
        FirstDifference(a, b, i, j);
      }
    }
  }

  // ---------------------------------------------------------------- cycles

  /**
   When nothing is ready and something is left, every group left depends on another one left.
   Following those dependencies must revisit a group.
   */
  lemma {:induction false} WalkToCycle(g: Graph, done: set<Id>, path: seq<Id>) returns (c: seq<Id>)
    requires Closed(g) && Ready(g, done) == {}
    requires path != [] && Distinct(path)
    requires forall i :: 0 <= i < |path| ==> path[i] in g && path[i] !in done
    requires forall i :: 0 <= i < |path| - 1 ==> path[i + 1] in g[path[i]]
    ensures IsCycle(g, c)
    decreases |g.Keys - done| - |path|
  {
    var last := path[|path| - 1];
    assert last !in Ready(g, done);
    var next :| next in g[last] && next !in done;
    if next in path {
      var i :| 0 <= i < |path| && path[i] == next;
      c := path[i..];
    } else {
      var longer := path + [next];
      DistinctLength(longer);
      SubsetSize(ToSet(longer), g.Keys - done);
      c := WalkToCycle(g, done, longer);
    }
  }

  /** A stuck construction is evidence of a real cycle. */
  lemma StuckHasCycle(g: Graph, done: set<Id>)
    requires Closed(g) && Ready(g, done) == {}
    requires exists x :: x in g && x !in done
    ensures !Acyclic(g)
  {
    var x :| x in g && x !in done;
    var c := WalkToCycle(g, done, [x]);
  }

  ghost function Position(order: seq<Id>, x: Id): (i: nat)
    requires x in order
    ensures i < |order| && order[i] == x
  {
    var i :| 0 <= i < |order| && order[i] == x; i
  }

  lemma EdgeGoesBack(g: Graph, order: seq<Id>, x: Id, y: Id)
    requires IsTopological(g, order) && x in g && y in g[x]
    ensures x in order && y in order && Position(order, y) < Position(order, x)
  {
    assert x in ToSet(order);
    var i := Position(order, x);
    assert y in ToSet(order[..i]);
    var j :| 0 <= j < i && order[..i][j] == y;
    assert order[j] == y;
  }

  lemma {:induction false} CycleGoesBack(g: Graph, order: seq<Id>, c: seq<Id>, i: nat)
    requires IsTopological(g, order) && IsCycle(g, c) && i < |c|
    ensures c[0] in order && c[i] in order
    ensures Position(order, c[i]) <= Position(order, c[0])
  {
    assert c[0] in ToSet(order) && c[i] in ToSet(order);
    if i > 0 {
      CycleGoesBack(g, order, c, i - 1);
      EdgeGoesBack(g, order, c[i - 1], c[i]);
    }
  }

  /** A graph with a topological order has no cycle. */
  lemma TopologicalIsAcyclic(g: Graph, order: seq<Id>)
    requires IsTopological(g, order)
    ensures Acyclic(g)
  {
    forall c
      ensures !IsCycle(g, c)
    {
      if IsCycle(g, c) {
        var last, first := c[|c| - 1], c[0];
        EdgeGoesBack(g, order, last, first);
        CycleGoesBack(g, order, c, |c| - 1);
      }
    }
  }

  // ---------------------------------------------------------------- reachability

  /** `p` walks from `a` to `b` along dependencies; `[a]` is the walk that stays where it is. */
  ghost predicate IsWalk(g: Graph, a: Id, b: Id, p: seq<Id>) {
    && p != [] && p[0] == a && p[|p| - 1] == b
    && (forall i :: 0 <= i < |p| ==> p[i] in g)
    && (forall i :: 0 <= i < |p| - 1 ==> p[i + 1] in g[p[i]])
  }

  /** Reflexive-transitive dependency. */
  ghost predicate Reaches(g: Graph, a: Id, b: Id) {
    exists p :: IsWalk(g, a, b, p)
  }

  lemma ReachesSelf(g: Graph, a: Id)
    requires a in g
    ensures Reaches(g, a, a)
  {
    assert IsWalk(g, a, a, [a]);
  }

  lemma ReachesStep(g: Graph, a: Id, b: Id, c: Id)
    requires Reaches(g, a, b) && c in g && b in g && c in g[b]
    ensures Reaches(g, a, c)
  {
    var p :| IsWalk(g, a, b, p);
    assert IsWalk(g, a, c, p + [c]);
  }

  /** A walk that starts in a set closed under dependencies stays in it. */
  lemma {:induction false} WalkStaysInside(g: Graph, s: set<Id>, p: seq<Id>, i: nat)
    requires forall x :: x in s && x in g ==> g[x] <= s
    requires p != [] && i < |p| && p[0] in s
    requires forall k :: 0 <= k < |p| ==> p[k] in g
    requires forall k :: 0 <= k < |p| - 1 ==> p[k + 1] in g[p[k]]
    ensures p[i] in s
  {
    if i > 0 {
      WalkStaysInside(g, s, p, i - 1);
    }
  }
}
