/** Exactly when the fault reported about a set of claims does not depend on the order of the claims. */
module ClaimOrder {
  import opened Collections
  import opened DependencyGraph
  import opened DependencyPolicy
  import opened DependencyRollback
  import opened RollbackTheorems

  /** Claimed for a group it does not belong to; an unknown operation belongs to none. */
  ghost predicate Misclaimed(groups: seq<Group>, applied: seq<Applied>, op: Id) {
    exists a :: a in applied && a.op == op && !BelongsTo(groups, op, a.group)
  }

  ghost predicate ClaimedTwice(applied: seq<Applied>, op: Id) {
    exists i, j :: 0 <= i < j < |applied| && applied[i].op == op && applied[j].op == op
  }

  ghost predicate Faulty(groups: seq<Group>, applied: seq<Applied>, op: Id) {
    Misclaimed(groups, applied, op) || ClaimedTwice(applied, op)
  }

  function FaultOf(groups: seq<Group>, op: Id): PlanError {
    PlanError(if op in Operations(groups) then RecoveryBlocked else UnknownOperationVersion, op)
  }

  ghost predicate Reports(groups: seq<Group>, applied: seq<Applied>, e: PlanError) {
    exists i: nat :: AppliedFaultAt(groups, applied, i, e)
  }

  ghost predicate EveryOrderReports(groups: seq<Group>, applied: seq<Applied>, e: PlanError) {
    forall b :: multiset(b) == multiset(applied) ==> Reports(groups, b, e)
  }

  // ---------------------------------------------------------------- the reported fault

  lemma {:induction false} SomeFault(groups: seq<Group>, applied: seq<Applied>, m: nat) returns (i: nat)
    requires m <= |applied| && !AppliedTruth(groups, applied[..m])
    ensures i < m && AppliedFaultAt(groups, applied, i, FaultOf(groups, applied[i].op))
    decreases m
  {
    if AppliedTruth(groups, applied[..m - 1]) {
      AppliedPrefix(groups, applied, m - 1);
      i := m - 1;
    } else {
      i := SomeFault(groups, applied, m - 1);
    }
  }

  lemma TruthOfPrefix(groups: seq<Group>, applied: seq<Applied>, i: nat, j: nat)
    requires i < j <= |applied| && AppliedTruth(groups, applied[..j])
    ensures AppliedOkAt(groups, applied, i)
  {
    assert AppliedOkAt(groups, applied[..j], i);
  }

  /** One list of claims has one fault to report. */
  lemma ReportIsUnique(groups: seq<Group>, applied: seq<Applied>, e: PlanError, f: PlanError)
    requires Reports(groups, applied, e) && Reports(groups, applied, f)
    ensures e == f
  {
    var i: nat :| AppliedFaultAt(groups, applied, i, e);
    var j: nat :| AppliedFaultAt(groups, applied, j, f);
    if i < j {
      TruthOfPrefix(groups, applied, i, j);
    } else if j < i {
      TruthOfPrefix(groups, applied, j, i);
    }
  }

  // ---------------------------------------------------------------- faulty operations under reordering

  lemma TwicePermutes(a: seq<Applied>, b: seq<Applied>, op: Id)
    requires multiset(a) == multiset(b) && ClaimedTwice(a, op)
    ensures ClaimedTwice(b, op)
  {
    var i, j :| 0 <= i < j < |a| && a[i].op == op && a[j].op == op;
    assert a[i] in multiset(b);
    var p :| 0 <= p < |b| && b[p] == a[i];
    MultisetWithout(a, i);
    MultisetWithout(b, p);
    ClaimedElsewhere(a, i, j, b, p);
  }

  lemma ClaimedElsewhere(a: seq<Applied>, i: nat, j: nat, b: seq<Applied>, p: nat)
    requires i < j < |a| && p < |b| && b[p].op == a[j].op
    requires multiset(a[..i] + a[i + 1..]) == multiset(b[..p] + b[p + 1..])
    ensures ClaimedTwice(b, a[j].op)
  {
    var ra, rb := a[..i] + a[i + 1..], b[..p] + b[p + 1..];
    assert ra[j - 1] == a[j];
    assert a[j] in multiset(rb);
    var q :| 0 <= q < |rb| && rb[q] == a[j];
    assert q < p ==> b[q] == a[j];
    assert q >= p ==> b[q + 1] == a[j];
  }

  lemma FaultyPermutes(groups: seq<Group>, a: seq<Applied>, b: seq<Applied>, op: Id)
    requires multiset(a) == multiset(b) && Faulty(groups, a, op)
    ensures Faulty(groups, b, op)
  {
    if ClaimedTwice(a, op) {
      TwicePermutes(a, b, op);
    } else {
      MultisetToSet(a, b);
      var c :| c in a && c.op == op && !BelongsTo(groups, op, c.group);
      assert c in ToSet(b);
    }
  }

  /** Claims are false exactly when some operation is faulty. */
  lemma FalseMeansFaulty(groups: seq<Group>, applied: seq<Applied>)
    ensures AppliedTruth(groups, applied) <==> forall op :: !Faulty(groups, applied, op)
  {
    TruthByMembers(groups, applied);
    if !AppliedTruth(groups, applied) {
      if a :| a in applied && !BelongsTo(groups, a.op, a.group) {
        assert Faulty(groups, applied, a.op);
      } else {
        var i, j :| 0 <= i < j < |applied| && applied[i].op == applied[j].op;
        assert Faulty(groups, applied, applied[i].op);
      }
    }
  }

  /** What is reported is about a faulty operation. */
  lemma ReportedIsFaulty(groups: seq<Group>, applied: seq<Applied>, i: nat, e: PlanError)
    requires AppliedFaultAt(groups, applied, i, e)
    ensures e == FaultOf(groups, applied[i].op) && Faulty(groups, applied, applied[i].op)
  {
    if BelongsTo(groups, applied[i].op, applied[i].group) {
      var k :| 0 <= k < i && applied[k].op == applied[i].op;
      assert ClaimedTwice(applied, applied[i].op);
    } else {
      assert applied[i] in applied;
    }
  }

  // ---------------------------------------------------------------- an order that reports a given operation

  lemma BadClaimFirst(groups: seq<Group>, b: seq<Applied>)
    requires b != [] && !BelongsTo(groups, b[0].op, b[0].group)
    ensures Reports(groups, b, FaultOf(groups, b[0].op))
  {
    assert b[..0] == [];
    assert !AppliedOkAt(groups, b, 0);
    assert AppliedFaultAt(groups, b, 0, FaultOf(groups, b[0].op));
  }

  lemma TwiceFirst(groups: seq<Group>, b: seq<Applied>)
    requires |b| >= 2 && b[0].op == b[1].op
    ensures Reports(groups, b, FaultOf(groups, b[0].op))
  {
    if BelongsTo(groups, b[0].op, b[0].group) {
      assert b[..1] == [b[0]];
      assert AppliedOkAt(groups, b[..1], 0);
      assert !AppliedOkAt(groups, b, 1);
      assert AppliedFaultAt(groups, b, 1, FaultOf(groups, b[0].op));
    } else {
      BadClaimFirst(groups, b);
    }
  }

  lemma TwiceMadeFirst(applied: seq<Applied>, i: nat, j: nat) returns (b: seq<Applied>)
    requires i < j < |applied|
    ensures multiset(b) == multiset(applied) && |b| >= 2 && b[0] == applied[i] && b[1] == applied[j]
  {
    var c := MovedToFront(applied, j);
    MovingPermutes(applied, j);
    MovedBehind(applied, j, i);
    b := MovedToFront(c, i + 1);
    MovingPermutes(c, i + 1);
    MovedBehind(c, i + 1, 0);
  }

  /** Every faulty operation is the one reported in some order of the claims. */
  lemma MadeToReport(groups: seq<Group>, applied: seq<Applied>, op: Id) returns (b: seq<Applied>)
    requires Faulty(groups, applied, op)
    ensures multiset(b) == multiset(applied) && Reports(groups, b, FaultOf(groups, op))
  {
    if ClaimedTwice(applied, op) {
      var i, j :| 0 <= i < j < |applied| && applied[i].op == op && applied[j].op == op;
      b := TwiceMadeFirst(applied, i, j);
      TwiceFirst(groups, b);
    } else {
      var a :| a in applied && a.op == op && !BelongsTo(groups, op, a.group);
      var i :| 0 <= i < |applied| && applied[i] == a;
      b := MovedToFront(applied, i);
      MovingPermutes(applied, i);
      BadClaimFirst(groups, b);
    }
  }

  // ---------------------------------------------------------------- the theorem

  lemma OneFaultyOperationIsReported(groups: seq<Group>, applied: seq<Applied>, op: Id)
    requires Faulty(groups, applied, op) && forall x :: Faulty(groups, applied, x) ==> x == op
    ensures EveryOrderReports(groups, applied, FaultOf(groups, op))
  {
    forall b: seq<Applied> | multiset(b) == multiset(applied)
      ensures Reports(groups, b, FaultOf(groups, op))
    {
      FaultyPermutes(groups, applied, b, op);
      FalseMeansFaulty(groups, b);
      assert b[..|b|] == b;
      var i := SomeFault(groups, b, |b|);
      ReportedIsFaulty(groups, b, i, FaultOf(groups, b[i].op));
      FaultyPermutes(groups, b, applied, b[i].op);
    }
  }

  /**
   False claims are reported in the same way whatever their order exactly when one operation alone is
   faulty: claimed twice, or outside its group, or unknown.
   */
  lemma FaultIgnoresOrderExactlyWhen(groups: seq<Group>, applied: seq<Applied>)
    requires !AppliedTruth(groups, applied)
    ensures (exists e :: EveryOrderReports(groups, applied, e)) <==>
            forall x, y :: Faulty(groups, applied, x) && Faulty(groups, applied, y) ==> x == y
  {
    FalseMeansFaulty(groups, applied);
    var op :| Faulty(groups, applied, op);
    if forall x, y :: Faulty(groups, applied, x) && Faulty(groups, applied, y) ==> x == y {
      OneFaultyOperationIsReported(groups, applied, op);
    } else {
      var x, y :| Faulty(groups, applied, x) && Faulty(groups, applied, y) && x != y;
      var b := MadeToReport(groups, applied, x);
      var c := MadeToReport(groups, applied, y);
      forall e
        ensures !EveryOrderReports(groups, applied, e)
      {
        if EveryOrderReports(groups, applied, e) {
          ReportIsUnique(groups, b, e, FaultOf(groups, x));
          ReportIsUnique(groups, c, e, FaultOf(groups, y));
        }
      }
    }
  }
}
