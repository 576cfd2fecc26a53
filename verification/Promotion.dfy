/**
 The exact-version promotion ledger: four validation stages in order, for one immutable build, each naming
 its predecessor; a failure or a revocation is final for the version.
 */
module Promotion {
  import opened Collections
  import opened CanonicalJson
  import opened Text

  datatype Stage = DeterministicSimulation | CleanWindowsVm | OwnerPc | FriendsPc

  datatype Verdict = Pending | Passed | FailedVerdict | BlockedVerdict | RevokedVerdict

  datatype RestartEvidence = NotRequired | RequiredButMissing | Completed

  datatype EvidenceId = EvidenceId(id: string, hash: string)

  datatype StageEvidence = StageEvidence(
    operationVersionId: string,
    immutableBuildId: string,
    stage: Stage,
    evidence: seq<EvidenceId>,
    recoveryPrepared: bool,
    applied: bool,
    verifiedAfterApply: bool,
    restart: RestartEvidence,
    restored: bool,
    verifiedAfterRestore: bool,
    testedHardwareIds: seq<string>,
    coverageGaps: seq<string>)

  /** A promotion document; only the first stage names no predecessor. */
  datatype Document =
    | SimulationDocument(common: Common)
    | VmDocument(common: Common, previous: string)
    | OwnerDocument(common: Common, previous: string)
    | FriendsDocument(common: Common, previous: string)

  datatype Common = Common(operationVersionId: string, promotionId: string, verdict: Verdict, evidence: seq<EvidenceId>)

  datatype Request = Request(candidate: Document, evidence: StageEvidence)

  datatype Revocation = Revocation(operationVersionId: string, recoveryRemainsAvailable: bool, signature: string)

  /** What the ledger remembers of the latest accepted promotion. */
  datatype Accepted = Accepted(stage: Stage, promotionId: string, immutableBuildId: string)

  datatype Ledger = Ledger(latest: Option<Accepted>, failed: bool, revoked: bool)

  const EmptyLedger := Ledger(None, false, false)

  datatype BlockReason =
    | MissingPreviousStage
    | PreviousStageNotPassed
    | VersionMismatch
    | StageSkipped
    | EvidenceIncomplete
    | StageFailed
    | VersionRevoked

  datatype Decision =
    | Promoted(operationVersionId: string, immutableBuildId: string, stage: Stage, coverageGaps: seq<string>,
               next: Option<Stage>)
    | Blocked(reason: BlockReason)

  function Next(s: Stage): Option<Stage> {
    match s
    case DeterministicSimulation => Some(CleanWindowsVm)
    case CleanWindowsVm => Some(OwnerPc)
    case OwnerPc => Some(FriendsPc)
    case FriendsPc => None
  }

  function StageOf(d: Document): Stage {
    match d
    case SimulationDocument(_) => DeterministicSimulation
    case VmDocument(_, _) => CleanWindowsVm
    case OwnerDocument(_, _) => OwnerPc
    case FriendsDocument(_, _) => FriendsPc
  }

  function PreviousOf(d: Document): Option<string> {
    if d.SimulationDocument? then None else Some(d.previous)
  }

  // ---------------------------------------------------------------- evidence

  predicate EvidenceLeq(a: EvidenceId, b: EvidenceId) {
    if a.id == b.id then StringLeq(a.hash, b.hash) else StringLeq(a.id, b.id)
  }

  lemma EvidenceOrder()
    ensures TotalOrder(EvidenceLeq) && TotalOrder(StringLeq)
  {
    KeyOrders();
    forall a, b
      ensures StringLeq(a, b) && StringLeq(b, a) ==> a == b
    {
      StringLeqTotal(a, b);
    }
    forall a, b, c | EvidenceLeq(a, b) && EvidenceLeq(b, c)
      ensures EvidenceLeq(a, c)
    {
      assert StringLeq(a.id, b.id) && StringLeq(b.id, c.id) by {
        StringLeqTotal(a.id, a.id);
        StringLeqTotal(c.id, c.id);
      }
    }
  }

  /** No two neighbours are equal. */
  predicate NoNeighboursEqual<T(==)>(s: seq<T>) {
    |s| < 2 || (s[0] != s[1] && NoNeighboursEqual(s[1..]))
  }

  predicate AllUnique<T(==)>(leq: (T, T) -> bool, s: seq<T>) {
    NoNeighboursEqual(Sort(leq, s))
  }

  predicate SameEvidence<T(==)>(leq: (T, T) -> bool, left: seq<T>, right: seq<T>) {
    AllUnique(leq, left) && AllUnique(leq, right) && Sort(leq, left) == Sort(leq, right)
  }

  lemma {:induction false} SortedNeighbours<T(!new)>(leq: (T, T) -> bool, s: seq<T>)
    requires TotalOrder(leq) && SortedBy(leq, s)
    ensures NoNeighboursEqual(s) <==> Distinct(s)
  {
    if |s| >= 2 {
      SortedNeighbours(leq, s[1..]);
      if NoNeighboursEqual(s) {
        forall i, j | 0 <= i < j < |s|
          ensures s[i] != s[j]
        {
          if i == 0 && j > 1 {
            assert leq(s[0], s[1]) && leq(s[1], s[j]);
          } else if i > 0 {
            assert s[1..][i - 1] != s[1..][j - 1];
          }
        }
      }
      if Distinct(s) {
        assert forall i, j :: 0 <= i < j < |s| - 1 ==> s[1..][i] == s[i + 1] && s[1..][j] == s[j + 1];
      }
    }
  }

  /** Sorting and comparing neighbours decides whether a list is free of duplicates. */
  lemma AllUniqueMeansDistinct<T(!new)>(leq: (T, T) -> bool, s: seq<T>)
    requires TotalOrder(leq)
    ensures AllUnique(leq, s) <==> Distinct(s)
  {
    SortSorted(leq, s);
    SortPermutes(leq, s);
    PermutationDistinct(Sort(leq, s), s);
    SortedNeighbours(leq, Sort(leq, s));
  }

  lemma TotalIsTieless<T(!new)>(leq: (T, T) -> bool, s: seq<T>)
    requires TotalOrder(leq)
    ensures Tieless(leq, s)
  {
  }

  /** The sort-based comparison is equality of duplicate-free lists as sets. */
  lemma SameEvidenceMeansSameSet<T(!new)>(leq: (T, T) -> bool, left: seq<T>, right: seq<T>)
    requires TotalOrder(leq)
    ensures SameEvidence(leq, left, right) <==>
            Distinct(left) && Distinct(right) && forall x :: x in left <==> x in right
  {
    var a, b := Sort(leq, left), Sort(leq, right);
    AllUniqueMeansDistinct(leq, left);
    AllUniqueMeansDistinct(leq, right);
    SortPermutes(leq, left);
    SortPermutes(leq, right);
    assert forall x :: x in left <==> x in multiset(left);
    assert forall x :: x in right <==> x in multiset(right);
    if Distinct(left) && Distinct(right) && forall x :: x in left <==> x in right {
      DistinctByCount(left);
      DistinctByCount(right);
      assert multiset(left) == multiset(right) by {
        forall x
          ensures multiset(left)[x] == multiset(right)[x]
        {
          assert x in multiset(left) <==> x in multiset(right);
        }
      }
      SortSorted(leq, left);
      SortSorted(leq, right);
      TotalIsTieless(leq, a);
      TotalIsTieless(leq, b);
      SortedUnique(leq, a, b);
    }
  }

  predicate IsHexDigit(c: char) {
    '0' <= c <= '9' || 'a' <= c <= 'f' || 'A' <= c <= 'F'
  }

  predicate WellFormedEvidence(e: EvidenceId) {
    && 0 < |e.id| <= 128
    && |e.hash| == 71 && e.hash[..7] == "sha256:"
    && forall i :: 7 <= i < 71 ==> IsHexDigit(e.hash[i])
  }

  predicate Complete(e: StageEvidence) {
    && e.recoveryPrepared && e.applied && e.verifiedAfterApply && e.restart != RequiredButMissing
    && e.restored && e.verifiedAfterRestore
    && e.evidence != [] && (forall i :: 0 <= i < |e.evidence| ==> WellFormedEvidence(e.evidence[i]))
    && AllUnique(EvidenceLeq, e.evidence)
    && e.testedHardwareIds != [] && AllUnique(StringLeq, e.testedHardwareIds)
    && e.coverageGaps != [] && AllUnique(StringLeq, e.coverageGaps)
  }

  // ---------------------------------------------------------------- the ledger of one version

  /** Why the candidate does not follow the latest accepted promotion, if it does not. */
  function Misplaced(latest: Option<Accepted>, r: Request): Option<BlockReason> {
    match latest
    case None =>
      if StageOf(r.candidate) != DeterministicSimulation then Some(MissingPreviousStage)
      else if PreviousOf(r.candidate).Some? then Some(StageSkipped)
      else None
    case Some(previous) =>
      if previous.immutableBuildId != r.evidence.immutableBuildId then Some(VersionMismatch)
      else if Next(previous.stage) != Some(StageOf(r.candidate)) then Some(StageSkipped)
      else if PreviousOf(r.candidate) != Some(previous.promotionId) then Some(VersionMismatch)
      else None
  }

  function Judge(l: Ledger, r: Request): (Ledger, Decision) {
    var c := r.candidate.common;
    if l.revoked || c.verdict == RevokedVerdict then (l.(revoked := true), Blocked(VersionRevoked))
    else if l.failed then (l, Blocked(StageFailed))
    else if c.operationVersionId != r.evidence.operationVersionId then (l, Blocked(VersionMismatch))
    else if StageOf(r.candidate) != r.evidence.stage then (l, Blocked(StageSkipped))
    else if !Complete(r.evidence) || !SameEvidence(EvidenceLeq, c.evidence, r.evidence.evidence) then
      (l, Blocked(EvidenceIncomplete))
    else if c.verdict == FailedVerdict then (l.(failed := true), Blocked(StageFailed))
    else if c.verdict != Passed then (l, Blocked(PreviousStageNotPassed))
    else if Misplaced(l.latest, r).Some? then (l, Blocked(Misplaced(l.latest, r).value))
    else
      (l.(latest := Some(Accepted(StageOf(r.candidate), c.promotionId, r.evidence.immutableBuildId))),
       Promoted(c.operationVersionId, r.evidence.immutableBuildId, StageOf(r.candidate), r.evidence.coverageGaps,
                Next(StageOf(r.candidate))))
  }

  // ---------------------------------------------------------------- the ledger of all versions

  type Versions = map<string, Ledger>

  function LedgerOf(v: Versions, version: string): Ledger {
    if version in v then v[version] else EmptyLedger
  }

  function EvaluateOf(v: Versions, r: Request): (Versions, Decision) {
    var version := r.candidate.common.operationVersionId;
    var (ledger, decision) := Judge(LedgerOf(v, version), r);
    (v[version := ledger], decision)
  }

  function RevokeOf(verified: Revocation -> bool, v: Versions, d: Revocation): (Versions, bool) {
    if !d.recoveryRemainsAvailable || !verified(d) then (v, false)
    else (v[d.operationVersionId := LedgerOf(v, d.operationVersionId).(revoked := true)], true)
  }

  predicate BlocksNewApplications(v: Versions, version: string) {
    LedgerOf(v, version).revoked
  }

  class ExactVersionPromotionPolicy {
    const verified: Revocation -> bool
    var versions: Versions

    constructor (verified: Revocation -> bool)
      ensures versions == map[] && this.verified == verified
    {
      this.verified := verified;
      versions := map[];
    }

    method Evaluate(r: Request) returns (decision: Decision)
      modifies this
      ensures (versions, decision) == EvaluateOf(old(versions), r)
    {
      var c := r.candidate.common;
      var key := c.operationVersionId;
      if key !in versions {
        versions := versions[key := EmptyLedger];
      }
      var ledger := versions[key];
      assert versions == old(versions)[key := ledger];
      if ledger.revoked || c.verdict == RevokedVerdict {
        versions := versions[key := ledger.(revoked := true)];
        assert versions == old(versions)[key := ledger.(revoked := true)];
        return Blocked(VersionRevoked);
      }
      if ledger.failed {
        return Blocked(StageFailed);
      }
      if c.operationVersionId != r.evidence.operationVersionId {
        return Blocked(VersionMismatch);
      }
      if StageOf(r.candidate) != r.evidence.stage {
        return Blocked(StageSkipped);
      }
      if !Complete(r.evidence) || !SameEvidence(EvidenceLeq, c.evidence, r.evidence.evidence) {
        return Blocked(EvidenceIncomplete);
      }
      if c.verdict == FailedVerdict {
        versions := versions[key := ledger.(failed := true)];
        assert versions == old(versions)[key := ledger.(failed := true)];
        return Blocked(StageFailed);
      }
      if c.verdict != Passed {
        return Blocked(PreviousStageNotPassed);
      }
      var misplaced := Misplaced(ledger.latest, r);
      if misplaced.Some? {
        return Blocked(misplaced.value);
      }
      var accepted := Accepted(StageOf(r.candidate), c.promotionId, r.evidence.immutableBuildId);
      versions := versions[key := ledger.(latest := Some(accepted))];
      assert versions == old(versions)[key := ledger.(latest := Some(accepted))];
      return Promoted(c.operationVersionId, r.evidence.immutableBuildId, StageOf(r.candidate),
                      r.evidence.coverageGaps, Next(StageOf(r.candidate)));
    }

    method VerifyRevocation(d: Revocation) returns (accepted: bool)
      modifies this
      ensures (versions, accepted) == RevokeOf(verified, old(versions), d)
    {
      if !d.recoveryRemainsAvailable || !verified(d) {
        return false;
      }
      var ledger := if d.operationVersionId in versions then versions[d.operationVersionId] else EmptyLedger;
      versions := versions[d.operationVersionId := ledger.(revoked := true)];
      return true;
    }

    method NewApplicationsBlocked(version: string) returns (blocked: bool)
      ensures blocked == BlocksNewApplications(versions, version)
    {
      return version in versions && versions[version].revoked;
    }
  }

  // ---------------------------------------------------------------- runs

  datatype Event = Evaluate(request: Request) | Revoke(document: Revocation)

  function VersionOf(ev: Event): string {
    match ev
    case Evaluate(r) => r.candidate.common.operationVersionId
    case Revoke(d) => d.operationVersionId
  }

  /** A promotion as it was accepted. */
  datatype Entry = Entry(version: string, stage: Stage, promotionId: string, previous: Option<string>, build: string)

  datatype Run = Run(versions: Versions, log: seq<Entry>)

  const Start := Run(map[], [])

  function EntryFor(r: Request): Entry {
    Entry(r.candidate.common.operationVersionId, StageOf(r.candidate), r.candidate.common.promotionId,
          PreviousOf(r.candidate), r.evidence.immutableBuildId)
  }

  function Step(verified: Revocation -> bool, s: Run, ev: Event): Run {
    match ev
    case Evaluate(r) =>
      var (versions, decision) := EvaluateOf(s.versions, r);
      Run(versions, if decision.Promoted? then s.log + [EntryFor(r)] else s.log)
    case Revoke(d) => s.(versions := RevokeOf(verified, s.versions, d).0)
  }

  function Steps(verified: Revocation -> bool, s: Run, events: seq<Event>): Run
    decreases |events|
  {
    if events == [] then s else Steps(verified, Step(verified, s, events[0]), events[1..])
  }

  /** The promotions of one version, in order. */
  function Of(log: seq<Entry>, version: string): seq<Entry> {
    if log == [] then []
    else
      var front, last := Of(log[..|log| - 1], version), log[|log| - 1];
      if last.version == version then front + [last] else front
  }

  const Stages: seq<Stage> := [DeterministicSimulation, CleanWindowsVm, OwnerPc, FriendsPc]

  /** A prefix of the four stages, of one build, each naming the promotion before it. */
  ghost predicate IsChain(entries: seq<Entry>) {
    && |entries| <= 4
    && (forall i :: 0 <= i < |entries| ==> entries[i].stage == Stages[i])
    && (forall i :: 0 <= i < |entries| ==> entries[i].build == entries[0].build)
    && (forall i :: 0 <= i < |entries| ==> entries[i].previous == PromotionBefore(entries, i))
  }

  function PromotionBefore(entries: seq<Entry>, i: nat): Option<string>
    requires i <= |entries|
  {
    if i == 0 then None else Some(entries[i - 1].promotionId)
  }

  ghost predicate LedgerAgrees(l: Ledger, entries: seq<Entry>) {
    l.latest == if entries == [] then None
                else var last := entries[|entries| - 1];
                     Some(Accepted(last.stage, last.promotionId, last.build))
  }

  ghost predicate Inv(s: Run) {
    forall v :: VersionOk(s, v)
  }

  lemma OfSnoc(log: seq<Entry>, e: Entry, v: string)
    ensures Of(log + [e], v) == if e.version == v then Of(log, v) + [e] else Of(log, v)
  {
    assert (log + [e])[..|log|] == log;
  }

  /** A promotion that fits the ledger extends the chain. */
  lemma PromotionExtendsChain(l: Ledger, r: Request, entries: seq<Entry>)
    requires IsChain(entries) && LedgerAgrees(l, entries) && Judge(l, r).1.Promoted?
    ensures IsChain(entries + [EntryFor(r)]) && LedgerAgrees(Judge(l, r).0, entries + [EntryFor(r)])
  {
    var all := entries + [EntryFor(r)];
    if entries != [] {
      var last := entries[|entries| - 1];
      assert last.stage == Stages[|entries| - 1];
      assert Next(last.stage) == Some(StageOf(r.candidate));
      assert last.build == entries[0].build;
    }
    assert |entries| < 4 && Stages[|entries|] == StageOf(r.candidate);
    forall i | 0 <= i < |all|
      ensures all[i].previous == PromotionBefore(all, i)
    {
      assert i < |entries| ==> all[i].previous == PromotionBefore(entries, i);
    }
  }

  ghost predicate VersionOk(s: Run, v: string) {
    IsChain(Of(s.log, v)) && LedgerAgrees(LedgerOf(s.versions, v), Of(s.log, v))
  }

  lemma StepKeepsVersion(verified: Revocation -> bool, s: Run, ev: Event, v: string)
    requires VersionOk(s, v)
    ensures VersionOk(Step(verified, s, ev), v)
  {
    if ev.Evaluate? && EvaluateOf(s.versions, ev.request).1.Promoted? {
      OfSnoc(s.log, EntryFor(ev.request), v);
      if VersionOf(ev) == v {
        PromotionExtendsChain(LedgerOf(s.versions, v), ev.request, Of(s.log, v));
      }
    }
  }

  lemma StepKeepsInv(verified: Revocation -> bool, s: Run, ev: Event)
    requires Inv(s)
    ensures Inv(Step(verified, s, ev))
  {
    forall v
      ensures VersionOk(Step(verified, s, ev), v)
    {
      StepKeepsVersion(verified, s, ev, v);
    }
  }

  /** Over every run, what is accepted of a version is a chain, and the ledger points to its end. */
  lemma {:induction false} RunKeepsInv(verified: Revocation -> bool, s: Run, events: seq<Event>)
    requires Inv(s)
    ensures Inv(Steps(verified, s, events))
    decreases |events|
  {
    if events != [] {
      StepKeepsInv(verified, s, events[0]);
      RunKeepsInv(verified, Step(verified, s, events[0]), events[1..]);
    }
  }

  lemma AcceptedStagesAreAChain(verified: Revocation -> bool, events: seq<Event>, version: string)
    ensures IsChain(Of(Steps(verified, Start, events).log, version))
  {
    RunKeepsInv(verified, Start, events);
    assert VersionOk(Steps(verified, Start, events), version);
  }

  /** Exactly when a request is promoted after any run, in terms of what was accepted before. */
  lemma PromotedExactlyWhen(verified: Revocation -> bool, events: seq<Event>, r: Request)
    ensures var s, c := Steps(verified, Start, events), r.candidate.common;
            var entries, l := Of(s.log, c.operationVersionId), LedgerOf(s.versions, c.operationVersionId);
            EvaluateOf(s.versions, r).1.Promoted? <==>
            && !l.revoked && !l.failed && c.verdict == Passed
            && c.operationVersionId == r.evidence.operationVersionId && Complete(r.evidence)
            && Distinct(c.evidence) && (forall x :: x in c.evidence <==> x in r.evidence.evidence)
            && StageOf(r.candidate) == r.evidence.stage && IsChain(entries + [EntryFor(r)])
  {
    var s, c := Steps(verified, Start, events), r.candidate.common;
    var entries, l := Of(s.log, c.operationVersionId), LedgerOf(s.versions, c.operationVersionId);
    RunKeepsInv(verified, Start, events);
    assert VersionOk(s, c.operationVersionId);
    EvidenceOrder();
    SameEvidenceMeansSameSet(EvidenceLeq, c.evidence, r.evidence.evidence);
    AllUniqueMeansDistinct(EvidenceLeq, r.evidence.evidence);
    if Judge(l, r).1.Promoted? {
      PromotionExtendsChain(l, r, entries);
    }
    if IsChain(entries + [EntryFor(r)]) {
      ChainMeansPlaced(l, r, entries);
    }
  }

  lemma ChainMeansPlaced(l: Ledger, r: Request, entries: seq<Entry>)
    requires IsChain(entries) && LedgerAgrees(l, entries) && IsChain(entries + [EntryFor(r)])
    ensures Misplaced(l.latest, r).None?
  {
    var all := entries + [EntryFor(r)];
    assert all[|entries|] == EntryFor(r);
    if entries != [] {
      assert all[|entries| - 1] == entries[|entries| - 1] && all[0] == entries[0];
      assert Stages[|entries|] == StageOf(r.candidate) && Stages[|entries| - 1] == entries[|entries| - 1].stage;
    }
  }

  /** The stage that follows the first `n` stages, if there is one. */
  function StageAfter(n: nat): Option<Stage> {
    if n < 4 then Some([DeterministicSimulation, CleanWindowsVm, OwnerPc, FriendsPc][n]) else None
  }

  /**
   What a promotion reports after any run: its own version, build and coverage gaps, the stage that comes after
   the promotions accepted before, and the one after that, if any.
   */
  lemma PromotionReports(verified: Revocation -> bool, events: seq<Event>, r: Request)
    requires EvaluateOf(Steps(verified, Start, events).versions, r).1.Promoted?
    ensures var decision := EvaluateOf(Steps(verified, Start, events).versions, r).1;
            var n := |Of(Steps(verified, Start, events).log, r.candidate.common.operationVersionId)|;
            && n < 4
            && decision.operationVersionId == r.candidate.common.operationVersionId == r.evidence.operationVersionId
            && decision.immutableBuildId == r.evidence.immutableBuildId
            && decision.coverageGaps == r.evidence.coverageGaps
            && Some(decision.stage) == StageAfter(n) && decision.next == StageAfter(n + 1)
            && IsFor(r.candidate, decision.stage)
  {
    var s, v := Steps(verified, Start, events), r.candidate.common.operationVersionId;
    RunKeepsInv(verified, Start, events);
    assert VersionOk(s, v);
    PromotionExtendsChain(LedgerOf(s.versions, v), r, Of(s.log, v));
    var all := Of(s.log, v) + [EntryFor(r)];
    assert all[|all| - 1].stage == Stages[|all| - 1];
  }

  /** And what it leaves as the latest promotion of its version. */
  lemma PromotionIsRecorded(versions: Versions, r: Request)
    requires EvaluateOf(versions, r).1.Promoted?
    ensures LedgerOf(EvaluateOf(versions, r).0, r.candidate.common.operationVersionId).latest ==
            Some(Accepted(r.evidence.stage, r.candidate.common.promotionId, r.evidence.immutableBuildId))
  {
  }

  /** What makes the evidence of a stage complete. */
  lemma CompleteExactlyWhen(e: StageEvidence)
    ensures Complete(e) <==>
            && e.recoveryPrepared && e.applied && e.verifiedAfterApply && e.restored && e.verifiedAfterRestore
            && (e.restart == NotRequired || e.restart == Completed)
            && |e.evidence| > 0 && Distinct(e.evidence) && (forall x :: x in e.evidence ==> WellFormedEvidence(x))
            && |e.testedHardwareIds| > 0 && Distinct(e.testedHardwareIds)
            && |e.coverageGaps| > 0 && Distinct(e.coverageGaps)
  {
    EvidenceOrder();
    AllUniqueMeansDistinct(EvidenceLeq, e.evidence);
    AllUniqueMeansDistinct(StringLeq, e.testedHardwareIds);
    AllUniqueMeansDistinct(StringLeq, e.coverageGaps);
    if forall x :: x in e.evidence ==> WellFormedEvidence(x) {
      assert forall i :: 0 <= i < |e.evidence| ==> e.evidence[i] in e.evidence;
    }
  }

  /** The hash of a piece of evidence is a prefixed SHA-256 digest in hexadecimal. */
  lemma WellFormedEvidenceExactlyWhen(e: EvidenceId)
    ensures WellFormedEvidence(e) <==>
            && 1 <= |e.id| <= 128
            && exists digest :: e.hash == "sha256:" + digest && |digest| == 64
                                && forall i :: 0 <= i < 64 ==> HexDigit(digest[i]).Some?
  {
    if WellFormedEvidence(e) {
      var digest := e.hash[7..];
      assert e.hash == "sha256:" + digest;
      assert forall i :: 0 <= i < 64 ==> digest[i] == e.hash[7 + i];
    }
    if digest :| e.hash == "sha256:" + digest && |digest| == 64 && forall i :: 0 <= i < 64 ==> HexDigit(digest[i]).Some? {
      assert e.hash[..7] == "sha256:";
      assert forall i :: 7 <= i < 71 ==> e.hash[i] == digest[i - 7];
    }
  }

  /** The kind of document that a stage asks for. */
  predicate IsFor(d: Document, s: Stage) {
    && (d.SimulationDocument? <==> s == DeterministicSimulation)
    && (d.VmDocument? <==> s == CleanWindowsVm)
    && (d.OwnerDocument? <==> s == OwnerPc)
    && (d.FriendsDocument? <==> s == FriendsPc)
  }

  predicate NamesPrevious(d: Document, promotionId: string) {
    !d.SimulationDocument? && d.previous == promotionId
  }

  /** Why a request is blocked, exactly, in the order of the checks and in terms of what was accepted before. */
  lemma BlockedExactlyBecause(verified: Revocation -> bool, events: seq<Event>, r: Request)
    ensures var s, c, e := Steps(verified, Start, events), r.candidate.common, r.evidence;
            var entries, l := Of(s.log, c.operationVersionId), LedgerOf(s.versions, c.operationVersionId);
            var decision := EvaluateOf(s.versions, r).1;
            var alive := !l.revoked && c.verdict != RevokedVerdict && !l.failed;
            var matching := alive && c.operationVersionId == e.operationVersionId;
            var staged := matching && IsFor(r.candidate, e.stage);
            var evidenced := staged && Complete(e) && Distinct(c.evidence) && forall x :: x in c.evidence <==> x in e.evidence;
            var passed := evidenced && c.verdict == Passed;
            var sameBuild := entries == [] || entries[0].build == e.immutableBuildId;
            var inOrder := Some(e.stage) == StageAfter(|entries|);
            && (decision == Blocked(VersionRevoked) <==> l.revoked || c.verdict == RevokedVerdict)
            && (decision == Blocked(StageFailed) <==>
                  (!l.revoked && c.verdict != RevokedVerdict && l.failed) || (evidenced && c.verdict == FailedVerdict))
            && (decision == Blocked(EvidenceIncomplete) <==> staged && !evidenced)
            && (decision == Blocked(PreviousStageNotPassed) <==> evidenced && c.verdict in {Pending, BlockedVerdict})
            && (decision == Blocked(MissingPreviousStage) <==> passed && entries == [] && !inOrder)
            && (decision == Blocked(VersionMismatch) <==>
                  || (alive && c.operationVersionId != e.operationVersionId)
                  || (passed && !sameBuild)
                  || (&& passed && sameBuild && inOrder && entries != []
                      && !NamesPrevious(r.candidate, entries[|entries| - 1].promotionId)))
            && (decision == Blocked(StageSkipped) <==>
                  (matching && !IsFor(r.candidate, e.stage)) || (passed && sameBuild && entries != [] && !inOrder))
  {
    var s, c := Steps(verified, Start, events), r.candidate.common;
    var entries, l := Of(s.log, c.operationVersionId), LedgerOf(s.versions, c.operationVersionId);
    RunKeepsInv(verified, Start, events);
    assert VersionOk(s, c.operationVersionId);
    EvidenceOrder();
    SameEvidenceMeansSameSet(EvidenceLeq, c.evidence, r.evidence.evidence);
    AllUniqueMeansDistinct(EvidenceLeq, r.evidence.evidence);
    if StageOf(r.candidate) == r.evidence.stage {
      PlacedInTermsOfTheChain(l, r, entries);
    }
  }

  lemma PlacedInTermsOfTheChain(l: Ledger, r: Request, entries: seq<Entry>)
    requires IsChain(entries) && LedgerAgrees(l, entries) && StageOf(r.candidate) == r.evidence.stage
    ensures var sameBuild := entries == [] || entries[0].build == r.evidence.immutableBuildId;
            var inOrder := Some(r.evidence.stage) == StageAfter(|entries|);
            var named := entries != [] ==> PreviousOf(r.candidate) == Some(entries[|entries| - 1].promotionId);
            Misplaced(l.latest, r) ==
              if entries == [] then (if inOrder then None else Some(MissingPreviousStage))
              else if !sameBuild then Some(VersionMismatch)
              else if !inOrder then Some(StageSkipped)
              else if !named then Some(VersionMismatch)
              else None
  {
    if entries != [] {
      var last := entries[|entries| - 1];
      assert last.stage == Stages[|entries| - 1] && last.build == entries[0].build;
    }
  }

  /** A revocation is accepted when it is verified and keeps recovery available; it then blocks its version alone. */
  lemma RevocationAnswers(verified: Revocation -> bool, v: Versions, d: Revocation, version: string)
    ensures var (after, accepted) := RevokeOf(verified, v, d);
            && (accepted <==> d.recoveryRemainsAvailable && verified(d))
            && (BlocksNewApplications(after, version) <==>
                  BlocksNewApplications(v, version) || (accepted && version == d.operationVersionId))
            && (LedgerOf(after, version).failed <==> LedgerOf(v, version).failed)
            && LedgerOf(after, version).latest == LedgerOf(v, version).latest
  {
  }

  /** Failure and revocation are final, and neither they nor any blocked request move the latest promotion. */
  predicate Dead(l: Ledger) {
    l.failed || l.revoked
  }

  lemma {:induction false} DeadVersionsStayDead(verified: Revocation -> bool, s: Run, events: seq<Event>, version: string)
    requires Dead(LedgerOf(s.versions, version))
    ensures var end := Steps(verified, s, events);
            && Dead(LedgerOf(end.versions, version))
            && (LedgerOf(s.versions, version).revoked ==> LedgerOf(end.versions, version).revoked)
            && (LedgerOf(s.versions, version).failed ==> LedgerOf(end.versions, version).failed)
            && LedgerOf(end.versions, version).latest == LedgerOf(s.versions, version).latest
            && Of(end.log, version) == Of(s.log, version)
    decreases |events|
  {
    if events != [] {
      var next := Step(verified, s, events[0]);
      if events[0].Evaluate? {
        OfSnoc(s.log, EntryFor(events[0].request), version);
      }
      DeadVersionsStayDead(verified, next, events[1..], version);
    }
  }

  /** A revoked verdict, or a verified revocation that leaves recovery available. */
  predicate Revokes(verified: Revocation -> bool, ev: Event, version: string) {
    && VersionOf(ev) == version
    && match ev
       case Evaluate(r) => r.candidate.common.verdict == RevokedVerdict
       case Revoke(d) => d.recoveryRemainsAvailable && verified(d)
  }

  /** A failed verdict over complete evidence of the stage and version it is about. */
  predicate FailsStage(ev: Event, version: string) {
    && ev.Evaluate? && VersionOf(ev) == version
    && var c, e := ev.request.candidate, ev.request.evidence;
       && c.common.verdict == FailedVerdict && c.common.operationVersionId == e.operationVersionId
       && StageOf(c) == e.stage && Complete(e) && SameEvidence(EvidenceLeq, c.common.evidence, e.evidence)
  }

  ghost predicate RevokedIn(verified: Revocation -> bool, events: seq<Event>, version: string) {
    exists i :: 0 <= i < |events| && Revokes(verified, events[i], version)
  }

  /** A stage failed at `i`, before anything revoked the version. */
  ghost predicate FailsAt(verified: Revocation -> bool, events: seq<Event>, i: nat, version: string) {
    i < |events| && FailsStage(events[i], version) && !RevokedIn(verified, events[..i], version)
  }

  ghost predicate FailedIn(verified: Revocation -> bool, events: seq<Event>, version: string) {
    exists i: nat :: FailsAt(verified, events, i, version)
  }

  lemma DeadStep(verified: Revocation -> bool, s: Run, ev: Event, version: string)
    ensures var before, after := LedgerOf(s.versions, version), LedgerOf(Step(verified, s, ev).versions, version);
            && (after.revoked <==> before.revoked || Revokes(verified, ev, version))
            && (after.failed <==> before.failed || (!before.revoked && FailsStage(ev, version)))
  {
  }

  lemma RevokedInFirst(verified: Revocation -> bool, events: seq<Event>, version: string)
    requires events != []
    ensures RevokedIn(verified, events, version) <==>
            Revokes(verified, events[0], version) || RevokedIn(verified, events[1..], version)
  {
    if i :| 0 <= i < |events| && Revokes(verified, events[i], version) {
      assert i > 0 ==> events[1..][i - 1] == events[i];
    }
    if i :| 0 <= i < |events[1..]| && Revokes(verified, events[1..][i], version) {
      assert events[i + 1] == events[1..][i];
    }
  }

  lemma FailsAtFirst(verified: Revocation -> bool, events: seq<Event>, version: string)
    requires events != []
    ensures FailsAt(verified, events, 0, version) <==> FailsStage(events[0], version)
  {
    assert events[..0] == [] && !RevokedIn(verified, events[..0], version);
  }

  lemma FailsAtLater(verified: Revocation -> bool, events: seq<Event>, version: string, i: nat)
    requires events != []
    ensures FailsAt(verified, events, i + 1, version) <==>
            !Revokes(verified, events[0], version) && FailsAt(verified, events[1..], i, version)
  {
    if i + 1 < |events| {
      assert events[1..][i] == events[i + 1];
      RevokedInFirst(verified, events[..i + 1], version);
      assert events[..i + 1][1..] == events[1..][..i];
    }
  }

  lemma FailedInFirst(verified: Revocation -> bool, events: seq<Event>, version: string)
    requires events != []
    ensures FailedIn(verified, events, version) <==>
            || FailsStage(events[0], version)
            || (!Revokes(verified, events[0], version) && FailedIn(verified, events[1..], version))
  {
    FailsAtFirst(verified, events, version);
    if i: nat :| FailsAt(verified, events, i, version) {
      if i > 0 {
        FailsAtLater(verified, events, version, i - 1);
      }
    }
    if i: nat :| FailsAt(verified, events[1..], i, version) {
      FailsAtLater(verified, events, version, i);
    }
  }

  lemma {:induction false} LedgerRemembers(verified: Revocation -> bool, s: Run, events: seq<Event>, version: string)
    ensures var before, after := LedgerOf(s.versions, version), LedgerOf(Steps(verified, s, events).versions, version);
            && (after.revoked <==> before.revoked || RevokedIn(verified, events, version))
            && (after.failed <==> before.failed || (!before.revoked && FailedIn(verified, events, version)))
    decreases |events|
  {
    if events != [] {
      DeadStep(verified, s, events[0], version);
      RevokedInFirst(verified, events, version);
      FailedInFirst(verified, events, version);
      LedgerRemembers(verified, Step(verified, s, events[0]), events[1..], version);
    }
  }

  /**
   After any run a version is revoked, and new applications of it blocked, exactly when something in the run
   revoked it; it is failed exactly when a stage of it failed before that.
   */
  lemma DeadExactlyWhen(verified: Revocation -> bool, events: seq<Event>, version: string)
    ensures var end := Steps(verified, Start, events);
            && (BlocksNewApplications(end.versions, version) <==> RevokedIn(verified, events, version))
            && (LedgerOf(end.versions, version).failed <==> FailedIn(verified, events, version))
  {
    LedgerRemembers(verified, Start, events, version);
  }

  lemma BlockedMovesNothing(v: Versions, r: Request, version: string)
    requires EvaluateOf(v, r).1.Blocked?
    ensures LedgerOf(EvaluateOf(v, r).0, version).latest == LedgerOf(v, version).latest
  {
  }

  function Only(events: seq<Event>, version: string): seq<Event> {
    if events == [] then []
    else (if VersionOf(events[0]) == version then [events[0]] else []) + Only(events[1..], version)
  }

  /** Versions do not affect each other: a version fares as if no other had ever been submitted. */
  lemma {:induction false} VersionsAreIndependent(verified: Revocation -> bool, s: Run, alone: Run, events: seq<Event>,
                                                  version: string)
    requires LedgerOf(s.versions, version) == LedgerOf(alone.versions, version)
    requires Of(s.log, version) == Of(alone.log, version)
    ensures var all, only := Steps(verified, s, events), Steps(verified, alone, Only(events, version));
            && LedgerOf(all.versions, version) == LedgerOf(only.versions, version)
            && Of(all.log, version) == Of(only.log, version)
    decreases |events|
  {
    if events != [] {
      var next := Step(verified, s, events[0]);
      if events[0].Evaluate? {
        OfSnoc(s.log, EntryFor(events[0].request), version);
        OfSnoc(alone.log, EntryFor(events[0].request), version);
      }
      if VersionOf(events[0]) == version {
        var step := Only(events, version);
        assert step[0] == events[0] && step[1..] == Only(events[1..], version);
        VersionsAreIndependent(verified, next, Step(verified, alone, events[0]), events[1..], version);
      } else {
        assert Only(events, version) == Only(events[1..], version);
        VersionsAreIndependent(verified, next, alone, events[1..], version);
      }
    }
  }
}
