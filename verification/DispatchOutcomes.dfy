/**
 What every privileged operation does, read off the text of its request and the machine: when it is accepted,
 when it is refused, what is there afterwards, and what each failure reports.
 */
module DispatchOutcomes {
  import opened Collections
  import opened CanonicalJson
  import opened Text
  import opened Dispatchers

  /** The client is the interactive user whose token the session holds. */
  predicate ClientVerified(c: Context) {
    && c.lease == Some(Lease(c.interactiveSessionId, c.interactiveLogonSid))
    && c.processId != 0 && !Blank(c.processImageHash)
    && c.interactiveSessionId != 0 && !Blank(c.interactiveLogonSid)
  }

  predicate Addressed(c: Context, r: Request, version: string) {
    c.stepId == r.requestId && c.operationVersionId == version
  }

  /** Every call of the power port succeeds and nothing is lost on the way back. */
  predicate AllGoesWell(s: Script) {
    s.lease.Ran? && s.preflight && s.activeReadable && s.targetReadable && s.mutation.Done?
  }

  /** The scheme is there under the managed name and description. */
  predicate Managed(w: World, id: SchemeId) {
    && id in w.schemes && w.schemes[id].friendlyName == "Liiiraa Verificado"
    && w.schemes[id].description == "Liiiraa Boost managed clone; activation alone makes no performance claim."
  }

  // ---------------------------------------------------------------- operation by operation

  /** An activation succeeds exactly when the expected scheme is active and the target is managed. */
  lemma Activation(m: Machine, r: Request, c: Context, s: Script, target: string, expected: string)
    requires ActiveExists(m.world) && r.operation == Activate(target, expected)
    requires Addressed(c, r, "power-scheme-v1") && ClientVerified(c) && AllGoesWell(s)
    ensures var (after, reply) := DispatchOf(m, r, c, s);
            var t, e := ParseSchemeId(target), ParseSchemeId(expected);
            if t.None? || e.None? then
              reply == Err(InvalidMessage) && after == m
            else if m.world.active == e.value && Managed(m.world, t.value) then
              && reply == Ok(AcceptedReply(r.requestId))
              && after.world.active == t.value && after.world.schemes == m.world.schemes
            else
              reply == Ok(RejectedReply(r.requestId, "power-scheme-drift")) && after.world == m.world
  {
  }

  /** A duplication succeeds exactly when its source is active and its destination free. */
  lemma Duplication(m: Machine, r: Request, c: Context, s: Script, source: string, destination: string)
    requires ActiveExists(m.world) && r.operation == Duplicate(source, destination)
    requires Addressed(c, r, "power-scheme-v1") && ClientVerified(c) && AllGoesWell(s)
    ensures var (after, reply) := DispatchOf(m, r, c, s);
            var f, t := ParseSchemeId(source), ParseSchemeId(destination);
            if f.None? || t.None? then
              reply == Err(InvalidMessage) && after == m
            else if m.world.active == f.value && t.value !in m.world.schemes then
              && reply == Ok(AcceptedReply(r.requestId))
              && after.world.active == m.world.active && Managed(after.world, t.value)
              && after.world.schemes.Keys == m.world.schemes.Keys + {t.value}
              && after.world.schemes[t.value].fingerprint == m.world.schemes[f.value].fingerprint
              && (forall id :: id in m.world.schemes ==> after.world.schemes[id] == m.world.schemes[id])
            else
              reply == Ok(RejectedReply(r.requestId, "power-scheme-drift")) && after.world == m.world
  {
  }

  /** A deletion succeeds exactly when its scheme is managed, not active, and has the expected fingerprint. */
  lemma Deletion(m: Machine, r: Request, c: Context, s: Script, victim: string, expectedHash: string)
    requires ActiveExists(m.world) && r.operation == Delete(victim, expectedHash)
    requires Addressed(c, r, "power-scheme-v1") && ClientVerified(c) && AllGoesWell(s)
    ensures var (after, reply) := DispatchOf(m, r, c, s);
            var v := ParseSchemeId(victim);
            if v.None? then
              reply == Err(InvalidMessage) && after == m
            else if Managed(m.world, v.value) && m.world.active != v.value
                    && m.world.schemes[v.value].fingerprint == expectedHash then
              && reply == Ok(AcceptedReply(r.requestId))
              && after.world.active == m.world.active && after.world.schemes == m.world.schemes - {v.value}
            else
              reply == Ok(RejectedReply(r.requestId, "power-scheme-conflict")) && after.world == m.world
  {
  }

  /** An observation needs neither preflight nor target and changes nothing. */
  lemma Observation(m: Machine, r: Request, c: Context, s: Script)
    requires ActiveExists(m.world) && r.operation == Observe
    requires Addressed(c, r, "power-scheme-v1") && ClientVerified(c) && s.lease.Ran?
    ensures var (after, reply) := DispatchOf(m, r, c, s);
            && after.world == m.world
            && reply == if s.activeReadable then Ok(AcceptedReply(r.requestId)) else Err(InvalidMessage)
  {
  }

  /** A restore point is prepared for the transaction of its own request only, without entering the client's context. */
  lemma RestorePoint(m: Machine, r: Request, c: Context, s: Script, transactionId: string)
    requires r.operation == PrepareRestorePoint(transactionId)
    requires Addressed(c, r, "restore-point-v1") && ClientVerified(c)
    ensures var (after, reply) := DispatchOf(m, r, c, s);
            && after.world == m.world
            && reply == if transactionId != c.transactionId then Err(InvalidMessage)
                        else if s.restorePointAllowed then Ok(AcceptedReply(r.requestId))
                        else Ok(UnavailableReply(r.requestId, "restore-point-unavailable"))
  {
  }

  // ---------------------------------------------------------------- refusals and failures

  /** A power operation whose scheme identifiers can be read. */
  predicate IdentifiersParse(op: Operation) {
    match op
    case Observe => true
    case Duplicate(source, destination) => ParseSchemeId(source).Some? && ParseSchemeId(destination).Some?
    case Activate(target, expected) => ParseSchemeId(target).Some? && ParseSchemeId(expected).Some?
    case Delete(victim, _) => ParseSchemeId(victim).Some?
    case PrepareRestorePoint(_) => false
  }

  function VersionFor(op: Operation): string {
    match op
    case PrepareRestorePoint(_) => "restore-point-v1"
    case _ => "power-scheme-v1"
  }

  /** A dispatch for another step or version, or not for the verified client, is refused before anything is done. */
  lemma Refusal(m: Machine, r: Request, c: Context, s: Script)
    requires !Addressed(c, r, VersionFor(r.operation)) || !ClientVerified(c)
    ensures var (after, reply) := DispatchOf(m, r, c, s);
            && after.world == m.world
            && (!Addressed(c, r, VersionFor(r.operation)) ==> after == m && reply == Err(InvalidMessage))
            && (Addressed(c, r, VersionFor(r.operation)) && !r.operation.PrepareRestorePoint? ==>
                  after == m && (reply == Err(AuthenticationFailed) || reply == Err(InvalidMessage)))
            && (Addressed(c, r, VersionFor(r.operation)) && IdentifiersParse(r.operation) ==> reply == Err(AuthenticationFailed))
            && (Addressed(c, r, VersionFor(r.operation)) && c.lease.None? ==> reply == Err(AuthenticationFailed))
  {
  }

  /** A worker that refuses, or loses the answer, reports its own reason; only the latter may have changed anything. */
  lemma WorkerFailure(m: Machine, r: Request, c: Context, s: Script)
    requires Addressed(c, r, "power-scheme-v1") && ClientVerified(c) && IdentifiersParse(r.operation)
    ensures s.lease.RefusedBefore? ==> DispatchOf(m, r, c, s) == (m, Err(s.lease.refusal))
    ensures s.lease.LostAfter? ==>
              && DispatchOf(m, r, c, s).1 == Err(s.lease.loss) && DispatchOf(m, r, c, s).0.audits == m.audits
              && DispatchOf(m, r, c, s).0.world == DispatchOf(m, r, c, s.(lease := Ran)).0.world
  {
  }

  /** A refused preflight, an unreadable scheme and a refused mutation are reported as invalid and change nothing. */
  lemma PortFailure(m: Machine, r: Request, c: Context, s: Script)
    requires ActiveExists(m.world) && s.lease.Ran?
    requires Addressed(c, r, "power-scheme-v1") && ClientVerified(c) && IdentifiersParse(r.operation)
    ensures !s.activeReadable || (!s.preflight && !r.operation.Observe?) ==>
              DispatchOf(m, r, c, s) == (m, Err(InvalidMessage))
    ensures !s.targetReadable && (r.operation.Activate? || r.operation.Delete?) ==>
              DispatchOf(m, r, c, s) == (m, Err(InvalidMessage))
    ensures s.mutation.Refused? && !r.operation.Observe? && DispatchOf(m, r, c, s).1.Ok? ==>
              DispatchOf(m, r, c, s).1 == Ok(RejectedReply(r.requestId, if r.operation.Delete? then "power-scheme-conflict"
                                                                        else "power-scheme-drift"))
    ensures s.mutation.Refused? ==> DispatchOf(m, r, c, s).0.world == m.world
  {
    ReplyKindsDiffer(r.requestId, DriftReason(r.operation), "");
  }

  /** Under a worker that runs, whatever goes wrong with the port is reported as an invalid message. */
  lemma PortErrorIsInvalid(m: Machine, r: Request, c: Context, s: Script)
    requires ActiveExists(m.world) && s.lease.Ran?
    requires Addressed(c, r, VersionFor(r.operation)) && ClientVerified(c)
    ensures DispatchOf(m, r, c, s).1.Err? ==> DispatchOf(m, r, c, s).1 == Err(InvalidMessage)
  {
  }

  /** What an unfinished duplication leaves has its source's fingerprint, and is owned only as its source is described. */
  lemma UnfinishedCopy(w: World, destination: SchemeId, m: MutationOutcome, id: SchemeId)
    requires ActiveExists(w) && destination !in w.schemes
    requires id !in w.schemes && id in HalfCopied(w, destination, m).schemes
    ensures var source, copy := w.schemes[w.active], HalfCopied(w, destination, m).schemes[id];
            && copy.fingerprint == source.fingerprint && copy.description == source.description
            && match m
               case Stray(elsewhere) => id == elsewhere && copy == source
               case Unnamed => id == destination && copy == source
               case Undescribed => id == destination && copy.friendlyName == "Liiiraa Verificado"
               case _ => false
  {
  }

  // ---------------------------------------------------------------- identifiers

  /** A scheme identifier is its number in base 16, hyphens anywhere or nowhere, not zero and below 2^128. */
  lemma SchemeIdReadsBack(n: nat)
    ensures ParseSchemeId(Hexadecimal(n)) ==
            if 0 < n < 0x1_0000_0000_0000_0000_0000_0000_0000_0000 then Some(SchemeId(n)) else None
  {
    HexadecimalRoundTrip(n);
    ParseHexReadsBack(n, U128_LIMIT);
    forall i | 0 <= i < |Hexadecimal(n)|
      ensures Hexadecimal(n)[i] != '-'
    {
      assert HexDigit(Hexadecimal(n)[i]).Some?;
    }
    OthersAreKept(Hexadecimal(n));
  }

  lemma HyphensDoNotMatter(a: string, b: string)
    ensures ParseSchemeId(a + "-" + b) == ParseSchemeId(a + b)
  {
    HyphensAreDropped(a, b);
  }

  // ---------------------------------------------------------------- what replies and audits say

  predicate Says(document: Json, key: string, text: string) {
    document.Object? && Member(key, Str(text)) in document.members
  }

  /** A document of schema version 1.0 with `size` members, whose completion time is a constant. */
  predicate Stamped(document: Json, size: nat) {
    && document.Object? && |document.members| == size
    && Says(document, "schemaVersion", "1.0") && Says(document, "completedAt", "1970-01-01T00:00:00Z")
  }

  /** Every reply names its request, its kind and its outcome; a refusal names its reason. */
  lemma RepliesSay(requestId: string, reason: string)
    ensures var d := AcceptedReply(requestId);
            Says(d, "kind", "broker-accepted-response") && Says(d, "requestId", requestId) && Says(d, "outcome", "accepted")
            && Says(d, "responseId", "dispatch-" + requestId) && Stamped(d, 6)
    ensures var d := RejectedReply(requestId, reason);
            Says(d, "kind", "broker-rejected-response") && Says(d, "requestId", requestId) && Says(d, "outcome", "rejected")
            && Says(d, "reasonCode", reason) && Says(d, "responseId", "dispatch-" + requestId) && Stamped(d, 7)
    ensures var d := UnavailableReply(requestId, reason);
            Says(d, "kind", "broker-unavailable-response") && Says(d, "requestId", requestId)
            && Says(d, "outcome", "unavailable") && Says(d, "reasonCode", reason)
            && Says(d, "responseId", "dispatch-" + requestId) && Stamped(d, 7)
  {
    ReplySays("broker-accepted-response", requestId, "accepted", None);
    ReplySays("broker-rejected-response", requestId, "rejected", Some(reason));
    ReplySays("broker-unavailable-response", requestId, "unavailable", Some(reason));
  }

  lemma ReplySays(kind: string, requestId: string, outcome: string, reason: Option<string>)
    ensures var d := Reply(kind, requestId, outcome, reason);
            && Says(d, "kind", kind) && Says(d, "requestId", requestId) && Says(d, "outcome", outcome)
            && Says(d, "responseId", "dispatch-" + requestId) && Stamped(d, if reason.Some? then 7 else 6)
            && (reason.Some? ==> Says(d, "reasonCode", reason.value))
  {
    var all := Reply(kind, requestId, outcome, reason).members;
    assert all[0] in all && all[1] in all && all[2] in all && all[3] in all && all[4] in all && all[|all| - 1] in all;
    assert reason.Some? ==> all[5] == Member("reasonCode", Str(reason.value));
  }

  /** The audit of a reply names the operation by its registered name. */
  lemma AuditsName(m: Machine, r: Request, c: Context, s: Script)
    requires DispatchOf(m, r, c, s).1.Ok?
    ensures var audits := DispatchOf(m, r, c, s).0.audits;
            && audits != []
            && var last := audits[|audits| - 1];
               && last.transactionId == c.transactionId && last.requestId == r.requestId
               && last.operationVersionId == c.operationVersionId
               && last.operation == match r.operation
                                    case Observe => "observe-power-scheme"
                                    case Duplicate(_, _) => "duplicate-managed-power-scheme"
                                    case Activate(_, _) => "activate-managed-power-scheme"
                                    case Delete(_, _) => "delete-owned-power-scheme"
                                    case PrepareRestorePoint(_) => "prepare-restore-point"
  {
  }
}
