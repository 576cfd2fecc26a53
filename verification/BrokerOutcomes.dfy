/**
 What each call of the broker is answered, read off its inputs: which check refuses a submission, what the
 session's signature covers, what a submission cut short reports, and when a ticket is issued.
 */
module BrokerOutcomes {
  import opened Collections
  import opened CanonicalJson
  import opened DedupStores
  import opened Dispatchers
  import opened Brokers
  import opened BrokerRuns
  import opened BrokerTheorems
  import opened DispatchOutcomes
  import opened Text

  // ---------------------------------------------------------------- the checks on a submission

  /** The ticket is the one this session was opened with, and the envelope was made for it. */
  predicate OfThisSession(s: Session, ticket: Ticket, e: Envelope) {
    s.serverNonce == ticket.serverNonce && e.serverNonce == ticket.serverNonce && s.sessionKey == ticket.sessionKey
  }

  predicate Named(e: Envelope) {
    !Blank(e.transactionId) && !Blank(e.stepId) && !Blank(e.operationVersionId)
  }

  /** In time, named, not too long, and under a live session whose ticket it carries. */
  predicate WellAddressed(p: Primitives, b: BrokerState, ticket: Ticket, e: Envelope, elapsed: nat) {
    && !b.stopping && elapsed <= b.config.requestTimeoutMillis && Named(e)
    && p.encodedLength(e.request) <= b.config.maxMessageBytes
    && ticket.sessionId in b.sessions && OfThisSession(b.sessions[ticket.sessionId], ticket, e)
  }

  /** The request names its step, a restore point its transaction; counter and nonce can be used. */
  predicate WellFounded(parsed: Option<Request>, e: Envelope) {
    && parsed.Some?
    && parsed.value.requestId == e.stepId
    && (parsed.value.operation.PrepareRestorePoint? ==> parsed.value.operation.preparedFor == e.transactionId)
    && 0 <= parsed.value.counter <= 0xFFFF_FFFF
    && !Blank(parsed.value.nonce)
  }

  /** What is admitted, exactly, and what is then reserved: the request of the envelope for the session's principal. */
  lemma AdmittedExactlyWhen(p: Primitives, b: BrokerState, ticket: Ticket, signed: SignedEnvelope, elapsed: nat)
    ensures var e, admitted := signed.content, Admit(p, b, ticket, signed, elapsed);
            && (admitted.Ok? <==>
                  && WellAddressed(p, b, ticket, e, elapsed) && WellFounded(p.parse(e.request), e)
                  && signed.mac == p.mac(ticket.sessionKey, SignedDocument(e)))
            && (admitted.Ok? ==>
                  var a, q := admitted.value, admitted.value.reservation;
                  && a.session == b.sessions[ticket.sessionId] && Some(a.request) == p.parse(e.request)
                  && q.key == Key(e.transactionId, e.stepId) && q.operationVersionId == e.operationVersionId
                  && q.requestHash == p.digest(HashDocument(e)) && q.principal == a.session.principal
                  && q.nonce == a.request.nonce && q.counter == a.request.counter && q.createdAt == b.config.now)
  {
  }

  /** Which refusal is given, exactly: the first of the checks that does not hold. */
  lemma RefusalsNameTheirReason(p: Primitives, b: BrokerState, ticket: Ticket, signed: SignedEnvelope, elapsed: nat)
    ensures var e, admitted := signed.content, Admit(p, b, ticket, signed, elapsed);
            var timely := !b.stopping && elapsed <= b.config.requestTimeoutMillis;
            var short := timely && Named(e) && p.encodedLength(e.request) <= b.config.maxMessageBytes;
            var live := short && ticket.sessionId in b.sessions;
            && (admitted == Err(ServerStopping) <==> b.stopping)
            && (admitted == Err(Timeout) <==> !b.stopping && elapsed > b.config.requestTimeoutMillis)
            && (admitted == Err(MessageTooLarge) <==>
                  timely && Named(e) && p.encodedLength(e.request) > b.config.maxMessageBytes)
            && (admitted == Err(ReplayRejected) <==>
                  && live
                  && (ticket.serverNonce != b.sessions[ticket.sessionId].serverNonce
                      || e.serverNonce != b.sessions[ticket.sessionId].serverNonce))
            && (admitted == Err(AuthenticationFailed) <==>
                  || (short && ticket.sessionId !in b.sessions)
                  || (&& live && ticket.serverNonce == b.sessions[ticket.sessionId].serverNonce == e.serverNonce
                      && ticket.sessionKey != b.sessions[ticket.sessionId].sessionKey))
            && (admitted == Err(InvalidMac) <==>
                  WellAddressed(p, b, ticket, e, elapsed) && signed.mac != p.mac(ticket.sessionKey, SignedDocument(e)))
            && (admitted == Err(InvalidMessage) <==>
                  || (timely && !Named(e))
                  || (&& WellAddressed(p, b, ticket, e, elapsed)
                      && signed.mac == p.mac(ticket.sessionKey, SignedDocument(e))
                      && !WellFounded(p.parse(e.request), e)))
  {
  }

  /** A refused submission changes nothing and reports the refusal. */
  lemma RefusedSubmission(p: Primitives, r: Run, ev: Event)
    requires ev.Submit? && AdmittedBy(p, r, ev).Err?
    ensures Submitted(p, r, ev).reply == Err(AdmittedBy(p, r, ev).error) && Step(p, r, ev) == r
  {
  }

  /**
   A signature holds for one envelope: submitted with another version, step, transaction, nonce or request, it
   is refused and nothing happens, unless the keyed hash collides on the two documents.
   */
  lemma AlteredEnvelopeIsRefused(p: Primitives, r: Run, ticket: Ticket, original: Envelope, altered: Envelope,
                                 faults: Faults, elapsed: nat, script: Script)
    requires WellFormed(original.request) && WellFormed(altered.request)
    requires original.serverNonce != altered.serverNonce || !SameRequest(original, altered)
    requires p.mac(ticket.sessionKey, SignedDocument(original)) == p.mac(ticket.sessionKey, SignedDocument(altered)) ==>
               SignedDocument(original) == SignedDocument(altered)
    requires WellAddressed(p, r.broker, ticket, altered, elapsed)
    ensures var mac := p.mac(ticket.sessionKey, SignedDocument(original));
            var ev := Submit(ticket, SignedEnvelope(altered, mac), faults, elapsed, script);
            Submitted(p, r, ev).reply == Err(InvalidMac) && Step(p, r, ev) == r
  {
    SignedInputsEqualExactlyWhen(original, altered);
  }

  /** What `sign_envelope` signs for a live session is never refused for its signature. */
  lemma SignedEnvelopeHasItsMac(p: Primitives, b: BrokerState, ticket: Ticket, transactionId: string, stepId: string,
                                operationVersionId: string, request: Json, elapsed: nat)
    ensures var signed := Brokers.Signed(p, ticket, transactionId, stepId, operationVersionId, request);
            && signed.content.transactionId == transactionId && signed.content.stepId == stepId
            && signed.content.operationVersionId == operationVersionId && signed.content.request == request
            && signed.content.serverNonce == ticket.serverNonce
            && Admit(p, b, ticket, signed, elapsed) != Err(InvalidMac)
  {
  }

  // ---------------------------------------------------------------- answers after admission

  /** What the store's answer to the reservation is reported as, when it is not a new one. */
  lemma AnswersWithoutDispatch(p: Primitives, r: Run, ev: Event)
    requires Inv(r) && ev.Submit? && AdmittedBy(p, r, ev).Ok? && !Reserves(p, r, ev)
    ensures Step(p, r, ev) == r
    ensures !ev.faults.reserve ==> Submitted(p, r, ev).reply == Err(DatabaseUnavailable)
    ensures ev.faults.reserve && EnvelopeKey(ev.signed.content) !in r.tables.rows
            && Replayed(r.tables, AdmittedBy(p, r, ev).value.reservation) ==>
              Submitted(p, r, ev).reply == Err(ReplayRejected)
  {
    NotReservedMeansUntouched(p, r, ev);
  }

  /** What a submission that made a row reports, wherever it was cut short. */
  lemma AnswersOfAReservation(p: Primitives, r: Run, ev: Event)
    requires ev.Submit? && Reserves(p, r, ev)
    ensures var f, reply := ev.faults, Submitted(p, r, ev).reply;
            var answer := DispatchAnswer(r, AdmittedBy(p, r, ev).value, ev);
            && (f.point == AfterReserve || !f.mark ==> reply == Err(DatabaseUnavailable))
            && (f.point == DiesAfterMark && f.mark ==> reply == Err(ServerStopping))
            && (ReachesDispatch(f) && answer.Err? ==> reply == Err(answer.error))
            && (ReachesDispatch(f) && answer.Ok? && f.point == AfterDispatch ==> reply == Err(DatabaseUnavailable))
            && (ReachesDispatch(f) && answer.Ok? && f.point != AfterDispatch && !p.validResponse(answer.value) ==>
                  reply == Err(InvalidMessage))
            && (ReachesDispatch(f) && answer.Ok? && f.point != AfterDispatch && p.validResponse(answer.value) && !f.record ==>
                  reply == Err(DatabaseUnavailable))
  {
    AdmittedCounter(p, r, ev);
    var a := AdmittedBy(p, r, ev).value;
    AnswersOfCarryingOut(p, r.broker.config.now, ReserveOf(r.tables, a.reservation).0, r.machine, a, ev.signed.content,
                         ev.faults, ev.script);
  }

  lemma AnswersOfCarryingOut(p: Primitives, now: int, t: Tables, m: Machine, a: Admitted, e: Envelope, f: Faults, s: Script)
    requires EnvelopeKey(e) in t.rows && t.rows[EnvelopeKey(e)].phase == Reserved
    ensures var reply, answer := CarryOut(p, now, t, m, a, e, f, s).reply,
                                 DispatchOf(m, a.request, ContextFor(a.session, e), s).1;
            && (f.point == AfterReserve || !f.mark ==> reply == Err(DatabaseUnavailable))
            && (f.point == DiesAfterMark && f.mark ==> reply == Err(ServerStopping))
            && (ReachesDispatch(f) && answer.Err? ==> reply == Err(answer.error))
            && (ReachesDispatch(f) && answer.Ok? && f.point == AfterDispatch ==> reply == Err(DatabaseUnavailable))
            && (ReachesDispatch(f) && answer.Ok? && f.point != AfterDispatch && !p.validResponse(answer.value) ==>
                  reply == Err(InvalidMessage))
            && (ReachesDispatch(f) && answer.Ok? && f.point != AfterDispatch && p.validResponse(answer.value) && !f.record ==>
                  reply == Err(DatabaseUnavailable))
  {
  }

  /** Observation-required names the step and the reason. */
  lemma ObservationRequiredSays(e: Envelope)
    ensures var d := ObservationRequiredDocument(e);
            Says(d, "kind", "broker-unavailable-response") && Says(d, "requestId", e.stepId)
            && Says(d, "outcome", "unavailable") && Says(d, "reasonCode", "observation-required")
            && Says(d, "responseId", "observation-required-" + e.stepId) && Stamped(d, 7)
  {
    var m := ObservationRequiredDocument(e).members;
    assert m[0] in m && m[1] in m && m[2] in m && m[3] in m && m[4] in m && m[5] in m && m[6] in m;
  }

  /** The dispatch of a submission is made for its own transaction, step and version and for its session's user. */
  lemma DispatchIsForTheSubmission(session: Session, e: Envelope)
    ensures var c := ContextFor(session, e);
            && c.transactionId == e.transactionId && c.stepId == e.stepId && c.operationVersionId == e.operationVersionId
            && c.interactiveSessionId == session.interactiveSessionId && c.interactiveLogonSid == session.interactiveLogonSid
            && c.processId == session.processId && c.processImageHash == session.processImageHash
            && (c.lease.Some? <==> session.token.Some?)
            && (session.token.Some? ==>
                  c.lease == Some(Lease(session.token.value.sessionId, session.token.value.logonSid)))
  {
  }

  // ---------------------------------------------------------------- a reserved row and what becomes of it

  /**
   Which statements the store refuses: a reservation whose digest has not 64 characters, as the table's constraint
   does, or whose terminal row has lost its document, and every other statement where the row is not in its phase.
   */
  lemma RefusedStatements(t: Tables, q: ReserveRequest, k: Key, document: Json, at: int, referenced: bool)
    ensures var row := if q.key in t.rows then Some(t.rows[q.key]) else None;
            var reserved := ReserveOf(t, q).1;
            && (reserved == Err(Database) <==> row.None? && reserved != Ok(Replay) && |q.requestHash| != 64)
            && (reserved == Err(Integrity) <==>
                  && row.Some? && row.value.requestHash == q.requestHash
                  && row.value.operationVersionId == q.operationVersionId
                  && row.value.phase == Terminal && row.value.document == None)
            && reserved != Err(Migration)
    ensures var marked := MarkUnknownOf(t, k).1;
            if k in t.rows && t.rows[k].phase == Reserved then marked == Ok(()) else marked == Err(Integrity)
    ensures var recorded := RecordTerminalOf(t, k, document, at).1;
            if k in t.rows && t.rows[k].phase in {Reserved, UnknownAfterCrash} then recorded == Ok(())
            else recorded == Err(Integrity)
    ensures SetReferenceOf(t, k, referenced).1 == if k in t.rows then Ok(()) else Err(Integrity)
  {
  }

  /** A new reservation's row, field by field. */
  lemma NewRowIs(t: Tables, q: ReserveRequest)
    requires ReserveOf(t, q).1 == Ok(New)
    ensures q.key in ReserveOf(t, q).0.rows
    ensures var row := ReserveOf(t, q).0.rows[q.key];
            && row.requestHash == q.requestHash && row.operationVersionId == q.operationVersionId
            && row.phase == Reserved && row.document == None && row.completedAt == None && row.createdAt == q.createdAt
            && !row.retentionEligible && !row.recoveryReferenced
    ensures q.principal in ReserveOf(t, q).0.counters && ReserveOf(t, q).0.counters[q.principal] == q.counter
    ensures var used := PrincipalNonce(q.principal, q.nonce);
            used in ReserveOf(t, q).0.nonces && ReserveOf(t, q).0.nonces[used] == q.createdAt
  {
  }

  /** A row is referenced for recovery only by asking for it. */
  lemma ReferencedOnlyByAsking(p: Primitives, r: Run, ev: Event, k: Key)
    requires Inv(r) && EventOk(ev) && k in Step(p, r, ev).tables.rows && Step(p, r, ev).tables.rows[k].recoveryReferenced
    ensures ev == Refer(k) || (k in r.tables.rows && r.tables.rows[k].recoveryReferenced)
  {
    if ev.Submit? {
      SubmittingReferencesNothing(p, r, ev);
    }
  }

  ghost predicate ReferencesNoMore(before: map<Key, Row>, after: map<Key, Row>) {
    forall k :: k in after && after[k].recoveryReferenced ==> k in before && before[k].recoveryReferenced
  }

  lemma SubmittingReferencesNothing(p: Primitives, r: Run, ev: Event)
    requires Inv(r) && ev.Submit?
    ensures ReferencesNoMore(r.tables.rows, Step(p, r, ev).tables.rows)
  {
    if Reserves(p, r, ev) {
      UnreferencedAtFirst(p, r, ev);
      OtherRowsStand(p, r, ev);
    } else {
      NotReservedMeansUntouched(p, r, ev);
    }
  }

  lemma OtherRowsStand(p: Primitives, r: Run, ev: Event)
    requires ev.Submit? && Reserves(p, r, ev)
    ensures var key, after := EnvelopeKey(ev.signed.content), Step(p, r, ev).tables.rows;
            key in after && after == r.tables.rows[key := after[key]]
  {
    AdmittedCounter(p, r, ev);
    ReservedShape(p, r, ev);
  }

  lemma UnreferencedAtFirst(p: Primitives, r: Run, ev: Event)
    requires ev.Submit? && Reserves(p, r, ev)
    ensures EnvelopeKey(ev.signed.content) in Step(p, r, ev).tables.rows
    ensures !Step(p, r, ev).tables.rows[EnvelopeKey(ev.signed.content)].recoveryReferenced
  {
    AdmittedCounter(p, r, ev);
    var a := AdmittedBy(p, r, ev).value;
    NewRowIs(r.tables, a.reservation);
    var t := ReserveOf(r.tables, a.reservation).0;
    ReferenceNotTouched(p, r.broker.config.now, t, r.machine, a, ev.signed.content, ev.faults, ev.script);
  }

  lemma ReferenceNotTouched(p: Primitives, now: int, t: Tables, m: Machine, a: Admitted, e: Envelope, f: Faults, s: Script)
    requires EnvelopeKey(e) in t.rows && t.rows[EnvelopeKey(e)].phase == Reserved
    ensures EnvelopeKey(e) in CarryOut(p, now, t, m, a, e, f, s).tables.rows
    ensures CarryOut(p, now, t, m, a, e, f, s).tables.rows[EnvelopeKey(e)].recoveryReferenced
            == t.rows[EnvelopeKey(e)].recoveryReferenced
  {
    var marked := MarkUnknownOf(t, EnvelopeKey(e)).0;
    var (after, result) := DispatchOf(m, a.request, ContextFor(a.session, e), s);
    ConcludingTouchesNoReference(p, now, marked, after, result, EnvelopeKey(e), f);
  }

  lemma ConcludingTouchesNoReference(p: Primitives, now: int, marked: Tables, after: Machine, result: Result<Json, ErrorCode>,
                                     key: Key, f: Faults)
    requires key in marked.rows
    ensures key in Conclude(p, now, marked, after, result, key, f).tables.rows
    ensures Conclude(p, now, marked, after, result, key, f).tables.rows[key].recoveryReferenced
            == marked.rows[key].recoveryReferenced
  {
  }

  /** Referencing a row keeps it over every later run; nothing else in the store changes by it. */
  lemma ReferringKeepsTheRow(p: Primitives, r: Run, k: Key, events: seq<Event>)
    requires Inv(r) && EventsOk(events) && k in r.tables.rows
    ensures var referred := Step(p, r, Refer(k));
            && referred == r.(tables := r.tables.(rows := r.tables.rows[k := r.tables.rows[k].(recoveryReferenced := true)]))
            && k in Steps(p, referred, events).tables.rows
  {
    StepKeepsInv(p, r, Refer(k));
    ReferencedRowsStay(p, Step(p, r, Refer(k)), events, k);
  }

  /** A finished row that nobody referenced goes with the first prune whose cutoff and clock are late enough. */
  lemma FinishedRowsGo(p: Primitives, r: Run, k: Key, cutoff: int)
    requires Inv(r) && k in r.tables.rows && r.tables.rows[k].phase == Terminal && !r.tables.rows[k].recoveryReferenced
    requires r.tables.rows[k].completedAt.Some? && r.tables.rows[k].completedAt.value < cutoff
    requires r.tables.rows[k].completedAt.value < r.broker.config.now - 15552000
    ensures k !in Step(p, r, Prune(cutoff)).tables.rows
  {
    assert RowOk(r.tables.rows[k]);
  }

  // ---------------------------------------------------------------- opening

  /** A broker opens with no session and its first number ahead, and only in custody of database, secret and service. */
  lemma OpensWith(config: Config, installSecret: seq<char>)
    ensures var b := Opened(config);
            b.config == config && b.sessions == map[] && b.sequence == 0 && !b.stopping
    ensures CustodyOk(config, installSecret) <==>
            && config.databaseCustodyVerified && 16 <= |installSecret|
            && exists i :: 0 <= i < |config.serviceSid| && !IsWhitespace(config.serviceSid[i])
  {
  }

  // ---------------------------------------------------------------- tickets

  /** The next counter is the least one that is not a replay for a principal who has counted before. */
  lemma NextCounterIsTheLeast(t: Tables, q: ReserveRequest)
    requires SchemaOk(t) && PrincipalNonce(q.principal, q.nonce) !in t.nonces
    ensures var next := NextCounterOf(t, q.principal);
            && (next.Err? <==> q.principal in t.counters && t.counters[q.principal] == 0xFFFF_FFFF)
            && (next.Err? ==> next.error == Integrity)
            && (next.Ok? && q.principal in t.counters ==> (Replayed(t, q) <==> q.counter < next.value))
            && (next.Ok? && q.principal !in t.counters ==> next.value == 1 && !Replayed(t, q))
  {
  }

  /** The identity of an interactive logon running the expected program, as the pipe reports it. */
  predicate Presentable(b: BrokerState, i: Identity, clientNonce: string) {
    && i.localMachine && !i.remoteTransport && i.impersonationSucceeded && i.tokenQuerySucceeded
    && i.sessionId > 0 && i.processId > 0 && i.processImageHash == b.config.expectedProcessHash
    && |i.logonSid| >= 8 && i.logonSid[..8] == "S-1-5-5-" && !Blank(clientNonce)
  }

  predicate OwnToken(t: Token, i: Identity) {
    && t.sessionId == i.sessionId && t.logonSid == i.logonSid && t.userSid != "S-1-5-18"
    && t.sessionId != 0 && |t.logonSid| >= 8 && t.logonSid[..8] == "S-1-5-5-"
  }

  /** When a ticket is issued, exactly, and what session it opens. */
  lemma TicketIssuedExactlyWhen(p: Primitives, b: BrokerState, t: Tables, i: Identity, clientNonce: string,
                                token: Option<Token>, entropy: nat, available: bool)
    ensures var (after, issued) := AuthenticateOf(p, b, t, i, clientNonce, token, entropy, available);
            var welcome := !b.stopping && Presentable(b, i, clientNonce) && (token.Some? ==> OwnToken(token.value, i));
            && (!welcome ==> after == b && issued == Err(AuthenticationFailed))
            && (welcome ==>
                  && after.sequence == (if b.sequence < 0xFFFF_FFFF_FFFF_FFFF then b.sequence + 1 else b.sequence)
                  && after.config == b.config && !after.stopping
                  && (!available ==> issued == Err(DatabaseUnavailable) && after.sessions == b.sessions)
                  && (available && NextCounterOf(t, PrincipalId(i)).Err? ==>
                        issued == Err(IntegrityFailure) && after.sessions == b.sessions)
                  && (issued.Ok? <==> available && NextCounterOf(t, PrincipalId(i)).Ok?)
                  && (issued.Ok? ==>
                        var ticket := issued.value;
                        && Ok(ticket.nextCounter) == NextCounterOf(t, PrincipalId(i))
                        && ticket.sessionId == p.derive("session\0" + ticket.serverNonce)
                        && ticket.sessionKey == p.derive("key\0" + ticket.sessionId + "\0" + ticket.serverNonce)
                        && after.sessions.Keys == b.sessions.Keys + {ticket.sessionId}
                        && (forall id :: id in b.sessions && id != ticket.sessionId ==> after.sessions[id] == b.sessions[id])
                        && var s := after.sessions[ticket.sessionId];
                           && s.serverNonce == ticket.serverNonce && s.sessionKey == ticket.sessionKey
                           && s.interactiveSessionId == i.sessionId && s.interactiveLogonSid == i.logonSid
                           && s.processId == i.processId && s.processImageHash == i.processImageHash && s.token == token
                           && s.principal == i.logonSid + ":" + Decimal(i.sessionId) + ":" + i.processImageHash))
  {
  }

  /** The horizon of a prune is 180 days before the broker's clock, or the earliest time there is. */
  lemma HorizonIs(now: int, cutoff: int)
    requires cutoff >= -0x8000_0000_0000_0000
    ensures var h := HorizonCutoff(now, cutoff);
            && h <= cutoff && (h == cutoff || h == now - 180 * 86400 || h == -0x8000_0000_0000_0000)
            && (now - 180 * 86400 >= -0x8000_0000_0000_0000 ==> h <= now - 180 * 86400)
            && (now - 180 * 86400 < -0x8000_0000_0000_0000 ==> h == -0x8000_0000_0000_0000)
            && (cutoff <= now - 180 * 86400 ==> h == cutoff)
  {
  }
}
