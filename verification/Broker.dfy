/**
 The broker: authenticated sessions over the durable dedup store. A submitted request passes every check,
 reserves its row, is marked as possibly dispatched, is dispatched, and has its result recorded; a fault
 may strike between any two of these. Cryptography, schema validation and the encoded length of a value
 are functions the broker is given.
 */
module Brokers {
  import opened Collections
  import opened CanonicalJson
  import opened DedupStores
  import opened Dispatchers
  import opened Text

  const U64_MAX: nat := 0xFFFF_FFFF_FFFF_FFFF
  const MAX_REPLAY_RETENTION_SECONDS: int := 180 * 24 * 60 * 60
  const I64_MIN: int := -0x8000_0000_0000_0000
  const LOGON_SID_PREFIX := "S-1-5-5-"
  const LOCAL_SYSTEM_SID := "S-1-5-18"

  datatype Config = Config(
    expectedProcessHash: string,
    serviceSid: string,
    databaseCustodyVerified: bool,
    now: int,
    maxMessageBytes: nat,
    requestTimeoutMillis: nat)

  datatype Identity = Identity(
    localMachine: bool,
    remoteTransport: bool,
    impersonationSucceeded: bool,
    tokenQuerySucceeded: bool,
    sessionId: nat,
    logonSid: string,
    processId: nat,
    processImageHash: string)

  datatype Token = Token(sessionId: int, logonSid: string, userSid: string)

  datatype Session = Session(
    serverNonce: string,
    sessionKey: string,
    principal: string,
    interactiveSessionId: nat,
    interactiveLogonSid: string,
    processId: nat,
    processImageHash: string,
    token: Option<Token>)

  datatype Ticket = Ticket(sessionId: string, serverNonce: string, sessionKey: string, nextCounter: int)

  datatype SignedEnvelope = SignedEnvelope(content: Envelope, mac: string)

  datatype Primitives = Primitives(
    derive: string -> string,
    mac: (string, Json) -> string,
    digest: Json -> string,
    encodedLength: Json -> nat,
    parse: Json -> Option<Request>,
    validResponse: Json -> bool)

  /** A digest is 64 hexadecimal characters. */
  ghost predicate DigestsFit(p: Primitives) {
    forall v :: |p.digest(v)| == HASH_LENGTH
  }

  /**
   Where a submission is cut short: at the code's own fault points, or because the process dies between the
   mark and the dispatch or after the record. A process that dies answers nobody; the model ends such a
   submission in `ServerStopping`.
   */
  datatype FaultPoint = NoFault | AfterReserve | DiesAfterMark | AfterDispatch | DiesAfterRecord

  /** Where the submission is cut short, and the statements for which the database is available. */
  datatype Faults = Faults(point: FaultPoint, reserve: bool, mark: bool, record: bool)

  datatype Disposition = TerminalReply | ObservationReply

  datatype BrokerReply = BrokerReply(disposition: Disposition, document: Json)

  function StoreCode(e: StoreError): ErrorCode {
    if e.Integrity? then IntegrityFailure else DatabaseUnavailable
  }

  // ---------------------------------------------------------------- state

  datatype BrokerState = BrokerState(config: Config, sessions: map<string, Session>, sequence: nat, stopping: bool)

  function Opened(config: Config): BrokerState {
    BrokerState(config, map[], 0, false)
  }

  /** Custody of the database and of the install secret is checked before anything is opened. */
  predicate CustodyOk(config: Config, installSecret: seq<char>) {
    config.databaseCustodyVerified && |installSecret| >= 16 && !Blank(config.serviceSid)
  }

  // ---------------------------------------------------------------- authentication

  function PrincipalId(i: Identity): string {
    i.logonSid + ":" + Decimal(i.sessionId) + ":" + i.processImageHash
  }

  predicate HasPrefix(s: string, prefix: string) {
    |prefix| <= |s| && s[..|prefix|] == prefix
  }

  predicate TokenAccepted(t: Token, i: Identity) {
    && t.sessionId == i.sessionId && t.logonSid == i.logonSid
    && t.sessionId != 0 && HasPrefix(t.logonSid, LOGON_SID_PREFIX) && t.userSid != LOCAL_SYSTEM_SID
  }

  predicate IdentityAccepted(b: BrokerState, i: Identity, clientNonce: string) {
    && !b.stopping && i.localMachine && !i.remoteTransport && i.impersonationSucceeded
    && i.tokenQuerySucceeded && i.sessionId != 0 && HasPrefix(i.logonSid, LOGON_SID_PREFIX)
    && i.processId != 0 && i.processImageHash == b.config.expectedProcessHash && !Blank(clientNonce)
  }

  function SaturatingNext(n: nat): nat {
    if n < U64_MAX then n + 1 else n
  }

  /** The text a server nonce is derived from. */
  function NonceText(i: Identity, clientNonce: string, sequence: nat, entropy: nat): string {
    clientNonce + "\0" + i.logonSid + "\0" + Decimal(i.sessionId) + "\0" + Decimal(i.processId)
    + "\0" + Decimal(sequence) + "\0" + Decimal(entropy)
  }

  function SessionKeyText(sessionId: string, serverNonce: string): string {
    "key\0" + sessionId + "\0" + serverNonce
  }

  function AuthenticateOf(p: Primitives, b: BrokerState, t: Tables, i: Identity, clientNonce: string,
                          token: Option<Token>, entropy: nat, available: bool)
    : (BrokerState, Result<Ticket, ErrorCode>)
  {
    if token.Some? && !TokenAccepted(token.value, i) then (b, Err(AuthenticationFailed))
    else if !IdentityAccepted(b, i, clientNonce) then (b, Err(AuthenticationFailed))
    else
      var counted := b.(sequence := SaturatingNext(b.sequence));
      var nonce := p.derive(NonceText(i, clientNonce, counted.sequence, entropy));
      var id := p.derive("session\0" + nonce);
      var key := p.derive(SessionKeyText(id, nonce));
      var next := if available then NextCounterOf(t, PrincipalId(i)) else Err(Database);
      if next.Err? then (counted, Err(StoreCode(next.error)))
      else
        var session := Session(nonce, key, PrincipalId(i), i.sessionId, i.logonSid, i.processId,
                               i.processImageHash, token);
        (counted.(sessions := counted.sessions[id := session]), Ok(Ticket(id, nonce, key, next.value)))
  }

  // ---------------------------------------------------------------- admission of a request

  datatype Admitted = Admitted(session: Session, request: Request, reservation: ReserveRequest)

  /** The request inside the envelope, tied to its step, its transaction and a usable counter and nonce. */
  function ValidRequest(parsed: Option<Request>, transactionId: string, stepId: string): Option<Request> {
    if parsed.None? then None
    else
      var r := parsed.value;
      if r.requestId != stepId then None
      else if r.operation.PrepareRestorePoint? && r.operation.preparedFor != transactionId then None
      else if !(0 <= r.counter <= U32_MAX) then None
      else if Blank(r.nonce) then None
      else Some(r)
  }

  function EnvelopeKey(e: Envelope): Key {
    Key(e.transactionId, e.stepId)
  }

  function Reservation(p: Primitives, b: BrokerState, principal: string, e: Envelope, r: Request): ReserveRequest {
    ReserveRequest(EnvelopeKey(e), p.digest(HashDocument(e)), e.operationVersionId, principal, r.nonce,
                   r.counter, b.config.now)
  }

  /** Every check before the store is touched, in order. */
  function Admit(p: Primitives, b: BrokerState, ticket: Ticket, signed: SignedEnvelope, elapsed: nat)
    : Result<Admitted, ErrorCode>
  {
    var e := signed.content;
    if b.stopping then Err(ServerStopping)
    else if elapsed > b.config.requestTimeoutMillis then Err(Timeout)
    else if Blank(e.transactionId) || Blank(e.stepId) || Blank(e.operationVersionId) then Err(InvalidMessage)
    else if p.encodedLength(e.request) > b.config.maxMessageBytes then Err(MessageTooLarge)
    else if ticket.sessionId !in b.sessions then Err(AuthenticationFailed)
    else
      var session := b.sessions[ticket.sessionId];
      if session.serverNonce != ticket.serverNonce || e.serverNonce != session.serverNonce then Err(ReplayRejected)
      else if session.sessionKey != ticket.sessionKey then Err(AuthenticationFailed)
      else if signed.mac != p.mac(session.sessionKey, SignedDocument(e)) then Err(InvalidMac)
      else
        var request := ValidRequest(p.parse(e.request), e.transactionId, e.stepId);
        if request.None? then Err(InvalidMessage)
        else Ok(Admitted(session, request.value, Reservation(p, b, session.principal, e, request.value)))
  }

  // ---------------------------------------------------------------- submission

  function LeaseOf(token: Option<Token>): Option<Lease> {
    if token.Some? then Some(Lease(token.value.sessionId, token.value.logonSid)) else None
  }

  function ContextFor(session: Session, e: Envelope): Context {
    Context(e.transactionId, e.stepId, e.operationVersionId, session.interactiveSessionId,
            session.interactiveLogonSid, session.processId, session.processImageHash, LeaseOf(session.token))
  }

  function ObservationRequiredDocument(e: Envelope): Json {
    Object([
      Member("kind", Str("broker-unavailable-response")),
      Member("schemaVersion", Str("1.0")),
      Member("responseId", Str("observation-required-" + e.stepId)),
      Member("requestId", Str(e.stepId)),
      Member("outcome", Str("unavailable")),
      Member("reasonCode", Str("observation-required")),
      Member("completedAt", Str("1970-01-01T00:00:00Z"))])
  }

  datatype Submission = Submission(
    tables: Tables, machine: Machine, reply: Result<BrokerReply, ErrorCode>, dispatched: bool)

  /** From the new reservation on: mark, dispatch, record. */
  function CarryOut(p: Primitives, now: int, t: Tables, m: Machine, a: Admitted, e: Envelope, f: Faults, s: Script)
    : Submission
  {
    if f.point == AfterReserve || !f.mark then Submission(t, m, Err(DatabaseUnavailable), false)
    else
      var (marked, outcome) := MarkUnknownOf(t, EnvelopeKey(e));
      if outcome.Err? then Submission(marked, m, Err(StoreCode(outcome.error)), false)
      else if f.point == DiesAfterMark then Submission(marked, m, Err(ServerStopping), false)
      else
        var (after, result) := DispatchOf(m, a.request, ContextFor(a.session, e), s);
        Conclude(p, now, marked, after, result, EnvelopeKey(e), f)
  }

  /** After the dispatch: a valid answer becomes the terminal result of the row. */
  function Conclude(p: Primitives, now: int, marked: Tables, after: Machine, result: Result<Json, ErrorCode>,
                    key: Key, f: Faults)
    : Submission
  {
    if result.Err? then Submission(marked, after, Err(result.error), true)
    else if f.point == AfterDispatch then Submission(marked, after, Err(DatabaseUnavailable), true)
    else if !p.validResponse(result.value) then Submission(marked, after, Err(InvalidMessage), true)
    else if !f.record then Submission(marked, after, Err(DatabaseUnavailable), true)
    else
      var (recorded, done) := RecordTerminalOf(marked, key, result.value, now);
      if done.Err? then Submission(recorded, after, Err(StoreCode(done.error)), true)
      else if f.point == DiesAfterRecord then Submission(recorded, after, Err(ServerStopping), true)
      else Submission(recorded, after, Ok(BrokerReply(TerminalReply, result.value)), true)
  }

  /** From the reservation on. */
  function Serve(p: Primitives, now: int, t: Tables, m: Machine, a: Admitted, e: Envelope, f: Faults, s: Script)
    : Submission
  {
    var (reserved, outcome) := if f.reserve then ReserveOf(t, a.reservation) else (t, Err(Database));
    match outcome
    case Err(storeError) => Submission(reserved, m, Err(StoreCode(storeError)), false)
    case Ok(Recorded(document)) => Submission(reserved, m, Ok(BrokerReply(TerminalReply, document)), false)
    case Ok(ObservationRequired) =>
      Submission(reserved, m, Ok(BrokerReply(ObservationReply, ObservationRequiredDocument(e))), false)
    case Ok(Conflict) => Submission(reserved, m, Err(DuplicateConflict), false)
    case Ok(Replay) => Submission(reserved, m, Err(ReplayRejected), false)
    case Ok(New) => CarryOut(p, now, reserved, m, a, e, f, s)
  }

  function SubmitOf(p: Primitives, b: BrokerState, t: Tables, m: Machine, ticket: Ticket, signed: SignedEnvelope,
                    f: Faults, elapsed: nat, s: Script)
    : Submission
  {
    match Admit(p, b, ticket, signed, elapsed)
    case Err(code) => Submission(t, m, Err(code), false)
    case Ok(a) => Serve(p, b.config.now, t, m, a, signed.content, f, s)
  }

  /** No cutoff reaches into the last 180 days before the broker's clock. */
  function HorizonCutoff(now: int, cutoff: int): int {
    var horizon := if now - MAX_REPLAY_RETENTION_SECONDS < I64_MIN then I64_MIN else now - MAX_REPLAY_RETENTION_SECONDS;
    if cutoff < horizon then cutoff else horizon
  }

  function Signed(p: Primitives, ticket: Ticket, transactionId: string, stepId: string, operationVersionId: string,
                  request: Json)
    : SignedEnvelope
  {
    var e := Envelope(transactionId, stepId, operationVersionId, ticket.serverNonce, request);
    SignedEnvelope(e, p.mac(ticket.sessionKey, SignedDocument(e)))
  }

  // ---------------------------------------------------------------- the broker

  /** Opens a broker over what the database file holds, or over why it could not be opened. */
  method Open(p: Primitives, config: Config, installSecret: seq<char>, durable: Result<Tables, StoreError>)
    returns (result: Result<Broker, ErrorCode>)
    ensures !CustodyOk(config, installSecret) ==> result == Err(CustodyUnavailable)
    ensures CustodyOk(config, installSecret) && durable.Err? ==> result == Err(StoreCode(durable.error))
    ensures CustodyOk(config, installSecret) && durable.Ok? ==>
              result.Ok? && fresh(result.value) && fresh(result.value.store)
              && result.value.State() == Opened(config) && result.value.store.State() == durable.value
  {
    if !config.databaseCustodyVerified || |installSecret| < 16 || Blank(config.serviceSid) {
      return Err(CustodyUnavailable);
    }
    match durable
    case Err(storeError) => return Err(StoreCode(storeError));
    case Ok(tables) =>
      var store := new DedupStore(tables);
      var broker := new Broker(p, config, store);
      return Ok(broker);
  }

  class Broker {
    const primitives: Primitives
    const config: Config
    const store: DedupStore
    var sessions: map<string, Session>
    var sequence: nat
    var stopping: bool

    function State(): BrokerState
      reads this
    {
      BrokerState(config, sessions, sequence, stopping)
    }

    constructor (p: Primitives, config: Config, store: DedupStore)
      ensures State() == Opened(config) && this.store == store && primitives == p
    {
      this.primitives, this.config, this.store := p, config, store;
      sessions, sequence, stopping := map[], 0, false;
    }

    method AuthenticateClient(i: Identity, clientNonce: string, token: Option<Token>, entropy: nat, available: bool)
      returns (outcome: Result<Ticket, ErrorCode>)
      modifies this
      ensures (State(), outcome) ==
              AuthenticateOf(primitives, old(State()), old(store.State()), i, clientNonce, token, entropy, available)
    {
      if token.Some? && !TokenAccepted(token.value, i) {
        return Err(AuthenticationFailed);
      }
      if !IdentityAccepted(State(), i, clientNonce) {
        return Err(AuthenticationFailed);
      }
      sequence := SaturatingNext(sequence);
      var nonce := primitives.derive(NonceText(i, clientNonce, sequence, entropy));
      var id := primitives.derive("session\0" + nonce);
      var key := primitives.derive(SessionKeyText(id, nonce));
      var next := store.NextCounter(PrincipalId(i), available);
      match next
      case Err(storeError) => return Err(StoreCode(storeError));
      case Ok(counter) =>
        sessions := sessions[id := Session(nonce, key, PrincipalId(i), i.sessionId, i.logonSid, i.processId,
                                           i.processImageHash, token)];
        return Ok(Ticket(id, nonce, key, counter));
    }

    method Submit(ticket: Ticket, signed: SignedEnvelope, dispatcher: PhysicalOperationDispatcher, f: Faults,
                  elapsed: nat, s: Script)
      returns (reply: Result<BrokerReply, ErrorCode>)
      modifies store, dispatcher
      ensures var was := SubmitOf(primitives, State(), old(store.State()), old(dispatcher.State()),
                                  ticket, signed, f, elapsed, s);
              store.State() == was.tables && dispatcher.State() == was.machine && reply == was.reply
    {
      var admitted := Admit(primitives, State(), ticket, signed, elapsed);
      if admitted.Err? {
        return Err(admitted.error);
      }
      var a, e := admitted.value, signed.content;
      var reservation := store.Reserve(a.reservation, f.reserve);
      match reservation
      case Err(storeError) => return Err(StoreCode(storeError));
      case Ok(Recorded(document)) => return Ok(BrokerReply(TerminalReply, document));
      case Ok(ObservationRequired) =>
        return Ok(BrokerReply(ObservationReply, ObservationRequiredDocument(e)));
      case Ok(Conflict) => return Err(DuplicateConflict);
      case Ok(Replay) => return Err(ReplayRejected);
      case Ok(New) =>
        reply := Perform(a, e, dispatcher, f, s);
    }

    method Perform(a: Admitted, e: Envelope, dispatcher: PhysicalOperationDispatcher, f: Faults, s: Script)
      returns (reply: Result<BrokerReply, ErrorCode>)
      modifies store, dispatcher
      ensures var was := CarryOut(primitives, config.now, old(store.State()), old(dispatcher.State()), a, e, f, s);
              store.State() == was.tables && dispatcher.State() == was.machine && reply == was.reply
    {
      if f.point == AfterReserve {
        return Err(DatabaseUnavailable);
      }
      var marked := store.MarkUnknownAfterDispatch(EnvelopeKey(e), f.mark);
      if marked.Err? {
        return Err(StoreCode(marked.error));
      }
      if f.point == DiesAfterMark {
        return Err(ServerStopping);
      }
      var result := dispatcher.Dispatch(a.request, ContextFor(a.session, e), s);
      if result.Err? {
        return Err(result.error);
      }
      if f.point == AfterDispatch {
        return Err(DatabaseUnavailable);
      }
      var document := result.value;
      if !primitives.validResponse(document) {
        return Err(InvalidMessage);
      }
      var recorded := store.RecordTerminal(EnvelopeKey(e), document, config.now, f.record);
      if recorded.Err? {
        return Err(StoreCode(recorded.error));
      }
      if f.point == DiesAfterRecord {
        return Err(ServerStopping);
      }
      return Ok(BrokerReply(TerminalReply, document));
    }

    method BeginPreshutdown()
      modifies this
      ensures State() == old(State()).(sessions := map[], stopping := true)
    {
      stopping := true;
      sessions := map[];
    }

    method DisconnectSession(ticket: Ticket)
      modifies this
      ensures State() == old(State()).(sessions := old(sessions) - {ticket.sessionId})
    {
      sessions := sessions - {ticket.sessionId};
    }

    method PruneTerminalBefore(cutoff: int, available: bool) returns (outcome: Result<nat, ErrorCode>)
      requires cutoff >= I64_MIN
      modifies store
      ensures available ==>
                && store.State() == PruneOf(old(store.State()), HorizonCutoff(config.now, cutoff))
                && outcome == Ok(|old(store.State()).rows| - |store.State().rows|)
      ensures !available ==> store.State() == old(store.State()) && outcome == Err(DatabaseUnavailable)
    {
      var removed := store.PruneTerminalBefore(HorizonCutoff(config.now, cutoff), available);
      match removed
      case Err(storeError) => return Err(StoreCode(storeError));
      case Ok(n) => return Ok(n);
    }

    method RetainedIdentityCount(available: bool) returns (outcome: Result<nat, ErrorCode>)
      ensures outcome == if available then Ok(|store.State().rows|) else Err(DatabaseUnavailable)
    {
      var counted := store.Count(available);
      match counted
      case Err(storeError) => return Err(StoreCode(storeError));
      case Ok(n) => return Ok(n);
    }

    method ReferenceForRecovery(key: Key, available: bool) returns (outcome: Result<(), ErrorCode>)
      modifies store
      ensures available ==>
                && store.State() == SetReferenceOf(old(store.State()), key, true).0
                && outcome == (if key in old(store.State()).rows then Ok(()) else Err(IntegrityFailure))
      ensures !available ==> store.State() == old(store.State()) && outcome == Err(DatabaseUnavailable)
    {
      var referenced := store.SetRecoveryReference(key, true, available);
      match referenced
      case Err(storeError) => return Err(StoreCode(storeError));
      case Ok(_) => return Ok(());
    }
  }
}
