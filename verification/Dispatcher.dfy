/**
 The operation dispatcher: compare, then mutate, over the machine's power schemes. The power port, the
 restore-point layer and the impersonated worker thread are outside the model; what they answer during
 one dispatch is a `Script`. A duplication may stop half-way, and the answer of an effect that ran may
 still be lost.
 */
module Dispatchers {
  import opened Collections
  import opened CanonicalJson
  import opened Text

  const POWER_SCHEME_OPERATION_VERSION := "power-scheme-v1"
  const RESTORE_POINT_OPERATION_VERSION := "restore-point-v1"
  const MANAGED_SCHEME_FRIENDLY_NAME := "Liiiraa Verificado"
  const MANAGED_SCHEME_DESCRIPTION := "Liiiraa Boost managed clone; activation alone makes no performance claim."
  const U128_LIMIT: nat := 0x1_0000_0000_0000_0000_0000_0000_0000_0000

  datatype ErrorCode =
    | AuthenticationFailed
    | CustodyUnavailable
    | DatabaseUnavailable
    | DuplicateConflict
    | IntegrityFailure
    | InvalidMac
    | InvalidMessage
    | MessageTooLarge
    | ReplayRejected
    | ServerStopping
    | Timeout

  // ---------------------------------------------------------------- the machine

  datatype SchemeId = SchemeId(raw: nat)

  datatype Scheme = Scheme(friendlyName: string, description: string, fingerprint: string)

  datatype World = World(active: SchemeId, schemes: map<SchemeId, Scheme>)

  predicate ActiveExists(w: World) {
    w.active in w.schemes
  }

  predicate IsOwned(s: Scheme) {
    s.friendlyName == MANAGED_SCHEME_FRIENDLY_NAME && s.description == MANAGED_SCHEME_DESCRIPTION
  }

  predicate Owns(w: World, id: SchemeId) {
    id in w.schemes && IsOwned(w.schemes[id])
  }

  function ManagedCopy(s: Scheme): Scheme {
    Scheme(MANAGED_SCHEME_FRIENDLY_NAME, MANAGED_SCHEME_DESCRIPTION, s.fingerprint)
  }

  // ---------------------------------------------------------------- requests

  datatype Operation =
    | Observe
    | Duplicate(source: string, destination: string)
    | Activate(target: string, expectedCurrent: string)
    | Delete(victim: string, expectedHash: string)
    | PrepareRestorePoint(preparedFor: string)

  datatype Request = Request(requestId: string, counter: int, nonce: string, operation: Operation)

  datatype Lease = Lease(sessionId: int, logonSid: string)

  datatype Context = Context(
    transactionId: string,
    stepId: string,
    operationVersionId: string,
    interactiveSessionId: int,
    interactiveLogonSid: string,
    processId: int,
    processImageHash: string,
    lease: Option<Lease>)

  /** The worker thread runs the effect; or refuses before it; or loses the answer of an effect that ran. */
  datatype LeaseOutcome = Ran | RefusedBefore(refusal: ErrorCode) | LostAfter(loss: ErrorCode)

  /** A mutation is done, or refused; a duplication may also leave an unfinished copy behind. */
  datatype MutationOutcome = Done | Refused | Stray(elsewhere: SchemeId) | Unnamed | Undescribed

  datatype Script = Script(
    lease: LeaseOutcome,
    preflight: bool,
    activeReadable: bool,
    targetReadable: bool,
    mutation: MutationOutcome,
    restorePointAllowed: bool)

  function ParseSchemeId(text: string): Option<SchemeId> {
    var raw := ParseHex(WithoutHyphens(text), U128_LIMIT);
    if raw.Some? && raw.value != 0 then Some(SchemeId(raw.value)) else None
  }

  // ---------------------------------------------------------------- replies

  function Reply(kind: string, requestId: string, outcome: string, reason: Option<string>): Json {
    Object([
      Member("kind", Str(kind)),
      Member("schemaVersion", Str("1.0")),
      Member("responseId", Str("dispatch-" + requestId)),
      Member("requestId", Str(requestId)),
      Member("outcome", Str(outcome))]
    + (if reason.Some? then [Member("reasonCode", Str(reason.value))] else [])
    + [Member("completedAt", Str("1970-01-01T00:00:00Z"))])
  }

  function AcceptedReply(requestId: string): Json {
    Reply("broker-accepted-response", requestId, "accepted", None)
  }

  function RejectedReply(requestId: string, reason: string): Json {
    Reply("broker-rejected-response", requestId, "rejected", Some(reason))
  }

  function UnavailableReply(requestId: string, reason: string): Json {
    Reply("broker-unavailable-response", requestId, "unavailable", Some(reason))
  }

  datatype Outcome = AcceptedObservationRequired | RejectedConflict | Unavailable

  datatype Audit = Audit(transactionId: string, requestId: string, operationVersionId: string,
    operation: string, outcome: Outcome)

  // ---------------------------------------------------------------- one dispatch

  /** Observing the active scheme, and then a target. */
  function ActiveOf(w: World, s: Script): Option<SchemeId> {
    if s.activeReadable && ActiveExists(w) then Some(w.active) else None
  }

  function RequiredVersion(op: Operation): string {
    if op.PrepareRestorePoint? then RESTORE_POINT_OPERATION_VERSION else POWER_SCHEME_OPERATION_VERSION
  }

  /** The checks made on every request before anything is touched. */
  function Verified(c: Context, requestId: string, version: string): Option<ErrorCode> {
    if c.stepId != requestId || c.operationVersionId != version then Some(InvalidMessage)
    else if c.lease.None? then Some(AuthenticationFailed)
    else if c.processId == 0 || Blank(c.processImageHash) then Some(AuthenticationFailed)
    else if c.interactiveSessionId == 0 || Blank(c.interactiveLogonSid) then Some(AuthenticationFailed)
    else None
  }

  /** An operation whose identifiers have been parsed. */
  datatype Effect =
    | Look
    | Copy(source: SchemeId, destination: SchemeId)
    | Switch(target: SchemeId, expectedCurrent: SchemeId)
    | Remove(victim: SchemeId, expectedHash: string)

  function EffectOf(op: Operation): Option<Effect> {
    match op
    case Observe => Some(Look)
    case Duplicate(source, destination) =>
      var from, to := ParseSchemeId(source), ParseSchemeId(destination);
      if from.Some? && to.Some? then Some(Copy(from.value, to.value)) else None
    case Activate(target, expectedCurrent) =>
      var to, from := ParseSchemeId(target), ParseSchemeId(expectedCurrent);
      if from.Some? && to.Some? then Some(Switch(to.value, from.value)) else None
    case Delete(victim, expectedHash) =>
      var id := ParseSchemeId(victim);
      if id.Some? then Some(Remove(id.value, expectedHash)) else None
    case PrepareRestorePoint(_) => None
  }

  /** The state an effect insists on before it mutates. */
  predicate Matches(w: World, e: Effect) {
    match e
    case Look => true
    case Copy(source, destination) => w.active == source && destination !in w.schemes
    case Switch(target, expectedCurrent) => w.active == expectedCurrent && Owns(w, target)
    case Remove(victim, expectedHash) =>
      w.active != victim && Owns(w, victim) && w.schemes[victim].fingerprint == expectedHash
  }

  /** The world an accepted effect leaves. */
  function Performed(w: World, e: Effect): World
    requires ActiveExists(w)
  {
    match e
    case Look => w
    case Copy(_, destination) => w.(schemes := w.schemes[destination := ManagedCopy(w.schemes[w.active])])
    case Switch(target, _) => w.(active := target)
    case Remove(victim, _) => w.(schemes := w.schemes - {victim})
  }

  /** What a duplication that failed half-way leaves behind. */
  function HalfCopied(w: World, destination: SchemeId, m: MutationOutcome): World
    requires ActiveExists(w)
  {
    var source := w.schemes[w.active];
    match m
    case Stray(elsewhere) =>
      if elsewhere in w.schemes then w else w.(schemes := w.schemes[elsewhere := source])
    case Unnamed => w.(schemes := w.schemes[destination := source])
    case Undescribed =>
      w.(schemes := w.schemes[destination := source.(friendlyName := MANAGED_SCHEME_FRIENDLY_NAME)])
    case _ => w
  }

  /** Whether the target is looked at: duplication stops first when the active scheme is another one. */
  predicate LooksAtTarget(w: World, e: Effect) {
    e.Switch? || e.Remove? || (e.Copy? && w.active == e.source)
  }

  /** The effect itself: `Ok(false)` is a comparison that failed. */
  function RunEffect(w: World, e: Effect, s: Script): (World, Result<bool, ErrorCode>) {
    if !e.Look? && !s.preflight then (w, Err(InvalidMessage))
    else if ActiveOf(w, s).None? then (w, Err(InvalidMessage))
    else if e.Look? then (w, Ok(true))
    else if LooksAtTarget(w, e) && !s.targetReadable then (w, Err(InvalidMessage))
    else if !Matches(w, e) then (w, Ok(false))
    else if s.mutation.Done? then (Performed(w, e), Ok(true))
    else (if e.Copy? then HalfCopied(w, e.destination, s.mutation) else w, Err(InvalidMessage))
  }

  predicate LeaseMatches(c: Context) {
    c.lease.Some? && c.lease.value == Lease(c.interactiveSessionId, c.interactiveLogonSid)
  }

  function UnderLease(w: World, c: Context, e: Effect, s: Script): (World, Result<bool, ErrorCode>) {
    if !LeaseMatches(c) then (w, Err(AuthenticationFailed))
    else
      match s.lease
      case RefusedBefore(code) => (w, Err(code))
      case Ran => RunEffect(w, e, s)
      case LostAfter(code) => (RunEffect(w, e, s).0, Err(code))
  }

  function OperationName(op: Operation): string {
    match op
    case Observe => "observe-power-scheme"
    case Duplicate(_, _) => "duplicate-managed-power-scheme"
    case Activate(_, _) => "activate-managed-power-scheme"
    case Delete(_, _) => "delete-owned-power-scheme"
    case PrepareRestorePoint(_) => "prepare-restore-point"
  }

  function DriftReason(op: Operation): string {
    if op.Delete? then "power-scheme-conflict" else "power-scheme-drift"
  }

  datatype Machine = Machine(world: World, audits: seq<Audit>)

  function Audited(m: Machine, w: World, c: Context, r: Request, outcome: Outcome): Machine {
    Machine(w, m.audits + [Audit(c.transactionId, r.requestId, c.operationVersionId, OperationName(r.operation), outcome)])
  }

  function DispatchOf(m: Machine, r: Request, c: Context, s: Script): (Machine, Result<Json, ErrorCode>) {
    var refused := Verified(c, r.requestId, RequiredVersion(r.operation));
    if refused.Some? then (m, Err(refused.value))
    else if r.operation.PrepareRestorePoint? then
      if r.operation.preparedFor != c.transactionId then (m, Err(InvalidMessage))
      else if s.restorePointAllowed then
        (Audited(m, m.world, c, r, AcceptedObservationRequired), Ok(AcceptedReply(r.requestId)))
      else
        (Audited(m, m.world, c, r, Unavailable), Ok(UnavailableReply(r.requestId, "restore-point-unavailable")))
    else if EffectOf(r.operation).None? then (m, Err(InvalidMessage))
    else
      var (after, result) := UnderLease(m.world, c, EffectOf(r.operation).value, s);
      match result
      case Err(code) => (m.(world := after), Err(code))
      case Ok(false) =>
        (Audited(m, after, c, r, RejectedConflict), Ok(RejectedReply(r.requestId, DriftReason(r.operation))))
      case Ok(true) =>
        (Audited(m, after, c, r, AcceptedObservationRequired), Ok(AcceptedReply(r.requestId)))
  }

  // ---------------------------------------------------------------- the dispatcher

  class PhysicalOperationDispatcher {
    var world: World
    var audits: seq<Audit>

    function State(): Machine
      reads this
    {
      Machine(world, audits)
    }

    constructor (world: World)
      ensures State() == Machine(world, [])
    {
      this.world, audits := world, [];
    }

    method PushAudit(c: Context, r: Request, outcome: Outcome)
      modifies this`audits
      ensures State() == Audited(old(State()), world, c, r, outcome)
    {
      audits := audits + [Audit(c.transactionId, r.requestId, c.operationVersionId, OperationName(r.operation), outcome)];
    }

    /** The power port's mutation; only a finished one is a success. */
    method Mutate(e: Effect, s: Script) returns (done: bool)
      requires ActiveExists(world) && Matches(world, e) && !e.Look?
      modifies this`world
      ensures done == s.mutation.Done?
      ensures world == if done then Performed(old(world), e)
                       else if e.Copy? then HalfCopied(old(world), e.destination, s.mutation)
                       else old(world)
    {
      match e
      case Copy(source, destination) =>
        var original := world.schemes[source];
        if s.mutation.Refused? {
          return false;
        }
        if s.mutation.Stray? {
          if s.mutation.elsewhere !in world.schemes {
            world := world.(schemes := world.schemes[s.mutation.elsewhere := original]);
          }
          return false;
        }
        world := world.(schemes := world.schemes[destination := original]);
        if s.mutation.Unnamed? {
          return false;
        }
        original := original.(friendlyName := MANAGED_SCHEME_FRIENDLY_NAME);
        world := world.(schemes := world.schemes[destination := original]);
        if s.mutation.Undescribed? {
          return false;
        }
        original := original.(description := MANAGED_SCHEME_DESCRIPTION);
        world := world.(schemes := world.schemes[destination := original]);
        return true;
      case Switch(target, _) =>
        if s.mutation.Done? {
          world := world.(active := target);
        }
        return s.mutation.Done?;
      case Remove(victim, _) =>
        if s.mutation.Done? {
          world := world.(schemes := world.schemes - {victim});
        }
        return s.mutation.Done?;
    }

    /** The closure run on the impersonated thread: preflight, observe, compare, mutate. */
    method Run(e: Effect, s: Script) returns (result: Result<bool, ErrorCode>)
      modifies this`world
      ensures (world, result) == RunEffect(old(world), e, s)
    {
      if !e.Look? && !s.preflight {
        return Err(InvalidMessage);
      }
      if !s.activeReadable || world.active !in world.schemes {
        return Err(InvalidMessage);
      }
      if e.Look? {
        return Ok(true);
      }
      if e.Copy? && world.active != e.source {
        return Ok(false);
      }
      if !s.targetReadable {
        return Err(InvalidMessage);
      }
      if !Matches(world, e) {
        return Ok(false);
      }
      var done := Mutate(e, s);
      return if done then Ok(true) else Err(InvalidMessage);
    }

    method WithInteractiveUser(c: Context, e: Effect, s: Script) returns (result: Result<bool, ErrorCode>)
      modifies this`world
      ensures (world, result) == UnderLease(old(world), c, e, s)
    {
      if !LeaseMatches(c) {
        return Err(AuthenticationFailed);
      }
      if s.lease.RefusedBefore? {
        return Err(s.lease.refusal);
      }
      result := Run(e, s);
      if s.lease.LostAfter? {
        return Err(s.lease.loss);
      }
    }

    method Dispatch(r: Request, c: Context, s: Script) returns (reply: Result<Json, ErrorCode>)
      modifies this
      ensures (State(), reply) == DispatchOf(old(State()), r, c, s)
    {
      var refused := Verified(c, r.requestId, RequiredVersion(r.operation));
      if refused.Some? {
        return Err(refused.value);
      }
      if r.operation.PrepareRestorePoint? {
        if r.operation.preparedFor != c.transactionId {
          return Err(InvalidMessage);
        }
        if s.restorePointAllowed {
          PushAudit(c, r, AcceptedObservationRequired);
          return Ok(AcceptedReply(r.requestId));
        }
        PushAudit(c, r, Unavailable);
        return Ok(UnavailableReply(r.requestId, "restore-point-unavailable"));
      }
      var effect := EffectOf(r.operation);
      if effect.None? {
        return Err(InvalidMessage);
      }
      var dispatched := WithInteractiveUser(c, effect.value, s);
      match dispatched
      case Err(code) => return Err(code);
      case Ok(matched) =>
        if !matched {
          PushAudit(c, r, RejectedConflict);
          return Ok(RejectedReply(r.requestId, DriftReason(r.operation)));
        }
        PushAudit(c, r, AcceptedObservationRequired);
        return Ok(AcceptedReply(r.requestId));
    }
  }

  // ---------------------------------------------------------------- safety

  /**
   A step of the machine that the dispatcher may cause: the active scheme exists, no scheme is
   overwritten, only an owned and inactive one disappears, only an owned one becomes active.
   */
  ghost predicate SafeStep(w: World, v: World) {
    && ActiveExists(v)
    && (forall id :: id in w.schemes && id in v.schemes ==> v.schemes[id] == w.schemes[id])
    && (forall id :: id in w.schemes && id !in v.schemes ==> Owns(w, id) && id != w.active)
    && (v.active != w.active ==> Owns(w, v.active) && v.schemes == w.schemes)
  }

  /** At most one thing happened: a switch, or one new scheme, or one scheme less. */
  ghost predicate AtMostOneMutation(w: World, v: World) {
    || v == w
    || v.schemes == w.schemes
    || (v.active == w.active && exists id :: id !in w.schemes && id in v.schemes && v.schemes - {id} == w.schemes)
    || (v.active == w.active && exists id :: id in w.schemes && v.schemes == w.schemes - {id})
  }

  lemma PerformedIsSafe(w: World, e: Effect)
    requires ActiveExists(w) && Matches(w, e)
    ensures SafeStep(w, Performed(w, e)) && AtMostOneMutation(w, Performed(w, e))
  {
    if e.Copy? {
      AddingIsSafe(w, e.destination, ManagedCopy(w.schemes[w.active]));
    }
  }

  lemma AddingIsSafe(w: World, id: SchemeId, s: Scheme)
    requires ActiveExists(w) && id !in w.schemes
    ensures var v := w.(schemes := w.schemes[id := s]);
            SafeStep(w, v) && AtMostOneMutation(w, v)
  {
    var v := w.(schemes := w.schemes[id := s]);
    assert v.schemes - {id} == w.schemes;
  }

  lemma EffectIsSafe(w: World, e: Effect, s: Script)
    requires ActiveExists(w)
    ensures var v := RunEffect(w, e, s).0;
            SafeStep(w, v) && AtMostOneMutation(w, v)
  {
    if Matches(w, e) {
      PerformedIsSafe(w, e);
      if e.Copy? {
        var v := HalfCopied(w, e.destination, s.mutation);
        match s.mutation
        case Stray(elsewhere) =>
          if elsewhere !in w.schemes {
            AddingIsSafe(w, elsewhere, w.schemes[w.active]);
          }
        case Unnamed => AddingIsSafe(w, e.destination, w.schemes[w.active]);
        case Undescribed =>
          AddingIsSafe(w, e.destination, w.schemes[w.active].(friendlyName := MANAGED_SCHEME_FRIENDLY_NAME));
        case _ =>
      }
    }
  }

  /** A dispatch touches the machine only through its effect. */
  lemma OnlyTheEffectTouchesTheWorld(m: Machine, r: Request, c: Context, s: Script)
    ensures var v := DispatchOf(m, r, c, s).0.world;
            v != m.world ==>
              && Verified(c, r.requestId, RequiredVersion(r.operation)).None?
              && EffectOf(r.operation).Some? && LeaseMatches(c) && !s.lease.RefusedBefore?
              && v == RunEffect(m.world, EffectOf(r.operation).value, s).0
  {
  }

  /** Whatever is asked and whatever goes wrong, one dispatch is one safe step. */
  lemma DispatchIsSafe(m: Machine, r: Request, c: Context, s: Script)
    requires ActiveExists(m.world)
    ensures SafeStep(m.world, DispatchOf(m, r, c, s).0.world)
    ensures AtMostOneMutation(m.world, DispatchOf(m, r, c, s).0.world)
  {
    OnlyTheEffectTouchesTheWorld(m, r, c, s);
    if DispatchOf(m, r, c, s).0.world != m.world {
      EffectIsSafe(m.world, EffectOf(r.operation).value, s);
    }
  }

  lemma ReplyKindsDiffer(requestId: string, reason: string, other: string)
    ensures AcceptedReply(requestId) != RejectedReply(requestId, reason)
    ensures AcceptedReply(requestId) != UnavailableReply(requestId, reason)
    ensures RejectedReply(requestId, reason) != UnavailableReply(requestId, other)
  {
    var a, b, c := "broker-accepted-response", "broker-rejected-response", "broker-unavailable-response";
    assert a[7] == 'a' && b[7] == 'r' && c[7] == 'u';
    assert AcceptedReply(requestId).members[0].value.chars == a;
    assert RejectedReply(requestId, reason).members[0].value.chars == b;
    assert UnavailableReply(requestId, reason).members[0].value.chars == c;
    assert UnavailableReply(requestId, other).members[0].value.chars == c;
  }

  /**
   A reply tells the truth: accepted means the comparison held and the effect is there, rejected means it
   did not hold and nothing changed, unavailable means nothing changed.
   */
  lemma RepliesTellTheTruth(m: Machine, r: Request, c: Context, s: Script)
    requires ActiveExists(m.world) && !r.operation.PrepareRestorePoint?
    ensures var (after, reply) := DispatchOf(m, r, c, s);
            && (reply == Ok(AcceptedReply(r.requestId)) ==>
                  && EffectOf(r.operation).Some? && Matches(m.world, EffectOf(r.operation).value)
                  && after.world == Performed(m.world, EffectOf(r.operation).value))
            && (reply == Ok(RejectedReply(r.requestId, DriftReason(r.operation))) ==>
                  && EffectOf(r.operation).Some? && !Matches(m.world, EffectOf(r.operation).value)
                  && after.world == m.world)
            && (reply.Ok? ==>
                  reply.value in {AcceptedReply(r.requestId), RejectedReply(r.requestId, DriftReason(r.operation))})
  {
    ReplyKindsDiffer(r.requestId, DriftReason(r.operation), "");
  }

  /** An audit is written exactly for a reply, and says what the reply says. */
  lemma AuditsMirrorReplies(m: Machine, r: Request, c: Context, s: Script)
    ensures var (after, reply) := DispatchOf(m, r, c, s);
            && (reply.Err? ==> after.audits == m.audits)
            && (reply.Ok? ==>
                  && |after.audits| == |m.audits| + 1 && after.audits[..|m.audits|] == m.audits
                  && var last := after.audits[|m.audits|];
                     && last.transactionId == c.transactionId && last.requestId == r.requestId
                     && (last.outcome == AcceptedObservationRequired <==> reply.value == AcceptedReply(r.requestId))
                     && (last.outcome == RejectedConflict ==>
                           reply.value == RejectedReply(r.requestId, DriftReason(r.operation)))
                     && (last.outcome == Unavailable <==>
                           r.operation.PrepareRestorePoint? && !s.restorePointAllowed))
  {
    ReplyKindsDiffer(r.requestId, DriftReason(r.operation), "");
    ReplyKindsDiffer(r.requestId, "restore-point-unavailable", "");
  }

  /** The effect got as far as its mutation. */
  predicate ReachesMutation(w: World, c: Context, e: Effect, s: Script) {
    && LeaseMatches(c) && !s.lease.RefusedBefore?
    && !e.Look? && s.preflight && ActiveOf(w, s).Some? && s.targetReadable && Matches(w, e)
  }

  /** A half-way duplication left something. */
  predicate LeavesACopy(w: World, e: Effect, m: MutationOutcome) {
    e.Copy? && (m.Unnamed? || m.Undescribed? || (m.Stray? && m.elsewhere !in w.schemes))
  }

  /**
   An error does not mean that nothing happened. It hides a change exactly when the answer of a finished
   effect was lost, or when a duplication stopped half-way.
   */
  lemma ErrorHidesAChangeExactlyWhen(m: Machine, r: Request, c: Context, s: Script)
    requires ActiveExists(m.world) && DispatchOf(m, r, c, s).1.Err?
    requires Verified(c, r.requestId, RequiredVersion(r.operation)).None? && EffectOf(r.operation).Some?
    ensures var w, e := m.world, EffectOf(r.operation).value;
            DispatchOf(m, r, c, s).0.world != w <==>
            && ReachesMutation(w, c, e, s)
            && (|| (s.mutation.Done? && s.lease.LostAfter? && !(e.Switch? && e.target == w.active))
                || LeavesACopy(w, e, s.mutation))
  {
    var w, e := m.world, EffectOf(r.operation).value;
    if ReachesMutation(w, c, e, s) {
      match e
      case Copy(_, destination) =>
        assert destination in Performed(w, e).schemes;
        if LeavesACopy(w, e, s.mutation) {
          var copy := if s.mutation.Stray? then s.mutation.elsewhere else destination;
          assert copy in HalfCopied(w, destination, s.mutation).schemes;
        }
      case Remove(victim, _) => assert victim !in Performed(w, e).schemes;
      case _ =>
    }
  }

  /** A performed effect no longer matches: asking for it again is refused without a change. */
  lemma RepeatIsRefused(w: World, e: Effect)
    requires ActiveExists(w) && Matches(w, e)
    ensures Matches(Performed(w, e), e) <==> e.Look? || (e.Switch? && e.target == w.active)
  {
  }

  /** Removing a fresh copy under its source's fingerprint, and under no other, puts the world back. */
  lemma RemovingUndoesCopying(w: World, e: Effect, hash: string)
    requires ActiveExists(w) && e.Copy? && Matches(w, e)
    ensures var copied, removal := Performed(w, e), Remove(e.destination, hash);
            && (Matches(copied, removal) <==> hash == w.schemes[e.source].fingerprint)
            && Performed(copied, removal) == w
  {
    assert Performed(Performed(w, e), Remove(e.destination, hash)).schemes == w.schemes;
  }

  // ---------------------------------------------------------------- runs of dispatches

  datatype Call = Call(request: Request, context: Context, script: Script)

  function DispatchAll(m: Machine, calls: seq<Call>): Machine
    decreases |calls|
  {
    if calls == [] then m
    else DispatchAll(DispatchOf(m, calls[0].request, calls[0].context, calls[0].script).0, calls[1..])
  }

  /** What no run of dispatches can undo: schemes of others stay as they were, and they never become active. */
  ghost predicate Respects(w: World, v: World) {
    && ActiveExists(v)
    && (forall id :: id in w.schemes && !IsOwned(w.schemes[id]) ==> id in v.schemes && v.schemes[id] == w.schemes[id])
    && (v.active == w.active || Owns(v, v.active))
    && (Owns(w, w.active) ==> Owns(v, v.active))
  }

  lemma {:induction false} RunsRespectOthers(m: Machine, calls: seq<Call>)
    requires ActiveExists(m.world)
    ensures Respects(m.world, DispatchAll(m, calls).world)
    decreases |calls|
  {
    if calls != [] {
      var next := DispatchOf(m, calls[0].request, calls[0].context, calls[0].script).0;
      DispatchIsSafe(m, calls[0].request, calls[0].context, calls[0].script);
      RunsRespectOthers(next, calls[1..]);
      RespectsComposes(m.world, next.world, DispatchAll(next, calls[1..]).world);
    }
  }

  lemma RespectsComposes(u: World, v: World, w: World)
    requires SafeStep(u, v) && Respects(v, w)
    ensures Respects(u, w)
  {
  }
}
