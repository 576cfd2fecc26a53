/** What the broker's sessions guarantee: who is behind a principal, and under which authority effects run. */
module BrokerSessions {
  import opened Collections
  import opened CanonicalJson
  import opened DedupStores
  import opened Dispatchers
  import opened Brokers
  import opened BrokerRuns
  import opened Text

  // ---------------------------------------------------------------- principals

  lemma DecimalLacks(n: nat, separator: char)
    requires !('0' <= separator <= '9')
    ensures forall i :: 0 <= i < |Decimal(n)| ==> Decimal(n)[i] != separator
  {
    DecimalRoundTrip(n);
  }

  /** Text before a separator and a number can be told apart from the number, whatever else it contains. */
  lemma LastSeparatorSplits(a: string, m: nat, b: string, n: nat, separator: char)
    requires !('0' <= separator <= '9')
    requires a + [separator] + Decimal(m) == b + [separator] + Decimal(n)
    ensures a == b && m == n
  {
    var x, y := a + [separator] + Decimal(m), b + [separator] + Decimal(n);
    DecimalLacks(m, separator);
    DecimalLacks(n, separator);
    assert x[|a|] == separator && y[|b|] == separator;
    assert |a| == |b|;
    assert a == x[..|a|] && b == y[..|b|];
    assert Decimal(m) == x[|a| + 1..] && Decimal(n) == y[|b| + 1..];
    DecimalRoundTrip(m);
    DecimalRoundTrip(n);
  }

  /** Under one broker, a principal is one logon in one Windows session. */
  lemma PrincipalIsOneLogon(a: Identity, b: Identity)
    requires a.processImageHash == b.processImageHash
    ensures PrincipalId(a) == PrincipalId(b) <==> a.logonSid == b.logonSid && a.sessionId == b.sessionId
  {
    if PrincipalId(a) == PrincipalId(b) {
      var suffix := ":" + a.processImageHash;
      var x, y := a.logonSid + ":" + Decimal(a.sessionId), b.logonSid + ":" + Decimal(b.sessionId);
      assert PrincipalId(a) == x + suffix && PrincipalId(b) == y + suffix;
      assert |x| == |y|;
      assert x == (x + suffix)[..|x|] && y == (y + suffix)[..|y|];
      LastSeparatorSplits(a.logonSid, a.sessionId, b.logonSid, b.sessionId, ':');
    }
  }

  // ---------------------------------------------------------------- sessions

  /** A session belongs to an interactive logon running the expected program, and its token to that logon. */
  predicate SessionOk(config: Config, s: Session) {
    && s.interactiveSessionId != 0 && HasPrefix(s.interactiveLogonSid, LOGON_SID_PREFIX) && s.processId != 0
    && s.processImageHash == config.expectedProcessHash
    && s.principal == s.interactiveLogonSid + ":" + Decimal(s.interactiveSessionId) + ":" + s.processImageHash
    && (s.token.Some? ==>
          && s.token.value.sessionId == s.interactiveSessionId && s.token.value.logonSid == s.interactiveLogonSid
          && s.token.value.userSid != LOCAL_SYSTEM_SID)
  }

  ghost predicate SessionsOk(b: BrokerState) {
    && (forall id :: id in b.sessions ==> SessionOk(b.config, b.sessions[id]))
    && (b.stopping ==> b.sessions == map[])
  }

  lemma AuthenticatingKeepsSessions(p: Primitives, b: BrokerState, t: Tables, i: Identity, clientNonce: string,
                                    token: Option<Token>, entropy: nat, available: bool)
    requires SessionsOk(b)
    ensures SessionsOk(AuthenticateOf(p, b, t, i, clientNonce, token, entropy, available).0)
  {
  }

  lemma StepKeepsSessions(p: Primitives, r: Run, ev: Event)
    requires SessionsOk(r.broker)
    ensures SessionsOk(Step(p, r, ev).broker)
  {
    match ev
    case Authenticate(identity, clientNonce, token, entropy, available) =>
      AuthenticatingKeepsSessions(p, r.broker, r.tables, identity, clientNonce, token, entropy, available);
    case Submit(_, _, _, _, _) => SubmittingKeepsTheBroker(p, r, ev);
    case _ =>
  }

  lemma SubmittingKeepsTheBroker(p: Primitives, r: Run, ev: Event)
    requires ev.Submit?
    ensures StepSubmit(p, r, ev).broker == r.broker
  {
  }

  /** Over every run, every live session is bound to an accepted identity of this broker. */
  lemma {:induction false} RunKeepsSessions(p: Primitives, r: Run, events: seq<Event>)
    requires SessionsOk(r.broker)
    ensures SessionsOk(Steps(p, r, events).broker)
    decreases |events|
  {
    if events != [] {
      StepKeepsSessions(p, r, events[0]);
      RunKeepsSessions(p, Step(p, r, events[0]), events[1..]);
    }
  }

  /** A context made from a session passes every check the dispatcher repeats, if it has a token at all. */
  lemma ContextsAreVerified(config: Config, s: Session, e: Envelope, requestId: string, version: string)
    requires SessionOk(config, s) && !Blank(config.expectedProcessHash)
    ensures var c := ContextFor(s, e);
            && (s.token.Some? ==>
                  && LeaseMatches(c)
                  && (Verified(c, requestId, version).None? <==>
                        e.stepId == requestId && e.operationVersionId == version))
            && (s.token.None? ==> Verified(c, requestId, version).Some?)
  {
    assert s.interactiveLogonSid[0] == LOGON_SID_PREFIX[0];
    assert !IsWhitespace(s.interactiveLogonSid[0]);
    assert !Blank(s.interactiveLogonSid);
  }

  /** The submission was admitted for a live session holding a token of its own interactive user. */
  predicate ByTokenHolder(p: Primitives, r: Run, ev: Event)
    requires ev.Submit?
  {
    && AdmittedBy(p, r, ev).Ok? && !r.broker.stopping
    && var s := AdmittedBy(p, r, ev).value.session;
       && SessionOk(r.broker.config, s) && s.token.Some?
       && ev.signed.content.operationVersionId == POWER_SCHEME_OPERATION_VERSION
       && ev.signed.mac == p.mac(s.sessionKey, SignedDocument(ev.signed.content))
  }

  lemma AdmittedUnderALiveSession(p: Primitives, r: Run, ev: Event)
    requires ev.Submit? && AdmittedBy(p, r, ev).Ok? && SessionsOk(r.broker)
    ensures var s := AdmittedBy(p, r, ev).value.session;
            && !r.broker.stopping && SessionOk(r.broker.config, s)
            && ev.signed.mac == p.mac(s.sessionKey, SignedDocument(ev.signed.content))
  {
  }

  lemma ChangeNeedsAToken(p: Primitives, r: Run, ev: Event)
    requires ev.Submit? && SessionsOk(r.broker) && Step(p, r, ev).machine.world != r.machine.world
    ensures ByTokenHolder(p, r, ev)
  {
    if Reserves(p, r, ev) {
      var a := AdmittedBy(p, r, ev).value;
      AdmittedUnderALiveSession(p, r, ev);
      ReservedShape(p, r, ev);
      OnlyTheEffectTouchesTheWorld(r.machine, a.request, ContextFor(a.session, ev.signed.content), ev.script);
    } else {
      NotReservedMeansUntouched(p, r, ev);
    }
  }

  /**
   Over every run: a submission changes the machine only for a live session that holds a token of its own
   interactive user, signed with that session's key, and naming the version of the power operations.
   */
  lemma ChangesNeedATokenOfTheUser(p: Primitives, config: Config, world: World, events: seq<Event>, ev: Event)
    requires ev.Submit?
    ensures var r := Steps(p, Start(config, world), events);
            Step(p, r, ev).machine.world != r.machine.world ==> ByTokenHolder(p, r, ev)
  {
    var r := Steps(p, Start(config, world), events);
    RunKeepsSessions(p, Start(config, world), events);
    if Step(p, r, ev).machine.world != r.machine.world {
      ChangeNeedsAToken(p, r, ev);
    }
  }

  // ---------------------------------------------------------------- tickets

  /** The number under which a ticket's nonce was made. */
  lemma AuthenticationCounts(p: Primitives, b: BrokerState, t: Tables, i: Identity, clientNonce: string,
                             token: Option<Token>, entropy: nat, available: bool)
    ensures var (after, issued) := AuthenticateOf(p, b, t, i, clientNonce, token, entropy, available);
            && after.sequence >= b.sequence
            && (issued.Ok? ==>
                  && after.sequence == SaturatingNext(b.sequence)
                  && issued.value.serverNonce ==
                     p.derive(NonceText(i, clientNonce, after.sequence, entropy)))
  {
  }

  lemma {:induction false} SequenceOnlyGrows(p: Primitives, r: Run, events: seq<Event>)
    requires forall i :: 0 <= i < |events| ==> !events[i].Reopen?
    ensures Steps(p, r, events).broker.sequence >= r.broker.sequence
    decreases |events|
  {
    if events != [] {
      var ev := events[0];
      assert !ev.Reopen?;
      match ev {
      case Authenticate(identity, clientNonce, token, entropy, available) =>
        AuthenticationCounts(p, r.broker, r.tables, identity, clientNonce, token, entropy, available);
      case Submit(_, _, _, _, _) => SubmittingKeepsTheBroker(p, r, ev);
      case _ =>
      }
      SequenceOnlyGrows(p, Step(p, r, ev), events[1..]);
    }
  }

  function Authenticated(p: Primitives, r: Run, ev: Event): (BrokerState, Result<Ticket, ErrorCode>)
    requires ev.Authenticate?
  {
    AuthenticateOf(p, r.broker, r.tables, ev.identity, ev.clientNonce, ev.token, ev.entropy, ev.available)
  }

  /** The text a ticket's server nonce is derived from. */
  function TicketText(r: Run, ev: Event): string
    requires ev.Authenticate?
  {
    NonceText(ev.identity, ev.clientNonce, SaturatingNext(r.broker.sequence), ev.entropy)
  }

  /** The text determines the sequence number, whatever the client put into its nonce. */
  lemma NonceTextTellsTheSequence(i: Identity, clientNonce: string, m: nat, entropy: nat,
                                  j: Identity, otherNonce: string, n: nat, otherEntropy: nat)
    requires NonceText(i, clientNonce, m, entropy) == NonceText(j, otherNonce, n, otherEntropy)
    ensures m == n && entropy == otherEntropy
  {
    var a := clientNonce + "\0" + i.logonSid + "\0" + Decimal(i.sessionId) + "\0" + Decimal(i.processId);
    var b := otherNonce + "\0" + j.logonSid + "\0" + Decimal(j.sessionId) + "\0" + Decimal(j.processId);
    LastSeparatorSplits(a + "\0" + Decimal(m), entropy, b + "\0" + Decimal(n), otherEntropy, '\0');
    LastSeparatorSplits(a, m, b, n, '\0');
  }

  /**
   Between two openings no two tickets are derived from the same text, whatever the clock said and whatever
   the clients sent, so they share a server nonce only if the keyed hash collides on these two texts.
   */
  lemma TicketsAreDistinct(p: Primitives, r: Run, first: Event, between: seq<Event>, later: Run, second: Event)
    requires first.Authenticate? && second.Authenticate?
    requires forall i :: 0 <= i < |between| ==> !between[i].Reopen?
    requires later == Steps(p, Step(p, r, first), between) && later.broker.sequence < U64_MAX
    requires Authenticated(p, r, first).1.Ok? && Authenticated(p, later, second).1.Ok?
    ensures TicketText(r, first) != TicketText(later, second)
    ensures Authenticated(p, r, first).1.value.serverNonce == p.derive(TicketText(r, first))
    ensures Authenticated(p, later, second).1.value.serverNonce == p.derive(TicketText(later, second))
  {
    AuthenticationCounts(p, r.broker, r.tables, first.identity, first.clientNonce, first.token, first.entropy,
                         first.available);
    AuthenticationCounts(p, later.broker, later.tables, second.identity, second.clientNonce, second.token,
                         second.entropy, second.available);
    SequenceOnlyGrows(p, Step(p, r, first), between);
    if TicketText(r, first) == TicketText(later, second) {
      NonceTextTellsTheSequence(first.identity, first.clientNonce, SaturatingNext(r.broker.sequence), first.entropy,
                                second.identity, second.clientNonce, SaturatingNext(later.broker.sequence),
                                second.entropy);
    }
  }
}
