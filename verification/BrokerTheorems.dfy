/** What holds over every run of the broker. */
module BrokerTheorems {
  import opened Collections
  import opened CanonicalJson
  import opened DedupStores
  import opened Dispatchers
  import opened Brokers
  import opened BrokerRuns
  import opened Text

  // ---------------------------------------------------------------- at most once

  /**
   Over every run from empty tables, a principal's dispatched counters strictly increase and no nonce is
   dispatched twice for it, pruned or not.
   */
  lemma AtMostOnce(p: Primitives, config: Config, world: World, events: seq<Event>)
    requires ActiveExists(world) && EventsOk(events)
    ensures var log := Steps(p, Start(config, world), events).log;
            forall i, j :: 0 <= i < j < |log| && log[i].principal == log[j].principal ==>
                             log[i].counter < log[j].counter && log[i].nonce != log[j].nonce
  {
    StartIsOk(config, world);
    RunKeepsInv(p, Start(config, world), events);
  }

  /** Sending a dispatched request again, under any session of its principal, never dispatches. */
  lemma ReplayNeverDispatches(p: Primitives, r: Run, i: nat, ev: Event)
    requires Inv(r) && i < |r.log| && ev.Submit? && AdmittedBy(p, r, ev).Ok?
    requires AdmittedBy(p, r, ev).value.reservation.principal == r.log[i].principal
    requires || AdmittedBy(p, r, ev).value.reservation.nonce == r.log[i].nonce
             || AdmittedBy(p, r, ev).value.reservation.counter <= r.log[i].counter
    ensures Step(p, r, ev) == r
  {
    assert EntryOk(r, r.log[i]) && Remembers(r.tables, r.log[i]);
    assert !Reserves(p, r, ev);
    NotReservedMeansUntouched(p, r, ev);
  }

  /** Exactly when a submission dispatches. */
  lemma DispatchesExactlyWhen(p: Primitives, r: Run, ev: Event)
    requires Inv(r) && ev.Submit? && DigestsFit(p)
    ensures Submitted(p, r, ev).dispatched <==>
            && AdmittedBy(p, r, ev).Ok?
            && EnvelopeKey(ev.signed.content) !in r.tables.rows
            && !Replayed(r.tables, AdmittedBy(p, r, ev).value.reservation)
            && ev.faults.reserve && ReachesDispatch(ev.faults)
  {
    if AdmittedBy(p, r, ev).Ok? {
      AdmittedCounter(p, r, ev);
    }
    if Reserves(p, r, ev) {
      ReservedShape(p, r, ev);
      OnlyNewReservationsWrite(r.tables, AdmittedBy(p, r, ev).value.reservation);
    } else {
      NotReservedMeansUntouched(p, r, ev);
    }
  }

  predicate Exhausted(r: Run, principal: string) {
    principal in r.tables.counters && r.tables.counters[principal] == U32_MAX
  }

  /** `later` only adds dispatches of others. */
  ghost predicate OnlyOthersAdded(earlier: seq<Dispatched>, later: seq<Dispatched>, principal: string) {
    && |earlier| <= |later| && later[..|earlier|] == earlier
    && forall i :: |earlier| <= i < |later| ==> later[i].principal != principal
  }

  /** A principal whose counter has reached its maximum gets no ticket and no dispatch, ever again. */
  lemma {:induction false} ExhaustedPrincipalIsRefused(p: Primitives, r: Run, principal: string, events: seq<Event>)
    requires Inv(r) && EventsOk(events) && Exhausted(r, principal)
    ensures NextCounterOf(Steps(p, r, events).tables, principal) == Err(Integrity)
    ensures OnlyOthersAdded(r.log, Steps(p, r, events).log, principal)
    decreases |events|
  {
    if events != [] {
      var next := Step(p, r, events[0]);
      assert EventOk(events[0]);
      StepKeepsInv(p, r, events[0]);
      ExhaustedStep(p, r, principal, events[0]);
      ExhaustedPrincipalIsRefused(p, next, principal, events[1..]);
      OnlyOthersComposes(r.log, next.log, Steps(p, next, events[1..]).log, principal);
    }
  }

  lemma OnlyOthersComposes(a: seq<Dispatched>, b: seq<Dispatched>, c: seq<Dispatched>, principal: string)
    requires OnlyOthersAdded(a, b, principal) && OnlyOthersAdded(b, c, principal)
    ensures OnlyOthersAdded(a, c, principal)
  {
    assert c[..|a|] == c[..|b|][..|a|];
    forall i | |a| <= i < |c|
      ensures c[i].principal != principal
    {
      if i < |b| {
        assert c[..|b|][i] == b[i];
      }
    }
  }

  lemma ExhaustedStep(p: Primitives, r: Run, principal: string, ev: Event)
    requires Inv(r) && EventOk(ev) && Exhausted(r, principal)
    ensures Exhausted(Step(p, r, ev), principal)
    ensures OnlyOthersAdded(r.log, Step(p, r, ev).log, principal)
  {
    if ev.Submit? {
      if Reserves(p, r, ev) {
        AdmittedCounter(p, r, ev);
        OnlyNewReservationsWrite(r.tables, AdmittedBy(p, r, ev).value.reservation);
        ReservedShape(p, r, ev);
      } else {
        NotReservedMeansUntouched(p, r, ev);
      }
    }
  }

  // ---------------------------------------------------------------- the life of a row

  /** The row under `k` is the one a dispatch was made for. */
  predicate ServesRow(r: Run, d: Dispatched, k: Key) {
    k in r.tables.rows && k in r.origin && r.origin[k] == d.reservation
  }

  /** A reserved row was never dispatched; a dispatched one says so for as long as it is there. */
  lemma ReservedMeansNeverDispatched(p: Primitives, config: Config, world: World, events: seq<Event>, i: nat, k: Key)
    requires ActiveExists(world) && EventsOk(events)
    requires i < |Steps(p, Start(config, world), events).log|
    ensures var end := Steps(p, Start(config, world), events);
            ServesRow(end, end.log[i], k) ==>
              end.log[i].key == k && end.tables.rows[k].phase in {UnknownAfterCrash, Terminal}
  {
    StartIsOk(config, world);
    RunKeepsInv(p, Start(config, world), events);
    var end := Steps(p, Start(config, world), events);
    assert EntryOk(end, end.log[i]) && RowKnows(end, end.log[i], k);
  }

  /** Submitting a key whose row exists never dispatches and changes nothing; the answer depends on the row. */
  lemma RetransmissionOfARow(p: Primitives, r: Run, ev: Event)
    requires Inv(r) && ev.Submit? && AdmittedBy(p, r, ev).Ok? && ev.faults.reserve
    requires EnvelopeKey(ev.signed.content) in r.tables.rows
    ensures Step(p, r, ev) == r
    ensures var row, a := r.tables.rows[EnvelopeKey(ev.signed.content)], AdmittedBy(p, r, ev).value.reservation;
            Submitted(p, r, ev).reply ==
              if row.requestHash != a.requestHash || row.operationVersionId != a.operationVersionId then
                Err(DuplicateConflict)
              else if row.phase == Terminal then Ok(BrokerReply(TerminalReply, row.document.value))
              else Ok(BrokerReply(ObservationReply, ObservationRequiredDocument(ev.signed.content)))
  {
    AdmittedCounter(p, r, ev);
    assert RowOk(r.tables.rows[EnvelopeKey(ev.signed.content)]);
    NotReservedMeansUntouched(p, r, ev);
  }

  lemma NumberStep(p: Primitives, r: Run, ev: Event, k: Key, n: nat)
    requires Inv(r) && n < r.reservations && (k in r.origin ==> r.origin[k] != n)
    ensures n < Step(p, r, ev).reservations
    ensures k in Step(p, r, ev).origin ==> Step(p, r, ev).origin[k] != n
  {
  }

  /** A number once used for a reservation is not used again. */
  lemma {:induction false} NumbersAreNotReused(p: Primitives, r: Run, events: seq<Event>, k: Key, n: nat)
    requires Inv(r) && EventsOk(events) && n < r.reservations
    requires k in r.origin ==> r.origin[k] != n
    ensures var end := Steps(p, r, events);
            k in end.origin ==> end.origin[k] != n
    decreases |events|
  {
    if events != [] {
      assert EventOk(events[0]);
      StepKeepsInv(p, r, events[0]);
      NumberStep(p, r, events[0], k, n);
      NumbersAreNotReused(p, Step(p, r, events[0]), events[1..], k, n);
    }
  }

  /** The row is there still, and at most its recovery flag has been set. */
  predicate RowGoesOn(r: Run, next: Run, k: Key) {
    && SameRow(r, next, k)
    && (|| next.tables.rows[k] == r.tables.rows[k]
        || next.tables.rows[k] == r.tables.rows[k].(recoveryReferenced := true))
  }

  /** One step on one row: it is referenced for recovery at most, or a prune removes it. */
  lemma RowStep(p: Primitives, r: Run, ev: Event, k: Key)
    requires Inv(r) && EventOk(ev) && k in r.tables.rows
    ensures if k in Step(p, r, ev).tables.rows then RowGoesOn(r, Step(p, r, ev), k)
            else ev.Prune? && Prunable(r.tables.rows[k], HorizonCutoff(r.broker.config.now, ev.cutoff))
  {
    if ev.Submit? {
      RowUnderSubmit(p, r, ev, k);
    }
  }

  lemma RowUnderSubmit(p: Primitives, r: Run, ev: Event, k: Key)
    requires Inv(r) && ev.Submit? && k in r.tables.rows
    ensures RowGoesOn(r, Step(p, r, ev), k)
  {
    if Reserves(p, r, ev) {
      ReservedShape(p, r, ev);
    } else {
      NotReservedMeansUntouched(p, r, ev);
    }
  }

  /** Both runs hold the row that one reservation made under `k`. */
  predicate SameRow(r: Run, later: Run, k: Key) {
    && k in r.tables.rows && k in later.tables.rows
    && k in r.origin && k in later.origin && r.origin[k] == later.origin[k]
  }

  /**
   Once its submission is over, a row never changes again but for its recovery flag, which only goes up: its
   phase, its document and its completion time are those its own submission left.
   */
  lemma {:induction false} RowsNeverGoBack(p: Primitives, r: Run, events: seq<Event>, k: Key)
    requires Inv(r) && EventsOk(events) && SameRow(r, Steps(p, r, events), k)
    ensures RowGoesOn(r, Steps(p, r, events), k)
    decreases |events|
  {
    if events != [] {
      var next := Step(p, r, events[0]);
      assert EventOk(events[0]);
      StepKeepsInv(p, r, events[0]);
      RowStep(p, r, events[0], k);
      RunKeepsInv(p, next, events[1..]);
      if k in next.tables.rows {
        RowsNeverGoBack(p, next, events[1..], k);
      } else {
        NumbersAreNotReused(p, next, events[1..], k, r.origin[k]);
      }
    }
  }

  /** A row referenced for recovery outlives every prune. */
  lemma {:induction false} ReferencedRowsStay(p: Primitives, r: Run, events: seq<Event>, k: Key)
    requires Inv(r) && EventsOk(events) && k in r.tables.rows && r.tables.rows[k].recoveryReferenced
    ensures var end := Steps(p, r, events);
            RowGoesOn(r, end, k) && end.tables.rows[k].recoveryReferenced
    decreases |events|
  {
    if events != [] {
      assert EventOk(events[0]);
      StepKeepsInv(p, r, events[0]);
      RowStep(p, r, events[0], k);
      ReferencedRowsStay(p, Step(p, r, events[0]), events[1..], k);
    }
  }

  /** A row its submission left unfinished is there for good, and stays as unfinished as it was. */
  lemma {:induction false} UnfinishedRowsStay(p: Primitives, r: Run, events: seq<Event>, k: Key)
    requires Inv(r) && EventsOk(events) && k in r.tables.rows && r.tables.rows[k].phase != Terminal
    ensures RowGoesOn(r, Steps(p, r, events), k)
    decreases |events|
  {
    if events != [] {
      assert EventOk(events[0]);
      StepKeepsInv(p, r, events[0]);
      RowStep(p, r, events[0], k);
      UnfinishedRowsStay(p, Step(p, r, events[0]), events[1..], k);
    }
  }

  /** What a prune removes: finished, unreferenced rows older than both the cutoff and 180 days. */
  lemma PruneRemovesExactly(p: Primitives, r: Run, cutoff: int, k: Key)
    requires Inv(r) && k in r.tables.rows && cutoff >= I64_MIN
    requires r.broker.config.now - MAX_REPLAY_RETENTION_SECONDS >= I64_MIN
    ensures var row := r.tables.rows[k];
            k !in Step(p, r, Prune(cutoff)).tables.rows <==>
            && row.phase == Terminal && !row.recoveryReferenced
            && row.completedAt.value < cutoff
            && row.completedAt.value < r.broker.config.now - MAX_REPLAY_RETENTION_SECONDS
  {
    assert RowOk(r.tables.rows[k]);
  }

  /** The row a submission made or found under its key. */
  function RowLeft(p: Primitives, r: Run, ev: Event): Option<Row>
    requires ev.Submit?
  {
    var rows, k := Step(p, r, ev).tables.rows, EnvelopeKey(ev.signed.content);
    if k in rows then Some(rows[k]) else None
  }

  ghost predicate Finished(p: Primitives, r: Run, ev: Event)
    requires ev.Submit?
  {
    RowLeft(p, r, ev).Some? && RowLeft(p, r, ev).value.phase == Terminal
  }

  /**
   Once a submission has recorded the dispatcher's answer, even if the process died before sending it, the
   same request, re-signed for any session and with its members in any order, gets that very answer until the
   row is pruned.
   */
  lemma RetransmissionGetsTheRecordedAnswer(p: Primitives, r: Run, first: Event, events: seq<Event>, end: Run,
                                            again: Event)
    requires Inv(r) && first.Submit? && again.Submit? && EventsOk(events)
    requires AdmittedBy(p, r, first).Ok? && Submitted(p, r, first).dispatched && Finished(p, r, first)
    requires end == Steps(p, Step(p, r, first), events)
    requires SameRow(Step(p, r, first), end, EnvelopeKey(first.signed.content))
    requires AdmittedBy(p, end, again).Ok? && again.faults.reserve
    requires WellFormed(first.signed.content.request) && WellFormed(again.signed.content.request)
    requires SameRequest(first.signed.content, again.signed.content)
    ensures var answer := DispatchAnswer(r, AdmittedBy(p, r, first).value, first);
            && answer.Ok? && Submitted(p, end, again).reply == Ok(BrokerReply(TerminalReply, answer.value))
    ensures Submitted(p, r, first).reply.Ok? ==> Submitted(p, end, again).reply == Submitted(p, r, first).reply
    ensures Step(p, end, again) == end
  {
    var next, k := Step(p, r, first), EnvelopeKey(first.signed.content);
    CompletedExactlyWhen(p, r, first);
    RecordedRow(p, r, first);
    StepKeepsInv(p, r, first);
    RunKeepsInv(p, next, events);
    RowsNeverGoBack(p, next, events, k);
    HashInputsEqualExactlyWhen(first.signed.content, again.signed.content);
    SameHash(p, r, first, end, again);
    RetransmissionOfARow(p, end, again);
  }

  /**
   A different request under the key of an existing row conflicts, whatever became of the first one, unless
   the digest collides on the two documents.
   */
  lemma DifferingRequestConflicts(p: Primitives, r: Run, first: Event, events: seq<Event>, end: Run, again: Event)
    requires Inv(r) && first.Submit? && again.Submit? && EventsOk(events)
    requires Reserves(p, r, first) && end == Steps(p, Step(p, r, first), events)
    requires SameRow(Step(p, r, first), end, EnvelopeKey(first.signed.content))
    requires AdmittedBy(p, end, again).Ok? && again.faults.reserve
    requires WellFormed(first.signed.content.request) && WellFormed(again.signed.content.request)
    requires EnvelopeKey(again.signed.content) == EnvelopeKey(first.signed.content)
    requires !SameRequest(first.signed.content, again.signed.content)
    requires p.digest(HashDocument(first.signed.content)) == p.digest(HashDocument(again.signed.content)) ==>
               HashDocument(first.signed.content) == HashDocument(again.signed.content)
    ensures Submitted(p, end, again).reply == Err(DuplicateConflict)
    ensures Step(p, end, again) == end
  {
    var next, k := Step(p, r, first), EnvelopeKey(first.signed.content);
    ReservedRow(p, r, first);
    StepKeepsInv(p, r, first);
    RunKeepsInv(p, next, events);
    RowsNeverGoBack(p, next, events, k);
    HashInputsEqualExactlyWhen(first.signed.content, again.signed.content);
    AdmittedHash(p, end, again);
    RetransmissionOfARow(p, end, again);
  }

  lemma AdmittedHash(p: Primitives, r: Run, ev: Event)
    requires ev.Submit? && AdmittedBy(p, r, ev).Ok?
    ensures AdmittedBy(p, r, ev).value.reservation.requestHash == p.digest(HashDocument(ev.signed.content))
  {
  }

  /** A reserving submission leaves its hash in its row. */
  lemma ReservedRow(p: Primitives, r: Run, ev: Event)
    requires ev.Submit? && Reserves(p, r, ev)
    ensures EnvelopeKey(ev.signed.content) in Step(p, r, ev).tables.rows
    ensures Step(p, r, ev).tables.rows[EnvelopeKey(ev.signed.content)].requestHash
            == p.digest(HashDocument(ev.signed.content))
  {
    AdmittedCounter(p, r, ev);
    AdmittedHash(p, r, ev);
    ReservedShape(p, r, ev);
  }

  /**
   A submission that made a row and did not finish it, whatever stopped it, the death of the process included,
   is never dispatched again under its key: over every later run the same request, re-signed for any session,
   gets observation-required.
   */
  lemma UnfinishedRequestNeedsObservation(p: Primitives, r: Run, first: Event, events: seq<Event>, end: Run, again: Event)
    requires Inv(r) && first.Submit? && again.Submit? && EventsOk(events)
    requires Reserves(p, r, first) && !Finished(p, r, first)
    requires end == Steps(p, Step(p, r, first), events)
    requires AdmittedBy(p, end, again).Ok? && again.faults.reserve
    requires WellFormed(first.signed.content.request) && WellFormed(again.signed.content.request)
    requires SameRequest(first.signed.content, again.signed.content)
    ensures Submitted(p, end, again).reply ==
            Ok(BrokerReply(ObservationReply, ObservationRequiredDocument(again.signed.content)))
    ensures Step(p, end, again) == end
  {
    var next, k := Step(p, r, first), EnvelopeKey(first.signed.content);
    UnfinishedRow(p, r, first);
    StepKeepsInv(p, r, first);
    RunKeepsInv(p, next, events);
    UnfinishedRowsStay(p, next, events, k);
    HashInputsEqualExactlyWhen(first.signed.content, again.signed.content);
    SameHash(p, r, first, end, again);
    RetransmissionOfARow(p, end, again);
  }

  /** A reserving submission leaves a row of its own; without a reply it is unfinished, unless the process died last. */
  lemma UnfinishedRow(p: Primitives, r: Run, ev: Event)
    requires ev.Submit? && Reserves(p, r, ev) && !Finished(p, r, ev)
    ensures Submitted(p, r, ev).reply.Err?
    ensures EnvelopeKey(ev.signed.content) in Step(p, r, ev).tables.rows
    ensures var row, a := Step(p, r, ev).tables.rows[EnvelopeKey(ev.signed.content)], AdmittedBy(p, r, ev).value.reservation;
            && row.requestHash == a.requestHash && row.operationVersionId == a.operationVersionId
            && row.phase != Terminal
  {
    AdmittedCounter(p, r, ev);
    ReservedShape(p, r, ev);
  }

  /** An answered submission has left its answer in its row. */
  lemma RecordedRow(p: Primitives, r: Run, ev: Event)
    requires Inv(r) && ev.Submit? && Submitted(p, r, ev).dispatched && Finished(p, r, ev)
    ensures AdmittedBy(p, r, ev).Ok? && EnvelopeKey(ev.signed.content) in Step(p, r, ev).tables.rows
    ensures var row, a := Step(p, r, ev).tables.rows[EnvelopeKey(ev.signed.content)], AdmittedBy(p, r, ev).value.reservation;
            && row.requestHash == a.requestHash && row.operationVersionId == a.operationVersionId
            && row.phase == Terminal && row.document.Some?
  {
    assert Reserves(p, r, ev) by {
      if !Reserves(p, r, ev) {
        NotReservedMeansUntouched(p, r, ev);
      }
    }
    ReservedShape(p, r, ev);
    AdmittedCounter(p, r, ev);
  }

  /** The dispatcher's answer to a submission. */
  function DispatchAnswer(r: Run, a: Admitted, ev: Event): Result<Json, ErrorCode>
    requires ev.Submit?
  {
    DispatchOf(r.machine, a.request, ContextFor(a.session, ev.signed.content), ev.script).1
  }

  /**
   A dispatched submission ends terminal exactly when the dispatcher answered, nothing failed after it and
   the answer is a valid response; the row then holds that very answer and the broker's time, and the client
   gets it, unless the process dies first. In every other case the row stays unknown and the client gets an error.
   */
  lemma CompletedExactlyWhen(p: Primitives, r: Run, ev: Event)
    requires ev.Submit? && Submitted(p, r, ev).dispatched
    ensures AdmittedBy(p, r, ev).Ok? && EnvelopeKey(ev.signed.content) in Step(p, r, ev).tables.rows
    ensures var row, answer := Step(p, r, ev).tables.rows[EnvelopeKey(ev.signed.content)],
                               DispatchAnswer(r, AdmittedBy(p, r, ev).value, ev);
            if answer.Ok? && ev.faults.point != AfterDispatch && ev.faults.record && p.validResponse(answer.value) then
              && row.phase == Terminal && row.document == Some(answer.value)
              && row.completedAt == Some(r.broker.config.now)
              && Submitted(p, r, ev).reply == (if ev.faults.point == DiesAfterRecord then Err(ServerStopping)
                                               else Ok(BrokerReply(TerminalReply, answer.value)))
            else
              row.phase == UnknownAfterCrash && row.document == None && Submitted(p, r, ev).reply.Err?
  {
    assert Reserves(p, r, ev) by {
      if !Reserves(p, r, ev) {
        NotReservedMeansUntouched(p, r, ev);
      }
    }
    AdmittedCounter(p, r, ev);
    var a := AdmittedBy(p, r, ev).value;
    OnlyNewReservationsWrite(r.tables, a.reservation);
    ServedExactlyWhen(p, r.broker.config.now, r.tables, r.machine, a, ev.signed.content, ev.faults, ev.script);
  }

  lemma ServedExactlyWhen(p: Primitives, now: int, t: Tables, m: Machine, a: Admitted, e: Envelope, f: Faults, s: Script)
    requires f.reserve && ReserveOf(t, a.reservation).1 == Ok(New) && a.reservation.key == EnvelopeKey(e)
    requires Serve(p, now, t, m, a, e, f, s).dispatched
    ensures EnvelopeKey(e) in Serve(p, now, t, m, a, e, f, s).tables.rows
    ensures var done, answer := Serve(p, now, t, m, a, e, f, s), DispatchOf(m, a.request, ContextFor(a.session, e), s).1;
            var row := done.tables.rows[EnvelopeKey(e)];
            if answer.Ok? && f.point != AfterDispatch && f.record && p.validResponse(answer.value) then
              && row.phase == Terminal && row.document == Some(answer.value) && row.completedAt == Some(now)
              && done.reply == (if f.point == DiesAfterRecord then Err(ServerStopping)
                                else Ok(BrokerReply(TerminalReply, answer.value)))
            else
              row.phase == UnknownAfterCrash && row.document == None && done.reply.Err?
  {
    var reserved := ReserveOf(t, a.reservation).0;
    var marked := MarkUnknownOf(reserved, EnvelopeKey(e)).0;
    assert marked.rows[EnvelopeKey(e)] == FreshRow(a.reservation).(phase := UnknownAfterCrash);
  }

  lemma SameHash(p: Primitives, r: Run, first: Event, end: Run, again: Event)
    requires first.Submit? && again.Submit? && AdmittedBy(p, r, first).Ok? && AdmittedBy(p, end, again).Ok?
    requires HashDocument(first.signed.content) == HashDocument(again.signed.content)
    requires SameRequest(first.signed.content, again.signed.content)
    ensures var a, b := AdmittedBy(p, r, first).value.reservation, AdmittedBy(p, end, again).value.reservation;
            a.requestHash == b.requestHash && a.operationVersionId == b.operationVersionId && a.key == b.key
  {
  }

  // ---------------------------------------------------------------- service and its end

  /** A fresh ticket is good for a dispatch: nothing stands in the way of a new, well-signed request. */
  lemma FreshTicketIsServed(p: Primitives, r: Run, identity: Identity, clientNonce: string, token: Option<Token>,
                            entropy: nat, e: Envelope, elapsed: nat, s: Script)
    requires Inv(r) && DigestsFit(p)
    requires var issued := AuthenticateOf(p, r.broker, r.tables, identity, clientNonce, token, entropy, true).1;
             && issued.Ok? && e.serverNonce == issued.value.serverNonce
             && p.parse(e.request).Some? && p.parse(e.request).value.counter == issued.value.nextCounter
    requires ValidRequest(p.parse(e.request), e.transactionId, e.stepId).Some?
    requires !Blank(e.transactionId) && !Blank(e.stepId) && !Blank(e.operationVersionId)
    requires elapsed <= r.broker.config.requestTimeoutMillis
    requires p.encodedLength(e.request) <= r.broker.config.maxMessageBytes
    requires EnvelopeKey(e) !in r.tables.rows
    requires PrincipalNonce(PrincipalId(identity), p.parse(e.request).value.nonce) !in r.tables.nonces
    ensures var ticket := AuthenticateOf(p, r.broker, r.tables, identity, clientNonce, token, entropy, true).1.value;
            var next := Step(p, r, Authenticate(identity, clientNonce, token, entropy, true));
            var signed := Brokers.Signed(p, ticket, e.transactionId, e.stepId, e.operationVersionId, e.request);
            Submitted(p, next, Submit(ticket, signed, Faults(NoFault, true, true, true), elapsed, s)).dispatched
  {
    var ticket := AuthenticateOf(p, r.broker, r.tables, identity, clientNonce, token, entropy, true).1.value;
    var authenticate := Authenticate(identity, clientNonce, token, entropy, true);
    var next := Step(p, r, authenticate);
    var signed := Brokers.Signed(p, ticket, e.transactionId, e.stepId, e.operationVersionId, e.request);
    assert signed.content == e;
    StepKeepsInv(p, r, authenticate);
    DispatchesExactlyWhen(p, next, Submit(ticket, signed, Faults(NoFault, true, true, true), elapsed, s));
  }

  /** From preshutdown to the next opening, nothing is dispatched and no session exists. */
  lemma {:induction false} NothingIsServedWhileStopping(p: Primitives, r: Run, events: seq<Event>)
    requires r.broker.stopping && r.broker.sessions == map[]
    requires forall i :: 0 <= i < |events| ==> !events[i].Reopen?
    ensures var end := Steps(p, r, events);
            end.broker.stopping && end.broker.sessions == map[] && end.log == r.log
            && end.tables.counters == r.tables.counters && end.tables.nonces == r.tables.nonces
            && end.tables.rows.Keys <= r.tables.rows.Keys
    decreases |events|
  {
    if events != [] {
      StoppingStep(p, r, events[0]);
      NothingIsServedWhileStopping(p, Step(p, r, events[0]), events[1..]);
    }
  }

  lemma StoppingStep(p: Primitives, r: Run, ev: Event)
    requires r.broker.stopping && r.broker.sessions == map[] && !ev.Reopen?
    ensures var next := Step(p, r, ev);
            next.broker.stopping && next.broker.sessions == map[] && next.log == r.log
            && next.tables.counters == r.tables.counters && next.tables.nonces == r.tables.nonces
            && next.tables.rows.Keys <= r.tables.rows.Keys
  {
    if ev.Submit? {
      NotReservedMeansUntouched(p, r, ev);
    }
  }

  // ---------------------------------------------------------------- the machine

  /** Each row accounts for at most one dispatch, and that dispatch for at most one change of the machine. */
  lemma OneMutationPerRow(p: Primitives, config: Config, world: World, events: seq<Event>, k: Key, i: nat, j: nat)
    requires ActiveExists(world) && EventsOk(events)
    requires var end := Steps(p, Start(config, world), events);
             && k in end.origin && i < |end.log| && j < |end.log|
             && end.log[i].reservation == end.origin[k] == end.log[j].reservation
    ensures i == j
    ensures var d := Steps(p, Start(config, world), events).log[i];
            AtMostOneMutation(d.before, d.after) && SafeStep(d.before, d.after)
  {
    StartIsOk(config, world);
    RunKeepsInv(p, Start(config, world), events);
    var log := Steps(p, Start(config, world), events).log;
    assert EntryOk(Steps(p, Start(config, world), events), log[i]);
  }

  /** What the log gained is about other keys. */
  ghost predicate OtherKeysAdded(earlier: seq<Dispatched>, later: seq<Dispatched>, k: Key) {
    && |earlier| <= |later| && later[..|earlier|] == earlier
    && forall i :: |earlier| <= i < |later| ==> later[i].key != k
  }

  lemma OtherKeysStep(p: Primitives, r: Run, ev: Event, k: Key)
    requires Inv(r) && k in r.tables.rows
    ensures OtherKeysAdded(r.log, Step(p, r, ev).log, k)
  {
    if ev.Submit? {
      if Reserves(p, r, ev) {
        ReservedShape(p, r, ev);
      } else {
        NotReservedMeansUntouched(p, r, ev);
      }
    }
  }

  lemma OtherKeysCompose(a: seq<Dispatched>, b: seq<Dispatched>, c: seq<Dispatched>, k: Key)
    requires OtherKeysAdded(a, b, k) && OtherKeysAdded(b, c, k)
    ensures OtherKeysAdded(a, c, k)
  {
    assert c[..|a|] == c[..|b|][..|a|];
    forall i | |a| <= i < |c|
      ensures c[i].key != k
    {
      if i < |b| {
        assert c[..|b|][i] == b[i];
      }
    }
  }

  /** While the row under a transaction and step is not pruned, nothing is dispatched under that key again. */
  lemma {:induction false} NoSecondDispatchUnderAKey(p: Primitives, r: Run, events: seq<Event>, k: Key)
    requires Inv(r) && EventsOk(events) && SameRow(r, Steps(p, r, events), k)
    ensures OtherKeysAdded(r.log, Steps(p, r, events).log, k)
    decreases |events|
  {
    if events != [] {
      var next := Step(p, r, events[0]);
      assert EventOk(events[0]);
      StepKeepsInv(p, r, events[0]);
      RowStep(p, r, events[0], k);
      if k in next.tables.rows {
        OtherKeysStep(p, r, events[0], k);
        NoSecondDispatchUnderAKey(p, next, events[1..], k);
        OtherKeysCompose(r.log, next.log, Steps(p, next, events[1..]).log, k);
      } else {
        RunKeepsInv(p, next, events[1..]);
        NumbersAreNotReused(p, next, events[1..], k, r.origin[k]);
      }
    }
  }

  ghost predicate Undisturbed(events: seq<Event>) {
    forall i :: 0 <= i < |events| ==> !events[i].Environment?
  }

  /** The log accounts for the machine: its entries link the first world to the last. */
  ghost predicate Accounts(log: seq<Dispatched>, from: World, to: World) {
    if log == [] then from == to
    else log[|log| - 1].after == to && Accounts(log[..|log| - 1], from, log[|log| - 1].before)
  }

  /** Without outside interference every change of the machine is a dispatch in the log. */
  lemma {:induction false} TheLogAccountsForTheMachine(p: Primitives, r: Run, events: seq<Event>, from: World)
    requires Undisturbed(events) && Accounts(r.log, from, r.machine.world)
    ensures Accounts(Steps(p, r, events).log, from, Steps(p, r, events).machine.world)
    decreases |events|
  {
    if events != [] {
      assert !events[0].Environment?;
      AccountingStep(p, r, events[0], from);
      TheLogAccountsForTheMachine(p, Step(p, r, events[0]), events[1..], from);
    }
  }

  lemma AccountingStep(p: Primitives, r: Run, ev: Event, from: World)
    requires !ev.Environment? && Accounts(r.log, from, r.machine.world)
    ensures Accounts(Step(p, r, ev).log, from, Step(p, r, ev).machine.world)
  {
    if ev.Submit? {
      var next := Step(p, r, ev);
      if Reserves(p, r, ev) {
        ReservedShape(p, r, ev);
        if Submitted(p, r, ev).dispatched {
          assert next.log[..|next.log| - 1] == r.log;
        }
      } else {
        NotReservedMeansUntouched(p, r, ev);
      }
    }
  }

  /** Nor does any undisturbed run touch schemes of others, or activate one. */
  lemma {:induction false} RunsRespectOtherSchemes(p: Primitives, r: Run, events: seq<Event>)
    requires Inv(r) && Undisturbed(events)
    ensures Respects(r.machine.world, Steps(p, r, events).machine.world)
    decreases |events|
  {
    if events != [] {
      var next := Step(p, r, events[0]);
      assert !events[0].Environment?;
      StepKeepsInv(p, r, events[0]);
      UndisturbedStepIsSafe(p, r, events[0]);
      RunsRespectOtherSchemes(p, next, events[1..]);
      RespectsComposes(r.machine.world, next.machine.world, Steps(p, next, events[1..]).machine.world);
    }
  }

  lemma UndisturbedStepIsSafe(p: Primitives, r: Run, ev: Event)
    requires Inv(r) && !ev.Environment?
    ensures SafeStep(r.machine.world, Step(p, r, ev).machine.world)
  {
    if ev.Submit? {
      if Reserves(p, r, ev) {
        var a := AdmittedBy(p, r, ev).value;
        ReservedShape(p, r, ev);
        DispatchIsSafe(r.machine, a.request, ContextFor(a.session, ev.signed.content), ev.script);
      } else {
        NotReservedMeansUntouched(p, r, ev);
      }
    }
  }
}
