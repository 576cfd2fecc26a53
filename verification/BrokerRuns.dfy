/**
 Runs of the broker: sessions come and go, requests are submitted under every fault, the process is
 reopened, rows are referenced and pruned, and the machine's power schemes change from outside. The run
 numbers its reservations and keeps a log of its dispatches.
 */
module BrokerRuns {
  import opened Collections
  import opened CanonicalJson
  import opened DedupStores
  import opened Dispatchers
  import opened Brokers

  /** One dispatch: the reservation it was made for, who asked, and the machine around it. */
  datatype Dispatched = Dispatched(
    reservation: nat, key: Key, principal: string, nonce: string, counter: int, before: World, after: World)

  /** `origin` says which reservation made the row under a key. */
  datatype Run = Run(
    broker: BrokerState,
    tables: Tables,
    machine: Machine,
    log: seq<Dispatched>,
    origin: map<Key, nat>,
    reservations: nat)

  datatype Event =
    | Authenticate(identity: Identity, clientNonce: string, token: Option<Token>, entropy: nat, available: bool)
    | Submit(ticket: Ticket, signed: SignedEnvelope, faults: Faults, elapsed: nat, script: Script)
    | Reopen(config: Config)
    | Prune(cutoff: int)
    | Refer(key: Key)
    | Disconnect(ticket: Ticket)
    | Preshutdown
    | Environment(world: World)

  function Start(config: Config, world: World): Run {
    Run(Opened(config), EmptyTables, Machine(world, []), [], map[], 0)
  }

  function Submitted(p: Primitives, r: Run, ev: Event): Submission
    requires ev.Submit?
  {
    SubmitOf(p, r.broker, r.tables, r.machine, ev.ticket, ev.signed, ev.faults, ev.elapsed, ev.script)
  }

  function AdmittedBy(p: Primitives, r: Run, ev: Event): Result<Admitted, ErrorCode>
    requires ev.Submit?
  {
    Admit(p, r.broker, ev.ticket, ev.signed, ev.elapsed)
  }

  /** The submission makes a new row. */
  predicate Reserves(p: Primitives, r: Run, ev: Event)
    requires ev.Submit?
  {
    && AdmittedBy(p, r, ev).Ok? && ev.faults.reserve
    && ReserveOf(r.tables, AdmittedBy(p, r, ev).value.reservation).1 == Ok(New)
  }

  function LogEntry(r: Run, a: Admitted, after: World): Dispatched {
    Dispatched(r.reservations, a.reservation.key, a.reservation.principal, a.reservation.nonce,
               a.reservation.counter, r.machine.world, after)
  }

  function StepSubmit(p: Primitives, r: Run, ev: Event): Run
    requires ev.Submit?
  {
    var done := Submitted(p, r, ev);
    var moved := r.(tables := done.tables, machine := done.machine);
    if Reserves(p, r, ev) then
      var a := AdmittedBy(p, r, ev).value;
      moved.(
        log := if done.dispatched then r.log + [LogEntry(r, a, done.machine.world)] else r.log,
        origin := r.origin[a.reservation.key := r.reservations],
        reservations := r.reservations + 1)
    else
      moved
  }

  function StepPrune(r: Run, cutoff: int): Run {
    var pruned := PruneOf(r.tables, HorizonCutoff(r.broker.config.now, cutoff));
    r.(tables := pruned, origin := map k | k in r.origin && k in pruned.rows :: r.origin[k])
  }

  function Step(p: Primitives, r: Run, ev: Event): Run {
    match ev
    case Authenticate(identity, clientNonce, token, entropy, available) =>
      r.(broker := AuthenticateOf(p, r.broker, r.tables, identity, clientNonce, token, entropy, available).0)
    case Submit(_, _, _, _, _) => StepSubmit(p, r, ev)
    case Reopen(config) => r.(broker := Opened(config))
    case Prune(cutoff) => StepPrune(r, cutoff)
    case Refer(key) => r.(tables := SetReferenceOf(r.tables, key, true).0)
    case Disconnect(ticket) => r.(broker := r.broker.(sessions := r.broker.sessions - {ticket.sessionId}))
    case Preshutdown => r.(broker := r.broker.(sessions := map[], stopping := true))
    case Environment(world) => r.(machine := r.machine.(world := world))
  }

  function Steps(p: Primitives, r: Run, events: seq<Event>): Run
    decreases |events|
  {
    if events == [] then r else Steps(p, Step(p, r, events[0]), events[1..])
  }

  /** Whatever changes the machine from outside, some scheme stays active. */
  predicate EventOk(ev: Event) {
    ev.Environment? ==> ActiveExists(ev.world)
  }

  ghost predicate EventsOk(events: seq<Event>) {
    forall i :: 0 <= i < |events| ==> EventOk(events[i])
  }

  // ---------------------------------------------------------------- invariant

  /** Later dispatches serve later reservations; a principal never repeats a nonce and counts upwards. */
  ghost predicate LogOrdered(log: seq<Dispatched>) {
    forall i, j :: 0 <= i < j < |log| ==>
      && log[i].reservation < log[j].reservation
      && (log[i].principal == log[j].principal ==>
            log[i].counter < log[j].counter && log[i].nonce != log[j].nonce)
  }

  predicate Remembers(t: Tables, d: Dispatched) {
    && d.principal in t.counters && d.counter <= t.counters[d.principal]
    && PrincipalNonce(d.principal, d.nonce) in t.nonces
  }

  /** If the row under `k` was made by the reservation this dispatch served, the row says so. */
  predicate RowKnows(r: Run, d: Dispatched, k: Key) {
    k in r.tables.rows && k in r.origin && d.reservation == r.origin[k] ==>
      d.key == k && r.tables.rows[k].phase != Reserved
  }

  ghost predicate EntryOk(r: Run, d: Dispatched) {
    && d.reservation < r.reservations
    && Remembers(r.tables, d)
    && (forall k :: RowKnows(r, d, k))
    && SafeStep(d.before, d.after) && AtMostOneMutation(d.before, d.after)
  }

  ghost predicate OriginsOk(r: Run) {
    && r.origin.Keys == r.tables.rows.Keys
    && (forall k :: k in r.origin ==> r.origin[k] < r.reservations)
  }

  ghost predicate Inv(r: Run) {
    && SchemaOk(r.tables)
    && ActiveExists(r.machine.world)
    && OriginsOk(r)
    && LogOrdered(r.log)
    && (forall i :: 0 <= i < |r.log| ==> EntryOk(r, r.log[i]))
  }

  lemma StartIsOk(config: Config, world: World)
    requires ActiveExists(world)
    ensures Inv(Start(config, world))
  {
  }

  // ---------------------------------------------------------------- one submission

  /** What a submission that makes no row leaves: everything as it was. */
  lemma NotReservedMeansUntouched(p: Primitives, r: Run, ev: Event)
    requires ev.Submit? && !Reserves(p, r, ev)
    ensures Submitted(p, r, ev).tables == r.tables && Submitted(p, r, ev).machine == r.machine
    ensures !Submitted(p, r, ev).dispatched
  {
    if AdmittedBy(p, r, ev).Ok? && ev.faults.reserve {
      OnlyNewReservationsWrite(r.tables, AdmittedBy(p, r, ev).value.reservation);
    }
  }

  /**
   The row a submission leaves. A reserved row was not dispatched; a row that was not dispatched is reserved,
   unless the process died right after the mark; a terminal row holds what was replied, unless it died then.
   */
  ghost predicate RowAfter(row: Row, born: Row, done: Submission, point: FaultPoint) {
    && (row.phase == Reserved ==> !done.dispatched)
    && (row.phase != Reserved ==> done.dispatched || (point == DiesAfterMark && row.phase == UnknownAfterCrash))
    && RowOk(row) && Advances(born, row)
    && (row.completedAt == None || row.completedAt == Some(born.createdAt))
    && (row.phase == Terminal && point != DiesAfterRecord ==>
          done.reply == Ok(BrokerReply(TerminalReply, row.document.value)))
    && (row.phase != Terminal || point == DiesAfterRecord ==> done.reply.Err?)
  }

  /** Nothing cuts the submission short before its dispatch. */
  predicate ReachesDispatch(f: Faults) {
    f.point != AfterReserve && f.point != DiesAfterMark && f.mark
  }

  lemma ConcludeShape(p: Primitives, now: int, t: Tables, after: Machine, result: Result<Json, ErrorCode>, k: Key,
                      f: Faults)
    requires k in t.rows && t.rows[k].phase == UnknownAfterCrash && RowOk(t.rows[k]) && t.rows[k].createdAt == now
    ensures var done := Conclude(p, now, t, after, result, k, f);
            && k in done.tables.rows && RowAfter(done.tables.rows[k], t.rows[k], done, f.point)
            && done.tables == t.(rows := t.rows[k := done.tables.rows[k]])
            && done.dispatched && done.machine == after
  {
    assert t.rows[k := t.rows[k]] == t.rows;
  }

  lemma CarryOutShape(p: Primitives, now: int, t: Tables, m: Machine, a: Admitted, e: Envelope, f: Faults, s: Script)
    requires EnvelopeKey(e) in t.rows && t.rows[EnvelopeKey(e)].phase == Reserved && RowOk(t.rows[EnvelopeKey(e)])
    requires t.rows[EnvelopeKey(e)].createdAt == now
    ensures var done, k := CarryOut(p, now, t, m, a, e, f, s), EnvelopeKey(e);
            && k in done.tables.rows && RowAfter(done.tables.rows[k], t.rows[k], done, f.point)
            && done.tables == t.(rows := t.rows[k := done.tables.rows[k]])
            && (done.dispatched <==> ReachesDispatch(f))
            && done.machine == (if done.dispatched then DispatchOf(m, a.request, ContextFor(a.session, e), s).0 else m)
  {
    var k := EnvelopeKey(e);
    if f.point == AfterReserve || !f.mark {
      assert t.rows[k := t.rows[k]] == t.rows;
    } else {
      var marked := MarkUnknownOf(t, k).0;
      assert marked.rows[k := marked.rows[k]] == t.rows[k := marked.rows[k]];
      var (after, result) := DispatchOf(m, a.request, ContextFor(a.session, e), s);
      ConcludeShape(p, now, marked, after, result, k, f);
      var row := Conclude(p, now, marked, after, result, k, f).tables.rows[k];
      assert marked.rows[k := row] == t.rows[k := row];
    }
  }

  lemma ServeShape(p: Primitives, now: int, t: Tables, m: Machine, a: Admitted, e: Envelope, f: Faults, s: Script)
    requires f.reserve && ReserveOf(t, a.reservation).1 == Ok(New)
    requires a.reservation.key == EnvelopeKey(e) && a.reservation.createdAt == now
    ensures var done, k := Serve(p, now, t, m, a, e, f, s), a.reservation.key;
            && k !in t.rows && k in done.tables.rows
            && RowAfter(done.tables.rows[k], FreshRow(a.reservation), done, f.point)
            && done.tables == ReserveOf(t, a.reservation).0.(rows := t.rows[k := done.tables.rows[k]])
            && (done.dispatched <==> ReachesDispatch(f))
            && done.machine == (if done.dispatched then DispatchOf(m, a.request, ContextFor(a.session, e), s).0 else m)
  {
    var reserved, k := ReserveOf(t, a.reservation).0, a.reservation.key;
    assert reserved.rows == t.rows[k := FreshRow(a.reservation)];
    CarryOutShape(p, now, reserved, m, a, e, f, s);
    var row := CarryOut(p, now, reserved, m, a, e, f, s).tables.rows[k];
    assert reserved.rows[k := row] == t.rows[k := row];
  }

  /** What a submission that makes a row leaves. */
  lemma ReservedShape(p: Primitives, r: Run, ev: Event)
    requires ev.Submit? && Reserves(p, r, ev)
    ensures var done, a := Submitted(p, r, ev), AdmittedBy(p, r, ev).value;
            var reserved := ReserveOf(r.tables, a.reservation).0;
            var k := a.reservation.key;
            && k !in r.tables.rows && k in done.tables.rows
            && RowAfter(done.tables.rows[k], FreshRow(a.reservation), done, ev.faults.point)
            && done.tables == reserved.(rows := r.tables.rows[k := done.tables.rows[k]])
            && (done.dispatched <==> ReachesDispatch(ev.faults))
            && done.machine == (if done.dispatched then
                                  DispatchOf(r.machine, a.request, ContextFor(a.session, ev.signed.content), ev.script).0
                                else r.machine)
  {
    AdmittedCounter(p, r, ev);
    ServeShape(p, r.broker.config.now, r.tables, r.machine, AdmittedBy(p, r, ev).value, ev.signed.content,
               ev.faults, ev.script);
  }

  lemma AdmittedCounter(p: Primitives, r: Run, ev: Event)
    requires ev.Submit? && AdmittedBy(p, r, ev).Ok?
    ensures 0 <= AdmittedBy(p, r, ev).value.reservation.counter <= U32_MAX
    ensures AdmittedBy(p, r, ev).value.reservation.key == EnvelopeKey(ev.signed.content)
    ensures AdmittedBy(p, r, ev).value.reservation.createdAt == r.broker.config.now
  {
  }

  // ---------------------------------------------------------------- every step keeps the invariant

  /** The tables with a new reservation whose row has moved on to `row`. */
  lemma ReservedTables(t: Tables, q: ReserveRequest, row: Row)
    requires SchemaOk(t) && ReserveOf(t, q).1 == Ok(New) && 0 <= q.counter <= U32_MAX
    requires RowOk(row) && Advances(FreshRow(q), row)
    ensures var u := ReserveOf(t, q).0.(rows := t.rows[q.key := row]);
            && SchemaOk(u) && ReplayMemoryKept(t, u) && u.rows.Keys == t.rows.Keys + {q.key}
            && q.principal in u.counters && u.counters[q.principal] == q.counter
            && PrincipalNonce(q.principal, q.nonce) in u.nonces
  {
    var reserved := ReserveOf(t, q).0;
    ReservingAdvances(t, q);
    assert reserved.rows == t.rows[q.key := FreshRow(q)];
    RewritingAdvances(reserved, q.key, row, Marking(q.key));
    assert reserved.rows[q.key := row] == t.rows[q.key := row];
  }

  lemma SubmitKeepsTables(p: Primitives, r: Run, ev: Event)
    requires ev.Submit? && Reserves(p, r, ev) && SchemaOk(r.tables)
    ensures var done, a := Submitted(p, r, ev), AdmittedBy(p, r, ev).value;
            && SchemaOk(done.tables) && ReplayMemoryKept(r.tables, done.tables)
            && done.tables.rows.Keys == r.tables.rows.Keys + {a.reservation.key}
            && Remembers(done.tables, LogEntry(r, a, done.machine.world))
  {
    var q := AdmittedBy(p, r, ev).value.reservation;
    ReservedShape(p, r, ev);
    AdmittedCounter(p, r, ev);
    ReservedTables(r.tables, q, Submitted(p, r, ev).tables.rows[q.key]);
  }

  lemma RememberedStays(t: Tables, u: Tables, d: Dispatched)
    requires ReplayMemoryKept(t, u) && Remembers(t, d)
    ensures Remembers(u, d)
  {
  }

  lemma OldEntriesStayOk(p: Primitives, r: Run, ev: Event, d: Dispatched)
    requires ev.Submit? && Reserves(p, r, ev) && Inv(r) && EntryOk(r, d)
    ensures EntryOk(StepSubmit(p, r, ev), d)
  {
    var next := StepSubmit(p, r, ev);
    var key := AdmittedBy(p, r, ev).value.reservation.key;
    SubmitKeepsTables(p, r, ev);
    ReservedShape(p, r, ev);
    RememberedStays(r.tables, next.tables, d);
    forall k
      ensures RowKnows(next, d, k)
    {
      assert RowKnows(r, d, k);
      if k != key && k in next.tables.rows {
        assert next.tables.rows[k] == r.tables.rows[k];
      }
    }
  }

  lemma NewEntryIsOk(p: Primitives, r: Run, ev: Event)
    requires ev.Submit? && Reserves(p, r, ev) && Inv(r) && Submitted(p, r, ev).dispatched
    ensures EntryOk(StepSubmit(p, r, ev), LogEntry(r, AdmittedBy(p, r, ev).value, Submitted(p, r, ev).machine.world))
  {
    var next, a := StepSubmit(p, r, ev), AdmittedBy(p, r, ev).value;
    var d := LogEntry(r, a, Submitted(p, r, ev).machine.world);
    SubmitKeepsTables(p, r, ev);
    ReservedShape(p, r, ev);
    DispatchIsSafe(r.machine, a.request, ContextFor(a.session, ev.signed.content), ev.script);
    forall k
      ensures RowKnows(next, d, k)
    {
      if k in r.origin && k != a.reservation.key {
        assert r.origin[k] < r.reservations;
      }
    }
  }

  lemma NewEntryIsLater(p: Primitives, r: Run, ev: Event, i: nat)
    requires ev.Submit? && Reserves(p, r, ev) && Inv(r) && i < |r.log|
    ensures var d, a := r.log[i], AdmittedBy(p, r, ev).value.reservation;
            && d.reservation < r.reservations
            && (d.principal == a.principal ==> d.counter < a.counter && d.nonce != a.nonce)
  {
    var d := r.log[i];
    assert EntryOk(r, d) && Remembers(r.tables, d);
    OnlyNewReservationsWrite(r.tables, AdmittedBy(p, r, ev).value.reservation);
  }

  lemma SubmitKeepsInv(p: Primitives, r: Run, ev: Event)
    requires ev.Submit? && Inv(r)
    ensures Inv(StepSubmit(p, r, ev))
  {
    if Reserves(p, r, ev) {
      ReservingKeepsInv(p, r, ev);
    } else {
      NotReservedMeansUntouched(p, r, ev);
      assert StepSubmit(p, r, ev) == r;
    }
  }

  lemma LogGrows(log: seq<Dispatched>, d: Dispatched)
    requires LogOrdered(log)
    requires forall i :: 0 <= i < |log| ==>
               && log[i].reservation < d.reservation
               && (log[i].principal == d.principal ==> log[i].counter < d.counter && log[i].nonce != d.nonce)
    ensures LogOrdered(log + [d])
  {
  }

  lemma ReservingKeepsLog(p: Primitives, r: Run, ev: Event)
    requires ev.Submit? && Inv(r) && Reserves(p, r, ev)
    ensures LogOrdered(StepSubmit(p, r, ev).log)
    ensures forall i :: 0 <= i < |StepSubmit(p, r, ev).log| ==> EntryOk(StepSubmit(p, r, ev), StepSubmit(p, r, ev).log[i])
  {
    var next, a := StepSubmit(p, r, ev), AdmittedBy(p, r, ev).value;
    forall i | 0 <= i < |r.log|
      ensures EntryOk(next, r.log[i])
    {
      OldEntriesStayOk(p, r, ev, r.log[i]);
    }
    if Submitted(p, r, ev).dispatched {
      var d := LogEntry(r, a, Submitted(p, r, ev).machine.world);
      NewEntryIsOk(p, r, ev);
      forall i | 0 <= i < |r.log|
        ensures r.log[i].reservation < d.reservation
        ensures r.log[i].principal == d.principal ==> r.log[i].counter < d.counter && r.log[i].nonce != d.nonce
      {
        NewEntryIsLater(p, r, ev, i);
      }
      LogGrows(r.log, d);
      assert next.log == r.log + [d];
    } else {
      assert next.log == r.log;
    }
  }

  lemma ReservingKeepsInv(p: Primitives, r: Run, ev: Event)
    requires ev.Submit? && Inv(r) && Reserves(p, r, ev)
    ensures Inv(StepSubmit(p, r, ev))
  {
    var a := AdmittedBy(p, r, ev).value;
    SubmitKeepsTables(p, r, ev);
    ReservingKeepsLog(p, r, ev);
    ReservedShape(p, r, ev);
    if Submitted(p, r, ev).dispatched {
      DispatchIsSafe(r.machine, a.request, ContextFor(a.session, ev.signed.content), ev.script);
    }
  }

  /** A step that only touches rows, and only by advancing or dropping them. */
  lemma RowStepKeepsInv(r: Run, next: Run)
    requires Inv(r) && SchemaOk(next.tables) && OriginsOk(next) && ActiveExists(next.machine.world)
    requires next.log == r.log && next.reservations == r.reservations
    requires ReplayMemoryKept(r.tables, next.tables)
    requires forall k :: k in next.tables.rows ==>
               k in r.tables.rows && next.origin[k] == r.origin[k] && Advances(r.tables.rows[k], next.tables.rows[k])
    ensures Inv(next)
  {
    forall i | 0 <= i < |next.log|
      ensures EntryOk(next, next.log[i])
    {
      var d := r.log[i];
      assert EntryOk(r, d);
      RememberedStays(r.tables, next.tables, d);
      forall k
        ensures RowKnows(next, d, k)
      {
        assert RowKnows(r, d, k);
      }
    }
  }

  lemma PruneKeepsInv(r: Run, cutoff: int)
    requires Inv(r)
    ensures Inv(StepPrune(r, cutoff))
  {
    PruningAdvances(r.tables, HorizonCutoff(r.broker.config.now, cutoff));
    RowStepKeepsInv(r, StepPrune(r, cutoff));
  }

  lemma ReferKeepsInv(r: Run, key: Key)
    requires Inv(r)
    ensures Inv(r.(tables := SetReferenceOf(r.tables, key, true).0))
  {
    StatementsAdvance(r.tables, Referencing(key, true));
    RowStepKeepsInv(r, r.(tables := SetReferenceOf(r.tables, key, true).0));
  }

  /** Sessions, the clock and the machine may change while the tables do not. */
  lemma QuietStepKeepsInv(r: Run, next: Run)
    requires Inv(r) && next.tables == r.tables && next.log == r.log && next.origin == r.origin
    requires next.reservations == r.reservations && ActiveExists(next.machine.world)
    ensures Inv(next)
  {
    RowStepKeepsInv(r, next);
  }

  lemma StepKeepsInv(p: Primitives, r: Run, ev: Event)
    requires Inv(r) && EventOk(ev)
    ensures Inv(Step(p, r, ev))
  {
    match ev
    case Submit(_, _, _, _, _) => SubmitKeepsInv(p, r, ev);
    case Prune(cutoff) => PruneKeepsInv(r, cutoff);
    case Refer(key) => ReferKeepsInv(r, key);
    case _ => QuietStepKeepsInv(r, Step(p, r, ev));
  }

  lemma {:induction false} RunKeepsInv(p: Primitives, r: Run, events: seq<Event>)
    requires Inv(r) && EventsOk(events)
    ensures Inv(Steps(p, r, events))
    decreases |events|
  {
    if events != [] {
      assert EventOk(events[0]);
      StepKeepsInv(p, r, events[0]);
      RunKeepsInv(p, Step(p, r, events[0]), events[1..]);
    }
  }
}
