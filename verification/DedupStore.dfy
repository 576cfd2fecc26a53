/**
 The broker's durable record: one row per (transaction, step), the highest counter of every principal
 and every nonce a principal has used. Each method is one atomic statement or transaction; any of them
 may find the database unavailable and then changes nothing.
 */
module DedupStores {
  import opened Collections
  import opened CanonicalJson

  const U32_MAX: int := 0xFFFF_FFFF
  const HASH_LENGTH := 64

  datatype Key = Key(transactionId: string, stepId: string)

  datatype Phase = Reserved | UnknownAfterCrash | Terminal

  datatype Row = Row(
    requestHash: string,
    operationVersionId: string,
    phase: Phase,
    document: Option<Json>,
    createdAt: int,
    completedAt: Option<int>,
    retentionEligible: bool,
    recoveryReferenced: bool)

  datatype PrincipalNonce = PrincipalNonce(principal: string, nonce: string)

  datatype Tables = Tables(rows: map<Key, Row>, counters: map<string, int>, nonces: map<PrincipalNonce, int>)

  const EmptyTables := Tables(map[], map[], map[])

  datatype StoreError = Database | Integrity | Migration

  datatype Reservation =
    | New
    | Recorded(document: Json)
    | ObservationRequired
    | Conflict
    | Replay

  datatype ReserveRequest = ReserveRequest(
    key: Key,
    requestHash: string,
    operationVersionId: string,
    principal: string,
    nonce: string,
    counter: int,
    createdAt: int)

  // ---------------------------------------------------------------- schema

  /** The CHECK constraints of a dedup row, and the retention flag that only a recorded result sets. */
  predicate RowOk(row: Row) {
    && |row.requestHash| == HASH_LENGTH
    && (row.phase == Terminal <==> row.document.Some?)
    && (row.phase == Terminal <==> row.completedAt.Some?)
    && (row.phase == Terminal <==> row.retentionEligible)
  }

  /** The constraints of the three tables; whoever used a nonce has a counter. */
  ghost predicate SchemaOk(t: Tables) {
    && (forall k :: k in t.rows ==> RowOk(t.rows[k]))
    && (forall p :: p in t.counters ==> 0 <= t.counters[p] <= U32_MAX)
    && (forall n :: n in t.nonces ==> n.principal in t.counters)
  }

  // ---------------------------------------------------------------- what each statement does

  function Replayed(t: Tables, r: ReserveRequest): bool {
    || (r.principal in t.counters && r.counter <= t.counters[r.principal])
    || PrincipalNonce(r.principal, r.nonce) in t.nonces
  }

  function FreshRow(r: ReserveRequest): Row {
    Row(r.requestHash, r.operationVersionId, Reserved, None, r.createdAt, None, false, false)
  }

  function ReserveOf(t: Tables, r: ReserveRequest): (Tables, Result<Reservation, StoreError>) {
    if r.key in t.rows then
      var row := t.rows[r.key];
      (t, if row.requestHash != r.requestHash || row.operationVersionId != r.operationVersionId then Ok(Conflict)
          else if row.phase != Terminal then Ok(ObservationRequired)
          else if row.document.Some? then Ok(Recorded(row.document.value))
          else Err(Integrity))
    else if Replayed(t, r) then (t, Ok(Replay))
    else if |r.requestHash| != HASH_LENGTH then (t, Err(Database))
    else
      (Tables(
         t.rows[r.key := FreshRow(r)],
         t.counters[r.principal := r.counter],
         t.nonces[PrincipalNonce(r.principal, r.nonce) := r.createdAt]),
       Ok(New))
  }

  function NextCounterOf(t: Tables, principal: string): Result<int, StoreError> {
    if principal !in t.counters then Ok(1)
    else if 0 <= t.counters[principal] < U32_MAX then Ok(t.counters[principal] + 1)
    else Err(Integrity)
  }

  function MarkUnknownOf(t: Tables, key: Key): (Tables, Result<(), StoreError>) {
    if key in t.rows && t.rows[key].phase == Reserved then
      (t.(rows := t.rows[key := t.rows[key].(phase := UnknownAfterCrash)]), Ok(()))
    else
      (t, Err(Integrity))
  }

  function RecordTerminalOf(t: Tables, key: Key, document: Json, completedAt: int): (Tables, Result<(), StoreError>) {
    if key in t.rows && t.rows[key].phase != Terminal then
      var row := t.rows[key].(
                   phase := Terminal,
                   document := Some(document),
                   completedAt := Some(completedAt),
                   retentionEligible := true);
      (t.(rows := t.rows[key := row]), Ok(()))
    else
      (t, Err(Integrity))
  }

  function SetReferenceOf(t: Tables, key: Key, referenced: bool): (Tables, Result<(), StoreError>) {
    if key in t.rows then
      (t.(rows := t.rows[key := t.rows[key].(recoveryReferenced := referenced)]), Ok(()))
    else
      (t, Err(Integrity))
  }

  predicate Prunable(row: Row, cutoff: int) {
    && row.phase == Terminal && row.retentionEligible && !row.recoveryReferenced
    && row.completedAt.Some? && row.completedAt.value < cutoff
  }

  function PruneOf(t: Tables, cutoff: int): Tables {
    t.(rows := map k | k in t.rows && !Prunable(t.rows[k], cutoff) :: t.rows[k])
  }

  // ---------------------------------------------------------------- the store

  class DedupStore {
    var rows: map<Key, Row>
    var counters: map<string, int>
    var nonces: map<PrincipalNonce, int>

    function State(): Tables
      reads this
    {
      Tables(rows, counters, nonces)
    }

    /** Opens what an earlier process left; a new file holds empty tables. */
    constructor (durable: Tables)
      ensures State() == durable
    {
      rows, counters, nonces := durable.rows, durable.counters, durable.nonces;
    }

    method Reserve(r: ReserveRequest, available: bool) returns (outcome: Result<Reservation, StoreError>)
      modifies this
      ensures available ==> (State(), outcome) == ReserveOf(old(State()), r)
      ensures !available ==> State() == old(State()) && outcome == Err(Database)
    {
      if !available {
        return Err(Database);
      }
      if r.key in rows {
        var row := rows[r.key];
        if row.requestHash != r.requestHash || row.operationVersionId != r.operationVersionId {
          return Ok(Conflict);
        }
        if row.phase != Terminal {
          return Ok(ObservationRequired);
        }
        match row.document
        case Some(document) => return Ok(Recorded(document));
        case None => return Err(Integrity);
      }
      var stale := r.principal in counters && r.counter <= counters[r.principal];
      var nonceSeen := PrincipalNonce(r.principal, r.nonce) in nonces;
      if stale || nonceSeen {
        return Ok(Replay);
      }
      if |r.requestHash| != HASH_LENGTH {
        return Err(Database);
      }
      rows := rows[r.key := FreshRow(r)];
      counters := counters[r.principal := r.counter];
      nonces := nonces[PrincipalNonce(r.principal, r.nonce) := r.createdAt];
      return Ok(New);
    }

    method NextCounter(principal: string, available: bool) returns (outcome: Result<int, StoreError>)
      ensures outcome == if available then NextCounterOf(State(), principal) else Err(Database)
    {
      if !available {
        return Err(Database);
      }
      if principal !in counters {
        return Ok(1);
      }
      var highest := counters[principal];
      if highest < 0 || highest >= U32_MAX {
        return Err(Integrity);
      }
      return Ok(highest + 1);
    }

    method MarkUnknownAfterDispatch(key: Key, available: bool) returns (outcome: Result<(), StoreError>)
      modifies this
      ensures available ==> (State(), outcome) == MarkUnknownOf(old(State()), key)
      ensures !available ==> State() == old(State()) && outcome == Err(Database)
    {
      if !available {
        return Err(Database);
      }
      if key !in rows || rows[key].phase != Reserved {
        return Err(Integrity);
      }
      rows := rows[key := rows[key].(phase := UnknownAfterCrash)];
      return Ok(());
    }

    method RecordTerminal(key: Key, document: Json, completedAt: int, available: bool)
      returns (outcome: Result<(), StoreError>)
      modifies this
      ensures available ==> (State(), outcome) == RecordTerminalOf(old(State()), key, document, completedAt)
      ensures !available ==> State() == old(State()) && outcome == Err(Database)
    {
      if !available {
        return Err(Database);
      }
      if key !in rows || rows[key].phase == Terminal {
        return Err(Integrity);
      }
      var row := rows[key];
      rows := rows[key := Row(row.requestHash, row.operationVersionId, Terminal, Some(document),
                              row.createdAt, Some(completedAt), true, row.recoveryReferenced)];
      return Ok(());
    }

    method SetRecoveryReference(key: Key, referenced: bool, available: bool) returns (outcome: Result<(), StoreError>)
      modifies this
      ensures available ==> (State(), outcome) == SetReferenceOf(old(State()), key, referenced)
      ensures !available ==> State() == old(State()) && outcome == Err(Database)
    {
      if !available {
        return Err(Database);
      }
      if key !in rows {
        return Err(Integrity);
      }
      rows := rows[key := rows[key].(recoveryReferenced := referenced)];
      return Ok(());
    }

    method PruneTerminalBefore(cutoff: int, available: bool) returns (outcome: Result<nat, StoreError>)
      modifies this
      ensures available ==> State() == PruneOf(old(State()), cutoff)
      ensures available ==> outcome == Ok(|old(rows)| - |rows|)
      ensures !available ==> State() == old(State()) && outcome == Err(Database)
    {
      if !available {
        return Err(Database);
      }
      var kept := map k | k in rows && !Prunable(rows[k], cutoff) :: rows[k];
      assert kept.Keys <= rows.Keys;
      SubsetSize(kept.Keys, rows.Keys);
      assert |kept| == |kept.Keys| && |rows| == |rows.Keys|;
      var removed := |rows| - |kept|;
      rows := kept;
      return Ok(removed);
    }

    method Count(available: bool) returns (outcome: Result<nat, StoreError>)
      ensures outcome == if available then Ok(|State().rows|) else Err(Database)
    {
      return if available then Ok(|rows|) else Err(Database);
    }
  }

  // ---------------------------------------------------------------- what the statements keep

  /** Only a new reservation writes, and it writes to all three tables at once. */
  lemma OnlyNewReservationsWrite(t: Tables, r: ReserveRequest)
    ensures var (after, outcome) := ReserveOf(t, r);
            && (outcome != Ok(New) ==> after == t)
            && (outcome == Ok(New) ==>
                  && r.key !in t.rows && !Replayed(t, r)
                  && after.rows.Keys == t.rows.Keys + {r.key} && after.rows[r.key].phase == Reserved
                  && (forall k :: k in t.rows ==> after.rows[k] == t.rows[k])
                  && (forall other: ReserveRequest :: other.principal == r.principal && other.nonce == r.nonce ==> Replayed(after, other))
                  && (forall other: ReserveRequest :: other.principal == r.principal && other.counter <= r.counter ==> Replayed(after, other)))
  {
  }

  /** What is replayed stays replayed, whatever statement runs next. */
  ghost predicate ReplayMemoryKept(t: Tables, u: Tables) {
    && (forall p :: p in t.counters ==> p in u.counters && t.counters[p] <= u.counters[p])
    && t.nonces.Keys <= u.nonces.Keys
  }

  datatype Statement =
    | Reserving(request: ReserveRequest)
    | Marking(key: Key)
    | Recording(key: Key, document: Json, completedAt: int)
    | Referencing(key: Key, referenced: bool)
    | Pruning(cutoff: int)

  function Execute(t: Tables, s: Statement): Tables {
    match s
    case Reserving(r) => ReserveOf(t, r).0
    case Marking(k) => MarkUnknownOf(t, k).0
    case Recording(k, d, at) => RecordTerminalOf(t, k, d, at).0
    case Referencing(k, on) => SetReferenceOf(t, k, on).0
    case Pruning(cutoff) => PruneOf(t, cutoff)
  }

  function Rank(p: Phase): nat {
    match p
    case Reserved => 0
    case UnknownAfterCrash => 1
    case Terminal => 2
  }

  /** A row keeps its identity, never goes back, and once terminal keeps its document. */
  predicate Advances(before: Row, after: Row) {
    && before.requestHash == after.requestHash
    && before.operationVersionId == after.operationVersionId
    && before.createdAt == after.createdAt
    && Rank(before.phase) <= Rank(after.phase)
    && (before.phase == Terminal ==>
          after.document == before.document && after.completedAt == before.completedAt)
  }

  /** Rows advance; one that disappears was prunable under the statement's cutoff. */
  ghost predicate RowsKept(t: Tables, s: Statement, u: Tables) {
    forall k :: k in t.rows ==>
      if k in u.rows then Advances(t.rows[k], u.rows[k])
      else s.Pruning? && Prunable(t.rows[k], s.cutoff)
  }

  predicate Admitted(s: Statement) {
    s.Reserving? ==> 0 <= s.request.counter <= U32_MAX
  }

  lemma ReservingAdvances(t: Tables, r: ReserveRequest)
    requires SchemaOk(t) && 0 <= r.counter <= U32_MAX
    ensures var u := ReserveOf(t, r).0;
            SchemaOk(u) && ReplayMemoryKept(t, u) && RowsKept(t, Reserving(r), u)
  {
    OnlyNewReservationsWrite(t, r);
    var u := ReserveOf(t, r).0;
    if ReserveOf(t, r).1 == Ok(New) {
      assert u.rows[r.key] == FreshRow(r);
      assert forall n :: n in u.nonces ==> n in t.nonces || n == PrincipalNonce(r.principal, r.nonce);
    }
  }

  /** A statement that rewrites one row as an advance of itself keeps everything. */
  lemma RewritingAdvances(t: Tables, k: Key, row: Row, s: Statement)
    requires SchemaOk(t) && k in t.rows && RowOk(row) && Advances(t.rows[k], row)
    ensures var u := t.(rows := t.rows[k := row]);
            SchemaOk(u) && ReplayMemoryKept(t, u) && RowsKept(t, s, u)
  {
  }

  lemma PruningAdvances(t: Tables, cutoff: int)
    requires SchemaOk(t)
    ensures var u := PruneOf(t, cutoff);
            SchemaOk(u) && ReplayMemoryKept(t, u) && RowsKept(t, Pruning(cutoff), u)
  {
  }

  /** Every statement keeps the schema, the replay memory, and every row it does not prune. */
  lemma StatementsAdvance(t: Tables, s: Statement)
    requires SchemaOk(t) && Admitted(s)
    ensures SchemaOk(Execute(t, s))
    ensures ReplayMemoryKept(t, Execute(t, s))
    ensures RowsKept(t, s, Execute(t, s))
  {
    match s
    case Reserving(r) => ReservingAdvances(t, r);
    case Marking(k) =>
      if MarkUnknownOf(t, k).1.Ok? {
        RewritingAdvances(t, k, MarkUnknownOf(t, k).0.rows[k], s);
      }
    case Recording(k, document, at) =>
      if RecordTerminalOf(t, k, document, at).1.Ok? {
        RewritingAdvances(t, k, RecordTerminalOf(t, k, document, at).0.rows[k], s);
      }
    case Referencing(k, on) =>
      if SetReferenceOf(t, k, on).1.Ok? {
        RewritingAdvances(t, k, SetReferenceOf(t, k, on).0.rows[k], s);
      }
    case Pruning(cutoff) => PruningAdvances(t, cutoff);
  }

  function ExecuteAll(t: Tables, statements: seq<Statement>): Tables
    decreases |statements|
  {
    if statements == [] then t else ExecuteAll(Execute(t, statements[0]), statements[1..])
  }

  lemma {:induction false} RunsAdvance(t: Tables, statements: seq<Statement>)
    requires SchemaOk(t)
    requires forall i :: 0 <= i < |statements| ==> Admitted(statements[i])
    ensures SchemaOk(ExecuteAll(t, statements)) && ReplayMemoryKept(t, ExecuteAll(t, statements))
    decreases |statements|
  {
    if statements != [] {
      StatementsAdvance(t, statements[0]);
      RunsAdvance(Execute(t, statements[0]), statements[1..]);
    }
  }

  /** A reservation once made is never made again by the same principal with that nonce or counter. */
  lemma NeverReservedTwice(t: Tables, first: ReserveRequest, statements: seq<Statement>, again: ReserveRequest)
    requires SchemaOk(t) && ReserveOf(t, first).1 == Ok(New) && 0 <= first.counter <= U32_MAX
    requires forall i :: 0 <= i < |statements| ==> Admitted(statements[i])
    requires again.principal == first.principal && (again.nonce == first.nonce || again.counter <= first.counter)
    ensures ReserveOf(ExecuteAll(ReserveOf(t, first).0, statements), again).1 != Ok(New)
  {
    StatementsAdvance(t, Reserving(first));
    RunsAdvance(ReserveOf(t, first).0, statements);
  }
}
