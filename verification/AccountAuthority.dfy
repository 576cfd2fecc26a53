/**
 The desktop account authority: one snapshot, a sequence number that invalidates older answers, two
 in-flight flags and a queue of lifecycle triggers. Every `await` is a step boundary. A continuation
 runs in two steps, its result (`Settle`) and its `finally` block (`Finish`); listeners notified by a
 publication may call the authority again between the two.
 */
module AccountAuthority {
  import opened Collections

  datatype Status = Online | Offline | Stale | Pending | Conflict | Revoked

  datatype Trigger = Launch | Resume | Reconnection | Mutation

  datatype ErrorCode =
    | InvalidRequest
    | InvalidResponse
    | NativeCredentialUnavailable
    | NetworkUnavailable
    | Unauthorized

  datatype Locale = English | BrazilianPortuguese

  datatype Account = Account(id: string, version: int, displayName: string, locale: Locale)

  datatype Subscription = Subscription(premium: bool, active: bool, version: int)

  datatype Device = Device(bindingId: string, accountId: string, active: bool)

  datatype Projection = Projection(account: Account, subscription: Subscription, activeDevice: Option<Device>)

  datatype Draft = Draft(displayName: string, locale: Locale)

  datatype Snapshot = Snapshot(
    status: Status,
    projection: Option<Projection>,
    draft: Option<Draft>,
    error: Option<ErrorCode>)

  // ---------------------------------------------------------------- what the transport returns

  /** A member of an untrusted record: missing, refused by its own validation, or accepted. */
  datatype Member<+T> = Absent | Malformed | Present(value: T)

  datatype RawSnapshot =
    | NotARecord
    | Record(status: Member<Status>, projection: Member<Projection>, draft: Member<Draft>, error: Member<ErrorCode>)

  datatype BindingStatus = Applied | RevalidationRequired | PolicyDenied | BindingConflict

  /** The native answer to a binding request, after its shape check. */
  datatype RawBinding = MalformedBinding | Binding(status: BindingStatus, device: Option<Device>)

  /** One raw value and the two ways the authority may read it. */
  datatype Raw = Raw(asSnapshot: RawSnapshot, asBinding: RawBinding)

  /** The awaited call resolves to a value, or rejects (which includes the synchronization deadline). */
  datatype Reply = Answer(raw: Raw) | Failure

  function Accepted<T>(m: Member<T>): Option<T> {
    if m.Present? then Some(m.value) else None
  }

  /** A record with a status in which nothing that is present is malformed. */
  predicate Describes(raw: RawSnapshot) {
    && raw.Record? && raw.status.Present?
    && !raw.projection.Malformed? && !raw.draft.Malformed? && !raw.error.Malformed?
  }

  /** The snapshot a record describes. */
  function SnapshotIn(raw: RawSnapshot): Snapshot
    requires Describes(raw)
  {
    Snapshot(raw.status.value, Accepted(raw.projection), Accepted(raw.draft), Accepted(raw.error))
  }

  /** Validation of a snapshot record. */
  function AuthoritySnapshot(raw: RawSnapshot): (r: Option<Snapshot>)
    ensures r.Some? ==> SnapshotOk(r.value)
    ensures r.Some? <==> Describes(raw) && SnapshotOk(SnapshotIn(raw))
    ensures r.Some? ==> r.value == SnapshotIn(raw)
  {
    match raw
    case NotARecord => None
    case Record(status, projection, draft, error) =>
      if !status.Present? then None
      else if projection.Malformed? || draft.Malformed? || error.Malformed? then None
      else if status.value == Revoked && projection.Present? then None
      else if status.value == Conflict && (projection.Absent? || draft.Absent?) then None
      else Some(Snapshot(status.value, Accepted(projection), Accepted(draft), Accepted(error)))
  }

  /** An applied or revalidated binding must come with its device. */
  function NativeBinding(raw: RawBinding): Option<RawBinding> {
    if raw.MalformedBinding? then None
    else if (raw.status == Applied || raw.status == RevalidationRequired) && raw.device.None? then None
    else Some(raw)
  }

  predicate SnapshotOk(s: Snapshot) {
    && (s.status == Revoked ==> s.projection.None?)
    && (s.status == Conflict ==> s.projection.Some? && s.draft.Some?)
  }

  // ---------------------------------------------------------------- state

  /** A suspended call: what it captured when it started and where it continues. */
  datatype Frame =
    | SyncFrame(seqNo: nat, trigger: Trigger)
    | ProfileFrame(seqNo: nat, projection: Projection, draft: Draft)
    | BindFrame(seqNo: nat, projection: Projection)
    | ConfirmFrame(seqNo: nat, projection: Projection, reported: Device)
    | ClosingSync
    | ClosingMutation

  predicate IsSync(f: Frame) {
    f.SyncFrame? || f.ClosingSync?
  }

  predicate IsOpen(f: Frame) {
    !f.ClosingSync? && !f.ClosingMutation?
  }

  datatype State = State(
    snapshot: Snapshot,
    started: bool,
    sequence: nat,
    mutationInFlight: bool,
    syncInFlight: bool,
    queue: seq<Trigger>,
    frames: seq<Frame>)

  const Initial := State(Snapshot(Pending, None, None, None), false, 0, false, false, [], [])

  function PendingSnapshot(current: Snapshot, draft: Option<Draft>): Snapshot {
    Snapshot(Pending, current.projection, draft, None)
  }

  /** What a synchronization publishes when it has no valid answer. */
  function Degraded(current: Snapshot, e: ErrorCode): Snapshot {
    Snapshot(if current.projection.None? then Offline else Stale, current.projection, None, Some(e))
  }

  /** What a mutation publishes when it has no valid answer: the projection it started from. */
  function Unconfirmed(projection: Projection, draft: Option<Draft>, e: ErrorCode): Snapshot {
    Snapshot(Stale, Some(projection), draft, Some(e))
  }

  // ---------------------------------------------------------------- transitions

  predicate Idle(s: State) {
    !s.mutationInFlight && !s.syncInFlight
  }

  function Synchronized(s: State, t: Trigger): State {
    if !Idle(s) then
      if t in s.queue then s else s.(queue := s.queue + [t])
    else
      var snapshot := if s.snapshot.status != Revoked && s.snapshot.projection.None?
                      then PendingSnapshot(s.snapshot, None) else s.snapshot;
      s.(syncInFlight := true, sequence := s.sequence + 1, snapshot := snapshot,
         frames := s.frames + [SyncFrame(s.sequence + 1, t)])
  }

  predicate ProfileAccepted(s: State, draft: Option<Draft>) {
    s.snapshot.projection.Some? && draft.Some? && !s.mutationInFlight
  }

  function ProfileStarted(s: State, draft: Draft): State
    requires ProfileAccepted(s, Some(draft))
  {
    s.(mutationInFlight := true, sequence := s.sequence + 1, snapshot := PendingSnapshot(s.snapshot, Some(draft)),
       frames := s.frames + [ProfileFrame(s.sequence + 1, s.snapshot.projection.value, draft)])
  }

  datatype BindResult =
    | BindRevoked
    | BindOffline
    | PremiumRequired
    | AlreadyLinked
    | ConfirmationRequired
    | Busy
    | BindFailed
    | BindRefused(status: BindingStatus, device: Option<Device>)
    | BindCommitted(confirmed: Device)

  /** Why a binding request does not start, if it does not. */
  function BindRefusal(s: State, confirmed: bool): Option<BindResult> {
    if s.snapshot.status == Revoked then Some(BindRevoked)
    else if s.snapshot.status != Online || s.snapshot.projection.None? then Some(BindOffline)
    else
      var p := s.snapshot.projection.value;
      if !p.subscription.premium || !p.subscription.active then Some(PremiumRequired)
      else if p.activeDevice.Some? then Some(AlreadyLinked)
      else if !confirmed then Some(ConfirmationRequired)
      else if s.mutationInFlight then Some(Busy)
      else None
  }

  function BindStarted(s: State): State
    requires s.snapshot.projection.Some?
  {
    s.(mutationInFlight := true, sequence := s.sequence + 1, snapshot := PendingSnapshot(s.snapshot, None),
       frames := s.frames + [BindFrame(s.sequence + 1, s.snapshot.projection.value)])
  }

  function SignedOut(s: State): State {
    var s' := s.(sequence := s.sequence + 1, queue := []);
    if s.snapshot.status == Revoked && s.snapshot.error == Some(Unauthorized) then s'
    else s'.(snapshot := Snapshot(Revoked, None, None, Some(Unauthorized)))
  }

  function Launched(s: State): State {
    if s.started then s else Synchronized(s.(started := true), Launch)
  }

  function Disposed(s: State): State {
    if !s.started then s else s.(started := false, sequence := s.sequence + 1, queue := [])
  }

  // ---------------------------------------------------------------- continuations

  datatype ProfileResult =
    | Committed(projection: Projection)
    | InConflict(projection: Projection, draft: Draft)
    | Failed(error: ErrorCode)

  function SyncPublication(current: Snapshot, reply: Reply): Snapshot {
    if reply.Failure? then Degraded(current, NetworkUnavailable)
    else match AuthoritySnapshot(reply.raw.asSnapshot)
      case None => Degraded(current, InvalidResponse)
      case Some(next) => next
  }

  /** The answer shows the draft committed, on the same account, at another version. */
  predicate Confirms(before: Projection, draft: Draft, after: Projection) {
    && after.account.id == before.account.id
    && after.account.version != before.account.version
    && after.account.displayName == draft.displayName
    && after.account.locale == draft.locale
  }

  function ProfileOutcome(before: Projection, draft: Draft, reply: Reply): (Snapshot, ProfileResult) {
    if reply.Failure? then
      (Unconfirmed(before, Some(draft), NetworkUnavailable), Failed(NetworkUnavailable))
    else match AuthoritySnapshot(reply.raw.asSnapshot)
      case None => (Unconfirmed(before, Some(draft), InvalidResponse), Failed(InvalidResponse))
      case Some(next) =>
        if next.status == Online && next.projection.Some? then
          if Confirms(before, draft, next.projection.value) then (next, Committed(next.projection.value))
          else (Unconfirmed(before, Some(draft), InvalidResponse), Failed(InvalidResponse))
        else if next.status == Conflict && next.projection.Some? && next.draft.Some? then
          (next, InConflict(next.projection.value, next.draft.value))
        else
          (next, Failed(if next.error.Some? then next.error.value else InvalidResponse))
  }

  /** The first answer to a binding: either a publication and a result, or the device to confirm. */
  datatype BindStage = Conclude(snapshot: Snapshot, result: BindResult) | AwaitConfirmation(reported: Device)

  function BindOutcome(before: Projection, reply: Reply): BindStage {
    if reply.Failure? then Conclude(Unconfirmed(before, None, NetworkUnavailable), BindFailed)
    else match NativeBinding(reply.raw.asBinding)
      case None => Conclude(Unconfirmed(before, None, InvalidResponse), BindFailed)
      case Some(binding) =>
        if binding.status != Applied then
          Conclude(Snapshot(Online, Some(before), None, None), BindRefused(binding.status, binding.device))
        else AwaitConfirmation(binding.device.value)
  }

  /** The fresh projection lists, as active and for this account, the device the native answer named. */
  predicate ConfirmsDevice(before: Projection, reported: Device, next: Snapshot) {
    && next.status == Online && next.projection.Some? && next.projection.value.activeDevice.Some?
    && var device := next.projection.value.activeDevice.value;
       device.bindingId == reported.bindingId && device.accountId == before.account.id && device.active
  }

  function ConfirmOutcome(before: Projection, reported: Device, reply: Reply): (Snapshot, BindResult) {
    if reply.Failure? then (Unconfirmed(before, None, NetworkUnavailable), BindFailed)
    else match AuthoritySnapshot(reply.raw.asSnapshot)
      case None => (Unconfirmed(before, None, InvalidResponse), BindFailed)
      case Some(next) =>
        if ConfirmsDevice(before, reported, next) then (next, BindCommitted(next.projection.value.activeDevice.value))
        else (Unconfirmed(before, None, InvalidResponse), BindFailed)
  }

  /** Where a frame goes once its call has resolved. */
  function NextFrame(f: Frame, current: bool, reply: Reply): Frame
    requires IsOpen(f)
  {
    if f.SyncFrame? then ClosingSync
    else if f.BindFrame? && current && BindOutcome(f.projection, reply).AwaitConfirmation? then
      ConfirmFrame(f.seqNo, f.projection, BindOutcome(f.projection, reply).reported)
    else ClosingMutation
  }

  /** What an up-to-date continuation publishes, if anything. */
  function Publication(f: Frame, current: Snapshot, reply: Reply): Option<Snapshot>
    requires IsOpen(f)
  {
    match f
    case SyncFrame(_, _) => Some(SyncPublication(current, reply))
    case ProfileFrame(_, projection, draft) => Some(ProfileOutcome(projection, draft, reply).0)
    case BindFrame(_, projection) =>
      (match BindOutcome(projection, reply)
       case Conclude(snapshot, _) => Some(snapshot)
       case AwaitConfirmation(_) => None)
    case ConfirmFrame(_, projection, reported) => Some(ConfirmOutcome(projection, reported, reply).0)
  }

  /** The continuation itself: an answer whose number is no longer current changes nothing visible. */
  function Settled(s: State, i: nat, reply: Reply): State
    requires i < |s.frames| && IsOpen(s.frames[i])
  {
    var f := s.frames[i];
    var current := f.seqNo == s.sequence;
    var s' := s.(frames := s.frames[i := NextFrame(f, current, reply)]);
    if !current then s'
    else match Publication(f, s.snapshot, reply)
      case None => s'
      case Some(snapshot) => s'.(snapshot := snapshot)
  }

  /** What a mutation's caller is told. */
  datatype CallerResult = ProfileDone(profile: ProfileResult) | BindDone(bind: BindResult)

  /** What a continuation returns to the caller of a mutation; a stale one reports a failure. */
  function CallerAnswer(f: Frame, current: bool, reply: Reply): Option<CallerResult>
    requires IsOpen(f)
  {
    match f
    case SyncFrame(_, _) => None
    case ProfileFrame(_, projection, draft) =>
      Some(ProfileDone(if current then ProfileOutcome(projection, draft, reply).1 else Failed(NetworkUnavailable)))
    case BindFrame(_, projection) =>
      if !current then Some(BindDone(BindFailed))
      else (match BindOutcome(projection, reply)
            case Conclude(_, result) => Some(BindDone(result))
            case AwaitConfirmation(_) => None)
    case ConfirmFrame(_, projection, reported) =>
      Some(BindDone(if current then ConfirmOutcome(projection, reported, reply).1 else BindFailed))
  }

  /** The `finally` block: clear the flag, take one queued trigger, synchronize for it. */
  function Finished(s: State, i: nat): State
    requires i < |s.frames| && !IsOpen(s.frames[i])
  {
    var s' := (if s.frames[i].ClosingSync? then s.(syncInFlight := false) else s.(mutationInFlight := false))
              .(frames := s.frames[..i] + s.frames[i + 1..]);
    if s.queue == [] then s'
    else Synchronized(s'.(queue := s.queue[1..]), s.queue[0])
  }

  // ---------------------------------------------------------------- events and runs

  datatype Event =
    | Synchronize(trigger: Trigger)
    | UpdateProfile(draft: Option<Draft>)
    | BindDevice(confirmed: bool)
    | SignOut
    | Start
    | Dispose
    | Settle(frame: nat, reply: Reply)
    | Finish(frame: nat)

  predicate Enabled(s: State, e: Event) {
    && (e.Settle? ==> e.frame < |s.frames| && IsOpen(s.frames[e.frame]))
    && (e.Finish? ==> e.frame < |s.frames| && !IsOpen(s.frames[e.frame]))
  }

  function Step(s: State, e: Event): State
    requires Enabled(s, e)
  {
    match e
    case Synchronize(t) => Synchronized(s, t)
    case UpdateProfile(draft) => if ProfileAccepted(s, draft) then ProfileStarted(s, draft.value) else s
    case BindDevice(confirmed) => if BindRefusal(s, confirmed).Some? then s else BindStarted(s)
    case SignOut => SignedOut(s)
    case Start => Launched(s)
    case Dispose => Disposed(s)
    case Settle(i, reply) => Settled(s, i, reply)
    case Finish(i) => Finished(s, i)
  }

  ghost predicate IsRun(states: seq<State>, events: seq<Event>) {
    && |states| == |events| + 1
    && forall k :: 0 <= k < |events| ==> Enabled(states[k], events[k]) && states[k + 1] == Step(states[k], events[k])
  }

  /** The event ends what is in flight: a sign-out, or the disposal of a started authority. */
  predicate Ends(s: State, e: Event) {
    e == SignOut || (e == Dispose && s.started)
  }

  /** The event starts an operation, confirms a sign-out, or disposes a started authority. */
  predicate Begins(s: State, e: Event)
    requires Enabled(s, e)
  {
    match e
    case Synchronize(_) => Idle(s)
    case UpdateProfile(draft) => ProfileAccepted(s, draft)
    case BindDevice(confirmed) => BindRefusal(s, confirmed).None?
    case SignOut => true
    case Start => !s.started && Idle(s)
    case Dispose => s.started
    case Settle(_, _) => false
    case Finish(i) => s.queue != [] && if s.frames[i].ClosingSync? then !s.mutationInFlight else !s.syncInFlight
  }

  // ---------------------------------------------------------------- the object

  /** The authority as the object the desktop holds; each method is one synchronous stretch of code. */
  class DesktopAccountAuthority {
    var snapshot: Snapshot
    var started: bool
    var sequence: nat
    var mutationInFlight: bool
    var syncInFlight: bool
    var queue: seq<Trigger>
    var frames: seq<Frame>

    function Value(): State
      reads this
    {
      State(snapshot, started, sequence, mutationInFlight, syncInFlight, queue, frames)
    }

    constructor ()
      ensures Value() == Initial
    {
      snapshot := Snapshot(Pending, None, None, None);
      started, sequence := false, 0;
      mutationInFlight, syncInFlight := false, false;
      queue, frames := [], [];
    }

    method CallSynchronize(trigger: Trigger)
      modifies this
      ensures Value() == Synchronized(old(Value()), trigger)
    {
      if mutationInFlight || syncInFlight {
        if trigger !in queue {
          queue := queue + [trigger];
        }
        return;
      }
      syncInFlight := true;
      sequence := sequence + 1;
      var number := sequence;
      if snapshot.status != Revoked && snapshot.projection == None {
        snapshot := PendingSnapshot(snapshot, None);
      }
      frames := frames + [SyncFrame(number, trigger)];
    }

    method CallUpdateProfile(draft: Option<Draft>) returns (accepted: bool)
      modifies this
      ensures accepted == ProfileAccepted(old(Value()), draft)
      ensures Value() == Step(old(Value()), UpdateProfile(draft))
    {
      if snapshot.projection.None? || draft.None? || mutationInFlight {
        return false;
      }
      var projection := snapshot.projection.value;
      sequence := sequence + 1;
      mutationInFlight := true;
      snapshot := PendingSnapshot(snapshot, draft);
      frames := frames + [ProfileFrame(sequence, projection, draft.value)];
      accepted := true;
    }

    method CallBindCurrentDevice(confirmed: bool) returns (refusal: Option<BindResult>)
      modifies this
      ensures refusal == BindRefusal(old(Value()), confirmed)
      ensures Value() == Step(old(Value()), BindDevice(confirmed))
    {
      refusal := BindRefusal(Value(), confirmed);
      if refusal.None? {
        var projection := snapshot.projection.value;
        sequence := sequence + 1;
        mutationInFlight := true;
        snapshot := PendingSnapshot(snapshot, None);
        frames := frames + [BindFrame(sequence, projection)];
      }
    }

    method CallConfirmSignedOut()
      modifies this
      ensures Value() == SignedOut(old(Value()))
    {
      sequence := sequence + 1;
      queue := [];
      if snapshot.status == Revoked && snapshot.error == Some(Unauthorized) {
        return;
      }
      snapshot := Snapshot(Revoked, None, None, Some(Unauthorized));
    }

    method CallStart()
      modifies this
      ensures Value() == Launched(old(Value()))
    {
      if started {
        return;
      }
      started := true;
      CallSynchronize(Launch);
    }

    method CallDispose()
      modifies this
      ensures Value() == Disposed(old(Value()))
    {
      if !started {
        return;
      }
      started := false;
      sequence := sequence + 1;
      queue := [];
    }

    /** Resumes a suspended call with the reply of the transport; a mutation's last step answers its caller. */
    method ResumeFrame(i: nat, reply: Reply) returns (answer: Option<CallerResult>)
      requires i < |frames| && IsOpen(frames[i])
      modifies this
      ensures Value() == Settled(old(Value()), i, reply)
      ensures answer == CallerAnswer(old(frames[i]), old(frames[i].seqNo) == old(sequence), reply)
    {
      var f := frames[i];
      answer := CallerAnswer(f, f.seqNo == sequence, reply);
      if f.seqNo != sequence {
        frames := frames[i := NextFrame(f, false, reply)];
        return;
      }
      frames := frames[i := NextFrame(f, true, reply)];
      var published := Publication(f, snapshot, reply);
      if published.Some? {
        snapshot := published.value;
      }
    }

    /** Runs the `finally` block of a suspended call. */
    method FinishFrame(i: nat)
      requires i < |frames| && !IsOpen(frames[i])
      modifies this
      ensures Value() == Finished(old(Value()), i)
    {
      if frames[i].ClosingSync? {
        syncInFlight := false;
      } else {
        mutationInFlight := false;
      }
      frames := frames[..i] + frames[i + 1..];
      if queue != [] {
        var trigger := queue[0];
        queue := queue[1..];
        CallSynchronize(trigger);
      }
    }
  }
}
