/**
 What the account authority shows and answers, read off the transport's replies and the snapshot on display:
 what each call starts with, what each answer leads to, and when the account is shown online.
 */
module AuthorityDisplay {
  import opened Collections
  import opened AccountAuthority
  import opened AuthorityTheorems

  /** The transport resolved to a record that validates. */
  function Validated(reply: Reply): Option<Snapshot> {
    match reply
    case Failure => None
    case Answer(raw) => AuthoritySnapshot(raw.asSnapshot)
  }

  /** Why a reply without a validated snapshot failed. */
  function FailureOf(reply: Reply): ErrorCode {
    if reply.Failure? then NetworkUnavailable else InvalidResponse
  }

  // ---------------------------------------------------------------- what a call starts with

  /** A synchronization shows that it is pending only where there is nothing to show and no revocation. */
  lemma SynchronizationStarts(s: State, t: Trigger)
    requires !s.mutationInFlight && !s.syncInFlight
    ensures var next := Synchronized(s, t);
            && next.sequence == s.sequence + 1 && next.syncInFlight && !next.mutationInFlight && next.queue == s.queue
            && next.frames == s.frames + [SyncFrame(s.sequence + 1, t)]
            && (s.snapshot.status == Revoked || s.snapshot.projection.Some? ==> next.snapshot == s.snapshot)
            && (s.snapshot.status != Revoked && s.snapshot.projection.None? ==>
                  next.snapshot == Snapshot(Pending, None, None, None))
  {
  }

  /** While anything is in flight a trigger is queued, once, behind the others, and nothing else changes. */
  lemma TriggerQueues(s: State, t: Trigger)
    requires s.mutationInFlight || s.syncInFlight
    ensures Synchronized(s, t) == s.(queue := if t in s.queue then s.queue else s.queue + [t])
  {
  }

  /** An update starts from the projection on display, shows its draft as pending, and needs no other mutation under way. */
  lemma UpdateStarts(s: State, draft: Option<Draft>)
    ensures var next := Step(s, UpdateProfile(draft));
            if s.snapshot.projection.Some? && draft.Some? && !s.mutationInFlight then
              && next.snapshot == Snapshot(Pending, s.snapshot.projection, draft, None)
              && next.sequence == s.sequence + 1 && next.mutationInFlight
              && next.frames == s.frames + [ProfileFrame(s.sequence + 1, s.snapshot.projection.value, draft.value)]
              && next.queue == s.queue && next.syncInFlight == s.syncInFlight
            else
              next == s
  {
  }

  /** Which refusal a binding gets, exactly; without one it starts. */
  lemma BindingRefusals(s: State, confirmed: bool)
    ensures var refusal, shown := BindRefusal(s, confirmed), s.snapshot;
            var online := shown.status == Online && shown.projection.Some?;
            var premium := online && shown.projection.value.subscription.premium && shown.projection.value.subscription.active;
            var free := premium && shown.projection.value.activeDevice.None?;
            && (refusal == Some(BindRevoked) <==> shown.status == Revoked)
            && (refusal == Some(BindOffline) <==> shown.status != Revoked && !online)
            && (refusal == Some(PremiumRequired) <==> online && !premium)
            && (refusal == Some(AlreadyLinked) <==> premium && !free)
            && (refusal == Some(ConfirmationRequired) <==> free && !confirmed)
            && (refusal == Some(Busy) <==> free && confirmed && s.mutationInFlight)
            && (refusal == None <==> free && confirmed && !s.mutationInFlight)
  {
  }

  lemma BindingStarts(s: State, confirmed: bool)
    ensures var next := Step(s, BindDevice(confirmed));
            if BindRefusal(s, confirmed) == None then
              && s.snapshot.projection.Some?
              && next.snapshot == Snapshot(Pending, s.snapshot.projection, None, None)
              && next.sequence == s.sequence + 1 && next.mutationInFlight
              && next.frames == s.frames + [BindFrame(s.sequence + 1, s.snapshot.projection.value)]
              && next.queue == s.queue && next.syncInFlight == s.syncInFlight
            else
              next == s
  {
  }

  /** A sign-out shows the revoked state with nothing in it and forgets what waited. */
  lemma SignOutShows(s: State)
    requires Inv(s)
    ensures var next := SignedOut(s);
            && next.snapshot.status == Revoked && next.snapshot.projection == None
            && next.snapshot.error == Some(Unauthorized) && next.queue == [] && next.sequence == s.sequence + 1
            && next.frames == s.frames && next.started == s.started
            && next.mutationInFlight == s.mutationInFlight && next.syncInFlight == s.syncInFlight
            && (if s.snapshot.status == Revoked && s.snapshot.error == Some(Unauthorized) then next.snapshot == s.snapshot
                else next.snapshot.draft == None)
  {
  }

  /** Starting synchronizes once; disposing of a started authority discards what waits and what is under way. */
  lemma StartAndDispose(s: State)
    ensures Launched(s) == if s.started then s else Synchronized(s.(started := true), Launch)
    ensures var next := Disposed(s);
            && next.snapshot == s.snapshot && next.frames == s.frames && !next.started
            && (s.started ==> next.queue == [] && next.sequence == s.sequence + 1)
            && (!s.started ==> next == s)
  {
  }

  /**
   When a call is over its flag is cleared and the trigger that waited longest is taken: it is synchronized for
   if nothing else is in flight, and otherwise goes to the end of the queue.
   */
  lemma LongestWaitingIsTaken(s: State, i: nat)
    requires i < |s.frames| && !IsOpen(s.frames[i]) && s.queue != [] && Distinct(s.queue)
    ensures var next, sync := Finished(s, i), s.frames[i] == ClosingSync;
            var busy := if sync then s.mutationInFlight else s.syncInFlight;
            && (busy ==> next.queue == s.queue[1..] + [s.queue[0]] && next.sequence == s.sequence
                         && next.snapshot == s.snapshot)
            && (!busy ==> next.queue == s.queue[1..] && next.sequence == s.sequence + 1 && next.frames != []
                          && next.frames[|next.frames| - 1] == SyncFrame(s.sequence + 1, s.queue[0]))
  {
    assert s.queue[0] !in s.queue[1..];
  }

  // ---------------------------------------------------------------- what an answer leads to

  predicate Current(s: State, i: nat) {
    i < |s.frames| && IsOpen(s.frames[i]) && s.frames[i].seqNo == s.sequence
  }

  /**
   A current synchronization shows exactly the validated snapshot it got. Without one it leaves the projection
   on display as it is and drops the draft: stale where there is a projection, offline where there is none.
   */
  lemma RefreshShows(s: State, i: nat, reply: Reply)
    requires Current(s, i) && s.frames[i].SyncFrame?
    ensures var shown := Settled(s, i, reply).snapshot;
            if Validated(reply).Some? then shown == Validated(reply).value
            else
              && shown.projection == s.snapshot.projection && shown.draft == None
              && shown.status == (if s.snapshot.projection.Some? then Stale else Offline)
              && shown.error == Some(FailureOf(reply))
  {
  }

  /** The draft as the account now has it: same account, another version, its name and language. */
  predicate Carries(before: Projection, draft: Draft, after: Projection) {
    && after.account.id == before.account.id && after.account.version != before.account.version
    && after.account.displayName == draft.displayName && after.account.locale == draft.locale
  }

  /** What a current update shows and answers, case by case. */
  lemma UpdateShows(s: State, i: nat, reply: Reply)
    requires Current(s, i) && s.frames[i].ProfileFrame?
    ensures var f, shown := s.frames[i], Settled(s, i, reply).snapshot;
            var answer := CallerAnswer(f, true, reply);
            var unconfirmed := Snapshot(Stale, Some(f.projection), Some(f.draft), Some(FailureOf(reply)));
            if Validated(reply).None? then
              shown == unconfirmed && answer == Some(ProfileDone(Failed(FailureOf(reply))))
            else
              var next := Validated(reply).value;
              if next.status == Online && next.projection.Some? then
                if Carries(f.projection, f.draft, next.projection.value) then
                  shown == next && answer == Some(ProfileDone(Committed(next.projection.value)))
                else
                  && shown == Snapshot(Stale, Some(f.projection), Some(f.draft), Some(InvalidResponse))
                  && answer == Some(ProfileDone(Failed(InvalidResponse)))
              else
                && shown == next
                && (next.status == Conflict ==>
                      next.projection.Some? && next.draft.Some?
                      && answer == Some(ProfileDone(InConflict(next.projection.value, next.draft.value))))
                && (next.status != Conflict ==>
                      answer == Some(ProfileDone(Failed(if next.error == None then InvalidResponse else next.error.value))))
  {
  }

  /** The device of the native answer, listed as active for the account of the binding. */
  predicate Lists(before: Projection, reported: Device, next: Snapshot) {
    && next.status == Online && next.projection.Some? && next.projection.value.activeDevice.Some?
    && next.projection.value.activeDevice.value.bindingId == reported.bindingId
    && next.projection.value.activeDevice.value.accountId == before.account.id
    && next.projection.value.activeDevice.value.active
  }

  /** What the native answer to a binding leads to: a wait for the second answer only if it says applied and names a device. */
  lemma BindingShows(s: State, i: nat, reply: Reply)
    requires Current(s, i) && s.frames[i].BindFrame?
    ensures var f, next := s.frames[i], Settled(s, i, reply);
            var answer := CallerAnswer(f, true, reply);
            var usable := reply.Answer? && reply.raw.asBinding.Binding?
                          && (reply.raw.asBinding.status in {Applied, RevalidationRequired} ==> reply.raw.asBinding.device.Some?);
            if !usable then
              && next.snapshot == Snapshot(Stale, Some(f.projection), None, Some(FailureOf(reply)))
              && answer == Some(BindDone(BindFailed)) && next.frames[i] == ClosingMutation
            else if reply.raw.asBinding.status == Applied then
              && next.snapshot == s.snapshot && answer == None
              && next.frames[i] == ConfirmFrame(f.seqNo, f.projection, reply.raw.asBinding.device.value)
            else
              && next.snapshot == Snapshot(Online, Some(f.projection), None, None)
              && answer == Some(BindDone(BindRefused(reply.raw.asBinding.status, reply.raw.asBinding.device)))
              && next.frames[i] == ClosingMutation
  {
  }

  /** What the second answer leads to. */
  lemma ConfirmationShows(s: State, i: nat, reply: Reply)
    requires Current(s, i) && s.frames[i].ConfirmFrame?
    ensures var f, shown := s.frames[i], Settled(s, i, reply).snapshot;
            var answer := CallerAnswer(f, true, reply);
            if Validated(reply).Some? && Lists(f.projection, f.reported, Validated(reply).value) then
              && shown == Validated(reply).value
              && answer == Some(BindDone(BindCommitted(shown.projection.value.activeDevice.value)))
            else
              && shown == Snapshot(Stale, Some(f.projection), None, Some(FailureOf(reply)))
              && answer == Some(BindDone(BindFailed))
  {
  }

  /** A stale answer shows nothing and tells a mutation's caller that it failed. */
  lemma StaleShowsNothing(s: State, i: nat, reply: Reply)
    requires i < |s.frames| && IsOpen(s.frames[i]) && s.frames[i].seqNo != s.sequence
    ensures var f := s.frames[i];
            && Settled(s, i, reply).snapshot == s.snapshot
            && CallerAnswer(f, false, reply) ==
               match f
               case SyncFrame(_, _) => None
               case ProfileFrame(_, _, _) => Some(ProfileDone(Failed(NetworkUnavailable)))
               case BindFrame(_, _) => Some(BindDone(BindFailed))
               case ConfirmFrame(_, _, _) => Some(BindDone(BindFailed))
  {
  }

  /** Whatever is shown or answered, an answer uses up its call: only a binding applied natively goes on. */
  lemma AnswersUseUpTheirCall(s: State, i: nat, reply: Reply)
    requires i < |s.frames| && IsOpen(s.frames[i])
    ensures var next := Settled(s, i, reply);
            && |next.frames| == |s.frames| && (forall k :: 0 <= k < |s.frames| && k != i ==> next.frames[k] == s.frames[k])
            && (s.frames[i].SyncFrame? ==> next.frames[i] == ClosingSync)
            && (!s.frames[i].SyncFrame? && !next.frames[i].ConfirmFrame? ==> next.frames[i] == ClosingMutation)
            && next == s.(snapshot := next.snapshot, frames := next.frames)
  {
  }

  // ---------------------------------------------------------------- when the account is shown online

  /** The transport, asked under the current number, says online, or that a binding was not applied. */
  ghost predicate SaysOnline(s: State, e: Event) {
    && e.Settle? && Current(s, e.frame) && e.reply.Answer?
    && (|| (Validated(e.reply).Some? && Validated(e.reply).value.status == Online)
        || (s.frames[e.frame].BindFrame? && e.reply.raw.asBinding.Binding? && e.reply.raw.asBinding.status != Applied))
  }

  lemma OnlineStep(s: State, e: Event)
    requires Inv(s) && Enabled(s, e) && Step(s, e).snapshot.status == Online
    ensures s.snapshot.status == Online || SaysOnline(s, e)
  {
    match e
    case Settle(i, reply) =>
      if s.frames[i].seqNo == s.sequence {
        OnlineAnswer(s, i, reply);
      }
    case Finish(i) =>
      if s.queue != [] {
        assert Step(s, e).snapshot == Synchronized(Cleared(s, i).(queue := s.queue[1..]), s.queue[0]).snapshot;
      }
    case _ =>
  }

  lemma OnlineAnswer(s: State, i: nat, reply: Reply)
    requires Current(s, i) && Settled(s, i, reply).snapshot.status == Online
    ensures s.snapshot.status == Online || SaysOnline(s, Settle(i, reply))
  {
    match s.frames[i]
    case SyncFrame(_, _) => RefreshShows(s, i, reply);
    case ProfileFrame(_, _, _) => UpdateShows(s, i, reply);
    case BindFrame(_, _) => BindingShows(s, i, reply);
    case ConfirmFrame(_, _, _) => ConfirmationShows(s, i, reply);
  }

  /** Over every run the account is shown online only if the transport said so, under a number current then. */
  lemma {:induction false} OnlineOnlyIfSaid(states: seq<State>, events: seq<Event>, j: nat)
    requires IsRun(states, events) && states[0] == Initial && j < |states|
    requires states[j].snapshot.status == Online
    ensures exists k :: 0 <= k < j && SaysOnline(states[k], events[k])
  {
    if j > 0 {
      RunKeepsInv(states, events, j - 1);
      OnlineStep(states[j - 1], events[j - 1]);
      if !SaysOnline(states[j - 1], events[j - 1]) {
        OnlineOnlyIfSaid(states, events, j - 1);
      }
    }
  }
}
