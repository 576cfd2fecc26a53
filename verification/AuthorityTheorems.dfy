/** What every interleaving of the desktop account authority keeps. */
module AuthorityTheorems {
  import opened Collections
  import opened AccountAuthority

  // ---------------------------------------------------------------- the invariant

  ghost predicate QueueOk(s: State) {
    && Distinct(s.queue)
    && (s.queue != [] ==> s.mutationInFlight || s.syncInFlight)
  }

  /** Each flag is up exactly while one frame of its kind is suspended or closing. */
  ghost predicate FramesOk(s: State) {
    && (s.syncInFlight <==> exists i :: 0 <= i < |s.frames| && IsSync(s.frames[i]))
    && (s.mutationInFlight <==> exists i :: 0 <= i < |s.frames| && !IsSync(s.frames[i]))
    && (forall i, j :: 0 <= i < j < |s.frames| ==> IsSync(s.frames[i]) != IsSync(s.frames[j]))
  }

  ghost predicate NumbersOk(s: State) {
    && (forall i :: 0 <= i < |s.frames| && IsOpen(s.frames[i]) ==> s.frames[i].seqNo <= s.sequence)
    && (forall i, j :: 0 <= i < j < |s.frames| && IsOpen(s.frames[i]) && IsOpen(s.frames[j]) ==>
          s.frames[i].seqNo != s.frames[j].seqNo)
  }

  ghost predicate Inv(s: State) {
    QueueOk(s) && FramesOk(s) && NumbersOk(s) && SnapshotOk(s.snapshot)
  }

  lemma FrameAppended(s: State, s': State, f: Frame)
    requires FramesOk(s) && NumbersOk(s)
    requires s'.frames == s.frames + [f] && IsOpen(f) && f.seqNo == s.sequence + 1 == s'.sequence
    requires if IsSync(f) then !s.syncInFlight else !s.mutationInFlight
    requires s'.syncInFlight == (s.syncInFlight || IsSync(f)) && s'.mutationInFlight == (s.mutationInFlight || !IsSync(f))
    ensures FramesOk(s') && NumbersOk(s')
  {
    var n := |s.frames|;
    assert s'.frames[n] == f;
    assert forall i :: 0 <= i < n ==> s'.frames[i] == s.frames[i];
    assert s.syncInFlight ==> exists i :: 0 <= i < n && IsSync(s'.frames[i]);
    assert s.mutationInFlight ==> exists i :: 0 <= i < n && !IsSync(s'.frames[i]);
  }

  lemma SynchronizedKeepsInv(s: State, t: Trigger)
    requires FramesOk(s) && NumbersOk(s) && SnapshotOk(s.snapshot) && Distinct(s.queue)
    requires !Idle(s) || t !in s.queue
    ensures Inv(Synchronized(s, t))
  {
    var s' := Synchronized(s, t);
    if Idle(s) {
      FrameAppended(s, s', SyncFrame(s.sequence + 1, t));
    } else if t !in s.queue {
      assert Distinct(s.queue + [t]);
    }
  }

  lemma SettledKeepsInv(s: State, i: nat, reply: Reply)
    requires Inv(s) && i < |s.frames| && IsOpen(s.frames[i])
    ensures Inv(Settled(s, i, reply))
  {
    var s' := Settled(s, i, reply);
    assert forall k :: 0 <= k < |s.frames| ==> IsSync(s'.frames[k]) == IsSync(s.frames[k]);
    assert forall k :: 0 <= k < |s.frames| && IsOpen(s'.frames[k]) ==>
             IsOpen(s.frames[k]) && s'.frames[k].seqNo == s.frames[k].seqNo;
    PublicationOk(s.frames[i], s.snapshot, reply);
  }

  lemma PublicationOk(f: Frame, current: Snapshot, reply: Reply)
    requires IsOpen(f)
    ensures Publication(f, current, reply).Some? ==> SnapshotOk(Publication(f, current, reply).value)
  {
  }

  lemma OneFrameOfAKind(s: State, i: nat, k: nat)
    requires FramesOk(s) && i < |s.frames| && k < |s.frames|
    ensures IsSync(s.frames[i]) == IsSync(s.frames[k]) ==> i == k
  {
    assert i < k ==> IsSync(s.frames[i]) != IsSync(s.frames[k]);
    assert k < i ==> IsSync(s.frames[k]) != IsSync(s.frames[i]);
  }

  /** The state between clearing the flag and taking the next trigger. */
  function Cleared(s: State, i: nat): State
    requires i < |s.frames|
  {
    (if s.frames[i].ClosingSync? then s.(syncInFlight := false) else s.(mutationInFlight := false))
    .(frames := s.frames[..i] + s.frames[i + 1..])
  }

  lemma ThreeFramesClash(s: State)
    requires |s.frames| > 2
    ensures !FramesOk(s)
  {
    var a, b, c := IsSync(s.frames[0]), IsSync(s.frames[1]), IsSync(s.frames[2]);
    assert a == b || a == c || b == c;
  }

  lemma AtMostTwoFrames(s: State)
    requires FramesOk(s)
    ensures |s.frames| <= 2
  {
    if |s.frames| > 2 {
      ThreeFramesClash(s);
    }
  }

  lemma ClearedFrames(s: State, i: nat)
    requires FramesOk(s) && i < |s.frames|
    ensures |s.frames| == 1 ==> Cleared(s, i).frames == []
    ensures |s.frames| == 2 ==> Cleared(s, i).frames == [s.frames[1 - i]] && IsSync(s.frames[1 - i]) != IsSync(s.frames[i])
    ensures |s.frames| <= 2
  {
    AtMostTwoFrames(s);
    if |s.frames| == 2 {
      OneFrameOfAKind(s, i, 1 - i);
    }
  }

  lemma ClearedFramesOk(s: State, i: nat)
    requires Inv(s) && i < |s.frames| && !IsOpen(s.frames[i])
    ensures FramesOk(Cleared(s, i)) && NumbersOk(Cleared(s, i))
  {
    ClearedFrames(s, i);
    if |s.frames| == 2 {
      var other := s.frames[1 - i];
      assert Cleared(s, i).frames[0] == other;
    }
  }

  lemma FinishedKeepsInv(s: State, i: nat)
    requires Inv(s) && i < |s.frames| && !IsOpen(s.frames[i])
    ensures Inv(Finished(s, i))
  {
    ClearedFramesOk(s, i);
    if s.queue != [] {
      SynchronizedKeepsInv(Cleared(s, i).(queue := s.queue[1..]), s.queue[0]);
    }
  }

  lemma CallKeepsInv(s: State, t: Trigger)
    requires Inv(s)
    ensures Inv(Synchronized(s, t))
  {
    assert Idle(s) ==> s.queue == [];
    SynchronizedKeepsInv(s, t);
  }

  lemma MutationStartKeepsInv(s: State, s': State, f: Frame, draft: Option<Draft>)
    requires Inv(s) && !s.mutationInFlight && !IsSync(f) && IsOpen(f) && f.seqNo == s.sequence + 1
    requires s' == s.(mutationInFlight := true, sequence := s.sequence + 1,
                      snapshot := PendingSnapshot(s.snapshot, draft), frames := s.frames + [f])
    ensures Inv(s')
  {
    FrameAppended(s, s', f);
  }

  lemma StartsKeepInv(s: State, e: Event)
    requires Inv(s) && Enabled(s, e) && (e.UpdateProfile? || e.BindDevice?)
    ensures Inv(Step(s, e))
  {
    if e.UpdateProfile? && ProfileAccepted(s, e.draft) {
      MutationStartKeepsInv(s, Step(s, e), ProfileFrame(s.sequence + 1, s.snapshot.projection.value, e.draft.value), e.draft);
    }
    if e.BindDevice? && BindRefusal(s, e.confirmed).None? {
      MutationStartKeepsInv(s, Step(s, e), BindFrame(s.sequence + 1, s.snapshot.projection.value), None);
    }
  }

  lemma LaunchKeepsInv(s: State)
    requires Inv(s)
    ensures Inv(Launched(s))
  {
    if !s.started {
      CallKeepsInv(s.(started := true), Launch);
    }
  }

  lemma EndingsKeepInv(s: State)
    requires Inv(s)
    ensures Inv(SignedOut(s)) && Inv(Disposed(s))
  {
  }

  lemma StepKeepsInv(s: State, e: Event)
    requires Inv(s) && Enabled(s, e)
    ensures Inv(Step(s, e))
  {
    match e
    case Synchronize(t) => CallKeepsInv(s, t);
    case UpdateProfile(_) => StartsKeepInv(s, e);
    case BindDevice(_) => StartsKeepInv(s, e);
    case SignOut => EndingsKeepInv(s);
    case Start => LaunchKeepsInv(s);
    case Dispose => EndingsKeepInv(s);
    case Settle(i, reply) => SettledKeepsInv(s, i, reply);
    case Finish(i) => FinishedKeepsInv(s, i);
  }

  /**
   On every interleaving: no trigger is queued twice, triggers wait only while something is in flight,
   at most one synchronization and one mutation are in flight, a revoked snapshot has no projection and
   a conflict has projection and draft.
   */
  lemma {:induction false} RunKeepsInv(states: seq<State>, events: seq<Event>, k: nat)
    requires IsRun(states, events) && states[0] == Initial && k < |states|
    ensures Inv(states[k])
  {
    if k > 0 {
      RunKeepsInv(states, events, k - 1);
      StepKeepsInv(states[k - 1], events[k - 1]);
    }
  }

  // ---------------------------------------------------------------- stale continuations

  lemma SequenceCountsBeginnings(s: State, e: Event)
    requires Enabled(s, e)
    ensures Step(s, e).sequence == s.sequence + if Begins(s, e) then 1 else 0
  {
  }

  ghost predicate Counts(numbers: seq<nat>, begun: seq<bool>) {
    && |numbers| == |begun| + 1
    && forall k :: 0 <= k < |begun| ==> numbers[k + 1] == numbers[k] + if begun[k] then 1 else 0
  }

  lemma {:induction false} CounterUnchanged(numbers: seq<nat>, begun: seq<bool>, b: nat, j: nat)
    requires Counts(numbers, begun) && b <= j < |numbers|
    ensures numbers[b] <= numbers[j]
    ensures numbers[b] == numbers[j] <==> forall k :: b <= k < j ==> !begun[k]
  {
    if b < j {
      CounterUnchanged(numbers, begun, b, j - 1);
    }
  }

  /** The number stays current exactly as long as nothing begins. */
  lemma CurrentExactlyWhileNothingBegins(states: seq<State>, events: seq<Event>, b: nat, j: nat)
    requires IsRun(states, events) && b <= j < |states|
    ensures states[b].sequence <= states[j].sequence
    ensures states[b].sequence == states[j].sequence <==> forall k :: b <= k < j ==> !Begins(states[k], events[k])
  {
    var numbers := seq(|states|, k requires 0 <= k < |states| => states[k].sequence);
    var begun := seq(|events|, k requires 0 <= k < |events| && Enabled(states[k], events[k]) => Begins(states[k], events[k]));
    forall k | 0 <= k < |events|
      ensures numbers[k + 1] == numbers[k] + if begun[k] then 1 else 0
    {
      SequenceCountsBeginnings(states[k], events[k]);
    }
    CounterUnchanged(numbers, begun, b, j);
    assert forall k :: b <= k < j ==> begun[k] == Begins(states[k], events[k]);
  }

  /**
   A continuation publishes only if no operation, sign-out or disposal began after its own operation
   did, and then it publishes exactly what its reply entitles it to; otherwise the snapshot stays.
   */
  lemma NoStalePublication(states: seq<State>, events: seq<Event>, b: nat, j: nat)
    requires IsRun(states, events) && states[0] == Initial
    requires b < j < |events| && Begins(states[b], events[b]) && events[j].Settle?
    requires states[j].frames[events[j].frame].seqNo == states[b + 1].sequence
    ensures var f := states[j].frames[events[j].frame];
            var published := Publication(f, states[j].snapshot, events[j].reply);
            if exists k :: b < k < j && Begins(states[k], events[k]) then states[j + 1].snapshot == states[j].snapshot
            else states[j + 1].snapshot == if published.Some? then published.value else states[j].snapshot
  {
    CurrentExactlyWhileNothingBegins(states, events, b + 1, j);
  }

  /** The snapshot changes only when something begins or an up-to-date continuation publishes. */
  lemma SnapshotChangesOnlyBy(s: State, e: Event)
    requires Enabled(s, e) && Step(s, e).snapshot != s.snapshot
    ensures Begins(s, e) || (e.Settle? && s.frames[e.frame].seqNo == s.sequence)
  {
  }

  // ---------------------------------------------------------------- sign-out

  /** A synchronization begun after number `n` returns, while current, a validated snapshot with a projection. */
  ghost predicate RestoresProjection(s: State, e: Event, n: nat)
    requires Enabled(s, e)
  {
    && e.Settle? && e.reply.Answer?
    && s.frames[e.frame].SyncFrame? && n < s.frames[e.frame].seqNo == s.sequence
    && AuthoritySnapshot(e.reply.raw.asSnapshot).Some?
    && AuthoritySnapshot(e.reply.raw.asSnapshot).value.projection.Some?
  }

  /** Nothing that began after number `n` can carry a projection of its own. */
  ghost predicate Emptied(s: State, n: nat) {
    && s.snapshot.projection.None? && n <= s.sequence
    && (forall i :: 0 <= i < |s.frames| && IsOpen(s.frames[i]) ==>
          s.frames[i].seqNo != n && (s.frames[i].seqNo < n || s.frames[i].SyncFrame?))
  }

  lemma SignOutEmpties(s: State)
    requires Inv(s)
    ensures Emptied(SignedOut(s), SignedOut(s).sequence)
  {
  }

  lemma SettledStaysEmptied(s: State, i: nat, reply: Reply, n: nat)
    requires Inv(s) && Emptied(s, n) && i < |s.frames| && IsOpen(s.frames[i])
    ensures Emptied(Settled(s, i, reply), n) <==> !RestoresProjection(s, Settle(i, reply), n)
    ensures RestoresProjection(s, Settle(i, reply), n) ==> Settled(s, i, reply).snapshot.projection.Some?
  {
    var s' := Settled(s, i, reply);
    assert forall k :: 0 <= k < |s.frames| && k != i ==> s'.frames[k] == s.frames[k];
    var f := s.frames[i];
    if f.seqNo == s.sequence {
      assert f.SyncFrame? && f.seqNo > n;
    }
  }

  lemma SynchronizedStaysEmptied(s: State, t: Trigger, n: nat)
    requires Emptied(s, n)
    ensures Emptied(Synchronized(s, t), n)
  {
    var s' := Synchronized(s, t);
    if Idle(s) {
      assert forall k :: 0 <= k < |s.frames| ==> s'.frames[k] == s.frames[k];
      assert s'.frames[|s.frames|] == SyncFrame(s.sequence + 1, t);
    }
  }

  lemma FinishedStaysEmptied(s: State, i: nat, n: nat)
    requires FramesOk(s) && Emptied(s, n) && i < |s.frames| && !IsOpen(s.frames[i])
    ensures Emptied(Finished(s, i), n)
  {
    ClearedFrames(s, i);
    assert Emptied(Cleared(s, i), n);
    if s.queue != [] {
      SynchronizedStaysEmptied(Cleared(s, i).(queue := s.queue[1..]), s.queue[0], n);
    }
  }

  lemma StepStaysEmptied(s: State, e: Event, n: nat)
    requires Inv(s) && Enabled(s, e) && Emptied(s, n)
    ensures Emptied(Step(s, e), n) <==> !RestoresProjection(s, e, n)
    ensures RestoresProjection(s, e, n) ==> Step(s, e).snapshot.projection.Some?
  {
    match e
    case Synchronize(t) => SynchronizedStaysEmptied(s, t, n);
    case UpdateProfile(draft) =>
    case BindDevice(confirmed) =>
    case SignOut =>
    case Start =>
      if !s.started {
        SynchronizedStaysEmptied(s.(started := true), Launch, n);
      }
    case Dispose =>
    case Settle(i, reply) => SettledStaysEmptied(s, i, reply, n);
    case Finish(i) => FinishedStaysEmptied(s, i, n);
  }

  ghost predicate EmptyThroughout(states: seq<State>, from: nat, to: nat)
    requires to < |states|
  {
    forall m :: from <= m <= to ==> states[m].snapshot.projection.None?
  }

  ghost predicate NothingRestores(states: seq<State>, events: seq<Event>, from: nat, to: nat, n: nat)
    requires IsRun(states, events) && to <= |events|
  {
    forall k :: from <= k < to ==> !RestoresProjection(states[k], events[k], n)
  }

  lemma {:induction false} EmptyUpTo(states: seq<State>, events: seq<Event>, k: nat, j: nat, n: nat)
    requires IsRun(states, events) && k <= j < |states|
    requires Inv(states[k]) && Emptied(states[k], n)
    ensures EmptyThroughout(states, k, j) <==> NothingRestores(states, events, k, j, n)
    decreases j - k
  {
    if k < j {
      StepStaysEmptied(states[k], events[k], n);
      StepKeepsInv(states[k], events[k]);
      if !RestoresProjection(states[k], events[k], n) {
        EmptyUpTo(states, events, k + 1, j, n);
        assert EmptyThroughout(states, k, j) <==> EmptyThroughout(states, k + 1, j);
        assert NothingRestores(states, events, k, j, n) <==> NothingRestores(states, events, k + 1, j, n);
      } else {
        assert states[k + 1].snapshot.projection.Some?;
        assert !NothingRestores(states, events, k, j, n);
      }
    }
  }

  /**
   After a confirmed sign-out, whatever was in flight and whatever happens next, no projection is shown
   exactly until a synchronization begun after the sign-out returns, while current, a validated one.
   */
  lemma SignedOutStaysEmpty(states: seq<State>, events: seq<Event>, b: nat, j: nat)
    requires IsRun(states, events) && states[0] == Initial
    requires b < j < |states| && events[b] == SignOut
    ensures EmptyThroughout(states, b + 1, j) <==> NothingRestores(states, events, b + 1, j, states[b + 1].sequence)
  {
    RunKeepsInv(states, events, b);
    StepKeepsInv(states[b], events[b]);
    SignOutEmpties(states[b]);
    EmptyUpTo(states, events, b + 1, j, states[b + 1].sequence);
  }

  // ---------------------------------------------------------------- the queue

  /**
   A queued trigger leaves the queue only by starting the synchronization it asked for, or by sign-out
   or disposal.
   */
  lemma QueuedTriggerLeavesOnlyBy(s: State, e: Event, t: Trigger)
    requires Inv(s) && Enabled(s, e) && t in s.queue && t !in Step(s, e).queue
    ensures || e == SignOut
            || (e == Dispose && s.started)
            || (e.Finish? && Step(s, e).frames == Cleared(s, e.frame).frames + [SyncFrame(s.sequence + 1, t)])
  {
    if e.Finish? {
      FinishTakesFirst(s, e.frame, t);
    }
  }

  lemma FinishTakesFirst(s: State, i: nat, t: Trigger)
    requires i < |s.frames| && !IsOpen(s.frames[i]) && t in s.queue
    ensures t in Finished(s, i).queue || Finished(s, i).frames == Cleared(s, i).frames + [SyncFrame(s.sequence + 1, t)]
  {
    assert s.queue == [s.queue[0]] + s.queue[1..];
    var next := Cleared(s, i).(queue := s.queue[1..]);
    if !Idle(next) && s.queue[0] !in next.queue {
      assert Finished(s, i).queue == next.queue + [s.queue[0]];
    }
  }

  /** A trigger handed in is either synchronized for at once or waiting. */
  lemma TriggerIsNeverDropped(s: State, t: Trigger)
    requires Inv(s)
    ensures t in Synchronized(s, t).queue || Synchronized(s, t).frames == s.frames + [SyncFrame(s.sequence + 1, t)]
  {
    if !Idle(s) && t !in s.queue {
      assert Synchronized(s, t).queue[|s.queue|] == t;
    }
  }

  // ---------------------------------------------------------------- mutations

  /** While a mutation is in flight only a sign-out or a disposal can make its number stale. */
  lemma MutationSupersededOnlyBy(s: State, e: Event, i: nat)
    requires Inv(s) && Enabled(s, e) && Begins(s, e)
    requires i < |s.frames| && IsOpen(s.frames[i]) && !IsSync(s.frames[i])
    ensures Ends(s, e)
  {
    assert s.mutationInFlight;
    if e.Finish? {
      OneFrameOfAKind(s, i, e.frame);
    }
  }

  ghost predicate HasMutation(s: State, n: nat) {
    exists i :: 0 <= i < |s.frames| && IsOpen(s.frames[i]) && !IsSync(s.frames[i]) && s.frames[i].seqNo == n
  }

  /** An open frame of the next state was open before, for the same call, or has just been started. */
  ghost predicate CameFrom(s: State, f: Frame) {
    IsOpen(f) ==>
      || f.seqNo == s.sequence + 1
      || exists i :: 0 <= i < |s.frames| && IsOpen(s.frames[i]) && IsSync(s.frames[i]) == IsSync(f) && s.frames[i].seqNo == f.seqNo
  }

  lemma SynchronizedFrames(s: State, t: Trigger, i: nat)
    requires i < |Synchronized(s, t).frames|
    ensures CameFrom(s, Synchronized(s, t).frames[i])
  {
    assert i < |s.frames| ==> Synchronized(s, t).frames[i] == s.frames[i];
  }

  lemma FinishedFrames(s: State, k: nat, i: nat)
    requires FramesOk(s) && k < |s.frames| && !IsOpen(s.frames[k]) && i < |Finished(s, k).frames|
    ensures CameFrom(s, Finished(s, k).frames[i])
  {
    var s' := Cleared(s, k);
    ClearedFrames(s, k);
    assert CameFrom(s, Finished(s, k).frames[i]) by {
      if i < |s'.frames| {
        assert Finished(s, k).frames[i] == s'.frames[i] == s.frames[1 - k];
      }
    }
  }

  lemma StartedFrames(s: State, e: Event, i: nat)
    requires Enabled(s, e) && (e.UpdateProfile? || e.BindDevice?) && i < |Step(s, e).frames|
    ensures CameFrom(s, Step(s, e).frames[i])
  {
    if i < |s.frames| {
      assert Step(s, e).frames[i] == s.frames[i];
    }
  }

  lemma SettledFrames(s: State, k: nat, reply: Reply, i: nat)
    requires k < |s.frames| && IsOpen(s.frames[k]) && i < |s.frames|
    ensures CameFrom(s, Settled(s, k, reply).frames[i])
  {
    if i != k {
      assert Settled(s, k, reply).frames[i] == s.frames[i];
    }
  }

  lemma FramesComeFrom(s: State, e: Event, i: nat)
    requires FramesOk(s) && Enabled(s, e) && i < |Step(s, e).frames|
    ensures CameFrom(s, Step(s, e).frames[i])
  {
    match e
    case Synchronize(t) => SynchronizedFrames(s, t, i);
    case UpdateProfile(_) => StartedFrames(s, e, i);
    case BindDevice(_) => StartedFrames(s, e, i);
    case SignOut =>
    case Start =>
      if !s.started {
        SynchronizedFrames(s.(started := true), Launch, i);
      }
    case Dispose =>
    case Settle(k, reply) => SettledFrames(s, k, reply, i);
    case Finish(k) => FinishedFrames(s, k, i);
  }

  lemma MutationWasThere(s: State, e: Event, s': State, n: nat)
    requires FramesOk(s) && Enabled(s, e) && s' == Step(s, e)
    requires n <= s.sequence && HasMutation(s', n)
    ensures HasMutation(s, n)
  {
    var i: nat :| i < |s'.frames| && IsOpen(s'.frames[i]) && !IsSync(s'.frames[i]) && s'.frames[i].seqNo == n;
    FramesComeFrom(s, e, i);
  }

  lemma {:induction false} SequenceGrows(states: seq<State>, events: seq<Event>, b: nat, j: nat)
    requires IsRun(states, events) && b <= j < |states|
    ensures states[b].sequence <= states[j].sequence
  {
    CurrentExactlyWhileNothingBegins(states, events, b, j);
  }

  lemma {:induction false} MutationPresentThroughout(states: seq<State>, events: seq<Event>, k: nat, j: nat, n: nat)
    requires IsRun(states, events) && states[0] == Initial && k <= j < |states|
    requires n <= states[k].sequence && HasMutation(states[j], n)
    ensures HasMutation(states[k], n)
    decreases j - k
  {
    if k < j {
      var p := j - 1;
      SequenceGrows(states, events, k, p);
      RunKeepsInv(states, events, p);
      MutationWasThere(states[p], events[p], states[p + 1], n);
      MutationPresentThroughout(states, events, k, p, n);
    }
  }

  /**
   Lifecycle synchronizations never supersede a mutation: from the start of a profile update or binding
   to each of its continuations, its number stays current unless a sign-out or disposal intervenes.
   */
  lemma MutationOutlivesSynchronizations(states: seq<State>, events: seq<Event>, b: nat, j: nat)
    requires IsRun(states, events) && states[0] == Initial && b < j < |events|
    requires Begins(states[b], events[b]) && events[j].Settle?
    requires !IsSync(states[j].frames[events[j].frame])
    requires states[j].frames[events[j].frame].seqNo == states[b + 1].sequence
    requires forall k :: b < k < j ==> !Ends(states[k], events[k])
    ensures states[j].sequence == states[j].frames[events[j].frame].seqNo
  {
    var n := states[b + 1].sequence;
    assert HasMutation(states[j], n);
    forall k | b + 1 <= k < j
      ensures !Begins(states[k], events[k])
    {
      CurrentExactlyWhileNothingBegins(states, events, b + 1, k);
      MutationPresentThroughout(states, events, k, j, n);
      RunKeepsInv(states, events, k);
      var i: nat :| i < |states[k].frames| && IsOpen(states[k].frames[i]) && !IsSync(states[k].frames[i])
                    && states[k].frames[i].seqNo == n;
      if Begins(states[k], events[k]) {
        MutationSupersededOnlyBy(states[k], events[k], i);
      }
    }
    CurrentExactlyWhileNothingBegins(states, events, b + 1, j);
  }

  /**
   A profile update reports success exactly when the published snapshot is online and shows the draft on
   the same account at a new version; a failure without a valid answer keeps the draft and the projection.
   */
  lemma ProfileCommitMeansShown(before: Projection, draft: Draft, reply: Reply)
    ensures var (shown, result) := ProfileOutcome(before, draft, reply);
            && (result.Committed? <==> shown.status == Online && shown.projection.Some?
                                       && Confirms(before, draft, shown.projection.value))
            && (result.Committed? ==> shown.projection == Some(result.projection))
            && (reply.Failure? || AuthoritySnapshot(reply.raw.asSnapshot).None? ==>
                  shown.status == Stale && shown.projection == Some(before) && shown.draft == Some(draft))
  {
  }

  /**
   A binding commits only on two agreeing answers: the native one that names a device and a fresh
   projection that lists that device as active for the same account. The projection is then published.
   */
  lemma BindCommitNeedsTwoAnswers(before: Projection, reported: Device, reply: Reply)
    ensures var (shown, result) := ConfirmOutcome(before, reported, reply);
            && (result.BindCommitted? <==> reply.Answer? && AuthoritySnapshot(reply.raw.asSnapshot).Some?
                                           && ConfirmsDevice(before, reported, AuthoritySnapshot(reply.raw.asSnapshot).value))
            && (result.BindCommitted? ==> shown.projection.Some? && shown.projection.value.activeDevice == Some(result.confirmed))
            && (!result.BindCommitted? ==> shown.status == Stale && shown.projection == Some(before))
    ensures forall r :: BindOutcome(before, r).Conclude? ==> !BindOutcome(before, r).result.BindCommitted?
  {
  }

  ghost predicate EndedWithin(states: seq<State>, events: seq<Event>, from: nat, to: nat)
    requires IsRun(states, events) && to <= |events|
  {
    exists k :: from <= k < to && Ends(states[k], events[k])
  }

  /** A mutation's continuation is stale exactly when a sign-out or disposal came after its start. */
  lemma MutationStaleExactlyWhen(states: seq<State>, events: seq<Event>, b: nat, j: nat)
    requires IsRun(states, events) && states[0] == Initial && b < j < |events|
    requires Begins(states[b], events[b]) && events[j].Settle?
    requires !IsSync(states[j].frames[events[j].frame])
    requires states[j].frames[events[j].frame].seqNo == states[b + 1].sequence
    ensures states[j].frames[events[j].frame].seqNo == states[j].sequence <==> !EndedWithin(states, events, b + 1, j)
  {
    if EndedWithin(states, events, b + 1, j) {
      var k :| b + 1 <= k < j && Ends(states[k], events[k]);
      assert Begins(states[k], events[k]);
      CurrentExactlyWhileNothingBegins(states, events, b + 1, j);
    } else {
      MutationOutlivesSynchronizations(states, events, b, j);
    }
  }

  /**
   What the caller of a profile update is told and what is then on display. It is told of success exactly
   when nothing ended the update and the answer confirms its draft, and then the confirmed projection is
   shown; after a sign-out or disposal it is told of a failure and nothing changes on display.
   */
  lemma ProfileAnswerIsShown(states: seq<State>, events: seq<Event>, b: nat, j: nat)
    requires IsRun(states, events) && states[0] == Initial && b < j < |events|
    requires Begins(states[b], events[b]) && events[j].Settle? && states[j].frames[events[j].frame].ProfileFrame?
    requires states[j].frames[events[j].frame].seqNo == states[b + 1].sequence
    ensures var f, reply := states[j].frames[events[j].frame], events[j].reply;
            var answer := CallerAnswer(f, f.seqNo == states[j].sequence, reply);
            var shown := states[j + 1].snapshot;
            if EndedWithin(states, events, b + 1, j) then
              answer == Some(ProfileDone(Failed(NetworkUnavailable))) && shown == states[j].snapshot
            else
              && answer.Some? && answer.value.ProfileDone?
              && shown == ProfileOutcome(f.projection, f.draft, reply).0
              && (answer.value.profile.Committed? <==>
                    shown.status == Online && shown.projection.Some?
                    && Confirms(f.projection, f.draft, shown.projection.value))
              && (answer.value.profile.Committed? ==> shown.projection == Some(answer.value.profile.projection))
              && (answer.value.profile.InConflict? ==>
                    shown.status == Conflict && shown.projection == Some(answer.value.profile.projection)
                    && shown.draft == Some(answer.value.profile.draft))
              && (reply.Failure? || AuthoritySnapshot(reply.raw.asSnapshot).None? ==>
                    shown.status == Stale && shown.projection == Some(f.projection) && shown.draft == Some(f.draft))
  {
    var f, reply := states[j].frames[events[j].frame], events[j].reply;
    MutationStaleExactlyWhen(states, events, b, j);
    ProfileCommitMeansShown(f.projection, f.draft, reply);
    assert states[j + 1] == Settled(states[j], events[j].frame, reply);
  }

  /**
   What the caller of a device binding is told and what is then on display. It is told of success only on
   the second answer, exactly when nothing ended the binding and that answer lists the reported device, and
   then the projection with that device is shown; after a sign-out or disposal it is told of a failure.
   */
  lemma BindAnswerIsShown(states: seq<State>, events: seq<Event>, b: nat, j: nat)
    requires IsRun(states, events) && states[0] == Initial && b < j < |events|
    requires Begins(states[b], events[b]) && events[j].Settle?
    requires var f := states[j].frames[events[j].frame];
             (f.BindFrame? || f.ConfirmFrame?) && f.seqNo == states[b + 1].sequence
    ensures var f, reply := states[j].frames[events[j].frame], events[j].reply;
            var answer := CallerAnswer(f, f.seqNo == states[j].sequence, reply);
            var shown := states[j + 1].snapshot;
            if EndedWithin(states, events, b + 1, j) then
              answer == Some(BindDone(BindFailed)) && shown == states[j].snapshot
            else if answer.None? then
              f.BindFrame? && shown == states[j].snapshot && states[j + 1].frames[events[j].frame].ConfirmFrame?
            else
              && answer.value.BindDone?
              && (answer.value.bind.BindCommitted? <==>
                    && f.ConfirmFrame? && reply.Answer? && AuthoritySnapshot(reply.raw.asSnapshot) == Some(shown)
                    && ConfirmsDevice(f.projection, f.reported, shown))
              && (answer.value.bind.BindCommitted? ==>
                    shown.projection.Some? && shown.projection.value.activeDevice == Some(answer.value.bind.confirmed))
              && (!answer.value.bind.BindCommitted? ==>
                    shown.projection == Some(f.projection)
                    && shown.status == if answer.value.bind.BindRefused? then Online else Stale)
  {
    var f, reply := states[j].frames[events[j].frame], events[j].reply;
    MutationStaleExactlyWhen(states, events, b, j);
    if f.ConfirmFrame? {
      BindCommitNeedsTwoAnswers(f.projection, f.reported, reply);
    }
    assert states[j + 1] == Settled(states[j], events[j].frame, reply);
  }

  // ---------------------------------------------------------------- triggers over whole runs

  /** The event hands in a trigger. */
  predicate HandsIn(s: State, e: Event, t: Trigger) {
    e == Synchronize(t) || (e == Start && !s.started && t == Launch)
  }

  /** The event starts a synchronization for the trigger. */
  ghost predicate Serves(s: State, e: Event, t: Trigger)
    requires Enabled(s, e)
  {
    var next := Step(s, e);
    next.frames != [] && next.frames[|next.frames| - 1] == SyncFrame(s.sequence + 1, t)
  }

  ghost predicate ServedWithin(states: seq<State>, events: seq<Event>, from: nat, to: nat, t: Trigger)
    requires IsRun(states, events) && to <= |events|
  {
    exists k :: from <= k < to && Serves(states[k], events[k], t)
  }

  lemma HandedIn(s: State, e: Event, t: Trigger)
    requires Inv(s) && Enabled(s, e) && HandsIn(s, e, t)
    ensures t in Step(s, e).queue || Serves(s, e, t)
  {
    if e.Start? {
      TriggerIsNeverDropped(s.(started := true), t);
    } else {
      TriggerIsNeverDropped(s, t);
    }
  }

  lemma WaitingStep(s: State, e: Event, t: Trigger)
    requires Inv(s) && Enabled(s, e) && t in s.queue
    ensures t in Step(s, e).queue || Serves(s, e, t) || Ends(s, e)
  {
    if t !in Step(s, e).queue {
      QueuedTriggerLeavesOnlyBy(s, e, t);
    }
  }

  lemma NothingWaitsWhenIdle(s: State, t: Trigger)
    requires Inv(s) && Idle(s)
    ensures t !in s.queue
  {
    assert s.queue == [];
  }

  /** What has become of a trigger handed in at `b`. */
  ghost predicate Accounted(states: seq<State>, events: seq<Event>, b: nat, j: nat, t: Trigger)
    requires IsRun(states, events) && j < |states|
  {
    t in states[j].queue || ServedWithin(states, events, b, j, t) || EndedWithin(states, events, b, j)
  }

  lemma AccountedStep(states: seq<State>, events: seq<Event>, b: nat, j: nat, t: Trigger)
    requires IsRun(states, events) && b <= j < |events| && Inv(states[j])
    requires Accounted(states, events, b, j, t) || HandsIn(states[j], events[j], t)
    ensures Accounted(states, events, b, j + 1, t)
  {
    var s, e := states[j], events[j];
    if ServedWithin(states, events, b, j, t) {
      var k :| b <= k < j && Serves(states[k], events[k], t);
    } else if EndedWithin(states, events, b, j) {
      var k :| b <= k < j && Ends(states[k], events[k]);
    } else if t in s.queue {
      WaitingStep(s, e, t);
    } else {
      HandedIn(s, e, t);
    }
  }

  lemma {:induction false} TriggersAreAccounted(states: seq<State>, events: seq<Event>, b: nat, j: nat, t: Trigger)
    requires IsRun(states, events) && states[0] == Initial && b <= j < |events|
    requires HandsIn(states[b], events[b], t)
    ensures Accounted(states, events, b, j + 1, t)
    decreases j
  {
    RunKeepsInv(states, events, j);
    if b < j {
      TriggersAreAccounted(states, events, b, j - 1, t);
    }
    AccountedStep(states, events, b, j, t);
  }

  /**
   However long a run goes on, a trigger handed in is still waiting, or a synchronization has been started
   for it, or a sign-out or disposal came first; and it no longer waits once nothing is in flight.
   */
  lemma TriggersAreServed(states: seq<State>, events: seq<Event>, b: nat, j: nat, t: Trigger)
    requires IsRun(states, events) && states[0] == Initial && b < j < |states|
    requires HandsIn(states[b], events[b], t)
    ensures t in states[j].queue || ServedWithin(states, events, b, j, t) || EndedWithin(states, events, b, j)
    ensures Idle(states[j]) ==> t !in states[j].queue
  {
    TriggersAreAccounted(states, events, b, j - 1, t);
    assert Accounted(states, events, b, j, t);
    RunKeepsInv(states, events, j);
    if Idle(states[j]) {
      NothingWaitsWhenIdle(states[j], t);
    }
  }

  // ---------------------------------------------------------------- disposal

  /**
   Disposal discards a pending answer exactly when the authority had been started. Disposed before its
   start, it still publishes what that answer entitles it to.
   */
  lemma DisposalDiscardsExactlyWhenStarted(states: seq<State>, events: seq<Event>, b: nat, d: nat, j: nat)
    requires IsRun(states, events) && states[0] == Initial && b < d < j < |events|
    requires Begins(states[b], events[b]) && events[d] == Dispose && events[j].Settle?
    requires states[j].frames[events[j].frame].seqNo == states[b + 1].sequence
    requires forall k :: b < k < j && k != d ==> !Begins(states[k], events[k])
    ensures var published := Publication(states[j].frames[events[j].frame], states[j].snapshot, events[j].reply);
            states[j + 1].snapshot == if states[d].started || published.None? then states[j].snapshot else published.value
  {
    NoStalePublication(states, events, b, j);
    assert Begins(states[d], events[d]) <==> states[d].started;
  }

  /** Such a run: a synchronization is requested, the authority is disposed of, and the failure is shown. */
  lemma AnswerAfterEarlyDisposal()
    ensures var events := [Synchronize(Resume), Dispose, Settle(0, Failure)];
            var s1 := Synchronized(Initial, Resume);
            var states := [Initial, s1, s1, Settled(s1, 0, Failure)];
            && IsRun(states, events) && !states[1].started
            && states[2].snapshot.status == Pending && states[3].snapshot.status == Offline
  {
    var s1 := Synchronized(Initial, Resume);
    assert s1.frames == [SyncFrame(1, Resume)];
  }

  // ---------------------------------------------------------------- how long the revoked state lasts

  /** A synchronization begun after number `n` is answered, while current, with another state than revoked. */
  ghost predicate Lifts(s: State, e: Event, n: nat)
    requires Enabled(s, e)
  {
    && e.Settle? && s.frames[e.frame].SyncFrame?
    && n < s.frames[e.frame].seqNo == s.sequence
    && SyncPublication(s.snapshot, e.reply).status != Revoked
  }

  lemma SettledWhileRevoked(s: State, i: nat, reply: Reply, n: nat)
    requires Inv(s) && i < |s.frames| && IsOpen(s.frames[i]) && Emptied(s, n) && s.snapshot.status == Revoked
    ensures Settled(s, i, reply).snapshot.status == Revoked <==> !Lifts(s, Settle(i, reply), n)
  {
    var f := s.frames[i];
    if f.seqNo == s.sequence {
      assert f.SyncFrame? && f.seqNo > n;
    }
  }

  lemma CallsKeepRevoked(s: State, e: Event)
    requires Enabled(s, e) && !e.Settle? && s.snapshot.status == Revoked && s.snapshot.projection.None?
    ensures Step(s, e).snapshot.status == Revoked
  {
    match e
    case Finish(i) => assert Step(s, e) == Finished(s, i);
    case _ =>
  }

  lemma StepWhileRevoked(s: State, e: Event, n: nat)
    requires Inv(s) && Enabled(s, e) && Emptied(s, n) && s.snapshot.status == Revoked
    ensures Step(s, e).snapshot.status == Revoked <==> !Lifts(s, e, n)
    ensures Step(s, e).snapshot.status == Revoked ==> Emptied(Step(s, e), n)
  {
    if e.Settle? {
      SettledWhileRevoked(s, e.frame, e.reply, n);
    } else {
      CallsKeepRevoked(s, e);
    }
    RevokedMeansEmptied(s, e, n);
  }

  lemma RevokedMeansEmptied(s: State, e: Event, n: nat)
    requires Inv(s) && Enabled(s, e) && Emptied(s, n)
    ensures Step(s, e).snapshot.status == Revoked ==> Emptied(Step(s, e), n)
  {
    StepStaysEmptied(s, e, n);
    StepKeepsInv(s, e);
  }

  ghost predicate RevokedThroughout(states: seq<State>, from: nat, to: nat)
    requires to < |states|
  {
    forall m :: from <= m <= to ==> states[m].snapshot.status == Revoked
  }

  ghost predicate NothingLifts(states: seq<State>, events: seq<Event>, from: nat, to: nat, n: nat)
    requires IsRun(states, events) && to <= |events|
  {
    forall k :: from <= k < to ==> !Lifts(states[k], events[k], n)
  }

  lemma {:induction false} RevokedUpTo(states: seq<State>, events: seq<Event>, k: nat, j: nat, n: nat)
    requires IsRun(states, events) && k <= j < |states|
    requires Inv(states[k]) && Emptied(states[k], n) && states[k].snapshot.status == Revoked
    ensures RevokedThroughout(states, k, j) <==> NothingLifts(states, events, k, j, n)
    decreases j - k
  {
    if k < j {
      StepWhileRevoked(states[k], events[k], n);
      StepKeepsInv(states[k], events[k]);
      if !Lifts(states[k], events[k], n) {
        RevokedUpTo(states, events, k + 1, j, n);
        assert RevokedThroughout(states, k, j) <==> RevokedThroughout(states, k + 1, j);
        assert NothingLifts(states, events, k, j, n) <==> NothingLifts(states, events, k + 1, j, n);
      } else {
        assert states[k + 1].snapshot.status != Revoked;
        assert !NothingLifts(states, events, k, j, n);
      }
    }
  }

  /**
   After a sign-out the snapshot stays revoked exactly until a synchronization begun afterwards is answered
   with anything but the revoked state; a failure is such an answer. Nothing else ends it: no trigger, no
   mutation, no older answer, no disposal.
   */
  lemma SignedOutStaysRevokedExactlyUntil(states: seq<State>, events: seq<Event>, b: nat, j: nat)
    requires IsRun(states, events) && states[0] == Initial
    requires b < j < |states| && events[b] == SignOut
    ensures RevokedThroughout(states, b + 1, j) <==>
            NothingLifts(states, events, b + 1, j, states[b + 1].sequence)
  {
    RunKeepsInv(states, events, b);
    StepKeepsInv(states[b], events[b]);
    SignOutEmpties(states[b]);
    RevokedUpTo(states, events, b + 1, j, states[b + 1].sequence);
  }

  /** While the revoked state lasts there is no projection, so a failed refresh always shows offline. */
  lemma FailureLiftsRevocation(s: State, i: nat, n: nat)
    requires Emptied(s, n) && i < |s.frames| && s.frames[i].SyncFrame? && n < s.frames[i].seqNo == s.sequence
    ensures Lifts(s, Settle(i, Failure), n)
    ensures Settled(s, i, Failure).snapshot == Snapshot(Offline, None, None, Some(NetworkUnavailable))
  {
  }

  /** So whoever signs out while nothing is in flight and refreshes in vain is shown offline, not revoked. */
  lemma RefreshAfterSignOutMayShowOffline(s: State, t: Trigger)
    requires Inv(s) && Idle(s)
    ensures var refreshed := Synchronized(SignedOut(s), t);
            && refreshed.snapshot.status == Revoked
            && refreshed.frames == s.frames + [SyncFrame(s.sequence + 2, t)]
            && Settled(refreshed, |s.frames|, Failure).snapshot == Snapshot(Offline, None, None, Some(NetworkUnavailable))
  {
    var out := SignedOut(s);
    var refreshed := Synchronized(out, t);
    EndingsKeepInv(s);
    SignOutEmpties(s);
    SynchronizedStaysEmptied(out, t, out.sequence);
    assert refreshed.frames[|s.frames|] == SyncFrame(s.sequence + 2, t);
    FailureLiftsRevocation(refreshed, |s.frames|, out.sequence);
  }
}
