/**
 Length-prefixed frames on a pipe: four bytes of big-endian length, then the payload. The text of a payload
 is taken as the payload itself. The native loops move as many bytes as the pipe takes or gives at each
 poll; a poll may also find nothing, a stop request, an expired deadline or a broken pipe.
 */
module Framing {
  import opened Collections

  type Byte = b: int | 0 <= b < 256

  const U32_MAX: nat := 0xFFFF_FFFF
  const HEADER: nat := 4

  datatype FrameError = TooLarge | Truncated

  // ---------------------------------------------------------------- one frame

  function BigEndian(n: nat): (bytes: seq<Byte>)
    requires n <= U32_MAX
    ensures |bytes| == HEADER
  {
    [n / 0x100_0000, n / 0x1_0000 % 0x100, n / 0x100 % 0x100, n % 0x100]
  }

  function FromBigEndian(bytes: seq<Byte>): (n: nat)
    requires |bytes| == HEADER
    ensures n <= U32_MAX
  {
    var a: int, b: int, c: int, d: int := bytes[0], bytes[1], bytes[2], bytes[3];
    ((a * 0x100 + b) * 0x100 + c) * 0x100 + d
  }

  lemma BigEndianRoundTrip(n: nat)
    requires n <= U32_MAX
    ensures FromBigEndian(BigEndian(n)) == n
  {
    assert n / 0x1_0000 == n / 0x100_0000 * 0x100 + n / 0x1_0000 % 0x100;
    assert n / 0x100 == n / 0x1_0000 * 0x100 + n / 0x100 % 0x100;
  }

  /** What four bytes weigh, the first one most. */
  function Weighed(bytes: seq<Byte>): int
    requires |bytes| == HEADER
  {
    var a: int, b: int, c: int, d: int := bytes[0], bytes[1], bytes[2], bytes[3];
    a * 16777216 + b * 65536 + c * 256 + d
  }

  /** The most significant byte comes first, when written and when read. */
  lemma MostSignificantFirst(n: nat, bytes: seq<Byte>)
    requires n <= U32_MAX && |bytes| == HEADER
    ensures Weighed(BigEndian(n)) == n && FromBigEndian(bytes) == Weighed(bytes)
  {
    BigEndianRoundTrip(n);
  }

  function Frame(payload: seq<Byte>): seq<Byte>
    requires |payload| <= U32_MAX
  {
    BigEndian(|payload|) + payload
  }

  function EncodeFrame(payload: seq<Byte>, maximum: nat): Result<seq<Byte>, FrameError> {
    if payload == [] || |payload| > maximum || |payload| > U32_MAX then Err(TooLarge) else Ok(Frame(payload))
  }

  datatype Taken = Taken(payload: seq<Byte>, rest: seq<Byte>)

  /** Reads one frame off a reader that holds `bytes` and then ends. */
  function DecodeFrame(bytes: seq<Byte>, maximum: nat): Result<Taken, FrameError> {
    if |bytes| < HEADER then Err(Truncated)
    else
      var length := FromBigEndian(bytes[..HEADER]);
      if length == 0 || length > maximum then Err(TooLarge)
      else if |bytes| < HEADER + length then Err(Truncated)
      else Ok(Taken(bytes[HEADER..HEADER + length], bytes[HEADER + length..]))
  }

  /** What the encoder accepts at a maximum is exactly what the reader accepts at that maximum. */
  lemma EncodedExactlyWhenDecoded(payload: seq<Byte>, rest: seq<Byte>, maximum: nat)
    requires |payload| <= U32_MAX
    ensures EncodeFrame(payload, maximum).Ok? <==>
            DecodeFrame(Frame(payload) + rest, maximum) == Ok(Taken(payload, rest))
    ensures EncodeFrame(payload, maximum).Err? <==> DecodeFrame(Frame(payload) + rest, maximum) == Err(TooLarge)
  {
    BigEndianRoundTrip(|payload|);
    var bytes := Frame(payload) + rest;
    assert bytes[..HEADER] == BigEndian(|payload|);
    assert bytes[HEADER..HEADER + |payload|] == payload && bytes[HEADER + |payload|..] == rest;
  }

  /** A frame is four bytes of length and the payload; what cannot be framed is too large, the empty payload too. */
  lemma EncoderAnswers(payload: seq<Byte>, maximum: nat)
    ensures var framed := EncodeFrame(payload, maximum);
            && (framed == Err(TooLarge) <==> payload == [] || |payload| > maximum || |payload| > 0xFFFF_FFFF)
            && (framed.Err? <==> framed == Err(TooLarge))
            && (framed.Ok? ==>
                  && |framed.value| == 4 + |payload| && framed.value[4..] == payload
                  && Weighed(framed.value[..4]) == |payload|)
  {
    if EncodeFrame(payload, maximum).Ok? {
      MostSignificantFirst(|payload|, BigEndian(|payload|));
      assert Frame(payload)[..4] == BigEndian(|payload|);
    }
  }

  // ---------------------------------------------------------------- a stream of frames

  ghost predicate Encodable(payloads: seq<seq<Byte>>, maximum: nat) {
    forall i :: 0 <= i < |payloads| ==> EncodeFrame(payloads[i], maximum).Ok?
  }

  function EncodeAll(payloads: seq<seq<Byte>>, maximum: nat): seq<Byte>
    requires Encodable(payloads, maximum)
  {
    if payloads == [] then [] else EncodeFrame(payloads[0], maximum).value + EncodeAll(payloads[1..], maximum)
  }

  /** The payloads of a stream, and how it ended: cleanly, or in the middle of a frame, or refused. */
  datatype Received = Received(payloads: seq<seq<Byte>>, end: Option<FrameError>)

  function DecodeAll(bytes: seq<Byte>, maximum: nat): Received
    decreases |bytes|
  {
    if bytes == [] then Received([], None)
    else
      match DecodeFrame(bytes, maximum)
      case Err(e) => Received([], Some(e))
      case Ok(taken) =>
        var more := DecodeAll(taken.rest, maximum);
        Received([taken.payload] + more.payloads, more.end)
  }

  /** Cut anywhere, a stream of frames yields the payloads of its whole frames; uncut, all of them. */
  lemma {:induction false} CutStreamsDecodeToPrefixes(payloads: seq<seq<Byte>>, maximum: nat, cut: nat)
    requires Encodable(payloads, maximum) && cut <= |EncodeAll(payloads, maximum)|
    ensures var got := DecodeAll(EncodeAll(payloads, maximum)[..cut], maximum);
            && got.payloads <= payloads
            && got.end in {None, Some(Truncated)}
            && (got.end == None <==> |EncodeAll(payloads[..|got.payloads|], maximum)| == cut)
            && (cut == |EncodeAll(payloads, maximum)| ==> got == Received(payloads, None))
    decreases |payloads|
  {
    var bytes := EncodeAll(payloads, maximum);
    if payloads != [] {
      var head, tail := Frame(payloads[0]), EncodeAll(payloads[1..], maximum);
      assert EncodeFrame(payloads[0], maximum).Ok?;
      if cut < |head| {
        CutFrameIsTruncated(payloads[0], maximum, cut);
        assert bytes[..cut] == head[..cut];
      } else {
        var rest := cut - |head|;
        assert bytes[..cut] == head + tail[..rest];
        FirstFrameIsTaken(payloads[0], tail[..rest], maximum);
        CutStreamsDecodeToPrefixes(payloads[1..], maximum, rest);
        PrefixBehindHead(DecodeAll(tail[..rest], maximum).payloads, payloads);
        var whole := payloads[..|DecodeAll(bytes[..cut], maximum).payloads|];
        assert whole[1..] == payloads[1..][..|whole| - 1];
      }
    }
  }

  lemma FirstFrameIsTaken(payload: seq<Byte>, rest: seq<Byte>, maximum: nat)
    requires EncodeFrame(payload, maximum).Ok?
    ensures var more := DecodeAll(rest, maximum);
            DecodeAll(Frame(payload) + rest, maximum) == Received([payload] + more.payloads, more.end)
  {
    EncodedExactlyWhenDecoded(payload, rest, maximum);
    assert Frame(payload) + rest != [];
  }

  lemma PrefixBehindHead(tail: seq<seq<Byte>>, all: seq<seq<Byte>>)
    requires all != [] && tail <= all[1..]
    ensures [all[0]] + tail <= all
    ensures tail == all[1..] ==> [all[0]] + tail == all
  {
    assert all == [all[0]] + all[1..];
  }

  lemma CutFrameIsTruncated(payload: seq<Byte>, maximum: nat, cut: nat)
    requires EncodeFrame(payload, maximum).Ok? && cut < |Frame(payload)|
    ensures DecodeFrame(Frame(payload)[..cut], maximum) == Err(Truncated)
  {
    if cut >= HEADER {
      BigEndianRoundTrip(|payload|);
      assert Frame(payload)[..cut][..HEADER] == BigEndian(|payload|);
    }
  }

  // ---------------------------------------------------------------- frames laid end to end

  lemma ToBytesAndBack(bytes: seq<Byte>)
    requires |bytes| == HEADER
    ensures BigEndian(FromBigEndian(bytes)) == bytes
  {
    var a: int, b: int, c: int, d: int := bytes[0], bytes[1], bytes[2], bytes[3];
    var n := FromBigEndian(bytes);
    LastByte((a * 0x100 + b) * 0x100 + c, d);
    LastByte(a * 0x100 + b, c);
    LastByte(a, b);
    assert n / 0x1_0000 == n / 0x100 / 0x100 && n / 0x100_0000 == n / 0x100 / 0x100 / 0x100;
  }

  lemma LastByte(high: nat, low: int)
    requires 0 <= low < 0x100
    ensures (high * 0x100 + low) / 0x100 == high && (high * 0x100 + low) % 0x100 == low
  {
  }

  /** What the reader takes off a stream is the frame of an encodable payload. */
  lemma DecodedIsFrame(bytes: seq<Byte>, maximum: nat)
    requires DecodeFrame(bytes, maximum).Ok?
    ensures var taken := DecodeFrame(bytes, maximum).value;
            EncodeFrame(taken.payload, maximum).Ok? && bytes == Frame(taken.payload) + taken.rest
  {
    var taken := DecodeFrame(bytes, maximum).value;
    ToBytesAndBack(bytes[..HEADER]);
    InThree(bytes, HEADER, HEADER + |taken.payload|);
  }

  lemma InThree(bytes: seq<Byte>, i: nat, j: nat)
    requires i <= j <= |bytes|
    ensures bytes == (bytes[..i] + bytes[i..j]) + bytes[j..]
  {
    assert bytes[..j] == bytes[..i] + bytes[i..j];
    assert bytes == bytes[..j] + bytes[j..];
  }

  lemma StillEncodable(payloads: seq<seq<Byte>>, last: seq<Byte>, maximum: nat)
    requires Encodable(payloads, maximum) && EncodeFrame(last, maximum).Ok?
    ensures Encodable(payloads + [last], maximum)
  {
  }

  lemma {:induction false} EncodeOneMore(payloads: seq<seq<Byte>>, last: seq<Byte>, maximum: nat)
    requires Encodable(payloads, maximum) && EncodeFrame(last, maximum).Ok?
    ensures Encodable(payloads + [last], maximum)
    ensures EncodeAll(payloads + [last], maximum) == EncodeAll(payloads, maximum) + EncodeFrame(last, maximum).value
    decreases |payloads|
  {
    StillEncodable(payloads, last, maximum);
    var all, tail := payloads + [last], EncodeFrame(last, maximum).value;
    if payloads == [] {
      assert all[0] == last && all[1..] == [];
      assert EncodeAll(all[1..], maximum) == [];
      assert EncodeAll(payloads, maximum) + tail == tail + [];
    } else {
      assert all[0] == payloads[0] && all[1..] == payloads[1..] + [last];
      EncodeOneMore(payloads[1..], last, maximum);
      ConcatAssociative(EncodeFrame(payloads[0], maximum).value, EncodeAll(payloads[1..], maximum), tail);
    }
  }

  /** A stream of frames starts with its first frame, so the reader never refuses it. */
  lemma FirstOfMany(payloads: seq<seq<Byte>>, maximum: nat)
    requires Encodable(payloads, maximum)
    ensures payloads == [] ==> DecodeFrame(EncodeAll(payloads, maximum), maximum) == Err(Truncated)
    ensures payloads != [] ==>
              (&& Encodable(payloads[1..], maximum)
               && DecodeFrame(EncodeAll(payloads, maximum), maximum)
                  == Ok(Taken(payloads[0], EncodeAll(payloads[1..], maximum))))
  {
    if payloads != [] {
      assert EncodeFrame(payloads[0], maximum).Ok?;
      EncodedExactlyWhenDecoded(payloads[0], EncodeAll(payloads[1..], maximum), maximum);
    }
  }

  /** Frames are told apart: if one stream starts with the frames of another, its payloads do as well. */
  lemma {:induction false} FramesAreToldApart(written: seq<seq<Byte>>, read: seq<seq<Byte>>, rest: seq<Byte>, maximum: nat)
    requires Encodable(written, maximum) && Encodable(read, maximum)
    requires EncodeAll(written, maximum) == EncodeAll(read, maximum) + rest
    ensures read <= written && rest == EncodeAll(written[|read|..], maximum)
    decreases |read|
  {
    if read == [] {
      assert EncodeAll(read, maximum) + rest == rest;
    } else {
      var behind := EncodeAll(read[1..], maximum) + rest;
      assert EncodeFrame(read[0], maximum).Ok?;
      assert EncodeAll(written, maximum) == Frame(read[0]) + behind;
      EncodedExactlyWhenDecoded(read[0], behind, maximum);
      FirstOfMany(written, maximum);
      assert written != [];
      FramesAreToldApart(written[1..], read[1..], rest, maximum);
      assert written[1..][|read[1..]|..] == written[|read|..];
    }
  }

  lemma {:induction false} EncodeConcat(a: seq<seq<Byte>>, b: seq<seq<Byte>>, maximum: nat)
    requires Encodable(a, maximum) && Encodable(b, maximum)
    ensures Encodable(a + b, maximum)
    ensures EncodeAll(a + b, maximum) == EncodeAll(a, maximum) + EncodeAll(b, maximum)
    decreases |b|
  {
    if b == [] {
      assert a + b == a && EncodeAll(b, maximum) == [];
    } else {
      var init, last := b[..|b| - 1], b[|b| - 1];
      assert b == init + [last];
      assert EncodeFrame(last, maximum).Ok?;
      EncodeConcat(a, init, maximum);
      EncodeOneMore(init, last, maximum);
      EncodeOneMore(a + init, last, maximum);
      ConcatAssociative(a, init, [last]);
      ConcatAssociative(EncodeAll(a, maximum), EncodeAll(init, maximum), Frame(last));
    }
  }

  // ---------------------------------------------------------------- the native loops

  /**
   One poll of a loop. Between two polls of the reading side the writer may go on: it begins its next value,
   if the last one is out, or gets some more of its bytes into the pipe.
   */
  datatype Poll =
    | Stopping
    | Expired
    | Moved(count: nat)
    | Nothing
    | Broken
    | WriterBegins(payload: seq<Byte>)
    | WriterMoves(amount: nat)

  datatype HostError = StoppingError | Io | FramingError

  predicate Fails(poll: Poll) {
    poll.Stopping? || poll.Expired? || poll.Broken?
  }

  ghost predicate Quiet(schedule: seq<Poll>) {
    forall i :: 0 <= i < |schedule| ==> !Fails(schedule[i])
  }

  /** How many of the polls from `i` on move something. */
  ghost function Progress(schedule: seq<Poll>, i: nat): nat
    requires i <= |schedule|
    decreases |schedule| - i
  {
    if i == |schedule| then 0
    else (if schedule[i].Moved? && schedule[i].count > 0 then 1 else 0) + Progress(schedule, i + 1)
  }

  function Least(a: nat, b: nat): nat {
    if a < b then a else b
  }

  /** How many bytes have come into the pipe and how many the writer still holds. */
  datatype Supply = Supply(come: nat, held: nat)

  /** What one poll does to the supply; reading takes nothing from what has come. */
  function Supplied(s: Supply, poll: Poll, maximum: nat): Supply {
    match poll
    case WriterMoves(amount) => Supply(s.come + Least(amount, s.held), s.held - Least(amount, s.held))
    case WriterBegins(payload) =>
      if s.held == 0 && EncodeFrame(payload, maximum).Ok? then s.(held := HEADER + |payload|) else s
    case _ => s
  }

  /** The writer begins a value only when it holds nothing and the value can be framed; moving loses nothing. */
  lemma SupplyIs(s: Supply, poll: Poll, maximum: nat)
    ensures var next := Supplied(s, poll, maximum);
            match poll
            case WriterMoves(amount) =>
              && next.come + next.held == s.come + s.held && next.held == (if amount < s.held then s.held - amount else 0)
            case WriterBegins(payload) =>
              && next.come == s.come
              && next.held == (if s.held == 0 && EncodeFrame(payload, maximum).Ok? then 4 + |payload| else s.held)
            case _ => next == s
  {
  }

  /** How many of the polls from `i` on can move something once `need` bytes have come. */
  ghost function Useful(schedule: seq<Poll>, i: nat, s: Supply, need: nat, maximum: nat): nat
    requires i <= |schedule|
    decreases |schedule| - i
  {
    if i == |schedule| then 0
    else
      (if schedule[i].Moved? && schedule[i].count > 0 && s.come >= need then 1 else 0)
      + Useful(schedule, i + 1, Supplied(s, schedule[i], maximum), need, maximum)
  }

  /** Bytes read already shift what has come and what is needed alike. */
  lemma {:induction false} UsefulShifts(schedule: seq<Poll>, i: nat, s: Supply, need: nat, read: nat, maximum: nat)
    requires i <= |schedule|
    ensures Useful(schedule, i, s.(come := s.come + read), need + read, maximum) == Useful(schedule, i, s, need, maximum)
    decreases |schedule| - i
  {
    if i < |schedule| {
      UsefulShifts(schedule, i + 1, Supplied(s, schedule[i], maximum), need, read, maximum);
    }
  }

  /** The values begun come from these polls. */
  ghost predicate BegunBy(begun: seq<seq<Byte>>, schedule: seq<Poll>) {
    forall p :: p in begun ==> WriterBegins(p) in schedule
  }

  /** What was ahead of the reader and what was begun meanwhile is what it got and what is ahead of it now. */
  ghost predicate Delivered(was: seq<Byte>, begun: seq<seq<Byte>>, got: seq<Byte>, ahead: seq<Byte>, maximum: nat) {
    Encodable(begun, maximum) && was + EncodeAll(begun, maximum) == got + ahead
  }

  lemma NothingDelivered(was: seq<Byte>, maximum: nat)
    ensures Delivered(was, [], [], was, maximum)
  {
    assert was + EncodeAll([], maximum) == [] + was;
  }

  lemma DeliveredInSteps(was: seq<Byte>, begun: seq<seq<Byte>>, got: seq<Byte>, ahead: seq<Byte>,
                         more: seq<seq<Byte>>, read: seq<Byte>, rest: seq<Byte>, maximum: nat)
    requires Delivered(was, begun, got, ahead, maximum) && Delivered(ahead, more, read, rest, maximum)
    ensures Delivered(was, begun + more, got + read, rest, maximum)
  {
    var sent, after := EncodeAll(begun, maximum), EncodeAll(more, maximum);
    EncodeConcat(begun, more, maximum);
    ConcatAssociative(was, sent, after);
    ConcatAssociative(got, ahead, after);
    ConcatAssociative(got, read, rest);
  }

  lemma FrontAndRest(all: seq<Byte>, front: seq<Byte>, rest: seq<Byte>)
    requires all == front + rest
    ensures |front| <= |all| && all[..|front|] == front && all[|front|..] == rest
  {
  }

  lemma BegunByPoll(begun: seq<seq<Byte>>, more: seq<seq<Byte>>, schedule: seq<Poll>, i: nat)
    requires BegunBy(begun, schedule) && i < |schedule| && BegunBy(more, [schedule[i]])
    ensures BegunBy(begun + more, schedule)
  {
  }

  /** Of `before` useful polls, no more were used up than bytes were read. */
  ghost predicate Promising(schedule: seq<Poll>, i: nat, come: nat, held: nat, need: nat, read: nat, before: nat, maximum: nat) {
    i <= |schedule| && Useful(schedule, i, Supply(come + read, held), need, maximum) + read >= before
  }

  /** A poll that could move something and did so leaves the promise of the later ones. */
  lemma StaysPromising(schedule: seq<Poll>, i: nat, was: Supply, come: nat, held: nat, need: nat, read: nat, now: nat,
                       before: nat, maximum: nat)
    requires i < |schedule| && Promising(schedule, i, was.come, was.held, need, read, before, maximum)
    requires Supply(come + now, held) == Supplied(was, schedule[i], maximum)
    requires schedule[i].Moved? && schedule[i].count > 0 && was.come > 0 ==> now > 0
    requires read < need
    ensures Promising(schedule, i + 1, come, held, need, read + now, before, maximum)
  {
    var s := Supply(was.come + read, was.held);
    assert Supplied(s, schedule[i], maximum) == Supply(come + (read + now), held);
  }

  /** One direction of a pipe: the bytes in it, and those of the value being written that are not in it yet. */
  class NativePipe {
    var stream: seq<Byte>
    var outbox: seq<Byte>

    /** Everything on its way to the reader. */
    function Ahead(): seq<Byte>
      reads this
    {
      stream + outbox
    }

    constructor ()
      ensures stream == [] && outbox == []
    {
      stream, outbox := [], [];
    }

    method BeginWrite(payload: seq<Byte>, maximum: nat) returns (result: Result<(), HostError>)
      requires outbox == []
      modifies this
      ensures result == if EncodeFrame(payload, maximum).Ok? then Ok(()) else Err(FramingError)
      ensures stream == old(stream)
      ensures outbox == if result.Ok? then Frame(payload) else []
    {
      var encoded := EncodeFrame(payload, maximum);
      if encoded.Err? {
        return Err(FramingError);
      }
      outbox := encoded.value;
      return Ok(());
    }

    /** Part of what is being written gets into the pipe. */
    method Push(count: nat)
      modifies this
      ensures Ahead() == old(Ahead())
      ensures old(stream) <= stream && |stream| == |old(stream)| + Least(count, |old(outbox)|)
      ensures |outbox| == |old(outbox)| - Least(count, |old(outbox)|)
    {
      var moved := Least(count, |outbox|);
      assert stream + outbox == (stream + outbox[..moved]) + outbox[moved..];
      stream, outbox := stream + outbox[..moved], outbox[moved..];
    }

    /** The write loop: `false` when the polls run out before the value is out. */
    method ContinueWrite(schedule: seq<Poll>) returns (result: Result<bool, HostError>)
      modifies this
      ensures Ahead() == old(Ahead()) && old(stream) <= stream
      ensures result == Ok(true) <==> outbox == []
      ensures result != Err(FramingError)
      ensures Quiet(schedule) && Progress(schedule, 0) >= |old(outbox)| ==> result == Ok(true)
    {
      var i: nat := 0;
      while outbox != []
        invariant i <= |schedule| && Ahead() == old(Ahead()) && old(stream) <= stream
        invariant Quiet(schedule) && Progress(schedule, 0) >= |old(outbox)| ==> Progress(schedule, i) >= |outbox|
        decreases |schedule| - i
      {
        if i == |schedule| {
          return Ok(false);
        }
        match schedule[i] {
          case Stopping => return Err(StoppingError);
          case Expired => return Err(Io);
          case Broken => return Err(Io);
          case Moved(count) => Push(count);
          case _ =>
        }
        i := i + 1;
      }
      return Ok(true);
    }

    method WriteValue(payload: seq<Byte>, maximum: nat, schedule: seq<Poll>) returns (result: Result<(), HostError>)
      requires outbox == []
      modifies this
      ensures EncodeFrame(payload, maximum).Err? ==> result == Err(FramingError) && Ahead() == old(Ahead()) && outbox == []
      ensures EncodeFrame(payload, maximum).Ok? ==>
                && Ahead() == old(stream) + Frame(payload) && old(stream) <= stream
                && (result.Ok? <==> outbox == []) && result != Err(FramingError)
                && (Quiet(schedule) && Progress(schedule, 0) >= |Frame(payload)| ==> result.Ok?)
    {
      var begun := BeginWrite(payload, maximum);
      if begun.Err? {
        return Err(begun.error);
      }
      var done := ContinueWrite(schedule);
      match done
      case Err(e) => return Err(e);
      case Ok(sent) => return if sent then Ok(()) else Err(Io);
    }

    /** One poll of the read loop that does not fail. */
    method ReadOnce(poll: Poll, buffer: array<Byte>, offset: nat, maximum: nat)
      returns (read: nat, begun: seq<seq<Byte>>)
      requires !Fails(poll) && offset < buffer.Length
      modifies this, buffer
      ensures offset + read <= buffer.Length && buffer[..offset] == old(buffer[..offset])
      ensures BegunBy(begun, [poll])
      ensures Delivered(old(Ahead()), begun, buffer[offset..offset + read], Ahead(), maximum)
      ensures Supply(|stream| + read, |outbox|) == Supplied(Supply(|old(stream)|, |old(outbox)|), poll, maximum)
      ensures poll.Moved? && poll.count > 0 && |old(stream)| > 0 ==> read > 0
    {
      read, begun := 0, [];
      NothingDelivered(Ahead(), maximum);
      assert buffer[offset..offset] == [];
      match poll
      case WriterMoves(amount) => Push(amount);
      case WriterBegins(payload) =>
        if outbox == [] {
          var started := BeginWrite(payload, maximum);
          if started.Ok? {
            EncodeOneMore([], payload, maximum);
            assert [] + [payload] == [payload];
            begun := [payload];
          }
        }
      case Moved(count) =>
        read := Least(count, Least(buffer.Length - offset, |stream|));
        Take(buffer, offset, read);
      case _ =>
    }

    /** One such poll, and what it adds to what was got and begun so far. */
    method ReadStep(schedule: seq<Poll>, i: nat, buffer: array<Byte>, offset: nat, begun: seq<seq<Byte>>, maximum: nat,
                    ghost was: seq<Byte>, ghost need: nat, ghost before: nat)
      returns (end: nat, all: seq<seq<Byte>>)
      requires i < |schedule| && !Fails(schedule[i]) && offset < buffer.Length <= need && BegunBy(begun, schedule)
      requires Delivered(was, begun, buffer[..offset], Ahead(), maximum)
      requires Promising(schedule, i, |stream|, |outbox|, need, offset, before, maximum)
      modifies this, buffer
      ensures end <= buffer.Length && BegunBy(all, schedule)
      ensures Delivered(was, all, buffer[..end], Ahead(), maximum)
      ensures Promising(schedule, i + 1, |stream|, |outbox|, need, end, before, maximum)
    {
      ghost var got, ahead := buffer[..offset], Ahead();
      ghost var supply := Supply(|stream|, |outbox|);
      var read, started := ReadOnce(schedule[i], buffer, offset, maximum);
      end, all := offset + read, begun + started;
      DeliveredInSteps(was, begun, got, ahead, started, buffer[offset..end], Ahead(), maximum);
      assert buffer[..end] == got + buffer[offset..end];
      BegunByPoll(begun, started, schedule, i);
      StaysPromising(schedule, i, supply, |stream|, |outbox|, need, offset, read, before, maximum);
    }

    /** The operating system hands over the next bytes of the pipe. */
    method Take(buffer: array<Byte>, offset: nat, count: nat)
      requires offset + count <= buffer.Length && count <= |stream|
      modifies this, buffer
      ensures outbox == old(outbox) && |stream| == |old(stream)| - count
      ensures buffer[..offset] == old(buffer[..offset])
      ensures buffer[offset..offset + count] + Ahead() == old(Ahead())
    {
      forall k | 0 <= k < count {
        buffer[offset + k] := stream[k];
      }
      assert buffer[offset..offset + count] == stream[..count];
      assert stream[..count] + stream[count..] == stream;
      ConcatAssociative(stream[..count], stream[count..], outbox);
      stream := stream[count..];
    }

    /**
     Fills the buffer from the pipe. `next` is the first poll not used up and `begun` what the writer began
     meanwhile; `more` is how many further bytes the caller is going to need.
     */
    method ReadExact(buffer: array<Byte>, schedule: seq<Poll>, first: nat, maximum: nat, ghost more: nat)
      returns (result: Result<(), HostError>, next: nat, begun: seq<seq<Byte>>)
      requires first <= |schedule|
      modifies this, buffer
      ensures first <= next <= |schedule|
      ensures Encodable(begun, maximum) && BegunBy(begun, schedule)
      ensures result.Ok? ==> Delivered(old(Ahead()), begun, buffer[..], Ahead(), maximum)
      ensures result.Err? ==>
                && result.error != FramingError
                && exists lost :: 0 <= lost < buffer.Length
                                  && Delivered(old(Ahead()), begun, buffer[..lost], Ahead(), maximum)
      ensures var before := Useful(schedule, first, Supply(|old(stream)|, |old(outbox)|), buffer.Length + more, maximum);
              Quiet(schedule) && before >= buffer.Length ==>
                && result.Ok?
                && Useful(schedule, next, Supply(|stream|, |outbox|), more, maximum) + buffer.Length >= before
    {
      var offset: nat := 0;
      next, begun := first, [];
      ghost var need := buffer.Length + more;
      ghost var before := Useful(schedule, first, Supply(|stream|, |outbox|), need, maximum);
      NothingDelivered(Ahead(), maximum);
      assert Promising(schedule, next, |stream|, |outbox|, need, offset, before, maximum);
      while offset < buffer.Length
        invariant offset <= buffer.Length && first <= next <= |schedule|
        invariant BegunBy(begun, schedule)
        invariant Delivered(old(Ahead()), begun, buffer[..offset], Ahead(), maximum)
        invariant Promising(schedule, next, |stream|, |outbox|, need, offset, before, maximum)
        decreases |schedule| - next
      {
        if next == |schedule| {
          return Err(Io), next, begun;
        }
        var poll := schedule[next];
        if Fails(poll) {
          return Err(if poll.Stopping? then StoppingError else Io), next, begun;
        }
        offset, begun := ReadStep(schedule, next, buffer, offset, begun, maximum, old(Ahead()), need, before);
        next := next + 1;
      }
      assert buffer[..offset] == buffer[..];
      UsefulShifts(schedule, next, Supply(|stream|, |outbox|), more, buffer.Length, maximum);
      return Ok(()), next, begun;
    }

    /**
     Reads one value. It is the first of what was ahead of the reader and of what was begun while it read; a
     read may well be under way before its value is written. `expected` is a length the caller may have in mind.
     */
    method ReadValue(maximum: nat, schedule: seq<Poll>, ghost expected: nat)
      returns (result: Result<seq<Byte>, HostError>, begun: seq<seq<Byte>>)
      modifies this
      ensures Encodable(begun, maximum) && BegunBy(begun, schedule)
      ensures var all := old(Ahead()) + EncodeAll(begun, maximum);
              && (result.Ok? ==> DecodeFrame(all, maximum) == Ok(Taken(result.value, Ahead())))
              && (result == Err(FramingError) ==> DecodeFrame(all, maximum) == Err(TooLarge))
              && (Quiet(schedule) && Useful(schedule, 0, Supply(|old(stream)|, |old(outbox)|), HEADER + expected, maximum)
                                     >= HEADER + expected ==>
                    || result.Ok? || result == Err(FramingError)
                    || (|all| >= HEADER && FromBigEndian(all[..HEADER]) > expected))
    {
      var header := new Byte[HEADER];
      var filled, next, early := ReadExact(header, schedule, 0, maximum, expected);
      if filled.Err? {
        return Err(filled.error), early;
      }
      ghost var was, ahead, front := old(Ahead()), Ahead(), header[..];
      FrontAndRest(was + EncodeAll(early, maximum), front, ahead);
      var length := FromBigEndian(header[..]);
      if length == 0 || length > maximum {
        return Err(FramingError), early;
      }
      var payload := new Byte[length];
      ghost var more := if length <= expected then expected - length else 0;
      var late: seq<seq<Byte>>;
      filled, next, late := ReadExact(payload, schedule, next, maximum, more);
      begun := early + late;
      HeaderStays(was, early, front, ahead, late, maximum);
      if filled.Err? {
        return Err(filled.error), begun;
      }
      DeliveredInSteps(was, early, front, ahead, late, payload[..], Ahead(), maximum);
      TakenFromFrame(was + EncodeAll(begun, maximum), front, payload[..], Ahead(), maximum);
      return Ok(payload[..]), begun;
    }
  }

  /** What is begun later does not change the header already read. */
  lemma HeaderStays(was: seq<Byte>, early: seq<seq<Byte>>, front: seq<Byte>, ahead: seq<Byte>,
                    late: seq<seq<Byte>>, maximum: nat)
    requires Delivered(was, early, front, ahead, maximum) && Encodable(late, maximum) && |front| == HEADER
    ensures Encodable(early + late, maximum)
    ensures var all := was + EncodeAll(early + late, maximum);
            |all| >= HEADER && all[..HEADER] == front
  {
    EncodeConcat(early, late, maximum);
    ConcatAssociative(was, EncodeAll(early, maximum), EncodeAll(late, maximum));
    ConcatAssociative(front, ahead, EncodeAll(late, maximum));
    FrontAndRest(was + EncodeAll(early + late, maximum), front, ahead + EncodeAll(late, maximum));
  }

  lemma TakenFromFrame(all: seq<Byte>, header: seq<Byte>, payload: seq<Byte>, rest: seq<Byte>, maximum: nat)
    requires all == (header + payload) + rest && |header| == HEADER
    requires |payload| == FromBigEndian(header) && 0 < |payload| <= maximum
    ensures DecodeFrame(all, maximum) == Ok(Taken(payload, rest))
  {
    assert all[..HEADER] == header;
    assert all[HEADER..HEADER + |payload|] == payload && all[HEADER + |payload|..] == rest;
  }

  // ---------------------------------------------------------------- writer and reader together

  /**
   One turn of the two ends: the writer begins its next value, which it can once the last one is out; its
   loop goes on for some polls; or the reader reads a value, with the writer's loop going on between its polls.
   */
  datatype Turn = Begin(payload: seq<Byte>) | Continue(polls: seq<Poll>) | Read(polls: seq<Poll>)

  /** What was written is what was read, then what is ahead. */
  ghost predicate Carried(written: seq<seq<Byte>>, read: seq<seq<Byte>>, ahead: seq<Byte>, maximum: nat) {
    && Encodable(written, maximum) && Encodable(read, maximum)
    && EncodeAll(written, maximum) == EncodeAll(read, maximum) + ahead
  }

  lemma OneMoreWritten(written: seq<seq<Byte>>, read: seq<seq<Byte>>, ahead: seq<Byte>, maximum: nat, payload: seq<Byte>)
    requires Carried(written, read, ahead, maximum) && EncodeFrame(payload, maximum).Ok?
    ensures Carried(written + [payload], read, ahead + Frame(payload), maximum)
  {
    EncodeOneMore(written, payload, maximum);
  }

  lemma MoreWritten(written: seq<seq<Byte>>, read: seq<seq<Byte>>, ahead: seq<Byte>, maximum: nat, begun: seq<seq<Byte>>)
    requires Carried(written, read, ahead, maximum) && Encodable(begun, maximum)
    ensures Carried(written + begun, read, ahead + EncodeAll(begun, maximum), maximum)
  {
    EncodeConcat(written, begun, maximum);
    ConcatAssociative(EncodeAll(read, maximum), ahead, EncodeAll(begun, maximum));
  }

  lemma OneMoreRead(written: seq<seq<Byte>>, read: seq<seq<Byte>>, ahead: seq<Byte>, maximum: nat, taken: Taken)
    requires Carried(written, read, ahead, maximum) && DecodeFrame(ahead, maximum) == Ok(taken)
    ensures Carried(written, read + [taken.payload], taken.rest, maximum)
  {
    DecodedIsFrame(ahead, maximum);
    EncodeOneMore(read, taken.payload, maximum);
  }

  lemma CarriedInOrder(written: seq<seq<Byte>>, read: seq<seq<Byte>>, ahead: seq<Byte>, maximum: nat)
    requires Carried(written, read, ahead, maximum)
    ensures read <= written && (|read| == |written| ==> read == written && ahead == [])
    ensures DecodeFrame(ahead, maximum) != Err(TooLarge)
  {
    FramesAreToldApart(written, read, ahead, maximum);
    FirstOfMany(written[|read|..], maximum);
  }

  /** The values were begun by these turns, in this order, some of them while a value was being read. */
  ghost predicate BegunIn(written: seq<seq<Byte>>, turns: seq<Turn>) {
    exists parts :: PartsOf(parts, written, turns)
  }

  /** What each turn began. */
  ghost predicate PartsOf(parts: seq<seq<seq<Byte>>>, written: seq<seq<Byte>>, turns: seq<Turn>) {
    && |parts| == |turns| && Joined(parts) == written
    && forall i :: 0 <= i < |turns| ==> BegunDuring(parts[i], turns[i])
  }

  ghost function Joined(parts: seq<seq<seq<Byte>>>): seq<seq<Byte>> {
    if parts == [] then [] else Joined(parts[..|parts| - 1]) + parts[|parts| - 1]
  }

  ghost predicate BegunDuring(begun: seq<seq<Byte>>, turn: Turn) {
    match turn
    case Begin(payload) => begun == [payload]
    case Continue(_) => begun == []
    case Read(polls) => BegunBy(begun, polls)
  }

  lemma OneMoreTurn(parts: seq<seq<seq<Byte>>>, written: seq<seq<Byte>>, turns: seq<Turn>, i: nat, begun: seq<seq<Byte>>)
    requires i < |turns| && PartsOf(parts, written, turns[..i]) && BegunDuring(begun, turns[i])
    ensures PartsOf(parts + [begun], written + begun, turns[..i + 1])
    ensures Reads(turns[..i + 1]) == Reads(turns[..i]) + (if turns[i].Read? then 1 else 0)
  {
    var longer := parts + [begun];
    assert longer[..|parts|] == parts;
    assert turns[..i + 1][..i] == turns[..i];
    forall k | 0 <= k < i + 1
      ensures BegunDuring(longer[k], turns[..i + 1][k])
    {
      assert k < i ==> turns[..i + 1][k] == turns[..i][k];
    }
  }

  function Reads(turns: seq<Turn>): nat {
    if turns == [] then 0
    else Reads(turns[..|turns| - 1]) + (if turns[|turns| - 1].Read? then 1 else 0)
  }

  /** Why the turns stopped: a value that cannot be framed, one begun too early, or a loop that failed. */
  datatype Failure = Unframed | TooEarly | WriteFailed(write: HostError) | ReadFailed(read: HostError)

  /** One turn: what it begins, what it reads, and why it fails, if it does. */
  method TakeTurn(pipe: NativePipe, written: seq<seq<Byte>>, read: seq<seq<Byte>>, turn: Turn, maximum: nat)
    returns (begun: seq<seq<Byte>>, got: seq<seq<Byte>>, failure: Option<Failure>)
    requires Carried(written, read, pipe.Ahead(), maximum)
    modifies pipe
    ensures Encodable(written + begun, maximum) && read + got <= written + begun
    ensures failure.None? ==> BegunDuring(begun, turn) && |got| == if turn.Read? then 1 else 0
    ensures failure.None? ==> Carried(written + begun, read + got, pipe.Ahead(), maximum)
    ensures failure != Some(ReadFailed(FramingError))
    ensures failure == Some(Unframed) ==> turn.Begin? && EncodeFrame(turn.payload, maximum).Err?
  {
    begun, got, failure := [], [], None;
    assert written + [] == written && read + [] == read;
    CarriedInOrder(written, read, pipe.Ahead(), maximum);
    match turn
    case Begin(payload) =>
      if pipe.outbox != [] {
        return [], [], Some(TooEarly);
      }
      var started := pipe.BeginWrite(payload, maximum);
      if started.Err? {
        return [], [], Some(Unframed);
      }
      OneMoreWritten(written, read, pipe.stream, maximum, payload);
      CarriedInOrder(written + [payload], read, pipe.Ahead(), maximum);
      begun := [payload];
    case Continue(polls) =>
      var progress := pipe.ContinueWrite(polls);
      if progress.Err? {
        return [], [], Some(WriteFailed(progress.error));
      }
    case Read(polls) =>
      var value;
      value, begun := ReadTurn(pipe, written, read, polls, maximum);
      if value.Err? {
        return begun, [], Some(ReadFailed(value.error));
      }
      got := [value.value];
      CarriedInOrder(written + begun, read + got, pipe.Ahead(), maximum);
  }

  /** The turn of the reader. */
  method ReadTurn(pipe: NativePipe, written: seq<seq<Byte>>, read: seq<seq<Byte>>, polls: seq<Poll>, maximum: nat)
    returns (value: Result<seq<Byte>, HostError>, begun: seq<seq<Byte>>)
    requires Carried(written, read, pipe.Ahead(), maximum)
    modifies pipe
    ensures BegunBy(begun, polls) && Encodable(written + begun, maximum) && read <= written + begun
    ensures value != Err(FramingError)
    ensures value.Ok? ==> Carried(written + begun, read + [value.value], pipe.Ahead(), maximum)
  {
    ghost var ahead := pipe.Ahead();
    value, begun := pipe.ReadValue(maximum, polls, 0);
    MoreWritten(written, read, ahead, maximum, begun);
    CarriedInOrder(written + begun, read, ahead + EncodeAll(begun, maximum), maximum);
    if value.Ok? {
      OneMoreRead(written + begun, read, ahead + EncodeAll(begun, maximum), maximum, Taken(value.value, pipe.Ahead()));
    }
  }

  /**
   Under every interleaving of the two loops, down to their polls, the values read are the values written, in
   order; the reader never refuses a frame; and once as many were read as written, nothing is left over.
   */
  method Exchange(pipe: NativePipe, turns: seq<Turn>, maximum: nat)
    returns (written: seq<seq<Byte>>, read: seq<seq<Byte>>, failure: Option<Failure>)
    requires pipe.stream == [] && pipe.outbox == []
    modifies pipe
    ensures Encodable(written, maximum) && read <= written
    ensures failure.None? ==> BegunIn(written, turns) && |read| == Reads(turns)
    ensures failure.None? ==> Carried(written, read, pipe.Ahead(), maximum)
    ensures failure.None? && |read| == |written| ==> read == written && pipe.stream == [] && pipe.outbox == []
    ensures failure != Some(ReadFailed(FramingError))
    ensures failure == Some(Unframed) ==> exists i :: 0 <= i < |turns| && turns[i].Begin?
                                                      && EncodeFrame(turns[i].payload, maximum).Err?
  {
    written, read := [], [];
    ghost var parts: seq<seq<seq<Byte>>> := [];
    for i := 0 to |turns|
      invariant Carried(written, read, pipe.Ahead(), maximum)
      invariant PartsOf(parts, written, turns[..i]) && |read| == Reads(turns[..i])
    {
      var begun, got, failed := TakeTurn(pipe, written, read, turns[i], maximum);
      if failed.Some? {
        return written + begun, read + got, failed;
      }
      OneMoreTurn(parts, written, turns, i, begun);
      parts := parts + [begun];
      written, read := written + begun, read + got;
    }
    assert turns[..|turns|] == turns;
    CarriedInOrder(written, read, pipe.Ahead(), maximum);
    failure := None;
  }

  // ---------------------------------------------------------------- reading what is not written yet

  /** On an empty pipe the writer begins, and its bytes come in two parts with a poll in between. */
  function LatePolls(payload: seq<Byte>, part: nat): seq<Poll> {
    [Nothing, WriterBegins(payload), WriterMoves(part), Moved(1), WriterMoves(HEADER + |payload|)]
    + seq(HEADER + |payload|, i => Moved(1))
  }

  lemma {:induction false} MovesAreUseful(schedule: seq<Poll>, i: nat, s: Supply, need: nat, maximum: nat)
    requires i <= |schedule| && s.come >= need
    requires forall k :: i <= k < |schedule| ==> schedule[k] == Moved(1)
    ensures Useful(schedule, i, s, need, maximum) == |schedule| - i
    decreases |schedule| - i
  {
    if i < |schedule| {
      MovesAreUseful(schedule, i + 1, s, need, maximum);
    }
  }

  lemma UsefulLater(schedule: seq<Poll>, i: nat, s: Supply, need: nat, maximum: nat)
    requires i < |schedule|
    ensures Useful(schedule, i, s, need, maximum)
            >= Useful(schedule, i + 1, Supplied(s, schedule[i], maximum), need, maximum)
  {
  }

  lemma LatePollsAreUseful(payload: seq<Byte>, part: nat, maximum: nat)
    requires EncodeFrame(payload, maximum).Ok?
    ensures Quiet(LatePolls(payload, part))
    ensures Useful(LatePolls(payload, part), 0, Supply(0, 0), HEADER + |payload|, maximum) >= HEADER + |payload|
  {
    var size, polls := HEADER + |payload|, LatePolls(payload, part);
    var came := Least(part, size);
    UsefulLater(polls, 0, Supply(0, 0), size, maximum);
    UsefulLater(polls, 1, Supply(0, 0), size, maximum);
    UsefulLater(polls, 2, Supply(0, size), size, maximum);
    UsefulLater(polls, 3, Supply(came, size - came), size, maximum);
    UsefulLater(polls, 4, Supply(came, size - came), size, maximum);
    MovesAreUseful(polls, 5, Supply(size, 0), size, maximum);
  }

  lemma FirstIsTheLateValue(begun: seq<seq<Byte>>, payload: seq<Byte>, part: nat, maximum: nat)
    requires Encodable(begun, maximum) && BegunBy(begun, LatePolls(payload, part))
    ensures begun != [] ==> begun[0] == payload
    ensures var all := EncodeAll(begun, maximum);
            && DecodeFrame(all, maximum) != Err(TooLarge)
            && (DecodeFrame(all, maximum).Ok? ==> DecodeFrame(all, maximum).value.payload == payload)
            && (|all| >= HEADER ==> FromBigEndian(all[..HEADER]) == |payload|)
  {
    FirstOfMany(begun, maximum);
    if begun != [] {
      assert WriterBegins(begun[0]) in LatePolls(payload, part);
      BigEndianRoundTrip(|payload|);
      assert EncodeFrame(begun[0], maximum).Ok?;
      assert EncodeAll(begun, maximum)[..HEADER] == BigEndian(|payload|);
    }
  }

  /** A read that is under way before its value is written gets that value. */
  method ReadBeforeWrite(pipe: NativePipe, payload: seq<Byte>, part: nat, maximum: nat)
    returns (result: Result<seq<Byte>, HostError>)
    requires pipe.stream == [] && pipe.outbox == [] && EncodeFrame(payload, maximum).Ok?
    modifies pipe
    ensures result == Ok(payload)
  {
    var begun;
    LatePollsAreUseful(payload, part, maximum);
    result, begun := pipe.ReadValue(maximum, LatePolls(payload, part), |payload|);
    FirstIsTheLateValue(begun, payload, part, maximum);
    assert [] + EncodeAll(begun, maximum) == EncodeAll(begun, maximum);
  }
}
