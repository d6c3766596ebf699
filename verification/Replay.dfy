/**
 What replaying a BinaryFILE means, for every decoder and every sink: a fold over the frames of the
 parsed stream. `Observe` is what is known once some bytes have arrived, `Conclude` what is reported
 once there are no more. No call boundary appears in either.
 */
module Replay {
  import opened Bytes
  import opened BinaryFileFormat
  import opened BinaryFileCursors

  datatype DecodeStatus =
    | Emitted
    | KnownUnselectedSkipped
    | UnknownSkipped
    | Stopped
    | EmptyPayload
    | UnknownMessageType
    | InvalidMessageSize

  /** The statuses a decoder reports without having called the sink. */
  type Declined = s: DecodeStatus | !s.Emitted? && !s.Stopped? witness EmptyPayload

  datatype DecodeOutcome = DecodeOutcome(
    status: DecodeStatus, messageType: byte, expectedSize: nat, actualSize: nat)

  /** What a decoder makes of a payload before any sink is asked. */
  datatype Verdict<+E> =
    | Deliver(event: E, messageType: byte, expectedSize: nat)
    | Decline(status: Declined, messageType: byte, expectedSize: nat)

  datatype Flow = Continue | Stop

  /** A decoder, and a sink that answers from all it has been given before. */
  datatype Setup<!E> = Setup(decode: seq<byte> -> Verdict<E>, sink: (seq<E>, E) -> Flow)

  datatype ReplayStatus =
    | ReplayComplete
    | ReplayIncomplete
    | ReplayStopped
    | ReplayFramingError
    | ReplayDecodeError

  datatype ReplaySummary = ReplaySummary(
    status: ReplayStatus,
    framesSeen: nat,
    eventsEmitted: nat,
    knownMessagesSkipped: nat,
    unknownMessagesSkipped: nat,
    bytesConsumed: nat,
    errorOffset: nat,
    framingError: FramingError,
    decodeError: DecodeOutcome)

  const NO_DECODE_ERROR := DecodeOutcome(Emitted, 0, 0, 0)

  const EMPTY_SUMMARY :=
    ReplaySummary(ReplayIncomplete, 0, 0, 0, 0, 0, 0, NoFramingError, NO_DECODE_ERROR)

  datatype Progress<+E> = Progress(summary: ReplaySummary, delivered: seq<E>, halted: bool)

  /** `decode_one`: the outcome, and the events the sink has been given afterwards. */
  function DecodeOne<E>(setup: Setup<E>, delivered: seq<E>, payload: seq<byte>): (DecodeOutcome, seq<E>) {
    match setup.decode(payload)
    case Decline(status, messageType, expectedSize) =>
      (DecodeOutcome(status, messageType, expectedSize, |payload|), delivered)
    case Deliver(event, messageType, expectedSize) =>
      var status := if setup.sink(delivered, event) == Stop then Stopped else Emitted;
      (DecodeOutcome(status, messageType, expectedSize, |payload|), delivered + [event])
  }

  function FramingHalt<E>(p: Progress<E>, error: FramingError, offset: nat): Progress<E> {
    Progress(p.summary.(status := ReplayFramingError, framingError := error, errorOffset := offset),
             p.delivered, true)
  }

  /** A frame that fits the buffer is decoded; the offset of the frame is all that was consumed before it. */
  function AfterFrame<E>(setup: Setup<E>, capacity: nat, p: Progress<E>, payload: seq<byte>): Progress<E> {
    var s := p.summary;
    if p.halted then p
    else if |payload| > capacity then FramingHalt(p, InsufficientScratch, s.bytesConsumed)
    else
      var (outcome, delivered) := DecodeOne(setup, p.delivered, payload);
      var seen := s.(framesSeen := s.framesSeen + 1, bytesConsumed := s.bytesConsumed + 2 + |payload|);
      match outcome.status
      case Emitted => Progress(seen.(eventsEmitted := s.eventsEmitted + 1), delivered, false)
      case KnownUnselectedSkipped =>
        Progress(seen.(knownMessagesSkipped := s.knownMessagesSkipped + 1), delivered, false)
      case UnknownSkipped =>
        Progress(seen.(unknownMessagesSkipped := s.unknownMessagesSkipped + 1), delivered, false)
      case Stopped =>
        Progress(seen.(eventsEmitted := s.eventsEmitted + 1, status := ReplayStopped), delivered, true)
      case _ =>
        Progress(seen.(status := ReplayDecodeError, errorOffset := s.bytesConsumed + 2, decodeError := outcome),
                 delivered, true)
  }

  function Play<E>(setup: Setup<E>, capacity: nat, frames: seq<Payload>): Progress<E> {
    if frames == [] then Progress(EMPTY_SUMMARY, [], false)
    else AfterFrame(setup, capacity, Play(setup, capacity, frames[..|frames| - 1]), frames[|frames| - 1])
  }

  /** What an unfinished end of the stream already settles. */
  function AfterFrames<E>(capacity: nat, p: Progress<E>, ending: Ending): Progress<E> {
    if p.halted then p
    else match ending
      case EndMarker(trailing) =>
        var marked := p.(summary := p.summary.(bytesConsumed := p.summary.bytesConsumed + 2));
        if trailing == [] then marked
        else FramingHalt(marked, TrailingDataAfterEndMarker, marked.summary.bytesConsumed)
      case ShortPayload(declared, _) =>
        if declared > capacity then FramingHalt(p, InsufficientScratch, p.summary.bytesConsumed) else p
      case _ => p
  }

  function Seen<E>(setup: Setup<E>, capacity: nat, stream: seq<byte>): Progress<E> {
    var parsed := Parse(stream);
    AfterFrames(capacity, Play(setup, capacity, parsed.frames), parsed.ending)
  }

  /** A stream longer than a 64-bit offset can count is only ever seen up to that offset. */
  function Observe<E>(setup: Setup<E>, capacity: nat, stream: seq<byte>): Progress<E> {
    if |stream| <= MAX_U64 then Seen(setup, capacity, stream)
    else
      var p := Seen(setup, capacity, stream[..MAX_U64]);
      if p.halted then p
      else if Parse(stream[..MAX_U64]).ending.EndMarker?
      then FramingHalt(p, TrailingDataAfterEndMarker, p.summary.bytesConsumed)
      else FramingHalt(p, OffsetOverflow, MAX_U64)
  }

  function Conclude<E>(setup: Setup<E>, capacity: nat, stream: seq<byte>): Progress<E> {
    var p := Observe(setup, capacity, stream);
    if p.halted then p
    else match Parse(stream).ending
      case EndMarker(_) => Progress(p.summary.(status := ReplayComplete), p.delivered, true)
      case EndOfInput => Progress(p.summary.(status := ReplayIncomplete), p.delivered, true)
      case LonePrefixByte(_) => FramingHalt(p, TruncatedLengthPrefix, p.summary.bytesConsumed)
      case ShortPayload(_, _) => FramingHalt(p, TruncatedPayload, p.summary.bytesConsumed)
  }

  /** Reading a file in one go needs no scratch buffer: no payload is longer than its prefix can say. */
  function OneShot<E>(setup: Setup<E>, input: seq<byte>): Progress<E> {
    Conclude(setup, 65535, input)
  }

  lemma PlayAppend<E>(setup: Setup<E>, capacity: nat, frames: seq<Payload>, payload: Payload)
    ensures Play(setup, capacity, frames + [payload])
            == AfterFrame(setup, capacity, Play(setup, capacity, frames), payload)
  {
    var all := frames + [payload];
    assert all[..|all| - 1] == frames;
  }

  lemma {:induction false} PlaySticky<E>(setup: Setup<E>, capacity: nat, frames: seq<Payload>, more: seq<Payload>)
    requires Play(setup, capacity, frames).halted
    ensures Play(setup, capacity, frames + more) == Play(setup, capacity, frames)
  {
    if more == [] {
      assert frames + more == frames;
    } else {
      var butLast := more[..|more| - 1];
      PlaySticky(setup, capacity, frames, butLast);
      assert frames + more == (frames + butLast) + [more[|more| - 1]];
      PlayAppend(setup, capacity, frames + butLast, more[|more| - 1]);
    }
  }

  lemma SeenSticky<E>(setup: Setup<E>, capacity: nat, stream: seq<byte>, more: seq<byte>)
    requires Seen(setup, capacity, stream).halted
    ensures Seen(setup, capacity, stream + more) == Seen(setup, capacity, stream)
  {
    hide Parse, Play, EndingBytes;
    var before := Parse(stream);
    var tail := Parse(EndingBytes(before.ending) + more);
    ParseExtend(stream, more);
    var p := Play(setup, capacity, before.frames);
    if p.halted {
      PlaySticky(setup, capacity, before.frames, tail.frames);
    } else if before.ending.EndMarker? {
      ExtendEndMarker(before.ending.trailing, more);
      assert before.frames + [] == before.frames;
    } else {
      AnnouncedLengthStays(before.ending, more);
      if tail.frames == [] {
        assert before.frames + [] == before.frames;
      } else {
        var first := tail.frames[0];
        PlayAppend(setup, capacity, before.frames, first);
        PlaySticky(setup, capacity, before.frames + [first], tail.frames[1..]);
        assert before.frames + tail.frames == (before.frames + [first]) + tail.frames[1..];
      }
    }
  }

  /** A verdict once reached is final: no later byte changes the summary or the events. */
  lemma ObserveSticky<E>(setup: Setup<E>, capacity: nat, stream: seq<byte>, more: seq<byte>)
    requires Observe(setup, capacity, stream).halted
    ensures Observe(setup, capacity, stream + more) == Observe(setup, capacity, stream)
  {
    hide Seen, Parse;
    if |stream| > MAX_U64 {
      assert (stream + more)[..MAX_U64] == stream[..MAX_U64];
    } else if |stream + more| > MAX_U64 {
      var room := MAX_U64 - |stream|;
      assert (stream + more)[..MAX_U64] == stream + more[..room];
      SeenSticky(setup, capacity, stream, more[..room]);
    } else {
      SeenSticky(setup, capacity, stream, more);
    }
  }

  /** A replay that has not halted has consumed exactly its frames. */
  lemma {:induction false} PlayConsumes<E>(setup: Setup<E>, capacity: nat, frames: seq<Payload>)
    requires !Play(setup, capacity, frames).halted
    ensures Play(setup, capacity, frames).summary.bytesConsumed == |EncodeFrames(frames)|
    ensures Play(setup, capacity, frames).summary.status == ReplayIncomplete
  {
    if frames != [] {
      var butLast, last := frames[..|frames| - 1], frames[|frames| - 1];
      assert frames == butLast + [last];
      PlayConsumes(setup, capacity, butLast);
      EncodeAppend(butLast, last);
    }
  }

  /** Anything after the end marker is reported, even if its offset can no longer be counted. */
  lemma ObserveTrailing<E>(setup: Setup<E>, capacity: nat, stream: seq<byte>, more: seq<byte>)
    requires |stream| <= MAX_U64 && more != []
    requires Parse(stream).ending == EndMarker([]) && !Seen(setup, capacity, stream).halted
    ensures var p := Seen(setup, capacity, stream);
            Observe(setup, capacity, stream + more)
            == FramingHalt(p, TrailingDataAfterEndMarker, p.summary.bytesConsumed)
  {
    hide Parse, Play;
    var room := if |stream + more| <= MAX_U64 then |more| else MAX_U64 - |stream|;
    assert more[..|more|] == more;
    if room < |more| {
      assert (stream + more)[..MAX_U64] == stream + more[..room];
    }
    var before := Parse(stream);
    ParseExtend(stream, more[..room]);
    ExtendEndMarker([], more[..room]);
    assert before.frames + [] == before.frames;
  }

  /** A byte that is due when every offset has been used up is an overflow. */
  lemma ObserveOverflow<E>(setup: Setup<E>, capacity: nat, stream: seq<byte>, more: seq<byte>)
    requires |stream| == MAX_U64 && more != []
    requires !Parse(stream).ending.EndMarker? && !Seen(setup, capacity, stream).halted
    ensures Observe(setup, capacity, stream + more)
            == FramingHalt(Seen(setup, capacity, stream), OffsetOverflow, MAX_U64)
  {
    hide Parse, Seen;
    assert (stream + more)[..MAX_U64] == stream;
  }
}
