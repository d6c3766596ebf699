/**
 What a replay reports, said without running it: how many frames were seen and why no more, what was
 counted, and where it ended. The frames come from the parsed stream, and the counts are numbers of frames.
 */
module ReplayReport {
  import opened Bytes
  import opened BinaryFileFormat
  import opened BinaryFileCursors
  import opened Replay

  /** The events a decoder makes of a run of frames. */
  function Events<E>(decode: seq<byte> -> Verdict<E>, frames: seq<Payload>): seq<E> {
    if frames == [] then []
    else
      Events(decode, frames[..|frames| - 1])
      + match decode(frames[|frames| - 1])
        case Deliver(event, _, _) => [event]
        case Decline(_, _, _) => []
  }

  predicate DeclinesAs<E>(verdict: Verdict<E>, status: DecodeStatus) {
    verdict.Decline? && verdict.status == status
  }

  /** The frames among the first `n` that the decoder declines with a status. */
  ghost function DeclinedAs<E>(decode: seq<byte> -> Verdict<E>, frames: seq<Payload>, n: nat, status: DecodeStatus)
    : set<nat>
    requires n <= |frames|
  {
    set k: nat | k < n && DeclinesAs(decode(frames[k]), status)
  }

  /** The frames among the first `n` that become events. */
  ghost function Delivered<E>(decode: seq<byte> -> Verdict<E>, frames: seq<Payload>, n: nat): set<nat>
    requires n <= |frames|
  {
    set k: nat | k < n && decode(frames[k]).Deliver?
  }

  /** The sink, given the events before it, stops at frame `k`. */
  ghost predicate Stops<E>(setup: Setup<E>, frames: seq<Payload>, k: nat)
    requires k < |frames|
  {
    var verdict := setup.decode(frames[k]);
    verdict.Deliver? && setup.sink(Events(setup.decode, frames[..k]), verdict.event) == Stop
  }

  /** The decoder declines with an error: anything but one of the two statuses that skip a message. */
  predicate Refuses<E>(verdict: Verdict<E>) {
    || DeclinesAs(verdict, EmptyPayload)
    || DeclinesAs(verdict, UnknownMessageType)
    || DeclinesAs(verdict, InvalidMessageSize)
  }

  ghost predicate Ends<E>(setup: Setup<E>, frames: seq<Payload>, k: nat)
    requires k < |frames|
  {
    Stops(setup, frames, k) || Refuses(setup.decode(frames[k]))
  }

  /** Every frame seen fits and none but the last ends the replay; each count is a number of frames seen. */
  ghost predicate Counted<E>(setup: Setup<E>, capacity: nat, frames: seq<Payload>, p: Progress<E>) {
    var n := p.summary.framesSeen;
    && n <= |frames|
    && (forall k | 0 <= k < n :: |frames[k]| <= capacity)
    && (forall k | 0 <= k < n - 1 :: !Ends(setup, frames, k))
    && p.summary.eventsEmitted == |Delivered(setup.decode, frames, n)|
    && p.summary.knownMessagesSkipped == |DeclinedAs(setup.decode, frames, n, KnownUnselectedSkipped)|
    && p.summary.unknownMessagesSkipped == |DeclinedAs(setup.decode, frames, n, UnknownSkipped)|
    && p.delivered == Events(setup.decode, frames[..n])
  }

  ghost predicate LastEnds<E>(setup: Setup<E>, frames: seq<Payload>, n: nat)
    requires n <= |frames|
  {
    n > 0 && Ends(setup, frames, n - 1)
  }

  predicate NoErrors(s: ReplaySummary) {
    s.errorOffset == 0 && s.framingError == NoFramingError && s.decodeError == DecodeOutcome(Emitted, 0, 0, 0)
  }

  predicate FramingErrorAt(s: ReplaySummary, error: FramingError, offset: nat) {
    && s.status == ReplayFramingError && s.framingError == error && s.errorOffset == offset
    && s.decodeError == DecodeOutcome(Emitted, 0, 0, 0)
  }

  /** The last frame seen ended the replay: by the sink, or by a verdict that is reported as it is. */
  ghost predicate EndedBy<E>(setup: Setup<E>, frames: seq<Payload>, s: ReplaySummary)
    requires 0 < s.framesSeen <= |frames|
  {
    var k := s.framesSeen - 1;
    var verdict := setup.decode(frames[k]);
    && s.bytesConsumed == OffsetOf(frames, k) + 2 + |frames[k]|
    && if Stops(setup, frames, k) then s.status == ReplayStopped && NoErrors(s)
       else
         && verdict.Decline? && s.status == ReplayDecodeError && s.framingError == NoFramingError
         && s.errorOffset == OffsetOf(frames, k) + 2
         && s.decodeError == DecodeOutcome(verdict.status, verdict.messageType, verdict.expectedSize, |frames[k]|)
  }

  /** Every frame was seen: what the end of the stream adds, before and after `finish`. */
  predicate EndedAt(capacity: nat, ending: Ending, at: nat, finished: bool, s: ReplaySummary) {
    match ending
    case EndMarker(trailing) =>
      && s.bytesConsumed == at + 2
      && (if trailing != [] then FramingErrorAt(s, TrailingDataAfterEndMarker, at + 2)
          else s.status == (if finished then ReplayComplete else ReplayIncomplete) && NoErrors(s))
    case EndOfInput => s.bytesConsumed == at && s.status == ReplayIncomplete && NoErrors(s)
    case LonePrefixByte(_) =>
      && s.bytesConsumed == at
      && (if finished then FramingErrorAt(s, TruncatedLengthPrefix, at)
          else s.status == ReplayIncomplete && NoErrors(s))
    case ShortPayload(declared, _) =>
      && s.bytesConsumed == at
      && (if declared > capacity then FramingErrorAt(s, InsufficientScratch, at)
          else if finished then FramingErrorAt(s, TruncatedPayload, at)
          else s.status == ReplayIncomplete && NoErrors(s))
  }

  /** There are more bytes than offsets: what is due after the last one that has an offset is an overflow. */
  predicate OverflowAt(capacity: nat, ending: Ending, at: nat, s: ReplaySummary) {
    match ending
    case EndMarker(_) => s.bytesConsumed == at + 2 && FramingErrorAt(s, TrailingDataAfterEndMarker, at + 2)
    case ShortPayload(declared, _) =>
      && s.bytesConsumed == at
      && (if declared > capacity then FramingErrorAt(s, InsufficientScratch, at)
          else FramingErrorAt(s, OffsetOverflow, 0xFFFF_FFFF_FFFF_FFFF))
    case _ => s.bytesConsumed == at && FramingErrorAt(s, OffsetOverflow, 0xFFFF_FFFF_FFFF_FFFF)
  }

  /** The part of a stream whose bytes have a 64-bit offset. */
  function Countable(stream: seq<byte>): seq<byte> {
    if |stream| <= 0xFFFF_FFFF_FFFF_FFFF then stream else stream[..0xFFFF_FFFF_FFFF_FFFF]
  }

  /** The whole report of a replay over a stream, before and after it was told that there is no more. */
  ghost predicate Reports<E>(setup: Setup<E>, capacity: nat, stream: seq<byte>, finished: bool, p: Progress<E>) {
    var parsed := Parse(Countable(stream));
    var s, n := p.summary, p.summary.framesSeen;
    && Counted(setup, capacity, parsed.frames, p)
    && if LastEnds(setup, parsed.frames, n) then EndedBy(setup, parsed.frames, s)
       else if n < |parsed.frames| then
         && |parsed.frames[n]| > capacity && s.bytesConsumed == OffsetOf(parsed.frames, n)
         && FramingErrorAt(s, InsufficientScratch, OffsetOf(parsed.frames, n))
       else if |stream| > 0xFFFF_FFFF_FFFF_FFFF then
         OverflowAt(capacity, parsed.ending, OffsetOf(parsed.frames, n), s)
       else EndedAt(capacity, parsed.ending, OffsetOf(parsed.frames, n), finished, s)
  }

  // ---- The fold reports this.

  lemma OneMoreDeclined<E>(decode: seq<byte> -> Verdict<E>, frames: seq<Payload>, n: nat, status: DecodeStatus)
    requires n < |frames|
    ensures |DeclinedAs(decode, frames, n + 1, status)|
            == |DeclinedAs(decode, frames, n, status)| + if DeclinesAs(decode(frames[n]), status) then 1 else 0
  {
    var before, after := DeclinedAs(decode, frames, n, status), DeclinedAs(decode, frames, n + 1, status);
    assert after == if DeclinesAs(decode(frames[n]), status) then before + {n} else before;
  }

  lemma OneMoreDelivered<E>(decode: seq<byte> -> Verdict<E>, frames: seq<Payload>, n: nat)
    requires n < |frames|
    ensures |Delivered(decode, frames, n + 1)|
            == |Delivered(decode, frames, n)| + if decode(frames[n]).Deliver? then 1 else 0
    ensures Events(decode, frames[..n + 1])
            == Events(decode, frames[..n]) + match decode(frames[n])
                                             case Deliver(event, _, _) => [event]
                                             case Decline(_, _, _) => []
  {
    var before, after := Delivered(decode, frames, n), Delivered(decode, frames, n + 1);
    assert after == if decode(frames[n]).Deliver? then before + {n} else before;
    assert frames[..n + 1][..n] == frames[..n];
  }

  /** A replay that goes on: nothing is wrong and nothing is decided. */
  predicate Running<E>(frames: seq<Payload>, p: Progress<E>)
    requires p.summary.framesSeen <= |frames|
  {
    && p.summary.status == ReplayIncomplete && NoErrors(p.summary)
    && p.summary.bytesConsumed == OffsetOf(frames, p.summary.framesSeen)
  }

  ghost predicate PlaySays<E>(setup: Setup<E>, capacity: nat, frames: seq<Payload>, k: nat, p: Progress<E>)
    requires k <= |frames|
  {
    var n := p.summary.framesSeen;
    && Counted(setup, capacity, frames, p) && n <= k
    && (!p.halted ==> n == k && Running(frames, p) && !LastEnds(setup, frames, n))
    && (p.halted ==>
          if LastEnds(setup, frames, n) then EndedBy(setup, frames, p.summary)
          else
            && n < k && |frames[n]| > capacity && p.summary.bytesConsumed == OffsetOf(frames, n)
            && FramingErrorAt(p.summary, InsufficientScratch, OffsetOf(frames, n)))
  }

  lemma FrameSays<E>(setup: Setup<E>, capacity: nat, frames: seq<Payload>, k: nat, p: Progress<E>)
    requires k < |frames| && PlaySays(setup, capacity, frames, k, p) && !p.halted
    ensures PlaySays(setup, capacity, frames, k + 1, AfterFrame(setup, capacity, p, frames[k]))
  {
    hide OffsetOf, EncodeFrames, Events, DeclinedAs, Delivered;
    OneMoreDeclined(setup.decode, frames, k, KnownUnselectedSkipped);
    OneMoreDeclined(setup.decode, frames, k, UnknownSkipped);
    OneMoreDelivered(setup.decode, frames, k);
    OffsetStep(frames, k);
  }

  lemma {:induction false} PlayReports<E>(setup: Setup<E>, capacity: nat, frames: seq<Payload>, k: nat)
    requires k <= |frames|
    ensures PlaySays(setup, capacity, frames, k, Play(setup, capacity, frames[..k]))
  {
    hide AfterFrame;
    if k == 0 {
      assert frames[..0] == [];
      assert DeclinedAs(setup.decode, frames, 0, KnownUnselectedSkipped) == {};
      assert DeclinedAs(setup.decode, frames, 0, UnknownSkipped) == {};
      assert Delivered(setup.decode, frames, 0) == {};
    } else {
      PlayReports(setup, capacity, frames, k - 1);
      var p := Play(setup, capacity, frames[..k - 1]);
      assert frames[..k] == frames[..k - 1] + [frames[k - 1]];
      PlayAppend(setup, capacity, frames[..k - 1], frames[k - 1]);
      if p.halted {
        HaltedStays(setup, capacity, p, frames[k - 1]);
      } else {
        FrameSays(setup, capacity, frames, k - 1, p);
      }
    }
  }

  lemma HaltedStays<E>(setup: Setup<E>, capacity: nat, p: Progress<E>, payload: Payload)
    requires p.halted
    ensures AfterFrame(setup, capacity, p, payload) == p
  {
  }

  /** At every point of a stream and at its end, the fold reports what is said above. */
  lemma ObserveReports<E>(setup: Setup<E>, capacity: nat, stream: seq<byte>)
    ensures Reports(setup, capacity, stream, false, Observe(setup, capacity, stream))
    ensures Reports(setup, capacity, stream, true, Conclude(setup, capacity, stream))
  {
    hide Parse, Play, OffsetOf, EncodeFrames, Events, DeclinedAs, Delivered, Ends, EndedBy;
    var frames := Parse(Countable(stream)).frames;
    PlayReports(setup, capacity, frames, |frames|);
    assert frames[..|frames|] == frames;
  }

  /** The report is determined: of two that meet the description, neither saw more frames, and all else follows. */
  lemma OneReport<E>(setup: Setup<E>, capacity: nat, stream: seq<byte>, finished: bool, p: Progress<E>, q: Progress<E>)
    requires Reports(setup, capacity, stream, finished, p) && Reports(setup, capacity, stream, finished, q)
    ensures p.summary == q.summary && p.delivered == q.delivered
  {
    hide Parse, OffsetOf, EncodeFrames, Events, DeclinedAs, Delivered, Ends, Stops;
    SeesNoMore(setup, capacity, stream, finished, p, q);
    SeesNoMore(setup, capacity, stream, finished, q, p);
  }

  lemma SeesNoMore<E>(setup: Setup<E>, capacity: nat, stream: seq<byte>, finished: bool, p: Progress<E>, q: Progress<E>)
    requires Reports(setup, capacity, stream, finished, p) && Reports(setup, capacity, stream, finished, q)
    ensures p.summary.framesSeen >= q.summary.framesSeen
  {
    hide Parse, OffsetOf, EncodeFrames, Events, DeclinedAs, Delivered, Ends, EndedBy;
  }

  /** The fold is the one report that meets the description. */
  lemma ReportsExactly<E>(setup: Setup<E>, capacity: nat, stream: seq<byte>, p: Progress<E>)
    requires p.halted
    ensures Reports(setup, capacity, stream, true, p) <==> p == Conclude(setup, capacity, stream)
  {
    hide Reports, Conclude, Observe;
    ObserveReports(setup, capacity, stream);
    ConcludeHalts(setup, capacity, stream);
    if Reports(setup, capacity, stream, true, p) {
      OneReport(setup, capacity, stream, true, p, Conclude(setup, capacity, stream));
    }
  }

  lemma ConcludeHalts<E>(setup: Setup<E>, capacity: nat, stream: seq<byte>)
    ensures Conclude(setup, capacity, stream).halted
  {
    hide Parse, Observe;
  }

  lemma OneShotReports<E>(setup: Setup<E>, input: seq<byte>)
    ensures Reports(setup, 65535, input, true, OneShot(setup, input))
  {
    hide Reports, Conclude;
    ObserveReports(setup, 65535, input);
  }
}
