/**
 The two replay loops the compiler emits: over the cursor when every known message is selected, and
 with the cursor inlined when the projection is partial. Both compute `OneShot`.
 */
module OneShotReplay {
  import opened Bytes
  import opened BinaryFileFormat
  import opened BinaryFileCursors
  import opened Replay
  import opened ReplayReport

  /** While a replay runs its summary has counters only; status and offsets are set on return. */
  function Counters(s: ReplaySummary): ReplaySummary {
    s.(status := ReplayComplete, bytesConsumed := 0)
  }

  method ReplayBinaryFile<E>(setup: Setup<E>, input: seq<byte>)
    returns (summary: ReplaySummary, delivered: seq<E>)
    requires |input| <= MAX_U64
    ensures OneShot(setup, input) == Progress(summary, delivered, true)
    ensures Reports(setup, 65535, input, true, Progress(summary, delivered, true))
  {
    hide Parse, Play, EncodeFrames, OffsetOf, DecodeOne, Reports;
    OneShotReports(setup, input);
    var cursor := new BinaryFileCursor(input);
    ghost var parsed := Parse(input);
    summary, delivered := Counters(EMPTY_SUMMARY), [];
    PlayPrefix(setup, parsed.frames, 0);
    while true
      invariant cursor.Valid() && !cursor.terminal && fresh(cursor) && cursor.input == input
      invariant var p := Play(setup, 65535, parsed.frames[..cursor.ordinal]);
                && !p.halted && p.delivered == delivered && Counters(p.summary) == summary
                && p.summary.status == ReplayIncomplete
                && p.summary.bytesConsumed == OffsetOf(parsed.frames, cursor.ordinal)
      decreases |parsed.frames| - cursor.ordinal
    {
      ghost var k := cursor.ordinal;
      var frame := cursor.Next();
      if frame.status == Frame {
        PlayPrefix(setup, parsed.frames, k + 1);
        summary := summary.(framesSeen := summary.framesSeen + 1);
        var (outcome, received) := DecodeOne(setup, delivered, frame.frame.payload);
        delivered := received;
        if outcome.status == Emitted {
          summary := summary.(eventsEmitted := summary.eventsEmitted + 1);
        } else if outcome.status == KnownUnselectedSkipped {
          summary := summary.(knownMessagesSkipped := summary.knownMessagesSkipped + 1);
        } else if outcome.status == UnknownSkipped {
          summary := summary.(unknownMessagesSkipped := summary.unknownMessagesSkipped + 1);
        } else {
          if outcome.status == Stopped {
            summary := summary.(eventsEmitted := summary.eventsEmitted + 1, status := ReplayStopped,
                                bytesConsumed := cursor.Consumed());
          } else {
            summary := summary.(status := ReplayDecodeError, bytesConsumed := cursor.Consumed(),
                                errorOffset := frame.frame.fileOffset + 2, decodeError := outcome);
          }
          HaltedEarly(setup, input, k + 1);
          return;
        }
      } else {
        AtEnding(input);
        assert parsed.frames[..k] == parsed.frames;
        if frame.status == Complete {
          var rest := cursor.Remaining();
          if rest != [] {
            summary := summary.(status := ReplayFramingError, bytesConsumed := cursor.Consumed(),
                                errorOffset := cursor.Consumed(), framingError := TrailingDataAfterEndMarker);
          } else {
            summary := summary.(status := ReplayComplete, bytesConsumed := cursor.Consumed());
          }
        } else if frame.status == Incomplete {
          summary := summary.(status := ReplayIncomplete, bytesConsumed := cursor.Consumed());
        } else {
          summary := summary.(status := ReplayFramingError, bytesConsumed := cursor.Consumed(),
                              errorOffset := frame.offset, framingError := frame.error);
        }
        return;
      }
    }
  }

  /** The loop emitted for partial projections: the same replay with the cursor's steps written out. */
  method ReplayBinaryFileInlined<E>(setup: Setup<E>, input: seq<byte>)
    returns (summary: ReplaySummary, delivered: seq<E>)
    requires |input| <= MAX_U64
    ensures OneShot(setup, input) == Progress(summary, delivered, true)
    ensures Reports(setup, 65535, input, true, Progress(summary, delivered, true))
  {
    hide Parse, Play, EncodeFrames, OffsetOf, DecodeOne, Reports;
    OneShotReports(setup, input);
    ghost var parsed := Parse(input);
    ghost var k := 0;
    var position := 0;
    summary, delivered := Counters(EMPTY_SUMMARY), [];
    PlayPrefix(setup, parsed.frames, 0);
    while true
      invariant k <= |parsed.frames| && position == OffsetOf(parsed.frames, k) <= |input|
      invariant var p := Play(setup, 65535, parsed.frames[..k]);
                && !p.halted && p.delivered == delivered && Counters(p.summary) == summary
                && p.summary.status == ReplayIncomplete && p.summary.bytesConsumed == position
      decreases |parsed.frames| - k
    {
      if k == |parsed.frames| {
        AtEnding(input);
        assert parsed.frames[..k] == parsed.frames;
      } else {
        AtFrame(input, k);
        PlayPrefix(setup, parsed.frames, k + 1);
      }
      var available := |input| - position;
      if available == 0 {
        summary := summary.(status := ReplayIncomplete, bytesConsumed := position);
        return;
      }
      if available == 1 {
        summary := summary.(status := ReplayFramingError, bytesConsumed := position,
                            errorOffset := position, framingError := TruncatedLengthPrefix);
        return;
      }
      var frameOffset := position;
      var payloadSize := DeclaredLength(input[position], input[position + 1]);
      if payloadSize == 0 {
        position := position + 2;
        if position != |input| {
          summary := summary.(status := ReplayFramingError, bytesConsumed := position,
                              errorOffset := position, framingError := TrailingDataAfterEndMarker);
        } else {
          summary := summary.(status := ReplayComplete, bytesConsumed := position);
        }
        return;
      }
      if payloadSize > available - 2 {
        summary := summary.(status := ReplayFramingError, bytesConsumed := position,
                            errorOffset := frameOffset, framingError := TruncatedPayload);
        return;
      }
      var payload := input[position + 2..position + 2 + payloadSize];
      position := position + 2 + payloadSize;
      summary := summary.(framesSeen := summary.framesSeen + 1);
      var (outcome, received) := DecodeOne(setup, delivered, payload);
      delivered := received;
      if outcome.status == Emitted {
        summary := summary.(eventsEmitted := summary.eventsEmitted + 1);
      } else if outcome.status == KnownUnselectedSkipped {
        summary := summary.(knownMessagesSkipped := summary.knownMessagesSkipped + 1);
      } else if outcome.status == UnknownSkipped {
        summary := summary.(unknownMessagesSkipped := summary.unknownMessagesSkipped + 1);
      } else {
        if outcome.status == Stopped {
          summary := summary.(eventsEmitted := summary.eventsEmitted + 1, status := ReplayStopped,
                              bytesConsumed := position);
        } else {
          summary := summary.(status := ReplayDecodeError, bytesConsumed := position,
                              errorOffset := frameOffset + 2, decodeError := outcome);
        }
        HaltedEarly(setup, input, k + 1);
        return;
      }
      k := k + 1;
    }
  }

  /** The fold after `k` frames is one step of the fold after `k - 1`, and it has consumed their bytes. */
  lemma PlayPrefix<E>(setup: Setup<E>, frames: seq<Payload>, k: nat)
    requires k <= |frames|
    ensures k == 0 ==> Play(setup, 65535, frames[..k]) == Progress(EMPTY_SUMMARY, [], false)
    ensures k == 0 ==> OffsetOf(frames, k) == 0
    ensures k > 0 ==> Play(setup, 65535, frames[..k])
                      == AfterFrame(setup, 65535, Play(setup, 65535, frames[..k - 1]), frames[k - 1])
    ensures k > 0 ==> OffsetOf(frames, k) == OffsetOf(frames, k - 1) + 2 + |frames[k - 1]|
  {
    if k > 0 {
      assert frames[..k] == frames[..k - 1] + [frames[k - 1]];
      PlayAppend(setup, 65535, frames[..k - 1], frames[k - 1]);
      OffsetStep(frames, k - 1);
    }
  }

  lemma HaltedEarly<E>(setup: Setup<E>, input: seq<byte>, k: nat)
    requires |input| <= MAX_U64 && k <= |Parse(input).frames|
    requires Play(setup, 65535, Parse(input).frames[..k]).halted
    ensures OneShot(setup, input) == Play(setup, 65535, Parse(input).frames[..k])
  {
    hide Parse, Play;
    var frames := Parse(input).frames;
    PlaySticky(setup, 65535, frames[..k], frames[k..]);
    assert frames[..k] + frames[k..] == frames;
  }
}
