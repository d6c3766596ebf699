/** The resumable cursor of binary_file.hpp, which collects a frame in a scratch buffer of its caller. */
module ChunkedCursors {
  import opened Bytes
  import opened BinaryFileFormat
  import opened BinaryFileCursors

  datatype ChunkStatus = ChunkFrame | NeedsInput | ChunkComplete | ChunkIncomplete | ChunkError

  /** A frame whose payload is the first `length` bytes of the scratch buffer, until the next call. */
  datatype ScratchView = ScratchView(length: nat, fileOffset: nat, ordinal: nat)

  const NO_VIEW := ScratchView(0, 0, 0)

  datatype ChunkOutcome = ChunkOutcome(
    status: ChunkStatus, error: FramingError, frame: ScratchView, inputConsumed: nat, offset: nat)

  /** How many of `requested` bytes still have an offset a 64-bit counter can hold. */
  function RepresentableOffsetBytes(received: nat, requested: nat): (count: nat)
    requires received <= MAX_U64
    ensures count <= requested && received + count <= MAX_U64
    ensures count < requested ==> received + count == MAX_U64
  {
    var capacity := MAX_U64 - received;
    if capacity >= requested then requested else capacity
  }

  class ChunkedCursor {
    const scratch: array<byte>
    const prefix: array<byte>
    var prefixSize: nat
    var payloadSize: nat
    var payloadReceived: nat
    var frameOffset: nat
    var received: nat
    var committed: nat
    var ordinal: nat
    var terminalOutcome: ChunkOutcome
    var sawEndMarker: bool
    var terminal: bool

    /** Every byte received so far, and the frames already handed out of it. */
    ghost var stream: seq<byte>
    ghost var frames: seq<Payload>

    ghost predicate Shaped()
      reads this
    {
      && scratch != prefix && prefix.Length == 2
      && prefixSize <= 2
      && payloadReceived <= scratch.Length
    }

    /** What the stream ends in, as the fields of the cursor record it. */
    ghost function Pending(): Ending
      requires Shaped()
      reads this, scratch, prefix
    {
      if sawEndMarker then EndMarker([])
      else if prefixSize == 0 then EndOfInput
      else if prefixSize == 1 then LonePrefixByte(prefix[0])
      else ShortPayload(payloadSize, scratch[..payloadReceived])
    }

    ghost predicate Valid()
      reads this, scratch, prefix
    {
      && Shaped()
      && received == |stream| <= MAX_U64
      && Pending().Proper()
      && stream == Render(Parsed(frames, Pending()))
      && ordinal == |frames|
      && committed == |EncodeFrames(frames)| + (if sawEndMarker then 2 else 0)
      && (sawEndMarker ==> prefixSize == 0)
      && (prefixSize < 2 ==> payloadSize == payloadReceived == 0)
      && (prefixSize > 0 ==> frameOffset == committed)
      && (prefixSize == 2 ==>
            && payloadSize == DeclaredLength(prefix[0], prefix[1])
            && (payloadSize <= scratch.Length || (terminal && payloadReceived == 0)))
      && (terminal ==> !terminalOutcome.status.ChunkFrame? && !terminalOutcome.status.NeedsInput?)
    }

    constructor (scratch: array<byte>)
      ensures Valid() && this.scratch == scratch && fresh(prefix)
      ensures stream == [] && frames == [] && !terminal
    {
      this.scratch := scratch;
      prefix := new byte[2](_ => 0);
      prefixSize, payloadSize, payloadReceived := 0, 0, 0;
      frameOffset, received, committed, ordinal := 0, 0, 0, 0;
      sawEndMarker, terminal := false, false;
      terminalOutcome := ChunkOutcome(ChunkFrame, NoFramingError, NO_VIEW, 0, 0);
      stream, frames := [], [];
    }

    /** The fields of a valid cursor are those of the parsed stream. */
    lemma Understands()
      requires Valid()
      ensures Parse(stream) == Parsed(frames, Pending())
    {
      ParseRender(Parsed(frames, Pending()));
    }

    /** Every received byte is committed, in the prefix or in the scratch buffer, at every point. */
    lemma Counters()
      requires Valid()
      ensures received == committed + prefixSize + payloadReceived <= MAX_U64
      ensures prefixSize > 0 ==> frameOffset == committed
      ensures payloadReceived <= payloadSize
      ensures scratch[..payloadReceived] == stream[|stream| - payloadReceived..]
    {
      hide EncodeFrames;
      var bytes := EndingBytes(Pending());
      assert stream[|stream| - |bytes|..] == bytes;
    }

    /**
     What a call that was not already terminal may report, in terms of the frames handed out before it
     and the length of its input.
     */
    ghost predicate Reported(outcome: ChunkOutcome, handedOut: seq<Payload>, offered: nat)
      reads this, scratch, prefix
    {
      && outcome.inputConsumed <= offered
      && match outcome.status
         case ChunkFrame =>
           && !terminal && Shaped() && Pending() == EndOfInput && outcome.error == NoFramingError
           && outcome.inputConsumed > 0
           && outcome.frame.length <= scratch.Length
           && 1 <= outcome.frame.length <= 65535
           && frames == handedOut + [scratch[..outcome.frame.length]]
           && outcome.offset == outcome.frame.fileOffset == |EncodeFrames(handedOut)|
           && outcome.frame.ordinal == |handedOut|
         case NeedsInput =>
           && !terminal && frames == handedOut
           && outcome == ChunkOutcome(NeedsInput, NoFramingError, NO_VIEW, offered, committed)
         case ChunkError =>
           && terminal && outcome == terminalOutcome && frames == handedOut && outcome.frame == NO_VIEW
           && (match outcome.error
               case TrailingDataAfterEndMarker =>
                 sawEndMarker && outcome.inputConsumed < offered && outcome.offset == committed
               case InsufficientScratch =>
                 && prefixSize == 2 && payloadSize > scratch.Length && payloadReceived == 0
                 && outcome.offset == committed
               case OffsetOverflow =>
                 && !sawEndMarker && outcome.inputConsumed < offered
                 && (prefixSize == 2 ==> payloadSize <= scratch.Length)
                 && outcome.offset == received == MAX_U64
               case _ => false)
         case _ => false
    }

    /** The framing calls for another byte: of a length prefix, or of a payload the scratch buffer can hold. */
    ghost predicate ByteDue()
      reads this
    {
      !sawEndMarker && (prefixSize == 2 ==> payloadReceived < payloadSize <= scratch.Length)
    }

    /** Overflow is reported exactly when a byte is due and there, and no 64-bit offset is left for it. */
    lemma OverflowExactly(outcome: ChunkOutcome, handedOut: seq<Payload>, offered: nat)
      requires Valid() && Reported(outcome, handedOut, offered)
      ensures outcome.error == OffsetOverflow
              <==> && outcome.status != ChunkFrame && ByteDue()
                   && outcome.inputConsumed < offered && received == MAX_U64
    {
      Counters();
      Understands();
    }

    /** The frame that lies behind those handed out, and nothing else than that frame. */
    lemma FrameExactly(outcome: ChunkOutcome, handedOut: seq<Payload>, offered: nat)
      requires Valid() && Reported(outcome, handedOut, offered)
      ensures outcome.status == ChunkFrame <==> |Parse(stream).frames| == |handedOut| + 1
      ensures outcome.status != ChunkFrame <==> Parse(stream).frames == handedOut
      ensures outcome.status == ChunkFrame ==>
                var frame := Parse(stream).frames[|handedOut|];
                && Parse(stream) == Parsed(handedOut + [frame], EndOfInput)
                && |frame| <= scratch.Length && scratch[..|frame|] == frame
                && outcome.error == NoFramingError && outcome.frame.length == |frame|
                && outcome.frame.ordinal == |handedOut|
                && outcome.offset == outcome.frame.fileOffset == |stream| - 2 - |frame|
    {
      hide EncodeFrames;
      Understands();
      if outcome.status == ChunkFrame {
        var frame: Payload := frames[|handedOut|];
        EncodeAppend(handedOut, frame);
        assert frames == handedOut + [frame];
      }
    }

    /** Where the frames handed out end, in a stream that holds them and its ending. */
    ghost function Boundary(): int
      reads this
    {
      |stream| - match Parse(stream).ending
                 case EndOfInput => 0
                 case EndMarker(trailing) => 2 + |trailing|
                 case LonePrefixByte(_) => 1
                 case ShortPayload(_, have) => 2 + |have|
    }

    /**
     Without a frame, more input is asked for until a payload turns out too long, a byte comes behind the end
     marker, or offsets run out; the offset reported is where the unfinished part begins, or the marker ends.
     */
    lemma NoFrameExactly(outcome: ChunkOutcome, handedOut: seq<Payload>, offered: nat)
      requires Valid() && Reported(outcome, handedOut, offered) && outcome.status != ChunkFrame
      ensures var ending := Parse(stream).ending;
              var marked, long := ending.EndMarker?, ending.ShortPayload? && ending.declared > scratch.Length;
              && outcome.frame == ScratchView(0, 0, 0)
              && (outcome.status == NeedsInput <==> outcome.inputConsumed == offered && !long)
              && (outcome.status == NeedsInput <==> outcome.error == NoFramingError)
              && (outcome.status == ChunkError <==> outcome.error != NoFramingError)
              && (outcome.error == TrailingDataAfterEndMarker <==> marked && outcome.inputConsumed < offered)
              && (outcome.error == InsufficientScratch <==> long)
              && (outcome.error == OffsetOverflow ==> outcome.offset == 0xFFFF_FFFF_FFFF_FFFF)
              && (outcome.error != OffsetOverflow ==> outcome.offset == Boundary() + if marked then 2 else 0)
    {
      hide EncodeFrames;
      Understands();
      Counters();
    }

    method Next(input: seq<byte>) returns (outcome: ChunkOutcome)
      requires Valid() && |input| <= MAX_U64
      modifies this, scratch, prefix
      ensures Valid()
      ensures old(terminal) ==>
                && outcome == old(terminalOutcome) && terminal && terminalOutcome == outcome
                && stream == old(stream) && frames == old(frames) && Pending() == old(Pending())
                && scratch[..] == old(scratch[..]) && committed == old(committed)
      ensures !old(terminal) ==>
                && Reported(outcome, old(frames), |input|)
                && stream == old(stream) + input[..outcome.inputConsumed]
    {
      hide Parse, EncodeFrames;
      if terminal {
        outcome := terminalOutcome;
      } else if sawEndMarker {
        if input == [] {
          outcome := Outcome(NeedsInput, NoFramingError, 0, committed);
        } else {
          outcome := MakeTerminal(ChunkError, TrailingDataAfterEndMarker, 0, committed);
        }
      } else if prefixSize != 2 {
        var inputPosition, stopped := ReadPrefix(input);
        if stopped.Some? {
          outcome := stopped.value;
        } else {
          label prefixKnown:
          outcome := CollectPayload(input, inputPosition);
          assert input[..outcome.inputConsumed]
              == input[..inputPosition] + input[inputPosition..outcome.inputConsumed];
        }
      } else {
        outcome := CollectPayload(input, 0);
      }
    }

    /** While the length prefix is being read, `bytes` is the encoded frames and the prefix so far. */
    ghost predicate PrefixPhase(handedOut: seq<Payload>, bytes: seq<byte>)
      reads this, scratch, prefix
    {
      && Shaped() && !sawEndMarker && !terminal
      && frames == handedOut && ordinal == |frames|
      && stream == bytes == EncodeFrames(frames) + prefix[..prefixSize]
      && received == |stream| <= MAX_U64
      && committed == frameOffset == |EncodeFrames(frames)|
      && payloadReceived == 0
      && (prefixSize < 2 ==> payloadSize == 0)
    }

    /** The first part of `next`: completes the length prefix, or reports why it cannot go on. */
    method ReadPrefix(input: seq<byte>) returns (inputPosition: nat, stopped: Option<ChunkOutcome>)
      requires Valid() && !terminal && !sawEndMarker && prefixSize != 2
      requires |input| <= MAX_U64
      modifies this, prefix
      ensures Valid()
      ensures inputPosition <= |input| && stream == old(stream) + input[..inputPosition]
      ensures stopped.Some? ==>
                && !stopped.value.status.ChunkFrame? && stopped.value.inputConsumed == inputPosition
                && Reported(stopped.value, old(frames), |input|)
      ensures stopped.None? ==>
                && !terminal && prefixSize == 2 && payloadReceived == 0 && payloadSize <= scratch.Length
                && inputPosition > 0 && frames == old(frames)
    {
      hide Parse, EncodeFrames;
      inputPosition := 0;
      if prefixSize == 0 {
        frameOffset := received;
      }
      assert prefix[..prefixSize] == EndingBytes(Pending());
      assert input[..0] == [];
      while prefixSize != 2 && inputPosition != |input| && received != MAX_U64
        invariant inputPosition <= |input|
        invariant PrefixPhase(old(frames), old(stream) + input[..inputPosition])
        invariant prefixSize == old(prefixSize) + inputPosition
      {
        TakePrefixByte(input[inputPosition]);
        assert input[..inputPosition + 1] == input[..inputPosition] + [input[inputPosition]];
        Associative(old(stream), input[..inputPosition], [input[inputPosition]]);
        inputPosition := inputPosition + 1;
      }
      assert prefixSize < 2 ==> prefix[..prefixSize] == EndingBytes(Pending());
      stopped := None;
      if prefixSize != 2 && inputPosition != |input| {
        var overflow := MakeTerminal(ChunkError, OffsetOverflow, inputPosition, received);
        stopped := Some(overflow);
      } else if prefixSize != 2 {
        stopped := Some(Outcome(NeedsInput, NoFramingError, inputPosition, frameOffset));
      } else {
        stopped := AnnouncePayload(|input|, inputPosition);
      }
    }

    method TakePrefixByte(value: byte)
      requires PrefixPhase(frames, stream) && prefixSize < 2 && received < MAX_U64
      modifies this`stream, this`prefixSize, this`received, prefix
      ensures prefixSize == old(prefixSize) + 1
      ensures PrefixPhase(old(frames), old(stream) + [value])
    {
      hide EncodeFrames;
      Associative(EncodeFrames(frames), prefix[..prefixSize], [value]);
      prefix[prefixSize] := value;
      assert prefix[..prefixSize + 1] == old(prefix[..prefixSize]) + [value];
      stream := stream + [value];
      prefixSize := prefixSize + 1;
      received := received + 1;
    }

    /** Acts on a complete prefix: an end marker, a payload that fits the scratch buffer, or one that does not. */
    method AnnouncePayload(offered: nat, inputPosition: nat) returns (stopped: Option<ChunkOutcome>)
      requires PrefixPhase(frames, stream) && prefixSize == 2
      requires inputPosition <= offered
      modifies this
      ensures Valid() && frames == old(frames) && stream == old(stream)
      ensures stopped.Some? ==>
                && !stopped.value.status.ChunkFrame? && stopped.value.inputConsumed == inputPosition
                && Reported(stopped.value, frames, offered)
      ensures stopped.None? ==>
                !terminal && prefixSize == 2 && payloadReceived == 0 && payloadSize <= scratch.Length
    {
      hide Parse, EncodeFrames, Render, DeclaredLength;
      RenderAnnounced(frames, prefix[0], prefix[1]);
      assert prefix[..2] == [prefix[0], prefix[1]];
      payloadSize := DeclaredLength(prefix[0], prefix[1]);
      payloadReceived := 0;
      stopped := None;
      if payloadSize == 0 {
        prefixSize := 0;
        sawEndMarker := true;
        committed := received;
        if inputPosition != offered {
          var trailing := MakeTerminal(ChunkError, TrailingDataAfterEndMarker, inputPosition, committed);
          stopped := Some(trailing);
        } else {
          stopped := Some(Outcome(NeedsInput, NoFramingError, inputPosition, committed));
        }
      } else if payloadSize > scratch.Length {
        var tooLong := MakeTerminal(ChunkError, InsufficientScratch, inputPosition, frameOffset);
        stopped := Some(tooLong);
      }
    }

    /** The second part of `next`: the prefix is known, the payload is being collected. */
    method CollectPayload(input: seq<byte>, start: nat) returns (outcome: ChunkOutcome)
      requires Valid() && !terminal && prefixSize == 2
      requires start <= |input| <= MAX_U64
      modifies this, scratch
      ensures Valid()
      ensures start <= outcome.inputConsumed
      ensures Reported(outcome, old(frames), |input|)
      ensures stream == old(stream) + input[start..outcome.inputConsumed]
    {
      hide Parse, EncodeFrames, Render, DeclaredLength;
      var inputPosition := start;
      var payloadRemaining := payloadSize - payloadReceived;
      var inputRemaining := |input| - inputPosition;
      var requestedCopySize := if payloadRemaining < inputRemaining then payloadRemaining else inputRemaining;
      var copySize := RepresentableOffsetBytes(received, requestedCopySize);
      StorePayload(input[inputPosition..inputPosition + copySize]);
      inputPosition := inputPosition + copySize;

      if copySize != requestedCopySize {
        outcome := MakeTerminal(ChunkError, OffsetOverflow, inputPosition, received);
      } else if payloadReceived != payloadSize {
        outcome := Outcome(NeedsInput, NoFramingError, inputPosition, frameOffset);
      } else {
        outcome := HandOutFrame(inputPosition);
      }
    }

    /** Copies payload bytes behind those already in the scratch buffer and counts them. */
    method StorePayload(added: seq<byte>)
      requires Valid() && !terminal && prefixSize == 2
      requires |added| <= payloadSize - payloadReceived && received + |added| <= MAX_U64
      modifies this`payloadReceived, this`received, this`stream, scratch
      ensures payloadReceived == old(payloadReceived) + |added| && stream == old(stream) + added
      ensures payloadReceived < payloadSize ==> Valid()
      ensures payloadReceived == payloadSize ==>
                Shaped() && received == |stream| && stream == EncodeFrames(frames + [scratch[..payloadSize]])
    {
      hide Parse, EncodeFrames, Render, DeclaredLength;
      ghost var have := scratch[..payloadReceived];
      for index := 0 to |added|
        modifies scratch
        invariant scratch[..payloadReceived + index] == have + added[..index]
        invariant prefix[..] == old(prefix[..])
      {
        scratch[payloadReceived + index] := added[index];
      }
      assert scratch[..payloadReceived + |added|] == have + added;
      if payloadReceived + |added| == payloadSize {
        RenderComplete(frames, have, added);
      } else {
        RenderMore(frames, payloadSize, have, added);
      }
      payloadReceived := payloadReceived + |added|;
      received := received + |added|;
      stream := stream + added;
    }

    /** The payload is complete: the frame is committed and the cursor stands at the next boundary. */
    method HandOutFrame(inputPosition: nat) returns (outcome: ChunkOutcome)
      requires Shaped() && !terminal && !sawEndMarker && 1 <= payloadSize == payloadReceived <= 65535
      requires received == |stream| <= MAX_U64
      requires stream == EncodeFrames(frames + [scratch[..payloadSize]])
      requires ordinal == |frames| && frameOffset == |EncodeFrames(frames)|
      modifies this
      ensures Valid() && !terminal && Pending() == EndOfInput && stream == old(stream)
      ensures frames == old(frames) + [scratch[..old(payloadSize)]]
      ensures outcome == ChunkOutcome(ChunkFrame, NoFramingError,
                                      ScratchView(old(payloadSize), old(frameOffset), |old(frames)|),
                                      inputPosition, old(frameOffset))
    {
      hide EncodeFrames, Render;
      outcome := ChunkOutcome(
        ChunkFrame, NoFramingError, ScratchView(payloadSize, frameOffset, ordinal), inputPosition, frameOffset);
      frames := frames + [scratch[..payloadSize]];
      RenderBoundary(frames);
      committed := received;
      prefixSize := 0;
      payloadSize := 0;
      payloadReceived := 0;
      ordinal := ordinal + 1;
    }

    /** Names how the stream ended; a cursor that already stopped repeats why. */
    method Finish() returns (outcome: ChunkOutcome)
      requires Valid()
      modifies this
      ensures Valid() && terminal && outcome == terminalOutcome
      ensures stream == old(stream) && frames == old(frames) && Pending() == old(Pending())
      ensures committed == old(committed)
      ensures old(terminal) ==> outcome == old(terminalOutcome)
      ensures !old(terminal) ==>
                var offset := |EncodeFrames(frames)|;
                outcome == match Pending()
                  case EndMarker(_) => ChunkOutcome(ChunkComplete, NoFramingError, NO_VIEW, 0, offset)
                  case EndOfInput => ChunkOutcome(ChunkIncomplete, NoFramingError, NO_VIEW, 0, offset)
                  case LonePrefixByte(_) => ChunkOutcome(ChunkError, TruncatedLengthPrefix, NO_VIEW, 0, offset)
                  case ShortPayload(_, _) => ChunkOutcome(ChunkError, TruncatedPayload, NO_VIEW, 0, offset)
    {
      if terminal {
        outcome := terminalOutcome;
      } else if sawEndMarker {
        outcome := MakeTerminal(ChunkComplete, NoFramingError, 0, committed - 2);
      } else if prefixSize == 0 {
        outcome := MakeTerminal(ChunkIncomplete, NoFramingError, 0, received);
      } else if prefixSize != 2 {
        outcome := MakeTerminal(ChunkError, TruncatedLengthPrefix, 0, frameOffset);
      } else {
        outcome := MakeTerminal(ChunkError, TruncatedPayload, 0, frameOffset);
      }
    }

    function Consumed(): nat
      reads this
    {
      committed
    }

    function Outcome(status: ChunkStatus, error: FramingError, inputConsumed: nat, offset: nat): ChunkOutcome {
      ChunkOutcome(status, error, NO_VIEW, inputConsumed, offset)
    }

    method MakeTerminal(status: ChunkStatus, error: FramingError, inputConsumed: nat, offset: nat)
      returns (outcome: ChunkOutcome)
      modifies this`terminalOutcome, this`terminal
      ensures terminal
      ensures terminalOutcome == outcome == ChunkOutcome(status, error, NO_VIEW, inputConsumed, offset)
    {
      terminalOutcome := Outcome(status, error, inputConsumed, offset);
      terminal := true;
      return terminalOutcome;
    }
  }

  lemma RenderBoundary(frames: seq<Payload>)
    ensures Render(Parsed(frames, EndOfInput)) == EncodeFrames(frames)
  {
  }

  /** A complete length prefix either ends the file or announces a payload. */
  lemma RenderAnnounced(frames: seq<Payload>, high: byte, low: byte)
    ensures var length := DeclaredLength(high, low);
            EncodeFrames(frames) + [high, low]
            == Render(Parsed(frames, if length == 0 then EndMarker([]) else ShortPayload(length, [])))
  {
    hide EncodeFrames;
    PrefixOfLength([high, low]);
  }

  /** Payload bytes added to an unfinished frame leave it unfinished ... */
  lemma RenderMore(frames: seq<Payload>, declared: nat, have: seq<byte>, more: seq<byte>)
    requires 1 <= declared <= 65535 && |have| + |more| < declared
    ensures Render(Parsed(frames, ShortPayload(declared, have))) + more
            == Render(Parsed(frames, ShortPayload(declared, have + more)))
  {
    hide EncodeFrames, Prefix;
    Associative(Prefix(declared), have, more);
    Associative(EncodeFrames(frames), Prefix(declared) + have, more);
  }

  /** ... or finish it, and then the stream is at a frame boundary. */
  lemma RenderComplete(frames: seq<Payload>, have: seq<byte>, more: seq<byte>)
    requires |more| > 0 && 1 <= |have + more| <= 65535
    ensures Render(Parsed(frames, ShortPayload(|have + more|, have))) + more
            == EncodeFrames(frames + [have + more])
  {
    hide EncodeFrames, Prefix;
    Associative(Prefix(|have + more|), have, more);
    Associative(EncodeFrames(frames), Prefix(|have + more|) + have, more);
    EncodeAppend(frames, have + more);
  }
}
