/** The one-shot cursor of binary_file.hpp. */
module BinaryFileCursors {
  import opened Bytes
  import opened BinaryFileFormat

  datatype FrameStatus = Frame | Complete | Incomplete | Error

  datatype FramingError =
    | NoFramingError
    | TruncatedLengthPrefix
    | TruncatedPayload
    | TrailingDataAfterEndMarker
    | InsufficientScratch
    | OffsetOverflow

  datatype FrameView = FrameView(payload: seq<byte>, fileOffset: nat, ordinal: nat)

  const NO_FRAME := FrameView([], 0, 0)

  datatype FrameOutcome = FrameOutcome(status: FrameStatus, error: FramingError, frame: FrameView, offset: nat)

  /** What the cursor owes its caller once every frame of a file has been handed out. */
  function EndOutcome(parsed: Parsed): FrameOutcome {
    var offset := |EncodeFrames(parsed.frames)|;
    match parsed.ending
    case EndOfInput => FrameOutcome(Incomplete, NoFramingError, NO_FRAME, offset)
    case EndMarker(_) => FrameOutcome(Complete, NoFramingError, NO_FRAME, offset)
    case LonePrefixByte(_) => FrameOutcome(Error, TruncatedLengthPrefix, NO_FRAME, offset)
    case ShortPayload(_, _) => FrameOutcome(Error, TruncatedPayload, NO_FRAME, offset)
  }

  /** Call number `k` of a cursor, counting from zero: frame `k`, or the ending once there is none. */
  function NextOutcome(parsed: Parsed, k: nat): FrameOutcome
    requires k <= |parsed.frames|
  {
    if k == |parsed.frames| then EndOutcome(parsed)
    else
      var offset := OffsetOf(parsed.frames, k);
      FrameOutcome(Frame, NoFramingError, FrameView(parsed.frames[k], offset, k), offset)
  }

  class BinaryFileCursor {
    const input: seq<byte>
    var position: nat
    var ordinal: nat
    var terminalOutcome: FrameOutcome
    var terminal: bool

    ghost predicate Valid()
      reads this
    {
      var parsed := Parse(input);
      && ordinal <= |parsed.frames|
      && position == OffsetOf(parsed.frames, ordinal) + (if terminal && parsed.ending.EndMarker? then 2 else 0)
      && (terminal ==> ordinal == |parsed.frames| && terminalOutcome == EndOutcome(parsed))
    }

    constructor (input: seq<byte>)
      requires |input| <= MAX_U64
      ensures Valid() && this.input == input && ordinal == 0 && position == 0 && !terminal
    {
      this.input := input;
      position, ordinal, terminal := 0, 0, false;
      terminalOutcome := FrameOutcome(Frame, NoFramingError, NO_FRAME, 0);
    }

    /** Hands out the frames of the parsed input in order, then its ending for ever after. */
    method Next() returns (outcome: FrameOutcome)
      requires Valid()
      modifies this
      ensures Valid()
      ensures outcome == NextOutcome(Parse(input), old(ordinal))
      ensures terminal <==> old(ordinal) == |Parse(input).frames|
      ensures ordinal == old(ordinal) + if terminal then 0 else 1
    {
      hide Parse, OffsetOf, EncodeFrames, DeclaredLength;
      if terminal {
        return terminalOutcome;
      }
      if ordinal == |Parse(input).frames| {
        AtEnding(input);
      } else {
        AtFrame(input, ordinal);
      }
      var prefixOffset := position;
      var available := |input| - position;

      if available == 0 {
        outcome := MakeTerminal(Incomplete, NoFramingError, |input|);
      } else if available == 1 {
        outcome := MakeTerminal(Error, TruncatedLengthPrefix, prefixOffset);
      } else {
        var payloadSize := DeclaredLength(input[position], input[position + 1]);
        if payloadSize == 0 {
          position := position + 2;
          outcome := MakeTerminal(Complete, NoFramingError, prefixOffset);
        } else if payloadSize > available - 2 {
          outcome := MakeTerminal(Error, TruncatedPayload, prefixOffset);
        } else {
          var payload := input[position + 2..position + 2 + payloadSize];
          outcome := FrameOutcome(Frame, NoFramingError, FrameView(payload, prefixOffset, ordinal), prefixOffset);
          position := position + 2 + payloadSize;
          ordinal := ordinal + 1;
        }
      }
    }

    function Consumed(): nat
      reads this
    {
      position
    }

    /** The bytes after the end marker, and nothing unless the marker was reached. */
    method Remaining() returns (rest: seq<byte>)
      requires Valid()
      ensures rest == if terminal && Parse(input).ending.EndMarker? then Parse(input).ending.trailing else []
    {
      AtEnding(input);
      if terminal && terminalOutcome.status == Complete {
        return input[position..];
      }
      return [];
    }

    method MakeTerminal(status: FrameStatus, error: FramingError, offset: nat) returns (outcome: FrameOutcome)
      modifies this`terminalOutcome, this`terminal
      ensures terminal && terminalOutcome == outcome == FrameOutcome(status, error, NO_FRAME, offset)
    {
      terminalOutcome := FrameOutcome(status, error, NO_FRAME, offset);
      terminal := true;
      return terminalOutcome;
    }
  }

  /** The bytes after the last frame decide how the cursor ends. */
  lemma AtEnding(input: seq<byte>)
    ensures var frames, at := Parse(input).frames, |EncodeFrames(Parse(input).frames)|;
            && at == OffsetOf(frames, |frames|) <= |input|
            && match Parse(input).ending
               case EndOfInput => at == |input|
               case EndMarker(trailing) =>
                 at + 2 <= |input| && DeclaredLength(input[at], input[at + 1]) == 0 && input[at + 2..] == trailing
               case LonePrefixByte(_) => at + 1 == |input|
               case ShortPayload(declared, _) =>
                 at + 2 <= |input| && DeclaredLength(input[at], input[at + 1]) == declared > |input| - at - 2
  {
    hide Parse, EncodeFrames;
    var parsed := Parse(input);
    RenderParse(input);
    assert parsed.frames[..|parsed.frames|] == parsed.frames;
    var at, bytes := |EncodeFrames(parsed.frames)|, EndingBytes(parsed.ending);
    assert input[at..] == bytes;
    if |bytes| >= 2 {
      assert input[at] == bytes[0] && input[at + 1] == bytes[1] && input[at + 2..] == bytes[2..];
    }
  }

  /** The bytes at frame boundary `k` spell out frame `k`. */
  lemma AtFrame(input: seq<byte>, k: nat)
    requires k < |Parse(input).frames|
    ensures var frame, at := Parse(input).frames[k], OffsetOf(Parse(input).frames, k);
            && OffsetOf(Parse(input).frames, k + 1) == at + 2 + |frame| <= |input|
            && DeclaredLength(input[at], input[at + 1]) == |frame|
            && input[at + 2..at + 2 + |frame|] == frame
  {
    hide EncodeFrames;
    var frames := Parse(input).frames;
    ParseFrom(input, k);
    OffsetStep(frames, k);
    var here := input[OffsetOf(frames, k)..];
    ParseTail(here);
    assert here[2..2 + |frames[k]|] == frames[k];
  }
}
