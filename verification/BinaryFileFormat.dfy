/**
 The BinaryFILE framing as a grammar: a file is a run of length-prefixed payloads and one ending.
 `Parse` reads every byte string into that form and `Render` writes it back; both directions are
 proved, so the decomposition of a file is unique and every cursor can be specified by it.
 */
module BinaryFileFormat {
  import opened Bytes

  /** A payload a 16-bit length prefix can announce; length zero is the end marker. */
  type Payload = p: seq<byte> | 1 <= |p| <= 65535 witness [0]

  datatype Ending =
    | EndOfInput
    | EndMarker(trailing: seq<byte>)
    | LonePrefixByte(high: byte)
    | ShortPayload(declared: nat, have: seq<byte>)
  {
    predicate Proper() {
      ShortPayload? ==> 1 <= declared <= 65535 && |have| < declared
    }
  }

  datatype Parsed = Parsed(frames: seq<Payload>, ending: Ending)

  function DeclaredLength(high: byte, low: byte): (length: nat)
    ensures length <= 65535
  {
    (high as int) * 256 + low
  }

  function Prefix(length: nat): seq<byte>
    requires length <= 65535
  {
    [length / 256, length % 256]
  }

  function EncodeFrame(payload: Payload): seq<byte> {
    Prefix(|payload|) + payload
  }

  function EncodeFrames(frames: seq<Payload>): seq<byte> {
    if frames == [] then [] else EncodeFrame(frames[0]) + EncodeFrames(frames[1..])
  }

  function EndingBytes(ending: Ending): seq<byte>
    requires ending.Proper()
  {
    match ending
    case EndOfInput => []
    case EndMarker(trailing) => Prefix(0) + trailing
    case LonePrefixByte(high) => [high]
    case ShortPayload(declared, have) => Prefix(declared) + have
  }

  function Render(parsed: Parsed): seq<byte>
    requires parsed.ending.Proper()
  {
    EncodeFrames(parsed.frames) + EndingBytes(parsed.ending)
  }

  /** The simple recursive parser that the cursors refine. */
  function Parse(input: seq<byte>): (parsed: Parsed)
    ensures parsed.ending.Proper()
    decreases |input|
  {
    if |input| == 0 then Parsed([], EndOfInput)
    else if |input| == 1 then Parsed([], LonePrefixByte(input[0]))
    else
      var length := DeclaredLength(input[0], input[1]);
      if length == 0 then Parsed([], EndMarker(input[2..]))
      else if length > |input| - 2 then Parsed([], ShortPayload(length, input[2..]))
      else
        var rest := Parse(input[2 + length..]);
        Parsed([input[2..2 + length]] + rest.frames, rest.ending)
  }

  lemma RenderFrame(frame: Payload, rest: Parsed)
    requires rest.ending.Proper()
    ensures Render(Parsed([frame] + rest.frames, rest.ending)) == EncodeFrame(frame) + Render(rest)
  {
    var all := [frame] + rest.frames;
    assert all[1..] == rest.frames;
  }

  lemma ParseFrame(frame: Payload, rest: seq<byte>)
    ensures Parse(EncodeFrame(frame) + rest) == Parsed([frame] + Parse(rest).frames, Parse(rest).ending)
  {
    var input := EncodeFrame(frame) + rest;
    assert DeclaredLength(input[0], input[1]) == |frame|;
    assert input[2..2 + |frame|] == frame;
    assert input[2 + |frame|..] == rest;
  }

  lemma PrefixOfLength(input: seq<byte>)
    requires |input| >= 2
    ensures input == Prefix(DeclaredLength(input[0], input[1])) + input[2..]
  {
  }

  lemma RenderParseFrame(input: seq<byte>, length: nat)
    requires |input| >= 2 && length == DeclaredLength(input[0], input[1])
    requires 0 < length <= |input| - 2
    requires Render(Parse(input[2 + length..])) == input[2 + length..]
    ensures Render(Parse(input)) == input
  {
    hide Render, EncodeFrame, DeclaredLength;
    var frame, rest := input[2..2 + length], input[2 + length..];
    RenderFrame(frame, Parse(rest));
    FrameInFront(input, length);
  }

  lemma FrameInFront(input: seq<byte>, length: nat)
    requires |input| >= 2 && length == DeclaredLength(input[0], input[1])
    requires 0 < length <= |input| - 2
    ensures input == EncodeFrame(input[2..2 + length]) + input[2 + length..]
  {
    hide Prefix, DeclaredLength;
    PrefixOfLength(input);
    Split(input[2..], length);
    Associative(Prefix(length), input[2..2 + length], input[2 + length..]);
    assert input[2 + length..] == input[2..][length..];
  }

  lemma RenderNoFrames(ending: Ending)
    requires ending.Proper()
    ensures Render(Parsed([], ending)) == EndingBytes(ending)
  {
  }

  lemma RenderParseEnding(input: seq<byte>)
    requires |input| < 2 || !(0 < DeclaredLength(input[0], input[1]) <= |input| - 2)
    ensures Render(Parse(input)) == input
  {
    hide Render;
    RenderNoFrames(Parse(input).ending);
    if |input| >= 2 {
      PrefixOfLength(input);
    }
  }

  /** Nothing is lost: the parsed form writes back to the very bytes it was read from. */
  lemma {:induction false} RenderParse(input: seq<byte>)
    ensures Render(Parse(input)) == input
    decreases |input|
  {
    hide Parse, Render;
    if |input| >= 2 && 0 < DeclaredLength(input[0], input[1]) <= |input| - 2 {
      var length := DeclaredLength(input[0], input[1]);
      RenderParse(input[2 + length..]);
      RenderParseFrame(input, length);
    } else {
      RenderParseEnding(input);
    }
  }

  lemma {:induction false} EncodeAppend(frames: seq<Payload>, payload: Payload)
    ensures EncodeFrames(frames + [payload]) == EncodeFrames(frames) + EncodeFrame(payload)
    ensures |EncodeFrames(frames + [payload])| == |EncodeFrames(frames)| + 2 + |payload|
  {
    if frames == [] {
      assert EncodeFrames([payload]) == EncodeFrame(payload) + EncodeFrames([]);
    } else {
      assert (frames + [payload])[1..] == frames[1..] + [payload];
      EncodeAppend(frames[1..], payload);
    }
  }

  /** Parsing skips over any run of encoded frames. */
  lemma {:induction false} ParseAfterFrames(frames: seq<Payload>, rest: seq<byte>, parsed: Parsed)
    requires parsed == Parse(rest)
    ensures Parse(EncodeFrames(frames) + rest) == Parsed(frames + parsed.frames, parsed.ending)
  {
    hide Parse, EncodeFrame;
    if frames == [] {
      assert EncodeFrames(frames) + rest == rest;
      assert frames + parsed.frames == parsed.frames;
    } else {
      var tail := EncodeFrames(frames[1..]) + rest;
      ParseAfterFrames(frames[1..], rest, parsed);
      ParseFrame(frames[0], tail);
      Associative(EncodeFrame(frames[0]), EncodeFrames(frames[1..]), rest);
      Associative([frames[0]], frames[1..], parsed.frames);
      Split(frames, 1);
    }
  }

  lemma ParseEnding(ending: Ending)
    requires ending.Proper()
    ensures Parse(EndingBytes(ending)) == Parsed([], ending)
  {
    var bytes := EndingBytes(ending);
    match ending
    case EndOfInput =>
    case EndMarker(trailing) => assert bytes[2..] == trailing;
    case LonePrefixByte(high) =>
    case ShortPayload(declared, have) => assert bytes[2..] == have;
  }

  /** Nothing is ambiguous: a rendered file is read back as exactly the form it was written from. */
  lemma ParseRender(parsed: Parsed)
    requires parsed.ending.Proper()
    ensures Parse(Render(parsed)) == parsed
  {
    ParseEnding(parsed.ending);
    ParseAfterFrames(parsed.frames, EndingBytes(parsed.ending), Parsed([], parsed.ending));
  }

  /** Adding bytes to a file only ever adds to what was unfinished at its end. */
  lemma ParseExtend(input: seq<byte>, more: seq<byte>)
    ensures var before, tail := Parse(input), Parse(EndingBytes(Parse(input).ending) + more);
            Parse(input + more) == Parsed(before.frames + tail.frames, tail.ending)
  {
    var before := Parse(input);
    RenderParse(input);
    Associative(EncodeFrames(before.frames), EndingBytes(before.ending), more);
    var tail := EndingBytes(before.ending) + more;
    ParseAfterFrames(before.frames, tail, Parse(tail));
  }

  lemma ExtendEndMarker(trailing: seq<byte>, more: seq<byte>)
    ensures Parse(EndingBytes(EndMarker(trailing)) + more) == Parsed([], EndMarker(trailing + more))
  {
    var bytes := EndingBytes(EndMarker(trailing)) + more;
    assert bytes[2..] == trailing + more;
  }

  /** Whatever follows an announced payload, the length announced stays the same. */
  lemma AnnouncedLengthStays(ending: Ending, more: seq<byte>)
    requires ending.Proper() && ending.ShortPayload?
    ensures var tail := Parse(EndingBytes(ending) + more);
            if tail.frames == [] then tail.ending.ShortPayload? && tail.ending.declared == ending.declared
            else |tail.frames[0]| == ending.declared
  {
    var bytes := EndingBytes(ending) + more;
    assert DeclaredLength(bytes[0], bytes[1]) == ending.declared;
  }

  /** Offset of frame `k` in a file that holds `frames`. */
  function OffsetOf(frames: seq<Payload>, k: nat): nat
    requires k <= |frames|
  {
    |EncodeFrames(frames[..k])|
  }

  lemma OffsetStep(frames: seq<Payload>, k: nat)
    requires k < |frames|
    ensures OffsetOf(frames, k + 1) == OffsetOf(frames, k) + 2 + |frames[k]|
  {
    assert frames[..k + 1] == frames[..k] + [frames[k]];
    EncodeAppend(frames[..k], frames[k]);
  }

  /** Cutting a file at a frame boundary cuts its parsed form at the same place. */
  lemma ParseFrom(input: seq<byte>, k: nat)
    requires k <= |Parse(input).frames|
    ensures OffsetOf(Parse(input).frames, k) <= |input|
    ensures Parse(input[OffsetOf(Parse(input).frames, k)..])
            == Parsed(Parse(input).frames[k..], Parse(input).ending)
  {
    hide Parse;
    var parsed := Parse(input);
    var offset := OffsetOf(parsed.frames, k);
    if k == 0 {
      assert parsed.frames[..0] == [] && parsed.frames[0..] == parsed.frames;
      assert input[0..] == input;
    } else {
      ParseFrom(input, k - 1);
      OffsetStep(parsed.frames, k - 1);
      var before := OffsetOf(parsed.frames, k - 1);
      ParseTail(input[before..]);
      assert input[before..][2 + |parsed.frames[k - 1]|..] == input[offset..];
      assert parsed.frames[k - 1..][1..] == parsed.frames[k..];
    }
  }

  lemma ParseTail(input: seq<byte>)
    requires Parse(input).frames != []
    ensures var first := Parse(input).frames[0];
            && 2 + |first| <= |input|
            && input[2..2 + |first|] == first
            && DeclaredLength(input[0], input[1]) == |first|
            && Parse(input[2 + |first|..]) == Parsed(Parse(input).frames[1..], Parse(input).ending)
  {
    hide DeclaredLength, EncodeFrames, Render;
    FirstFrame(input);
    var length := DeclaredLength(input[0], input[1]);
    var rest := Parse(input[2 + length..]);
    assert ([input[2..2 + length]] + rest.frames)[1..] == rest.frames;
  }

  /** A parsed frame in front: what `Parse` does with it, once. */
  lemma FirstFrame(input: seq<byte>)
    requires Parse(input).frames != []
    ensures |input| >= 2
    ensures var length := DeclaredLength(input[0], input[1]);
            && 0 < length <= |input| - 2
            && var rest := Parse(input[2 + length..]);
               Parse(input) == Parsed([input[2..2 + length]] + rest.frames, rest.ending)
  {
    hide DeclaredLength, EncodeFrames, Render;
  }
}
