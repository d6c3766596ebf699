/** The one-shot cursor and the writer on short files: every status, every error and every offset in its place. */
module FramingRuns {
  import opened Bytes
  import opened BinaryFileFormat
  import opened BinaryFileCursors
  import opened BinaryFileWriter

  /** Two payloads, the end marker, and a byte behind it. */
  const FILE: seq<byte> := [0, 2, 0x41, 0x42, 0, 1, 0x43, 0, 0, 9]

  lemma FileParsed()
    ensures Parse(FILE) == Parsed([[0x41, 0x42], [0x43]], EndMarker([9]))
    ensures OffsetOf(Parse(FILE).frames, 1) == 4 && OffsetOf(Parse(FILE).frames, 2) == 7
    ensures |EncodeFrames(Parse(FILE).frames)| == 7
  {
    hide Parse;
    var frames: seq<Payload> := [[0x41, 0x42], [0x43]];
    ParseRender(Parsed(frames, EndMarker([9])));
    assert frames[1..] == [[0x43]] && [[0x43]][1..] == [];
    assert EncodeFrames([]) == [];
    assert EncodeFrames([[0x43]]) == [0, 1, 0x43] + EncodeFrames([]);
    assert EncodeFrames(frames) == [0, 2, 0x41, 0x42] + EncodeFrames([[0x43]]);
    assert Render(Parsed(frames, EndMarker([9]))) == FILE;
    OffsetStep(frames, 0);
    OffsetStep(frames, 1);
    assert frames[..0] == [] && frames[..2] == frames;
  }

  /** A length is two bytes, the higher one first. */
  lemma LengthBytes()
    ensures DeclaredLength(1, 2) == 258 && Prefix(258) == [1, 2] && DeclaredLength(0xFF, 0xFF) == 65535
  {
  }

  /** The writer's file for two payloads, complete or not; the one too long for a prefix is refused. */
  method WriterOnTwo(long: seq<byte>) returns (complete: seq<byte>, open: seq<byte>, refused: bool)
    requires |long| == 65536
    ensures complete == [0, 2, 0x41, 0x42, 0, 1, 0x43, 0, 0] && open == [0, 2, 0x41, 0x42, 0, 1, 0x43]
    ensures refused
  {
    var payloads: seq<seq<byte>> := [[0x41, 0x42], [0x43]];
    var a := BinaryFile(payloads, true);
    var b := BinaryFile(payloads, false);
    assert WrittenFrames([[0x43]][1..]) == [] && payloads[1..] == [[0x43]];
    assert WrittenFrames([[0x43]]) == [0, 1, 0x43];
    assert WrittenFrames(payloads) == [0, 2, 0x41, 0x42, 0, 1, 0x43];
    complete, open := a.value, b.value;
    var c := BinaryFile([long], true);
    assert long in [long];
    refused := c.None?;
  }

  /** Five calls of the one-shot cursor on the file. */
  method CursorOnFile() returns (outcomes: seq<FrameOutcome>, rest: seq<byte>, consumed: nat)
    ensures outcomes == [
              FrameOutcome(Frame, NoFramingError, FrameView([0x41, 0x42], 0, 0), 0),
              FrameOutcome(Frame, NoFramingError, FrameView([0x43], 4, 1), 4),
              FrameOutcome(Complete, NoFramingError, FrameView([], 0, 0), 7),
              FrameOutcome(Complete, NoFramingError, FrameView([], 0, 0), 7)]
    ensures rest == [9] && consumed == 9
  {
    hide Parse, EncodeFrames, OffsetOf;
    FileParsed();
    var cursor := new BinaryFileCursor(FILE);
    assert OffsetOf(Parse(FILE).frames, 0) == 0 by {
      StartsAtZero(Parse(FILE).frames);
    }
    var a := cursor.Next();
    var b := cursor.Next();
    var c := cursor.Next();
    var d := cursor.Next();
    outcomes := [a, b, c, d];
    rest := cursor.Remaining();
    consumed := cursor.Consumed();
  }

  lemma StartsAtZero(frames: seq<Payload>)
    ensures OffsetOf(frames, 0) == 0
  {
    assert frames[..0] == [];
  }

  /** One call on files that end early. */
  method CursorOnShortFiles() returns (empty: FrameOutcome, prefix: FrameOutcome, payload: FrameOutcome)
    ensures empty == FrameOutcome(Incomplete, NoFramingError, FrameView([], 0, 0), 0)
    ensures prefix == FrameOutcome(Error, TruncatedLengthPrefix, FrameView([], 0, 0), 0)
    ensures payload == FrameOutcome(Error, TruncatedPayload, FrameView([], 0, 0), 0)
  {
    assert Parse([]) == Parsed([], EndOfInput) && Parse([7]) == Parsed([], LonePrefixByte(7));
    assert [0, 2, 0x41][2..] == [0x41] && DeclaredLength(0, 2) == 2;
    assert Parse([0, 2, 0x41]) == Parsed([], ShortPayload(2, [0x41]));
    var a := new BinaryFileCursor([]);
    empty := a.Next();
    var b := new BinaryFileCursor([7]);
    prefix := b.Next();
    var c := new BinaryFileCursor([0, 2, 0x41]);
    payload := c.Next();
  }
}
