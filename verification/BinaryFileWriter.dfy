/** The `binary_file` writer of the conformance bundle, and what a reader makes of its output. */
module BinaryFileWriter {
  import opened Bytes
  import opened BinaryFileFormat

  function WrittenFrames(payloads: seq<seq<byte>>): seq<byte>
    requires forall p <- payloads :: |p| <= 65535
  {
    if payloads == [] then [] else Prefix(|payloads[0]|) + payloads[0] + WrittenFrames(payloads[1..])
  }

  function Written(payloads: seq<seq<byte>>, complete: bool): seq<byte>
    requires forall p <- payloads :: |p| <= 65535
  {
    WrittenFrames(payloads) + if complete then Prefix(0) else []
  }

  /** Writes length-prefixed payloads; a payload too long for its prefix is refused (the `ValueError`). */
  method BinaryFile(payloads: seq<seq<byte>>, complete: bool) returns (file: Option<seq<byte>>)
    ensures file.Some? <==> forall p <- payloads :: |p| <= 65535
    ensures file.Some? ==> file.value == Written(payloads, complete)
  {
    var output := [];
    for i := 0 to |payloads|
      invariant forall k | 0 <= k < i :: |payloads[k]| <= 65535
      invariant output == WrittenFrames(payloads[..i])
    {
      if |payloads[i]| > 65535 {
        return None;
      }
      WrittenAppend(payloads[..i], payloads[i]);
      assert payloads[..i + 1] == payloads[..i] + [payloads[i]];
      output := output + Prefix(|payloads[i]|);
      output := output + payloads[i];
    }
    assert payloads[..|payloads|] == payloads;
    if complete {
      output := output + [0, 0];
    }
    assert Prefix(0) == [0, 0];
    return Some(output);
  }

  lemma {:induction false} WrittenAppend(payloads: seq<seq<byte>>, payload: seq<byte>)
    requires (forall p <- payloads :: |p| <= 65535) && |payload| <= 65535
    ensures WrittenFrames(payloads + [payload]) == WrittenFrames(payloads) + Prefix(|payload|) + payload
  {
    hide Prefix;
    if payloads == [] {
      assert WrittenFrames([payload]) == Prefix(|payload|) + payload + WrittenFrames([]);
    } else {
      assert (payloads + [payload])[1..] == payloads[1..] + [payload];
      WrittenAppend(payloads[1..], payload);
    }
  }

  /** On payloads a frame can hold, the writer is the encoder of the grammar. */
  lemma {:induction false} WrittenIsEncoded(payloads: seq<Payload>)
    ensures WrittenFrames(payloads) == EncodeFrames(payloads)
  {
    if payloads != [] {
      WrittenIsEncoded(payloads[1..]);
    }
  }

  /** An empty payload is written as the end marker, which is all a reader can see in it. */
  lemma {:induction false} EmptyPayloadEndsFile(payloads: seq<seq<byte>>, complete: bool, k: nat)
    requires forall p <- payloads :: |p| <= 65535
    requires k < |payloads| && payloads[k] == [] && forall i | 0 <= i < k :: payloads[i] != []
    ensures Parse(Written(payloads, complete))
            == Parsed(payloads[..k], EndMarker(Written(payloads[k + 1..], complete)))
  {
    hide Prefix, Parse;
    var file := Written(payloads, complete);
    if k == 0 {
      var rest := Written(payloads[1..], complete);
      assert file == Prefix(0) + rest;
      ParseEnding(EndMarker(rest));
    } else {
      var rest := Written(payloads[1..], complete);
      EmptyPayloadEndsFile(payloads[1..], complete, k - 1);
      var frame: Payload := payloads[0];
      assert file == EncodeFrame(frame) + rest;
      ParseFrame(frame, rest);
      assert payloads[1..][..k - 1] == payloads[1..k] && payloads[1..][k..] == payloads[k + 1..];
      assert payloads[..k] == [frame] + payloads[1..k];
    }
  }

  /** The smallest file that is not read back: one empty payload becomes a complete, empty file. */
  lemma EmptyPayloadIsLost()
    ensures Parse(Written([[]], false)) == Parsed([], EndMarker([]))
  {
    hide Parse;
    EmptyPayloadEndsFile([[]], false, 0);
    assert Written([[]][1..], false) == [];
  }

  lemma WrittenRoundTrip(payloads: seq<Payload>, complete: bool)
    ensures Parse(Written(payloads, complete))
            == Parsed(payloads, if complete then EndMarker([]) else EndOfInput)
  {
    WrittenIsEncoded(payloads);
    var parsed := Parsed(payloads, if complete then EndMarker([]) else EndOfInput);
    assert Written(payloads, complete) == Render(parsed);
    ParseRender(parsed);
  }

  /**
   Round trip, with its exact condition: a reader gets back the payloads that were written, and the
   ending asked for, if and only if no payload was empty.
   */
  lemma RoundTrip(payloads: seq<seq<byte>>, complete: bool)
    requires forall p <- payloads :: |p| <= 65535
    ensures [] !in payloads
            <==> && Parse(Written(payloads, complete)).frames == payloads
                 && Parse(Written(payloads, complete)).ending == if complete then EndMarker([]) else EndOfInput
  {
    hide Written, Parse;
    if [] in payloads {
      var k := FirstEmpty(payloads);
      EmptyPayloadEndsFile(payloads, complete, k);
    } else {
      WrittenRoundTrip(payloads, complete);
    }
  }

  lemma FirstEmpty(payloads: seq<seq<byte>>) returns (k: nat)
    requires [] in payloads
    ensures k < |payloads| && payloads[k] == [] && forall i | 0 <= i < k :: payloads[i] != []
  {
    k := 0;
    while payloads[k] != []
      invariant k < |payloads| && forall i | 0 <= i < k :: payloads[i] != []
      invariant exists i :: k <= i < |payloads| && payloads[i] == []
      decreases |payloads| - k
    {
      k := k + 1;
    }
  }

  /** Conversely, any file on which a reader completes is the encoding of what it read. */
  lemma CompletedFile(input: seq<byte>)
    requires Parse(input).ending.EndMarker?
    ensures input == Written(Parse(input).frames, true) + Parse(input).ending.trailing
  {
    RenderParse(input);
    WrittenIsEncoded(Parse(input).frames);
  }
}
