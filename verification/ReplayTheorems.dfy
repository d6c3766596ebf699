/** What the replayers promise together: chunking does not show, a short buffer costs only the tail, nothing is lost. */
module ReplayTheorems {
  import opened Bytes
  import opened BinaryFileFormat
  import opened BinaryFileCursors
  import opened Replay
  import opened ChunkedReplayers
  import opened ReplayReport

  lemma NothingJoined(chunks: seq<seq<byte>>)
    ensures Joined(chunks[..0]) == [] && chunks[..|chunks|] == chunks
  {
  }

  /** Pushes every chunk and finishes. */
  method PushAll<E>(setup: Setup<E>, scratch: array<byte>, chunks: seq<seq<byte>>)
    returns (summary: ReplaySummary, delivered: seq<E>)
    requires forall chunk <- chunks :: |chunk| <= MAX_U64
    modifies scratch
    ensures Conclude(setup, scratch.Length, Joined(chunks)) == Progress(summary, delivered, true)
  {
    hide Observe, Conclude, Parse, Joined;
    var replayer := new ChunkedReplayer(setup, scratch);
    NothingJoined(chunks);
    for i := 0 to |chunks|
      invariant replayer.Valid() && !replayer.finished && fresh(replayer) && replayer.setup == setup
      invariant fresh(replayer.cursor) && fresh(replayer.cursor.prefix) && replayer.cursor.scratch == scratch
      invariant replayer.pushed == Joined(chunks[..i])
    {
      assert chunks[..i + 1] == chunks[..i] + [chunks[i]];
      JoinedAppend(chunks[..i], chunks[i]);
      var _ := replayer.Push(chunks[i]);
    }
    summary := replayer.Finish();
    delivered := replayer.delivered;
  }

  /** Pushing any cut of a stream and finishing reports the fold over the whole stream. */
  method ReplayChunks<E>(setup: Setup<E>, scratch: array<byte>, chunks: seq<seq<byte>>)
    returns (summary: ReplaySummary, delivered: seq<E>)
    requires forall chunk <- chunks :: |chunk| <= MAX_U64
    modifies scratch
    ensures Conclude(setup, scratch.Length, Joined(chunks)) == Progress(summary, delivered, true)
    ensures Reports(setup, scratch.Length, Joined(chunks), true, Progress(summary, delivered, true))
    ensures var input := Joined(chunks);
            |input| <= MAX_U64 ==>
              (OneShot(setup, input) == Progress(summary, delivered, true)
               <==> Fits(setup, scratch.Length, Parse(input), |Announced(Parse(input))|))
  {
    hide Conclude, OneShot, Parse, Announced, Fits, Joined, Reports;
    summary, delivered := PushAll(setup, scratch, chunks);
    ObserveReports(setup, scratch.Length, Joined(chunks));
    AgreeWithinOffsets(setup, scratch.Length, Joined(chunks));
  }

  /** Every payload length a file announces, in order, its unfinished last one included. */
  function Announced(parsed: Parsed): (lengths: seq<nat>)
    ensures |parsed.frames| <= |lengths| <= |parsed.frames| + 1
  {
    seq(|parsed.frames|, i requires 0 <= i < |parsed.frames| => |parsed.frames[i]|)
    + if parsed.ending.ShortPayload? then [parsed.ending.declared] else []
  }

  /** The one-shot replay gets as far as announcement `k`: nothing before it stopped the replay. */
  predicate Reaches<E>(setup: Setup<E>, parsed: Parsed, k: nat) {
    k <= |parsed.frames| && !Play(setup, 65535, parsed.frames[..k]).halted
  }

  predicate Fits<E>(setup: Setup<E>, capacity: nat, parsed: Parsed, upTo: nat)
    requires upTo <= |Announced(parsed)|
  {
    forall k | 0 <= k < upTo && Reaches(setup, parsed, k) :: Announced(parsed)[k] <= capacity
  }

  lemma FrameFits<E>(setup: Setup<E>, capacity: nat, p: Progress<E>, payload: Payload)
    requires p.halted || |payload| <= capacity
    ensures AfterFrame(setup, capacity, p, payload) == AfterFrame(setup, 65535, p, payload)
  {
    hide DecodeOne;
  }

  /** As long as every announced length that is reached fits, the buffer makes no difference. */
  lemma {:induction false} PlayFits<E>(setup: Setup<E>, capacity: nat, parsed: Parsed, k: nat)
    requires k <= |parsed.frames| && Fits(setup, capacity, parsed, k)
    ensures Play(setup, capacity, parsed.frames[..k]) == Play(setup, 65535, parsed.frames[..k])
  {
    hide AfterFrame;
    if k > 0 {
      PlayFits(setup, capacity, parsed, k - 1);
      assert parsed.frames[..k] == parsed.frames[..k - 1] + [parsed.frames[k - 1]];
      PlayAppend(setup, capacity, parsed.frames[..k - 1], parsed.frames[k - 1]);
      PlayAppend(setup, 65535, parsed.frames[..k - 1], parsed.frames[k - 1]);
      assert Reaches(setup, parsed, k - 1) ==> Announced(parsed)[k - 1] <= capacity;
      FrameFits(setup, capacity, Play(setup, 65535, parsed.frames[..k - 1]), parsed.frames[k - 1]);
    }
  }

  /** Chunking invariance: with room for every length reached, any cut of the input replays as one shot. */
  lemma LargeScratch<E>(setup: Setup<E>, capacity: nat, input: seq<byte>)
    requires |input| <= MAX_U64
    requires Fits(setup, capacity, Parse(input), |Announced(Parse(input))|)
    ensures Conclude(setup, capacity, input) == OneShot(setup, input)
  {
    hide Parse, Play;
    var parsed := Parse(input);
    var n := |parsed.frames|;
    PlayFits(setup, capacity, parsed, n);
    assert parsed.frames[..n] == parsed.frames;
    if parsed.ending.ShortPayload? && Reaches(setup, parsed, n) {
      assert Announced(parsed)[n] == parsed.ending.declared;
    }
  }

  /**
   A short buffer costs the tail and nothing else: at the first announced length that is reached and
   does not fit, the replay ends, with the events before that frame and the offset of that frame.
   */
  lemma ShortScratch<E>(setup: Setup<E>, capacity: nat, input: seq<byte>, k: nat)
    requires |input| <= MAX_U64
    requires k < |Announced(Parse(input))| && Announced(Parse(input))[k] > capacity
    requires Reaches(setup, Parse(input), k) && Fits(setup, capacity, Parse(input), k)
    ensures var p := Play(setup, 65535, Parse(input).frames[..k]);
            && p.summary.bytesConsumed == OffsetOf(Parse(input).frames, k)
            && Conclude(setup, capacity, input)
               == FramingHalt(p, InsufficientScratch, OffsetOf(Parse(input).frames, k))
  {
    hide Parse, Play, EncodeFrames;
    var parsed := Parse(input);
    var before := parsed.frames[..k];
    PlayFits(setup, capacity, parsed, k);
    PlayConsumes(setup, 65535, before);
    if k < |parsed.frames| {
      PlayAppend(setup, capacity, before, parsed.frames[k]);
      PlaySticky(setup, capacity, before + [parsed.frames[k]], parsed.frames[k + 1..]);
      assert before + [parsed.frames[k]] + parsed.frames[k + 1..] == parsed.frames;
    } else {
      assert before == parsed.frames;
    }
  }

  /** Every stream and buffer falls under exactly one of the two theorems above. */
  lemma ScratchCases<E>(setup: Setup<E>, capacity: nat, input: seq<byte>)
    ensures var parsed := Parse(input);
            Fits(setup, capacity, parsed, |Announced(parsed)|)
            <==> !exists k :: && 0 <= k < |Announced(parsed)| && Announced(parsed)[k] > capacity
                              && Reaches(setup, parsed, k) && Fits(setup, capacity, parsed, k)
  {
    hide Parse, Play, Reaches, Announced;
    var parsed := Parse(input);
    var n := |Announced(parsed)|;
    if !Fits(setup, capacity, parsed, n) {
      var k := 0;
      while Reaches(setup, parsed, k) ==> Announced(parsed)[k] <= capacity
        invariant k < n && Fits(setup, capacity, parsed, k)
        invariant exists j :: k <= j < n && Reaches(setup, parsed, j) && Announced(parsed)[j] > capacity
        decreases n - k
      {
        k := k + 1;
      }
    }
  }

  /** No payload is longer than the one-shot replay can take, so its fold meets no framing error. */
  lemma {:induction false} PlayUnframed<E>(setup: Setup<E>, frames: seq<Payload>)
    ensures Play(setup, 65535, frames).summary.framingError == NoFramingError
  {
    hide DecodeOne;
    if frames != [] {
      PlayUnframed(setup, frames[..|frames| - 1]);
    }
  }

  /** A one-shot replay never runs out of scratch, since it needs none. */
  lemma OneShotNeedsNoScratch<E>(setup: Setup<E>, input: seq<byte>)
    requires |input| <= MAX_U64
    ensures OneShot(setup, input).summary.framingError != InsufficientScratch
  {
    hide Parse, Play;
    PlayUnframed(setup, Parse(input).frames);
  }

  /**
   The two replays agree exactly when every announced length that is reached fits the buffer. For one
   decoder and sink the condition follows the replay; `AgreeForAllSetups` has the one a caller can check.
   */
  lemma AgreeExactly<E>(setup: Setup<E>, capacity: nat, input: seq<byte>)
    requires |input| <= MAX_U64
    ensures Conclude(setup, capacity, input) == OneShot(setup, input)
            <==> Fits(setup, capacity, Parse(input), |Announced(Parse(input))|)
  {
    hide Parse, Play, Reaches, Announced, Conclude, Fits;
    var parsed := Parse(input);
    if Fits(setup, capacity, parsed, |Announced(parsed)|) {
      LargeScratch(setup, capacity, input);
    } else {
      ScratchCases(setup, capacity, input);
      var k :| && 0 <= k < |Announced(parsed)| && Announced(parsed)[k] > capacity
               && Reaches(setup, parsed, k) && Fits(setup, capacity, parsed, k);
      ShortScratch(setup, capacity, input, k);
      OneShotNeedsNoScratch(setup, input);
    }
  }

  lemma AgreeWithinOffsets<E>(setup: Setup<E>, capacity: nat, input: seq<byte>)
    ensures |input| <= MAX_U64 ==>
              (Conclude(setup, capacity, input) == OneShot(setup, input)
               <==> Fits(setup, capacity, Parse(input), |Announced(Parse(input))|))
  {
    if |input| <= MAX_U64 {
      AgreeExactly(setup, capacity, input);
    }
  }

  /** A decoder that skips everything reaches every announcement. */
  function SkipAll<E>(): Setup<E> {
    Setup(_ => Decline(UnknownSkipped, 0, 0), (_, _) => Continue)
  }

  lemma {:induction false} SkipAllNeverHalts<E>(frames: seq<Payload>)
    ensures !Play(SkipAll<E>(), 65535, frames).halted
  {
    if frames != [] {
      SkipAllNeverHalts<E>(frames[..|frames| - 1]);
    }
  }

  /** Whatever the decoder and the sink do, the replays agree, exactly when every announced length fits. */
  lemma AgreeForAllSetups<E>(capacity: nat, input: seq<byte>)
    requires |input| <= MAX_U64
    ensures (forall setup: Setup<E> :: Conclude(setup, capacity, input) == OneShot(setup, input))
            <==> forall length <- Announced(Parse(input)) :: length <= capacity
  {
    hide Parse, Play, Announced, Conclude, OneShot;
    var parsed := Parse(input);
    forall setup: Setup<E> | forall length <- Announced(parsed) :: length <= capacity
      ensures Conclude(setup, capacity, input) == OneShot(setup, input)
    {
      assert forall k | 0 <= k < |Announced(parsed)| :: Announced(parsed)[k] in Announced(parsed);
      LargeScratch(setup, capacity, input);
    }
    if !forall length <- Announced(parsed) :: length <= capacity {
      var k :| 0 <= k < |Announced(parsed)| && Announced(parsed)[k] > capacity;
      SkipAllNeverHalts<E>(parsed.frames[..if k < |parsed.frames| then k else |parsed.frames|]);
      AgreeExactly(SkipAll<E>(), capacity, input);
    }
  }

  /** One byte of payload and no scratch: the one-shot replay sees the frame, the chunked one stops before it. */
  lemma NoScratchAtAll<E>(setup: Setup<E>)
    ensures Conclude(setup, 0, [0, 1, 65]) == FramingHalt(Progress(EMPTY_SUMMARY, [], false), InsufficientScratch, 0)
    ensures Conclude(setup, 0, [0, 1, 65]) != OneShot(setup, [0, 1, 65])
  {
    hide OneShot;
    var input := [0, 1, 65];
    assert input[3..] == [] && input[2..3] == [65];
    assert Parse([]) == Parsed([], EndOfInput);
    assert Parse(input) == Parsed([[65]], EndOfInput);
    assert Play(setup, 0, []) == Progress(EMPTY_SUMMARY, [], false);
    assert Play(setup, 0, [[65]]) == AfterFrame(setup, 0, Play(setup, 0, [[65]][..0]), [65]);
    OneShotNeedsNoScratch(setup, input);
  }

  /** The bytes of a stream that a 64-bit offset can reach. */
  function Received(stream: seq<byte>): seq<byte> {
    if |stream| <= MAX_U64 then stream else stream[..MAX_U64]
  }

  /** The balance a replay keeps at every point: each frame seen is accounted for once, each event sent once. */
  predicate Balanced<E>(p: Progress<E>) {
    && p.summary.framesSeen == p.summary.eventsEmitted + p.summary.knownMessagesSkipped
                               + p.summary.unknownMessagesSkipped
                               + (if p.summary.status == ReplayDecodeError then 1 else 0)
    && |p.delivered| == p.summary.eventsEmitted
  }

  /** One more frame keeps the balance, and is counted if and only if it was decoded. */
  lemma FrameBalanced<E>(setup: Setup<E>, capacity: nat, p: Progress<E>, payload: Payload)
    requires Balanced(p)
    requires !p.halted ==> p.summary.status == ReplayIncomplete
    requires p.halted ==> !p.summary.status.ReplayIncomplete? && !p.summary.status.ReplayComplete?
    ensures var q := AfterFrame(setup, capacity, p, payload);
            && Balanced(q)
            && (p.halted ==> q == p)
            && (!q.halted ==> q.summary.status == ReplayIncomplete)
            && (q.halted ==> !q.summary.status.ReplayIncomplete? && !q.summary.status.ReplayComplete?)
            && (!p.halted && q.halted && q.summary.status == ReplayFramingError ==>
                  q.summary.framesSeen == p.summary.framesSeen && q.summary.bytesConsumed == p.summary.bytesConsumed)
            && (!p.halted && !(q.halted && q.summary.status == ReplayFramingError) ==>
                  && q.summary.framesSeen == p.summary.framesSeen + 1
                  && q.summary.bytesConsumed == p.summary.bytesConsumed + 2 + |payload|)
  {
  }

  lemma {:induction false} PlayBalanced<E>(setup: Setup<E>, capacity: nat, frames: seq<Payload>)
    ensures var p := Play(setup, capacity, frames);
            && Balanced(p)
            && p.summary.framesSeen <= |frames|
            && p.summary.bytesConsumed == OffsetOf(frames, p.summary.framesSeen)
            && (!p.halted ==> p.summary.framesSeen == |frames| && p.summary.status == ReplayIncomplete)
            && (p.halted ==> !p.summary.status.ReplayIncomplete? && !p.summary.status.ReplayComplete?)
            && (p.halted && p.summary.status == ReplayFramingError ==> p.summary.framesSeen < |frames|)
  {
    if frames != [] {
      hide OffsetOf, AfterFrame, Balanced;
      var n := |frames| - 1;
      var butLast, last := frames[..n], frames[n];
      PlayBalanced(setup, capacity, butLast);
      var p := Play(setup, capacity, butLast);
      FrameBalanced(setup, capacity, p, last);
      OffsetOfPrefix(frames, n, p.summary.framesSeen);
      OffsetStep(frames, n);
    }
  }

  lemma OffsetOfPrefix(frames: seq<Payload>, n: nat, k: nat)
    requires k <= n <= |frames|
    ensures OffsetOf(frames[..n], k) == OffsetOf(frames, k)
  {
    hide EncodeFrames;
    assert frames[..n][..k] == frames[..k];
  }

  /** The end marker counts once every frame before it has been decoded without stopping. */
  predicate PassedEndMarker<E>(parsed: Parsed, p: Progress<E>) {
    && parsed.ending.EndMarker?
    && p.summary.framesSeen == |parsed.frames|
    && p.summary.status != ReplayStopped
    && p.summary.status != ReplayDecodeError
  }

  /**
   Conservation, for every stream pushed so far and for every finished one: the frames are
   accounted for, and the bytes consumed are those of the frames seen and of the end marker.
   */
  lemma Conservation<E>(setup: Setup<E>, capacity: nat, stream: seq<byte>, p: Progress<E>)
    requires p == Observe(setup, capacity, stream) || p == Conclude(setup, capacity, stream)
    ensures Balanced(p)
    ensures var parsed := Parse(Received(stream));
            && p.summary.framesSeen <= |parsed.frames|
            && p.summary.bytesConsumed
               == OffsetOf(parsed.frames, p.summary.framesSeen) + (if PassedEndMarker(parsed, p) then 2 else 0)
            && p.summary.bytesConsumed <= |Received(stream)| <= MAX_U64
  {
    hide Parse, Play, EncodeFrames;
    var received := Received(stream);
    var parsed := Parse(received);
    PlayBalanced(setup, capacity, parsed.frames);
    AtEnding(received);
    OffsetMonotonic(parsed.frames, p.summary.framesSeen);
  }

  lemma {:induction false} OffsetMonotonic(frames: seq<Payload>, k: nat)
    requires k <= |frames|
    ensures OffsetOf(frames, k) <= OffsetOf(frames, |frames|)
    decreases |frames| - k
  {
    if k < |frames| {
      OffsetStep(frames, k);
      OffsetMonotonic(frames, k + 1);
    }
  }
}
