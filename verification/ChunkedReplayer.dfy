/**
 The generated `chunked_replayer`. Its whole visible state is a function of the concatenation of the
 chunks pushed so far, so no way of cutting a stream can be told from another.
 */
module ChunkedReplayers {
  import opened Bytes
  import opened BinaryFileFormat
  import opened BinaryFileCursors
  import opened ChunkedCursors
  import opened Replay
  import opened ReplayReport

  class ChunkedReplayer<E> {
    const setup: Setup<E>
    const cursor: ChunkedCursor
    var summary: ReplaySummary
    var delivered: seq<E>
    var terminal: bool

    ghost var pushed: seq<byte>
    ghost var finished: bool

    ghost predicate Valid()
      reads this, cursor, cursor.scratch, cursor.prefix
    {
      && cursor.Valid()
      && Progress(summary, delivered, terminal)
         == (if finished then Conclude(setup, cursor.scratch.Length, pushed)
             else Observe(setup, cursor.scratch.Length, pushed))
      && (finished ==> terminal)
      && (!terminal ==> !cursor.terminal && cursor.stream == pushed)
    }

    constructor (setup: Setup<E>, scratch: array<byte>)
      ensures Valid() && fresh(cursor) && fresh(cursor.prefix)
      ensures this.setup == setup && cursor.scratch == scratch
      ensures pushed == [] && !finished
    {
      this.setup := setup;
      cursor := new ChunkedCursor(scratch);
      summary, delivered, terminal := EMPTY_SUMMARY, [], false;
      pushed, finished := [], false;
    }

    /** What the replayer reports at any time, for all the bytes pushed so far. */
    lemma Says()
      requires Valid()
      ensures Reports(setup, cursor.scratch.Length, pushed, finished, Progress(summary, delivered, terminal))
    {
      hide Reports, Observe, Conclude;
      ObserveReports(setup, cursor.scratch.Length, pushed);
    }

    method Push(chunk: seq<byte>) returns (report: ReplaySummary)
      requires Valid() && |chunk| <= MAX_U64
      modifies this, cursor, cursor.scratch, cursor.prefix
      ensures Valid() && finished == old(finished) && report == summary
      ensures pushed == if finished then old(pushed) else old(pushed) + chunk
      ensures old(terminal) ==> summary == old(summary) && delivered == old(delivered) && terminal
    {
      hide Parse, Play, Seen, Observe, Conclude;
      ghost var capacity := cursor.scratch.Length;
      if terminal {
        if !finished {
          ObserveSticky(setup, capacity, pushed, chunk);
          pushed := pushed + chunk;
        }
        return summary;
      }

      var position := 0;
      ghost var start := pushed;
      assert start + chunk[..0] == start;
      while position != |chunk| && !terminal
        invariant position <= |chunk| && !finished
        invariant terminal ==> pushed == start + chunk
        invariant !terminal ==> pushed == start + chunk[..position]
        invariant Valid()
        decreases |chunk| - position, !terminal
      {
        var consumed := Step(chunk[position..]);
        if !terminal {
          assert chunk[..position + consumed] == chunk[..position] + chunk[position..][..consumed];
        } else {
          assert chunk == chunk[..position] + chunk[position..];
        }
        Associative(start, chunk[..position], chunk[position..][..consumed]);
        Associative(start, chunk[..position], chunk[position..]);
        position := position + consumed;
      }
      assert chunk[..|chunk|] == chunk;
      return summary;
    }

    /** One turn of the `push` loop: one call of the cursor and what it leads to. */
    method Step(rest: seq<byte>) returns (consumed: nat)
      requires Valid() && !terminal && 0 < |rest| <= MAX_U64
      modifies this, cursor, cursor.scratch, cursor.prefix
      ensures Valid() && finished == old(finished)
      ensures 0 < consumed <= |rest| || terminal
      ensures consumed <= |rest|
      ensures pushed == old(pushed) + if terminal then rest else rest[..consumed]
    {
      hide Parse, Play, Observe, Conclude, EncodeFrames, AfterFrame, FramingHalt, Render, EndingBytes;
      ghost var capacity, before := cursor.scratch.Length, cursor.frames;
      cursor.Understands();
      ObserveShort(setup, capacity, pushed);
      PlayConsumes(setup, capacity, before);
      var frame := cursor.Next(rest);
      cursor.Understands();
      ghost var received := cursor.stream;
      ObserveShort(setup, capacity, received);
      consumed := frame.inputConsumed;
      assert rest[..|rest|] == rest;
      Split(rest, consumed);
      Associative(pushed, rest[..consumed], rest[consumed..]);
      summary := summary.(bytesConsumed := cursor.Consumed());
      if frame.status == ChunkFrame {
        AcceptFrame(frame, before, rest[consumed..]);
      } else if frame.status == ChunkError {
        StopOn(frame, rest[consumed..]);
      }
      assert terminal ==> Progress(summary, delivered, terminal) == Observe(setup, capacity, pushed + rest);
      pushed := pushed + if terminal then rest else rest[..consumed];
    }

    /** A framing error settles the replay, whatever the rest of the chunk and later chunks hold. */
    method StopOn(frame: ChunkOutcome, ghost more: seq<byte>)
      requires cursor.Valid() && frame.status == ChunkError
      requires cursor.Reported(frame, cursor.frames, frame.inputConsumed + |more|)
      requires var p := Play(setup, cursor.scratch.Length, cursor.frames);
               && !p.halted && delivered == p.delivered
               && p.summary.bytesConsumed == |EncodeFrames(cursor.frames)|
               && summary == p.summary.(bytesConsumed := cursor.committed)
      modifies this`summary, this`terminal
      ensures terminal
      ensures Progress(summary, delivered, terminal)
              == Observe(setup, cursor.scratch.Length, cursor.stream + more)
    {
      hide Parse, Play, Observe, EncodeFrames;
      cursor.Understands();
      ghost var capacity := cursor.scratch.Length;
      ObserveShort(setup, capacity, cursor.stream);
      if frame.error == TrailingDataAfterEndMarker {
        ObserveTrailing(setup, capacity, cursor.stream, more);
      } else if frame.error == InsufficientScratch {
        ObserveSticky(setup, capacity, cursor.stream, more);
      } else {
        ObserveOverflow(setup, capacity, cursor.stream, more);
      }
      SetFramingError(frame);
    }

    /** A frame is decoded out of the scratch buffer, which holds it until the next call of the cursor. */
    method AcceptFrame(frame: ChunkOutcome, ghost before: seq<Payload>, ghost more: seq<byte>)
      requires cursor.Valid() && frame.status == ChunkFrame && !terminal
      requires cursor.Reported(frame, before, frame.inputConsumed + |more|)
      requires var p := Play(setup, cursor.scratch.Length, before);
               && !p.halted && delivered == p.delivered
               && p.summary.bytesConsumed == |EncodeFrames(before)|
               && summary == p.summary.(bytesConsumed := cursor.committed)
      modifies this`summary, this`delivered, this`terminal
      ensures Progress(summary, delivered, terminal)
              == Observe(setup, cursor.scratch.Length, if terminal then cursor.stream + more else cursor.stream)
    {
      hide Parse, Play, Observe, EncodeFrames, AfterFrame;
      ghost var capacity := cursor.scratch.Length;
      cursor.Understands();
      EncodeAppend(before, cursor.scratch[..frame.frame.length]);
      PlayAppend(setup, capacity, before, cursor.scratch[..frame.frame.length]);
      ObserveShort(setup, capacity, cursor.stream);
      var _ := DecodeFrame(frame.frame);
      if terminal {
        ObserveSticky(setup, capacity, cursor.stream, more);
      }
    }

    method DecodeFrame(frame: ScratchView) returns (goOn: bool)
      requires !terminal && frame.length <= cursor.scratch.Length
      requires summary.bytesConsumed == frame.fileOffset + 2 + frame.length
      modifies this`summary, this`delivered, this`terminal
      ensures goOn == !terminal
      ensures Progress(summary, delivered, terminal)
              == AfterFrame(setup, cursor.scratch.Length,
                            Progress(old(summary).(bytesConsumed := frame.fileOffset), old(delivered), false),
                            cursor.scratch[..frame.length])
      ensures var verdict := setup.decode(cursor.scratch[..frame.length]);
              && summary.framesSeen == old(summary.framesSeen) + 1
              && summary.eventsEmitted == old(summary.eventsEmitted) + (if verdict.Deliver? then 1 else 0)
              && summary.knownMessagesSkipped
                 == old(summary.knownMessagesSkipped) + (if DeclinesAs(verdict, KnownUnselectedSkipped) then 1 else 0)
              && summary.unknownMessagesSkipped
                 == old(summary.unknownMessagesSkipped) + (if DeclinesAs(verdict, UnknownSkipped) then 1 else 0)
              && (terminal <==> Refuses(verdict)
                                || (verdict.Deliver? && setup.sink(old(delivered), verdict.event) == Stop))
              && delivered == old(delivered) + if verdict.Deliver? then [verdict.event] else []
    {
      summary := summary.(framesSeen := summary.framesSeen + 1);
      var (outcome, received) := DecodeOne(setup, delivered, cursor.scratch[..frame.length]);
      delivered := received;
      goOn := true;
      if outcome.status == Emitted {
        summary := summary.(eventsEmitted := summary.eventsEmitted + 1);
      } else if outcome.status == KnownUnselectedSkipped {
        summary := summary.(knownMessagesSkipped := summary.knownMessagesSkipped + 1);
      } else if outcome.status == UnknownSkipped {
        summary := summary.(unknownMessagesSkipped := summary.unknownMessagesSkipped + 1);
      } else {
        if outcome.status == Stopped {
          summary := summary.(eventsEmitted := summary.eventsEmitted + 1, status := ReplayStopped);
        } else {
          summary := summary.(status := ReplayDecodeError, errorOffset := frame.fileOffset + 2,
                              decodeError := outcome);
        }
        terminal := true;
        goOn := false;
      }
    }

    method SetFramingError(frame: ChunkOutcome)
      modifies this`summary, this`terminal
      ensures terminal
      ensures summary == old(summary).(status := ReplayFramingError, errorOffset := frame.offset,
                                       framingError := frame.error)
    {
      summary := summary.(status := ReplayFramingError, errorOffset := frame.offset, framingError := frame.error);
      terminal := true;
    }

    method Finish() returns (report: ReplaySummary)
      requires Valid()
      modifies this, cursor, cursor.scratch, cursor.prefix
      ensures Valid() && finished && pushed == old(pushed) && report == summary
      ensures old(terminal) ==> summary == old(summary) && delivered == old(delivered)
    {
      hide Parse, Play, Observe, EncodeFrames;
      ghost var capacity := cursor.scratch.Length;
      if !terminal {
        cursor.Understands();
        ObserveShort(setup, capacity, pushed);
        PlayConsumes(setup, capacity, cursor.frames);
        var frame := cursor.Finish();
        summary := summary.(bytesConsumed := cursor.Consumed());
        if frame.status == ChunkComplete {
          summary := summary.(status := ReplayComplete);
          terminal := true;
        } else if frame.status == ChunkIncomplete {
          summary := summary.(status := ReplayIncomplete);
          terminal := true;
        } else {
          SetFramingError(frame);
        }
      }
      finished := true;
      return summary;
    }
  }

  lemma ObserveShort<E>(setup: Setup<E>, capacity: nat, stream: seq<byte>)
    requires |stream| <= MAX_U64
    ensures Observe(setup, capacity, stream) == Seen(setup, capacity, stream)
  {
  }
}
