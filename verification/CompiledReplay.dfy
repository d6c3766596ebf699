/** The two halves joined: a compiled decoder replaying a file in chunks delivers what the documents prescribe. */
module CompiledReplay {
  import opened Bytes
  import opened BinaryFileFormat
  import opened BinaryFileCursors
  import opened Sorting
  import opened SchemaModel
  import opened ValidatePipeline
  import opened FrontToBack
  import opened Emission
  import opened Replay
  import opened ReplayReport
  import opened ReplayTheorems
  import opened DocumentMeaning
  import opened Compiler
  import S = ValidateSchema

  /** The emitted decoder as a replay calls it. It never faults, so the other branch is never taken. */
  function DecoderOf(program: Program): seq<byte> -> Verdict<EventValue> {
    (payload: seq<byte>) =>
      match Run(program, payload)
      case Finished(verdict) => verdict
      case Fault => Decline(EmptyPayload, 0, 0)
  }

  lemma FrameDelivers<E>(setup: Setup<E>, capacity: nat, p: Progress<E>, payload: Payload)
    requires !p.halted
    ensures var q := AfterFrame(setup, capacity, p, payload);
            if q.summary.framesSeen == p.summary.framesSeen then q.delivered == p.delivered
            else
              && q.summary.framesSeen == p.summary.framesSeen + 1
              && q.delivered == p.delivered + match setup.decode(payload)
                                              case Deliver(event, _, _) => [event]
                                              case Decline(_, _, _) => []
  {
  }

  /** The sink has been given exactly the events of the frames seen, in order. */
  lemma {:induction false} PlayDelivers<E>(setup: Setup<E>, capacity: nat, frames: seq<Payload>)
    ensures var p := Play(setup, capacity, frames);
            p.summary.framesSeen <= |frames| && p.delivered == Events(setup.decode, frames[..p.summary.framesSeen])
  {
    hide AfterFrame, Balanced, OffsetOf;
    PlayBalanced(setup, capacity, frames);
    if frames != [] {
      var n := |frames| - 1;
      var butLast, last := frames[..n], frames[n];
      PlayDelivers(setup, capacity, butLast);
      PlayBalanced(setup, capacity, butLast);
      var p, q := Play(setup, capacity, butLast), Play(setup, capacity, frames);
      assert butLast[..p.summary.framesSeen] == frames[..p.summary.framesSeen];
      if p.halted {
        FrameBalanced(setup, capacity, p, last);
      } else {
        FrameDelivers(setup, capacity, p, last);
        assert frames[..n] == butLast && frames[..n + 1] == frames;
      }
    }
  }

  predicate AnswersPayloads<E>(decode: seq<byte> -> Verdict<E>, frames: seq<Payload>) {
    forall frame <- frames :: !(decode(frame).Decline? && decode(frame).status == EmptyPayload)
  }

  lemma {:induction false} PlayNeverEmpty<E>(setup: Setup<E>, capacity: nat, frames: seq<Payload>)
    requires AnswersPayloads(setup.decode, frames)
    ensures Play(setup, capacity, frames).summary.decodeError.status != EmptyPayload
  {
    if frames != [] {
      assert frames[|frames| - 1] in frames;
      PlayNeverEmpty(setup, capacity, frames[..|frames| - 1]);
    }
  }

  /** What the documents say of a payload that is not empty is never that it is empty. */
  lemma MeansNotEmpty(s: SchemaSource, ps: PipelineSource, payload: seq<byte>, verdict: Verdict<EventValue>)
    requires payload != [] && DocumentsMean(s, ps, payload, verdict)
    ensures !(verdict.Decline? && verdict.status == EmptyPayload)
  {
    hide Projects;
  }

  lemma FrameMeans(s: SchemaSource, ps: PipelineSource, generatorVersion: string, program: Program, payload: seq<byte>)
    requires CompiledTo(s, ps, generatorVersion, program)
    ensures DocumentsMean(s, ps, payload, DecoderOf(program)(payload))
    ensures payload != [] ==>
              !(DecoderOf(program)(payload).Decline? && DecoderOf(program)(payload).status == EmptyPayload)
  {
    hide CompiledTo, Run, DocumentsMean;
    CompiledDecoderMeansDocuments(s, ps, generatorVersion, program, payload);
    if payload != [] {
      MeansNotEmpty(s, ps, payload, DecoderOf(program)(payload));
    }
  }

  // ---- Why a replay ends before the last frame.

  ghost predicate StopsAt<E>(setup: Setup<E>, frames: seq<Payload>, k: nat)
    requires k < |frames|
  {
    var verdict := setup.decode(frames[k]);
    verdict.Deliver? && setup.sink(Events(setup.decode, frames[..k]), verdict.event) == Stop
  }

  predicate DeclinesWith<E>(verdict: Verdict<E>, size: nat, outcome: DecodeOutcome) {
    && verdict.Decline? && verdict.status != KnownUnselectedSkipped && verdict.status != UnknownSkipped
    && outcome == DecodeOutcome(verdict.status, verdict.messageType, verdict.expectedSize, size)
  }

  /** The sink stopped at the last frame seen, or the decoder declined it, or the next one does not fit. */
  ghost predicate EndsFor<E>(setup: Setup<E>, capacity: nat, frames: seq<Payload>, p: Progress<E>) {
    var n := p.summary.framesSeen;
    match p.summary.status
    case ReplayStopped => 0 < n <= |frames| && StopsAt(setup, frames, n - 1)
    case ReplayDecodeError =>
      && 0 < n <= |frames|
      && DeclinesWith(setup.decode(frames[n - 1]), |frames[n - 1]|, p.summary.decodeError)
    case ReplayFramingError =>
      n < |frames| && p.summary.framingError == InsufficientScratch && |frames[n]| > capacity
    case _ => false
  }

  lemma FrameEndsFor<E>(setup: Setup<E>, capacity: nat, p: Progress<E>, payload: Payload)
    requires !p.halted
    ensures var q := AfterFrame(setup, capacity, p, payload);
            q.halted ==>
              (var verdict := setup.decode(payload);
               match q.summary.status
               case ReplayStopped =>
                 && q.summary.framesSeen == p.summary.framesSeen + 1
                 && verdict.Deliver? && setup.sink(p.delivered, verdict.event) == Stop
               case ReplayDecodeError =>
                 && q.summary.framesSeen == p.summary.framesSeen + 1
                 && DeclinesWith(verdict, |payload|, q.summary.decodeError)
               case ReplayFramingError =>
                 && q.summary.framesSeen == p.summary.framesSeen
                 && q.summary.framingError == InsufficientScratch && |payload| > capacity
               case _ => false)
  {
  }

  lemma EndsForLonger<E>(setup: Setup<E>, capacity: nat, frames: seq<Payload>, last: Payload, p: Progress<E>)
    requires EndsFor(setup, capacity, frames, p)
    ensures EndsFor(setup, capacity, frames + [last], p)
  {
    var n := p.summary.framesSeen;
    if 0 < n <= |frames| {
      assert (frames + [last])[..n - 1] == frames[..n - 1];
    }
  }

  lemma {:induction false} PlayEndsFor<E>(setup: Setup<E>, capacity: nat, frames: seq<Payload>)
    ensures var p := Play(setup, capacity, frames);
            if p.halted then EndsFor(setup, capacity, frames, p) else p.summary.framesSeen == |frames|
  {
    hide AfterFrame, DeclinesWith;
    if frames != [] {
      var n := |frames| - 1;
      var butLast, last := frames[..n], frames[n];
      assert frames == butLast + [last];
      var p := Play(setup, capacity, butLast);
      PlayEndsFor(setup, capacity, butLast);
      PlayDelivers(setup, capacity, butLast);
      PlayBalanced(setup, capacity, frames);
      if p.halted {
        PlayBalanced(setup, capacity, butLast);
        FrameBalanced(setup, capacity, p, last);
        EndsForLonger(setup, capacity, butLast, last, p);
      } else {
        FrameEndsFor(setup, capacity, p, last);
        assert butLast[..n] == butLast && frames[..n] == butLast;
      }
    }
  }

  // ---- The two documents and the whole replay.

  /** A decoder that does with every payload what the documents say. */
  ghost predicate MeansDocuments(s: SchemaSource, ps: PipelineSource, decode: seq<byte> -> Verdict<EventValue>) {
    forall payload: seq<byte> :: DocumentsMean(s, ps, payload, decode(payload))
  }

  /** What a replay has delivered, and why it saw no more frames than it did. */
  ghost predicate Accounted(setup: Setup<EventValue>, capacity: nat, stream: seq<byte>, p: Progress<EventValue>) {
    var frames := Parse(Received(stream)).frames;
    && p.summary.framesSeen <= |frames|
    && p.delivered == Events(setup.decode, frames[..p.summary.framesSeen])
    && p.summary.decodeError.status != EmptyPayload
    && (p.summary.framesSeen < |frames| ==> EndsFor(setup, capacity, frames, p))
  }

  /** A report is the conclusion of the whole stream under a decoder that means the documents. */
  ghost predicate Prescribed(s: SchemaSource, ps: PipelineSource, sink: (seq<EventValue>, EventValue) -> Flow,
                             capacity: nat, stream: seq<byte>, p: Progress<EventValue>)
  {
    exists decode: seq<byte> -> Verdict<EventValue> ::
      && MeansDocuments(s, ps, decode)
      && p == Conclude(Setup(decode, sink), capacity, stream)
      && Reports(Setup(decode, sink), capacity, stream, true, p)
      && Accounted(Setup(decode, sink), capacity, stream, p)
  }

  lemma DecoderMeansDocuments(s: SchemaSource, ps: PipelineSource, generatorVersion: string, program: Program)
    requires CompiledTo(s, ps, generatorVersion, program)
    ensures MeansDocuments(s, ps, DecoderOf(program))
  {
    hide CompiledTo, DocumentsMean, DecoderOf;
    forall payload: seq<byte> ensures DocumentsMean(s, ps, payload, DecoderOf(program)(payload)) {
      FrameMeans(s, ps, generatorVersion, program, payload);
    }
  }

  /** At every point and at the end: the events the documents prescribe, and the reason for seeing no more frames. */
  lemma ReplayAccounted(s: SchemaSource, ps: PipelineSource, setup: Setup<EventValue>, capacity: nat,
                        stream: seq<byte>, p: Progress<EventValue>)
    requires MeansDocuments(s, ps, setup.decode)
    requires p == Observe(setup, capacity, stream) || p == Conclude(setup, capacity, stream)
    ensures Accounted(setup, capacity, stream, p)
  {
    hide DocumentsMean, Parse, Play, Events, EndsFor;
    var frames := Parse(Received(stream)).frames;
    forall frame | frame in frames
      ensures !(setup.decode(frame).Decline? && setup.decode(frame).status == EmptyPayload)
    {
      MeansNotEmpty(s, ps, frame, setup.decode(frame));
    }
    PlayDelivers(setup, capacity, frames);
    PlayNeverEmpty(setup, capacity, frames);
    PlayEndsFor(setup, capacity, frames);
  }

  lemma CompiledReplayPrescribed(s: SchemaSource, ps: PipelineSource, generatorVersion: string, program: Program,
                                 sink: (seq<EventValue>, EventValue) -> Flow, capacity: nat, stream: seq<byte>)
    requires CompiledTo(s, ps, generatorVersion, program)
    ensures var setup := Setup(DecoderOf(program), sink);
            && MeansDocuments(s, ps, setup.decode)
            && Accounted(setup, capacity, stream, Observe(setup, capacity, stream))
            && Prescribed(s, ps, sink, capacity, stream, Conclude(setup, capacity, stream))
  {
    hide CompiledTo, MeansDocuments, Accounted, DecoderOf, Conclude, Observe, Reports;
    var setup := Setup(DecoderOf(program), sink);
    DecoderMeansDocuments(s, ps, generatorVersion, program);
    ReplayAccounted(s, ps, setup, capacity, stream, Observe(setup, capacity, stream));
    ReplayAccounted(s, ps, setup, capacity, stream, Conclude(setup, capacity, stream));
    ObserveReports(setup, capacity, stream);
  }

  lemma {:induction false} PlayDependsOnVerdicts<E>(a: Setup<E>, b: Setup<E>, capacity: nat, frames: seq<Payload>)
    requires a.sink == b.sink && forall payload :: a.decode(payload) == b.decode(payload)
    ensures Play(a, capacity, frames) == Play(b, capacity, frames)
  {
    if frames != [] {
      PlayDependsOnVerdicts(a, b, capacity, frames[..|frames| - 1]);
    }
  }

  lemma ConcludeDependsOnVerdicts<E>(a: Setup<E>, b: Setup<E>, capacity: nat, stream: seq<byte>)
    requires a.sink == b.sink && forall payload :: a.decode(payload) == b.decode(payload)
    ensures Conclude(a, capacity, stream) == Conclude(b, capacity, stream)
  {
    hide Parse, Play;
    PlayDependsOnVerdicts(a, b, capacity, Parse(Received(stream)).frames);
  }

  /** The documents, the sink, the buffer and the stream determine the report: no field of it is left open. */
  lemma ReportDetermined(s: SchemaSource, ps: PipelineSource, sink: (seq<EventValue>, EventValue) -> Flow,
                         capacity: nat, stream: seq<byte>, p: Progress<EventValue>, q: Progress<EventValue>)
    requires BothAccepted(s, ps)
    requires Prescribed(s, ps, sink, capacity, stream, p) && Prescribed(s, ps, sink, capacity, stream, q)
    ensures p == q
  {
    hide BothAccepted, DocumentsMean, Accounted, Conclude, Reports;
    var d: seq<byte> -> Verdict<EventValue> :|
      MeansDocuments(s, ps, d) && p == Conclude(Setup(d, sink), capacity, stream);
    var e: seq<byte> -> Verdict<EventValue> :|
      MeansDocuments(s, ps, e) && q == Conclude(Setup(e, sink), capacity, stream);
    DistinctInDocuments(s, ps);
    forall payload: seq<byte> ensures d(payload) == e(payload) {
      DocumentsDetermine(s, ps, payload, d(payload), e(payload));
    }
    ConcludeDependsOnVerdicts(Setup(d, sink), Setup(e, sink), capacity, stream);
  }

  lemma DistinctInDocuments(s: SchemaSource, ps: PipelineSource)
    requires BothAccepted(s, ps)
    ensures DistinctKeys(ps.projections, PROJECTION_SOURCE)
    ensures forall m <- s.messages :: DistinctKeys(m.fields, S.SOURCE_FIELD_NAME)
  {
    hide S.SchemaAccepted, DistinctKeys, MessageSound, ProjectionAccepted, HeaderAccepted, NamespaceAccepted;
    forall m | m in s.messages ensures DistinctKeys(m.fields, S.SOURCE_FIELD_NAME) {
      MessageFacts(s, m);
    }
  }

  /**
   End to end: compiling two documents and pushing a file in any chunks reports the conclusion of the whole
   file under the decoder that the documents describe.
   */
  method ReplayCompiled(s: SchemaSource, ps: PipelineSource, generatorVersion: string,
                        sink: (seq<EventValue>, EventValue) -> Flow, scratch: array<byte>, chunks: seq<seq<byte>>)
    returns (r: Option<(ReplaySummary, seq<EventValue>)>)
    requires generatorVersion != "" && forall chunk <- chunks :: |chunk| <= MAX_U64
    modifies scratch
    ensures r.Some? <==> Compilable(s, ps)
    ensures r.Some? ==>
              Prescribed(s, ps, sink, scratch.Length, Joined(chunks), Progress(r.value.0, r.value.1, true))
  {
    hide CompiledTo, Compilable, Prescribed, Conclude, OneShot, Fits, DecoderOf, Run;
    r := None;
    var program := Compile(s, ps, generatorVersion);
    if program.Some? {
      var setup := Setup(DecoderOf(program.value), sink);
      var summary, delivered := ReplayChunks(setup, scratch, chunks);
      CompiledReplayPrescribed(s, ps, generatorVersion, program.value, sink, scratch.Length, Joined(chunks));
      r := Some((summary, delivered));
    }
  }
}
