/** The smallest pair of documents that compiles: what is proved of accepted documents is not said of none. */
module SmallestPair {
  import opened Bytes
  import opened Sorting
  import opened SchemaModel
  import opened ValidatePipeline
  import opened Backend
  import opened FrontToBack
  import opened Compiler
  import opened DecoderNames
  import opened DocumentMeaning
  import opened Emission
  import opened Replay
  import S = ValidateSchema

  const KIND_SOURCE := FieldSource("x", "alpha", 0, 1, Some("discriminator"), Some("A"), [])
  const PRICE_SOURCE := FieldSource("y", "u16", 1, 2, None, None, [])
  const MESSAGE_SOURCE := MessageSource("x", "A", 3, [KIND_SOURCE, PRICE_SOURCE])
  const SCHEMA_SOURCE := SchemaSource(1, "x", "1", "1", "big", 0, 1, [], [MESSAGE_SOURCE])
  const EMIT_SOURCE := ProjectionSource("A", "z", ["*"])
  const PIPELINE_SOURCE :=
    PipelineSource(1, "x", "x", "x", "portable_checked", "skip", "skip", [EMIT_SOURCE])

  /** The same pipeline with the one event name that only the emitter refuses. */
  const RENAMED_EMIT := EMIT_SOURCE.(event := "chunked_replayer")
  const RENAMED_PIPELINE := PIPELINE_SOURCE.(projections := [RENAMED_EMIT])

  /** And with an event called like a parameter of the decoder that is emitted for it. */
  const HIDDEN_EMIT := EMIT_SOURCE.(event := "sink")
  const HIDDEN_PIPELINE := PIPELINE_SOURCE.(projections := [HIDDEN_EMIT])

  /** And with the word for unknown messages that the shipped pipelines use. */
  const STRICT_PIPELINE := PIPELINE_SOURCE.(unknownMessages := "error")

  const KIND := Field("x", "alpha", AsciiBytes, Some(Ascii), 0, 1, None, true, false)
  const PRICE := Field("y", "u16", UnsignedInteger, Some(RawUnsigned), 1, 2, None, false, true)
  const MESSAGE := Message("x", 0x41, 3, [KIND, PRICE])

  lemma NamesValid()
    ensures IsValidSourceName("x") && IsValidSourceName("y") && IsValidSourceName("z")
    ensures IsValidNamespaceComponent("x")
  {
  }

  lemma KindResolves()
    ensures S.ResolveField([], "A", KIND_SOURCE) == Some(KIND)
  {
    hide IsValidSourceName;
    NamesValid();
    assert IsBuiltinName("alpha");
  }

  lemma PriceResolves()
    ensures S.ResolveField([], "A", PRICE_SOURCE) == Some(PRICE)
  {
    hide IsValidSourceName;
    NamesValid();
    assert IsBuiltinName("u16");
  }

  lemma FieldsTile()
    ensures S.ExactCover([KIND, PRICE], 3)
  {
    assert S.Consecutive([KIND, PRICE], 1, 1);
    S.ConsecutiveIsExact([KIND, PRICE], 3);
  }

  lemma FieldsResolve()
    ensures S.FieldsAccepted([], MESSAGE_SOURCE)
    ensures S.ResolvedFields([], MESSAGE_SOURCE) == [KIND, PRICE]
  {
    hide S.ResolveField;
    KindResolves();
    PriceResolves();
    var fields := MESSAGE_SOURCE.fields;
    assert fields == [KIND_SOURCE, PRICE_SOURCE] && KIND_SOURCE in fields;
    assert S.ResolvedFields([], MESSAGE_SOURCE)[0] == KIND && S.ResolvedFields([], MESSAGE_SOURCE)[1] == PRICE;
  }

  lemma SchemaAccepted()
    ensures S.SchemaAccepted(SCHEMA_SOURCE)
  {
    hide IsValidSourceName, S.FieldsAccepted, S.ExactCover, S.ResolvedFields;
    NamesValid();
    FieldsResolve();
    FieldsTile();
    assert S.ResolvedTypes(SCHEMA_SOURCE) == [];
  }

  lemma FieldsSorted()
    ensures SortBy([KIND, PRICE], FIELD_KEY) == [KIND, PRICE]
  {
    hide SortBy, NameKey;
    var fields := [KIND, PRICE];
    assert FIELD_KEY(fields[0])[0] == 0 && FIELD_KEY(fields[1])[0] == 1;
    assert Below(FIELD_KEY(fields[0]), FIELD_KEY(fields[1]));
    SortOfSorted(fields, FIELD_KEY);
  }

  lemma MessageResolves()
    ensures S.ResolveMessage([], MESSAGE_SOURCE) == MESSAGE
  {
    hide S.ResolvedFields, SortBy, S.FieldsAccepted;
    FieldsResolve();
    FieldsSorted();
  }

  lemma SchemaResolves()
    ensures S.ResolveSchema(SCHEMA_SOURCE).messages == [MESSAGE] && S.ResolveSchema(SCHEMA_SOURCE).name == "x"
  {
    hide S.ResolveMessage, SortBy;
    MessageResolves();
    assert S.ResolvedTypes(SCHEMA_SOURCE) == [];
    SortOfSorted([MESSAGE], MESSAGE_KEY);
    assert Map(m => S.ResolveMessage([], m), SCHEMA_SOURCE.messages) == [MESSAGE];
  }

  lemma RenamedValid()
    ensures IsValidSourceName("chunked_replayer") && !IsGeneratedPipelineDeclaration("chunked_replayer")
  {
  }

  lemma ProjectionIsAccepted(schema: Schema)
    requires schema.messages == [MESSAGE]
    ensures ProjectionAccepted(schema, EMIT_SOURCE) && ProjectionAccepted(schema, RENAMED_EMIT)
    ensures ProjectionAccepted(schema, HIDDEN_EMIT)
  {
    hide IsValidSourceName, IsGeneratedPipelineDeclaration;
    NamesValid();
    RenamedValid();
    PlainEventName();
    assert FindMessage([MESSAGE], 0x41) == Some(MESSAGE);
    assert PRICE in ProjectableOf([KIND, PRICE]) && KIND !in ProjectableOf([KIND, PRICE]);
  }

  lemma PlainEventName()
    ensures !IsGeneratedPipelineDeclaration("z") && !IsGeneratedPipelineDeclaration("sink")
    ensures IsValidSourceName("sink")
  {
  }

  lemma NamespaceIsAccepted()
    ensures NamespaceAccepted("x")
  {
    hide IsValidNamespaceComponent;
    NamesValid();
    assert Components("x", 0) == ["x"];
  }

  /** There are documents that compile, and an event may be called like a parameter of its decoder. */
  lemma SmallestPairCompiles()
    ensures Compilable(SCHEMA_SOURCE, PIPELINE_SOURCE) && Compilable(SCHEMA_SOURCE, HIDDEN_PIPELINE)
    ensures Compilable(SCHEMA_SOURCE, PIPELINE_SOURCE.(unknownMessages := "error"))
  {
    hide IsValidSourceName, S.SchemaAccepted, S.ResolveSchema, ProjectionAccepted, NamespaceAccepted;
    NamesValid();
    SchemaAccepted();
    SchemaResolves();
    ProjectionIsAccepted(S.ResolveSchema(SCHEMA_SOURCE));
    NamespaceIsAccepted();
  }

  /** The front end accepts an event called `chunked_replayer` and the emitter then refuses it. */
  lemma RenamedPairStopsAtEmitter()
    ensures BothAccepted(SCHEMA_SOURCE, RENAMED_PIPELINE)
    ensures !IrValid(Compiled(SCHEMA_SOURCE, RENAMED_PIPELINE, "1"))
  {
    hide IsValidSourceName, S.SchemaAccepted, S.ResolveSchema, ProjectionAccepted, NamespaceAccepted, IrValid;
    hide Lowered, ResolvePipeline;
    NamesValid();
    SchemaAccepted();
    SchemaResolves();
    ProjectionIsAccepted(S.ResolveSchema(SCHEMA_SOURCE));
    NamespaceIsAccepted();
    FrontEndImpliesBackEnd(SCHEMA_SOURCE, RENAMED_PIPELINE, "1");
    assert RENAMED_EMIT in RENAMED_PIPELINE.projections;
  }

  /** The pair whose event is called `sink` passes every check, and in its decoder the name finds the parameter. */
  lemma HiddenPairIsEmitted()
    ensures var ir := Compiled(SCHEMA_SOURCE, HIDDEN_PIPELINE, "1"); IrValid(ir) && !NamesMean(ir)
  {
    hide IsValidSourceName, S.SchemaAccepted, S.ResolveSchema, ProjectionAccepted, NamespaceAccepted, IrValid;
    hide Lowered, ResolvePipeline, NamesMean, ResolveProjection;
    var ir := Compiled(SCHEMA_SOURCE, HIDDEN_PIPELINE, "1");
    SmallestPairCompiles();
    FrontEndImpliesBackEnd(SCHEMA_SOURCE, HIDDEN_PIPELINE, "1");
    KeptByLowering(SCHEMA_SOURCE, HIDDEN_PIPELINE, "1");
    EventOfProjection(S.ResolveSchema(SCHEMA_SOURCE), HIDDEN_PIPELINE, HIDDEN_EMIT);
    assert ResolveProjection(S.ResolveSchema(SCHEMA_SOURCE), HIDDEN_EMIT).event == "sink" by {
      ProjectedName(S.ResolveSchema(SCHEMA_SOURCE), HIDDEN_EMIT);
    }
    NamesMeanExactly(ir);
    assert !IsSafeEventName("sink");
  }

  lemma ProjectedName(schema: Schema, p: ProjectionSource)
    ensures ResolveProjection(schema, p).event == p.event
  {
  }

  // ---- What the decoder of the smallest pair does.

  /** The one event of a message `A`: its two bytes as a number, the first byte first. */
  function Delivered(payload: seq<byte>): Verdict<EventValue>
    requires |payload| == 3
  {
    Deliver(EventValue("z", [("y", Scalar(CppUnsigned(2), (payload[1] as nat) * 256 + payload[2] as nat))]), 0x41, 3)
  }

  /** The decoder for a payload, with the status it gives an unknown message. */
  function Expected(payload: seq<byte>, unknown: Declined): Verdict<EventValue> {
    if payload == [] then Decline(EmptyPayload, 0, 0)
    else if payload[0] != 0x41 then Decline(unknown, payload[0], 0)
    else if |payload| != 3 then Decline(InvalidMessageSize, 0x41, 3)
    else Delivered(payload)
  }

  lemma PriceFromField(payload: seq<byte>)
    requires |payload| == 3
    ensures FromField([], ("y", Scalar(CppUnsigned(2), (payload[1] as nat) * 256 + payload[2] as nat)), PRICE_SOURCE,
                      payload)
  {
    var bytes := payload[1..3];
    assert bytes[..1][..0] == [] && bytes[..1] == [payload[1]];
    assert BigEndian([]) == 0 && BigEndian(bytes[..1]) == payload[1];
    assert BigEndian(bytes) == (payload[1] as nat) * 256 + payload[2] as nat;
  }

  lemma DeliveredMeans(payload: seq<byte>)
    requires |payload| == 3
    ensures Projects([], MESSAGE_SOURCE, ["*"], payload, Delivered(payload).event.fields)
  {
    hide FromField;
    var values := Delivered(payload).event.fields;
    PriceFromField(payload);
    assert PRICE_SOURCE in MESSAGE_SOURCE.fields;
    assert Grounded([], values[0], MESSAGE_SOURCE.fields, payload);
    forall f | f in MESSAGE_SOURCE.fields && Projectable(f) ensures Present([], values, f, payload) {
      assert f == PRICE_SOURCE && values[0] in values;
    }
  }

  lemma IsDelivered(payload: seq<byte>)
    requires |payload| == 3
    ensures var d := Delivered(payload);
            d.Deliver? && d.messageType == 0x41 && d.expectedSize == 3 && d.event.event == "z"
  {
  }

  lemma ExpectedMeans(ps: PipelineSource, unknown: Declined, payload: seq<byte>)
    requires || (ps == PIPELINE_SOURCE && unknown == UnknownSkipped)
             || (ps == STRICT_PIPELINE && unknown == UnknownMessageType)
    ensures DocumentsMean(SCHEMA_SOURCE, ps, payload, Expected(payload, unknown))
  {
    hide Projects, Delivered;
    if |payload| == 3 {
      DeliveredMeans(payload);
      IsDelivered(payload);
    }
    assert EMIT_SOURCE in ps.projections && EMIT_SOURCE.source == MESSAGE_SOURCE.code;
    assert IsProjected(ps, MESSAGE_SOURCE);
    assert S.CodeByte("A") == 0x41;
    if payload != [] && payload[0] == 0x41 {
      assert MESSAGE_SOURCE in SCHEMA_SOURCE.messages && Carries(MESSAGE_SOURCE, payload[0]);
    }
  }

  lemma DecodesAsExpected(ps: PipelineSource, unknown: Declined, generatorVersion: string, program: Program,
                          payload: seq<byte>)
    requires CompiledTo(SCHEMA_SOURCE, ps, generatorVersion, program)
    requires DistinctKeys(ps.projections, PROJECTION_SOURCE)
    requires DocumentsMean(SCHEMA_SOURCE, ps, payload, Expected(payload, unknown))
    ensures Run(program, payload) == Finished(Expected(payload, unknown))
  {
    hide Run, DocumentsMean, Expected, CompiledTo;
    CompiledDecoderMeansDocuments(SCHEMA_SOURCE, ps, generatorVersion, program, payload);
    DocumentsDetermine(SCHEMA_SOURCE, ps, payload, Run(program, payload).verdict, Expected(payload, unknown));
  }

  /**
   The decoder of the smallest pair, spelled out: an event with the two bytes as a number, and each status in its
   place. A message it does not know is skipped for one word of the pipeline ...
   */
  lemma SmallestDecoder(generatorVersion: string, program: Program, payload: seq<byte>)
    requires CompiledTo(SCHEMA_SOURCE, PIPELINE_SOURCE, generatorVersion, program)
    ensures Run(program, payload) == Finished(Expected(payload, UnknownSkipped))
  {
    hide Run, DocumentsMean, Expected, CompiledTo;
    ExpectedMeans(PIPELINE_SOURCE, UnknownSkipped, payload);
    DecodesAsExpected(PIPELINE_SOURCE, UnknownSkipped, generatorVersion, program, payload);
  }

  /** ... and an error for the other. */
  lemma StrictDecoder(generatorVersion: string, program: Program, payload: seq<byte>)
    requires CompiledTo(SCHEMA_SOURCE, STRICT_PIPELINE, generatorVersion, program)
    ensures Run(program, payload) == Finished(Expected(payload, UnknownMessageType))
  {
    hide Run, DocumentsMean, Expected, CompiledTo;
    ExpectedMeans(STRICT_PIPELINE, UnknownMessageType, payload);
    DecodesAsExpected(STRICT_PIPELINE, UnknownMessageType, generatorVersion, program, payload);
  }
}
