/**
 The compiler from end to end: two documents in, a decoder out, and what that decoder does with a payload
 said in the terms of the two documents.
 */
module Compiler {
  import opened Bytes
  import opened Sorting
  import opened SchemaModel
  import opened CanonicalJson
  import opened ValidatePipeline
  import opened Backend
  import opened Emission
  import opened FrontToBack
  import opened Replay
  import opened Documents
  import opened Resolution
  import opened DocumentMeaning
  import S = ValidateSchema

  /** The FFIR a schema and a pipeline compile to. */
  function Compiled(s: SchemaSource, ps: PipelineSource, generatorVersion: string): Ffir {
    Lowered(S.ResolveSchema(s), ResolvePipeline(S.ResolveSchema(s), ps), generatorVersion)
  }

  ghost predicate BothAccepted(s: SchemaSource, ps: PipelineSource) {
    S.SchemaAccepted(s) && PipelineAccepted(S.ResolveSchema(s), ps)
  }

  /** Accepted by both validators, with no event the emitter would still refuse. */
  ghost predicate Compilable(s: SchemaSource, ps: PipelineSource) {
    BothAccepted(s, ps) && forall p <- ps.projections :: p.event != "chunked_replayer"
  }

  /** The program is what the emitter writes for two documents it accepts. */
  ghost predicate CompiledTo(s: SchemaSource, ps: PipelineSource, generatorVersion: string, program: Program) {
    Compilable(s, ps) && generatorVersion != "" && EmittedFrom(Compiled(s, ps, generatorVersion), program)
  }

  /** Compiles exactly the accepted pairs of documents whose event names the emitter accepts too. */
  method Compile(s: SchemaSource, ps: PipelineSource, generatorVersion: string) returns (program: Option<Program>)
    requires generatorVersion != ""
    ensures program.Some? <==> Compilable(s, ps)
    ensures program.Some? ==> CompiledTo(s, ps, generatorVersion, program.value)
  {
    hide S.SchemaAccepted, S.ResolveSchema, PipelineAccepted, ResolvePipeline, Lowered, IrValid, EmittedFrom;
    hide SchemaFingerprint, PipelineFingerprint;
    program := None;
    var schema := S.Validate(s);
    if schema.Some? {
      var pipeline := ValidatePipeline.Validate(schema.value, ps);
      if pipeline.Some? {
        var ir := LowerToFfir(schema.value, pipeline.value, generatorVersion);
        var ok := ValidateIr(ir);
        FrontEndImpliesBackEnd(s, ps, generatorVersion);
        if ok {
          var emitted := EmitDecoder(ir);
          program := Some(emitted);
        }
      }
    }
  }

  // ---- From the documents to the FFIR and back.

  lemma Resolved(s: SchemaSource, m: MessageSource)
    requires S.SchemaAccepted(s) && m in s.messages
    ensures S.ResolveMessage(S.ResolvedTypes(s), m) in S.ResolveSchema(s).messages
    ensures S.MessageAccepted(S.ResolvedTypes(s), m) && 0 < m.size
  {
    hide SortBy, S.ResolveMessage, S.ResolvedTypes, S.FieldsAccepted, S.ExactCover, IsValidSourceName, S.TypesAccepted;
    var types := S.ResolvedTypes(s);
    var messages := Map(m => S.ResolveMessage(types, m), s.messages);
    SortMembers(messages, MESSAGE_KEY);
    var i :| 0 <= i < |s.messages| && s.messages[i] == m;
    assert messages[i] == S.ResolveMessage(types, m);
  }

  lemma Unresolved(s: SchemaSource, r: Message) returns (m: MessageSource)
    requires r in S.ResolveSchema(s).messages
    ensures m in s.messages && r == S.ResolveMessage(S.ResolvedTypes(s), m)
  {
    hide SortBy, S.ResolveMessage, S.ResolvedTypes;
    var types := S.ResolvedTypes(s);
    var messages := Map(m => S.ResolveMessage(types, m), s.messages);
    SortMembers(messages, MESSAGE_KEY);
    var i :| 0 <= i < |messages| && messages[i] == r;
    m := s.messages[i];
  }

  predicate ComesFrom(types: seq<TypeSource>, r: Field, sources: seq<FieldSource>) {
    exists f <- sources :: SameField(types, r, f)
  }

  predicate BecomesOneOf(types: seq<TypeSource>, f: FieldSource, fields: seq<Field>) {
    exists r <- fields :: SameField(types, r, f)
  }

  lemma SameFieldAt(s: SchemaSource, m: MessageSource, i: nat)
    requires S.TypesAccepted(s) && S.FieldsAccepted(S.ResolvedTypes(s), m) && i < |m.fields|
    ensures ComesFrom(s.types, S.ResolvedFields(S.ResolvedTypes(s), m)[i], m.fields)
    ensures BecomesOneOf(s.types, m.fields[i], S.ResolvedFields(S.ResolvedTypes(s), m))
  {
    hide S.ResolveField, SameField, S.TypesAccepted, S.ResolvedTypes;
    var types := S.ResolvedTypes(s);
    var f, r := m.fields[i], S.ResolvedFields(types, m)[i];
    assert f in m.fields && r in S.ResolvedFields(types, m);
    ResolveFieldExactly(s, m.code, f);
  }

  lemma BecomesInAnyOrder(types: seq<TypeSource>, f: FieldSource, xs: seq<Field>, ys: seq<Field>)
    requires BecomesOneOf(types, f, xs) && forall r <- xs :: r in ys
    ensures BecomesOneOf(types, f, ys)
  {
    hide SameField;
  }

  /** The fields of a resolved message are the fields of the document, each as the document says it. */
  lemma SameFields(s: SchemaSource, m: MessageSource)
    requires S.TypesAccepted(s) && S.FieldsAccepted(S.ResolvedTypes(s), m)
    ensures forall r <- S.ResolveMessage(S.ResolvedTypes(s), m).fields :: ComesFrom(s.types, r, m.fields)
    ensures forall f <- m.fields :: BecomesOneOf(s.types, f, S.ResolveMessage(S.ResolvedTypes(s), m).fields)
  {
    hide S.FieldOr, S.FieldsAccepted, S.TypesAccepted, S.ResolvedTypes, SortBy, ComesFrom, BecomesOneOf;
    var fields := S.ResolvedFields(S.ResolvedTypes(s), m);
    var sorted := SortBy(fields, FIELD_KEY);
    SortMembers(fields, FIELD_KEY);
    assert |fields| == |m.fields|;
    forall r | r in sorted ensures ComesFrom(s.types, r, m.fields) {
      var i :| 0 <= i < |fields| && fields[i] == r;
      SameFieldAt(s, m, i);
    }
    forall f | f in m.fields ensures BecomesOneOf(s.types, f, sorted) {
      var i :| 0 <= i < |m.fields| && m.fields[i] == f;
      SameFieldAt(s, m, i);
      BecomesInAnyOrder(s.types, f, fields, sorted);
    }
  }

  lemma ValueIsFromField(types: seq<TypeSource>, r: Field, f: FieldSource, payload: seq<byte>)
    requires CppTypeOf(r).Some? && r.offset + r.width <= |payload|
    requires SameField(types, r, f) && r.projectable
    ensures FromField(types, FieldValue(r, payload), f, payload)
  {
    hide CppTypeOf, BigEndian, ValueType, FieldSpelling, PhysicalName, LogicalName;
    var spelled := FieldSpelling(types, f).value;
    SpelledValueType(r, spelled);
    AsciiByKind(r);
  }

  lemma AsciiByKind(r: Field)
    requires CppTypeOf(r).Some?
    ensures CppTypeOf(r).value.CppAscii? <==> r.physical == AsciiBytes
  {
  }

  /** Fields that tile a message stand in strict offset order, and so do those of them that are projected. */
  lemma StrictOffsets(m: Message)
    requires MessageSound(m)
    ensures Rising(m.fields)
  {
    hide CppTypeOf, IsValidSourceName, MessageValid, Ordered;
    S.KeyOrdersOffsets(m.fields);
    forall i, j | 0 <= i < j < |m.fields| ensures m.fields[i].offset < m.fields[j].offset {
      var f, g := m.fields[i], m.fields[j];
      assert f in m.fields && g in m.fields && f.name != g.name;
      assert S.Covers(f, f.offset) && S.Covers(g, g.offset);
    }
  }

  predicate Rising(fields: seq<Field>) {
    forall i, j | 0 <= i < j < |fields| :: fields[i].offset < fields[j].offset
  }

  lemma {:induction false} ProjectableOffsets(fields: seq<Field>)
    requires Rising(fields)
    ensures Rising(ProjectableOf(fields))
  {
    if fields != [] {
      var butLast, last := fields[..|fields| - 1], fields[|fields| - 1];
      ProjectableOffsets(butLast);
      var before := ProjectableOf(butLast);
      forall f | f in before ensures f.offset < last.offset {
        var k :| 0 <= k < |butLast| && butLast[k] == f;
        assert fields[k].offset < fields[|fields| - 1].offset;
      }
      RisingAppend(before, last);
    }
  }

  lemma RisingAppend(before: seq<Field>, last: Field)
    requires Rising(before) && forall f <- before :: f.offset < last.offset
    ensures Rising(before + [last]) && Rising(before + [])
  {
    assert before + [] == before;
  }

  lemma ProjectedInOrder(types: seq<TypeSource>, r: Message, sources: seq<FieldSource>,
                         payload: seq<byte>, values: seq<(string, Value)>)
    requires MessageSound(r) && DistinctKeys(sources, S.SOURCE_FIELD_NAME)
    requires forall g <- r.fields :: ComesFrom(types, g, sources)
    requires FieldsMean(ProjectableOf(r.fields), payload, values)
    ensures InOffsetOrder(sources, values)
  {
    hide MessageSound, CppTypeOf, FieldValue, DistinctKeys;
    StrictOffsets(r);
    ProjectableOffsets(r.fields);
    var fields := ProjectableOf(r.fields);
    forall i, j | 0 <= i < j < |values| ensures Before(sources, values[i], values[j]) {
      forall f, g | f in sources && g in sources && f.name == values[i].0 && g.name == values[j].0
        ensures f.offset < g.offset
      {
        SourceOffset(types, fields[i], sources, f, payload);
        SourceOffset(types, fields[j], sources, g, payload);
      }
    }
  }

  /** The one source of that name says where the field lies. */
  lemma SourceOffset(types: seq<TypeSource>, r: Field, sources: seq<FieldSource>, f: FieldSource, payload: seq<byte>)
    requires ComesFrom(types, r, sources) && DistinctKeys(sources, S.SOURCE_FIELD_NAME) && f in sources
    requires CppTypeOf(r).Some? && r.offset + r.width <= |payload| && FieldValue(r, payload).0 == f.name
    ensures r.offset == f.offset
  {
    hide CppTypeOf, BigEndian, FieldSpelling, FieldSays;
    var g :| g in sources && SameField(types, r, g);
    SameName(sources, f, g);
  }

  /** A projection of the resolved message, read as the FFIR says, is what the document asks for. */
  lemma ProjectionMeans(s: SchemaSource, m: MessageSource, names: seq<string>,
                        payload: seq<byte>, values: seq<(string, Value)>)
    requires S.SchemaAccepted(s) && m in s.messages
    requires NamesAccepted(S.ResolveMessage(S.ResolvedTypes(s), m), names)
    requires FieldsMean(SelectedFields(S.ResolveMessage(S.ResolvedTypes(s), m), names), payload, values)
    ensures Projects(s.types, m, names, payload, values)
  {
    hide ComesFrom, BecomesOneOf, Grounded, Present, InOffsetOrder, S.FieldsAccepted, S.TypesAccepted, NamesAccepted;
    hide S.ResolveMessage, FieldsMean, SelectedFields, S.SchemaAccepted, S.ResolvedTypes, MessageSound;
    var r := S.ResolveMessage(S.ResolvedTypes(s), m);
    MessageFacts(s, m);
    SameFields(s, m);
    GroundedValues(s.types, r, m.fields, names, payload, values);
    if "*" in names {
      assert SelectedFields(r, names) == ProjectableOf(r.fields) by {
        WildcardSelects(r, names);
      }
      ProjectedInOrder(s.types, r, m.fields, payload, values);
      forall f | f in m.fields && Projectable(f) ensures Present(s.types, values, f, payload) {
        WildcardPresent(s.types, r, f, payload, values);
      }
    } else {
      NamedValues(r, names, payload, values);
    }
  }

  lemma MessageFacts(s: SchemaSource, m: MessageSource)
    requires S.SchemaAccepted(s) && m in s.messages
    ensures S.TypesAccepted(s) && S.FieldsAccepted(S.ResolvedTypes(s), m)
    ensures DistinctKeys(m.fields, S.SOURCE_FIELD_NAME)
    ensures MessageSound(S.ResolveMessage(S.ResolvedTypes(s), m))
  {
    hide S.ResolvedTypes, S.ExactCover, S.ResolveMessage, DistinctKeys, TypeSound, MessageSound, S.ResolveType;
    Resolved(s, m);
    SoundTypes(s);
    ResolvedMessageSound(S.ResolvedTypes(s), m);
  }

  lemma SoundTypes(s: SchemaSource)
    requires S.TypesAccepted(s)
    ensures forall t <- S.ResolvedTypes(s) :: TypeSound(t)
  {
    hide S.ResolveType, TypeSound;
    forall i | 0 <= i < |s.types| ensures TypeSound(S.ResolvedTypes(s)[i]) {
      ResolvedTypeSound(s.types[i]);
    }
  }

  lemma WildcardSelects(r: Message, names: seq<string>)
    requires "*" in names
    ensures SelectedFields(r, names) == ProjectableOf(r.fields)
  {
  }

  lemma GroundedValues(types: seq<TypeSource>, r: Message, sources: seq<FieldSource>, names: seq<string>,
                       payload: seq<byte>, values: seq<(string, Value)>)
    requires forall g <- r.fields :: ComesFrom(types, g, sources)
    requires NamesAccepted(r, names) && FieldsMean(SelectedFields(r, names), payload, values)
    ensures forall value <- values :: Grounded(types, value, sources, payload)
  {
    hide SameField, CppTypeOf, FieldValue, FromField, SelectedFields, NamesAccepted;
    var fields := SelectedFields(r, names);
    forall i | 0 <= i < |values| ensures Grounded(types, values[i], sources, payload) {
      SelectedIsProjectable(r, names, i);
      var f :| f in sources && SameField(types, fields[i], f);
      ValueIsFromField(types, fields[i], f, payload);
    }
  }

  lemma NamedValues(r: Message, names: seq<string>, payload: seq<byte>, values: seq<(string, Value)>)
    requires "*" !in names && NamesAccepted(r, names) && FieldsMean(SelectedFields(r, names), payload, values)
    ensures |values| == |names| && forall i | 0 <= i < |names| :: values[i].0 == names[i]
  {
    hide CppTypeOf, FieldValue, NamesAccepted;
    var fields := SelectedFields(r, names);
    forall i | 0 <= i < |names| ensures values[i].0 == names[i] {
      SelectedIsProjectable(r, names, i);
      assert values[i] == FieldValue(fields[i], payload);
      NamedValue(fields[i], payload);
    }
  }

  lemma NamedValue(r: Field, payload: seq<byte>)
    requires CppTypeOf(r).Some? && r.offset + r.width <= |payload|
    ensures FieldValue(r, payload).0 == r.name
  {
    hide CppTypeOf, BigEndian;
  }

  lemma SelectedIsProjectable(r: Message, names: seq<string>, i: nat)
    requires NamesAccepted(r, names) && i < |SelectedFields(r, names)|
    ensures SelectedFields(r, names)[i] in r.fields && SelectedFields(r, names)[i].projectable
    ensures "*" !in names ==> SelectedFields(r, names)[i].name == names[i]
  {
    hide Compatible, DistinctKeys;
    if "*" in names {
      assert ProjectableOf(r.fields)[i] in ProjectableOf(r.fields);
    } else {
      assert names[i] in names;
    }
  }

  lemma WildcardPresent(types: seq<TypeSource>, r: Message, f: FieldSource, payload: seq<byte>,
                        values: seq<(string, Value)>)
    requires Projectable(f) && BecomesOneOf(types, f, r.fields)
    requires FieldsMean(ProjectableOf(r.fields), payload, values)
    ensures Present(types, values, f, payload)
  {
    hide CppTypeOf, FieldValue, FromField, FieldSpelling, FieldSays;
    var g :| g in r.fields && SameField(types, g, f);
    var i :| 0 <= i < |ProjectableOf(r.fields)| && ProjectableOf(r.fields)[i] == g;
    ValueIsFromField(types, g, f, payload);
    assert values[i] in values;
  }

  /** The same for the message a selected event comes from. */
  lemma EventMeans(s: SchemaSource, ps: PipelineSource, m: MessageSource, e: Event,
                   payload: seq<byte>, values: seq<(string, Value)>)
    requires BothAccepted(s, ps) && m in s.messages
    requires e in ResolvePipeline(S.ResolveSchema(s), ps).events && e.sourceDiscriminator == S.CodeByte(m.code)
    requires FieldsMean(e.fields, payload, values)
    ensures exists p <- ps.projections ::
              p.source == m.code && p.event == e.event && Projects(s.types, m, p.fields, payload, values)
  {
    hide S.SchemaAccepted, S.ResolveSchema, S.ResolveMessage, ResolveProjection, SortBy, FieldsMean, Projects;
    hide HeaderAccepted, NamespaceAccepted, DistinctKeys;
    var schema := S.ResolveSchema(s);
    var p := EventSource(schema, ps, e);
    SourceOfProjection(s, p, m, e);
    assert ProjectionAccepted(schema, p);
    ProjectionMeans(s, m, p.fields, payload, values);
  }

  lemma EventSource(schema: Schema, ps: PipelineSource, e: Event) returns (p: ProjectionSource)
    requires e in ResolvePipeline(schema, ps).events
    ensures p in ps.projections && e == ResolveProjection(schema, p)
  {
    hide SortBy, ResolveProjection;
    var events := Map(p => ResolveProjection(schema, p), ps.projections);
    SortMembers(events, EVENT_KEY);
    var i :| 0 <= i < |events| && events[i] == e;
    p := ps.projections[i];
  }

  /** The message of an accepted projection is the one whose code it names. */
  lemma SourceOfProjection(s: SchemaSource, p: ProjectionSource, m: MessageSource, e: Event)
    requires S.SchemaAccepted(s) && ProjectionAccepted(S.ResolveSchema(s), p) && m in s.messages
    requires e == ResolveProjection(S.ResolveSchema(s), p) && e.sourceDiscriminator == S.CodeByte(m.code)
    ensures p.source == m.code && e.event == p.event
    ensures var r := S.ResolveMessage(S.ResolvedTypes(s), m);
            SourceMessage(S.ResolveSchema(s), p) == Some(r) && e.fields == SelectedFields(r, p.fields)
            && NamesAccepted(r, p.fields)
  {
    hide S.SchemaAccepted, S.ResolveSchema, S.ResolvedTypes, SortBy, SelectedFields, NamesAccepted, S.ExactCover;
    hide S.FieldsAccepted, IsValidSourceName, SchemaSound;
    var schema := S.ResolveSchema(s);
    Resolved(s, m);
    AcceptedSchemaSound(s);
    var r := S.ResolveMessage(S.ResolvedTypes(s), m);
    IncreasingOf(schema);
    UniqueMessage(schema.messages, r);
    assert p.source == [p.source[0]] && m.code == [m.code[0]];
  }

  lemma IncreasingOf(schema: Schema)
    requires SchemaSound(schema)
    ensures IncreasingMessages(schema.messages)
  {
  }

  lemma SelectedIffProjected(s: SchemaSource, ps: PipelineSource, m: MessageSource)
    requires BothAccepted(s, ps) && m in s.messages
    ensures Selected(ResolvePipeline(S.ResolveSchema(s), ps).events, S.CodeByte(m.code)) <==> IsProjected(ps, m)
  {
    hide S.SchemaAccepted, S.ResolveSchema, SortBy, HeaderAccepted, NamespaceAccepted, DistinctKeys, S.ResolvedTypes;
    hide SelectedFields, NamesAccepted, IsValidSourceName, CollidesWithEvent, S.ResolveMessage;
    hide IsGeneratedPipelineDeclaration;
    var schema := S.ResolveSchema(s);
    var events := ResolvePipeline(schema, ps).events;
    if Selected(events, S.CodeByte(m.code)) {
      var e :| e in events && e.sourceDiscriminator == S.CodeByte(m.code);
      var p := EventSource(schema, ps, e);
      assert ProjectionAccepted(schema, p);
      SourceOfProjection(s, p, m, e);
    }
    if IsProjected(ps, m) {
      var p :| p in ps.projections && p.source == m.code;
      assert ProjectionAccepted(schema, p);
      EventOfProjection(schema, ps, p);
      assert ResolveProjection(schema, p).sourceDiscriminator == p.source[0] as int;
      CodeOf(s, m);
    }
  }

  lemma CodeOf(s: SchemaSource, m: MessageSource)
    requires S.SchemaAccepted(s) && m in s.messages
    ensures |m.code| == 1 && S.CodeByte(m.code) == m.code[0] as int
  {
    hide S.FieldsAccepted, S.ExactCover, S.ResolvedTypes, IsValidSourceName;
  }

  lemma EventOfProjection(schema: Schema, ps: PipelineSource, p: ProjectionSource)
    requires p in ps.projections
    ensures ResolveProjection(schema, p) in ResolvePipeline(schema, ps).events
  {
    hide SortBy, ResolveProjection;
    var events := Map(p => ResolveProjection(schema, p), ps.projections);
    SortMembers(events, EVENT_KEY);
    var i :| 0 <= i < |ps.projections| && ps.projections[i] == p;
    assert events[i] == ResolveProjection(schema, p);
  }

  /** What the FFIR means for a message is what the documents say about it. */
  lemma MeansForMessage(s: SchemaSource, ps: PipelineSource, ir: Ffir, m: MessageSource,
                        payload: seq<byte>, verdict: Verdict<EventValue>)
    requires BothAccepted(s, ps) && m in s.messages && 0 < m.size
    requires ir.schema.messages == S.ResolveSchema(s).messages && ir.pipeline == ResolvePipeline(S.ResolveSchema(s), ps)
    requires payload != [] && Carries(m, payload[0]) && Means(ir, payload, verdict)
    ensures MessageMeans(s, ps, m, payload, verdict)
  {
    hide S.SchemaAccepted, S.ResolveSchema, ResolvePipeline, PipelineAccepted, S.ResolvedTypes, SortBy;
    hide Selected, IsProjected, FieldsMean, Projects, SchemaSound, S.CodeByte, S.MessageAccepted;
    Resolved(s, m);
    AcceptedSchemaSound(s);
    IncreasingOf(S.ResolveSchema(s));
    UniqueMessage(ir.schema.messages, S.ResolveMessage(S.ResolvedTypes(s), m));
    SelectedIffProjected(s, ps, m);
    if |payload| == m.size && IsProjected(ps, m) {
      var e :| && e in ir.pipeline.events && e.sourceDiscriminator == payload[0]
               && verdict.Deliver? && verdict.event.event == e.event
               && FieldsMean(e.fields, payload, verdict.event.fields);
      EventMeans(s, ps, m, e, payload, verdict.event.fields);
    }
  }

  /**
   The compiled decoder means what the two documents say: for every accepted pair and every payload it
   finishes without leaving the payload, and its verdict is the one the documents describe.
   */
  lemma CompiledDecoderMeansDocuments(s: SchemaSource, ps: PipelineSource, generatorVersion: string,
                                      program: Program, payload: seq<byte>)
    requires CompiledTo(s, ps, generatorVersion, program)
    ensures forall m <- s.messages :: 0 < m.size
    ensures Run(program, payload).Finished? && DocumentsMean(s, ps, payload, Run(program, payload).verdict)
  {
    hide S.SchemaAccepted, S.ResolveSchema, ResolvePipeline, PipelineAccepted, Lowered, EmittedFrom, IrValid;
    hide Run, MessageMeans, S.CodeByte, S.ResolveMessage, SchemaSound;
    var ir := Compiled(s, ps, generatorVersion);
    FrontEndImpliesBackEnd(s, ps, generatorVersion);
    CompilationPreservesMeaning(ir, program, payload);
    KeptByLowering(s, ps, generatorVersion);
    var verdict := Run(program, payload).verdict;
    forall m | m in s.messages ensures 0 < m.size {
      Resolved(s, m);
    }
    if payload != [] {
      forall m | m in s.messages && Carries(m, payload[0]) ensures MessageMeans(s, ps, m, payload, verdict) {
        MeansForMessage(s, ps, ir, m, payload, verdict);
      }
      if FindMessage(ir.schema.messages, payload[0]).Some? {
        var m := Unresolved(s, FindMessage(ir.schema.messages, payload[0]).value);
        ResolvedCode(S.ResolvedTypes(s), m);
        assert Carries(m, payload[0]);
      }
    }
  }

  lemma ResolvedCode(types: seq<Type>, m: MessageSource)
    ensures S.ResolveMessage(types, m).discriminator == S.CodeByte(m.code)
  {
  }

  lemma KeptByLowering(s: SchemaSource, ps: PipelineSource, generatorVersion: string)
    requires BothAccepted(s, ps)
    ensures var ir := Compiled(s, ps, generatorVersion);
            && ir.schema.messages == S.ResolveSchema(s).messages
            && ir.pipeline == ResolvePipeline(S.ResolveSchema(s), ps)
            && ir.pipeline.unknownMessages == ps.unknownMessages
  {
    hide S.SchemaAccepted, S.ResolveSchema, Lowered, SchemaSound, SortBy, HeaderAccepted, ProjectionsAccepted;
    AcceptedSchemaSound(s);
    LoweringKeeps(S.ResolveSchema(s), ps, generatorVersion);
  }
}
