/** Whatever the two validators accept, the emitter accepts after lowering, but for one event name. */
module FrontToBack {
  import opened Bytes
  import opened Sorting
  import opened SchemaModel
  import opened CanonicalJson
  import opened Backend
  import opened ValidatePipeline
  import S = ValidateSchema

  predicate TypeSound(t: Type) {
    && Compatible(t.physical, t.width, t.logical)
    && (t.scale.Some? <==> t.logical == LogicalKind.Decimal)
    && (t.scale.Some? ==> t.scale.value <= 18)
  }

  /** What resolution guarantees about one field on its own. */
  predicate FieldSound(f: Field) {
    && IsValidSourceName(f.name) && f.width > 0
    && (f.discriminator ==> f.offset == 0 && f.width == 1 && f.physical == AsciiBytes)
    && (f.projectable <==> !f.discriminator && f.physical != Reserved)
    && (f.projectable ==> CppTypeOf(f).Some?)
  }

  ghost predicate MessageSound(m: Message) {
    && MessageValid(m)
    && (forall f <- m.fields :: FieldSound(f))
    && S.DistinctNames(m.fields) && Ordered(m.fields, FIELD_KEY)
    && S.ExactCover(m.fields, m.size)
    && exists f <- m.fields :: f.discriminator
  }

  ghost predicate SchemaSound(schema: Schema) {
    && schema.wireEndian == "big" && schema.discriminatorOffset == 0 && schema.discriminatorWidth == 1
    && schema.messages != [] && (forall m <- schema.messages :: MessageSound(m))
    && IncreasingMessages(schema.messages)
  }

  lemma ResolvedTypeSound(t: TypeSource)
    requires S.ResolveType(t).Some?
    ensures TypeSound(S.ResolveType(t).value)
  {
    hide IsValidSourceName, IsBuiltinName, ParseLogical;
  }

  lemma ResolvedFieldSound(types: seq<Type>, code: string, f: FieldSource)
    requires forall t <- types :: TypeSound(t)
    requires S.ResolveField(types, code, f).Some?
    ensures FieldSound(S.ResolveField(types, code, f).value)
  {
    hide IsValidSourceName, IsBuiltinName, S.FindType;
    var r := S.ResolveField(types, code, f).value;
    CppTypeExactly(r);
  }

  lemma ResolvedMessageSound(types: seq<Type>, m: MessageSource)
    requires forall t <- types :: TypeSound(t)
    requires S.MessageAccepted(types, m)
    ensures MessageSound(S.ResolveMessage(types, m))
  {
    hide IsValidSourceName, S.ResolveField, FieldSound, S.ExactCover, SortBy;
    var fields := S.ResolvedFields(types, m);
    S.SortedForTiling(types, m);
    SortMembers(fields, FIELD_KEY);
    forall i | 0 <= i < |fields| ensures FieldSound(fields[i]) {
      ResolvedFieldSound(types, m.code, m.fields[i]);
    }
    DiscriminatorResolved(types, m);
  }

  lemma DiscriminatorResolved(types: seq<Type>, m: MessageSource)
    requires S.FieldsAccepted(types, m)
    ensures exists f <- S.ResolvedFields(types, m) :: f.discriminator
  {
    hide IsValidSourceName, S.Describe;
    var d :| d in m.fields && d.role.Some?;
    var i :| 0 <= i < |m.fields| && m.fields[i] == d;
    assert S.ResolvedFields(types, m)[i].discriminator;
  }

  lemma CodeBytesInjective(messages: seq<MessageSource>)
    requires forall m <- messages :: S.PrintableCode(m.code)
    requires DistinctKeys(messages, S.SOURCE_MESSAGE_CODE)
    ensures forall i, j | 0 <= i < j < |messages| :: S.CodeByte(messages[i].code) != S.CodeByte(messages[j].code)
  {
    forall i, j | 0 <= i < j < |messages|
      ensures S.CodeByte(messages[i].code) != S.CodeByte(messages[j].code)
    {
      var a, b := messages[i].code, messages[j].code;
      assert a == [a[0]] && b == [b[0]];
    }
  }

  lemma SortedDiscriminators(messages: seq<Message>)
    requires Ordered(messages, MESSAGE_KEY) && DistinctKeys(messages, MESSAGE_KEY)
    ensures IncreasingMessages(messages)
  {
    forall i, j | 0 <= i < j < |messages| ensures messages[i].discriminator < messages[j].discriminator {
      assert Below(MESSAGE_KEY(messages[i]), MESSAGE_KEY(messages[j]));
      assert MESSAGE_KEY(messages[i]) != MESSAGE_KEY(messages[j]);
    }
  }

  lemma SortedSources(events: seq<Event>)
    requires Ordered(events, EVENT_KEY) && DistinctKeys(events, EVENT_KEY)
    ensures IncreasingEvents(events)
  {
    forall i, j | 0 <= i < j < |events| ensures events[i].sourceDiscriminator < events[j].sourceDiscriminator {
      assert Below(EVENT_KEY(events[i]), EVENT_KEY(events[j]));
      assert EVENT_KEY(events[i]) != EVENT_KEY(events[j]);
    }
  }

  lemma DistinctDiscriminators(messages: seq<Message>)
    requires forall i, j | 0 <= i < j < |messages| :: messages[i].discriminator != messages[j].discriminator
    ensures DistinctKeys(messages, MESSAGE_KEY)
  {
    forall i, j | 0 <= i < j < |messages| ensures MESSAGE_KEY(messages[i]) != MESSAGE_KEY(messages[j]) {
      assert MESSAGE_KEY(messages[i])[0] == messages[i].discriminator;
      assert MESSAGE_KEY(messages[j])[0] == messages[j].discriminator;
    }
  }

  /** An accepted schema resolves to one in which every message is sound and tiled, in discriminator order. */
  lemma AcceptedSchemaSound(s: SchemaSource)
    requires S.SchemaAccepted(s)
    ensures SchemaSound(S.ResolveSchema(s))
  {
    hide S.MessageAccepted, S.ResolveMessage, S.ResolveType, MessageSound, TypeSound, SortBy, IsValidSourceName;
    var types := S.ResolvedTypes(s);
    forall i | 0 <= i < |types| ensures TypeSound(types[i]) {
      ResolvedTypeSound(s.types[i]);
    }
    var messages := Map(m => S.ResolveMessage(types, m), s.messages);
    forall i | 0 <= i < |messages| ensures MessageSound(messages[i]) {
      ResolvedMessageSound(types, s.messages[i]);
    }
    ResolvedDiscriminators(s);
    SortSorts(messages, MESSAGE_KEY);
    SortMembers(messages, MESSAGE_KEY);
    DistinctKeysInAnyOrder(messages, SortBy(messages, MESSAGE_KEY), MESSAGE_KEY);
    SortedDiscriminators(SortBy(messages, MESSAGE_KEY));
  }

  lemma ResolvedDiscriminators(s: SchemaSource)
    requires S.MessagesAccepted(s)
    ensures DistinctKeys(Map(m => S.ResolveMessage(S.ResolvedTypes(s), m), s.messages), MESSAGE_KEY)
  {
    hide S.ResolvedTypes, S.FieldsAccepted, S.ExactCover, S.CodeByte, IsValidSourceName, SortBy;
    CodeBytesInjective(s.messages);
    DistinctDiscriminators(Map(m => S.ResolveMessage(S.ResolvedTypes(s), m), s.messages));
  }

  // ---- Projections.

  lemma {:induction false} UniqueField(fields: seq<Field>, f: Field)
    requires S.DistinctNames(fields) && f in fields
    ensures FindField(fields, f.name) == Some(f)
  {
    if fields[0] != f {
      assert f in fields[1..];
      var i :| 0 <= i < |fields| && fields[i] == f;
      assert fields[0].name != f.name;
      assert S.DistinctNames(fields[1..]);
      UniqueField(fields[1..], f);
    }
  }

  lemma {:induction false} UniqueMessage(messages: seq<Message>, m: Message)
    requires IncreasingMessages(messages) && m in messages
    ensures FindMessage(messages, m.discriminator) == Some(m)
  {
    if messages[0] != m {
      assert m in messages[1..];
      UniqueMessage(messages[1..], m);
    }
  }

  lemma {:induction false} ProjectableDistinct(fields: seq<Field>)
    requires S.DistinctNames(fields)
    ensures DistinctKeys(ProjectableOf(fields), FIELD_NAME)
  {
    if fields != [] {
      var butLast, last := fields[..|fields| - 1], fields[|fields| - 1];
      assert fields == butLast + [last];
      ProjectableDistinct(butLast);
      var before := ProjectableOf(butLast);
      forall i | 0 <= i < |before| ensures before[i].name != last.name {
        assert before[i] in butLast;
        var k :| 0 <= k < |butLast| && butLast[k] == before[i];
        assert fields[k].name != last.name;
      }
    }
  }

  lemma SelectedFieldsSound(m: Message, names: seq<string>)
    requires MessageSound(m) && NamesAccepted(m, names)
    ensures forall f <- SelectedFields(m, names) :: f in m.fields && f.projectable
    ensures DistinctKeys(SelectedFields(m, names), FIELD_NAME)
  {
    hide FieldSound, S.ExactCover, Ordered, MessageValid, Compatible;
    if "*" in names {
      ProjectableDistinct(m.fields);
    } else {
      var selected := SelectedFields(m, names);
      forall i, j | 0 <= i < j < |selected| ensures selected[i].name != selected[j].name {
        assert SELF(names[i]) != SELF(names[j]);
        assert FindField(m.fields, names[i]).Some? && FindField(m.fields, names[j]).Some?;
      }
    }
  }

  lemma SelectedFieldValid(m: Message, event: string, f: Field)
    requires MessageSound(m) && f in m.fields && f.projectable && !CollidesWithEvent(f, event)
    ensures FieldValid(m, event, f)
  {
    hide CppTypeOf, IsValidSourceName, Ordered;
    UniqueField(m.fields, f);
  }

  /** An accepted projection becomes an event the emitter accepts, unless it has the one name only it refuses. */
  lemma AcceptedProjection(schema: Schema, p: ProjectionSource)
    requires SchemaSound(schema) && ProjectionAccepted(schema, p)
    ensures EventValid(schema.messages, ResolveProjection(schema, p)) <==> p.event != "chunked_replayer"
  {
    hide MessageSound, FieldValid, SelectedFields, NamesAccepted, CollidesWithEvent, IsValidSourceName;
    var m := SourceMessage(schema, p).value;
    UniqueMessage(schema.messages, m);
    SelectedFieldsSound(m, p.fields);
    forall f | f in SelectedFields(m, p.fields) ensures FieldValid(m, p.event, f) {
      SelectedFieldValid(m, p.event, f);
    }
  }

  lemma ResolvedEvents(schema: Schema, s: PipelineSource)
    requires SchemaSound(schema) && ProjectionsAccepted(schema, s)
    ensures var events := Map(p => ResolveProjection(schema, p), s.projections);
            DistinctKeys(events, EVENT_KEY) && DistinctKeys(events, EVENT_NAME)
  {
    hide NamesAccepted, SelectedFields, IsValidSourceName, CollidesWithEvent, MessageSound;
    var events := Map(p => ResolveProjection(schema, p), s.projections);
    forall i, j | 0 <= i < j < |events|
      ensures EVENT_KEY(events[i]) != EVENT_KEY(events[j]) && EVENT_NAME(events[i]) != EVENT_NAME(events[j])
    {
      var a, b := s.projections[i], s.projections[j];
      assert ProjectionAccepted(schema, a) && ProjectionAccepted(schema, b);
      assert PROJECTION_SOURCE(a) != PROJECTION_SOURCE(b) && PROJECTION_EVENT(a) != PROJECTION_EVENT(b);
      assert a.source == [a.source[0]] && b.source == [b.source[0]];
      assert EVENT_KEY(events[i])[0] == a.source[0] as int && EVENT_KEY(events[j])[0] == b.source[0] as int;
    }
  }

  lemma AcceptedEvents(schema: Schema, s: PipelineSource)
    requires SchemaSound(schema) && ProjectionsAccepted(schema, s) && s.projections != []
    ensures EventsValid(schema.messages, ResolvePipeline(schema, s).events)
            <==> forall p <- s.projections :: p.event != "chunked_replayer"
  {
    hide SchemaSound, EventValid, ProjectionAccepted, ResolveProjection, SortBy;
    var events := Map(p => ResolveProjection(schema, p), s.projections);
    var sorted := SortBy(events, EVENT_KEY);
    ResolvedEvents(schema, s);
    SortSorts(events, EVENT_KEY);
    SortMembers(events, EVENT_KEY);
    DistinctKeysInAnyOrder(events, sorted, EVENT_KEY);
    DistinctKeysInAnyOrder(events, sorted, EVENT_NAME);
    SortedSources(sorted);
    forall i | 0 <= i < |events|
      ensures EventValid(schema.messages, events[i]) <==> s.projections[i].event != "chunked_replayer"
    {
      AcceptedProjection(schema, s.projections[i]);
    }
    assert forall e <- sorted :: e in events;
    assert forall i | 0 <= i < |events| :: events[i] in sorted;
  }

  // ---- Lowering.

  /** Lowering sorts what resolution has already sorted, so it changes nothing but the fingerprints. */
  lemma LoweringKeeps(schema: Schema, s: PipelineSource, generatorVersion: string)
    requires SchemaSound(schema) && ProjectionsAccepted(schema, s)
    ensures var ir := Lowered(schema, ResolvePipeline(schema, s), generatorVersion);
            ir.schema.messages == schema.messages && ir.pipeline == ResolvePipeline(schema, s)
  {
    hide MessageSound, SortBy, SchemaFingerprint, PipelineFingerprint, ProjectionAccepted, ResolveProjection;
    forall i | 0 <= i < |schema.messages| ensures SortedMessage(schema.messages[i]) == schema.messages[i] {
      FieldsAlreadySorted(schema.messages[i]);
    }
    assert Map(m => SortedMessage(m), schema.messages) == schema.messages;
    MessagesAlreadySorted(schema.messages);
    ResolvedEvents(schema, s);
    var events := Map(p => ResolveProjection(schema, p), s.projections);
    SortSorts(events, EVENT_KEY);
    DistinctKeysInAnyOrder(events, SortBy(events, EVENT_KEY), EVENT_KEY);
    SortOfSorted(SortBy(events, EVENT_KEY), EVENT_KEY);
  }

  lemma FieldsAlreadySorted(m: Message)
    requires MessageSound(m)
    ensures SortBy(m.fields, FIELD_KEY) == m.fields
  {
    hide SortBy, FieldSound, S.ExactCover, MessageValid, Ordered;
    DistinctFieldKeys(m.fields);
    SortOfSorted(m.fields, FIELD_KEY);
  }

  lemma DistinctFieldKeys(fields: seq<Field>)
    requires S.DistinctNames(fields)
    ensures DistinctKeys(fields, FIELD_KEY)
  {
    forall i, j | 0 <= i < j < |fields| ensures FIELD_KEY(fields[i]) != FIELD_KEY(fields[j]) {
      NameKeyInjective(fields[i].name, fields[j].name);
      assert FIELD_KEY(fields[i])[1..] == NameKey(fields[i].name);
      assert FIELD_KEY(fields[j])[1..] == NameKey(fields[j].name);
    }
  }

  lemma MessagesAlreadySorted(messages: seq<Message>)
    requires IncreasingMessages(messages)
    ensures SortBy(messages, MESSAGE_KEY) == messages
  {
    hide SortBy;
    forall i, j | 0 <= i < j < |messages| ensures Below(MESSAGE_KEY(messages[i]), MESSAGE_KEY(messages[j])) {
    }
    DistinctDiscriminators(messages);
    SortOfSorted(messages, MESSAGE_KEY);
  }

  /**
   Front end implies back end: what both validators accept lowers to FFIR the emitter accepts, if and
   only if no event is called `chunked_replayer`.
   */
  lemma FrontEndImpliesBackEnd(s: SchemaSource, p: PipelineSource, generatorVersion: string)
    requires S.SchemaAccepted(s) && PipelineAccepted(S.ResolveSchema(s), p) && generatorVersion != ""
    ensures var schema := S.ResolveSchema(s);
            IrValid(Lowered(schema, ResolvePipeline(schema, p), generatorVersion))
            <==> forall projection <- p.projections :: projection.event != "chunked_replayer"
  {
    hide S.SchemaAccepted, NamespaceAccepted, ProjectionsAccepted, SortBy, MessageSound, EventsValid;
    hide SchemaFingerprint, PipelineFingerprint, Sha256.HexDigest;
    var schema := S.ResolveSchema(s);
    var pipeline := ResolvePipeline(schema, p);
    AcceptedSchemaSound(s);
    LoweringKeeps(schema, p, generatorVersion);
    AcceptedEvents(schema, p);
    SignedHeader(schema, pipeline, generatorVersion);
    SoundMessagesValid(schema.messages);
  }

  lemma SignedHeader(schema: Schema, pipeline: Pipeline, generatorVersion: string)
    ensures var ir := Lowered(schema, pipeline, generatorVersion);
            && Sha256.IsLowerHexFingerprint(ir.schemaFingerprint)
            && Sha256.IsLowerHexFingerprint(ir.pipelineFingerprint)
            && SchemaFingerprint(ir) == ir.schemaFingerprint
            && PipelineFingerprint(ir) == ir.pipelineFingerprint
  {
    hide Sha256.HexDigest, Sha256.IsLowerHexFingerprint, CanonicalSchemaSemantics, CanonicalPipelineSemantics;
    var ir := Unsigned(schema, pipeline, generatorVersion);
    FingerprintsIgnoreFingerprints(ir, SchemaFingerprint(ir), PipelineFingerprint(ir));
  }

  lemma SoundMessagesValid(messages: seq<Message>)
    requires messages != [] && IncreasingMessages(messages) && forall m <- messages :: MessageSound(m)
    ensures MessagesValid(messages)
  {
    hide MessageValid, FieldSound, S.ExactCover;
  }
}
