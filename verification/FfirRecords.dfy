/** What stands in an FFIR and in which order, without sorting keys and without the predicates of the emitter. */
module FfirRecords {
  import opened Bytes
  import opened Sorting
  import opened SchemaModel
  import opened Documents
  import opened JsonKeys
  import opened CanonicalJson
  import opened ValidatePipeline
  import opened Backend
  import opened FrontToBack
  import opened Compiler
  import S = ValidateSchema

  /** Names that differ and are not above each other rise character by character. */
  lemma {:induction false} NameRises(a: string, b: string) returns (k: nat)
    requires Below(NameKey(a), NameKey(b)) && a != b
    ensures DiffersAt(a, b, k)
  {
    if a == "" || b == "" || a[0] != b[0] {
      k := 0;
    } else {
      assert NameKey(a)[1..] == NameKey(a[1..]) && NameKey(b)[1..] == NameKey(b[1..]);
      assert a == [a[0]] + a[1..] && b == [b[0]] + b[1..];
      var j := NameRises(a[1..], b[1..]);
      k := j + 1;
      forall i | 0 <= i < k ensures a[i] == b[i] {
        assert i > 0 ==> a[i] == a[1..][i - 1] && b[i] == b[1..][i - 1];
      }
    }
  }

  /** The types, by name. */
  lemma TypesInOrder(s: SchemaSource, ps: PipelineSource, generatorVersion: string)
    requires S.TypesAccepted(s)
    ensures var types := Compiled(s, ps, generatorVersion).schema.types;
            && |types| == |s.types|
            && (forall i, j | 0 <= i < j < |types| :: Precedes(types[i].name, types[j].name))
            && (forall t <- s.types :: exists r <- types :: TypeSays(r, t.name, Spelling(t)))
  {
    hide SortBy, Below, S.ResolveType, TypeSays, SchemaFingerprint, PipelineFingerprint, Spelling, Precedes;
    hide S.ResolveMessage, ResolvePipeline, SortedMessage;
    var resolved := S.ResolvedTypes(s);
    var once := SortBy(resolved, TYPE_KEY);
    var types := SortBy(once, TYPE_KEY);
    S.TypesAcceptedExactly(s);
    SortSorts(resolved, TYPE_KEY);
    SortSorts(once, TYPE_KEY);
    SortMembers(resolved, TYPE_KEY);
    SortMembers(once, TYPE_KEY);
    assert DistinctKeys(resolved, TYPE_KEY) by {
      TypeKeysDistinct(s);
    }
    DistinctKeysInAnyOrder(resolved, types, TYPE_KEY);
    forall i, j | 0 <= i < j < |types| ensures Precedes(types[i].name, types[j].name) {
      assert TYPE_KEY(types[i]) != TYPE_KEY(types[j]) && Below(TYPE_KEY(types[i]), TYPE_KEY(types[j]));
      NamePrecedes(types[i].name, types[j].name);
    }
    forall t | t in s.types ensures exists r <- types :: TypeSays(r, t.name, Spelling(t)) {
      var i :| 0 <= i < |s.types| && s.types[i] == t;
      assert resolved[i] in types;
    }
  }

  lemma NamePrecedes(a: string, b: string)
    requires Below(NameKey(a), NameKey(b)) && NameKey(a) != NameKey(b)
    ensures Precedes(a, b)
  {
    hide Below, DiffersAt;
    var k := NameRises(a, b);
  }

  lemma TypeKeysDistinct(s: SchemaSource)
    requires S.TypesAccepted(s)
    ensures DistinctKeys(S.ResolvedTypes(s), TYPE_KEY)
  {
    hide S.ResolveType, TypeSays;
    S.TypesAcceptedExactly(s);
    var types := S.ResolvedTypes(s);
    forall i, j | 0 <= i < j < |types| ensures TYPE_KEY(types[i]) != TYPE_KEY(types[j]) {
      assert S.SOURCE_TYPE_NAME(s.types[i]) != S.SOURCE_TYPE_NAME(s.types[j]);
      TypeName(types[i], s.types[i]);
      TypeName(types[j], s.types[j]);
      NameKeyInjective(types[i].name, types[j].name);
    }
  }

  lemma TypeName(t: Type, source: TypeSource)
    requires TypeSays(t, source.name, Spelling(source))
    ensures t.name == source.name
  {
  }

  /** The messages by discriminator, their fields by offset, and the events by the discriminator of their message. */
  lemma RecordsInOrder(s: SchemaSource, ps: PipelineSource, generatorVersion: string)
    requires BothAccepted(s, ps)
    ensures var ir := Compiled(s, ps, generatorVersion);
            var messages, events := ir.schema.messages, ir.pipeline.events;
            && (forall i, j | 0 <= i < j < |messages| :: messages[i].discriminator < messages[j].discriminator)
            && (forall m <- messages, i, j | 0 <= i < j < |m.fields| :: m.fields[i].offset < m.fields[j].offset)
            && (forall i, j | 0 <= i < j < |events| :: events[i].sourceDiscriminator < events[j].sourceDiscriminator)
  {
    hide S.SchemaAccepted, Lowered, ResolveProjection, ProjectionAccepted, SortBy, MessageSound, NamespaceAccepted;
    AcceptedSchemaSound(s);
    KeptByLowering(s, ps, generatorVersion);
    var messages := S.ResolveSchema(s).messages;
    forall m | m in messages ensures Compiler.Rising(m.fields) {
      StrictOffsets(m);
    }
    var resolved := Map(p => ResolveProjection(S.ResolveSchema(s), p), ps.projections);
    ResolvedEvents(S.ResolveSchema(s), ps);
    SortSorts(resolved, EVENT_KEY);
    DistinctKeysInAnyOrder(resolved, SortBy(resolved, EVENT_KEY), EVENT_KEY);
    SortedSources(SortBy(resolved, EVENT_KEY));
  }

  /** The header of an FFIR: two constants, and what the documents say. */
  lemma HeaderWritten(s: SchemaSource, ps: PipelineSource, generatorVersion: string)
    requires S.HeaderAccepted(s)
    ensures var ir := Compiled(s, ps, generatorVersion);
            && ir.formatVersion == 1 && ir.generatorVersion == generatorVersion
            && ir.schema.name == s.name && ir.schema.protocolVersion == s.protocolVersion
            && ir.schema.documentRevision == s.documentRevision && ir.schema.wireEndian == "big"
            && ir.schema.discriminatorOffset == 0 && ir.schema.discriminatorWidth == 1
            && ir.pipeline.name == ps.name && ir.pipeline.cppNamespace == ps.cppNamespace
            && ir.pipeline.schema == ps.schema && ir.pipeline.profile == ps.profile
            && ir.pipeline.variantId == "portable_checked.v1"
            && ir.pipeline.unknownMessages == ps.unknownMessages
            && ir.pipeline.unselectedMessages == ps.unselectedMessages
  {
    hide SortBy, SchemaFingerprint, PipelineFingerprint, IsValidSourceName, S.ResolvedTypes, S.ResolveMessage;
    hide ResolveProjection, SortedMessage;
  }

  // ---- What the emitter has made sure of.

  /** Everything a decoder relies on holds of an FFIR the emitter accepts. */
  lemma ValidHeader(ir: Ffir)
    requires IrValid(ir)
    ensures ir.formatVersion == 1 && ir.generatorVersion != ""
    ensures |ir.schemaFingerprint| == 64 && |ir.pipelineFingerprint| == 64
    ensures forall c <- ir.schemaFingerprint + ir.pipelineFingerprint :: '0' <= c <= '9' || 'a' <= c <= 'f'
    ensures ir.schemaFingerprint == Sha256.HexDigest(CanonicalSchemaSemantics(ir))
    ensures ir.pipelineFingerprint == Sha256.HexDigest(CanonicalPipelineSemantics(ir))
    ensures ir.schema.wireEndian == "big" && ir.schema.discriminatorOffset == 0 && ir.schema.discriminatorWidth == 1
    ensures ir.pipeline.profile == "portable_checked" && ir.pipeline.variantId == "portable_checked.v1"
    ensures ir.pipeline.unknownMessages in ["error", "skip"] && ir.pipeline.unselectedMessages == "skip"
  {
    hide NamespaceAccepted, MessagesValid, EventsValid, Sha256.HexDigest, CanonicalSchemaSemantics;
    hide CanonicalPipelineSemantics;
  }

  lemma ValidMessages(ir: Ffir)
    requires IrValid(ir)
    ensures ir.schema.messages != []
    ensures forall m <- ir.schema.messages ::
              IsValidSourceName(m.name) && '!' <= m.discriminator as char <= '~' && 1 <= m.size <= 65535
    ensures forall i, j | 0 <= i < j < |ir.schema.messages| ::
              ir.schema.messages[i].discriminator < ir.schema.messages[j].discriminator
  {
    hide NamespaceAccepted, HeaderValid, EventsValid, IsValidSourceName;
  }

  /** Each event is that of one message, and each of its fields is a field of that message that has a value. */
  ghost predicate EventOf(e: Event, m: Message) {
    && e.sourceDiscriminator == m.discriminator && e.sourceMessage == m.name && e.fields != []
    && IsValidSourceName(e.event)
    && e.event !in ["basic_decoder", "chunked_replayer", "decoder", "pipeline_metadata", "sink_for_all_selected_events"]
    && (forall f <- e.fields ::
          && f in m.fields && f.projectable && !f.discriminator && f.physical != Reserved
          && f.offset + f.width <= m.size && CppTypeOf(f).Some?
          && IsValidSourceName(f.name) && f.name !in ["source_discriminator", "event_name", e.event])
    && forall i, j | 0 <= i < j < |e.fields| :: e.fields[i].name != e.fields[j].name
  }

  lemma ValidEvents(ir: Ffir)
    requires IrValid(ir)
    ensures ir.pipeline.events != []
    ensures forall e <- ir.pipeline.events :: exists m <- ir.schema.messages :: EventOf(e, m)
    ensures forall i, j | 0 <= i < j < |ir.pipeline.events| ::
              && ir.pipeline.events[i].sourceDiscriminator < ir.pipeline.events[j].sourceDiscriminator
              && ir.pipeline.events[i].event != ir.pipeline.events[j].event
  {
    hide NamespaceAccepted, HeaderValid, MessagesValid, IsValidSourceName, CppTypeOf, EventOf, EventValid;
    var messages, events := ir.schema.messages, ir.pipeline.events;
    forall e | e in events ensures exists m <- messages :: EventOf(e, m) {
      assert EventValid(messages, e);
      EventHasMessage(messages, e);
    }
    forall i, j | 0 <= i < j < |events| ensures events[i].event != events[j].event {
      assert EVENT_NAME(events[i]) != EVENT_NAME(events[j]);
    }
  }

  lemma EventHasMessage(messages: seq<Message>, e: Event)
    requires EventValid(messages, e)
    ensures exists m <- messages :: EventOf(e, m)
  {
    hide IsValidSourceName, CppTypeOf;
    var m := FindMessage(messages, e.sourceDiscriminator).value;
    forall i, j | 0 <= i < j < |e.fields| ensures e.fields[i].name != e.fields[j].name {
      assert FIELD_NAME(e.fields[i]) != FIELD_NAME(e.fields[j]);
    }
    assert forall f <- e.fields :: FieldValid(m, e.event, f);
    assert EventOf(e, m);
  }
}
