/**
 Canonical FFIR JSON (ir.cpp): the JSON value each record stands for, and what stands in it under each key.
 */
module CanonicalJson {
  import opened Bytes
  import opened Sorting
  import opened SchemaModel
  import opened Json
  import opened JsonKeys

  datatype Ffir = Ffir(
    formatVersion: nat, generatorVersion: string,
    schema: Schema, schemaFingerprint: string,
    pipeline: Pipeline, pipelineFingerprint: string)

  // ---- What is printed.

  function ScaleMember(scale: Option<nat>): seq<Member> {
    if scale.Some? then [Member("scale", Number(scale.value))] else []
  }

  function TypeJson(t: Type): Json {
    Object([Member("kind", Text(PhysicalName(t.physical))),
            Member("logical", Text(LogicalName(t.logical))),
            Member("name", Text(t.name))]
           + ScaleMember(t.scale)
           + [Member("width", Number(t.width))])
  }

  function LogicalMember(logical: Option<LogicalKind>): seq<Member> {
    if logical.Some? then [Member("logical", Text(LogicalName(logical.value)))] else []
  }

  function FieldJson(f: Field): Json {
    Object([Member("discriminator", Bool(f.discriminator)),
            Member("kind", Text(PhysicalName(f.physical)))]
           + LogicalMember(f.logical)
           + [Member("name", Text(f.name)),
              Member("offset", Number(f.offset)),
              Member("projectable", Bool(f.projectable))]
           + ScaleMember(f.scale)
           + [Member("type", Text(f.typeName)),
              Member("width", Number(f.width))])
  }

  function FieldsJson(fields: seq<Field>): Json {
    Array(Map(f => FieldJson(f), fields))
  }

  function MessageJson(m: Message): Json {
    Object([Member("discriminator", Number(m.discriminator)),
            Member("fields", FieldsJson(m.fields)),
            Member("name", Text(m.name)),
            Member("size", Number(m.size))])
  }

  function EventJson(e: Event): Json {
    Object([Member("event", Text(e.event)),
            Member("fields", FieldsJson(e.fields)),
            Member("source", Text([e.sourceDiscriminator as char])),
            Member("source_discriminator", Number(e.sourceDiscriminator)),
            Member("source_message", Text(e.sourceMessage))])
  }

  function TypesJson(types: seq<Type>): Json { Array(Map(t => TypeJson(t), types)) }
  function MessagesJson(messages: seq<Message>): Json { Array(Map(m => MessageJson(m), messages)) }
  function EventsJson(events: seq<Event>): Json { Array(Map(e => EventJson(e), events)) }

  function WireJson(s: Schema): Json {
    Object([Member("discriminator_offset", Number(s.discriminatorOffset)),
            Member("discriminator_width", Number(s.discriminatorWidth)),
            Member("endian", Text(s.wireEndian))])
  }

  function SchemaSemanticsJson(ir: Ffir): Json {
    Object([Member("format_version", Number(ir.formatVersion)),
            Member("messages", MessagesJson(ir.schema.messages)),
            Member("name", Text(ir.schema.name)),
            Member("protocol_version", Text(ir.schema.protocolVersion)),
            Member("types", TypesJson(ir.schema.types)),
            Member("wire", WireJson(ir.schema))])
  }

  function PipelineSemanticsJson(ir: Ffir): Json {
    Object([Member("events", EventsJson(ir.pipeline.events)),
            Member("format_version", Number(ir.formatVersion)),
            Member("name", Text(ir.pipeline.name)),
            Member("namespace", Text(ir.pipeline.cppNamespace)),
            Member("profile", Text(ir.pipeline.profile)),
            Member("schema", Text(ir.pipeline.schema)),
            Member("unknown_messages", Text(ir.pipeline.unknownMessages)),
            Member("unselected_messages", Text(ir.pipeline.unselectedMessages)),
            Member("variant_id", Text(ir.pipeline.variantId))])
  }

  function PipelineJson(ir: Ffir): Json {
    Object([Member("events", EventsJson(ir.pipeline.events)),
            Member("fingerprint", Text(ir.pipelineFingerprint)),
            Member("name", Text(ir.pipeline.name)),
            Member("namespace", Text(ir.pipeline.cppNamespace)),
            Member("profile", Text(ir.pipeline.profile)),
            Member("schema", Text(ir.pipeline.schema)),
            Member("unknown_messages", Text(ir.pipeline.unknownMessages)),
            Member("unselected_messages", Text(ir.pipeline.unselectedMessages)),
            Member("variant_id", Text(ir.pipeline.variantId))])
  }

  function SchemaJson(ir: Ffir): Json {
    Object([Member("document_revision", Text(ir.schema.documentRevision)),
            Member("fingerprint", Text(ir.schemaFingerprint)),
            Member("messages", MessagesJson(ir.schema.messages)),
            Member("name", Text(ir.schema.name)),
            Member("protocol_version", Text(ir.schema.protocolVersion)),
            Member("types", TypesJson(ir.schema.types)),
            Member("wire", WireJson(ir.schema))])
  }

  function IrJson(ir: Ffir): Json {
    Object([Member("format_version", Number(ir.formatVersion)),
            Member("generator_version", Text(ir.generatorVersion)),
            Member("pipeline", PipelineJson(ir)),
            Member("schema", SchemaJson(ir))])
  }

  function CanonicalSchemaSemantics(ir: Ffir): string { Render(SchemaSemanticsJson(ir)) }
  function CanonicalPipelineSemantics(ir: Ffir): string { Render(PipelineSemanticsJson(ir)) }
  function CanonicalText(ir: Ffir): string { Render(IrJson(ir)) + "\n" }

  // ---- The order of the keys.

  lemma TypeOrder(values: seq<Json>)
    requires |values| == 5
    ensures Rising(Named(["kind", "logical", "name", "scale", "width"], values))
  {
    var ms := Named(["kind", "logical", "name", "scale", "width"], values);
    assert DiffersAt("kind", "logical", 0);
    assert DiffersAt("logical", "name", 0);
    assert DiffersAt("name", "scale", 0);
    assert DiffersAt("scale", "width", 0);
    AdjacentRise(ms);
  }

  lemma FieldOrder(values: seq<Json>)
    requires |values| == 9
    ensures Rising(Named(["discriminator", "kind", "logical", "name", "offset", "projectable", "scale", "type",
                          "width"], values))
  {
    var ms := Named(["discriminator", "kind", "logical", "name", "offset", "projectable", "scale", "type",
                     "width"], values);
    assert DiffersAt("discriminator", "kind", 0);
    assert DiffersAt("kind", "logical", 0);
    assert DiffersAt("logical", "name", 0);
    assert DiffersAt("name", "offset", 0);
    assert DiffersAt("offset", "projectable", 0);
    assert DiffersAt("projectable", "scale", 0);
    assert DiffersAt("scale", "type", 0);
    assert DiffersAt("type", "width", 0);
    AdjacentRise(ms);
  }

  lemma MessageOrder(values: seq<Json>)
    requires |values| == 4
    ensures Rising(Named(["discriminator", "fields", "name", "size"], values))
  {
    var ms := Named(["discriminator", "fields", "name", "size"], values);
    assert DiffersAt("discriminator", "fields", 0);
    assert DiffersAt("fields", "name", 0);
    assert DiffersAt("name", "size", 0);
    AdjacentRise(ms);
  }

  lemma EventOrder(values: seq<Json>)
    requires |values| == 5
    ensures Rising(Named(["event", "fields", "source", "source_discriminator", "source_message"], values))
  {
    var ms := Named(["event", "fields", "source", "source_discriminator", "source_message"], values);
    assert DiffersAt("event", "fields", 0);
    assert DiffersAt("fields", "source", 0);
    assert DiffersAt("source", "source_discriminator", 6);
    assert DiffersAt("source_discriminator", "source_message", 7);
    AdjacentRise(ms);
  }

  lemma WireOrder(values: seq<Json>)
    requires |values| == 3
    ensures Rising(Named(["discriminator_offset", "discriminator_width", "endian"], values))
  {
    var ms := Named(["discriminator_offset", "discriminator_width", "endian"], values);
    assert DiffersAt("discriminator_offset", "discriminator_width", 14);
    assert DiffersAt("discriminator_width", "endian", 0);
    AdjacentRise(ms);
  }

  lemma SchemaSemanticsOrder(values: seq<Json>)
    requires |values| == 6
    ensures Rising(Named(["format_version", "messages", "name", "protocol_version", "types", "wire"], values))
  {
    var ms := Named(["format_version", "messages", "name", "protocol_version", "types", "wire"], values);
    assert DiffersAt("format_version", "messages", 0);
    assert DiffersAt("messages", "name", 0);
    assert DiffersAt("name", "protocol_version", 0);
    assert DiffersAt("protocol_version", "types", 0);
    assert DiffersAt("types", "wire", 0);
    AdjacentRise(ms);
  }

  lemma PipelineSemanticsOrder(values: seq<Json>)
    requires |values| == 9
    ensures Rising(Named(["events", "format_version", "name", "namespace", "profile", "schema", "unknown_messages",
                          "unselected_messages", "variant_id"], values))
  {
    var ms := Named(["events", "format_version", "name", "namespace", "profile", "schema", "unknown_messages",
                     "unselected_messages", "variant_id"], values);
    assert DiffersAt("events", "format_version", 0);
    assert DiffersAt("format_version", "name", 0);
    assert DiffersAt("name", "namespace", 4);
    assert DiffersAt("namespace", "profile", 0);
    assert DiffersAt("profile", "schema", 0);
    assert DiffersAt("schema", "unknown_messages", 0);
    assert DiffersAt("unknown_messages", "unselected_messages", 2);
    assert DiffersAt("unselected_messages", "variant_id", 0);
    AdjacentRise(ms);
  }

  lemma PipelineOrder(values: seq<Json>)
    requires |values| == 9
    ensures Rising(Named(["events", "fingerprint", "name", "namespace", "profile", "schema", "unknown_messages",
                          "unselected_messages", "variant_id"], values))
  {
    var ms := Named(["events", "fingerprint", "name", "namespace", "profile", "schema", "unknown_messages",
                     "unselected_messages", "variant_id"], values);
    assert DiffersAt("events", "fingerprint", 0);
    assert DiffersAt("fingerprint", "name", 0);
    assert DiffersAt("name", "namespace", 4);
    assert DiffersAt("namespace", "profile", 0);
    assert DiffersAt("profile", "schema", 0);
    assert DiffersAt("schema", "unknown_messages", 0);
    assert DiffersAt("unknown_messages", "unselected_messages", 2);
    assert DiffersAt("unselected_messages", "variant_id", 0);
    AdjacentRise(ms);
  }

  lemma SchemaOrder(values: seq<Json>)
    requires |values| == 7
    ensures Rising(Named(["document_revision", "fingerprint", "messages", "name", "protocol_version", "types",
                          "wire"], values))
  {
    var ms := Named(["document_revision", "fingerprint", "messages", "name", "protocol_version", "types",
                     "wire"], values);
    assert DiffersAt("document_revision", "fingerprint", 0);
    assert DiffersAt("fingerprint", "messages", 0);
    assert DiffersAt("messages", "name", 0);
    assert DiffersAt("name", "protocol_version", 0);
    assert DiffersAt("protocol_version", "types", 0);
    assert DiffersAt("types", "wire", 0);
    AdjacentRise(ms);
  }

  lemma IrOrder(values: seq<Json>)
    requires |values| == 4
    ensures Rising(Named(["format_version", "generator_version", "pipeline", "schema"], values))
  {
    var ms := Named(["format_version", "generator_version", "pipeline", "schema"], values);
    assert DiffersAt("format_version", "generator_version", 0);
    assert DiffersAt("generator_version", "pipeline", 0);
    assert DiffersAt("pipeline", "schema", 0);
    AdjacentRise(ms);
  }

  // ---- What each record has under each key; all other lemmas about keys follow from these.

  lemma MessageKeys(m: Message)
    ensures Rising(MessageJson(m).members)
    ensures Get(MessageJson(m), "discriminator") == Some(Number(m.discriminator))
    ensures Get(MessageJson(m), "fields") == Some(FieldsJson(m.fields))
    ensures Get(MessageJson(m), "name") == Some(Text(m.name))
    ensures Get(MessageJson(m), "size") == Some(Number(m.size))
  {
    hide Get, Rising, FieldsJson, MessagesJson, TypesJson, EventsJson, WireJson, PipelineJson, SchemaJson;
    var values := [Number(m.discriminator), FieldsJson(m.fields), Text(m.name), Number(m.size)];
    var ms := Named(["discriminator", "fields", "name", "size"], values);
    MessageOrder(values);
    assert MessageJson(m).members == ms;
    AllFound(ms);
    assert ms[0].key == "discriminator";
    assert ms[1].key == "fields";
    assert ms[2].key == "name";
    assert ms[3].key == "size";
  }

  lemma EventKeys(e: Event)
    ensures Rising(EventJson(e).members)
    ensures Get(EventJson(e), "event") == Some(Text(e.event))
    ensures Get(EventJson(e), "fields") == Some(FieldsJson(e.fields))
    ensures Get(EventJson(e), "source") == Some(Text([e.sourceDiscriminator as char]))
    ensures Get(EventJson(e), "source_discriminator") == Some(Number(e.sourceDiscriminator))
    ensures Get(EventJson(e), "source_message") == Some(Text(e.sourceMessage))
  {
    hide Get, Rising, FieldsJson, MessagesJson, TypesJson, EventsJson, WireJson, PipelineJson, SchemaJson;
    var values := [Text(e.event), FieldsJson(e.fields), Text([e.sourceDiscriminator as char]),
                   Number(e.sourceDiscriminator), Text(e.sourceMessage)];
    var ms := Named(["event", "fields", "source", "source_discriminator", "source_message"], values);
    EventOrder(values);
    assert EventJson(e).members == ms;
    AllFound(ms);
    assert ms[0].key == "event";
    assert ms[1].key == "fields";
    assert ms[2].key == "source";
    assert ms[3].key == "source_discriminator";
    assert ms[4].key == "source_message";
  }

  lemma WireKeys(s: Schema)
    ensures Rising(WireJson(s).members)
    ensures Get(WireJson(s), "discriminator_offset") == Some(Number(s.discriminatorOffset))
    ensures Get(WireJson(s), "discriminator_width") == Some(Number(s.discriminatorWidth))
    ensures Get(WireJson(s), "endian") == Some(Text(s.wireEndian))
  {
    hide Get, Rising, FieldsJson, MessagesJson, TypesJson, EventsJson, PipelineJson, SchemaJson;
    var values := [Number(s.discriminatorOffset), Number(s.discriminatorWidth), Text(s.wireEndian)];
    var ms := Named(["discriminator_offset", "discriminator_width", "endian"], values);
    WireOrder(values);
    assert WireJson(s).members == ms;
    AllFound(ms);
    assert ms[0].key == "discriminator_offset";
    assert ms[1].key == "discriminator_width";
    assert ms[2].key == "endian";
  }

  lemma SchemaSemanticsKeys(ir: Ffir)
    ensures Rising(SchemaSemanticsJson(ir).members)
    ensures Get(SchemaSemanticsJson(ir), "format_version") == Some(Number(ir.formatVersion))
    ensures Get(SchemaSemanticsJson(ir), "messages") == Some(MessagesJson(ir.schema.messages))
    ensures Get(SchemaSemanticsJson(ir), "name") == Some(Text(ir.schema.name))
    ensures Get(SchemaSemanticsJson(ir), "protocol_version") == Some(Text(ir.schema.protocolVersion))
    ensures Get(SchemaSemanticsJson(ir), "types") == Some(TypesJson(ir.schema.types))
    ensures Get(SchemaSemanticsJson(ir), "wire") == Some(WireJson(ir.schema))
  {
    hide Get, Rising, FieldsJson, MessagesJson, TypesJson, EventsJson, WireJson, PipelineJson, SchemaJson;
    var values := [Number(ir.formatVersion), MessagesJson(ir.schema.messages), Text(ir.schema.name),
                   Text(ir.schema.protocolVersion), TypesJson(ir.schema.types), WireJson(ir.schema)];
    var ms := Named(["format_version", "messages", "name", "protocol_version", "types", "wire"], values);
    SchemaSemanticsOrder(values);
    assert SchemaSemanticsJson(ir).members == ms;
    AllFound(ms);
    assert ms[0].key == "format_version";
    assert ms[1].key == "messages";
    assert ms[2].key == "name";
    assert ms[3].key == "protocol_version";
    assert ms[4].key == "types";
    assert ms[5].key == "wire";
  }

  lemma PipelineSemanticsKeys(ir: Ffir)
    ensures Rising(PipelineSemanticsJson(ir).members)
    ensures Get(PipelineSemanticsJson(ir), "events") == Some(EventsJson(ir.pipeline.events))
    ensures Get(PipelineSemanticsJson(ir), "format_version") == Some(Number(ir.formatVersion))
    ensures Get(PipelineSemanticsJson(ir), "name") == Some(Text(ir.pipeline.name))
    ensures Get(PipelineSemanticsJson(ir), "namespace") == Some(Text(ir.pipeline.cppNamespace))
    ensures Get(PipelineSemanticsJson(ir), "profile") == Some(Text(ir.pipeline.profile))
    ensures Get(PipelineSemanticsJson(ir), "schema") == Some(Text(ir.pipeline.schema))
    ensures Get(PipelineSemanticsJson(ir), "unknown_messages") == Some(Text(ir.pipeline.unknownMessages))
    ensures Get(PipelineSemanticsJson(ir), "unselected_messages") == Some(Text(ir.pipeline.unselectedMessages))
    ensures Get(PipelineSemanticsJson(ir), "variant_id") == Some(Text(ir.pipeline.variantId))
  {
    hide Get, Rising, FieldsJson, MessagesJson, TypesJson, EventsJson, WireJson, PipelineJson, SchemaJson;
    var values := [EventsJson(ir.pipeline.events), Number(ir.formatVersion), Text(ir.pipeline.name),
                   Text(ir.pipeline.cppNamespace), Text(ir.pipeline.profile), Text(ir.pipeline.schema),
                   Text(ir.pipeline.unknownMessages), Text(ir.pipeline.unselectedMessages),
                   Text(ir.pipeline.variantId)];
    var ms := Named(["events", "format_version", "name", "namespace", "profile", "schema", "unknown_messages",
                     "unselected_messages", "variant_id"], values);
    PipelineSemanticsOrder(values);
    assert PipelineSemanticsJson(ir).members == ms;
    AllFound(ms);
    assert ms[0].key == "events";
    assert ms[1].key == "format_version";
    assert ms[2].key == "name";
    assert ms[3].key == "namespace";
    assert ms[4].key == "profile";
    assert ms[5].key == "schema";
    assert ms[6].key == "unknown_messages";
    assert ms[7].key == "unselected_messages";
    assert ms[8].key == "variant_id";
  }

  lemma PipelineKeys(ir: Ffir)
    ensures Rising(PipelineJson(ir).members)
    ensures Get(PipelineJson(ir), "events") == Some(EventsJson(ir.pipeline.events))
    ensures Get(PipelineJson(ir), "fingerprint") == Some(Text(ir.pipelineFingerprint))
    ensures Get(PipelineJson(ir), "name") == Some(Text(ir.pipeline.name))
    ensures Get(PipelineJson(ir), "namespace") == Some(Text(ir.pipeline.cppNamespace))
    ensures Get(PipelineJson(ir), "profile") == Some(Text(ir.pipeline.profile))
    ensures Get(PipelineJson(ir), "schema") == Some(Text(ir.pipeline.schema))
    ensures Get(PipelineJson(ir), "unknown_messages") == Some(Text(ir.pipeline.unknownMessages))
    ensures Get(PipelineJson(ir), "unselected_messages") == Some(Text(ir.pipeline.unselectedMessages))
    ensures Get(PipelineJson(ir), "variant_id") == Some(Text(ir.pipeline.variantId))
  {
    hide Get, Rising, FieldsJson, MessagesJson, TypesJson, EventsJson, WireJson, SchemaJson;
    var values := [EventsJson(ir.pipeline.events), Text(ir.pipelineFingerprint), Text(ir.pipeline.name),
                   Text(ir.pipeline.cppNamespace), Text(ir.pipeline.profile), Text(ir.pipeline.schema),
                   Text(ir.pipeline.unknownMessages), Text(ir.pipeline.unselectedMessages),
                   Text(ir.pipeline.variantId)];
    var ms := Named(["events", "fingerprint", "name", "namespace", "profile", "schema", "unknown_messages",
                     "unselected_messages", "variant_id"], values);
    PipelineOrder(values);
    assert PipelineJson(ir).members == ms;
    AllFound(ms);
    assert ms[0].key == "events";
    assert ms[1].key == "fingerprint";
    assert ms[2].key == "name";
    assert ms[3].key == "namespace";
    assert ms[4].key == "profile";
    assert ms[5].key == "schema";
    assert ms[6].key == "unknown_messages";
    assert ms[7].key == "unselected_messages";
    assert ms[8].key == "variant_id";
  }

  lemma SchemaKeys(ir: Ffir)
    ensures Rising(SchemaJson(ir).members)
    ensures Get(SchemaJson(ir), "document_revision") == Some(Text(ir.schema.documentRevision))
    ensures Get(SchemaJson(ir), "fingerprint") == Some(Text(ir.schemaFingerprint))
    ensures Get(SchemaJson(ir), "messages") == Some(MessagesJson(ir.schema.messages))
    ensures Get(SchemaJson(ir), "name") == Some(Text(ir.schema.name))
    ensures Get(SchemaJson(ir), "protocol_version") == Some(Text(ir.schema.protocolVersion))
    ensures Get(SchemaJson(ir), "types") == Some(TypesJson(ir.schema.types))
    ensures Get(SchemaJson(ir), "wire") == Some(WireJson(ir.schema))
  {
    hide Get, Rising, FieldsJson, MessagesJson, TypesJson, EventsJson, WireJson, PipelineJson;
    var values := [Text(ir.schema.documentRevision), Text(ir.schemaFingerprint), MessagesJson(ir.schema.messages),
                   Text(ir.schema.name), Text(ir.schema.protocolVersion), TypesJson(ir.schema.types),
                   WireJson(ir.schema)];
    var ms := Named(["document_revision", "fingerprint", "messages", "name", "protocol_version", "types",
                     "wire"], values);
    SchemaOrder(values);
    assert SchemaJson(ir).members == ms;
    AllFound(ms);
    assert ms[0].key == "document_revision";
    assert ms[1].key == "fingerprint";
    assert ms[2].key == "messages";
    assert ms[3].key == "name";
    assert ms[4].key == "protocol_version";
    assert ms[5].key == "types";
    assert ms[6].key == "wire";
  }

  lemma IrKeys(ir: Ffir)
    ensures Rising(IrJson(ir).members)
    ensures Get(IrJson(ir), "format_version") == Some(Number(ir.formatVersion))
    ensures Get(IrJson(ir), "generator_version") == Some(Text(ir.generatorVersion))
    ensures Get(IrJson(ir), "pipeline") == Some(PipelineJson(ir))
    ensures Get(IrJson(ir), "schema") == Some(SchemaJson(ir))
  {
    hide Get, Rising, FieldsJson, MessagesJson, TypesJson, EventsJson, WireJson, PipelineJson, SchemaJson;
    var values := [Number(ir.formatVersion), Text(ir.generatorVersion), PipelineJson(ir), SchemaJson(ir)];
    var ms := Named(["format_version", "generator_version", "pipeline", "schema"], values);
    IrOrder(values);
    assert IrJson(ir).members == ms;
    AllFound(ms);
    assert ms[0].key == "format_version";
    assert ms[1].key == "generator_version";
    assert ms[2].key == "pipeline";
    assert ms[3].key == "schema";
  }

  lemma TypeKeys(t: Type)
    ensures Rising(TypeJson(t).members)
    ensures Get(TypeJson(t), "kind") == Some(Text(PhysicalName(t.physical)))
    ensures Get(TypeJson(t), "logical") == Some(Text(LogicalName(t.logical)))
    ensures Get(TypeJson(t), "name") == Some(Text(t.name))
    ensures Get(TypeJson(t), "scale") == if t.scale.Some? then Some(Number(t.scale.value)) else None
    ensures Get(TypeJson(t), "width") == Some(Number(t.width))
  {
    hide Get, Rising, PhysicalName, LogicalName;
    var scale := Member("scale", Number(if t.scale.Some? then t.scale.value else 0));
    var front := [Member("kind", Text(PhysicalName(t.physical))), Member("logical", Text(LogicalName(t.logical))),
                  Member("name", Text(t.name))];
    var back := [Member("width", Number(t.width))];
    var full, ms := front + ([scale] + back), TypeJson(t).members;
    TypeOrder([front[0].value, front[1].value, front[2].value, scale.value, back[0].value]);
    assert full == Named(["kind", "logical", "name", "scale", "width"],
                         [front[0].value, front[1].value, front[2].value, scale.value, back[0].value]);
    LeftOut(front, scale, back);
    assert ms == if t.scale.Some? then full else front + back;
    FoundAmong(ms, front + back);
    if t.scale.Some? {
      MemberFound(ms, scale);
    } else {
      NotAmong(full, scale, front, back);
      Absent(full, scale, ms);
    }
    assert front[0] in front + back && front[1] in front + back && front[2] in front + back;
    assert back[0] in front + back;
  }

  /** Whatever is among the members of an object whose keys rise is found in it. */
  lemma FoundAmong(ms: seq<Member>, some: seq<Member>)
    requires Rising(ms) && forall m <- some :: m in ms
    ensures forall m <- some :: Get(Object(ms), m.key) == Some(m.value)
  {
    hide Get, Rising;
    forall m | m in some ensures Get(Object(ms), m.key) == Some(m.value) {
      MemberFound(ms, m);
    }
  }

  /** A member stands in one place only. */
  lemma NotAmong(full: seq<Member>, m: Member, front: seq<Member>, back: seq<Member>)
    requires Rising(full) && full == front + ([m] + back)
    ensures m !in front + back && m in full && forall x <- front + back :: x in full
  {
    hide Precedes;
    if m in front {
      var i :| 0 <= i < |front| && front[i] == m;
      PrecedesDiffers(full[i].key, full[|front|].key);
    }
    if m in back {
      var i :| 0 <= i < |back| && back[i] == m;
      PrecedesDiffers(full[|front|].key, full[|front| + 1 + i].key);
    }
  }

  lemma FieldKeys(f: Field)
    ensures Rising(FieldJson(f).members)
    ensures Get(FieldJson(f), "discriminator") == Some(Bool(f.discriminator))
    ensures Get(FieldJson(f), "kind") == Some(Text(PhysicalName(f.physical)))
    ensures Get(FieldJson(f), "logical")
            == if f.logical.Some? then Some(Text(LogicalName(f.logical.value))) else None
    ensures Get(FieldJson(f), "name") == Some(Text(f.name))
    ensures Get(FieldJson(f), "offset") == Some(Number(f.offset))
    ensures Get(FieldJson(f), "projectable") == Some(Bool(f.projectable))
    ensures Get(FieldJson(f), "scale") == if f.scale.Some? then Some(Number(f.scale.value)) else None
    ensures Get(FieldJson(f), "type") == Some(Text(f.typeName))
    ensures Get(FieldJson(f), "width") == Some(Number(f.width))
  {
    hide Get, Rising, PhysicalName, LogicalName;
    var logical := Member("logical", Text(LogicalName(if f.logical.Some? then f.logical.value else Ascii)));
    var scale := Member("scale", Number(if f.scale.Some? then f.scale.value else 0));
    var a := [Member("discriminator", Bool(f.discriminator)), Member("kind", Text(PhysicalName(f.physical)))];
    var b := [Member("name", Text(f.name)), Member("offset", Number(f.offset)),
              Member("projectable", Bool(f.projectable))];
    var c := [Member("type", Text(f.typeName)), Member("width", Number(f.width))];
    FieldFull(a, logical, b, scale, c);
    FieldFound(a, logical, b, scale, c, f.logical.Some?, f.scale.Some?);
    FieldParts(f, a, logical, b, scale, c);
  }

  /** The members of a field, in the order they are printed in. */
  lemma FieldParts(f: Field, a: seq<Member>, logical: Member, b: seq<Member>, scale: Member, c: seq<Member>)
    requires a == [Member("discriminator", Bool(f.discriminator)), Member("kind", Text(PhysicalName(f.physical)))]
    requires f.logical.Some? ==> logical == Member("logical", Text(LogicalName(f.logical.value)))
    requires b == [Member("name", Text(f.name)), Member("offset", Number(f.offset)),
                   Member("projectable", Bool(f.projectable))]
    requires f.scale.Some? ==> scale == Member("scale", Number(f.scale.value))
    requires c == [Member("type", Text(f.typeName)), Member("width", Number(f.width))]
    ensures FieldJson(f).members == SomeLeftOut(a, logical, b, scale, c, f.logical.Some?, f.scale.Some?)
  {
    hide PhysicalName, LogicalName;
    var l, s := LogicalMember(f.logical), ScaleMember(f.scale);
    assert FieldJson(f).members == a + l + b + s + c;
    assert a + l + b + s + c == a + (l + (b + (s + c)));
  }

  /** Members two of which may be left out. */
  function SomeLeftOut(a: seq<Member>, logical: Member, b: seq<Member>, scale: Member, c: seq<Member>, l: bool,
                       s: bool): seq<Member>
  {
    a + ((if l then [logical] else []) + (b + ((if s then [scale] else []) + c)))
  }

  lemma FieldFound(a: seq<Member>, logical: Member, b: seq<Member>, scale: Member, c: seq<Member>, l: bool, s: bool)
    requires |a| == 2 && |b| == 3 && |c| == 2
    requires Rising(a + ([logical] + (b + ([scale] + c))))
    ensures var j := Object(SomeLeftOut(a, logical, b, scale, c, l, s));
            && Rising(j.members)
            && Get(j, a[0].key) == Some(a[0].value) && Get(j, a[1].key) == Some(a[1].value)
            && Get(j, logical.key) == (if l then Some(logical.value) else None)
            && Get(j, b[0].key) == Some(b[0].value) && Get(j, b[1].key) == Some(b[1].value)
            && Get(j, b[2].key) == Some(b[2].value)
            && Get(j, scale.key) == (if s then Some(scale.value) else None)
            && Get(j, c[0].key) == Some(c[0].value) && Get(j, c[1].key) == Some(c[1].value)
  {
    hide Get, Rising;
    var ms := SomeLeftOut(a, logical, b, scale, c, l, s);
    FieldRises(a, logical, b, scale, c, l, s);
    FoundAmong(ms, a);
    FoundAmong(ms, b);
    FoundAmong(ms, c);
    FoundOrNot(a, logical, b, scale, c, l, s);
    assert a[0] in a && a[1] in a && b[0] in b && b[1] in b && b[2] in b && c[0] in c && c[1] in c;
  }

  lemma FieldFull(a: seq<Member>, logical: Member, b: seq<Member>, scale: Member, c: seq<Member>)
    requires |a| == 2 && |b| == 3 && |c| == 2
    requires a[0].key == "discriminator" && a[1].key == "kind" && logical.key == "logical" && b[0].key == "name"
    requires b[1].key == "offset" && b[2].key == "projectable" && scale.key == "scale" && c[0].key == "type"
    requires c[1].key == "width"
    ensures Rising(a + ([logical] + (b + ([scale] + c))))
  {
    hide Rising;
    var values := [a[0].value, a[1].value, logical.value, b[0].value, b[1].value, b[2].value, scale.value,
                   c[0].value, c[1].value];
    FieldOrder(values);
    assert a + ([logical] + (b + ([scale] + c)))
        == Named(["discriminator", "kind", "logical", "name", "offset", "projectable", "scale", "type", "width"],
                 values);
  }

  /** The order stays when optional members are left out ... */
  lemma FieldRises(a: seq<Member>, logical: Member, b: seq<Member>, scale: Member, c: seq<Member>, l: bool, s: bool)
    requires Rising(a + ([logical] + (b + ([scale] + c))))
    ensures Rising(SomeLeftOut(a, logical, b, scale, c, l, s))
  {
    hide Rising;
    var withScale := b + ([scale] + c);
    LeftOut(a, logical, withScale);
    var front := a + ((if l then [logical] else []) + b);
    assert a + ([logical] + withScale) == a + [logical] + b + ([scale] + c);
    assert a + withScale == a + b + ([scale] + c);
    LeftOut(a + [logical] + b, scale, c);
    LeftOut(a + b, scale, c);
    assert a + ((if l then [logical] else []) + (b + ((if s then [scale] else []) + c)))
        == if l then (if s then a + ([logical] + withScale) else a + [logical] + b + c)
           else (if s then a + withScale else a + b + c);
  }

  /** ... and what is left out is not found. */
  lemma FoundOrNot(a: seq<Member>, logical: Member, b: seq<Member>, scale: Member, c: seq<Member>, l: bool, s: bool)
    requires Rising(a + ([logical] + (b + ([scale] + c))))
    ensures var ms := SomeLeftOut(a, logical, b, scale, c, l, s);
            && Get(Object(ms), logical.key) == (if l then Some(logical.value) else None)
            && Get(Object(ms), scale.key) == (if s then Some(scale.value) else None)
  {
    hide Rising, Get;
    var full := a + ([logical] + (b + ([scale] + c)));
    var ms := SomeLeftOut(a, logical, b, scale, c, l, s);
    FieldRises(a, logical, b, scale, c, l, s);
    NotAmong(full, logical, a, b + ([scale] + c));
    assert full == (a + [logical] + b) + ([scale] + c);
    NotAmong(full, scale, a + [logical] + b, c);
    if l {
      MemberFound(ms, logical);
    } else {
      Absent(full, logical, ms);
    }
    if s {
      MemberFound(ms, scale);
    } else {
      Absent(full, scale, ms);
    }
  }
}
