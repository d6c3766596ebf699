/**
 A reader of canonical FFIR text: every record is read by the names of its members, in whatever order they
 stand, and the text is shown to give each record back.
 */
module CanonicalReader {
  import opened Bytes
  import opened Sorting
  import opened SchemaModel
  import opened Json
  import opened JsonKeys
  import opened CanonicalJson

  // ---- Reading by key.

  function Str(j: Option<Json>): string { if j.Some? && j.value.Text? then j.value.s else "" }
  function Num(j: Option<Json>): nat { if j.Some? && j.value.Number? then j.value.n else 0 }
  function Flag(j: Option<Json>): bool { j.Some? && j.value.Bool? && j.value.b }
  function Items(j: Option<Json>): seq<Json> { if j.Some? && j.value.Array? then j.value.items else [] }
  function Inner(j: Option<Json>): Json { if j.Some? then j.value else Bool(false) }
  function ByteOf(n: nat): byte { if n < 256 then n else 0 }

  function PhysicalFrom(name: string): PhysicalKind {
    if name == "uint" then UnsignedInteger else if name == "ascii" then AsciiBytes else Reserved
  }

  function LogicalFrom(name: string): LogicalKind {
    if name == "ascii" then Ascii
    else if name == "timestamp_ns" then TimestampNs
    else if name == "decimal" then Decimal
    else if name == "stock_locate" then StockLocate
    else if name == "tracking_number" then TrackingNumber
    else if name == "order_reference_number" then OrderReferenceNumber
    else if name == "match_number" then MatchNumber
    else if name == "share_count" then ShareCount
    else RawUnsigned
  }

  function TypeFrom(j: Json): Type {
    Type(Str(Get(j, "name")), PhysicalFrom(Str(Get(j, "kind"))), Num(Get(j, "width")),
         LogicalFrom(Str(Get(j, "logical"))),
         if Get(j, "scale").Some? then Some(Num(Get(j, "scale"))) else None)
  }

  function FieldFrom(j: Json): Field {
    Field(Str(Get(j, "name")), Str(Get(j, "type")), PhysicalFrom(Str(Get(j, "kind"))),
          if Get(j, "logical").Some? then Some(LogicalFrom(Str(Get(j, "logical")))) else None,
          Num(Get(j, "offset")), Num(Get(j, "width")),
          if Get(j, "scale").Some? then Some(Num(Get(j, "scale"))) else None,
          Flag(Get(j, "discriminator")), Flag(Get(j, "projectable")))
  }

  function FieldsFrom(j: Option<Json>): seq<Field> { Map(item => FieldFrom(item), Items(j)) }

  function MessageFrom(j: Json): Message {
    Message(Str(Get(j, "name")), ByteOf(Num(Get(j, "discriminator"))), Num(Get(j, "size")),
            FieldsFrom(Get(j, "fields")))
  }

  function EventFrom(j: Json): Event {
    Event(Str(Get(j, "event")), ByteOf(Num(Get(j, "source_discriminator"))), Str(Get(j, "source_message")),
          FieldsFrom(Get(j, "fields")))
  }

  function TypesFrom(j: Option<Json>): seq<Type> { Map(item => TypeFrom(item), Items(j)) }
  function MessagesFrom(j: Option<Json>): seq<Message> { Map(item => MessageFrom(item), Items(j)) }
  function EventsFrom(j: Option<Json>): seq<Event> { Map(item => EventFrom(item), Items(j)) }

  /** A schema record; the semantics hashed for the fingerprint have no document revision. */
  function SchemaFrom(j: Json): Schema {
    var wire := Inner(Get(j, "wire"));
    Schema(Str(Get(j, "name")), Str(Get(j, "protocol_version")), Str(Get(j, "document_revision")),
           Str(Get(wire, "endian")), Num(Get(wire, "discriminator_offset")), Num(Get(wire, "discriminator_width")),
           TypesFrom(Get(j, "types")), MessagesFrom(Get(j, "messages")))
  }

  function PipelineFrom(j: Json): Pipeline {
    Pipeline(Str(Get(j, "name")), Str(Get(j, "namespace")), Str(Get(j, "schema")), Str(Get(j, "profile")),
             Str(Get(j, "variant_id")), Str(Get(j, "unknown_messages")), Str(Get(j, "unselected_messages")),
             EventsFrom(Get(j, "events")))
  }

  function IrFrom(j: Json): Ffir {
    var schema, pipeline := Inner(Get(j, "schema")), Inner(Get(j, "pipeline"));
    Ffir(Num(Get(j, "format_version")), Str(Get(j, "generator_version")),
         SchemaFrom(schema), Str(Get(schema, "fingerprint")),
         PipelineFrom(pipeline), Str(Get(pipeline, "fingerprint")))
  }

  /** The parser of canonical FFIR text. */
  function ParseIr(text: string): Option<Ffir> {
    match ReadValue(text)
    case Fail => None
    case Done(j, rest) => if rest == "\n" then Some(IrFrom(j)) else None
  }

  // ---- Keys are written as they are.

  lemma PlainKeysOfRecords()
    ensures PlainKey("discriminator")
    ensures PlainKey("kind")
    ensures PlainKey("logical")
    ensures PlainKey("name")
    ensures PlainKey("offset")
    ensures PlainKey("projectable")
  {
  }

  lemma PlainKeysOfFields()
    ensures PlainKey("scale")
    ensures PlainKey("type")
    ensures PlainKey("width")
    ensures PlainKey("fields")
    ensures PlainKey("size")
  {
  }

  lemma PlainKeysOfEvents()
    ensures PlainKey("event")
    ensures PlainKey("source")
    ensures PlainKey("source_discriminator")
    ensures PlainKey("source_message")
  {
  }

  lemma PlainKeysOfSchema()
    ensures PlainKey("document_revision")
    ensures PlainKey("fingerprint")
    ensures PlainKey("messages")
    ensures PlainKey("protocol_version")
    ensures PlainKey("types")
    ensures PlainKey("wire")
  {
  }

  lemma PlainKeysOfWire()
    ensures PlainKey("discriminator_offset")
    ensures PlainKey("discriminator_width")
    ensures PlainKey("endian")
    ensures PlainKey("format_version")
  {
  }

  lemma PlainKeysOfPipeline()
    ensures PlainKey("events")
    ensures PlainKey("namespace")
    ensures PlainKey("profile")
    ensures PlainKey("schema")
    ensures PlainKey("generator_version")
    ensures PlainKey("pipeline")
  {
  }

  lemma PlainKeysOfPolicies()
    ensures PlainKey("unknown_messages")
    ensures PlainKey("unselected_messages")
    ensures PlainKey("variant_id")
  {
  }

  lemma WellKeyedType(t: Type)
    ensures WellKeyed(TypeJson(t))
  {
    hide PlainKey, PhysicalName, LogicalName;
    PlainKeysOfRecords();
    PlainKeysOfFields();
  }

  lemma WellKeyedField(f: Field)
    ensures WellKeyed(FieldJson(f))
  {
    hide PlainKey, PhysicalName, LogicalName;
    PlainKeysOfRecords();
    PlainKeysOfFields();
  }

  lemma WellKeyedLists(fields: seq<Field>, types: seq<Type>)
    ensures WellKeyed(FieldsJson(fields)) && WellKeyed(TypesJson(types))
  {
    hide TypeJson, FieldJson;
    forall i | 0 <= i < |fields| ensures WellKeyed(FieldJson(fields[i])) {
      WellKeyedField(fields[i]);
    }
    forall i | 0 <= i < |types| ensures WellKeyed(TypeJson(types[i])) {
      WellKeyedType(types[i]);
    }
    assert forall item <- FieldsJson(fields).items :: WellKeyed(item);
    assert forall item <- TypesJson(types).items :: WellKeyed(item);
  }

  lemma WellKeyedMessage(m: Message)
    ensures WellKeyed(MessageJson(m))
  {
    hide PlainKey, FieldsJson;
    PlainKeysOfRecords();
    PlainKeysOfFields();
    WellKeyedLists(m.fields, []);
  }

  lemma WellKeyedEvent(e: Event)
    ensures WellKeyed(EventJson(e))
  {
    hide PlainKey, FieldsJson;
    PlainKeysOfRecords();
    PlainKeysOfFields();
    PlainKeysOfEvents();
    WellKeyedLists(e.fields, []);
  }

  lemma WellKeyedWire(s: Schema)
    ensures WellKeyed(WireJson(s))
  {
    hide PlainKey;
    PlainKeysOfWire();
  }

  lemma WellKeyedMessages(messages: seq<Message>)
    ensures WellKeyed(MessagesJson(messages))
  {
    hide MessageJson;
    forall i | 0 <= i < |messages| ensures WellKeyed(MessageJson(messages[i])) {
      WellKeyedMessage(messages[i]);
    }
    assert forall item <- MessagesJson(messages).items :: WellKeyed(item);
  }

  lemma WellKeyedEvents(events: seq<Event>)
    ensures WellKeyed(EventsJson(events))
  {
    hide EventJson;
    forall i | 0 <= i < |events| ensures WellKeyed(EventJson(events[i])) {
      WellKeyedEvent(events[i]);
    }
    assert forall item <- EventsJson(events).items :: WellKeyed(item);
  }

  lemma WellKeyedSchema(ir: Ffir)
    ensures WellKeyed(SchemaSemanticsJson(ir)) && WellKeyed(SchemaJson(ir))
  {
    hide PlainKey, TypesJson, MessagesJson, WireJson;
    PlainKeysOfRecords();
    PlainKeysOfFields();
    PlainKeysOfSchema();
    PlainKeysOfWire();
    WellKeyedLists([], ir.schema.types);
    WellKeyedMessages(ir.schema.messages);
    WellKeyedWire(ir.schema);
  }

  lemma WellKeyedPipelineSemantics(ir: Ffir)
    ensures WellKeyed(PipelineSemanticsJson(ir))
  {
    hide PlainKey, EventsJson;
    PlainKeysOfRecords();
    PlainKeysOfFields();
    PlainKeysOfSchema();
    PlainKeysOfWire();
    PlainKeysOfPipeline();
    PlainKeysOfPolicies();
    WellKeyedEvents(ir.pipeline.events);
  }

  lemma WellKeyedPipeline(ir: Ffir)
    ensures WellKeyed(PipelineJson(ir))
  {
    hide PlainKey, EventsJson;
    PlainKeysOfRecords();
    PlainKeysOfFields();
    PlainKeysOfSchema();
    PlainKeysOfWire();
    PlainKeysOfPipeline();
    PlainKeysOfPolicies();
    WellKeyedEvents(ir.pipeline.events);
  }

  lemma WellKeyedIr(ir: Ffir)
    ensures WellKeyed(IrJson(ir))
  {
    hide PlainKey, SchemaJson, PipelineJson;
    PlainKeysOfSchema();
    PlainKeysOfWire();
    PlainKeysOfPipeline();
    PlainKeysOfPolicies();
    WellKeyedSchema(ir);
    WellKeyedPipeline(ir);
  }

  // ---- The reader inverts the printer.

  lemma NamesInvert(physical: PhysicalKind, logical: LogicalKind)
    ensures PhysicalFrom(PhysicalName(physical)) == physical
    ensures LogicalFrom(LogicalName(logical)) == logical
  {
  }

  lemma TypeInverts(t: Type)
    ensures TypeFrom(TypeJson(t)) == t
  {
    hide Get, TypeJson, PhysicalFrom, PhysicalName, LogicalName, LogicalFrom, Rising;
    NamesInvert(t.physical, t.logical);
    TypeKeys(t);
  }

  lemma FieldInverts(f: Field)
    ensures FieldFrom(FieldJson(f)) == f
  {
    hide Get, FieldJson, PhysicalFrom, PhysicalName, LogicalName, LogicalFrom, Rising;
    NamesInvert(f.physical, if f.logical.Some? then f.logical.value else Ascii);
    FieldKeys(f);
  }

  lemma FieldsInvert(fields: seq<Field>)
    ensures FieldsFrom(Some(FieldsJson(fields))) == fields
  {
    hide FieldFrom, FieldJson;
    forall i | 0 <= i < |fields|
      ensures FieldFrom(FieldJson(fields[i])) == fields[i]
    {
      FieldInverts(fields[i]);
    }
  }

  lemma MessageInverts(m: Message)
    ensures MessageFrom(MessageJson(m)) == m
  {
    hide Get, MessageJson, FieldsFrom, FieldsJson, Rising;
    FieldsInvert(m.fields);
    MessageKeys(m);
  }

  lemma EventInverts(e: Event)
    ensures EventFrom(EventJson(e)) == e
  {
    hide Get, EventJson, FieldsFrom, FieldsJson, Rising;
    FieldsInvert(e.fields);
    EventKeys(e);
  }

  lemma ListsInvert(types: seq<Type>, messages: seq<Message>, events: seq<Event>)
    ensures TypesFrom(Some(TypesJson(types))) == types
    ensures MessagesFrom(Some(MessagesJson(messages))) == messages
    ensures EventsFrom(Some(EventsJson(events))) == events
  {
    hide TypeFrom, TypeJson, MessageFrom, MessageJson, EventFrom, EventJson;
    forall i | 0 <= i < |types| ensures TypeFrom(TypeJson(types[i])) == types[i] {
      TypeInverts(types[i]);
    }
    forall i | 0 <= i < |messages|
      ensures MessageFrom(MessageJson(messages[i])) == messages[i]
    {
      MessageInverts(messages[i]);
    }
    forall i | 0 <= i < |events|
      ensures EventFrom(EventJson(events[i])) == events[i]
    {
      EventInverts(events[i]);
    }
  }

  lemma SchemaInverts(ir: Ffir)
    ensures SchemaFrom(SchemaJson(ir)) == ir.schema
    ensures Str(Get(SchemaJson(ir), "fingerprint")) == ir.schemaFingerprint
  {
    hide Get, SchemaJson, WireJson, TypesFrom, TypesJson, MessagesFrom, MessagesJson, Rising;
    SchemaKeys(ir);
    WireKeys(ir.schema);
    ListsInvert(ir.schema.types, ir.schema.messages, []);
  }

  lemma PipelineInverts(ir: Ffir)
    ensures PipelineFrom(PipelineJson(ir)) == ir.pipeline
    ensures Str(Get(PipelineJson(ir), "fingerprint")) == ir.pipelineFingerprint
  {
    hide Get, PipelineJson, EventsFrom, EventsJson, Rising;
    PipelineKeys(ir);
    ListsInvert([], [], ir.pipeline.events);
  }

  lemma IrInverts(ir: Ffir)
    ensures IrFrom(IrJson(ir)) == ir
  {
    hide Get, IrJson, PipelineFrom, PipelineJson, SchemaFrom, SchemaJson, Rising;
    IrKeys(ir);
    SchemaInverts(ir);
    PipelineInverts(ir);
  }

  /** Canonical JSON is invertible: reading by key what was printed gives back every part of the FFIR. */
  lemma ParseCanonical(ir: Ffir)
    ensures ParseIr(CanonicalText(ir)) == Some(ir)
  {
    hide Render, ReadValue, WellKeyed, IrJson, IrFrom;
    IrInverts(ir);
    WellKeyedIr(ir);
    RoundTrip(IrJson(ir), "\n");
  }

  // ---- What the two fingerprints cover.

  /** What the schema fingerprint covers: everything but the document revision. */
  function SchemaSemantics(ir: Ffir): (nat, Schema) {
    (ir.formatVersion, ir.schema.(documentRevision := ""))
  }

  lemma SchemaSemanticsInverts(ir: Ffir)
    ensures SchemaFrom(SchemaSemanticsJson(ir)).(documentRevision := "") == ir.schema.(documentRevision := "")
    ensures Num(Get(SchemaSemanticsJson(ir), "format_version")) == ir.formatVersion
  {
    hide Get, SchemaSemanticsJson, WireJson, TypesFrom, TypesJson, MessagesFrom, MessagesJson, Rising;
    SchemaSemanticsKeys(ir);
    WireKeys(ir.schema);
    ListsInvert(ir.schema.types, ir.schema.messages, []);
  }

  lemma PipelineSemanticsInverts(ir: Ffir)
    ensures PipelineFrom(PipelineSemanticsJson(ir)) == ir.pipeline
    ensures Num(Get(PipelineSemanticsJson(ir), "format_version")) == ir.formatVersion
  {
    hide Get, PipelineSemanticsJson, EventsFrom, EventsJson, Rising;
    PipelineSemanticsKeys(ir);
    ListsInvert([], [], ir.pipeline.events);
  }

  lemma SchemaJsonDetermined(a: Ffir, b: Ffir)
    requires SchemaSemantics(a) == SchemaSemantics(b)
    ensures SchemaSemanticsJson(a) == SchemaSemanticsJson(b)
  {
    hide TypesJson, MessagesJson;
    var x, y := a.schema.(documentRevision := ""), b.schema.(documentRevision := "");
    assert x.messages == a.schema.messages && y.messages == b.schema.messages;
    assert x.types == a.schema.types && y.types == b.schema.types;
    assert x.name == a.schema.name && x.protocolVersion == a.schema.protocolVersion;
    assert WireJson(x) == WireJson(a.schema) && WireJson(y) == WireJson(b.schema);
  }

  /**
   The text hashed for the schema fingerprint is the same for two FFIR values exactly when their schema
   semantics are; the document revision, the generator version and the pipeline have no part in it.
   */
  lemma SchemaPreimage(a: Ffir, b: Ffir)
    ensures CanonicalSchemaSemantics(a) == CanonicalSchemaSemantics(b) <==> SchemaSemantics(a) == SchemaSemantics(b)
  {
    hide Render, WellKeyed, Get, SchemaSemanticsJson, SchemaFrom;
    WellKeyedSchema(a);
    WellKeyedSchema(b);
    RenderInjective(SchemaSemanticsJson(a), SchemaSemanticsJson(b));
    SchemaSemanticsInverts(a);
    SchemaSemanticsInverts(b);
    if SchemaSemantics(a) == SchemaSemantics(b) {
      SchemaJsonDetermined(a, b);
    }
  }

  lemma PipelinePreimage(a: Ffir, b: Ffir)
    ensures CanonicalPipelineSemantics(a) == CanonicalPipelineSemantics(b)
            <==> a.formatVersion == b.formatVersion && a.pipeline == b.pipeline
  {
    hide Render, WellKeyed, Get, PipelineFrom, EventsJson;
    WellKeyedPipelineSemantics(a);
    WellKeyedPipelineSemantics(b);
    RenderInjective(PipelineSemanticsJson(a), PipelineSemanticsJson(b));
    PipelineSemanticsInverts(a);
    PipelineSemanticsInverts(b);
  }

  // ---- What a reader of the texts finds.

  /** A reader of the text of a type finds under each name what the type has; the names rise. */
  lemma TypeText(t: Type)
    ensures Rising(TypeJson(t).members)
    ensures Under(Render(TypeJson(t)), "kind") == Some(Text(PhysicalName(t.physical)))
    ensures Under(Render(TypeJson(t)), "logical") == Some(Text(LogicalName(t.logical)))
    ensures Under(Render(TypeJson(t)), "name") == Some(Text(t.name))
    ensures Under(Render(TypeJson(t)), "scale") == if t.scale.Some? then Some(Number(t.scale.value)) else None
    ensures Under(Render(TypeJson(t)), "width") == Some(Number(t.width))
  {
    hide Get, Under, Render, Rising, WellKeyed, PhysicalName, LogicalName;
    hide FieldsJson, TypesJson, MessagesJson, EventsJson, TypeJson;
    TypeKeys(t);
    WellKeyedType(t);
    UnderPrinted(TypeJson(t), "kind");
    UnderPrinted(TypeJson(t), "logical");
    UnderPrinted(TypeJson(t), "name");
    UnderPrinted(TypeJson(t), "scale");
    UnderPrinted(TypeJson(t), "width");
  }

  /** A field without a logical type has no such name, and one without a scale has none either. */
  lemma FieldText(f: Field)
    ensures Rising(FieldJson(f).members)
    ensures Under(Render(FieldJson(f)), "discriminator") == Some(Bool(f.discriminator))
    ensures Under(Render(FieldJson(f)), "kind") == Some(Text(PhysicalName(f.physical)))
    ensures Under(Render(FieldJson(f)), "logical")
            == if f.logical.Some? then Some(Text(LogicalName(f.logical.value))) else None
    ensures Under(Render(FieldJson(f)), "name") == Some(Text(f.name))
    ensures Under(Render(FieldJson(f)), "offset") == Some(Number(f.offset))
    ensures Under(Render(FieldJson(f)), "projectable") == Some(Bool(f.projectable))
    ensures Under(Render(FieldJson(f)), "scale") == if f.scale.Some? then Some(Number(f.scale.value)) else None
    ensures Under(Render(FieldJson(f)), "type") == Some(Text(f.typeName))
    ensures Under(Render(FieldJson(f)), "width") == Some(Number(f.width))
  {
    hide Get, Under, Render, Rising, WellKeyed, PhysicalName, LogicalName;
    hide FieldsJson, TypesJson, MessagesJson, EventsJson, FieldJson;
    FieldKeys(f);
    WellKeyedField(f);
    UnderPrinted(FieldJson(f), "discriminator");
    UnderPrinted(FieldJson(f), "kind");
    UnderPrinted(FieldJson(f), "logical");
    UnderPrinted(FieldJson(f), "name");
    UnderPrinted(FieldJson(f), "offset");
    UnderPrinted(FieldJson(f), "projectable");
    UnderPrinted(FieldJson(f), "scale");
    UnderPrinted(FieldJson(f), "type");
    UnderPrinted(FieldJson(f), "width");
  }

  lemma MessageText(m: Message)
    ensures Rising(MessageJson(m).members)
    ensures Under(Render(MessageJson(m)), "discriminator") == Some(Number(m.discriminator))
    ensures Under(Render(MessageJson(m)), "fields") == Some(FieldsJson(m.fields))
    ensures Under(Render(MessageJson(m)), "name") == Some(Text(m.name))
    ensures Under(Render(MessageJson(m)), "size") == Some(Number(m.size))
  {
    hide Get, Under, Render, Rising, WellKeyed, PhysicalName, LogicalName;
    hide FieldsJson, TypesJson, MessagesJson, EventsJson, MessageJson;
    MessageKeys(m);
    WellKeyedMessage(m);
    UnderPrinted(MessageJson(m), "discriminator");
    UnderPrinted(MessageJson(m), "fields");
    UnderPrinted(MessageJson(m), "name");
    UnderPrinted(MessageJson(m), "size");
  }

  lemma EventText(e: Event)
    ensures Rising(EventJson(e).members)
    ensures Under(Render(EventJson(e)), "event") == Some(Text(e.event))
    ensures Under(Render(EventJson(e)), "fields") == Some(FieldsJson(e.fields))
    ensures Under(Render(EventJson(e)), "source") == Some(Text([e.sourceDiscriminator as char]))
    ensures Under(Render(EventJson(e)), "source_discriminator") == Some(Number(e.sourceDiscriminator))
    ensures Under(Render(EventJson(e)), "source_message") == Some(Text(e.sourceMessage))
  {
    hide Get, Under, Render, Rising, WellKeyed, PhysicalName, LogicalName;
    hide FieldsJson, TypesJson, MessagesJson, EventsJson, EventJson;
    EventKeys(e);
    WellKeyedEvent(e);
    UnderPrinted(EventJson(e), "event");
    UnderPrinted(EventJson(e), "fields");
    UnderPrinted(EventJson(e), "source");
    UnderPrinted(EventJson(e), "source_discriminator");
    UnderPrinted(EventJson(e), "source_message");
  }

  lemma WireText(s: Schema)
    ensures Rising(WireJson(s).members)
    ensures Under(Render(WireJson(s)), "discriminator_offset") == Some(Number(s.discriminatorOffset))
    ensures Under(Render(WireJson(s)), "discriminator_width") == Some(Number(s.discriminatorWidth))
    ensures Under(Render(WireJson(s)), "endian") == Some(Text(s.wireEndian))
  {
    hide Get, Under, Render, Rising, WellKeyed, PhysicalName, LogicalName;
    hide FieldsJson, TypesJson, MessagesJson, EventsJson, WireJson;
    WireKeys(s);
    WellKeyedWire(s);
    UnderPrinted(WireJson(s), "discriminator_offset");
    UnderPrinted(WireJson(s), "discriminator_width");
    UnderPrinted(WireJson(s), "endian");
  }

  lemma SchemaSemanticsText(ir: Ffir)
    ensures Rising(SchemaSemanticsJson(ir).members)
    ensures Under(Render(SchemaSemanticsJson(ir)), "format_version") == Some(Number(ir.formatVersion))
    ensures Under(Render(SchemaSemanticsJson(ir)), "messages") == Some(MessagesJson(ir.schema.messages))
    ensures Under(Render(SchemaSemanticsJson(ir)), "name") == Some(Text(ir.schema.name))
    ensures Under(Render(SchemaSemanticsJson(ir)), "protocol_version") == Some(Text(ir.schema.protocolVersion))
    ensures Under(Render(SchemaSemanticsJson(ir)), "types") == Some(TypesJson(ir.schema.types))
    ensures Under(Render(SchemaSemanticsJson(ir)), "wire") == Some(WireJson(ir.schema))
  {
    hide Get, Under, Render, Rising, WellKeyed, PhysicalName, LogicalName;
    hide FieldsJson, TypesJson, MessagesJson, EventsJson, SchemaSemanticsJson, WireJson;
    SchemaSemanticsKeys(ir);
    WellKeyedSchema(ir);
    UnderPrinted(SchemaSemanticsJson(ir), "format_version");
    UnderPrinted(SchemaSemanticsJson(ir), "messages");
    UnderPrinted(SchemaSemanticsJson(ir), "name");
    UnderPrinted(SchemaSemanticsJson(ir), "protocol_version");
    UnderPrinted(SchemaSemanticsJson(ir), "types");
    UnderPrinted(SchemaSemanticsJson(ir), "wire");
  }

  lemma PipelineSemanticsText(ir: Ffir)
    ensures Rising(PipelineSemanticsJson(ir).members)
    ensures Under(Render(PipelineSemanticsJson(ir)), "events") == Some(EventsJson(ir.pipeline.events))
    ensures Under(Render(PipelineSemanticsJson(ir)), "format_version") == Some(Number(ir.formatVersion))
    ensures Under(Render(PipelineSemanticsJson(ir)), "name") == Some(Text(ir.pipeline.name))
    ensures Under(Render(PipelineSemanticsJson(ir)), "namespace") == Some(Text(ir.pipeline.cppNamespace))
    ensures Under(Render(PipelineSemanticsJson(ir)), "profile") == Some(Text(ir.pipeline.profile))
    ensures Under(Render(PipelineSemanticsJson(ir)), "schema") == Some(Text(ir.pipeline.schema))
    ensures Under(Render(PipelineSemanticsJson(ir)), "unknown_messages") == Some(Text(ir.pipeline.unknownMessages))
    ensures Under(Render(PipelineSemanticsJson(ir)), "unselected_messages")
            == Some(Text(ir.pipeline.unselectedMessages))
    ensures Under(Render(PipelineSemanticsJson(ir)), "variant_id") == Some(Text(ir.pipeline.variantId))
  {
    hide Get, Under, Render, Rising, WellKeyed, PhysicalName, LogicalName;
    hide FieldsJson, TypesJson, MessagesJson, EventsJson, PipelineSemanticsJson;
    PipelineSemanticsKeys(ir);
    WellKeyedPipelineSemantics(ir);
    UnderPrinted(PipelineSemanticsJson(ir), "events");
    UnderPrinted(PipelineSemanticsJson(ir), "format_version");
    UnderPrinted(PipelineSemanticsJson(ir), "name");
    UnderPrinted(PipelineSemanticsJson(ir), "namespace");
    UnderPrinted(PipelineSemanticsJson(ir), "profile");
    UnderPrinted(PipelineSemanticsJson(ir), "schema");
    UnderPrinted(PipelineSemanticsJson(ir), "unknown_messages");
    UnderPrinted(PipelineSemanticsJson(ir), "unselected_messages");
    UnderPrinted(PipelineSemanticsJson(ir), "variant_id");
  }

  lemma PipelineText(ir: Ffir)
    ensures Rising(PipelineJson(ir).members)
    ensures Under(Render(PipelineJson(ir)), "events") == Some(EventsJson(ir.pipeline.events))
    ensures Under(Render(PipelineJson(ir)), "fingerprint") == Some(Text(ir.pipelineFingerprint))
    ensures Under(Render(PipelineJson(ir)), "name") == Some(Text(ir.pipeline.name))
    ensures Under(Render(PipelineJson(ir)), "namespace") == Some(Text(ir.pipeline.cppNamespace))
    ensures Under(Render(PipelineJson(ir)), "profile") == Some(Text(ir.pipeline.profile))
    ensures Under(Render(PipelineJson(ir)), "schema") == Some(Text(ir.pipeline.schema))
    ensures Under(Render(PipelineJson(ir)), "unknown_messages") == Some(Text(ir.pipeline.unknownMessages))
    ensures Under(Render(PipelineJson(ir)), "unselected_messages") == Some(Text(ir.pipeline.unselectedMessages))
    ensures Under(Render(PipelineJson(ir)), "variant_id") == Some(Text(ir.pipeline.variantId))
  {
    hide Get, Under, Render, Rising, WellKeyed, PhysicalName, LogicalName;
    hide FieldsJson, TypesJson, MessagesJson, EventsJson, PipelineJson;
    PipelineKeys(ir);
    WellKeyedPipeline(ir);
    UnderPrinted(PipelineJson(ir), "events");
    UnderPrinted(PipelineJson(ir), "fingerprint");
    UnderPrinted(PipelineJson(ir), "name");
    UnderPrinted(PipelineJson(ir), "namespace");
    UnderPrinted(PipelineJson(ir), "profile");
    UnderPrinted(PipelineJson(ir), "schema");
    UnderPrinted(PipelineJson(ir), "unknown_messages");
    UnderPrinted(PipelineJson(ir), "unselected_messages");
    UnderPrinted(PipelineJson(ir), "variant_id");
  }

  lemma SchemaText(ir: Ffir)
    ensures Rising(SchemaJson(ir).members)
    ensures Under(Render(SchemaJson(ir)), "document_revision") == Some(Text(ir.schema.documentRevision))
    ensures Under(Render(SchemaJson(ir)), "fingerprint") == Some(Text(ir.schemaFingerprint))
    ensures Under(Render(SchemaJson(ir)), "messages") == Some(MessagesJson(ir.schema.messages))
    ensures Under(Render(SchemaJson(ir)), "name") == Some(Text(ir.schema.name))
    ensures Under(Render(SchemaJson(ir)), "protocol_version") == Some(Text(ir.schema.protocolVersion))
    ensures Under(Render(SchemaJson(ir)), "types") == Some(TypesJson(ir.schema.types))
    ensures Under(Render(SchemaJson(ir)), "wire") == Some(WireJson(ir.schema))
  {
    hide Get, Under, Render, Rising, WellKeyed, PhysicalName, LogicalName;
    hide FieldsJson, TypesJson, MessagesJson, EventsJson, SchemaJson, WireJson;
    SchemaKeys(ir);
    WellKeyedSchema(ir);
    UnderPrinted(SchemaJson(ir), "document_revision");
    UnderPrinted(SchemaJson(ir), "fingerprint");
    UnderPrinted(SchemaJson(ir), "messages");
    UnderPrinted(SchemaJson(ir), "name");
    UnderPrinted(SchemaJson(ir), "protocol_version");
    UnderPrinted(SchemaJson(ir), "types");
    UnderPrinted(SchemaJson(ir), "wire");
  }

  /** The whole FFIR text is a pipeline and a schema behind two versions, and a newline. */
  lemma IrText(ir: Ffir)
    ensures Rising(IrJson(ir).members)
    ensures Under(CanonicalText(ir), "format_version") == Some(Number(ir.formatVersion))
    ensures Under(CanonicalText(ir), "generator_version") == Some(Text(ir.generatorVersion))
    ensures Under(CanonicalText(ir), "pipeline") == Some(PipelineJson(ir))
    ensures Under(CanonicalText(ir), "schema") == Some(SchemaJson(ir))
    ensures CanonicalText(ir) != "" && CanonicalText(ir)[|CanonicalText(ir)| - 1] == '\n'
  {
    hide Get, ReadValue, Render, Rising, WellKeyed, IrJson, PipelineJson, SchemaJson;
    IrKeys(ir);
    WellKeyedIr(ir);
    RoundTrip(IrJson(ir), "\n");
  }
}
