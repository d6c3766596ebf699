/** Lowering to FFIR (lower.cpp) and the checks the emitter makes before it writes code (`validate_ir`). */
module Backend {
  import opened Bytes
  import opened Sorting
  import opened SchemaModel
  import opened CanonicalJson
  import opened ValidatePipeline
  import Sha256

  // ---- Lowering.

  function SortedMessage(m: Message): Message {
    m.(fields := SortBy(m.fields, FIELD_KEY))
  }

  function SchemaFingerprint(ir: Ffir): string {
    Sha256.HexDigest(CanonicalSchemaSemantics(ir))
  }

  function PipelineFingerprint(ir: Ffir): string {
    Sha256.HexDigest(CanonicalPipelineSemantics(ir))
  }

  /** The FFIR before it is fingerprinted. */
  function Unsigned(schema: Schema, pipeline: Pipeline, generatorVersion: string): Ffir {
    Ffir(1, generatorVersion,
         schema.(types := SortBy(schema.types, TYPE_KEY),
                 messages := SortBy(Map(m => SortedMessage(m), schema.messages), MESSAGE_KEY)),
         "",
         pipeline.(events := SortBy(pipeline.events, EVENT_KEY)),
         "")
  }

  function Lowered(schema: Schema, pipeline: Pipeline, generatorVersion: string): Ffir {
    var ir := Unsigned(schema, pipeline, generatorVersion);
    ir.(schemaFingerprint := SchemaFingerprint(ir), pipelineFingerprint := PipelineFingerprint(ir))
  }

  method LowerToFfir(schema: Schema, pipeline: Pipeline, generatorVersion: string) returns (ir: Ffir)
    ensures ir == Lowered(schema, pipeline, generatorVersion)
    ensures ir.schemaFingerprint == SchemaFingerprint(ir) && ir.pipelineFingerprint == PipelineFingerprint(ir)
  {
    hide SortBy, SchemaFingerprint, PipelineFingerprint;
    var messages: seq<Message> := [];
    for i := 0 to |schema.messages|
      invariant messages == Map(m => SortedMessage(m), schema.messages)[..i]
    {
      messages := messages + [SortedMessage(schema.messages[i])];
    }
    assert messages == Map(m => SortedMessage(m), schema.messages);
    ir := Ffir(1, generatorVersion,
               schema.(types := SortBy(schema.types, TYPE_KEY), messages := SortBy(messages, MESSAGE_KEY)), "",
               pipeline.(events := SortBy(pipeline.events, EVENT_KEY)), "");
    assert ir == Unsigned(schema, pipeline, generatorVersion);
    FingerprintsIgnoreFingerprints(ir, SchemaFingerprint(ir), "");
    FingerprintsIgnoreFingerprints(ir, SchemaFingerprint(ir), PipelineFingerprint(ir));
    ir := ir.(schemaFingerprint := SchemaFingerprint(ir));
    ir := ir.(pipelineFingerprint := PipelineFingerprint(ir));
  }

  lemma FingerprintsIgnoreFingerprints(ir: Ffir, a: string, b: string)
    ensures var signed := ir.(schemaFingerprint := a, pipelineFingerprint := b);
            SchemaFingerprint(signed) == SchemaFingerprint(ir) && PipelineFingerprint(signed) == PipelineFingerprint(ir)
  {
    hide Sha256.HexDigest, MessagesJson, TypesJson, EventsJson;
  }

  // ---- What the emitter accepts.

  predicate FieldValid(m: Message, event: string, f: Field) {
    && IsValidSourceName(f.name)
    && !CollidesWithEvent(f, event)
    && f.projectable && !f.discriminator && f.physical != Reserved
    && f.offset <= m.size && f.width <= m.size - f.offset
    && CppTypeOf(f).Some?
    && FindField(m.fields, f.name) == Some(f)
  }

  predicate EventValid(messages: seq<Message>, e: Event) {
    && IsValidSourceName(e.event) && !IsGeneratedDeclaration(e.event)
    && match FindMessage(messages, e.sourceDiscriminator)
       case None => false
       case Some(m) =>
         && e.sourceMessage == m.name && e.fields != []
         && DistinctKeys(e.fields, FIELD_NAME)
         && forall f <- e.fields :: FieldValid(m, e.event, f)
  }

  predicate MessageValid(m: Message) {
    IsValidSourceName(m.name) && 0x21 <= m.discriminator <= 0x7e && 0 < m.size <= 65535
  }

  const FIELD_NAME := (f: Field) => f.name
  const EVENT_NAME := (e: Event) => e.event

  predicate IncreasingMessages(messages: seq<Message>) {
    forall i, j | 0 <= i < j < |messages| :: messages[i].discriminator < messages[j].discriminator
  }

  predicate IncreasingEvents(events: seq<Event>) {
    forall i, j | 0 <= i < j < |events| :: events[i].sourceDiscriminator < events[j].sourceDiscriminator
  }

  predicate HeaderValid(ir: Ffir) {
    && ir.formatVersion == 1 && ir.generatorVersion != ""
    && Sha256.IsLowerHexFingerprint(ir.schemaFingerprint) && Sha256.IsLowerHexFingerprint(ir.pipelineFingerprint)
    && SchemaFingerprint(ir) == ir.schemaFingerprint
    && PipelineFingerprint(ir) == ir.pipelineFingerprint
    && ir.schema.wireEndian == "big" && ir.schema.discriminatorOffset == 0 && ir.schema.discriminatorWidth == 1
    && ir.pipeline.profile == "portable_checked" && ir.pipeline.variantId == "portable_checked.v1"
    && (ir.pipeline.unknownMessages == "error" || ir.pipeline.unknownMessages == "skip")
    && ir.pipeline.unselectedMessages == "skip"
  }

  predicate MessagesValid(messages: seq<Message>) {
    messages != [] && (forall m <- messages :: MessageValid(m)) && IncreasingMessages(messages)
  }

  predicate EventsValid(messages: seq<Message>, events: seq<Event>) {
    && events != [] && (forall e <- events :: EventValid(messages, e))
    && DistinctKeys(events, EVENT_NAME) && IncreasingEvents(events)
  }

  predicate IrValid(ir: Ffir) {
    && HeaderValid(ir) && NamespaceAccepted(ir.pipeline.cppNamespace)
    && MessagesValid(ir.schema.messages)
    && EventsValid(ir.schema.messages, ir.pipeline.events)
  }

  method CheckMessages(messages: seq<Message>) returns (ok: bool)
    ensures ok <==> MessagesValid(messages)
  {
    hide MessageValid;
    ok := messages != [];
    var previous: Option<byte> := None;
    for i := 0 to |messages|
      invariant ok ==> messages != [] && forall k | 0 <= k < i :: MessageValid(messages[k])
      invariant ok ==> IncreasingMessages(messages[..i])
      invariant !ok ==> !MessagesValid(messages)
      invariant previous == if i == 0 then None else Some(messages[i - 1].discriminator)
    {
      var m := messages[i];
      if !MessageValid(m) || (previous.Some? && previous.value >= m.discriminator) {
        ok := false;
      }
      previous := Some(m.discriminator);
    }
    assert messages[..|messages|] == messages;
  }

  method CheckField(m: Message, event: string, f: Field) returns (ok: bool)
    ensures ok <==> FieldValid(m, event, f)
  {
    hide IsValidSourceName, CppTypeOf;
    if !IsValidSourceName(f.name) || CollidesWithEvent(f, event) {
      return false;
    }
    if !f.projectable || f.discriminator || f.physical == Reserved {
      return false;
    }
    if f.offset > m.size || f.width > m.size - f.offset || CppTypeOf(f).None? {
      return false;
    }
    var sourceField := FindField(m.fields, f.name);
    return sourceField.Some? && sourceField.value == f;
  }

  method CheckEvent(messages: seq<Message>, e: Event) returns (ok: bool)
    ensures ok <==> EventValid(messages, e)
  {
    hide IsValidSourceName, IsGeneratedDeclaration, FieldValid, DistinctKeys, KeysOf;
    ok := false;
    var message := FindMessage(messages, e.sourceDiscriminator);
    if && IsValidSourceName(e.event) && !IsGeneratedDeclaration(e.event)
       && message.Some? && e.sourceMessage == message.value.name && e.fields != [] {
      ok := true;
      var names: set<string> := {};
      DistinctStart(e.fields, FIELD_NAME);
      for i := 0 to |e.fields|
        invariant names == KeysOf(e.fields[..i], FIELD_NAME)
        invariant ok ==> DistinctKeys(e.fields[..i], FIELD_NAME)
        invariant ok ==> forall k | 0 <= k < i :: FieldValid(message.value, e.event, e.fields[k])
        invariant !ok ==> !EventValid(messages, e)
      {
        DistinctStep(e.fields, i, FIELD_NAME);
        var valid := CheckField(message.value, e.event, e.fields[i]);
        if !valid || e.fields[i].name in names {
          ok := false;
        }
        names := names + {e.fields[i].name};
      }
    }
  }

  method CheckEvents(messages: seq<Message>, events: seq<Event>) returns (ok: bool)
    ensures ok <==> EventsValid(messages, events)
  {
    hide EventValid, DistinctKeys, KeysOf;
    ok := events != [];
    var names: set<string> := {};
    var previous: Option<byte> := None;
    DistinctStart(events, EVENT_NAME);
    for i := 0 to |events|
      invariant names == KeysOf(events[..i], EVENT_NAME)
      invariant ok ==> events != [] && DistinctKeys(events[..i], EVENT_NAME)
      invariant ok ==> forall k | 0 <= k < i :: EventValid(messages, events[k])
      invariant ok ==> IncreasingEvents(events[..i])
      invariant !ok ==> !EventsValid(messages, events)
      invariant previous == if i == 0 then None else Some(events[i - 1].sourceDiscriminator)
    {
      DistinctStep(events, i, EVENT_NAME);
      var e := events[i];
      var valid := CheckEvent(messages, e);
      if !valid || e.event in names || (previous.Some? && previous.value >= e.sourceDiscriminator) {
        ok := false;
      }
      names := names + {e.event};
      previous := Some(e.sourceDiscriminator);
    }
  }

  /** Accepts exactly the FFIR values for which code may be written. */
  method ValidateIr(ir: Ffir) returns (ok: bool)
    ensures ok <==> IrValid(ir)
  {
    hide HeaderValid, NamespaceAccepted, MessagesValid, EventsValid;
    ok := HeaderValid(ir);
    if ok {
      ok := CheckNamespace(ir.pipeline.cppNamespace);
    }
    if ok {
      ok := CheckMessages(ir.schema.messages);
    }
    if ok {
      ok := CheckEvents(ir.schema.messages, ir.pipeline.events);
    }
  }
}
