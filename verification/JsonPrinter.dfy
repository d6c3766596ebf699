/** The printers of ir.cpp: every one appends to the same output string, and writes the text of its record. */
module JsonPrinter {
  import opened SchemaModel
  import opened Json
  import opened CanonicalJson

  class Printer {
    var output: string

    constructor ()
      ensures output == ""
    {
      output := "";
    }

    method AppendQuoted(value: string)
      modifies this
      ensures output == old(output) + Render(Text(value))
    {
      var escaped := EscapeJsonString(value);
      output := output + "\"";
      output := output + escaped;
      output := output + "\"";
    }

    method AppendUnsigned(value: nat)
      modifies this
      ensures output == old(output) + Render(Number(value))
    {
      output := output + DecimalText(value);
    }

    method AppendBool(value: bool)
      modifies this
      ensures output == old(output) + Render(Bool(value))
    {
      output := output + if value then "true" else "false";
    }

    // The parts of an object. `base` is the output before it and `ms` the members already printed.

    ghost predicate Printed(base: string, ms: seq<Member>)
      reads this
    {
      ms != [] && output == base + RenderOpen(ms)
    }

    method FirstKey(key: string)
      modifies this
      ensures output == old(output) + RenderOpen([]) + Key(key)
    {
      output := output + ("{" + Key(key));
    }

    method NextKey(key: string)
      modifies this
      ensures output == old(output) + "," + Key(key)
    {
      output := output + ("," + Key(key));
    }

    method NextText(key: string, value: string, ghost base: string, ghost ms: seq<Member>)
      requires Printed(base, ms)
      modifies this
      ensures Printed(base, ms + [Member(key, Text(value))])
    {
      hide RenderOpen, Render, Key;
      NextKey(key);
      AppendQuoted(value);
      MemberDone(base, ms, Member(key, Text(value)), output);
    }

    method NextNumber(key: string, value: nat, ghost base: string, ghost ms: seq<Member>)
      requires Printed(base, ms)
      modifies this
      ensures Printed(base, ms + [Member(key, Number(value))])
    {
      hide RenderOpen, Render, Key;
      NextKey(key);
      AppendUnsigned(value);
      MemberDone(base, ms, Member(key, Number(value)), output);
    }

    method NextBool(key: string, value: bool, ghost base: string, ghost ms: seq<Member>)
      requires Printed(base, ms)
      modifies this
      ensures Printed(base, ms + [Member(key, Bool(value))])
    {
      hide RenderOpen, Render, Key;
      NextKey(key);
      AppendBool(value);
      MemberDone(base, ms, Member(key, Bool(value)), output);
    }

    method Close(ghost base: string, ghost ms: seq<Member>)
      requires Printed(base, ms)
      modifies this
      ensures output == base + Render(Object(ms))
    {
      hide RenderOpen;
      output := output + "}";
    }

    method AppendType(t: Type)
      modifies this
      ensures output == old(output) + Render(TypeJson(t))
    {
      hide RenderOpen, Render, PhysicalName, LogicalName;
      ghost var base := output;
      FirstKey("kind");
      AppendQuoted(PhysicalName(t.physical));
      FirstDone(base, Member("kind", Text(PhysicalName(t.physical))), output);
      ghost var ms := [Member("kind", Text(PhysicalName(t.physical)))];
      NextText("logical", LogicalName(t.logical), base, ms);
      ms := ms + [Member("logical", Text(LogicalName(t.logical)))];
      NextText("name", t.name, base, ms);
      ms := ms + [Member("name", Text(t.name))];
      if t.scale.Some? {
        NextNumber("scale", t.scale.value, base, ms);
      }
      assert t.scale.None? ==> ms + ScaleMember(t.scale) == ms;
      ms := ms + ScaleMember(t.scale);
      NextNumber("width", t.width, base, ms);
      ms := ms + [Member("width", Number(t.width))];
      Close(base, ms);
      assert TypeJson(t) == Object(ms);
    }

    method AppendFieldHead(f: Field, ghost base: string)
      requires output == base
      modifies this
      ensures Printed(base, FieldHead(f))
    {
      hide RenderOpen, Render, PhysicalName, LogicalName;
      FirstKey("discriminator");
      AppendBool(f.discriminator);
      FirstDone(base, Member("discriminator", Bool(f.discriminator)), output);
      ghost var ms := [Member("discriminator", Bool(f.discriminator))];
      NextText("kind", PhysicalName(f.physical), base, ms);
      ms := ms + [Member("kind", Text(PhysicalName(f.physical)))];
      if f.logical.Some? {
        NextText("logical", LogicalName(f.logical.value), base, ms);
      }
      assert f.logical.None? ==> ms + LogicalMember(f.logical) == ms;
      assert FieldHead(f) == ms + LogicalMember(f.logical);
    }

    method AppendField(f: Field)
      modifies this
      ensures output == old(output) + Render(FieldJson(f))
    {
      hide RenderOpen, Render, PhysicalName, LogicalName;
      ghost var base := output;
      AppendFieldHead(f, base);
      ghost var ms := FieldHead(f);
      NextText("name", f.name, base, ms);
      ms := ms + [Member("name", Text(f.name))];
      NextNumber("offset", f.offset, base, ms);
      ms := ms + [Member("offset", Number(f.offset))];
      NextBool("projectable", f.projectable, base, ms);
      ms := ms + [Member("projectable", Bool(f.projectable))];
      if f.scale.Some? {
        NextNumber("scale", f.scale.value, base, ms);
      }
      assert f.scale.None? ==> ms + ScaleMember(f.scale) == ms;
      ms := ms + ScaleMember(f.scale);
      NextText("type", f.typeName, base, ms);
      ms := ms + [Member("type", Text(f.typeName))];
      NextNumber("width", f.width, base, ms);
      ms := ms + [Member("width", Number(f.width))];
      Close(base, ms);
      assert FieldJson(f) == Object(ms);
    }

    method AppendTypes(types: seq<Type>)
      modifies this
      ensures output == old(output) + Render(TypesJson(types))
    {
      hide TypeJson, RenderItems;
      ghost var base, items := output, TypesJson(types).items;
      output := output + "[";
      ItemsStart(base, items, output);
      var first := true;
      for i := 0 to |types|
        invariant first <==> i == 0
        invariant output == base + "[" + RenderItems(items[..i])
      {
        if !first {
          output := output + ",";
        }
        first := false;
        AppendType(types[i]);
        ItemDone(base, items, i, output);
      }
      output := output + "]";
    }

    method AppendFields(fields: seq<Field>)
      modifies this
      ensures output == old(output) + Render(FieldsJson(fields))
    {
      hide FieldJson, RenderItems;
      ghost var base, items := output, FieldsJson(fields).items;
      output := output + "[";
      ItemsStart(base, items, output);
      var first := true;
      for i := 0 to |fields|
        invariant first <==> i == 0
        invariant output == base + "[" + RenderItems(items[..i])
      {
        if !first {
          output := output + ",";
        }
        first := false;
        AppendField(fields[i]);
        ItemDone(base, items, i, output);
      }
      output := output + "]";
    }

    method AppendMessage(m: Message)
      modifies this
      ensures output == old(output) + Render(MessageJson(m))
    {
      hide RenderOpen, Render, FieldsJson;
      ghost var base := output;
      FirstKey("discriminator");
      AppendUnsigned(m.discriminator);
      FirstDone(base, Member("discriminator", Number(m.discriminator)), output);
      ghost var ms := [Member("discriminator", Number(m.discriminator))];
      NextKey("fields");
      AppendFields(m.fields);
      MemberDone(base, ms, Member("fields", FieldsJson(m.fields)), output);
      ms := ms + [Member("fields", FieldsJson(m.fields))];
      NextText("name", m.name, base, ms);
      ms := ms + [Member("name", Text(m.name))];
      NextNumber("size", m.size, base, ms);
      ms := ms + [Member("size", Number(m.size))];
      Close(base, ms);
      assert MessageJson(m) == Object(ms);
    }

    method AppendMessages(messages: seq<Message>)
      modifies this
      ensures output == old(output) + Render(MessagesJson(messages))
    {
      hide MessageJson, RenderItems;
      ghost var base, items := output, MessagesJson(messages).items;
      output := output + "[";
      ItemsStart(base, items, output);
      var first := true;
      for i := 0 to |messages|
        invariant first <==> i == 0
        invariant output == base + "[" + RenderItems(items[..i])
      {
        if !first {
          output := output + ",";
        }
        first := false;
        AppendMessage(messages[i]);
        ItemDone(base, items, i, output);
      }
      output := output + "]";
    }

    method AppendEvent(e: Event)
      modifies this
      ensures output == old(output) + Render(EventJson(e))
    {
      hide RenderOpen, Render, FieldsJson;
      ghost var base := output;
      FirstKey("event");
      AppendQuoted(e.event);
      FirstDone(base, Member("event", Text(e.event)), output);
      ghost var ms := [Member("event", Text(e.event))];
      NextKey("fields");
      AppendFields(e.fields);
      MemberDone(base, ms, Member("fields", FieldsJson(e.fields)), output);
      ms := ms + [Member("fields", FieldsJson(e.fields))];
      var sourceCharacter := e.sourceDiscriminator as char;
      NextText("source", [sourceCharacter], base, ms);
      ms := ms + [Member("source", Text([sourceCharacter]))];
      NextNumber("source_discriminator", e.sourceDiscriminator, base, ms);
      ms := ms + [Member("source_discriminator", Number(e.sourceDiscriminator))];
      NextText("source_message", e.sourceMessage, base, ms);
      ms := ms + [Member("source_message", Text(e.sourceMessage))];
      Close(base, ms);
      assert EventJson(e) == Object(ms);
    }

    method AppendEvents(events: seq<Event>)
      modifies this
      ensures output == old(output) + Render(EventsJson(events))
    {
      hide EventJson, RenderItems;
      ghost var base, items := output, EventsJson(events).items;
      output := output + "[";
      ItemsStart(base, items, output);
      var first := true;
      for i := 0 to |events|
        invariant first <==> i == 0
        invariant output == base + "[" + RenderItems(items[..i])
      {
        if !first {
          output := output + ",";
        }
        first := false;
        AppendEvent(events[i]);
        ItemDone(base, items, i, output);
      }
      output := output + "]";
    }

    method AppendWire(s: Schema)
      modifies this
      ensures output == old(output) + Render(WireJson(s))
    {
      hide RenderOpen, Render;
      ghost var base := output;
      FirstKey("discriminator_offset");
      AppendUnsigned(s.discriminatorOffset);
      FirstDone(base, Member("discriminator_offset", Number(s.discriminatorOffset)), output);
      ghost var ms := [Member("discriminator_offset", Number(s.discriminatorOffset))];
      NextNumber("discriminator_width", s.discriminatorWidth, base, ms);
      ms := ms + [Member("discriminator_width", Number(s.discriminatorWidth))];
      NextText("endian", s.wireEndian, base, ms);
      ms := ms + [Member("endian", Text(s.wireEndian))];
      Close(base, ms);
      assert WireJson(s) == Object(ms);
    }

    /** The schema members from `messages` on, which both schema printers share. */
    method AppendSchemaTail(s: Schema, ghost base: string, ghost before: seq<Member>)
      requires Printed(base, before)
      modifies this
      ensures Printed(base, before + SchemaTail(s))
    {
      hide RenderOpen, Render, MessagesJson, TypesJson, WireJson;
      ghost var ms := before;
      NextKey("messages");
      AppendMessages(s.messages);
      MemberDone(base, ms, Member("messages", MessagesJson(s.messages)), output);
      ms := ms + [Member("messages", MessagesJson(s.messages))];
      NextText("name", s.name, base, ms);
      ms := ms + [Member("name", Text(s.name))];
      NextText("protocol_version", s.protocolVersion, base, ms);
      ms := ms + [Member("protocol_version", Text(s.protocolVersion))];
      NextKey("types");
      AppendTypes(s.types);
      MemberDone(base, ms, Member("types", TypesJson(s.types)), output);
      ms := ms + [Member("types", TypesJson(s.types))];
      NextKey("wire");
      AppendWire(s);
      MemberDone(base, ms, Member("wire", WireJson(s)), output);
      ms := ms + [Member("wire", WireJson(s))];
      assert ms == before + SchemaTail(s);
    }

    method AppendSchemaSemantics(ir: Ffir)
      modifies this
      ensures output == old(output) + CanonicalSchemaSemantics(ir)
    {
      hide RenderOpen, Render, MessagesJson, TypesJson, WireJson;
      ghost var base := output;
      FirstKey("format_version");
      AppendUnsigned(ir.formatVersion);
      FirstDone(base, Member("format_version", Number(ir.formatVersion)), output);
      ghost var ms := [Member("format_version", Number(ir.formatVersion))];
      AppendSchemaTail(ir.schema, base, ms);
      ms := ms + SchemaTail(ir.schema);
      Close(base, ms);
      assert SchemaSemanticsJson(ir) == Object(ms);
    }

    /** The pipeline members from `name` on, which both pipeline printers share. */
    method AppendPipelineTail(p: Pipeline, ghost base: string, ghost before: seq<Member>)
      requires Printed(base, before)
      modifies this
      ensures Printed(base, before + PipelineTail(p))
    {
      hide Render, RenderOpen;
      ghost var ms := before;
      NextText("name", p.name, base, ms);
      ms := ms + [Member("name", Text(p.name))];
      NextText("namespace", p.cppNamespace, base, ms);
      ms := ms + [Member("namespace", Text(p.cppNamespace))];
      NextText("profile", p.profile, base, ms);
      ms := ms + [Member("profile", Text(p.profile))];
      NextText("schema", p.schema, base, ms);
      ms := ms + [Member("schema", Text(p.schema))];
      NextText("unknown_messages", p.unknownMessages, base, ms);
      ms := ms + [Member("unknown_messages", Text(p.unknownMessages))];
      NextText("unselected_messages", p.unselectedMessages, base, ms);
      ms := ms + [Member("unselected_messages", Text(p.unselectedMessages))];
      NextText("variant_id", p.variantId, base, ms);
      ms := ms + [Member("variant_id", Text(p.variantId))];
      assert ms == before + PipelineTail(p);
    }

    method AppendPipelineSemantics(ir: Ffir)
      modifies this
      ensures output == old(output) + CanonicalPipelineSemantics(ir)
    {
      hide RenderOpen, Render, EventsJson;
      ghost var base := output;
      FirstKey("events");
      AppendEvents(ir.pipeline.events);
      FirstDone(base, Member("events", EventsJson(ir.pipeline.events)), output);
      ghost var ms := [Member("events", EventsJson(ir.pipeline.events))];
      NextNumber("format_version", ir.formatVersion, base, ms);
      ms := ms + [Member("format_version", Number(ir.formatVersion))];
      AppendPipelineTail(ir.pipeline, base, ms);
      ms := ms + PipelineTail(ir.pipeline);
      Close(base, ms);
      assert PipelineSemanticsJson(ir) == Object(ms);
    }

    method AppendPipeline(ir: Ffir)
      modifies this
      ensures output == old(output) + Render(PipelineJson(ir))
    {
      hide RenderOpen, Render, EventsJson;
      ghost var base := output;
      FirstKey("events");
      AppendEvents(ir.pipeline.events);
      FirstDone(base, Member("events", EventsJson(ir.pipeline.events)), output);
      ghost var ms := [Member("events", EventsJson(ir.pipeline.events))];
      NextText("fingerprint", ir.pipelineFingerprint, base, ms);
      ms := ms + [Member("fingerprint", Text(ir.pipelineFingerprint))];
      AppendPipelineTail(ir.pipeline, base, ms);
      ms := ms + PipelineTail(ir.pipeline);
      Close(base, ms);
      assert PipelineJson(ir) == Object(ms);
    }

    method AppendSchema(ir: Ffir)
      modifies this
      ensures output == old(output) + Render(SchemaJson(ir))
    {
      hide RenderOpen, Render, MessagesJson, TypesJson, WireJson;
      ghost var base := output;
      FirstKey("document_revision");
      AppendQuoted(ir.schema.documentRevision);
      FirstDone(base, Member("document_revision", Text(ir.schema.documentRevision)), output);
      ghost var ms := [Member("document_revision", Text(ir.schema.documentRevision))];
      NextText("fingerprint", ir.schemaFingerprint, base, ms);
      ms := ms + [Member("fingerprint", Text(ir.schemaFingerprint))];
      AppendSchemaTail(ir.schema, base, ms);
      ms := ms + SchemaTail(ir.schema);
      Close(base, ms);
      assert SchemaJson(ir) == Object(ms);
    }
  }

  function SchemaTail(s: Schema): seq<Member> {
    [Member("messages", MessagesJson(s.messages)),
     Member("name", Text(s.name)),
     Member("protocol_version", Text(s.protocolVersion)),
     Member("types", TypesJson(s.types)),
     Member("wire", WireJson(s))]
  }

  /** The members of a field up to its logical type. */
  function FieldHead(f: Field): seq<Member> {
    [Member("discriminator", Bool(f.discriminator)), Member("kind", Text(PhysicalName(f.physical)))]
    + LogicalMember(f.logical)
  }

  function PipelineTail(p: Pipeline): seq<Member> {
    [Member("name", Text(p.name)),
     Member("namespace", Text(p.cppNamespace)),
     Member("profile", Text(p.profile)),
     Member("schema", Text(p.schema)),
     Member("unknown_messages", Text(p.unknownMessages)),
     Member("unselected_messages", Text(p.unselectedMessages)),
     Member("variant_id", Text(p.variantId))]
  }

  method EscapeJsonString(value: string) returns (escaped: string)
    ensures escaped == Escape(value)
  {
    escaped := "";
    for i := 0 to |value|
      invariant escaped + Escape(value[i..]) == Escape(value)
    {
      assert value[i..][1..] == value[i + 1..];
      escaped := escaped + EscapeChar(value[i]);
    }
  }

  /** The complete canonical text, ready to be written to a file. */
  method PrintCanonicalJson(ir: Ffir) returns (text: string)
    ensures text == CanonicalText(ir)
  {
    hide RenderOpen, Render, PipelineJson, SchemaJson;
    var printer := new Printer();
    printer.FirstKey("format_version");
    printer.AppendUnsigned(ir.formatVersion);
    FirstDone("", Member("format_version", Number(ir.formatVersion)), printer.output);
    ghost var ms := [Member("format_version", Number(ir.formatVersion))];
    printer.NextText("generator_version", ir.generatorVersion, "", ms);
    ms := ms + [Member("generator_version", Text(ir.generatorVersion))];
    printer.NextKey("pipeline");
    printer.AppendPipeline(ir);
    MemberDone("", ms, Member("pipeline", PipelineJson(ir)), printer.output);
    ms := ms + [Member("pipeline", PipelineJson(ir))];
    printer.NextKey("schema");
    printer.AppendSchema(ir);
    MemberDone("", ms, Member("schema", SchemaJson(ir)), printer.output);
    ms := ms + [Member("schema", SchemaJson(ir))];
    printer.Close("", ms);
    assert IrJson(ir) == Object(ms);
    return printer.output + "\n";
  }

  lemma FirstDone(base: string, m: Member, output: string)
    requires output == base + RenderOpen([]) + Key(m.key) + Render(m.value)
    ensures output == base + RenderOpen([m])
  {
    hide Render, Key;
    assert [m][1..] == [];
  }

  lemma MemberDone(base: string, ms: seq<Member>, m: Member, output: string)
    requires ms != [] && output == base + RenderOpen(ms) + "," + Key(m.key) + Render(m.value)
    ensures output == base + RenderOpen(ms + [m])
  {
    hide RenderOpen, Render, Key;
    RenderOpenAppend(ms, m);
  }

  lemma ItemsStart(base: string, items: seq<Json>, output: string)
    requires output == base + "["
    ensures output == base + "[" + RenderItems(items[..0])
    ensures items[..|items|] == items
  {
    assert items[..0] == [];
  }

  lemma ItemDone(base: string, items: seq<Json>, i: nat, output: string)
    requires i < |items|
    requires output == base + "[" + RenderItems(items[..i]) + (if i == 0 then "" else ",") + Render(items[i])
    ensures output == base + "[" + RenderItems(items[..i + 1])
  {
    hide RenderItems, Render;
    RenderItemsAppend(items[..i], items[i]);
    assert items[..i + 1] == items[..i] + [items[i]];
  }
}
