/**
 A larger pair of documents, with declared types, reserved bytes and a message that is not selected, and what
 its decoder makes of every payload.
 */
module OrderBook {
  import opened Bytes
  import opened Sorting
  import opened SchemaModel
  import opened ValidatePipeline
  import opened Compiler
  import opened FrontToBack
  import opened Documents
  import opened DocumentMeaning
  import opened Emission
  import opened Replay
  import S = ValidateSchema
  import NameRules
  import SmallestPair

  const PRICE_TYPE := TypeSource("price", "uint", 4, Some("decimal"), Some(4))
  const CLOCK_TYPE := TypeSource("clock", "uint", 6, Some("timestamp_ns"), None)

  const KIND := FieldSource("kind", "alpha", 0, 1, Some("discriminator"), Some("A"), [])
  const CLOCK := FieldSource("at", "clock", 1, 6, None, None, [])
  const SIDE := FieldSource("side", "alpha", 7, 1, None, None, ["B", "S"])
  const FILLER := FieldSource("filler", "reserved", 8, 2, None, None, [])
  const PRICE := FieldSource("price", "price", 10, 4, None, None, [])
  const ADD := MessageSource("add", "A", 14, [KIND, CLOCK, SIDE, FILLER, PRICE])

  const END_KIND := FieldSource("kind", "alpha", 0, 1, Some("discriminator"), Some("E"), [])
  const LOCATE := FieldSource("locate", "u16", 1, 2, None, None, [])
  const END := MessageSource("end", "E", 3, [END_KIND, LOCATE])

  /** Messages and types stand in an order that is not that of the FFIR. */
  const SCHEMA := SchemaSource(1, "book", "1", "1", "big", 0, 1, [PRICE_TYPE, CLOCK_TYPE], [END, ADD])
  const EMIT := ProjectionSource("A", "added", ["price", "side", "at"])
  const PIPELINE :=
    PipelineSource(1, "orders", "x", "book", "portable_checked", "error", "skip",
                   [EMIT])

  const PRICE_RESOLVED := Type("price", UnsignedInteger, 4, LogicalKind.Decimal, Some(4))
  const CLOCK_RESOLVED := Type("clock", UnsignedInteger, 6, TimestampNs, None)
  const TYPES := [PRICE_RESOLVED, CLOCK_RESOLVED]

  function Number2(a: byte, b: byte): nat { (a as nat) * 256 + b as nat }
  function Number4(a: byte, b: byte, c: byte, d: byte): nat { Number2(a, b) * 65536 + Number2(c, d) }
  function Number6(a: byte, b: byte, c: byte, d: byte, e: byte, f: byte): nat {
    Number2(a, b) * 4294967296 + Number4(c, d, e, f)
  }

  function Values(p: seq<byte>): seq<(string, Value)>
    requires |p| == 14
  {
    [("price", Scalar(CppDecimal(4, 4), Number4(p[10], p[11], p[12], p[13]))),
     ("side", Characters([p[7]])),
     ("at", Scalar(CppTimestamp, Number6(p[1], p[2], p[3], p[4], p[5], p[6])))]
  }

  /** What the decoder does: the fields named, in the order named, each from its own bytes. */
  function Expected(p: seq<byte>): Verdict<EventValue> {
    if p == [] then Decline(EmptyPayload, 0, 0)
    else if p[0] == 0x41 then
      if |p| != 14 then Decline(InvalidMessageSize, 0x41, 14)
      else Deliver(EventValue("added", Values(p)), 0x41, 14)
    else if p[0] == 0x45 then
      if |p| != 3 then Decline(InvalidMessageSize, 0x45, 3) else Decline(KnownUnselectedSkipped, 0x45, 3)
    else Decline(UnknownMessageType, p[0], 0)
  }

  // ---- The documents are accepted.

  lemma NamesValid()
    ensures IsValidSourceName("kind") && IsValidSourceName("at") && IsValidSourceName("side")
    ensures IsValidSourceName("filler") && IsValidSourceName("price") && IsValidSourceName("add")
  {
    hide IsValidSourceName;
    ShortNamesValid();
    NameRules.PlainName("filler");
    NameRules.PlainName("price");
    NameRules.PlainName("add");
  }

  lemma ShortNamesValid()
    ensures IsValidSourceName("kind") && IsValidSourceName("at") && IsValidSourceName("side")
  {
    hide IsValidSourceName;
    NameRules.PlainName("kind");
    NameRules.PlainName("at");
    NameRules.PlainName("side");
  }

  lemma MoreNamesValid()
    ensures IsValidSourceName("end") && IsValidSourceName("locate") && IsValidSourceName("clock")
  {
    hide IsValidSourceName;
    NameRules.PlainName("end");
    FieldNamesValid();
  }

  lemma FieldNamesValid()
    ensures IsValidSourceName("locate") && IsValidSourceName("clock")
  {
    hide IsValidSourceName;
    NameRules.PlainName("locate");
    NameRules.PlainName("clock");
  }

  lemma DocumentNamesValid()
    ensures IsValidSourceName("book") && IsValidSourceName("orders") && IsValidSourceName("added")
  {
    hide IsValidSourceName;
    NameRules.PlainName("book");
    NameRules.PlainName("orders");
    EventNameValid();
  }

  lemma EventNameValid()
    ensures IsValidSourceName("added")
  {
    hide IsValidSourceName;
    NameRules.PlainName("added");
  }

  lemma TypesResolve()
    ensures S.ResolveType(PRICE_TYPE) == Some(PRICE_RESOLVED) && S.ResolveType(CLOCK_TYPE) == Some(CLOCK_RESOLVED)
    ensures S.TypesAccepted(SCHEMA) && S.ResolvedTypes(SCHEMA) == TYPES
  {
    hide IsValidSourceName;
    NamesValid();
    MoreNamesValid();
  }

  const KIND_FIELD := Field("kind", "alpha", AsciiBytes, Some(Ascii), 0, 1, None, true, false)
  const CLOCK_FIELD := Field("at", "clock", UnsignedInteger, Some(TimestampNs), 1, 6, None, false, true)
  const SIDE_FIELD := Field("side", "alpha", AsciiBytes, Some(Ascii), 7, 1, None, false, true)
  const FILLER_FIELD := Field("filler", "reserved", Reserved, None, 8, 2, None, false, false)
  const PRICE_FIELD := Field("price", "price", UnsignedInteger, Some(LogicalKind.Decimal), 10, 4, Some(4), false, true)
  const LOCATE_FIELD := Field("locate", "u16", UnsignedInteger, Some(RawUnsigned), 1, 2, None, false, true)
  const ADD_FIELDS := [KIND_FIELD, CLOCK_FIELD, SIDE_FIELD, FILLER_FIELD, PRICE_FIELD]

  lemma TextFieldsResolve()
    ensures S.ResolveField(TYPES, "A", KIND) == Some(KIND_FIELD)
    ensures S.ResolveField(TYPES, "A", SIDE) == Some(SIDE_FIELD)
    ensures S.ResolveField(TYPES, "A", FILLER) == Some(FILLER_FIELD)
  {
    hide IsValidSourceName, S.FindType;
    NamesValid();
    assert IsBuiltinName("alpha") && IsBuiltinName("reserved");
  }

  lemma NumbersResolve()
    ensures S.ResolveField(TYPES, "A", CLOCK) == Some(CLOCK_FIELD)
    ensures S.ResolveField(TYPES, "A", PRICE) == Some(PRICE_FIELD)
  {
    hide IsValidSourceName, S.FindType;
    NamesValid();
    TypesFound();
    assert !IsBuiltinName("clock") && !IsBuiltinName("price");
  }

  lemma TypesFound()
    ensures S.FindType(TYPES, "price") == Some(PRICE_RESOLVED) && S.FindType(TYPES, "clock") == Some(CLOCK_RESOLVED)
  {
    assert TYPES[1..] == [CLOCK_RESOLVED];
  }

  lemma EndFieldsResolve()
    ensures S.ResolveField(TYPES, "E", END_KIND) == Some(KIND_FIELD)
    ensures S.ResolveField(TYPES, "E", LOCATE) == Some(LOCATE_FIELD)
  {
    hide IsValidSourceName;
    NamesValid();
    MoreNamesValid();
  }

  lemma AddAccepted()
    ensures S.MessageAccepted(TYPES, ADD)
  {
    hide IsValidSourceName, S.ResolveField, S.ExactCover, DistinctKeys, S.OneDiscriminator;
    NamesValid();
    TextFieldsResolve();
    NumbersResolve();
    assert S.ResolvedFields(TYPES, ADD) == ADD_FIELDS;
    AddTiles();
    AddFieldsDiffer();
  }

  lemma AddFieldsDiffer()
    ensures DistinctKeys(ADD.fields, S.SOURCE_FIELD_NAME) && S.OneDiscriminator(ADD.fields)
  {
    var fields := ADD.fields;
    assert fields[0].name[0] == 'k' && fields[1].name[0] == 'a' && fields[2].name[0] == 's';
    assert fields[3].name[0] == 'f' && fields[4].name[0] == 'p';
    DifferByLetter(fields, "kasfp");
  }

  /** Fields with names that begin with different letters, of which the first is the discriminator. */
  lemma DifferByLetter(fields: seq<FieldSource>, letters: string)
    requires |letters| == |fields| > 0
    requires forall i | 0 <= i < |fields| :: fields[i].name != "" && fields[i].name[0] == letters[i]
    requires forall i, j | 0 <= i < j < |letters| :: letters[i] != letters[j]
    requires fields[0].role.Some? && forall i | 1 <= i < |fields| :: fields[i].role.None?
    ensures DistinctKeys(fields, S.SOURCE_FIELD_NAME) && S.OneDiscriminator(fields)
  {
    forall i, j | 0 <= i < j < |fields| ensures S.SOURCE_FIELD_NAME(fields[i]) != S.SOURCE_FIELD_NAME(fields[j]) {
      LettersDiffer(fields[i].name, fields[j].name, letters[i], letters[j]);
    }
    FirstIsDiscriminator(fields);
  }

  lemma LettersDiffer(a: string, b: string, c: char, d: char)
    requires a != "" && b != "" && a[0] == c && b[0] == d && c != d
    ensures a != b
  {
  }

  lemma FirstIsDiscriminator(fields: seq<FieldSource>)
    requires fields != [] && fields[0].role.Some? && forall i | 1 <= i < |fields| :: fields[i].role.None?
    ensures S.OneDiscriminator(fields)
  {
    var first := fields[0];
    forall g | g in fields && g.role.Some? ensures g == first {
      var i :| 0 <= i < |fields| && fields[i] == g;
      assert i == 0;
    }
    assert first in fields;
  }

  lemma AddTiles()
    ensures S.ExactCover(ADD_FIELDS, 14)
  {
    assert S.Consecutive(ADD_FIELDS, 1, 1);
    assert S.Consecutive(ADD_FIELDS, 2, 7);
    assert S.Consecutive(ADD_FIELDS, 3, 8);
    assert S.Consecutive(ADD_FIELDS, 4, 10);
    S.ConsecutiveIsExact(ADD_FIELDS, 14);
  }

  lemma EndAccepted()
    ensures S.MessageAccepted(TYPES, END)
  {
    hide IsValidSourceName, S.ResolveField, S.ExactCover, DistinctKeys, S.OneDiscriminator;
    MoreNamesValid();
    EndFieldsResolve();
    var fields := [KIND_FIELD, LOCATE_FIELD];
    assert S.ResolvedFields(TYPES, END) == fields;
    assert S.Consecutive(fields, 1, 1);
    S.ConsecutiveIsExact(fields, 3);
    EndFieldsDiffer();
  }

  lemma EndFieldsDiffer()
    ensures DistinctKeys(END.fields, S.SOURCE_FIELD_NAME) && S.OneDiscriminator(END.fields)
  {
    var fields := END.fields;
    assert fields[0].name[0] == 'k' && fields[1].name[0] == 'l';
    DifferByLetter(fields, "kl");
  }

  lemma SchemaAccepted()
    ensures S.SchemaAccepted(SCHEMA)
  {
    hide IsValidSourceName, S.MessageAccepted, S.ResolveType;
    TypesResolve();
    AddAccepted();
    EndAccepted();
    DocumentNamesValid();
  }

  lemma AddFieldsSorted()
    ensures SortBy(ADD_FIELDS, FIELD_KEY) == ADD_FIELDS
  {
    hide SortBy, NameKey, Below, DistinctKeys, Ordered;
    var fields := ADD_FIELDS;
    assert FIELD_KEY(fields[0])[0] == 0 && FIELD_KEY(fields[1])[0] == 1 && FIELD_KEY(fields[2])[0] == 7;
    assert FIELD_KEY(fields[3])[0] == 8 && FIELD_KEY(fields[4])[0] == 10;
    FirstKeysRise(fields);
    SortOfSorted(fields, FIELD_KEY);
  }

  lemma FirstKeysRise(fields: seq<Field>)
    requires forall i, j | 0 <= i < j < |fields| :: fields[i].offset < fields[j].offset
    ensures Ordered(fields, FIELD_KEY) && DistinctKeys(fields, FIELD_KEY)
  {
    forall i, j | 0 <= i < j < |fields|
      ensures Below(FIELD_KEY(fields[i]), FIELD_KEY(fields[j])) && FIELD_KEY(fields[i]) != FIELD_KEY(fields[j])
    {
      assert FIELD_KEY(fields[i])[0] < FIELD_KEY(fields[j])[0];
    }
  }

  const ADD_MESSAGE := Message("add", 0x41, 14, ADD_FIELDS)

  lemma AddResolves()
    ensures S.ResolveMessage(TYPES, ADD) == ADD_MESSAGE
  {
    hide SortBy, S.ResolveField;
    TextFieldsResolve();
    NumbersResolve();
    AddFieldsSorted();
    assert S.ResolvedFields(TYPES, ADD) == ADD_FIELDS;
  }

  /** The message that is projected is found in the resolved schema. */
  lemma AddFound()
    ensures FindMessage(S.ResolveSchema(SCHEMA).messages, 0x41) == Some(ADD_MESSAGE)
  {
    hide SortBy, S.ResolveMessage, S.SchemaAccepted;
    TypesResolve();
    AddResolves();
    SchemaAccepted();
    AcceptedSchemaSound(SCHEMA);
    var messages := Map(m => S.ResolveMessage(TYPES, m), SCHEMA.messages);
    assert messages[1] == ADD_MESSAGE;
    SortMembers(messages, MESSAGE_KEY);
    UniqueMessage(S.ResolveSchema(SCHEMA).messages, ADD_MESSAGE);
  }

  lemma FieldsFound()
    ensures FindField(ADD_FIELDS, "price") == Some(PRICE_FIELD) && FindField(ADD_FIELDS, "side") == Some(SIDE_FIELD)
    ensures FindField(ADD_FIELDS, "at") == Some(CLOCK_FIELD)
  {
    assert "kind"[0] == 'k' && "at"[0] == 'a' && "side"[0] == 's' && "filler"[0] == 'f' && "price"[0] == 'p';
  }

  lemma NamesAreAccepted()
    ensures NamesAccepted(ADD_MESSAGE, EMIT.fields)
    ensures SelectedFields(ADD_MESSAGE, EMIT.fields) == [PRICE_FIELD, SIDE_FIELD, CLOCK_FIELD]
  {
    hide FindField, DistinctKeys;
    FieldsFound();
    var names := EMIT.fields;
    assert names[0][0] == 'p' && names[1][0] == 's' && names[2][0] == 'a';
    assert "*" !in names;
    NamesDiffer();
  }

  lemma NamesDiffer()
    ensures DistinctKeys(["price", "side", "at"], SELF)
  {
    var names := ["price", "side", "at"];
    assert names[0][0] == 'p' && names[1][0] == 's' && names[2][0] == 'a';
  }

  lemma EventAccepted()
    ensures ProjectionAccepted(S.ResolveSchema(SCHEMA), EMIT)
  {
    hide IsValidSourceName, NamesAccepted, SelectedFields, S.ResolveSchema;
    DocumentNamesValid();
    AddFound();
    NamesAreAccepted();
    EventNameIsFree();
  }

  lemma EventNameIsFree()
    ensures !IsGeneratedPipelineDeclaration("added")
    ensures forall f <- [PRICE_FIELD, SIDE_FIELD, CLOCK_FIELD] :: !CollidesWithEvent(f, "added")
  {
  }

  /** The pair compiles. */
  lemma BookCompiles()
    ensures Compilable(SCHEMA, PIPELINE)
  {
    hide IsValidSourceName, S.SchemaAccepted, S.ResolveSchema, ProjectionAccepted, NamespaceAccepted;
    SchemaAccepted();
    EventAccepted();
    DocumentNamesValid();
    assert NamespaceAccepted("x") by {
      SmallestPair.NamespaceIsAccepted();
    }
    assert S.ResolveSchema(SCHEMA).name == "book" by {
      NameOfResolved(SCHEMA);
    }
    assert EMIT.event == "added" && |"added"| == 5;
  }

  lemma NameOfResolved(s: SchemaSource)
    ensures S.ResolveSchema(s).name == s.name
  {
  }

  // ---- What its decoder does.

  lemma TwoBytes(p: seq<byte>)
    requires |p| == 2
    ensures BigEndian(p) == Number2(p[0], p[1])
  {
    assert p[..1][..0] == [] && p[..1] == [p[0]] && BigEndian([]) == 0;
    assert BigEndian(p[..1]) == p[0];
  }

  lemma FourBytes(p: seq<byte>)
    requires |p| == 4
    ensures BigEndian(p) == Number4(p[0], p[1], p[2], p[3])
  {
    hide Number2;
    TwoMore(p);
    TwoBytes(p[..2]);
  }

  lemma SixBytes(p: seq<byte>)
    requires |p| == 6
    ensures BigEndian(p) == Number6(p[0], p[1], p[2], p[3], p[4], p[5])
  {
    TwoMore(p);
    FourBytes(p[..4]);
  }

  lemma TwoMore(p: seq<byte>)
    requires |p| >= 2
    ensures BigEndian(p) == BigEndian(p[..|p| - 2]) * 65536 + Number2(p[|p| - 2], p[|p| - 1])
  {
    assert p[..|p| - 1][..|p| - 2] == p[..|p| - 2];
  }

  lemma ValueTypes()
    ensures FieldValueType(SCHEMA.types, PRICE) == Some(CppDecimal(4, 4))
    ensures FieldValueType(SCHEMA.types, SIDE) == Some(CppAscii(1))
    ensures FieldValueType(SCHEMA.types, CLOCK) == Some(CppTimestamp)
  {
    assert SCHEMA.types[1..] == [CLOCK_TYPE];
    assert TypeNamed(SCHEMA.types, "price") == Some(PRICE_TYPE);
    assert TypeNamed(SCHEMA.types, "clock") == Some(CLOCK_TYPE);
  }

  lemma ValuesFromFields(p: seq<byte>)
    requires |p| == 14
    ensures FromField(SCHEMA.types, Values(p)[0], PRICE, p) && FromField(SCHEMA.types, Values(p)[1], SIDE, p)
    ensures FromField(SCHEMA.types, Values(p)[2], CLOCK, p)
  {
    hide BigEndian, Number4, Number6, FieldValueType;
    ValueTypes();
    FourBytes(p[10..14]);
    SixBytes(p[1..7]);
    assert p[7..8] == [p[7]];
  }

  lemma ValuesProject(p: seq<byte>)
    requires |p| == 14
    ensures Projects(SCHEMA.types, ADD, EMIT.fields, p, Values(p))
  {
    hide FromField, Number4, Number6;
    ValuesFromFields(p);
    var fields, values := ADD.fields, Values(p);
    assert fields[4] == PRICE && fields[2] == SIDE && fields[1] == CLOCK;
    assert Grounded(SCHEMA.types, values[0], fields, p) && Grounded(SCHEMA.types, values[1], fields, p);
    assert Grounded(SCHEMA.types, values[2], fields, p);
    assert EMIT.fields[0][0] == 'p' && EMIT.fields[1][0] == 's' && EMIT.fields[2][0] == 'a';
    assert "*" !in EMIT.fields;
  }

  lemma ExpectedMeans(p: seq<byte>)
    ensures DocumentsMean(SCHEMA, PIPELINE, p, Expected(p))
  {
    hide Projects, Values;
    if |p| == 14 {
      ValuesProject(p);
    }
    assert SCHEMA.messages[0] == END && SCHEMA.messages[1] == ADD;
    assert EMIT in PIPELINE.projections && IsProjected(PIPELINE, ADD) && !IsProjected(PIPELINE, END);
    assert S.CodeByte("A") == 0x41 && S.CodeByte("E") == 0x45;
    if p != [] {
      assert Carries(ADD, p[0]) <==> p[0] == 0x41;
      assert Carries(END, p[0]) <==> p[0] == 0x45;
    }
  }

  /** Every payload, and what becomes of it: the values in the order named, and the reasons to pass one over. */
  lemma BookDecoder(generatorVersion: string, program: Program, payload: seq<byte>)
    requires CompiledTo(SCHEMA, PIPELINE, generatorVersion, program)
    ensures Run(program, payload) == Finished(Expected(payload))
  {
    hide Run, DocumentsMean, Expected, CompiledTo;
    ExpectedMeans(payload);
    CompiledDecoderMeansDocuments(SCHEMA, PIPELINE, generatorVersion, program, payload);
    AddFieldsDiffer();
    EndFieldsDiffer();
    DocumentsDetermine(SCHEMA, PIPELINE, payload, Run(program, payload).verdict, Expected(payload));
  }
}
