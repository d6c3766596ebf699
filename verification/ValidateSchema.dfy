/** `validate_schema`: what is accepted, stated without loops, and the loops that decide it. */
module ValidateSchema {
  import opened Bytes
  import opened Sorting
  import opened SchemaModel
  import opened Documents

  function ResolveType(t: TypeSource): Option<Type> {
    if !IsValidSourceName(t.name) || IsBuiltinName(t.name) || (t.kind != "uint" && t.kind != "ascii") then None
    else if !(0 < t.width <= 65535) then None
    else
      var physical := if t.kind == "uint" then UnsignedInteger else AsciiBytes;
      var logicalName := if t.logical.Some? then t.logical.value
                         else if physical == UnsignedInteger then "raw_unsigned" else "ascii";
      match ParseLogical(logicalName)
      case None => None
      case Some(logical) =>
        if physical == UnsignedInteger && !IsUnsignedWidth(t.width) then None
        else if logical == Decimal && !(t.scale.Some? && 0 <= t.scale.value <= 18) then None
        else if logical != Decimal && t.scale.Some? then None
        else if !Compatible(physical, t.width, logical) then None
        else
          var scale := if logical == Decimal then Some(t.scale.value as nat) else None;
          Some(Type(t.name, physical, t.width, logical, scale))
  }

  /** A declared type is accepted exactly if the document may declare it, and resolves to what it spells. */
  lemma ResolveTypeExactly(t: TypeSource)
    ensures ResolveType(t).Some? <==> MayDeclare(t)
    ensures ResolveType(t).Some? ==> TypeSays(ResolveType(t).value, t.name, Spelling(t))
  {
    hide IsValidSourceName, IsBuiltinName, ValueType, Compatible, ParseLogical, LogicalName;
    var spelled := Spelling(t);
    if t.width > 0 && (t.kind == "uint" || t.kind == "ascii") {
      LogicalSpelled(spelled.logical);
      if ParseLogical(spelled.logical).Some? {
        ValueTypeExactly(spelled, if t.kind == "uint" then UnsignedInteger else AsciiBytes,
                         ParseLogical(spelled.logical).value);
      } else {
        NoValueType(spelled);
      }
    } else {
      NoValueType(spelled);
    }
  }

  lemma LogicalSpelled(logical: string)
    ensures ParseLogical(logical).Some? ==> LogicalName(ParseLogical(logical).value) == logical
  {
  }

  lemma NoValueType(spelled: Spelled)
    requires ParseLogical(spelled.logical).None? || spelled.width <= 0
             || (spelled.kind != "uint" && spelled.kind != "ascii")
    ensures ValueType(spelled).None?
  {
  }

  /** The table of the document and the checks of the validator agree on every spelling. */
  lemma ValueTypeExactly(spelled: Spelled, physical: PhysicalKind, logical: LogicalKind)
    requires PhysicalName(physical) == spelled.kind && physical != Reserved && spelled.width > 0
    requires ParseLogical(spelled.logical) == Some(logical)
    ensures ValueType(spelled).Some?
            <==> && (physical == UnsignedInteger ==> IsUnsignedWidth(spelled.width))
                 && (if logical == Decimal then spelled.scale.Some? && 0 <= spelled.scale.value <= 18
                     else spelled.scale.None?)
                 && Compatible(physical, spelled.width, logical)
  {
  }

  function FindType(types: seq<Type>, name: string): (found: Option<Type>)
    ensures found.Some? ==> found.value in types && found.value.name == name
    ensures found.None? ==> forall t <- types :: t.name != name
  {
    if types == [] then None
    else if types[0].name == name then Some(types[0])
    else FindType(types[1..], name)
  }

  function Describe(types: seq<Type>, f: FieldSource): Option<Description> {
    if f.width < 0 then None
    else if IsBuiltinName(f.typeName) then BuiltinType(f.typeName, f.width)
    else match FindType(types, f.typeName)
      case None => None
      case Some(t) => Some(Description(t.physical, t.width, Some(t.logical), t.scale, false))
  }

  /** The checks on one field of a message with the given code, apart from those against its siblings. */
  function ResolveField(types: seq<Type>, code: string, f: FieldSource): Option<Field> {
    if !IsValidSourceName(f.name) || !(0 <= f.offset <= 0xFFFF_FFFF) || !(0 < f.width <= 65535) then None
    else match Describe(types, f)
      case None => None
      case Some(d) =>
        if !d.variableWidth && f.width != d.width then None
        else if exists a <- f.allowed :: |a| != f.width then None
        else if f.role.Some? && f.role.value != "discriminator" then None
        else if f.role.Some? && !(f.offset == 0 && f.width == 1 && d.physical == AsciiBytes && f.value == Some(code))
        then None
        else if f.role.None? && f.value.Some? then None
        else Some(Field(f.name, f.typeName, d.physical, d.logical, f.offset, f.width, d.scale,
                        f.role.Some?, f.role.None? && d.physical != Reserved))
  }

  function TypeOr(t: TypeSource): Type {
    var r := ResolveType(t);
    if r.Some? then r.value else NO_TYPE
  }

  function FieldOr(types: seq<Type>, code: string, f: FieldSource): Field {
    var r := ResolveField(types, code, f);
    if r.Some? then r.value else NO_FIELD
  }

  function ResolvedFields(types: seq<Type>, m: MessageSource): seq<Field> {
    Map(f => FieldOr(types, m.code, f), m.fields)
  }

  // ---- Tiling.

  predicate Covers(f: Field, at: nat) {
    f.offset <= at < f.offset + f.width
  }

  predicate Covered(fields: seq<Field>, at: nat) {
    exists f <- fields :: Covers(f, at)
  }

  /** Every byte of a message lies in exactly one field, and no field leaves the message. */
  ghost predicate ExactCover(fields: seq<Field>, size: nat) {
    && (forall f <- fields :: f.offset + f.width <= size)
    && (forall at: nat | at < size :: Covered(fields, at))
    && (forall f, g, at: nat | f in fields && g in fields && Covers(f, at) && Covers(g, at) :: f == g)
  }

  predicate DistinctNames(fields: seq<Field>) {
    DistinctKeys(fields, (f: Field) => f.name)
  }

  /** The fields up to `k` lie one behind the other from zero to `coveredUntil`. */
  predicate Consecutive(fields: seq<Field>, k: nat, coveredUntil: nat)
    requires k <= |fields|
  {
    if k == 0 then coveredUntil == 0
    else
      && fields[k - 1].offset + fields[k - 1].width == coveredUntil
      && Consecutive(fields, k - 1, fields[k - 1].offset)
  }

  lemma {:induction false} ConsecutiveCovers(fields: seq<Field>, k: nat, coveredUntil: nat)
    requires k <= |fields| && Consecutive(fields, k, coveredUntil)
    ensures forall at: nat | at < coveredUntil :: Covered(fields[..k], at)
    ensures forall i | 0 <= i < k :: fields[i].offset + fields[i].width <= coveredUntil
    ensures forall i, j | 0 <= i < j < k :: fields[i].offset + fields[i].width <= fields[j].offset
  {
    if k > 0 {
      var last := fields[k - 1];
      ConsecutiveCovers(fields, k - 1, last.offset);
      assert fields[..k] == fields[..k - 1] + [last];
      forall at: nat | at < coveredUntil ensures Covered(fields[..k], at) {
        if at >= last.offset {
          assert last in fields[..k] && Covers(last, at);
        } else {
          assert Covered(fields[..k - 1], at);
        }
      }
    }
  }

  lemma ConsecutiveIsExact(fields: seq<Field>, size: nat)
    requires Consecutive(fields, |fields|, size)
    ensures ExactCover(fields, size)
  {
    ConsecutiveCovers(fields, |fields|, size);
    assert fields[..|fields|] == fields;
  }

  lemma KeyOrdersOffsets(fields: seq<Field>)
    requires Ordered(fields, FIELD_KEY)
    ensures forall i, j | 0 <= i < j < |fields| :: fields[i].offset <= fields[j].offset
  {
    forall i, j | 0 <= i < j < |fields| ensures fields[i].offset <= fields[j].offset {
      assert Below(FIELD_KEY(fields[i]), FIELD_KEY(fields[j]));
    }
  }

  /** Where the coverage loop stops, the fields do not tile the message. */
  lemma GapOrOverlap(fields: seq<Field>, size: nat, k: nat, coveredUntil: nat)
    requires Ordered(fields, FIELD_KEY) && DistinctNames(fields)
    requires forall f <- fields :: f.width > 0
    requires k < |fields| && Consecutive(fields, k, coveredUntil)
    requires fields[k].offset != coveredUntil || fields[k].offset + fields[k].width > size
    ensures !ExactCover(fields, size)
  {
    ConsecutiveCovers(fields, k, coveredUntil);
    KeyOrdersOffsets(fields);
    var here := fields[k];
    assert here in fields;
    if here.offset < coveredUntil {
      assert Covered(fields[..k], here.offset);
      var f :| f in fields[..k] && Covers(f, here.offset);
      assert f in fields && f.name != here.name && Covers(here, here.offset);
    } else if here.offset > coveredUntil && coveredUntil < size {
      assert !Covered(fields, coveredUntil);
    }
  }

  lemma UncoveredTail(fields: seq<Field>, size: nat, coveredUntil: nat)
    requires Consecutive(fields, |fields|, coveredUntil) && coveredUntil != size
    requires forall f <- fields :: f.width > 0
    ensures !ExactCover(fields, size)
  {
    ConsecutiveCovers(fields, |fields|, coveredUntil);
    if coveredUntil < size {
      assert !Covered(fields, coveredUntil);
    } else {
      assert fields[|fields| - 1] in fields;
    }
  }

  /** The coverage loop over fields in offset order decides tiling, in both directions. */
  method CheckTiling(fields: seq<Field>, size: nat) returns (ok: bool)
    requires Ordered(fields, FIELD_KEY) && DistinctNames(fields)
    requires forall f <- fields :: f.width > 0
    ensures ok <==> ExactCover(fields, size)
  {
    hide ExactCover, Ordered, DistinctNames;
    var coveredUntil: nat := 0;
    for k := 0 to |fields|
      invariant Consecutive(fields, k, coveredUntil)
    {
      var end := fields[k].offset + fields[k].width;
      if fields[k].offset < coveredUntil || fields[k].offset > coveredUntil || end > size {
        GapOrOverlap(fields, size, k, coveredUntil);
        return false;
      }
      coveredUntil := end;
    }
    if coveredUntil != size {
      UncoveredTail(fields, size, coveredUntil);
    } else {
      ConsecutiveIsExact(fields, size);
    }
    return coveredUntil == size;
  }

  /** Tiling does not depend on the order in which the fields are listed. */
  lemma ExactCoverOfMembers(xs: seq<Field>, ys: seq<Field>, size: nat)
    requires forall f :: f in xs <==> f in ys
    ensures ExactCover(xs, size) <==> ExactCover(ys, size)
  {
    assert forall at: nat :: Covered(xs, at) <==> Covered(ys, at);
  }

  // ---- Messages.

  const SOURCE_FIELD_NAME := (f: FieldSource) => f.name
  const SOURCE_TYPE_NAME := (t: TypeSource) => t.name
  const SOURCE_MESSAGE_NAME := (m: MessageSource) => m.name
  const SOURCE_MESSAGE_CODE := (m: MessageSource) => m.code

  predicate PrintableCode(code: string) {
    |code| == 1 && 0x21 <= code[0] as int <= 0x7e
  }

  function CodeByte(code: string): byte {
    if PrintableCode(code) then code[0] as int else 0
  }

  predicate OneDiscriminator(fields: seq<FieldSource>) {
    exists f <- fields :: f.role.Some? && forall g <- fields :: g.role.Some? ==> g == f
  }

  ghost predicate MessageAccepted(types: seq<Type>, m: MessageSource) {
    && IsValidSourceName(m.name) && PrintableCode(m.code) && 0 < m.size <= 65535 && m.fields != []
    && FieldsAccepted(types, m)
    && ExactCover(ResolvedFields(types, m), m.size)
  }

  predicate FieldsAccepted(types: seq<Type>, m: MessageSource) {
    && (forall f <- m.fields :: ResolveField(types, m.code, f).Some?)
    && DistinctKeys(m.fields, SOURCE_FIELD_NAME)
    && OneDiscriminator(m.fields)
  }

  function ResolveMessage(types: seq<Type>, m: MessageSource): Message {
    Message(m.name, CodeByte(m.code), if m.size > 0 then m.size else 0,
            SortBy(ResolvedFields(types, m), FIELD_KEY))
  }

  function CountDiscriminators(fields: seq<FieldSource>): nat {
    if fields == [] then 0
    else CountDiscriminators(fields[..|fields| - 1]) + if fields[|fields| - 1].role.Some? then 1 else 0
  }

  lemma {:induction false} CountIsZero(fields: seq<FieldSource>)
    ensures CountDiscriminators(fields) == 0 <==> forall f <- fields :: f.role.None?
  {
    if fields != [] {
      var butLast, last := fields[..|fields| - 1], fields[|fields| - 1];
      assert fields == butLast + [last];
      CountIsZero(butLast);
    }
  }

  lemma {:induction false} CountIsOne(fields: seq<FieldSource>)
    requires DistinctKeys(fields, SOURCE_FIELD_NAME)
    ensures CountDiscriminators(fields) == 1 <==> OneDiscriminator(fields)
  {
    if fields != [] {
      var butLast, last := fields[..|fields| - 1], fields[|fields| - 1];
      assert fields == butLast + [last];
      if last.role.None? {
        CountIsOne(butLast);
      } else {
        CountIsZero(butLast);
        LastIsOne(fields);
      }
    }
  }

  lemma LastIsOne(fields: seq<FieldSource>)
    requires DistinctKeys(fields, SOURCE_FIELD_NAME) && fields != [] && fields[|fields| - 1].role.Some?
    ensures OneDiscriminator(fields) <==> forall f <- fields[..|fields| - 1] :: f.role.None?
  {
    var butLast, last := fields[..|fields| - 1], fields[|fields| - 1];
    assert last in fields;
    forall f | f in butLast ensures f in fields && f != last {
      var i :| 0 <= i < |butLast| && butLast[i] == f;
      assert SOURCE_FIELD_NAME(fields[i]) != SOURCE_FIELD_NAME(last);
    }
  }

  /** The field loop of one message. */
  method CollectFields(types: seq<Type>, m: MessageSource) returns (r: Option<seq<Field>>)
    ensures r.Some? <==> FieldsAccepted(types, m)
    ensures r.Some? ==> r.value == ResolvedFields(types, m)
  {
    hide ResolveField, DistinctKeys, KeysOf, OneDiscriminator;
    var names: set<string> := {};
    var fields: seq<Field> := [];
    var discriminatorCount: nat := 0;
    DistinctStart(m.fields, SOURCE_FIELD_NAME);
    for i := 0 to |m.fields|
      invariant forall k | 0 <= k < i :: ResolveField(types, m.code, m.fields[k]).Some?
      invariant names == KeysOf(m.fields[..i], SOURCE_FIELD_NAME)
      invariant DistinctKeys(m.fields[..i], SOURCE_FIELD_NAME)
      invariant discriminatorCount == CountDiscriminators(m.fields[..i])
      invariant fields == ResolvedFields(types, m)[..i]
    {
      var f := m.fields[i];
      DistinctStep(m.fields, i, SOURCE_FIELD_NAME);
      var resolved := ResolveField(types, m.code, f);
      if resolved.None? || f.name in names {
        return None;
      }
      assert m.fields[..i + 1][..i] == m.fields[..i];
      if f.role.Some? {
        discriminatorCount := discriminatorCount + 1;
      }
      names := names + {f.name};
      fields := fields + [resolved.value];
    }
    CountIsOne(m.fields);
    if discriminatorCount != 1 {
      return None;
    }
    return Some(fields);
  }

  lemma ResolvedFieldFacts(types: seq<Type>, m: MessageSource)
    requires forall f <- m.fields :: ResolveField(types, m.code, f).Some?
    ensures forall f <- ResolvedFields(types, m) :: f.width > 0
    ensures DistinctKeys(m.fields, SOURCE_FIELD_NAME) ==> DistinctNames(ResolvedFields(types, m))
  {
    var fields := ResolvedFields(types, m);
    forall i | 0 <= i < |fields| ensures fields[i].width > 0 && fields[i].name == m.fields[i].name {
      assert ResolveField(types, m.code, m.fields[i]).Some?;
    }
  }

  method ValidateMessage(types: seq<Type>, m: MessageSource) returns (r: Option<Message>)
    ensures r.Some? <==> MessageAccepted(types, m)
    ensures r.Some? ==> r.value == ResolveMessage(types, m)
  {
    hide FieldsAccepted, ExactCover, ResolveField, IsValidSourceName, SortBy;
    r := None;
    if IsValidSourceName(m.name) && PrintableCode(m.code) && 0 < m.size <= 65535 && m.fields != [] {
      var fields := CollectFields(types, m);
      if fields.Some? {
        var sorted := SortBy(fields.value, FIELD_KEY);
        SortedForTiling(types, m);
        var tiles := CheckTiling(sorted, m.size);
        if tiles {
          r := Some(Message(m.name, CodeByte(m.code), m.size, sorted));
        }
      }
    }
  }

  lemma SortedForTiling(types: seq<Type>, m: MessageSource)
    requires FieldsAccepted(types, m) && m.size > 0
    ensures var fields := ResolvedFields(types, m);
            var sorted := SortBy(fields, FIELD_KEY);
            && Ordered(sorted, FIELD_KEY) && DistinctNames(sorted)
            && (forall f <- sorted :: f.width > 0)
            && (ExactCover(sorted, m.size) <==> ExactCover(fields, m.size))
  {
    hide SortBy, ExactCover, ResolveField;
    var fields := ResolvedFields(types, m);
    SortSorts(fields, FIELD_KEY);
    SortMembers(fields, FIELD_KEY);
    ResolvedFieldFacts(types, m);
    DistinctKeysInAnyOrder(fields, SortBy(fields, FIELD_KEY), (f: Field) => f.name);
    ExactCoverOfMembers(SortBy(fields, FIELD_KEY), fields, m.size);
  }

  // ---- Schemas.

  function ResolvedTypes(s: SchemaSource): seq<Type> {
    Map(t => TypeOr(t), s.types)
  }

  predicate TypesAccepted(s: SchemaSource) {
    (forall t <- s.types :: ResolveType(t).Some?) && DistinctKeys(s.types, SOURCE_TYPE_NAME)
  }

  ghost predicate MessagesAccepted(s: SchemaSource) {
    && (forall m <- s.messages :: MessageAccepted(ResolvedTypes(s), m))
    && DistinctKeys(s.messages, SOURCE_MESSAGE_NAME)
    && DistinctKeys(s.messages, SOURCE_MESSAGE_CODE)
  }

  predicate HeaderAccepted(s: SchemaSource) {
    && s.formatVersion == 1 && IsValidSourceName(s.name) && s.wireEndian == "big"
    && s.discriminatorOffset == 0 && s.discriminatorWidth == 1 && s.messages != []
  }

  ghost predicate SchemaAccepted(s: SchemaSource) {
    HeaderAccepted(s) && TypesAccepted(s) && MessagesAccepted(s)
  }

  function ResolveSchema(s: SchemaSource): Schema {
    Schema(s.name, s.protocolVersion, s.documentRevision, s.wireEndian, 0, 1,
           SortBy(ResolvedTypes(s), TYPE_KEY),
           SortBy(Map(m => ResolveMessage(ResolvedTypes(s), m), s.messages), MESSAGE_KEY))
  }

  /** The declared types that are accepted, said by the document alone. */
  lemma TypesAcceptedExactly(s: SchemaSource)
    ensures TypesAccepted(s)
            <==> (forall t <- s.types :: MayDeclare(t)) && DistinctKeys(s.types, SOURCE_TYPE_NAME)
    ensures TypesAccepted(s) ==>
              forall i | 0 <= i < |s.types| :: TypeSays(ResolvedTypes(s)[i], s.types[i].name, Spelling(s.types[i]))
  {
    hide ResolveType, DistinctKeys, MayDeclare, TypeSays;
    forall t | t in s.types
      ensures ResolveType(t).Some? <==> MayDeclare(t)
      ensures ResolveType(t).Some? ==> TypeSays(ResolveType(t).value, t.name, Spelling(t))
    {
      ResolveTypeExactly(t);
    }
  }

  method CollectTypes(s: SchemaSource) returns (r: Option<seq<Type>>)
    ensures r.Some? <==> TypesAccepted(s)
    ensures r.Some? ==> r.value == ResolvedTypes(s)
    ensures r.Some? <==> (forall t <- s.types :: MayDeclare(t)) && DistinctKeys(s.types, SOURCE_TYPE_NAME)
    ensures r.Some? ==>
              forall i | 0 <= i < |s.types| :: TypeSays(r.value[i], s.types[i].name, Spelling(s.types[i]))
  {
    hide ResolveType, DistinctKeys, KeysOf, MayDeclare, TypeSays;
    TypesAcceptedExactly(s);
    var names: set<string> := {};
    var types: seq<Type> := [];
    DistinctStart(s.types, SOURCE_TYPE_NAME);
    for i := 0 to |s.types|
      invariant forall k | 0 <= k < i :: ResolveType(s.types[k]).Some?
      invariant names == KeysOf(s.types[..i], SOURCE_TYPE_NAME)
      invariant DistinctKeys(s.types[..i], SOURCE_TYPE_NAME)
      invariant types == ResolvedTypes(s)[..i]
    {
      DistinctStep(s.types, i, SOURCE_TYPE_NAME);
      var resolved := ResolveType(s.types[i]);
      if resolved.None? || s.types[i].name in names {
        return None;
      }
      names := names + {s.types[i].name};
      types := types + [resolved.value];
    }
    return Some(types);
  }

  method CollectMessages(s: SchemaSource, types: seq<Type>) returns (r: Option<seq<Message>>)
    requires types == ResolvedTypes(s)
    ensures r.Some? <==> MessagesAccepted(s)
    ensures r.Some? ==> r.value == Map(m => ResolveMessage(types, m), s.messages)
  {
    hide MessageAccepted, ResolveMessage, ResolvedTypes, DistinctKeys, KeysOf;
    var names: set<string> := {};
    var codes: set<string> := {};
    var messages: seq<Message> := [];
    DistinctStart(s.messages, SOURCE_MESSAGE_NAME);
    DistinctStart(s.messages, SOURCE_MESSAGE_CODE);
    for i := 0 to |s.messages|
      invariant forall k | 0 <= k < i :: MessageAccepted(types, s.messages[k])
      invariant names == KeysOf(s.messages[..i], SOURCE_MESSAGE_NAME)
      invariant codes == KeysOf(s.messages[..i], SOURCE_MESSAGE_CODE)
      invariant DistinctKeys(s.messages[..i], SOURCE_MESSAGE_NAME)
      invariant DistinctKeys(s.messages[..i], SOURCE_MESSAGE_CODE)
      invariant messages == Map(m => ResolveMessage(types, m), s.messages)[..i]
    {
      DistinctStep(s.messages, i, SOURCE_MESSAGE_NAME);
      DistinctStep(s.messages, i, SOURCE_MESSAGE_CODE);
      var m := s.messages[i];
      var resolved := ValidateMessage(types, m);
      if resolved.None? || m.name in names || m.code in codes {
        return None;
      }
      names := names + {m.name};
      codes := codes + {m.code};
      messages := messages + [resolved.value];
    }
    return Some(messages);
  }

  /** Accepts exactly the schemas the specification accepts, and resolves them as it says. */
  method Validate(s: SchemaSource) returns (r: Option<Schema>)
    ensures r.Some? <==> SchemaAccepted(s)
    ensures r.Some? ==> r.value == ResolveSchema(s)
  {
    hide HeaderAccepted, TypesAccepted, MessagesAccepted, ResolvedTypes, ResolveMessage, SortBy;
    r := None;
    if HeaderAccepted(s) {
      var types := CollectTypes(s);
      if types.Some? {
        var messages := CollectMessages(s, types.value);
        if messages.Some? {
          r := Some(Schema(s.name, s.protocolVersion, s.documentRevision, s.wireEndian, 0, 1,
                           SortBy(types.value, TYPE_KEY), SortBy(messages.value, MESSAGE_KEY)));
        }
      }
    }
  }
}
