/** The compiler's data: what the TOML documents hold, what they resolve to, and the rules for names and types. */
module SchemaModel {
  import opened Bytes
  import opened Sorting

  // ---- Parsed documents (model.hpp). Each character of a string stands for one byte.

  datatype TypeSource = TypeSource(
    name: string, kind: string, width: int, logical: Option<string>, scale: Option<int>)

  datatype FieldSource = FieldSource(
    name: string, typeName: string, offset: int, width: int,
    role: Option<string>, value: Option<string>, allowed: seq<string>)

  datatype MessageSource = MessageSource(name: string, code: string, size: int, fields: seq<FieldSource>)

  datatype SchemaSource = SchemaSource(
    formatVersion: int, name: string, protocolVersion: string, documentRevision: string,
    wireEndian: string, discriminatorOffset: int, discriminatorWidth: int,
    types: seq<TypeSource>, messages: seq<MessageSource>)

  datatype ProjectionSource = ProjectionSource(source: string, event: string, fields: seq<string>)

  datatype PipelineSource = PipelineSource(
    formatVersion: int, name: string, cppNamespace: string, schema: string, profile: string,
    unknownMessages: string, unselectedMessages: string, projections: seq<ProjectionSource>)

  // ---- Resolved values. The FFIR records of ir.hpp repeat these field by field, so they serve for both.

  datatype PhysicalKind = UnsignedInteger | AsciiBytes | Reserved

  datatype LogicalKind =
    | RawUnsigned
    | TimestampNs
    | Decimal
    | StockLocate
    | TrackingNumber
    | OrderReferenceNumber
    | MatchNumber
    | ShareCount
    | Ascii

  datatype Type = Type(
    name: string, physical: PhysicalKind, width: nat, logical: LogicalKind, scale: Option<nat>)

  datatype Field = Field(
    name: string, typeName: string, physical: PhysicalKind, logical: Option<LogicalKind>,
    offset: nat, width: nat, scale: Option<nat>, discriminator: bool, projectable: bool)

  datatype Message = Message(name: string, discriminator: byte, size: nat, fields: seq<Field>)

  datatype Event = Event(event: string, sourceDiscriminator: byte, sourceMessage: string, fields: seq<Field>)

  datatype Schema = Schema(
    name: string, protocolVersion: string, documentRevision: string, wireEndian: string,
    discriminatorOffset: nat, discriminatorWidth: nat, types: seq<Type>, messages: seq<Message>)

  datatype Pipeline = Pipeline(
    name: string, cppNamespace: string, schema: string, profile: string, variantId: string,
    unknownMessages: string, unselectedMessages: string, events: seq<Event>)

  const NO_TYPE := Type("", Reserved, 0, Ascii, None)
  const NO_FIELD := Field("", "", Reserved, None, 0, 0, None, false, false)

  const TYPE_KEY := (t: Type) => NameKey(t.name)
  const FIELD_KEY := (f: Field) => [f.offset] + NameKey(f.name)
  const MESSAGE_KEY := (m: Message) => [m.discriminator as nat]
  const EVENT_KEY := (e: Event) => [e.sourceDiscriminator as nat]

  // ---- Names.

  predicate IsLower(c: char) { 'a' <= c <= 'z' }
  predicate IsUpper(c: char) { 'A' <= c <= 'Z' }

  predicate IsCppKeyword(name: string) {
    name in {
      "alignas", "alignof", "and", "and_eq", "asm", "auto", "bitand", "bitor", "bool", "break", "case", "catch",
      "char", "char16_t", "char32_t", "char8_t", "class", "co_await", "co_return", "co_yield", "compl", "concept",
      "const", "const_cast", "consteval", "constexpr", "constinit", "continue", "decltype", "default", "delete",
      "do", "double", "dynamic_cast", "else", "enum", "explicit", "export", "extern", "false", "float", "for",
      "friend", "goto", "if", "inline", "int", "long", "mutable", "namespace", "new", "noexcept", "not", "not_eq",
      "nullptr", "operator", "or", "or_eq", "private", "protected", "public", "register", "reinterpret_cast",
      "requires", "return", "short", "signed", "sizeof", "static", "static_assert", "static_cast", "struct",
      "switch", "template", "this", "thread_local", "throw", "true", "try", "typedef", "typeid", "typename",
      "union", "unsigned", "using", "virtual", "void", "volatile", "wchar_t", "while", "xor", "xor_eq" }
  }

  predicate HasDoubleUnderscore(name: string) {
    exists i | 0 <= i < |name| - 1 :: name[i] == '_' && name[i + 1] == '_'
  }

  predicate IsValidSourceName(name: string) {
    && name != [] && |name| <= 128 && IsLower(name[0])
    && !HasDoubleUnderscore(name) && !IsCppKeyword(name)
    && forall i | 1 <= i < |name| :: IsLower(name[i]) || IsDigit(name[i]) || name[i] == '_'
  }

  predicate IsValidNamespaceComponent(name: string) {
    && name != [] && (IsLower(name[0]) || IsUpper(name[0]))
    && !HasDoubleUnderscore(name) && !IsCppKeyword(name)
    && forall i | 1 <= i < |name| :: IsLower(name[i]) || IsUpper(name[i]) || IsDigit(name[i]) || name[i] == '_'
  }

  /** Names the front end refuses for events. */
  predicate IsGeneratedPipelineDeclaration(name: string) {
    name in ["basic_decoder", "decoder", "pipeline_metadata", "sink_for_all_selected_events"]
  }

  /** Names the emitter refuses for events; one more than the front end. */
  predicate IsGeneratedDeclaration(name: string) {
    name in ["basic_decoder", "chunked_replayer", "decoder", "pipeline_metadata", "sink_for_all_selected_events"]
  }

  predicate SeparatorAt(ns: string, i: nat) {
    i + 1 < |ns| && ns[i] == ':' && ns[i + 1] == ':'
  }

  /** `find("::", start)`. */
  function FindSeparator(ns: string, start: nat): (at: Option<nat>)
    requires start <= |ns|
    ensures at.None? ==> forall i | start <= i :: !SeparatorAt(ns, i)
    ensures at.Some? ==> start <= at.value && SeparatorAt(ns, at.value)
    ensures at.Some? ==> forall i | start <= i < at.value :: !SeparatorAt(ns, i)
    decreases |ns| - start
  {
    if start + 1 >= |ns| then None
    else if SeparatorAt(ns, start) then Some(start)
    else FindSeparator(ns, start + 1)
  }

  function Components(ns: string, start: nat): seq<string>
    requires start <= |ns|
    decreases |ns| - start
  {
    match FindSeparator(ns, start)
    case None => [ns[start..]]
    case Some(at) => [ns[start..at]] + Components(ns, at + 2)
  }

  predicate NamespaceAccepted(ns: string) {
    ns != [] && forall c <- Components(ns, 0) :: IsValidNamespaceComponent(c)
  }

  /** The component loop both validators run over a namespace. */
  method CheckNamespace(ns: string) returns (ok: bool)
    ensures ok <==> NamespaceAccepted(ns)
  {
    hide IsValidNamespaceComponent;
    if ns == [] {
      return false;
    }
    var componentStart := 0;
    ok := true;
    var more := true;
    while ok && more
      invariant componentStart <= |ns|
      invariant ok && more ==>
                  (NamespaceAccepted(ns)
                   <==> forall c <- Components(ns, componentStart) :: IsValidNamespaceComponent(c))
      invariant ok && !more ==> NamespaceAccepted(ns)
      invariant !ok ==> !NamespaceAccepted(ns)
      decreases more, |ns| - componentStart, ok
    {
      var separator := FindSeparator(ns, componentStart);
      var componentEnd := if separator.None? then |ns| else separator.value;
      var component := ns[componentStart..componentEnd];
      assert Components(ns, componentStart)[0] == component;
      assert separator.Some? ==>
          Components(ns, componentStart) == [component] + Components(ns, separator.value + 2);
      if !IsValidNamespaceComponent(component) {
        ok := false;
      } else if separator.None? {
        more := false;
      } else {
        componentStart := separator.value + 2;
      }
    }
  }

  function Join(components: seq<string>): string
  {
    if components == [] then ""
    else if |components| == 1 then components[0]
    else components[0] + "::" + Join(components[1..])
  }

  /** Splitting loses nothing, so a namespace is accepted for what is printed and not for what was skipped. */
  lemma {:induction false} JoinComponents(ns: string, start: nat)
    requires start <= |ns|
    ensures Join(Components(ns, start)) == ns[start..]
    decreases |ns| - start
  {
    match FindSeparator(ns, start)
    case None =>
    case Some(at) =>
      JoinComponents(ns, at + 2);
      assert Components(ns, start)[1..] == Components(ns, at + 2);
      assert ns[at..at + 2] == "::";
      assert ns[start..] == ns[start..at] + ns[at..at + 2] + ns[at + 2..];
  }

  // ---- Types.

  function PhysicalName(kind: PhysicalKind): string {
    match kind
    case UnsignedInteger => "uint"
    case AsciiBytes => "ascii"
    case Reserved => "reserved"
  }

  function LogicalName(kind: LogicalKind): string {
    match kind
    case RawUnsigned => "raw_unsigned"
    case TimestampNs => "timestamp_ns"
    case Decimal => "decimal"
    case StockLocate => "stock_locate"
    case TrackingNumber => "tracking_number"
    case OrderReferenceNumber => "order_reference_number"
    case MatchNumber => "match_number"
    case ShareCount => "share_count"
    case Ascii => "ascii"
  }

  function ParseLogical(name: string): Option<LogicalKind> {
    if name == "raw_unsigned" then Some(RawUnsigned)
    else if name == "timestamp_ns" then Some(TimestampNs)
    else if name == "decimal" then Some(Decimal)
    else if name == "stock_locate" then Some(StockLocate)
    else if name == "tracking_number" then Some(TrackingNumber)
    else if name == "order_reference_number" then Some(OrderReferenceNumber)
    else if name == "match_number" then Some(MatchNumber)
    else if name == "share_count" then Some(ShareCount)
    else if name == "ascii" then Some(Ascii)
    else None
  }

  predicate IsUnsignedWidth(width: nat) {
    width == 1 || width == 2 || width == 4 || width == 6 || width == 8
  }

  predicate Compatible(physical: PhysicalKind, width: nat, logical: LogicalKind) {
    match logical
    case RawUnsigned => physical == UnsignedInteger && IsUnsignedWidth(width)
    case Ascii => physical == AsciiBytes && width > 0
    case TimestampNs => physical == UnsignedInteger && width == 6
    case Decimal => physical == UnsignedInteger && (width == 4 || width == 8)
    case StockLocate => physical == UnsignedInteger && width == 2
    case TrackingNumber => physical == UnsignedInteger && width == 2
    case OrderReferenceNumber => physical == UnsignedInteger && width == 8
    case MatchNumber => physical == UnsignedInteger && width == 8
    case ShareCount => physical == UnsignedInteger && width == 4
  }

  datatype Description = Description(
    physical: PhysicalKind, width: nat, logical: Option<LogicalKind>, scale: Option<nat>, variableWidth: bool)

  predicate IsBuiltinName(name: string) {
    name in ["alpha", "reserved", "u16", "u32", "u48", "u64", "u8"]
  }

  function BuiltinType(name: string, fieldWidth: nat): (description: Option<Description>)
    ensures description.Some? <==> IsBuiltinName(name)
  {
    if name == "u8" then Some(Description(UnsignedInteger, 1, Some(RawUnsigned), None, false))
    else if name == "u16" then Some(Description(UnsignedInteger, 2, Some(RawUnsigned), None, false))
    else if name == "u32" then Some(Description(UnsignedInteger, 4, Some(RawUnsigned), None, false))
    else if name == "u48" then Some(Description(UnsignedInteger, 6, Some(RawUnsigned), None, false))
    else if name == "u64" then Some(Description(UnsignedInteger, 8, Some(RawUnsigned), None, false))
    else if name == "alpha" then Some(Description(AsciiBytes, fieldWidth, Some(Ascii), None, true))
    else if name == "reserved" then Some(Description(Reserved, fieldWidth, None, None, true))
    else None
  }

  /** The C++ value type of a projected field; `repBytes` is the size of its unsigned representation. */
  datatype CppType =
    | CppUnsigned(repBytes: nat)
    | CppAscii(length: nat)
    | CppTimestamp
    | CppDecimal(repBytes: nat, scale: nat)
    | CppStockLocate
    | CppTrackingNumber
    | CppOrderReferenceNumber
    | CppMatchNumber
    | CppShareCount

  function UnsignedCppType(width: nat): Option<nat> {
    if width == 1 then Some(1)
    else if width == 2 then Some(2)
    else if width == 4 then Some(4)
    else if width == 6 || width == 8 then Some(8)
    else None
  }

  function CppTypeOf(field: Field): Option<CppType> {
    if field.logical.None? then None
    else
      var unsignedOf := (width: nat) =>
        field.physical == UnsignedInteger && field.width == width && field.scale.None?;
      match field.logical.value
      case RawUnsigned =>
        if field.physical != UnsignedInteger || field.scale.Some? then None
        else (match UnsignedCppType(field.width)
              case None => None
              case Some(bytes) => Some(CppUnsigned(bytes)))
      case Ascii =>
        if field.physical != AsciiBytes || field.width == 0 || field.scale.Some? then None
        else Some(CppAscii(field.width))
      case TimestampNs => if unsignedOf(6) then Some(CppTimestamp) else None
      case Decimal =>
        if || field.physical != UnsignedInteger || (field.width != 4 && field.width != 8)
           || field.scale.None? || field.scale.value > 18 then None
        else Some(CppDecimal(if field.width == 4 then 4 else 8, field.scale.value))
      case StockLocate => if unsignedOf(2) then Some(CppStockLocate) else None
      case TrackingNumber => if unsignedOf(2) then Some(CppTrackingNumber) else None
      case OrderReferenceNumber => if unsignedOf(8) then Some(CppOrderReferenceNumber) else None
      case MatchNumber => if unsignedOf(8) then Some(CppMatchNumber) else None
      case ShareCount => if unsignedOf(4) then Some(CppShareCount) else None
  }

  /** Exactly the well-typed fields have a C++ type: the two tables of the front and back end agree. */
  lemma CppTypeExactly(field: Field)
    ensures CppTypeOf(field).Some?
            <==> && field.logical.Some?
                 && Compatible(field.physical, field.width, field.logical.value)
                 && (field.scale.Some? <==> field.logical.value == Decimal)
                 && (field.scale.Some? ==> field.scale.value <= 18)
  {
  }
}
