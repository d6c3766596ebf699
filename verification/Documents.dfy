/**
 What a schema document says about the values of its fields, read off the document alone: a table for the
 builtin types, and for a declared one its kind, its logical type, its width and its scale.
 */
module Documents {
  import opened Bytes
  import opened SchemaModel

  /** A type as the document spells it. */
  datatype Spelled = Spelled(kind: string, logical: string, width: int, scale: Option<int>)

  /** A logical type that is not given follows from the kind. */
  function Spelling(t: TypeSource): Spelled {
    var logical := if t.logical.Some? then t.logical.value else if t.kind == "uint" then "raw_unsigned" else "ascii";
    Spelled(t.kind, logical, t.width, t.scale)
  }

  /** The C++ type of a value: the wider of two representations where the wire width has none of its own. */
  function ValueType(t: Spelled): Option<CppType> {
    if t.kind == "ascii" then
      if t.logical == "ascii" && t.width > 0 && t.scale.None? then Some(CppAscii(t.width)) else None
    else if t.kind != "uint" then None
    else if t.logical == "decimal" then
      if (t.width == 4 || t.width == 8) && t.scale.Some? && 0 <= t.scale.value <= 18
      then Some(CppDecimal(t.width, t.scale.value)) else None
    else if t.scale.Some? then None
    else
      match (t.logical, t.width)
      case ("raw_unsigned", 1) => Some(CppUnsigned(1))
      case ("raw_unsigned", 2) => Some(CppUnsigned(2))
      case ("raw_unsigned", 4) => Some(CppUnsigned(4))
      case ("raw_unsigned", 6) => Some(CppUnsigned(8))
      case ("raw_unsigned", 8) => Some(CppUnsigned(8))
      case ("timestamp_ns", 6) => Some(CppTimestamp)
      case ("stock_locate", 2) => Some(CppStockLocate)
      case ("tracking_number", 2) => Some(CppTrackingNumber)
      case ("order_reference_number", 8) => Some(CppOrderReferenceNumber)
      case ("match_number", 8) => Some(CppMatchNumber)
      case ("share_count", 4) => Some(CppShareCount)
      case _ => None
  }

  /** The declared types that may stand in a document: those with a value, under a name of their own. */
  predicate MayDeclare(t: TypeSource) {
    IsValidSourceName(t.name) && !IsBuiltinName(t.name) && t.width <= 65535 && ValueType(Spelling(t)).Some?
  }

  function TypeNamed(types: seq<TypeSource>, name: string): (found: Option<TypeSource>)
    ensures found.Some? ==> found.value in types && found.value.name == name
  {
    if types == [] then None
    else if types[0].name == name then Some(types[0])
    else TypeNamed(types[1..], name)
  }

  /** The type of a field; `reserved` has none. */
  function FieldSpelling(types: seq<TypeSource>, f: FieldSource): Option<Spelled> {
    match f.typeName
    case "u8" => Some(Spelled("uint", "raw_unsigned", 1, None))
    case "u16" => Some(Spelled("uint", "raw_unsigned", 2, None))
    case "u32" => Some(Spelled("uint", "raw_unsigned", 4, None))
    case "u48" => Some(Spelled("uint", "raw_unsigned", 6, None))
    case "u64" => Some(Spelled("uint", "raw_unsigned", 8, None))
    case "alpha" => Some(Spelled("ascii", "ascii", f.width, None))
    case "reserved" => None
    case _ =>
      match TypeNamed(types, f.typeName)
      case None => None
      case Some(t) => Some(Spelling(t))
  }

  /** A resolved type says in its own terms what the document spells. */
  predicate TypeSays(t: Type, name: string, spelled: Spelled) {
    && t.name == name && PhysicalName(t.physical) == spelled.kind && LogicalName(t.logical) == spelled.logical
    && t.width == spelled.width
    && (if t.scale.Some? then spelled.scale == Some(t.scale.value) else spelled.scale == None)
  }

  /** So does a resolved field that can carry a value. */
  predicate FieldSays(f: Field, spelled: Spelled) {
    && PhysicalName(f.physical) == spelled.kind
    && f.logical.Some? && LogicalName(f.logical.value) == spelled.logical
    && f.width == spelled.width
    && (if f.scale.Some? then spelled.scale == Some(f.scale.value) else spelled.scale == None)
  }

  /** The emitter's table, reached over the resolved field, gives the type the document asks for. */
  lemma SpelledValueType(f: Field, spelled: Spelled)
    requires FieldSays(f, spelled)
    ensures CppTypeOf(f) == ValueType(spelled)
  {
  }

  predicate IsDiscriminator(f: FieldSource, code: string) {
    f.role == Some("discriminator") && f.offset == 0 && f.width == 1 && f.value == Some(code)
  }

  /** The fields that may stand in a message with the given code, apart from what their siblings allow. */
  predicate MayHold(types: seq<TypeSource>, code: string, f: FieldSource) {
    && IsValidSourceName(f.name) && 0 <= f.offset <= 0xFFFF_FFFF && 0 < f.width <= 65535
    && (forall a <- f.allowed :: |a| == f.width)
    && if f.typeName == "reserved" then f.role.None? && f.value.None?
       else
         var spelled := FieldSpelling(types, f);
         && spelled.Some? && spelled.value.width == f.width
         && ((f.role.None? && f.value.None?) || (IsDiscriminator(f, code) && spelled.value.kind == "ascii"))
  }
}
