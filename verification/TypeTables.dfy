/** The types of fields once more, row by row: what may be written, and the C++ type its values have. */
module TypeTables {
  import opened Bytes
  import opened SchemaModel
  import opened Documents
  import S = ValidateSchema

  /** The rows without a scale, and their value types. */
  lemma ValueRows()
    ensures ValueType(Spelled("uint", "raw_unsigned", 1, None)) == Some(CppUnsigned(1))
    ensures ValueType(Spelled("uint", "raw_unsigned", 2, None)) == Some(CppUnsigned(2))
    ensures ValueType(Spelled("uint", "raw_unsigned", 4, None)) == Some(CppUnsigned(4))
    ensures ValueType(Spelled("uint", "raw_unsigned", 6, None)) == Some(CppUnsigned(8))
    ensures ValueType(Spelled("uint", "raw_unsigned", 8, None)) == Some(CppUnsigned(8))
    ensures ValueType(Spelled("uint", "timestamp_ns", 6, None)) == Some(CppTimestamp)
    ensures ValueType(Spelled("uint", "stock_locate", 2, None)) == Some(CppStockLocate)
    ensures ValueType(Spelled("uint", "tracking_number", 2, None)) == Some(CppTrackingNumber)
    ensures ValueType(Spelled("uint", "order_reference_number", 8, None)) == Some(CppOrderReferenceNumber)
    ensures ValueType(Spelled("uint", "match_number", 8, None)) == Some(CppMatchNumber)
    ensures ValueType(Spelled("uint", "share_count", 4, None)) == Some(CppShareCount)
  {
  }

  /** The rows with a number of their own: a length, or a scale of at most eighteen digits. */
  lemma ValueFamilies(n: int)
    ensures ValueType(Spelled("ascii", "ascii", n, None)) == if n > 0 then Some(CppAscii(n)) else None
    ensures ValueType(Spelled("uint", "decimal", 4, Some(n))) == if 0 <= n <= 18 then Some(CppDecimal(4, n)) else None
    ensures ValueType(Spelled("uint", "decimal", 8, Some(n))) == if 0 <= n <= 18 then Some(CppDecimal(8, n)) else None
  {
  }

  /** There are no other rows. */
  lemma NoOtherRow(t: Spelled)
    requires ValueType(t).Some?
    ensures (t.logical == "ascii" <==> t.kind == "ascii") && (t.kind == "ascii" || t.kind == "uint")
    ensures t.scale.Some? <==> t.logical == "decimal"
    ensures t.kind == "uint" ==>
              || (t.logical == "raw_unsigned" && t.width in [1, 2, 4, 6, 8])
              || (t.logical == "timestamp_ns" && t.width == 6)
              || (t.logical == "decimal" && t.width in [4, 8])
              || (t.logical in ["stock_locate", "tracking_number"] && t.width == 2)
              || (t.logical in ["order_reference_number", "match_number"] && t.width == 8)
              || (t.logical == "share_count" && t.width == 4)
  {
  }

  /** A type without a logical type of its own is a plain number or plain text. */
  lemma LogicalByDefault(name: string, width: int, scale: Option<int>)
    ensures Spelling(TypeSource(name, "uint", width, None, scale)) == Spelled("uint", "raw_unsigned", width, scale)
    ensures Spelling(TypeSource(name, "ascii", width, None, scale)) == Spelled("ascii", "ascii", width, scale)
    ensures Spelling(TypeSource(name, "uint", width, Some("decimal"), scale))
            == Spelled("uint", "decimal", width, scale)
  {
  }

  /** The limit on the width of a declared type, and the names it may not have. */
  lemma DeclaredLimits(name: string, width: int)
    ensures S.ResolveType(TypeSource(name, "ascii", width, None, None)).Some?
            <==> && IsValidSourceName(name) && 1 <= width <= 65535
                 && name !in ["u8", "u16", "u32", "u48", "u64", "alpha", "reserved"]
  {
    hide IsValidSourceName;
  }

  // ---- Builtin types of fields.

  ghost predicate Placed(f: FieldSource) {
    IsValidSourceName(f.name) && 0 <= f.offset <= 4294967295 && forall a <- f.allowed :: |a| == f.width
  }

  /** The width each builtin number has; none of them can be the discriminator. */
  lemma BuiltinNumbers(types: seq<Type>, code: string, f: FieldSource)
    ensures f.typeName == "u8" ==>
              (S.ResolveField(types, code, f).Some? <==> Placed(f) && f.width == 1 && f.role.None? && f.value.None?)
    ensures f.typeName == "u16" ==>
              (S.ResolveField(types, code, f).Some? <==> Placed(f) && f.width == 2 && f.role.None? && f.value.None?)
    ensures f.typeName == "u32" ==>
              (S.ResolveField(types, code, f).Some? <==> Placed(f) && f.width == 4 && f.role.None? && f.value.None?)
    ensures f.typeName == "u48" ==>
              (S.ResolveField(types, code, f).Some? <==> Placed(f) && f.width == 6 && f.role.None? && f.value.None?)
    ensures f.typeName == "u64" ==>
              (S.ResolveField(types, code, f).Some? <==> Placed(f) && f.width == 8 && f.role.None? && f.value.None?)
  {
    hide IsValidSourceName;
  }

  /** Reserved bytes have no role and no value, and text has the role of discriminator in one place only. */
  lemma BuiltinText(types: seq<Type>, code: string, f: FieldSource)
    ensures f.typeName == "reserved" ==>
              (S.ResolveField(types, code, f).Some?
               <==> Placed(f) && 1 <= f.width <= 65535 && f.role.None? && f.value.None?)
    ensures f.typeName == "alpha" ==>
              (S.ResolveField(types, code, f).Some?
               <==> && Placed(f) && 1 <= f.width <= 65535
                    && (|| (f.role.None? && f.value.None?)
                        || (f.role == Some("discriminator") && f.offset == 0 && f.width == 1 && f.value == Some(code))))
  {
    hide IsValidSourceName;
  }

  /** What the builtin types mean. */
  lemma BuiltinSpellings(types: seq<TypeSource>, f: FieldSource)
    ensures f.typeName == "u8" ==> FieldSpelling(types, f) == Some(Spelled("uint", "raw_unsigned", 1, None))
    ensures f.typeName == "u16" ==> FieldSpelling(types, f) == Some(Spelled("uint", "raw_unsigned", 2, None))
    ensures f.typeName == "u32" ==> FieldSpelling(types, f) == Some(Spelled("uint", "raw_unsigned", 4, None))
    ensures f.typeName == "u48" ==> FieldSpelling(types, f) == Some(Spelled("uint", "raw_unsigned", 6, None))
    ensures f.typeName == "u64" ==> FieldSpelling(types, f) == Some(Spelled("uint", "raw_unsigned", 8, None))
    ensures f.typeName == "alpha" ==> FieldSpelling(types, f) == Some(Spelled("ascii", "ascii", f.width, None))
    ensures f.typeName == "reserved" ==> FieldSpelling(types, f) == None
  {
  }
}
