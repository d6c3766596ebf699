/** Resolution against the document: a field is accepted for what the document says, and resolves to just that. */
module Resolution {
  import opened Bytes
  import opened Sorting
  import opened SchemaModel
  import opened Documents
  import S = ValidateSchema

  /** Looking a name up among resolved types is looking it up in the document. */
  lemma {:induction false} LookupResolves(sources: seq<TypeSource>, name: string)
    requires forall t <- sources :: S.ResolveType(t).Some?
    ensures var found := S.FindType(Map(t => S.TypeOr(t), sources), name);
            match TypeNamed(sources, name)
            case None => found.None?
            case Some(t) => found == S.ResolveType(t)
  {
    hide S.ResolveType, Spelling;
    if sources != [] {
      S.ResolveTypeExactly(sources[0]);
      LookupResolves(sources[1..], name);
      assert Map(t => S.TypeOr(t), sources)[1..] == Map(t => S.TypeOr(t), sources[1..]);
    }
  }

  /** What the type of a field contributes, in the document's words. */
  predicate DescriptionSays(d: Description, f: FieldSource, spelled: Option<Spelled>) {
    if f.typeName == "reserved" then d.physical == Reserved && d.variableWidth && d.scale.None? && d.logical.None?
    else
      && spelled.Some?
      && d.physical != Reserved && PhysicalName(d.physical) == spelled.value.kind
      && d.logical.Some? && LogicalName(d.logical.value) == spelled.value.logical
      && (d.variableWidth ==> spelled.value.width == f.width)
      && (!d.variableWidth ==> d.width == spelled.value.width)
      && (if d.scale.Some? then spelled.value.scale == Some(d.scale.value) else spelled.value.scale == None)
  }

  lemma DescribesDeclared(s: SchemaSource, f: FieldSource)
    requires S.TypesAccepted(s) && f.width > 0 && !IsBuiltinName(f.typeName)
    ensures S.Describe(S.ResolvedTypes(s), f).Some? <==> FieldSpelling(s.types, f).Some?
    ensures S.Describe(S.ResolvedTypes(s), f).Some? ==>
              DescriptionSays(S.Describe(S.ResolvedTypes(s), f).value, f, FieldSpelling(s.types, f))
  {
    hide S.ResolveType, Spelling, PhysicalName, LogicalName;
    LookupResolves(s.types, f.typeName);
    var found := TypeNamed(s.types, f.typeName);
    if found.Some? {
      S.ResolveTypeExactly(found.value);
      DeclaredIsNotReserved(found.value);
    }
  }

  lemma DeclaredIsNotReserved(t: TypeSource)
    requires S.ResolveType(t).Some?
    ensures S.ResolveType(t).value.physical != Reserved
  {
  }

  lemma DescribesBuiltin(types: seq<Type>, sources: seq<TypeSource>, f: FieldSource)
    requires f.width > 0 && IsBuiltinName(f.typeName)
    ensures S.Describe(types, f).Some? && DescriptionSays(S.Describe(types, f).value, f, FieldSpelling(sources, f))
    ensures FieldSpelling(sources, f).None? <==> f.typeName == "reserved"
  {
    hide S.FindType, TypeNamed;
  }

  /** A field resolves to what the document says of it: name, place, role, kind, logical type and scale. */
  predicate SameField(types: seq<TypeSource>, r: Field, f: FieldSource) {
    && r.name == f.name && r.offset == f.offset && r.width == f.width > 0
    && (r.projectable <==> f.role.None? && f.typeName != "reserved")
    && (r.discriminator <==> f.role.Some?)
    && (r.physical == Reserved <==> f.typeName == "reserved")
    && (f.typeName != "reserved" ==>
          FieldSpelling(types, f).Some? && FieldSays(r, FieldSpelling(types, f).value))
  }

  /** A field is accepted exactly if the document may hold it, and resolves to what the document says. */
  lemma ResolveFieldExactly(s: SchemaSource, code: string, f: FieldSource)
    requires S.TypesAccepted(s)
    ensures S.ResolveField(S.ResolvedTypes(s), code, f).Some? <==> MayHold(s.types, code, f)
    ensures S.ResolveField(S.ResolvedTypes(s), code, f).Some? ==>
              SameField(s.types, S.ResolveField(S.ResolvedTypes(s), code, f).value, f)
  {
    hide IsValidSourceName, S.Describe, FieldSpelling, LogicalName, IsBuiltinName, S.TypesAccepted, S.ResolvedTypes;
    if f.width > 0 {
      if IsBuiltinName(f.typeName) {
        DescribesBuiltin(S.ResolvedTypes(s), s.types, f);
      } else {
        DescribesDeclared(s, f);
        ReservedIsBuiltin();
      }
    }
  }

  lemma ReservedIsBuiltin()
    ensures IsBuiltinName("reserved")
  {
  }
}
