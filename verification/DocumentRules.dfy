/** Which documents are accepted, said of the documents alone: no resolved record and no validator is named. */
module DocumentRules {
  import opened Bytes
  import opened Sorting
  import opened SchemaModel
  import opened Documents
  import opened Resolution
  import opened DocumentMeaning
  import opened ValidatePipeline
  import opened FrontToBack
  import opened Compiler
  import S = ValidateSchema
  import NameRules

  // ---- Schemas.

  predicate HoldsByte(fields: seq<FieldSource>, i: nat, at: nat) {
    i < |fields| && fields[i].offset <= at < fields[i].offset + fields[i].width
  }

  ghost predicate Held(fields: seq<FieldSource>, at: nat) {
    exists i: nat :: HoldsByte(fields, i, at)
  }

  /** Every byte of the message lies in one field and no other, and no field goes beyond it. */
  ghost predicate Tiles(m: MessageSource) {
    && (forall i | 0 <= i < |m.fields| :: m.fields[i].offset + m.fields[i].width <= m.size)
    && (forall at: nat | at < m.size :: Held(m.fields, at))
    && (forall i: nat, j: nat, at: nat | HoldsByte(m.fields, i, at) && HoldsByte(m.fields, j, at) :: i == j)
  }

  ghost predicate OneHasRole(fields: seq<FieldSource>) {
    exists i | 0 <= i < |fields| ::
      fields[i].role.Some? && forall j | 0 <= j < |fields| :: fields[j].role.Some? ==> j == i
  }

  predicate NamesDiffer(fields: seq<FieldSource>) {
    forall i, j | 0 <= i < j < |fields| :: fields[i].name != fields[j].name
  }

  ghost predicate MessageMayStand(types: seq<TypeSource>, m: MessageSource) {
    && IsValidSourceName(m.name) && |m.code| == 1 && '!' <= m.code[0] <= '~' && 1 <= m.size <= 65535
    && (forall f <- m.fields :: MayHold(types, m.code, f))
    && NamesDiffer(m.fields) && OneHasRole(m.fields) && Tiles(m)
  }

  /** A schema as it may be written. */
  ghost predicate SchemaMayStand(s: SchemaSource) {
    && s.formatVersion == 1 && IsValidSourceName(s.name)
    && s.wireEndian == "big" && s.discriminatorOffset == 0 && s.discriminatorWidth == 1
    && (forall t <- s.types :: MayDeclare(t))
    && (forall i, j | 0 <= i < j < |s.types| :: s.types[i].name != s.types[j].name)
    && s.messages != [] && (forall m <- s.messages :: MessageMayStand(s.types, m))
    && (forall i, j | 0 <= i < j < |s.messages| :: s.messages[i].name != s.messages[j].name)
    && (forall i, j | 0 <= i < j < |s.messages| :: s.messages[i].code != s.messages[j].code)
  }

  lemma DistinctByName(fields: seq<FieldSource>)
    ensures DistinctKeys(fields, S.SOURCE_FIELD_NAME) <==> NamesDiffer(fields)
  {
    assert forall f :: S.SOURCE_FIELD_NAME(f) == f.name;
  }

  lemma RoleByIndex(fields: seq<FieldSource>)
    requires NamesDiffer(fields)
    ensures S.OneDiscriminator(fields) <==> OneHasRole(fields)
  {
    if S.OneDiscriminator(fields) {
      var f :| f in fields && f.role.Some? && forall g <- fields :: g.role.Some? ==> g == f;
      var i :| 0 <= i < |fields| && fields[i] == f;
      forall j | 0 <= j < |fields| && fields[j].role.Some? ensures j == i {
        assert fields[j] in fields && fields[j].name == fields[i].name;
      }
    }
    if OneHasRole(fields) {
      var i :| && 0 <= i < |fields| && fields[i].role.Some?
               && forall j | 0 <= j < |fields| :: fields[j].role.Some? ==> j == i;
      assert fields[i] in fields;
      forall g | g in fields && g.role.Some? ensures g == fields[i] {
        var j :| 0 <= j < |fields| && fields[j] == g;
        assert j == i;
      }
    }
  }

  /** Resolved fields lie where the document puts them. */
  ghost predicate SamePlaces(resolved: seq<Field>, fields: seq<FieldSource>) {
    && |resolved| == |fields|
    && forall i | 0 <= i < |fields| ::
         resolved[i].name == fields[i].name && resolved[i].offset == fields[i].offset
         && resolved[i].width == fields[i].width > 0
  }

  lemma CoverByIndex(resolved: seq<Field>, m: MessageSource)
    requires SamePlaces(resolved, m.fields) && NamesDiffer(m.fields) && m.size > 0
    ensures S.ExactCover(resolved, m.size) <==> Tiles(m)
  {
    if S.ExactCover(resolved, m.size) {
      CoverTiles(resolved, m);
    }
    if Tiles(m) {
      TilesCover(resolved, m);
    }
  }

  lemma CoverTiles(resolved: seq<Field>, m: MessageSource)
    requires SamePlaces(resolved, m.fields) && NamesDiffer(m.fields) && m.size > 0
    requires S.ExactCover(resolved, m.size)
    ensures Tiles(m)
  {
    forall i | 0 <= i < |m.fields| ensures m.fields[i].offset + m.fields[i].width <= m.size {
      assert resolved[i] in resolved;
    }
    forall at: nat | at < m.size ensures Held(m.fields, at) {
      assert S.Covered(resolved, at);
      var f :| f in resolved && S.Covers(f, at);
      var i :| 0 <= i < |resolved| && resolved[i] == f;
      assert HoldsByte(m.fields, i, at);
    }
    forall i: nat, j: nat, at: nat | HoldsByte(m.fields, i, at) && HoldsByte(m.fields, j, at) ensures i == j {
      assert S.Covers(resolved[i], at) && S.Covers(resolved[j], at);
      assert resolved[i] in resolved && resolved[j] in resolved;
      assert m.fields[i].name == m.fields[j].name;
    }
  }

  lemma TilesCover(resolved: seq<Field>, m: MessageSource)
    requires SamePlaces(resolved, m.fields) && NamesDiffer(m.fields) && m.size > 0
    requires Tiles(m)
    ensures S.ExactCover(resolved, m.size)
  {
    forall f | f in resolved ensures f.offset + f.width <= m.size {
      var i :| 0 <= i < |resolved| && resolved[i] == f;
    }
    forall at: nat | at < m.size ensures S.Covered(resolved, at) {
      assert Held(m.fields, at);
      var i: nat :| HoldsByte(m.fields, i, at);
      assert resolved[i] in resolved && S.Covers(resolved[i], at);
    }
    forall f, g, at: nat | f in resolved && g in resolved && S.Covers(f, at) && S.Covers(g, at) ensures f == g {
      var i :| 0 <= i < |resolved| && resolved[i] == f;
      var j :| 0 <= j < |resolved| && resolved[j] == g;
      assert HoldsByte(m.fields, i, at) && HoldsByte(m.fields, j, at);
    }
  }

  lemma PlacesKept(s: SchemaSource, m: MessageSource)
    requires S.TypesAccepted(s) && forall f <- m.fields :: MayHold(s.types, m.code, f)
    ensures forall f <- m.fields :: S.ResolveField(S.ResolvedTypes(s), m.code, f).Some?
    ensures SamePlaces(S.ResolvedFields(S.ResolvedTypes(s), m), m.fields)
  {
    hide S.ResolveField, MayHold, S.TypesAccepted, S.ResolvedTypes, FieldSpelling, FieldSays;
    var resolved := S.ResolvedFields(S.ResolvedTypes(s), m);
    forall i | 0 <= i < |m.fields|
      ensures S.ResolveField(S.ResolvedTypes(s), m.code, m.fields[i]).Some?
      ensures resolved[i].name == m.fields[i].name && resolved[i].offset == m.fields[i].offset
      ensures resolved[i].width == m.fields[i].width > 0
    {
      ResolveFieldExactly(s, m.code, m.fields[i]);
    }
  }

  /** A message is accepted exactly if the document may hold it. */
  lemma MessageExactly(s: SchemaSource, m: MessageSource)
    requires S.TypesAccepted(s)
    ensures S.MessageAccepted(S.ResolvedTypes(s), m) <==> MessageMayStand(s.types, m)
  {
    hide S.TypesAccepted, S.ResolvedTypes, S.ResolveField, MayHold, S.ExactCover, Tiles, IsValidSourceName;
    hide S.OneDiscriminator, OneHasRole, DistinctKeys, NamesDiffer, S.ResolvedFields;
    DistinctByName(m.fields);
    if forall f <- m.fields :: MayHold(s.types, m.code, f) {
      PlacesKept(s, m);
      if NamesDiffer(m.fields) && m.size > 0 {
        RoleByIndex(m.fields);
        CoverByIndex(S.ResolvedFields(S.ResolvedTypes(s), m), m);
        if OneHasRole(m.fields) {
          OneRoleOfSome(m.fields);
        }
      }
    } else {
      var f :| f in m.fields && !MayHold(s.types, m.code, f);
      ResolveFieldExactly(s, m.code, f);
    }
  }

  lemma OneRoleOfSome(fields: seq<FieldSource>)
    requires OneHasRole(fields)
    ensures fields != []
  {
  }

  /** A schema is accepted exactly if it may be written, as far as the document alone can say. */
  lemma SchemaExactly(s: SchemaSource)
    ensures S.SchemaAccepted(s) <==> SchemaMayStand(s)
  {
    hide IsValidSourceName, MayDeclare, S.MessageAccepted, MessageMayStand, TypeSays, S.ResolvedTypes;
    S.TypesAcceptedExactly(s);
    assert forall t :: S.SOURCE_TYPE_NAME(t) == t.name;
    assert forall m :: S.SOURCE_MESSAGE_NAME(m) == m.name && S.SOURCE_MESSAGE_CODE(m) == m.code;
    if S.TypesAccepted(s) {
      forall m | m in s.messages ensures S.MessageAccepted(S.ResolvedTypes(s), m) <==> MessageMayStand(s.types, m) {
        MessageExactly(s, m);
      }
    }
  }

  // ---- Pipelines.

  /** The names a generated event struct leaves to its fields. */
  predicate IsFree(name: string, event: string) {
    name != "source_discriminator" && name != "event_name" && name != event
  }

  predicate CanProject(m: MessageSource, name: string, event: string) {
    IsFree(name, event) && exists f <- m.fields :: Projectable(f) && f.name == name
  }

  /** `*` alone for all fields that carry a value, or some of them by name, each once. */
  predicate FieldsMayStand(m: MessageSource, event: string, names: seq<string>) {
    if "*" in names then
      && names == ["*"] && (exists f <- m.fields :: Projectable(f))
      && forall f <- m.fields | Projectable(f) :: IsFree(f.name, event)
    else
      && names != [] && (forall i, j | 0 <= i < j < |names| :: names[i] != names[j])
      && forall name <- names :: CanProject(m, name, event)
  }

  predicate ProjectionMayStand(s: SchemaSource, p: ProjectionSource) {
    && IsValidSourceName(p.event)
    && p.event !in ["basic_decoder", "decoder", "pipeline_metadata", "sink_for_all_selected_events"]
    && exists m <- s.messages :: m.code == p.source && FieldsMayStand(m, p.event, p.fields)
  }

  /** A pipeline as it may be written for a schema. */
  ghost predicate PipelineMayStand(s: SchemaSource, ps: PipelineSource) {
    && ps.formatVersion == 1 && IsValidSourceName(ps.name) && ps.schema == s.name
    && ps.profile == "portable_checked" && ps.unknownMessages in ["error", "skip"] && ps.unselectedMessages == "skip"
    && NameRules.IsNamespace(ps.cppNamespace)
    && ps.projections != [] && (forall p <- ps.projections :: ProjectionMayStand(s, p))
    && (forall i, j | 0 <= i < j < |ps.projections| :: ps.projections[i].source != ps.projections[j].source)
    && (forall i, j | 0 <= i < j < |ps.projections| :: ps.projections[i].event != ps.projections[j].event)
  }

  /** A resolved message has the fields of the document, and those that can be projected are the same. */
  ghost predicate SameValues(types: seq<TypeSource>, r: Message, m: MessageSource) {
    && S.DistinctNames(r.fields)
    && (forall f <- r.fields :: HasCppRepresentation(f) <==> f.projectable)
    && (forall f <- r.fields :: ComesFrom(types, f, m.fields))
    && (forall f <- m.fields :: BecomesOneOf(types, f, r.fields))
  }

  lemma ResolvedValues(s: SchemaSource, m: MessageSource)
    requires S.SchemaAccepted(s) && m in s.messages
    ensures SameValues(s.types, S.ResolveMessage(S.ResolvedTypes(s), m), m)
  {
    hide S.SchemaAccepted, S.ResolveMessage, S.ResolvedTypes, S.TypesAccepted, S.FieldsAccepted, S.ExactCover;
    hide ComesFrom, BecomesOneOf, CppTypeOf, IsValidSourceName, Compatible;
    MessageFacts(s, m);
    SameFields(s, m);
    var r := S.ResolveMessage(S.ResolvedTypes(s), m);
    forall f | f in r.fields ensures HasCppRepresentation(f) <==> f.projectable {
      CppTypeExactly(f);
    }
  }

  lemma NamedInDocument(types: seq<TypeSource>, r: Message, m: MessageSource, f: Field)
    requires SameValues(types, r, m) && f in r.fields && f.projectable
    ensures exists g <- m.fields :: Projectable(g) && g.name == f.name
  {
    hide HasCppRepresentation, FieldSpelling, FieldSays, S.DistinctNames;
    assert ComesFrom(types, f, m.fields);
    var g :| g in m.fields && SameField(types, f, g);
    assert Projectable(g) && g.name == f.name;
  }

  lemma NamedInRecord(types: seq<TypeSource>, r: Message, m: MessageSource, g: FieldSource)
    requires SameValues(types, r, m) && g in m.fields && Projectable(g)
    ensures FindField(r.fields, g.name).Some? && FieldNamed(r, g.name).projectable
  {
    hide HasCppRepresentation, FieldSpelling, FieldSays, S.DistinctNames;
    assert BecomesOneOf(types, g, r.fields);
    var f :| f in r.fields && SameField(types, f, g);
    UniqueField(r.fields, f);
  }

  /** The field of a name can be projected in the FFIR exactly if it can be in the document. */
  lemma NamedExactly(types: seq<TypeSource>, r: Message, m: MessageSource, name: string, event: string)
    requires SameValues(types, r, m)
    ensures FindField(r.fields, name).Some? && HasCppRepresentation(FieldNamed(r, name))
            && !CollidesWithEvent(FieldNamed(r, name), event)
            <==> CanProject(m, name, event)
  {
    hide HasCppRepresentation, Projectable, S.DistinctNames, ComesFrom, BecomesOneOf;
    if FindField(r.fields, name).Some? && HasCppRepresentation(FieldNamed(r, name)) {
      NamedInDocument(types, r, m, FieldNamed(r, name));
    }
    if exists f <- m.fields :: Projectable(f) && f.name == name {
      var g :| g in m.fields && Projectable(g) && g.name == name;
      NamedInRecord(types, r, m, g);
    }
  }

  lemma WildcardExactly(types: seq<TypeSource>, r: Message, m: MessageSource, event: string)
    requires SameValues(types, r, m)
    ensures ProjectableOf(r.fields) != [] && (forall f <- ProjectableOf(r.fields) :: !CollidesWithEvent(f, event))
            <==> && (exists f <- m.fields :: Projectable(f))
                 && forall f <- m.fields | Projectable(f) :: IsFree(f.name, event)
  {
    hide HasCppRepresentation, FieldSpelling, FieldSays;
    var selected := ProjectableOf(r.fields);
    forall f | f in selected ensures exists g <- m.fields :: Projectable(g) && g.name == f.name {
      assert ComesFrom(types, f, m.fields);
      var g :| g in m.fields && SameField(types, f, g);
    }
    forall g | g in m.fields && Projectable(g) ensures exists f <- selected :: f.name == g.name {
      assert BecomesOneOf(types, g, r.fields);
      var f :| f in r.fields && SameField(types, f, g);
      assert f in selected;
    }
    if selected != [] {
      assert selected[0] in selected;
    }
  }

  lemma FieldsExactly(types: seq<TypeSource>, r: Message, m: MessageSource, event: string, names: seq<string>)
    requires SameValues(types, r, m)
    ensures NamesAccepted(r, names) && SelectedFields(r, names) != []
            && (forall f <- SelectedFields(r, names) :: !CollidesWithEvent(f, event))
            <==> FieldsMayStand(m, event, names)
  {
    hide SameValues, HasCppRepresentation, CollidesWithEvent, IsFree, CanProject, Projectable, ProjectableOf;
    if "*" in names {
      WildcardExactly(types, r, m, event);
      assert |names| == 1 ==> names == ["*"];
    } else {
      assert forall name :: SELF(name) == name;
      forall name | name in names
        ensures FindField(r.fields, name).Some? && HasCppRepresentation(FieldNamed(r, name))
                && !CollidesWithEvent(FieldNamed(r, name), event)
                <==> CanProject(m, name, event)
      {
        NamedExactly(types, r, m, name, event);
      }
      var selected := SelectedFields(r, names);
      assert forall i | 0 <= i < |names| :: selected[i] == FieldNamed(r, names[i]) && names[i] in names;
      assert forall i | 0 <= i < |names| :: selected[i] in selected;
    }
  }

  /** The message a projection names by its code, in the schema and in the document. */
  lemma SourceExactly(s: SchemaSource, p: ProjectionSource)
    requires S.SchemaAccepted(s)
    ensures var found := SourceMessage(S.ResolveSchema(s), p);
            && (found.Some? <==> exists m <- s.messages :: m.code == p.source)
            && forall m <- s.messages | m.code == p.source ::
                 found == Some(S.ResolveMessage(S.ResolvedTypes(s), m))
  {
    hide S.SchemaAccepted, S.ResolveSchema, S.ResolveMessage, S.ResolvedTypes, MessageSound;
    AcceptedSchemaSound(s);
    var schema := S.ResolveSchema(s);
    forall m | m in s.messages && m.code == p.source
      ensures SourceMessage(schema, p) == Some(S.ResolveMessage(S.ResolvedTypes(s), m))
    {
      Resolved(s, m);
      CodeOfAccepted(s, m);
      ResolvedCode(S.ResolvedTypes(s), m);
      UniqueMessage(schema.messages, S.ResolveMessage(S.ResolvedTypes(s), m));
    }
    if SourceMessage(schema, p).Some? {
      var m := Unresolved(s, SourceMessage(schema, p).value);
      CodeOfAccepted(s, m);
      ResolvedCode(S.ResolvedTypes(s), m);
      assert m.code == p.source;
    }
  }

  lemma CodeOfAccepted(s: SchemaSource, m: MessageSource)
    requires S.SchemaAccepted(s) && m in s.messages
    ensures |m.code| == 1 && S.CodeByte(m.code) == m.code[0] as int
  {
    hide S.FieldsAccepted, S.ExactCover, IsValidSourceName, S.ResolveType;
    assert S.MessageAccepted(S.ResolvedTypes(s), m);
  }

  lemma ProjectionExactly(s: SchemaSource, p: ProjectionSource)
    requires S.SchemaAccepted(s)
    ensures ProjectionAccepted(S.ResolveSchema(s), p) <==> ProjectionMayStand(s, p)
  {
    hide S.SchemaAccepted, S.ResolveSchema, S.ResolveMessage, S.ResolvedTypes, IsValidSourceName, FieldsMayStand;
    hide SourceMessage, NamesAccepted, SelectedFields, CollidesWithEvent, SameValues;
    SourceExactly(s, p);
    forall m | m in s.messages && m.code == p.source
      ensures ProjectionAccepted(S.ResolveSchema(s), p)
              <==> && IsValidSourceName(p.event) && !IsGeneratedPipelineDeclaration(p.event)
                   && FieldsMayStand(m, p.event, p.fields)
    {
      var r := S.ResolveMessage(S.ResolvedTypes(s), m);
      ResolvedValues(s, m);
      FieldsExactly(s.types, r, m, p.event, p.fields);
    }
  }

  /** A pipeline is accepted for an accepted schema exactly if it may be written for it. */
  lemma PipelineExactly(s: SchemaSource, ps: PipelineSource)
    requires S.SchemaAccepted(s)
    ensures PipelineAccepted(S.ResolveSchema(s), ps) <==> PipelineMayStand(s, ps)
  {
    hide S.SchemaAccepted, IsValidSourceName, ProjectionAccepted, ProjectionMayStand, NamespaceAccepted, SortBy;
    hide NameRules.IsNamespace;
    NameRules.NamespaceExactly(ps.cppNamespace);
    NameOfAccepted(s);
    assert forall p :: PROJECTION_SOURCE(p) == p.source && PROJECTION_EVENT(p) == p.event;
    forall p | p in ps.projections
      ensures ProjectionAccepted(S.ResolveSchema(s), p) <==> ProjectionMayStand(s, p)
    {
      ProjectionExactly(s, p);
    }
    var schema := S.ResolveSchema(s);
    assert HeaderAccepted(schema, ps)
        <==> && ps.formatVersion == 1 && IsValidSourceName(ps.name) && ps.schema == s.name
             && ps.profile == "portable_checked" && ps.unknownMessages in ["error", "skip"]
             && ps.unselectedMessages == "skip" && ps.projections != [];
    assert ProjectionsAccepted(schema, ps)
        <==> && (forall p <- ps.projections :: ProjectionMayStand(s, p))
             && (forall i, j | 0 <= i < j < |ps.projections| :: ps.projections[i].source != ps.projections[j].source)
             && (forall i, j | 0 <= i < j < |ps.projections| :: ps.projections[i].event != ps.projections[j].event);
  }

  /** Two documents are accepted exactly if they may be written. */
  lemma BothExactly(s: SchemaSource, ps: PipelineSource)
    ensures BothAccepted(s, ps) <==> SchemaMayStand(s) && PipelineMayStand(s, ps)
    ensures Compilable(s, ps)
            <==> && SchemaMayStand(s) && PipelineMayStand(s, ps)
                 && forall p <- ps.projections :: p.event != "chunked_replayer"
  {
    hide S.SchemaAccepted, SchemaMayStand, PipelineAccepted, PipelineMayStand, S.ResolveSchema;
    SchemaExactly(s);
    if S.SchemaAccepted(s) {
      PipelineExactly(s, ps);
    }
  }

  lemma NameOfAccepted(s: SchemaSource)
    requires S.SchemaAccepted(s)
    ensures IsValidSourceName(s.name) && S.ResolveSchema(s).name == s.name
  {
  }
}
