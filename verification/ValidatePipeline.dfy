/** `validate_pipeline`: which projections of a resolved schema are accepted, and the loops that decide it. */
module ValidatePipeline {
  import opened Bytes
  import opened Sorting
  import opened SchemaModel

  function FindMessage(messages: seq<Message>, discriminator: int): (found: Option<Message>)
    ensures found.Some? ==> found.value in messages && found.value.discriminator == discriminator
    ensures found.None? ==> forall m <- messages :: m.discriminator != discriminator
  {
    if messages == [] then None
    else if messages[0].discriminator == discriminator then Some(messages[0])
    else FindMessage(messages[1..], discriminator)
  }

  function FindField(fields: seq<Field>, name: string): (found: Option<Field>)
    ensures found.Some? ==> found.value in fields && found.value.name == name
    ensures found.None? ==> forall f <- fields :: f.name != name
  {
    if fields == [] then None
    else if fields[0].name == name then Some(fields[0])
    else FindField(fields[1..], name)
  }

  predicate HasCppRepresentation(f: Field) {
    f.projectable && f.logical.Some? && Compatible(f.physical, f.width, f.logical.value)
  }

  function ProjectableOf(fields: seq<Field>): (selected: seq<Field>)
    ensures forall f :: f in selected <==> f in fields && f.projectable
  {
    if fields == [] then []
    else ProjectableOf(fields[..|fields| - 1])
         + if fields[|fields| - 1].projectable then [fields[|fields| - 1]] else []
  }

  function FieldNamed(m: Message, name: string): Field {
    var found := FindField(m.fields, name);
    if found.Some? then found.value else NO_FIELD
  }

  function SelectedFields(m: Message, names: seq<string>): seq<Field> {
    if "*" in names then ProjectableOf(m.fields) else Map(name => FieldNamed(m, name), names)
  }

  const SELF := (name: string) => name
  const PROJECTION_SOURCE := (p: ProjectionSource) => p.source
  const PROJECTION_EVENT := (p: ProjectionSource) => p.event

  predicate NamesAccepted(m: Message, names: seq<string>) {
    if "*" in names then |names| == 1
    else
      && names != []
      && (forall name <- names :: FindField(m.fields, name).Some? && HasCppRepresentation(FieldNamed(m, name)))
      && DistinctKeys(names, SELF)
  }

  /** The names a generated event struct already declares. */
  predicate CollidesWithEvent(f: Field, event: string) {
    f.name == "source_discriminator" || f.name == "event_name" || f.name == event
  }

  function SourceMessage(schema: Schema, p: ProjectionSource): Option<Message> {
    if |p.source| != 1 then None else FindMessage(schema.messages, p.source[0] as int)
  }

  predicate ProjectionAccepted(schema: Schema, p: ProjectionSource) {
    match SourceMessage(schema, p)
    case None => false
    case Some(m) =>
      && IsValidSourceName(p.event) && !IsGeneratedPipelineDeclaration(p.event)
      && NamesAccepted(m, p.fields)
      && SelectedFields(m, p.fields) != []
      && forall f <- SelectedFields(m, p.fields) :: !CollidesWithEvent(f, p.event)
  }

  function ResolveProjection(schema: Schema, p: ProjectionSource): Event {
    match SourceMessage(schema, p)
    case None => Event(p.event, 0, "", [])
    case Some(m) => Event(p.event, m.discriminator, m.name, SelectedFields(m, p.fields))
  }

  predicate HeaderAccepted(schema: Schema, s: PipelineSource) {
    && s.formatVersion == 1 && IsValidSourceName(s.name) && IsValidSourceName(s.schema)
    && s.schema == schema.name && s.profile == "portable_checked"
    && (s.unknownMessages == "error" || s.unknownMessages == "skip")
    && s.unselectedMessages == "skip" && s.projections != []
  }

  predicate ProjectionsAccepted(schema: Schema, s: PipelineSource) {
    && (forall p <- s.projections :: ProjectionAccepted(schema, p))
    && DistinctKeys(s.projections, PROJECTION_SOURCE)
    && DistinctKeys(s.projections, PROJECTION_EVENT)
  }

  predicate PipelineAccepted(schema: Schema, s: PipelineSource) {
    HeaderAccepted(schema, s) && NamespaceAccepted(s.cppNamespace) && ProjectionsAccepted(schema, s)
  }

  function ResolvePipeline(schema: Schema, s: PipelineSource): Pipeline {
    Pipeline(s.name, s.cppNamespace, s.schema, s.profile, "portable_checked.v1",
             s.unknownMessages, s.unselectedMessages,
             SortBy(Map(p => ResolveProjection(schema, p), s.projections), EVENT_KEY))
  }

  method SelectFields(m: Message, names: seq<string>) returns (r: Option<seq<Field>>)
    ensures r.Some? <==> NamesAccepted(m, names)
    ensures r.Some? ==> r.value == SelectedFields(m, names)
  {
    hide DistinctKeys, HasCppRepresentation, ProjectableOf;
    r := None;
    if "*" in names {
      if |names| == 1 {
        var fields := SelectProjectable(m.fields);
        r := Some(fields);
      }
    } else if names != [] {
      r := SelectNamed(m, names);
    }
  }

  method SelectProjectable(all: seq<Field>) returns (fields: seq<Field>)
    ensures fields == ProjectableOf(all)
  {
    fields := [];
    for i := 0 to |all|
      invariant fields == ProjectableOf(all[..i])
    {
      assert all[..i + 1][..i] == all[..i];
      if all[i].projectable {
        fields := fields + [all[i]];
      }
    }
    assert all[..|all|] == all;
  }

  method SelectNamed(m: Message, names: seq<string>) returns (r: Option<seq<Field>>)
    requires names != [] && "*" !in names
    ensures r.Some? <==> NamesAccepted(m, names)
    ensures r.Some? ==> r.value == SelectedFields(m, names)
  {
    hide DistinctKeys, KeysOf, HasCppRepresentation;
    var fields: seq<Field> := [];
    var projected: set<string> := {};
    DistinctStart(names, SELF);
    for i := 0 to |names|
      invariant projected == KeysOf(names[..i], SELF)
      invariant DistinctKeys(names[..i], SELF)
      invariant forall k | 0 <= k < i ::
          FindField(m.fields, names[k]).Some? && HasCppRepresentation(FieldNamed(m, names[k]))
      invariant fields == SelectedFields(m, names)[..i]
    {
      DistinctStep(names, i, SELF);
      if names[i] in projected {
        return None;
      }
      var found := FindField(m.fields, names[i]);
      if found.None? || !HasCppRepresentation(found.value) {
        return None;
      }
      projected := projected + {names[i]};
      fields := fields + [found.value];
    }
    return Some(fields);
  }

  method ValidateProjection(schema: Schema, p: ProjectionSource) returns (r: Option<Event>)
    ensures r.Some? <==> ProjectionAccepted(schema, p)
    ensures r.Some? ==> r.value == ResolveProjection(schema, p)
  {
    hide NamesAccepted, SelectedFields, IsValidSourceName, CollidesWithEvent, IsGeneratedPipelineDeclaration;
    r := None;
    var message := SourceMessage(schema, p);
    if message.Some? && IsValidSourceName(p.event) && !IsGeneratedPipelineDeclaration(p.event) {
      var fields := SelectFields(message.value, p.fields);
      if fields.Some? && fields.value != [] {
        var collides := false;
        for i := 0 to |fields.value|
          invariant collides <==> exists k :: 0 <= k < i && CollidesWithEvent(fields.value[k], p.event)
        {
          collides := collides || CollidesWithEvent(fields.value[i], p.event);
        }
        if !collides {
          r := Some(Event(p.event, message.value.discriminator, message.value.name, fields.value));
        }
      }
    }
  }

  method CollectProjections(schema: Schema, s: PipelineSource) returns (r: Option<seq<Event>>)
    ensures r.Some? <==> ProjectionsAccepted(schema, s)
    ensures r.Some? ==> r.value == Map(p => ResolveProjection(schema, p), s.projections)
  {
    hide ProjectionAccepted, ResolveProjection, DistinctKeys, KeysOf;
    var sources: set<string> := {};
    var names: set<string> := {};
    var events: seq<Event> := [];
    DistinctStart(s.projections, PROJECTION_SOURCE);
    DistinctStart(s.projections, PROJECTION_EVENT);
    for i := 0 to |s.projections|
      invariant forall k | 0 <= k < i :: ProjectionAccepted(schema, s.projections[k])
      invariant sources == KeysOf(s.projections[..i], PROJECTION_SOURCE)
      invariant names == KeysOf(s.projections[..i], PROJECTION_EVENT)
      invariant DistinctKeys(s.projections[..i], PROJECTION_SOURCE)
      invariant DistinctKeys(s.projections[..i], PROJECTION_EVENT)
      invariant events == Map(p => ResolveProjection(schema, p), s.projections)[..i]
    {
      DistinctStep(s.projections, i, PROJECTION_SOURCE);
      DistinctStep(s.projections, i, PROJECTION_EVENT);
      var p := s.projections[i];
      var resolved := ValidateProjection(schema, p);
      if resolved.None? || p.source in sources || p.event in names {
        return None;
      }
      sources := sources + {p.source};
      names := names + {p.event};
      events := events + [resolved.value];
    }
    return Some(events);
  }

  /** Accepts exactly the pipelines the specification accepts, and resolves them as it says. */
  method Validate(schema: Schema, s: PipelineSource) returns (r: Option<Pipeline>)
    ensures r.Some? <==> PipelineAccepted(schema, s)
    ensures r.Some? ==> r.value == ResolvePipeline(schema, s)
  {
    hide HeaderAccepted, NamespaceAccepted, ProjectionsAccepted, ResolveProjection, SortBy;
    r := None;
    if HeaderAccepted(schema, s) {
      var namespaceOk := CheckNamespace(s.cppNamespace);
      if namespaceOk {
        var events := CollectProjections(schema, s);
        if events.Some? {
          r := Some(Pipeline(s.name, s.cppNamespace, s.schema, s.profile, "portable_checked.v1",
                             s.unknownMessages, s.unselectedMessages, SortBy(events.value, EVENT_KEY)));
        }
      }
    }
  }
}
