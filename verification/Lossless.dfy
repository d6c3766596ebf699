/**
 What a decoded event says about its payload. Tiling, injective big-endian loads and exact casts
 together make a wildcard projection lose nothing but reserved bytes.
 */
module Lossless {
  import opened Bytes
  import opened Sorting
  import opened SchemaModel
  import opened CanonicalJson
  import opened ValidatePipeline
  import opened Backend
  import opened Emission
  import opened FrontToBack
  import opened Compiler
  import opened Replay
  import S = ValidateSchema

  predicate InReserved(fields: seq<Field>, at: nat) {
    exists f <- fields :: f.physical == Reserved && S.Covers(f, at)
  }

  ghost predicate AgreeOnFields(fields: seq<Field>, p: seq<byte>, q: seq<byte>)
    requires |p| == |q|
  {
    forall at: nat | at < |p| && S.Covered(fields, at) :: p[at] == q[at]
  }

  ghost predicate AgreeOutsideReserved(fields: seq<Field>, p: seq<byte>, q: seq<byte>)
    requires |p| == |q|
  {
    forall at: nat | at < |p| && !InReserved(fields, at) :: p[at] == q[at]
  }

  lemma FieldValueInjective(f: Field, p: seq<byte>, q: seq<byte>)
    requires CppTypeOf(f).Some? && |p| == |q| && f.offset + f.width <= |p|
    ensures FieldValue(f, p) == FieldValue(f, q)
            <==> forall at: nat | S.Covers(f, at) :: p[at] == q[at]
  {
    hide CppTypeOf, BigEndian;
    var a, b := p[f.offset..f.offset + f.width], q[f.offset..f.offset + f.width];
    BigEndianInjective(a, b);
    assert FieldValue(f, p) == FieldValue(f, q) <==> a == b;
    if a == b {
      forall at: nat | S.Covers(f, at) ensures p[at] == q[at] {
        assert a[at - f.offset] == b[at - f.offset];
      }
    }
  }

  lemma ValuesAgree(fields: seq<Field>, p: seq<byte>, q: seq<byte>, a: seq<(string, Value)>, b: seq<(string, Value)>)
    requires |p| == |q| && FieldsMean(fields, p, a) && FieldsMean(fields, q, b)
    ensures a == b <==> AgreeOnFields(fields, p, q)
  {
    hide CppTypeOf, FieldValue;
    forall i | 0 <= i < |fields|
      ensures a[i] == b[i] <==> forall at: nat | S.Covers(fields[i], at) :: p[at] == q[at]
    {
      FieldValueInjective(fields[i], p, q);
    }
    if AgreeOnFields(fields, p, q) {
      forall i | 0 <= i < |fields| ensures a[i] == b[i] {
        forall at: nat | S.Covers(fields[i], at) ensures p[at] == q[at] {
          assert S.Covered(fields, at);
        }
      }
    }
  }

  lemma OneEvent(events: seq<Event>, e: Event, f: Event)
    requires IncreasingEvents(events) && e in events && f in events
    requires e.sourceDiscriminator == f.sourceDiscriminator
    ensures e == f
  {
  }

  /** What a right-sized payload of a selected message decodes to. */
  lemma DecodedEvent(ir: Ffir, program: Program, m: Message, e: Event, p: seq<byte>)
    returns (values: seq<(string, Value)>)
    requires IrValid(ir) && EmittedFrom(ir, program)
    requires m in ir.schema.messages && e in ir.pipeline.events && e.sourceDiscriminator == m.discriminator
    requires p != [] && |p| == m.size && p[0] == m.discriminator
    ensures Run(program, p) == Finished(Deliver(EventValue(e.event, values), m.discriminator, m.size))
    ensures FieldsMean(e.fields, p, values)
  {
    hide HeaderValid, NamespaceAccepted, EventValid, MessageValid, EmittedFrom, Run, FieldsMean, DistinctKeys;
    CompilationPreservesMeaning(ir, program, p);
    UniqueMessage(ir.schema.messages, m);
    assert Selected(ir.pipeline.events, p[0]);
    var verdict := Run(program, p).verdict;
    var chosen :| && chosen in ir.pipeline.events && chosen.sourceDiscriminator == p[0]
                  && verdict.Deliver? && verdict.event.event == chosen.event
                  && FieldsMean(chosen.fields, p, verdict.event.fields);
    OneEvent(ir.pipeline.events, e, chosen);
    values := verdict.event.fields;
  }

  /** Any projection: two payloads decode to equal events exactly when they agree on the projected bytes. */
  lemma EventsShowProjectedBytes(ir: Ffir, program: Program, m: Message, e: Event, p: seq<byte>, q: seq<byte>)
    requires IrValid(ir) && EmittedFrom(ir, program)
    requires m in ir.schema.messages && e in ir.pipeline.events && e.sourceDiscriminator == m.discriminator
    requires p != [] && |p| == |q| == m.size && p[0] == q[0] == m.discriminator
    ensures Run(program, p) == Run(program, q) <==> AgreeOnFields(e.fields, p, q)
  {
    hide IrValid, EmittedFrom, Run, FieldsMean, AgreeOnFields;
    var a := DecodedEvent(ir, program, m, e, p);
    var b := DecodedEvent(ir, program, m, e, q);
    ValuesAgree(e.fields, p, q, a, b);
  }

  /** The discriminator owns byte 0, so every projectable field starts behind it. */
  lemma ProjectableAfterDiscriminator(m: Message, f: Field)
    requires MessageSound(m) && f in m.fields && f.projectable
    ensures f.offset >= 1
  {
    hide CppTypeOf, IsValidSourceName, Ordered, S.DistinctNames;
    var d :| d in m.fields && d.discriminator;
    assert S.Covers(d, 0) && S.Covers(f, f.offset);
  }

  /** Projectable fields cover all but the discriminator and the reserved bytes. */
  lemma ProjectableCover(m: Message, at: nat)
    requires MessageSound(m) && at < m.size
    ensures S.Covered(ProjectableOf(m.fields), at) <==> at != 0 && !InReserved(m.fields, at)
  {
    hide CppTypeOf, IsValidSourceName, Ordered, S.DistinctNames, MessageValid;
    assert S.Covered(m.fields, at);
    var f :| f in m.fields && S.Covers(f, at);
    assert forall g | g in m.fields && S.Covers(g, at) :: g == f;
    assert S.Covered(ProjectableOf(m.fields), at) <==> f.projectable;
    assert InReserved(m.fields, at) <==> f.physical == Reserved;
    var d :| d in m.fields && d.discriminator;
    assert S.Covers(d, 0);
  }

  lemma AgreementOnWildcard(m: Message, p: seq<byte>, q: seq<byte>)
    requires MessageSound(m) && p != [] && |p| == |q| == m.size && p[0] == q[0]
    ensures AgreeOnFields(ProjectableOf(m.fields), p, q) <==> AgreeOutsideReserved(m.fields, p, q)
  {
    hide MessageSound, S.Covered, InReserved;
    forall at: nat | at < m.size
      ensures S.Covered(ProjectableOf(m.fields), at) <==> at != 0 && !InReserved(m.fields, at)
    {
      ProjectableCover(m, at);
    }
  }

  /** The FFIR of an accepted schema and pipeline, and the event one of its projections becomes. */
  lemma ProjectedEvent(s: SchemaSource, ps: PipelineSource, projection: ProjectionSource, generatorVersion: string)
    requires S.SchemaAccepted(s) && PipelineAccepted(S.ResolveSchema(s), ps) && projection in ps.projections
    ensures SourceMessage(S.ResolveSchema(s), projection).Some?
    ensures var schema := S.ResolveSchema(s);
            var m := SourceMessage(schema, projection).value;
            var e := ResolveProjection(schema, projection);
            var ir := Lowered(schema, ResolvePipeline(schema, ps), generatorVersion);
            && MessageSound(m) && m in ir.schema.messages && e in ir.pipeline.events
            && e.sourceDiscriminator == m.discriminator && e.fields == SelectedFields(m, projection.fields)
  {
    hide S.SchemaAccepted, HeaderAccepted, NamespaceAccepted, NamesAccepted, SelectedFields, MessageSound;
    hide S.ResolveSchema, SortBy, SchemaFingerprint, PipelineFingerprint, IsValidSourceName, CollidesWithEvent;
    var schema := S.ResolveSchema(s);
    AcceptedSchemaSound(s);
    LoweringKeeps(schema, ps, generatorVersion);
    var events := Map(p => ResolveProjection(schema, p), ps.projections);
    SortMembers(events, EVENT_KEY);
    var i :| 0 <= i < |ps.projections| && ps.projections[i] == projection;
    assert events[i] == ResolveProjection(schema, projection);
    assert ProjectionAccepted(schema, projection);
  }

  /**
   A wildcard projection is lossless: for every accepted schema and pipeline, two right-sized payloads
   of a message projected with `*` decode to equal events exactly when they agree on every byte that is
   not reserved.
   */
  lemma WildcardIsLossless(s: SchemaSource, ps: PipelineSource, generatorVersion: string, program: Program,
                           projection: ProjectionSource, m: Message, p: seq<byte>, q: seq<byte>)
    requires CompiledTo(s, ps, generatorVersion, program)
    requires projection in ps.projections && projection.fields == ["*"]
    requires SourceMessage(S.ResolveSchema(s), projection) == Some(m)
    requires p != [] && |p| == |q| == m.size && p[0] == q[0] == m.discriminator
    ensures Run(program, p) == Run(program, q) <==> AgreeOutsideReserved(m.fields, p, q)
  {
    hide S.SchemaAccepted, PipelineAccepted, S.ResolveSchema, ResolvePipeline, Lowered, EmittedFrom, IrValid, Run;
    hide MessageSound, AgreeOnFields, AgreeOutsideReserved, SourceMessage, ResolveProjection;
    FrontEndImpliesBackEnd(s, ps, generatorVersion);
    ProjectedEvent(s, ps, projection, generatorVersion);
    var e := ResolveProjection(S.ResolveSchema(s), projection);
    assert e.fields == ProjectableOf(m.fields);
    EventsShowProjectedBytes(Compiled(s, ps, generatorVersion), program, m, e, p, q);
    AgreementOnWildcard(m, p, q);
  }
}
