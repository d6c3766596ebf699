/** The order in which a document lists types, messages, fields and projections leaves no trace. */
module OrderIndependence {
  import opened Bytes
  import opened Sorting
  import opened SchemaModel
  import opened Backend
  import opened ValidatePipeline
  import opened FrontToBack
  import S = ValidateSchema

  /** A message without the order of its fields. */
  datatype Unordered = Unordered(name: string, code: string, size: int, fields: multiset<FieldSource>)

  const FORGET := (m: MessageSource) => Unordered(m.name, m.code, m.size, multiset(m.fields))

  /** Equal but for the order of types, of messages and of the fields within a message. */
  ghost predicate SameSchema(a: SchemaSource, b: SchemaSource) {
    && a.(types := [], messages := []) == b.(types := [], messages := [])
    && multiset(a.types) == multiset(b.types)
    && multiset(Map(FORGET, a.messages)) == multiset(Map(FORGET, b.messages))
  }

  /** Equal but for the order of the projections. */
  ghost predicate SamePipeline(p: PipelineSource, q: PipelineSource) {
    p.(projections := []) == q.(projections := []) && multiset(p.projections) == multiset(q.projections)
  }

  // ---- Bags of mapped elements.

  function Without<T>(xs: seq<T>, i: nat): (rest: seq<T>)
    requires i < |xs|
    ensures |rest| == |xs| - 1 && forall x <- rest :: x in xs
  {
    xs[..i] + xs[i + 1..]
  }

  lemma MapWithout<A, R>(f: A -> R, xs: seq<A>, i: nat)
    requires i < |xs|
    ensures multiset(Map(f, xs)) == multiset(Map(f, Without(xs, i))) + multiset{f(xs[i])}
  {
    var before, after := Map(f, xs[..i]), Map(f, xs[i + 1..]);
    assert Map(f, xs) == before + [f(xs[i])] + after;
    assert Map(f, Without(xs, i)) == before + after;
  }

  lemma Cancel<T>(a: multiset<T>, b: multiset<T>, x: T)
    requires a + multiset{x} == b + multiset{x}
    ensures a == b
  {
    assert a == a + multiset{x} - multiset{x};
  }

  /** Two mappings that agree wherever the keys of the elements do map equal bags of keys to equal bags. */
  lemma {:induction false} MapBags<A, B, K, R>(xs: seq<A>, ys: seq<B>, m: A -> K, n: B -> K, f: A -> R, g: B -> R)
    requires multiset(Map(m, xs)) == multiset(Map(n, ys))
    requires forall x, y | x in xs && y in ys && m(x) == n(y) :: f(x) == g(y)
    ensures multiset(Map(f, xs)) == multiset(Map(g, ys))
    decreases |xs|
  {
    hide Map, Without;
    assert |xs| == |multiset(Map(m, xs))| == |multiset(Map(n, ys))| == |ys|;
    if xs != [] {
      assert Map(m, xs)[0] in multiset(Map(m, xs));
      var j := IndexIn(Map(n, ys), m(xs[0]), multiset(Map(m, xs)));
      MapWithout(m, xs, 0);
      MapWithout(f, xs, 0);
      MapWithout(n, ys, j);
      MapWithout(g, ys, j);
      assert n(ys[j]) == m(xs[0]);
      Cancel(multiset(Map(m, Without(xs, 0))), multiset(Map(n, Without(ys, j))), m(xs[0]));
      MapBags(Without(xs, 0), Without(ys, j), m, n, f, g);
    }
  }

  lemma SameMembers<T>(xs: seq<T>, ys: seq<T>)
    requires multiset(xs) == multiset(ys)
    ensures forall x :: x in xs <==> x in ys
    ensures |xs| == |ys|
  {
    assert forall x :: x in xs <==> x in multiset(xs);
    assert forall x :: x in ys <==> x in multiset(ys);
    assert |multiset(xs)| == |xs| && |multiset(ys)| == |ys|;
  }

  lemma MapSame<A, R>(xs: seq<A>, ys: seq<A>, f: A -> R, g: A -> R)
    requires multiset(xs) == multiset(ys) && forall x <- xs :: f(x) == g(x)
    ensures multiset(Map(f, xs)) == multiset(Map(g, ys))
  {
    var id := (x: A) => x;
    assert Map(id, xs) == xs && Map(id, ys) == ys;
    MapBags(xs, ys, id, id, f, g);
  }

  // ---- Types.

  const TYPE_NAME := (t: Type) => t.name

  lemma {:induction false} FindOwnType(types: seq<Type>, t: Type)
    requires DistinctKeys(types, TYPE_NAME) && t in types
    ensures S.FindType(types, t.name) == Some(t)
  {
    if types[0] != t {
      assert t in types[1..];
      var i :| 0 <= i < |types| && types[i] == t;
      assert TYPE_NAME(types[0]) != TYPE_NAME(types[i]);
      FindOwnType(types[1..], t);
    }
  }

  lemma LookupIgnoresOrder(xs: seq<Type>, ys: seq<Type>, name: string)
    requires multiset(xs) == multiset(ys) && DistinctKeys(xs, TYPE_NAME)
    ensures S.FindType(xs, name) == S.FindType(ys, name)
  {
    SameMembers(xs, ys);
    DistinctKeysInAnyOrder(xs, ys, TYPE_NAME);
    match S.FindType(xs, name)
    case None =>
    case Some(t) => FindOwnType(ys, t);
  }

  lemma TypesInAnyOrder(a: SchemaSource, b: SchemaSource)
    requires multiset(a.types) == multiset(b.types) && S.TypesAccepted(a)
    ensures S.TypesAccepted(b)
    ensures DistinctKeys(S.ResolvedTypes(a), TYPE_NAME)
    ensures multiset(S.ResolvedTypes(a)) == multiset(S.ResolvedTypes(b))
    ensures SortBy(S.ResolvedTypes(a), TYPE_KEY) == SortBy(S.ResolvedTypes(b), TYPE_KEY)
  {
    hide SortBy;
    SameMembers(a.types, b.types);
    DistinctKeysInAnyOrder(a.types, b.types, S.SOURCE_TYPE_NAME);
    var types := S.ResolvedTypes(a);
    ResolvedTypeNames(a);
    MapSame(a.types, b.types, t => S.TypeOr(t), t => S.TypeOr(t));
    forall i, j | 0 <= i < j < |types| ensures TYPE_KEY(types[i]) != TYPE_KEY(types[j]) {
      NameKeyInjective(types[i].name, types[j].name);
      assert TYPE_NAME(types[i]) != TYPE_NAME(types[j]);
    }
    SortInAnyOrder(types, S.ResolvedTypes(b), TYPE_KEY);
  }

  lemma ResolvedTypeNames(s: SchemaSource)
    requires S.TypesAccepted(s)
    ensures DistinctKeys(S.ResolvedTypes(s), TYPE_NAME)
  {
    var types := S.ResolvedTypes(s);
    forall i | 0 <= i < |types| ensures types[i].name == s.types[i].name {
      assert S.ResolveType(s.types[i]).Some?;
    }
    forall i, j | 0 <= i < j < |types| ensures TYPE_NAME(types[i]) != TYPE_NAME(types[j]) {
      assert S.SOURCE_TYPE_NAME(s.types[i]) != S.SOURCE_TYPE_NAME(s.types[j]);
    }
  }

  ghost predicate SameLookup(ta: seq<Type>, tb: seq<Type>) {
    forall name :: S.FindType(ta, name) == S.FindType(tb, name)
  }

  // ---- Messages.

  lemma FieldsInAnyOrder(ta: seq<Type>, tb: seq<Type>, a: MessageSource, b: MessageSource)
    requires SameLookup(ta, tb) && FORGET(a) == FORGET(b)
    ensures S.FieldsAccepted(ta, a) <==> S.FieldsAccepted(tb, b)
    ensures multiset(S.ResolvedFields(ta, a)) == multiset(S.ResolvedFields(tb, b))
  {
    hide IsValidSourceName, BuiltinType, S.FindType;
    SameMembers(a.fields, b.fields);
    DistinctKeysInAnyOrder(a.fields, b.fields, S.SOURCE_FIELD_NAME);
    forall f ensures S.ResolveField(ta, a.code, f) == S.ResolveField(tb, b.code, f) {
      assert S.FindType(ta, f.typeName) == S.FindType(tb, f.typeName);
    }
    MapSame(a.fields, b.fields, f => S.FieldOr(ta, a.code, f), f => S.FieldOr(tb, b.code, f));
  }

  lemma MessageInAnyOrder(ta: seq<Type>, tb: seq<Type>, a: MessageSource, b: MessageSource)
    requires SameLookup(ta, tb) && FORGET(a) == FORGET(b) && S.MessageAccepted(ta, a)
    ensures S.MessageAccepted(tb, b)
    ensures S.ResolveMessage(ta, a) == S.ResolveMessage(tb, b)
  {
    hide IsValidSourceName, SortBy, S.FieldsAccepted, S.ExactCover, S.ResolvedFields;
    FieldsInAnyOrder(ta, tb, a, b);
    var xs, ys := S.ResolvedFields(ta, a), S.ResolvedFields(tb, b);
    SameMembers(xs, ys);
    S.ExactCoverOfMembers(xs, ys, a.size);
    AcceptedFieldNames(ta, a);
    DistinctFieldKeys(xs);
    SortInAnyOrder(xs, ys, FIELD_KEY);
    SameMembers(a.fields, b.fields);
  }

  lemma AcceptedFieldNames(types: seq<Type>, m: MessageSource)
    requires S.FieldsAccepted(types, m)
    ensures S.DistinctNames(S.ResolvedFields(types, m))
  {
    S.ResolvedFieldFacts(types, m);
  }

  lemma Partner(xs: seq<MessageSource>, ys: seq<MessageSource>, y: MessageSource) returns (x: MessageSource)
    requires multiset(Map(FORGET, xs)) == multiset(Map(FORGET, ys)) && y in ys
    ensures x in xs && FORGET(x) == FORGET(y)
  {
    var j :| 0 <= j < |ys| && ys[j] == y;
    assert Map(FORGET, ys)[j] in multiset(Map(FORGET, ys));
    var i := IndexIn(Map(FORGET, xs), FORGET(y), multiset(Map(FORGET, ys)));
    x := xs[i];
  }

  lemma KeysThroughForget<K>(messages: seq<MessageSource>, key: MessageSource -> K, of: Unordered -> K)
    requires forall m <- messages :: key(m) == of(FORGET(m))
    ensures DistinctKeys(messages, key) <==> DistinctKeys(Map(FORGET, messages), of)
  {
    var forgotten := Map(FORGET, messages);
    forall i | 0 <= i < |messages| ensures key(messages[i]) == of(forgotten[i]) {
    }
    if DistinctKeys(messages, key) {
      forall i, j | 0 <= i < j < |messages| ensures of(forgotten[i]) != of(forgotten[j]) {
        assert key(messages[i]) != key(messages[j]);
      }
    }
    if DistinctKeys(forgotten, of) {
      forall i, j | 0 <= i < j < |messages| ensures key(messages[i]) != key(messages[j]) {
        assert of(forgotten[i]) != of(forgotten[j]);
      }
    }
  }

  lemma NamesInAnyOrder(xs: seq<MessageSource>, ys: seq<MessageSource>)
    requires multiset(Map(FORGET, xs)) == multiset(Map(FORGET, ys))
    ensures DistinctKeys(xs, S.SOURCE_MESSAGE_NAME) <==> DistinctKeys(ys, S.SOURCE_MESSAGE_NAME)
    ensures DistinctKeys(xs, S.SOURCE_MESSAGE_CODE) <==> DistinctKeys(ys, S.SOURCE_MESSAGE_CODE)
  {
    var name := (u: Unordered) => u.name;
    var code := (u: Unordered) => u.code;
    KeysThroughForget(xs, S.SOURCE_MESSAGE_NAME, name);
    KeysThroughForget(ys, S.SOURCE_MESSAGE_NAME, name);
    KeysThroughForget(xs, S.SOURCE_MESSAGE_CODE, code);
    KeysThroughForget(ys, S.SOURCE_MESSAGE_CODE, code);
    DistinctKeysInAnyOrder(Map(FORGET, xs), Map(FORGET, ys), name);
    DistinctKeysInAnyOrder(Map(FORGET, xs), Map(FORGET, ys), code);
  }

  /** One direction; the other follows by exchanging the two schemas. */
  lemma AcceptedInAnyOrder(a: SchemaSource, b: SchemaSource)
    requires SameSchema(a, b) && S.SchemaAccepted(a)
    ensures S.SchemaAccepted(b) && S.ResolveSchema(a) == S.ResolveSchema(b)
  {
    hide S.TypesAccepted, S.MessageAccepted, S.ResolveMessage, S.ResolvedTypes, S.FindType, SortBy;
    TypesInAnyOrder(a, b);
    var ta, tb := S.ResolvedTypes(a), S.ResolvedTypes(b);
    forall name ensures S.FindType(ta, name) == S.FindType(tb, name) {
      LookupIgnoresOrder(ta, tb, name);
    }
    NamesInAnyOrder(a.messages, b.messages);
    SameMembers(Map(FORGET, a.messages), Map(FORGET, b.messages));
    forall y | y in b.messages ensures S.MessageAccepted(tb, y) {
      var x := Partner(a.messages, b.messages, y);
      MessageInAnyOrder(ta, tb, x, y);
    }
    forall x, y | x in a.messages && y in b.messages && FORGET(x) == FORGET(y)
      ensures S.ResolveMessage(ta, x) == S.ResolveMessage(tb, y)
    {
      MessageInAnyOrder(ta, tb, x, y);
    }
    var fa := (m: MessageSource) => S.ResolveMessage(ta, m);
    var fb := (m: MessageSource) => S.ResolveMessage(tb, m);
    MapBags(a.messages, b.messages, FORGET, FORGET, fa, fb);
    ResolvedDiscriminators(a);
    assert Map(fa, a.messages) == Map(m => S.ResolveMessage(ta, m), a.messages);
    assert Map(fb, b.messages) == Map(m => S.ResolveMessage(tb, m), b.messages);
    SortInAnyOrder(Map(fa, a.messages), Map(fb, b.messages), MESSAGE_KEY);
  }

  /** Acceptance of a schema, and what it resolves to, do not depend on order. */
  lemma SchemaInAnyOrder(a: SchemaSource, b: SchemaSource)
    requires SameSchema(a, b)
    ensures S.SchemaAccepted(a) <==> S.SchemaAccepted(b)
    ensures S.SchemaAccepted(a) ==> S.ResolveSchema(a) == S.ResolveSchema(b)
  {
    hide S.SchemaAccepted, S.ResolveSchema;
    if S.SchemaAccepted(a) {
      AcceptedInAnyOrder(a, b);
    }
    if S.SchemaAccepted(b) {
      AcceptedInAnyOrder(b, a);
    }
  }

  lemma PipelineInAnyOrder(schema: Schema, p: PipelineSource, q: PipelineSource)
    requires SchemaSound(schema) && SamePipeline(p, q)
    ensures PipelineAccepted(schema, p) <==> PipelineAccepted(schema, q)
    ensures PipelineAccepted(schema, p) ==> ResolvePipeline(schema, p) == ResolvePipeline(schema, q)
  {
    hide SchemaSound, ProjectionAccepted, ResolveProjection, NamespaceAccepted, IsValidSourceName, SortBy;
    SameMembers(p.projections, q.projections);
    DistinctKeysInAnyOrder(p.projections, q.projections, PROJECTION_SOURCE);
    DistinctKeysInAnyOrder(p.projections, q.projections, PROJECTION_EVENT);
    if PipelineAccepted(schema, p) {
      var resolve := (projection: ProjectionSource) => ResolveProjection(schema, projection);
      ResolvedEvents(schema, p);
      MapSame(p.projections, q.projections, resolve, resolve);
      assert Map(resolve, p.projections) == Map(x => ResolveProjection(schema, x), p.projections);
      assert Map(resolve, q.projections) == Map(x => ResolveProjection(schema, x), q.projections);
      SortInAnyOrder(Map(resolve, p.projections), Map(resolve, q.projections), EVENT_KEY);
    }
  }

  /**
   Order independence: reordering types, messages, fields within a message or projections changes
   neither what is accepted nor a single byte of the FFIR, fingerprints included.
   */
  lemma OrderLeavesNoTrace(a: SchemaSource, b: SchemaSource, p: PipelineSource, q: PipelineSource,
                           generatorVersion: string)
    requires SameSchema(a, b) && SamePipeline(p, q)
    ensures S.SchemaAccepted(a) <==> S.SchemaAccepted(b)
    ensures S.SchemaAccepted(a) ==>
              var sa, sb := S.ResolveSchema(a), S.ResolveSchema(b);
              && (PipelineAccepted(sa, p) <==> PipelineAccepted(sb, q))
              && (PipelineAccepted(sa, p) ==>
                    Lowered(sa, ResolvePipeline(sa, p), generatorVersion)
                    == Lowered(sb, ResolvePipeline(sb, q), generatorVersion))
  {
    hide S.SchemaAccepted, S.ResolveSchema, SchemaSound, PipelineAccepted, ResolvePipeline, Lowered;
    SchemaInAnyOrder(a, b);
    if S.SchemaAccepted(a) {
      AcceptedSchemaSound(a);
      PipelineInAnyOrder(S.ResolveSchema(a), p, q);
    }
  }
}
