/**
 What two documents say a decoder makes of a payload, without resolved types, FFIR or code, and the proof
 that what they say leaves nothing open.
 */
module DocumentMeaning {
  import opened Bytes
  import opened Sorting
  import opened SchemaModel
  import opened Documents
  import opened Emission
  import opened Replay
  import V = ValidatePipeline
  import S = ValidateSchema

  /** A value of the given C++ type, made of the given bytes. */
  predicate Holds(value: Value, cppType: CppType, bytes: seq<byte>) {
    if cppType.CppAscii? then value == Characters(bytes) else value == Scalar(cppType, BigEndian(bytes))
  }

  /** The C++ type that the document gives the values of a field. */
  function FieldValueType(types: seq<TypeSource>, f: FieldSource): Option<CppType> {
    match FieldSpelling(types, f)
    case None => None
    case Some(spelled) => ValueType(spelled)
  }

  /** A value of an event is a field of the document, of the type and in the place that the document gives it. */
  predicate FromField(types: seq<TypeSource>, value: (string, Value), f: FieldSource, payload: seq<byte>) {
    && value.0 == f.name && Projectable(f)
    && 0 <= f.offset && 0 < f.width && f.offset + f.width <= |payload|
    && FieldValueType(types, f).Some?
    && Holds(value.1, FieldValueType(types, f).value, payload[f.offset..f.offset + f.width])
  }

  predicate Projectable(f: FieldSource) {
    f.role.None? && f.typeName != "reserved"
  }

  predicate Present(types: seq<TypeSource>, values: seq<(string, Value)>, f: FieldSource, payload: seq<byte>) {
    exists value <- values :: FromField(types, value, f, payload)
  }

  predicate Grounded(types: seq<TypeSource>, value: (string, Value), fields: seq<FieldSource>, payload: seq<byte>) {
    exists f <- fields :: FromField(types, value, f, payload)
  }

  predicate Before(fields: seq<FieldSource>, first: (string, Value), second: (string, Value)) {
    forall f <- fields, g <- fields :: f.name == first.0 && g.name == second.0 ==> f.offset < g.offset
  }

  predicate InOffsetOrder(fields: seq<FieldSource>, values: seq<(string, Value)>) {
    forall i, j | 0 <= i < j < |values| :: Before(fields, values[i], values[j])
  }

  /** The fields named, in the order named; or with `*` every projectable field, once and in offset order. */
  predicate Projects(types: seq<TypeSource>, m: MessageSource, names: seq<string>, payload: seq<byte>,
                     values: seq<(string, Value)>)
  {
    && (forall value <- values :: Grounded(types, value, m.fields, payload))
    && if "*" in names
       then
         && (forall f <- m.fields | Projectable(f) :: Present(types, values, f, payload))
         && InOffsetOrder(m.fields, values)
       else |values| == |names| && forall i | 0 <= i < |names| :: values[i].0 == names[i]
  }

  predicate Carries(m: MessageSource, messageType: byte) {
    S.CodeByte(m.code) == messageType
  }

  predicate IsProjected(ps: PipelineSource, m: MessageSource) {
    exists p <- ps.projections :: p.source == m.code
  }

  /** What the documents say about one message: its size decides, then whether it is projected, then how. */
  predicate MessageMeans(s: SchemaSource, ps: PipelineSource, m: MessageSource, payload: seq<byte>,
                         verdict: Verdict<EventValue>)
    requires payload != []
  {
    if m.size < 0 then false
    else if |payload| != m.size then verdict == Decline(InvalidMessageSize, payload[0], m.size)
    else if !IsProjected(ps, m) then verdict == Decline(KnownUnselectedSkipped, payload[0], m.size)
    else
      && verdict.Deliver? && verdict.messageType == payload[0] && verdict.expectedSize == m.size
      && exists p <- ps.projections ::
           && p.source == m.code && p.event == verdict.event.event
           && Projects(s.types, m, p.fields, payload, verdict.event.fields)
  }

  predicate DocumentsMean(s: SchemaSource, ps: PipelineSource, payload: seq<byte>, verdict: Verdict<EventValue>) {
    if payload == [] then verdict == Decline(EmptyPayload, 0, 0)
    else
      && (forall m <- s.messages | Carries(m, payload[0]) :: MessageMeans(s, ps, m, payload, verdict))
      && ((forall m <- s.messages :: !Carries(m, payload[0])) ==>
            verdict == Decline(if ps.unknownMessages == "skip" then UnknownSkipped else UnknownMessageType,
                               payload[0], 0))
  }

  // ---- The documents determine the verdict.

  lemma SameName(sources: seq<FieldSource>, f: FieldSource, g: FieldSource)
    requires DistinctKeys(sources, S.SOURCE_FIELD_NAME) && f in sources && g in sources && f.name == g.name
    ensures f == g
  {
    var i :| 0 <= i < |sources| && sources[i] == f;
    var j :| 0 <= j < |sources| && sources[j] == g;
    assert S.SOURCE_FIELD_NAME(sources[i]) == S.SOURCE_FIELD_NAME(sources[j]);
  }

  /** One field of one payload has one value. */
  lemma OneValue(types: seq<TypeSource>, fields: seq<FieldSource>, f: FieldSource, g: FieldSource,
                 payload: seq<byte>, a: (string, Value), b: (string, Value))
    requires DistinctKeys(fields, S.SOURCE_FIELD_NAME) && f in fields && g in fields && a.0 == b.0
    requires FromField(types, a, f, payload) && FromField(types, b, g, payload)
    ensures a == b
  {
    hide FieldValueType, BigEndian;
    SameName(fields, f, g);
  }

  function OffsetNamed(fields: seq<FieldSource>, name: string): nat {
    if fields == [] then 0
    else if fields[0].name == name then if fields[0].offset < 0 then 0 else fields[0].offset
    else OffsetNamed(fields[1..], name)
  }

  lemma {:induction false} OffsetOfNamed(fields: seq<FieldSource>, f: FieldSource)
    requires DistinctKeys(fields, S.SOURCE_FIELD_NAME) && f in fields && f.offset >= 0
    ensures OffsetNamed(fields, f.name) == f.offset
  {
    if fields[0].name == f.name {
      SameName(fields, fields[0], f);
    } else {
      assert f in fields[1..];
      OffsetOfNamed(fields[1..], f);
    }
  }

  function OffsetKey(fields: seq<FieldSource>): ((string, Value)) -> Key {
    (value: (string, Value)) => [OffsetNamed(fields, value.0)]
  }

  lemma WildcardSorted(types: seq<TypeSource>, m: MessageSource, payload: seq<byte>, values: seq<(string, Value)>)
    requires DistinctKeys(m.fields, S.SOURCE_FIELD_NAME) && Projects(types, m, ["*"], payload, values)
    ensures Ordered(values, OffsetKey(m.fields)) && DistinctKeys(values, OffsetKey(m.fields))
  {
    hide FieldValueType, Holds, DistinctKeys, Present;
    var key := OffsetKey(m.fields);
    forall i, j | 0 <= i < j < |values|
      ensures Below(key(values[i]), key(values[j])) && key(values[i]) != key(values[j])
    {
      assert Grounded(types, values[i], m.fields, payload) && Grounded(types, values[j], m.fields, payload);
      var f :| f in m.fields && FromField(types, values[i], f, payload);
      var g :| g in m.fields && FromField(types, values[j], g, payload);
      OffsetOfNamed(m.fields, f);
      OffsetOfNamed(m.fields, g);
      assert Before(m.fields, values[i], values[j]);
      assert key(values[i])[0] < key(values[j])[0];
    }
    RisingKeys(values, key);
  }

  lemma RisingKeys<T>(xs: seq<T>, key: T -> Key)
    requires forall i, j | 0 <= i < j < |xs| :: Below(key(xs[i]), key(xs[j])) && key(xs[i]) != key(xs[j])
    ensures Ordered(xs, key) && DistinctKeys(xs, key)
  {
  }

  lemma WildcardMembers(types: seq<TypeSource>, m: MessageSource, payload: seq<byte>,
                        a: seq<(string, Value)>, b: seq<(string, Value)>)
    requires DistinctKeys(m.fields, S.SOURCE_FIELD_NAME)
    requires Projects(types, m, ["*"], payload, a) && Projects(types, m, ["*"], payload, b)
    ensures forall x | x in a :: x in b
  {
    hide FromField, DistinctKeys, InOffsetOrder;
    forall x | x in a ensures x in b {
      assert Grounded(types, x, m.fields, payload);
      var f :| f in m.fields && FromField(types, x, f, payload);
      assert Projectable(f) && x.0 == f.name by {
        FieldIsProjectable(types, x, f, payload);
      }
      assert Present(types, b, f, payload);
      var y :| y in b && FromField(types, y, f, payload);
      FieldIsProjectable(types, y, f, payload);
      OneValue(types, m.fields, f, f, payload, x, y);
    }
  }

  lemma FieldIsProjectable(types: seq<TypeSource>, value: (string, Value), f: FieldSource, payload: seq<byte>)
    requires FromField(types, value, f, payload)
    ensures Projectable(f) && value.0 == f.name
  {
  }

  /** With equal elements and distinct keys, two sequences are equal bags. */
  lemma EqualBags<T(!new), K>(xs: seq<T>, ys: seq<T>, key: T -> K)
    requires DistinctKeys(xs, key) && DistinctKeys(ys, key) && forall x :: x in xs <==> x in ys
    ensures multiset(xs) == multiset(ys)
  {
    BagOfDistinctKeys(xs, key);
    BagOfDistinctKeys(ys, key);
    assert forall x :: x in multiset(xs) <==> x in xs;
    assert forall x :: x in multiset(ys) <==> x in ys;
  }

  /** A projection leaves no choice of values: not their number, order, type or content. */
  lemma ProjectsDetermines(types: seq<TypeSource>, m: MessageSource, names: seq<string>, payload: seq<byte>,
                           a: seq<(string, Value)>, b: seq<(string, Value)>)
    requires DistinctKeys(m.fields, S.SOURCE_FIELD_NAME)
    requires Projects(types, m, names, payload, a) && Projects(types, m, names, payload, b)
    ensures a == b
  {
    hide FromField, DistinctKeys, InOffsetOrder, Ordered, OffsetKey;
    if "*" in names {
      WildcardSorted(types, m, payload, a);
      WildcardSorted(types, m, payload, b);
      WildcardMembers(types, m, payload, a, b);
      WildcardMembers(types, m, payload, b, a);
      EqualBags(a, b, OffsetKey(m.fields));
      OneSortedOrder(a, b, OffsetKey(m.fields));
    } else {
      forall i | 0 <= i < |names| ensures a[i] == b[i] {
        assert Grounded(types, a[i], m.fields, payload) && Grounded(types, b[i], m.fields, payload);
        var f :| f in m.fields && FromField(types, a[i], f, payload);
        var g :| g in m.fields && FromField(types, b[i], g, payload);
        OneValue(types, m.fields, f, g, payload, a[i], b[i]);
      }
    }
  }

  lemma SameProjection(ps: PipelineSource, p: ProjectionSource, q: ProjectionSource)
    requires DistinctKeys(ps.projections, V.PROJECTION_SOURCE)
    requires p in ps.projections && q in ps.projections && p.source == q.source
    ensures p == q
  {
    var i :| 0 <= i < |ps.projections| && ps.projections[i] == p;
    var j :| 0 <= j < |ps.projections| && ps.projections[j] == q;
    assert V.PROJECTION_SOURCE(ps.projections[i]) == V.PROJECTION_SOURCE(ps.projections[j]);
  }

  lemma MessageDetermines(s: SchemaSource, ps: PipelineSource, m: MessageSource, payload: seq<byte>,
                          a: Verdict<EventValue>, b: Verdict<EventValue>)
    requires DistinctKeys(ps.projections, V.PROJECTION_SOURCE) && DistinctKeys(m.fields, S.SOURCE_FIELD_NAME)
    requires payload != []
    requires MessageMeans(s, ps, m, payload, a) && MessageMeans(s, ps, m, payload, b)
    ensures a == b
  {
    hide Projects, DistinctKeys;
    if |payload| == m.size && IsProjected(ps, m) {
      var p :| && p in ps.projections && p.source == m.code && p.event == a.event.event
               && Projects(s.types, m, p.fields, payload, a.event.fields);
      var q :| && q in ps.projections && q.source == m.code && q.event == b.event.event
               && Projects(s.types, m, q.fields, payload, b.event.fields);
      SameProjection(ps, p, q);
      ProjectsDetermines(s.types, m, p.fields, payload, a.event.fields, b.event.fields);
    }
  }

  /** Two documents with distinct names in each message and distinct sources leave a decoder no choice at all. */
  lemma DocumentsDetermine(s: SchemaSource, ps: PipelineSource, payload: seq<byte>,
                           a: Verdict<EventValue>, b: Verdict<EventValue>)
    requires DistinctKeys(ps.projections, V.PROJECTION_SOURCE)
    requires forall m <- s.messages :: DistinctKeys(m.fields, S.SOURCE_FIELD_NAME)
    requires DocumentsMean(s, ps, payload, a) && DocumentsMean(s, ps, payload, b)
    ensures a == b
  {
    hide MessageMeans, DistinctKeys;
    if payload != [] && exists m <- s.messages :: Carries(m, payload[0]) {
      var m :| m in s.messages && Carries(m, payload[0]);
      MessageDetermines(s, ps, m, payload, a, b);
    }
  }
}
