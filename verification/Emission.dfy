/**
 The decoder the compiler emits, as a program with its own meaning: switches, size checks, loads and
 narrowing casts. It is proved to do for every payload what the FFIR says.
 */
module Emission {
  import opened Bytes
  import opened SchemaModel
  import opened CanonicalJson
  import opened Backend
  import opened Replay
  import opened ValidatePipeline

  // ---- load_big_endian.hpp.

  predicate SupportedWidth(width: nat) {
    IsUnsignedWidth(width)
  }

  /** Shift and or, in a 64-bit accumulator. */
  method LoadUnsigned(first: seq<byte>, width: nat) returns (value: nat)
    requires SupportedWidth(width) && width <= |first|
    ensures value == BigEndian(first[..width])
  {
    value := 0;
    for index := 0 to width
      invariant value == BigEndian(first[..index])
    {
      BigEndianBound(first[..index]);
      PowerBound(index);
      assert first[..index + 1][..index] == first[..index];
      value := value * 256 % 0x1_0000_0000_0000_0000 + first[index];
    }
  }

  lemma PowerBound(n: nat)
    requires n < 8
    ensures Power256(n) * 256 <= 0x1_0000_0000_0000_0000
  {
    assert Power256(0) == 1 && Power256(1) == 256 && Power256(2) == 0x1_0000;
    assert Power256(3) == 0x100_0000 && Power256(4) == 0x1_0000_0000 && Power256(5) == 0x100_0000_0000;
    assert Power256(6) == 0x1_0000_0000_0000 && Power256(7) == 0x100_0000_0000_0000;
  }

  // ---- The emitted program.

  datatype Load =
    | CopyBytes(name: string, offset: nat, width: nat)
    | LoadNumber(name: string, cppType: CppType, offset: nat, width: nat, castBytes: nat)

  datatype Case = Case(code: byte, expectedSize: nat, event: string, loads: seq<Load>)

  datatype SizeCase = SizeCase(code: byte, expectedSize: nat)

  /** What follows the first switch: nothing more than a default, or a second switch over unselected messages. */
  datatype Fallback =
    | DefaultOnly(unknown: Declined)
    | SecondSwitch(sizes: seq<SizeCase>, unknown: Declined)

  datatype Program = Program(cases: seq<Case>, fallback: Fallback)

  datatype Value = Scalar(cppType: CppType, number: nat) | Characters(raw: seq<byte>)

  datatype EventValue = EventValue(event: string, fields: seq<(string, Value)>)

  datatype Outcome = Fault | Finished(verdict: Verdict<EventValue>)

  function RunLoad(load: Load, payload: seq<byte>): Option<(string, Value)> {
    if load.offset + load.width > |payload| then None
    else
      var bytes := payload[load.offset..load.offset + load.width];
      match load
      case CopyBytes(name, _, _) => Some((name, Characters(bytes)))
      case LoadNumber(name, cppType, _, width, castBytes) =>
        if !SupportedWidth(width) then None
        else Some((name, Scalar(cppType, BigEndian(bytes) % Power256(castBytes))))
  }

  function RunLoads(loads: seq<Load>, payload: seq<byte>): Option<seq<(string, Value)>> {
    if loads == [] then Some([])
    else match (RunLoads(loads[..|loads| - 1], payload), RunLoad(loads[|loads| - 1], payload))
      case (Some(before), Some(value)) => Some(before + [value])
      case _ => None
  }

  function FindCase(cases: seq<Case>, code: byte): Option<Case> {
    if cases == [] then None else if cases[0].code == code then Some(cases[0]) else FindCase(cases[1..], code)
  }

  function FindSize(sizes: seq<SizeCase>, code: byte): Option<SizeCase> {
    if sizes == [] then None else if sizes[0].code == code then Some(sizes[0]) else FindSize(sizes[1..], code)
  }

  function Run(program: Program, payload: seq<byte>): Outcome {
    if payload == [] then Finished(Decline(EmptyPayload, 0, 0))
    else
      var messageType := payload[0];
      match FindCase(program.cases, messageType)
      case Some(c) =>
        if |payload| != c.expectedSize then Finished(Decline(InvalidMessageSize, messageType, c.expectedSize))
        else (match RunLoads(c.loads, payload)
              case None => Fault
              case Some(fields) => Finished(Deliver(EventValue(c.event, fields), messageType, c.expectedSize)))
      case None =>
        match program.fallback
        case DefaultOnly(unknown) => Finished(Decline(unknown, messageType, 0))
        case SecondSwitch(sizes, unknown) =>
          match FindSize(sizes, messageType)
          case None => Finished(Decline(unknown, messageType, 0))
          case Some(size) =>
            if |payload| != size.expectedSize
            then Finished(Decline(InvalidMessageSize, messageType, size.expectedSize))
            else Finished(Decline(KnownUnselectedSkipped, messageType, size.expectedSize))
  }

  // ---- Emitting it.

  /** The statement that fills one field of an event. */
  function FieldLoad(f: Field): Load
    requires CppTypeOf(f).Some?
  {
    var cppType := CppTypeOf(f).value;
    if f.physical == AsciiBytes then CopyBytes(f.name, f.offset, f.width)
    else
      var castBytes := match cppType
        case CppUnsigned(bytes) => bytes
        case CppAscii(_) => 0
        case CppTimestamp => 8
        case CppDecimal(bytes, _) => bytes
        case CppStockLocate => 2
        case CppTrackingNumber => 2
        case CppOrderReferenceNumber => 8
        case CppMatchNumber => 8
        case CppShareCount => 4;
      LoadNumber(f.name, cppType, f.offset, f.width, castBytes)
  }

  function UnknownStatus(ir: Ffir): Declined {
    if ir.pipeline.unknownMessages == "skip" then UnknownSkipped else UnknownMessageType
  }

  method EmitLoads(fields: seq<Field>) returns (loads: seq<Load>)
    requires forall f <- fields :: CppTypeOf(f).Some?
    ensures |loads| == |fields| && forall i | 0 <= i < |fields| :: loads[i] == FieldLoad(fields[i])
  {
    hide FieldLoad, CppTypeOf;
    loads := [];
    for i := 0 to |fields|
      invariant |loads| == i && forall k | 0 <= k < i :: loads[k] == FieldLoad(fields[k])
    {
      loads := loads + [FieldLoad(fields[i])];
    }
  }

  /** The case of a selected event, as both shapes of the decoder contain it. */
  ghost predicate CaseFor(ir: Ffir, e: Event, c: Case) {
    && FindMessage(ir.schema.messages, e.sourceDiscriminator).Some?
    && c.code == e.sourceDiscriminator && c.event == e.event
    && c.expectedSize == FindMessage(ir.schema.messages, e.sourceDiscriminator).value.size
    && |c.loads| == |e.fields|
    && forall i | 0 <= i < |e.fields| :: CppTypeOf(e.fields[i]).Some? && c.loads[i] == FieldLoad(e.fields[i])
  }

  predicate Selected(events: seq<Event>, discriminator: byte) {
    exists e <- events :: e.sourceDiscriminator == discriminator
  }

  ghost predicate EmittedFrom(ir: Ffir, program: Program) {
    && |program.cases| == |ir.pipeline.events|
    && (forall i | 0 <= i < |ir.pipeline.events| :: CaseFor(ir, ir.pipeline.events[i], program.cases[i]))
    && program.fallback.unknown == UnknownStatus(ir)
    && (program.fallback.DefaultOnly? <==> |ir.pipeline.events| == |ir.schema.messages|)
    && (program.fallback.SecondSwitch? ==>
          program.fallback.sizes == UnselectedSizes(ir.schema.messages, ir.pipeline.events))
  }

  function UnselectedSizes(messages: seq<Message>, events: seq<Event>): seq<SizeCase> {
    if messages == [] then []
    else
      var last := messages[|messages| - 1];
      UnselectedSizes(messages[..|messages| - 1], events)
      + if Selected(events, last.discriminator) then [] else [SizeCase(last.discriminator, last.size)]
  }

  method EmitDecoder(ir: Ffir) returns (program: Program)
    requires IrValid(ir)
    ensures EmittedFrom(ir, program)
  {
    hide HeaderValid, NamespaceAccepted, CaseFor, FieldValid, MessagesValid;
    var cases: seq<Case> := [];
    for i := 0 to |ir.pipeline.events|
      invariant |cases| == i && forall k | 0 <= k < i :: CaseFor(ir, ir.pipeline.events[k], cases[k])
    {
      var c := EmitCase(ir, ir.pipeline.events[i]);
      cases := cases + [c];
    }
    if |ir.pipeline.events| == |ir.schema.messages| {
      program := Program(cases, DefaultOnly(UnknownStatus(ir)));
    } else {
      var messages := ir.schema.messages;
      var sizes: seq<SizeCase> := [];
      for i := 0 to |messages|
        invariant sizes == UnselectedSizes(messages[..i], ir.pipeline.events)
      {
        assert messages[..i + 1][..i] == messages[..i];
        if !Selected(ir.pipeline.events, messages[i].discriminator) {
          sizes := sizes + [SizeCase(messages[i].discriminator, messages[i].size)];
        }
      }
      assert messages[..|messages|] == messages;
      program := Program(cases, SecondSwitch(sizes, UnknownStatus(ir)));
    }
  }

  method EmitCase(ir: Ffir, e: Event) returns (c: Case)
    requires EventValid(ir.schema.messages, e)
    ensures CaseFor(ir, e, c)
  {
    hide FieldLoad, CppTypeOf, IsValidSourceName;
    var message := FindMessage(ir.schema.messages, e.sourceDiscriminator);
    var loads := EmitLoads(e.fields);
    c := Case(e.sourceDiscriminator, message.value.size, e.event, loads);
  }

  // ---- What the FFIR means.

  /** The value of a projected field: its bytes, or the number they denote, with no width in between. */
  function FieldValue(f: Field, payload: seq<byte>): (string, Value)
    requires CppTypeOf(f).Some? && f.offset + f.width <= |payload|
  {
    var bytes := payload[f.offset..f.offset + f.width];
    (f.name, if f.physical == AsciiBytes then Characters(bytes) else Scalar(CppTypeOf(f).value, BigEndian(bytes)))
  }

  ghost predicate FieldsMean(fields: seq<Field>, payload: seq<byte>, values: seq<(string, Value)>) {
    && |values| == |fields|
    && forall i | 0 <= i < |fields| ::
      && CppTypeOf(fields[i]).Some? && fields[i].offset + fields[i].width <= |payload|
      && values[i] == FieldValue(fields[i], payload)
  }

  /** First byte among the known messages, then size, then projection: what the FFIR asks for. */
  ghost predicate Means(ir: Ffir, payload: seq<byte>, verdict: Verdict<EventValue>) {
    if payload == [] then verdict == Decline(EmptyPayload, 0, 0)
    else match FindMessage(ir.schema.messages, payload[0])
      case None => verdict == Decline(UnknownStatus(ir), payload[0], 0)
      case Some(m) =>
        if |payload| != m.size then verdict == Decline(InvalidMessageSize, payload[0], m.size)
        else if !Selected(ir.pipeline.events, payload[0])
        then verdict == Decline(KnownUnselectedSkipped, payload[0], m.size)
        else exists e <- ir.pipeline.events ::
          && e.sourceDiscriminator == payload[0]
          && verdict.Deliver? && verdict.messageType == payload[0] && verdict.expectedSize == m.size
          && verdict.event.event == e.event
          && FieldsMean(e.fields, payload, verdict.event.fields)
  }

  // ---- The proof.

  /** No cast loses anything: every representation is at least as wide as the bytes loaded. */
  lemma CastIsWideEnough(f: Field)
    requires CppTypeOf(f).Some? && f.physical != AsciiBytes
    ensures FieldLoad(f).LoadNumber? && SupportedWidth(f.width) && f.width <= FieldLoad(f).castBytes
  {
  }

  lemma LoadIsExact(m: Message, event: string, f: Field, payload: seq<byte>)
    requires FieldValid(m, event, f) && |payload| == m.size
    ensures f.offset + f.width <= |payload|
    ensures RunLoad(FieldLoad(f), payload) == Some(FieldValue(f, payload))
  {
    hide IsValidSourceName, Power256, FindField, CppTypeOf, BigEndian, CollidesWithEvent;
    if f.physical != AsciiBytes {
      CastIsWideEnough(f);
      BigEndianBound(payload[f.offset..f.offset + f.width]);
      PowerMonotonic(f.width, FieldLoad(f).castBytes);
    }
  }

  lemma {:induction false} PowerMonotonic(a: nat, b: nat)
    requires a <= b
    ensures Power256(a) <= Power256(b)
    decreases b
  {
    if a < b {
      PowerMonotonic(a, b - 1);
    }
  }

  lemma {:induction false} LoadsAreExact(m: Message, event: string, fields: seq<Field>, loads: seq<Load>,
                                         payload: seq<byte>)
    requires forall f <- fields :: FieldValid(m, event, f)
    requires |payload| == m.size && |loads| == |fields|
    requires forall i | 0 <= i < |fields| :: CppTypeOf(fields[i]).Some? && loads[i] == FieldLoad(fields[i])
    ensures RunLoads(loads, payload).Some? && FieldsMean(fields, payload, RunLoads(loads, payload).value)
  {
    hide FieldValid, FieldLoad, RunLoad, CppTypeOf, FieldValue;
    if fields != [] {
      var n := |fields| - 1;
      LoadsAreExact(m, event, fields[..n], loads[..n], payload);
      LoadIsExact(m, event, fields[n], payload);
      forall i | 0 <= i < n
        ensures fields[i].offset + fields[i].width <= |payload|
        ensures RunLoads(loads[..n], payload).value[i] == FieldValue(fields[i], payload)
      {
        assert fields[..n][i] == fields[i];
      }
    }
  }

  lemma {:induction false} FindCaseFor(ir: Ffir, events: seq<Event>, cases: seq<Case>, code: byte)
    requires |cases| == |events| && forall i | 0 <= i < |events| :: CaseFor(ir, events[i], cases[i])
    ensures FindCase(cases, code).Some? <==> Selected(events, code)
    ensures FindCase(cases, code).Some? ==>
              exists e <- events :: e.sourceDiscriminator == code && CaseFor(ir, e, FindCase(cases, code).value)
  {
    hide FieldLoad, CppTypeOf;
    if cases != [] {
      FindCaseFor(ir, events[1..], cases[1..], code);
      assert events == [events[0]] + events[1..];
      assert CaseFor(ir, events[0], cases[0]);
    }
  }

  lemma {:induction false} FindUnselected(messages: seq<Message>, events: seq<Event>, code: byte)
    requires !Selected(events, code) && IncreasingMessages(messages)
    ensures FindSize(UnselectedSizes(messages, events), code)
            == match FindMessage(messages, code)
               case None => None
               case Some(m) => Some(SizeCase(code, m.size))
  {
    hide Selected;
    if messages != [] {
      var butLast, last := messages[..|messages| - 1], messages[|messages| - 1];
      FindUnselected(butLast, events, code);
      FindMessageLast(butLast, last, code);
      assert messages == butLast + [last];
      if !Selected(events, last.discriminator) {
        FindSizeLast(UnselectedSizes(butLast, events), SizeCase(last.discriminator, last.size), code);
      } else {
        assert UnselectedSizes(butLast, events) + [] == UnselectedSizes(butLast, events);
      }
    }
  }

  lemma {:induction false} FindMessageLast(messages: seq<Message>, last: Message, code: byte)
    ensures FindMessage(messages + [last], code)
            == if FindMessage(messages, code).Some? then FindMessage(messages, code)
               else if last.discriminator == code then Some(last) else None
  {
    if messages != [] {
      assert (messages + [last])[1..] == messages[1..] + [last];
      FindMessageLast(messages[1..], last, code);
    }
  }

  lemma {:induction false} FindSizeLast(sizes: seq<SizeCase>, last: SizeCase, code: byte)
    ensures FindSize(sizes + [last], code)
            == if FindSize(sizes, code).Some? then FindSize(sizes, code)
               else if last.code == code then Some(last) else None
  {
    if sizes != [] {
      assert (sizes + [last])[1..] == sizes[1..] + [last];
      FindSizeLast(sizes[1..], last, code);
    }
  }

  // The counting argument behind the choice of shape.

  ghost function MessageTypes(messages: seq<Message>): set<byte> {
    set i | 0 <= i < |messages| :: messages[i].discriminator
  }

  ghost function EventTypes(events: seq<Event>): set<byte> {
    set i | 0 <= i < |events| :: events[i].sourceDiscriminator
  }

  lemma {:induction false} CountMessageTypes(messages: seq<Message>)
    requires IncreasingMessages(messages)
    ensures |MessageTypes(messages)| == |messages|
  {
    if messages != [] {
      var butLast, last := messages[..|messages| - 1], messages[|messages| - 1];
      CountMessageTypes(butLast);
      assert forall i | 0 <= i < |butLast| :: butLast[i] == messages[i];
      assert MessageTypes(messages) == MessageTypes(butLast) + {last.discriminator};
    }
  }

  lemma {:induction false} CountEventTypes(events: seq<Event>)
    requires IncreasingEvents(events)
    ensures |EventTypes(events)| == |events|
  {
    if events != [] {
      var butLast, last := events[..|events| - 1], events[|events| - 1];
      CountEventTypes(butLast);
      assert forall i | 0 <= i < |butLast| :: butLast[i] == events[i];
      assert EventTypes(events) == EventTypes(butLast) + {last.sourceDiscriminator};
    }
  }

  lemma SubsetOfSameSize<T>(a: set<T>, b: set<T>)
    requires a <= b && |a| == |b|
    ensures a == b
  {
    if a != b {
      var x :| x in b && x !in a;
      SubsetNoLarger(a, b - {x});
    }
  }

  lemma {:induction false} SubsetNoLarger<T>(a: set<T>, b: set<T>)
    requires a <= b
    ensures |a| <= |b|
  {
    if a != {} {
      var x :| x in a;
      SubsetNoLarger(a - {x}, b - {x});
    }
  }

  /** As many events as known messages means that every known message is selected. */
  lemma EqualCountsSelectAll(messages: seq<Message>, events: seq<Event>)
    requires IncreasingMessages(messages) && IncreasingEvents(events) && |events| == |messages|
    requires forall e <- events :: FindMessage(messages, e.sourceDiscriminator).Some?
    ensures forall m <- messages :: Selected(events, m.discriminator)
  {
    CountMessageTypes(messages);
    CountEventTypes(events);
    forall d | d in EventTypes(events) ensures d in MessageTypes(messages) {
      var e :| e in events && e.sourceDiscriminator == d;
      var m := FindMessage(messages, d).value;
      var i :| 0 <= i < |messages| && messages[i] == m;
      assert messages[i].discriminator == d;
    }
    SubsetOfSameSize(EventTypes(events), MessageTypes(messages));
    forall m | m in messages ensures Selected(events, m.discriminator) {
      assert m.discriminator in MessageTypes(messages);
    }
  }

  /** Every selected payload of the right size is loaded in bounds and exactly. */
  lemma SelectedCase(ir: Ffir, program: Program, payload: seq<byte>)
    requires IrValid(ir) && EmittedFrom(ir, program)
    requires payload != [] && Selected(ir.pipeline.events, payload[0])
    ensures Run(program, payload).Finished? && Means(ir, payload, Run(program, payload).verdict)
  {
    hide HeaderValid, NamespaceAccepted, MessagesValid, FieldValid, FieldLoad, CppTypeOf, RunLoads, FieldsMean;
    var events := ir.pipeline.events;
    FindCaseFor(ir, events, program.cases, payload[0]);
    var c := FindCase(program.cases, payload[0]).value;
    var e :| e in events && e.sourceDiscriminator == payload[0] && CaseFor(ir, e, c);
    assert EventValid(ir.schema.messages, e);
    var m := FindMessage(ir.schema.messages, payload[0]).value;
    if |payload| == m.size {
      LoadsAreExact(m, e.event, e.fields, c.loads, payload);
    }
  }

  lemma UnselectedCase(ir: Ffir, program: Program, payload: seq<byte>)
    requires IrValid(ir) && EmittedFrom(ir, program)
    requires payload != [] && !Selected(ir.pipeline.events, payload[0])
    ensures Run(program, payload).Finished? && Means(ir, payload, Run(program, payload).verdict)
  {
    hide HeaderValid, NamespaceAccepted, FieldValid, CaseFor, UnselectedSizes, Selected, MessageValid;
    var messages, events := ir.schema.messages, ir.pipeline.events;
    FindCaseFor(ir, events, program.cases, payload[0]);
    if |events| == |messages| {
      EqualCountsSelectAll(messages, events);
    } else {
      FindUnselected(messages, events, payload[0]);
    }
  }

  /**
   Compilation preserves meaning: for every accepted FFIR and every payload the emitted decoder
   finishes, with no load out of bounds, and returns what the FFIR means.
   */
  lemma CompilationPreservesMeaning(ir: Ffir, program: Program, payload: seq<byte>)
    requires IrValid(ir) && EmittedFrom(ir, program)
    ensures Run(program, payload).Finished? && Means(ir, payload, Run(program, payload).verdict)
  {
    hide IrValid, EmittedFrom;
    if payload != [] {
      if Selected(ir.pipeline.events, payload[0]) {
        SelectedCase(ir, program, payload);
      } else {
        UnselectedCase(ir, program, payload);
      }
    }
  }
}
