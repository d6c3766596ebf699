/**
 The names in the generated header, as far as events can clash with them: what a name finds inside the
 emitted `decode_one`, what an event struct declares, and what the namespace declares beside the events.
 */
module DecoderNames {
  import opened Bytes
  import opened Sorting
  import opened SchemaModel
  import opened CanonicalJson
  import opened Backend
  import V = ValidatePipeline

  /** What a name can stand for; a namespace by its path from the global one. */
  datatype Entity =
    | EventStruct(name: string)
    | OtherType
    | VariableOrFunction
    | Namespace(path: seq<string>)

  datatype Binding = Binding(name: string, entity: Entity)

  /** In front of `::` only types and namespaces are looked for (ISO C++20 [basic.lookup.qual]). */
  predicate Visible(entity: Entity, qualifier: bool) {
    qualifier ==> !entity.VariableOrFunction?
  }

  function InScope(scope: seq<Binding>, name: string, qualifier: bool): Option<Entity> {
    if scope == [] then None
    else if scope[0].name == name && Visible(scope[0].entity, qualifier) then Some(scope[0].entity)
    else InScope(scope[1..], name, qualifier)
  }

  /** The innermost scope that has the name decides ([basic.lookup.unqual]). */
  function LookUp(scopes: seq<seq<Binding>>, name: string, qualifier: bool): Option<Entity> {
    if scopes == [] then None
    else
      var here := InScope(scopes[0], name, qualifier);
      if here.Some? then here else LookUp(scopes[1..], name, qualifier)
  }

  function Variables(names: seq<string>): seq<Binding> {
    Map(name => Binding(name, VariableOrFunction), names)
  }

  // ---- The scopes around the declaration of an event in a case of `decode_one`.

  const CASE_NAMES := ["expected_size"]
  const FUNCTION_NAMES := ["payload", "sink", "actual_size", "message_type", "discriminator"]

  function EventBindings(events: seq<Event>): seq<Binding> {
    Map(e => EventBinding(e), events)
  }

  function EventBinding(e: Event): Binding {
    Binding(e.event, EventStruct(e.event))
  }

  function GlobalScope(components: seq<string>): seq<Binding>
    requires components != []
  {
    [Binding(components[0], Namespace([components[0]])),
     Binding("std", Namespace(["std"])),
     Binding("feedforge", Namespace(["feedforge"]))]
  }

  /** The namespaces around component `i`, from the inside out; each holds the next component. */
  function EnclosingScopes(components: seq<string>, i: nat): seq<seq<Binding>>
    requires i < |components|
  {
    if i == 0 then [GlobalScope(components)]
    else [[Binding(components[i], Namespace(components[..i + 1]))]] + EnclosingScopes(components, i - 1)
  }

  const TEMPLATE_SCOPES := [
    [Binding("Sink", OtherType)],
    [Binding("decode_one", VariableOrFunction), Binding("basic_decoder", OtherType)],
    [Binding("Implementation", OtherType)]]

  const CLASS_SCOPES := [Variables(CASE_NAMES)] + ([Variables(FUNCTION_NAMES)] + TEMPLATE_SCOPES)

  function NamespaceScope(events: seq<Event>): seq<Binding> {
    [Binding("pipeline_metadata", OtherType)]
    + (EventBindings(events) + [Binding("sink_for_all_selected_events", OtherType)])
  }

  function OuterScopes(events: seq<Event>, components: seq<string>): seq<seq<Binding>>
    requires components != []
  {
    [NamespaceScope(events)] + EnclosingScopes(components, |components| - 1)
  }

  function DecoderScopes(ir: Ffir): seq<seq<Binding>> {
    CLASS_SCOPES + OuterScopes(ir.pipeline.events, Path(ir))
  }

  function Path(ir: Ffir): (components: seq<string>)
    ensures components != []
  {
    Components(ir.pipeline.cppNamespace, 0)
  }

  /** Every `<event> event{};` of the decoder names the struct of that event. */
  predicate DeclarationsFindEvents(ir: Ffir) {
    forall e <- ir.pipeline.events :: LookUp(DecoderScopes(ir), e.event, false) == Some(EventStruct(e.event))
  }

  /** Every `std::` and `feedforge::` of the decoder names the global namespace. */
  predicate QualifiersFindNamespaces(ir: Ffir) {
    && LookUp(DecoderScopes(ir), "std", true) == Some(Namespace(["std"]))
    && LookUp(DecoderScopes(ir), "feedforge", true) == Some(Namespace(["feedforge"]))
  }

  /** No struct has a member of its own name ([class.mem]). */
  predicate StructsAreNamed(ir: Ffir) {
    forall e <- ir.pipeline.events ::
      e.event !in ["source_discriminator", "event_name"] && forall f <- e.fields :: f.name != e.event
  }

  const FIXED_NAMES := [
    "pipeline_metadata", "sink_for_all_selected_events", "basic_decoder", "decoder", "replay_binary_file",
    "chunked_replayer"]

  /** Nothing is declared twice in the namespace. */
  predicate NamespaceNamesDistinct(ir: Ffir) {
    DistinctKeys(FIXED_NAMES + Map(EVENT_NAME, ir.pipeline.events), V.SELF)
  }

  /** All the names of the header mean what they are written for. */
  predicate NamesMean(ir: Ffir) {
    && DeclarationsFindEvents(ir) && QualifiersFindNamespaces(ir)
    && StructsAreNamed(ir) && NamespaceNamesDistinct(ir)
  }

  // ---- The exact condition.

  /** Names that a scope of the decoder gives to something else. */
  predicate IsHidden(name: string) {
    name in ["payload", "sink", "actual_size", "message_type", "discriminator", "expected_size", "decode_one"]
  }

  predicate IsRuntimeNamespace(name: string) {
    name == "std" || name == "feedforge"
  }

  predicate IsSafeEventName(name: string) {
    && !IsHidden(name) && !IsRuntimeNamespace(name)
    && name != "source_discriminator" && name != "event_name" && name != "replay_binary_file"
  }

  predicate IsSafeNamespace(components: seq<string>) {
    forall i | 1 <= i < |components| :: !IsRuntimeNamespace(components[i])
  }

  lemma {:induction false} LookUpConcat(inner: seq<seq<Binding>>, outer: seq<seq<Binding>>, name: string,
                                        qualifier: bool)
    ensures LookUp(inner + outer, name, qualifier)
            == if LookUp(inner, name, qualifier).Some? then LookUp(inner, name, qualifier)
               else LookUp(outer, name, qualifier)
  {
    hide InScope;
    if inner == [] {
      assert inner + outer == outer;
    } else {
      assert (inner + outer)[1..] == inner[1..] + outer;
      LookUpConcat(inner[1..], outer, name, qualifier);
    }
  }

  lemma {:induction false} InScopeConcat(a: seq<Binding>, b: seq<Binding>, name: string, qualifier: bool)
    ensures InScope(a + b, name, qualifier)
            == if InScope(a, name, qualifier).Some? then InScope(a, name, qualifier) else InScope(b, name, qualifier)
  {
    if a == [] {
      assert a + b == b;
    } else {
      assert (a + b)[1..] == a[1..] + b;
      InScopeConcat(a[1..], b, name, qualifier);
    }
  }

  lemma {:induction false} VariablesInScope(names: seq<string>, name: string)
    ensures InScope(Variables(names), name, false) == if name in names then Some(VariableOrFunction) else None
    ensures InScope(Variables(names), name, true) == None
  {
    if names != [] {
      VariablesInScope(names[1..], name);
      assert Variables(names)[1..] == Variables(names[1..]);
    }
  }

  lemma {:induction false} EventsInScope(events: seq<Event>, name: string, qualifier: bool)
    ensures InScope(EventBindings(events), name, qualifier)
            == if exists e <- events :: e.event == name then Some(EventStruct(name)) else None
  {
    if events != [] {
      EventsInScope(events[1..], name, qualifier);
      assert EventBindings(events)[1..] == EventBindings(events[1..]);
      assert events == [events[0]] + events[1..];
    }
  }

  lemma OneBinding(b: Binding, name: string, qualifier: bool)
    ensures InScope([b], name, qualifier)
            == if b.name == name && Visible(b.entity, qualifier) then Some(b.entity) else None
  {
    assert [b][1..] == [];
  }

  lemma OneScope(scope: seq<Binding>, name: string, qualifier: bool)
    ensures LookUp([scope], name, qualifier) == InScope(scope, name, qualifier)
  {
    assert [scope][1..] == [];
  }

  lemma FirstScope(scope: seq<Binding>, rest: seq<seq<Binding>>, name: string, qualifier: bool)
    ensures LookUp([scope] + rest, name, qualifier)
            == if InScope(scope, name, qualifier).Some? then InScope(scope, name, qualifier)
               else LookUp(rest, name, qualifier)
  {
    OneScope(scope, name, qualifier);
    LookUpConcat([scope], rest, name, qualifier);
  }

  /** What the templates and the class around the function body declare. */
  lemma InTemplates(name: string, qualifier: bool)
    requires name != "Sink" && name != "Implementation" && name != "basic_decoder"
    ensures LookUp(TEMPLATE_SCOPES, name, qualifier)
            == if name == "decode_one" && !qualifier then Some(VariableOrFunction) else None
  {
    hide LookUp, InScope;
    var member, injected := Binding("decode_one", VariableOrFunction), Binding("basic_decoder", OtherType);
    var outer := [Binding("Implementation", OtherType)];
    OneBinding(Binding("Sink", OtherType), name, qualifier);
    OneBinding(outer[0], name, qualifier);
    OneBinding(member, name, qualifier);
    OneBinding(injected, name, qualifier);
    InScopeConcat([member], [injected], name, qualifier);
    assert [member] + [injected] == [member, injected];
    OneScope(outer, name, qualifier);
    FirstScope([member, injected], [outer], name, qualifier);
    FirstScope([Binding("Sink", OtherType)], [[member, injected], outer], name, qualifier);
    assert TEMPLATE_SCOPES
        == [[Binding("Sink", OtherType)]] + [[member, injected], outer];
    assert [[member, injected]] + [outer]
        == [[member, injected], outer];
  }

  /** Inside the class: only what the decoder itself declares is found. */
  lemma InClass(name: string, qualifier: bool)
    requires name != "Sink" && name != "Implementation" && name != "basic_decoder"
    ensures LookUp(CLASS_SCOPES, name, qualifier)
            == if IsHidden(name) && !qualifier then Some(VariableOrFunction) else None
  {
    hide Variables, LookUp, InScope;
    VariablesInScope(CASE_NAMES, name);
    VariablesInScope(FUNCTION_NAMES, name);
    InTemplates(name, qualifier);
    FirstScope(Variables(FUNCTION_NAMES), TEMPLATE_SCOPES, name, qualifier);
    FirstScope(Variables(CASE_NAMES), [Variables(FUNCTION_NAMES)] + TEMPLATE_SCOPES, name, qualifier);
  }

  lemma InNamespace(events: seq<Event>, name: string, qualifier: bool)
    requires name != "pipeline_metadata" && name != "sink_for_all_selected_events"
    ensures InScope(NamespaceScope(events), name, qualifier)
            == if exists e <- events :: e.event == name then Some(EventStruct(name)) else None
  {
    hide EventBindings;
    var front, back := [Binding("pipeline_metadata", OtherType)], [Binding("sink_for_all_selected_events", OtherType)];
    EventsInScope(events, name, qualifier);
    InScopeConcat(front, EventBindings(events) + back, name, qualifier);
    InScopeConcat(EventBindings(events), back, name, qualifier);
    assert front[1..] == [] && back[1..] == [];
  }

  /** Outside the generated namespace the nearest component of that name is found. */
  lemma {:induction false} InEnclosing(components: seq<string>, i: nat, name: string)
    requires i < |components| && IsRuntimeNamespace(name)
    ensures LookUp(EnclosingScopes(components, i), name, true) == Some(Namespace([name]))
            <==> forall k | 1 <= k <= i :: components[k] != name
  {
    hide LookUp, InScope;
    if i == 0 {
      GlobalFinds(components, name);
      OneScope(GlobalScope(components), name, true);
    } else {
      var inner := Binding(components[i], Namespace(components[..i + 1]));
      InEnclosing(components, i - 1, name);
      OneBinding(inner, name, true);
      FirstScope([inner], EnclosingScopes(components, i - 1), name, true);
      assert |components[..i + 1]| != |[name]|;
    }
  }

  lemma GlobalFinds(components: seq<string>, name: string)
    requires components != [] && IsRuntimeNamespace(name)
    ensures InScope(GlobalScope(components), name, true) == Some(Namespace([name]))
  {
    hide InScope;
    var scope := GlobalScope(components);
    OneBinding(scope[0], name, true);
    OneBinding(scope[1], name, true);
    OneBinding(scope[2], name, true);
    InScopeConcat([scope[1]], [scope[2]], name, true);
    InScopeConcat([scope[0]], [scope[1]] + [scope[2]], name, true);
    assert scope == [scope[0]] + ([scope[1]] + [scope[2]]);
  }

  lemma EventFound(ir: Ffir, e: Event)
    requires e in ir.pipeline.events && IsValidSourceName(e.event) && !IsGeneratedDeclaration(e.event)
    ensures LookUp(DecoderScopes(ir), e.event, false)
            == if IsHidden(e.event) then Some(VariableOrFunction) else Some(EventStruct(e.event))
  {
    hide NamespaceScope, EnclosingScopes, IsHidden, IsCppKeyword, Path;
    var outer := OuterScopes(ir.pipeline.events, Path(ir));
    LookUpConcat(CLASS_SCOPES, outer, e.event, false);
    InClass(e.event, false);
    InNamespace(ir.pipeline.events, e.event, false);
  }

  lemma QualifierFound(ir: Ffir, name: string)
    requires IsRuntimeNamespace(name)
    ensures LookUp(DecoderScopes(ir), name, true) == Some(Namespace([name]))
            <==> && (forall e <- ir.pipeline.events :: e.event != name)
                 && forall k | 1 <= k < |Path(ir)| :: Path(ir)[k] != name
  {
    hide NamespaceScope, EnclosingScopes, Path;
    var outer := OuterScopes(ir.pipeline.events, Path(ir));
    LookUpConcat(CLASS_SCOPES, outer, name, true);
    InClass(name, true);
    InNamespace(ir.pipeline.events, name, true);
    InEnclosing(Path(ir), |Path(ir)| - 1, name);
    assert outer[1..] == EnclosingScopes(Path(ir), |Path(ir)| - 1);
  }

  lemma FixedNames(name: string)
    ensures name in FIXED_NAMES <==> IsGeneratedDeclaration(name) || name == "replay_binary_file"
    ensures DistinctKeys(FIXED_NAMES, V.SELF)
  {
  }

  lemma DistinctConcat(a: seq<string>, b: seq<string>)
    ensures DistinctKeys(a + b, V.SELF)
            <==> DistinctKeys(a, V.SELF) && DistinctKeys(b, V.SELF) && forall name <- b :: name !in a
  {
    var all := a + b;
    if DistinctKeys(all, V.SELF) {
      forall i, j | 0 <= i < j < |a| ensures V.SELF(a[i]) != V.SELF(a[j]) {
        assert V.SELF(all[i]) != V.SELF(all[j]);
      }
      forall i, j | 0 <= i < j < |b| ensures V.SELF(b[i]) != V.SELF(b[j]) {
        assert V.SELF(all[|a| + i]) != V.SELF(all[|a| + j]);
      }
      forall i, j | 0 <= i < |a| && 0 <= j < |b| ensures a[i] != b[j] {
        assert V.SELF(all[i]) != V.SELF(all[|a| + j]);
      }
    }
    if DistinctKeys(a, V.SELF) && DistinctKeys(b, V.SELF) && forall name <- b :: name !in a {
      forall i, j | 0 <= i < j < |all| ensures V.SELF(all[i]) != V.SELF(all[j]) {
        if j < |a| {
          assert V.SELF(a[i]) != V.SELF(a[j]);
        } else if i >= |a| {
          assert V.SELF(b[i - |a|]) != V.SELF(b[j - |a|]);
        } else {
          assert b[j - |a|] in b && all[i] in a;
        }
      }
    }
  }

  lemma NamespaceDeclares(events: seq<Event>)
    requires DistinctKeys(events, EVENT_NAME) && forall e <- events :: !IsGeneratedDeclaration(e.event)
    ensures DistinctKeys(FIXED_NAMES + Map(EVENT_NAME, events), V.SELF)
            <==> forall e <- events :: e.event != "replay_binary_file"
  {
    var names := Map(EVENT_NAME, events);
    DistinctConcat(FIXED_NAMES, names);
    forall name ensures name in FIXED_NAMES <==> IsGeneratedDeclaration(name) || name == "replay_binary_file" {
      FixedNames(name);
    }
    FixedNames("");
    assert forall i, j | 0 <= i < j < |names| :: EVENT_NAME(events[i]) != EVENT_NAME(events[j]);
    assert forall i | 0 <= i < |events| :: names[i] == events[i].event && names[i] in names && events[i] in events;
  }

  /**
   Which names an event and a namespace may have: for every FFIR the emitter accepts, the names of the header
   mean what they are written for if and only if no event and no inner namespace has one of those listed.
   */
  lemma NamesMeanExactly(ir: Ffir)
    requires IrValid(ir)
    ensures NamesMean(ir)
            <==> (forall e <- ir.pipeline.events :: IsSafeEventName(e.event)) && IsSafeNamespace(Path(ir))
  {
    hide DecoderScopes, HeaderValid, NamespaceAccepted, MessagesValid, IsHidden, DistinctKeys, IsValidSourceName;
    hide IsGeneratedDeclaration, Path, CppTypeOf;
    var events := ir.pipeline.events;
    forall e | e in events
      ensures LookUp(DecoderScopes(ir), e.event, false)
              == if IsHidden(e.event) then Some(VariableOrFunction) else Some(EventStruct(e.event))
      ensures !IsGeneratedDeclaration(e.event) && forall f <- e.fields :: f.name != e.event
    {
      assert EventValid(ir.schema.messages, e);
      EventFound(ir, e);
    }
    QualifierFound(ir, "std");
    QualifierFound(ir, "feedforge");
    NamespaceDeclares(events);
  }

  /** The same with every name written out. */
  lemma NamesMeanWritten(ir: Ffir)
    requires IrValid(ir)
    ensures NamesMean(ir)
            <==> && (forall e <- ir.pipeline.events ::
                       e.event !in ["payload", "sink", "actual_size", "message_type", "discriminator",
                                    "expected_size", "decode_one", "std", "feedforge", "source_discriminator",
                                    "event_name", "replay_binary_file"])
                 && forall i | 1 <= i < |Path(ir)| :: Path(ir)[i] != "std" && Path(ir)[i] != "feedforge"
  {
    hide NamesMean, IrValid, Path;
    NamesMeanExactly(ir);
  }
}
