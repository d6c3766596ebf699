/** What the emitter is content with, the validators accept: the converse of `FrontEndImpliesBackEnd`. */
module Acceptance {
  import opened Bytes
  import opened Sorting
  import opened SchemaModel
  import opened CanonicalJson
  import opened ValidatePipeline
  import opened Backend
  import opened FrontToBack
  import opened Compiler
  import S = ValidateSchema

  /** What a pipeline does about unknown messages is its own choice of two words, and there is no third. */
  lemma UnknownMessagesFree(schema: Schema, ps: PipelineSource, word: string)
    ensures PipelineAccepted(schema, ps.(unknownMessages := "error"))
            <==> PipelineAccepted(schema, ps.(unknownMessages := "skip"))
    ensures PipelineAccepted(schema, ps.(unknownMessages := word))
            <==> word in ["error", "skip"] && PipelineAccepted(schema, ps.(unknownMessages := "skip"))
  {
    hide IsValidSourceName, ProjectionAccepted, NamespaceAccepted;
  }

  /** What the two validators ask for beyond what the emitter checks again: versions, places, names and resolution. */
  ghost predicate FrontEndOnly(s: SchemaSource, ps: PipelineSource) {
    && s.formatVersion == 1 && s.discriminatorOffset == 0 && s.discriminatorWidth == 1
    && IsValidSourceName(s.name) && S.TypesAccepted(s) && S.MessagesAccepted(s)
    && ps.formatVersion == 1 && IsValidSourceName(ps.name) && ps.schema == s.name
    && ProjectionsAccepted(S.ResolveSchema(s), ps)
  }

  /** A pair of documents compiles if and only if it has that and the emitter accepts the FFIR it lowers to. */
  lemma CompilableExactly(s: SchemaSource, ps: PipelineSource, generatorVersion: string)
    requires generatorVersion != ""
    ensures Compilable(s, ps) <==> FrontEndOnly(s, ps) && IrValid(Compiled(s, ps, generatorVersion))
  {
    hide IsValidSourceName, S.TypesAccepted, S.MessagesAccepted, ProjectionsAccepted, IrValid, NamespaceAccepted;
    hide Lowered, ResolvePipeline;
    if BothAccepted(s, ps) {
      FrontEndImpliesBackEnd(s, ps, generatorVersion);
    }
    if FrontEndOnly(s, ps) && IrValid(Compiled(s, ps, generatorVersion)) {
      WordsOfValid(s, ps, generatorVersion);
    }
  }

  /** What the emitter has checked in the lowered records stood in the documents. */
  lemma WordsOfValid(s: SchemaSource, ps: PipelineSource, generatorVersion: string)
    requires IrValid(Compiled(s, ps, generatorVersion))
    ensures s.wireEndian == "big" && s.messages != []
    ensures ps.profile == "portable_checked" && (ps.unknownMessages == "error" || ps.unknownMessages == "skip")
    ensures ps.unselectedMessages == "skip" && ps.projections != [] && NamespaceAccepted(ps.cppNamespace)
  {
    hide SchemaFingerprint, PipelineFingerprint, MessageValid, EventValid, SortBy, NamespaceAccepted;
    hide S.ResolveMessage, ResolveProjection, SortedMessage, Sha256.IsLowerHexFingerprint;
    var types := S.ResolvedTypes(s);
    var messages := Map(m => S.ResolveMessage(types, m), s.messages);
    SortMembers(messages, MESSAGE_KEY);
    var schema := S.ResolveSchema(s);
    var again := Map(m => SortedMessage(m), schema.messages);
    SortMembers(again, MESSAGE_KEY);
    var events := Map(p => ResolveProjection(schema, p), ps.projections);
    SortMembers(events, EVENT_KEY);
    SortMembers(SortBy(events, EVENT_KEY), EVENT_KEY);
    var ir := Compiled(s, ps, generatorVersion);
    var m, e := ir.schema.messages[0], ir.pipeline.events[0];
    assert m in again && again != [] && schema.messages != [] && schema.messages[0] in messages;
    assert e in SortBy(events, EVENT_KEY) && e in events;
  }
}
