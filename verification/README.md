# FeedForge in Dafny

FeedForge compiles a schema and a projection, written as TOML documents, into a checked decoder for
Nasdaq TotalView-ITCH 5.0 messages inside Nasdaq BinaryFILE 1.00 framing. This project models the parts
of it whose correctness does not show in any one function, and proves what they promise together.

Verify with `dafny verify dfyconfig.toml`.

## How the model is laid out

**Framing and replay.** `BinaryFileFormat` states the framing as a grammar: `Parse` takes any byte string
apart into frames and one ending, `Render` puts it together, and each inverts the other.
`BinaryFileCursor` (one shot) and `ChunkedCursor` (resumable, over a caller's scratch array) are classes
with the fields of the original; their invariants say that those fields are the parsed form of the bytes
received. `Replay` says what replaying means as a fold over frames, for every decoder and every sink that
answers from the events it was given before. `OneShotReplay` and `ChunkedReplayer` refine that fold, and
`ReplayTheorems` draws the consequences: no cut of the input shows, a short buffer costs only the tail,
every frame is accounted for. `ReplayReport` says the same report without the fold: each counter is the number
of frames with one verdict, and status, error and offset follow from where the parsed stream ends. It stands in
the contracts of the loops. `FramingRuns` has the one-shot cursor and the writer on short files in full.

**Compiler.** `SchemaModel`, `ValidateSchema` and `ValidatePipeline` hold the two validators. Each has a
specification that says without loops what is accepted, and the loops are proved to decide it. `Documents`
says the same of types and fields from the document alone, and `Resolution` proves that resolving keeps to
it. `Backend` lowers to FFIR and checks it. `Emission` turns FFIR into a small program of switches, size
checks, loads and casts with an interpreter of its own, and proves that the program means what the FFIR
says. `FrontToBack`, `Compiler`, `Lossless` and `OrderIndependence` join the stages. `DocumentMeaning` says
what two documents ask of a decoder and proves that they leave it no choice; `CompiledReplay` joins compiler
and replay; `DecoderNames` looks names up in the generated header. `DocumentRules` says which documents are
accepted in terms of the documents alone, and `Acceptance` that the validators accept whatever the emitter is
content with. `NameRules` and `TypeTables` hold the rules for names and the tables of types a second time, with
every character (`Characters`), keyword and row written out, and `FfirRecords` the order and the header of an FFIR.
`SmallestPair` and `OrderBook` are pairs of documents that FeedForge compiles, with what their decoders make of
every payload spelled out.

**Printers.** `Json` has a printer and a reader that inverts it, `CanonicalJson` the JSON of every FFIR
record and its keys, `JsonKeys` looks members up by key, `CanonicalReader` reads records back that way, and
`JsonPrinter` has the original's appending printers as methods of a class that owns the output. `CppLiteral`,
`BinaryFileWriter` and `Gzip` treat the three other writers, each with a reader. `Texts` writes some of their
outputs out in full.

**Bytes.** `Sha256` has the definition of FIPS 180-4 and the compiler's streaming state, `Sha256Constants` the
roots of primes its constants come from, and `Sha256Abc` one published digest, computed step by step. `Utf8` has
the encoding of RFC 3629, the validator and the source positions. `TomlGrammar` states the lexemes of a document
and where it must be refused, `TomlLexing` searches for them, and `TomlScanner` is the scan before parsing,
byte by byte, proved to refuse what the grammar refuses. `TomlDocuments` says with characters which documents
pass and which do not.

Four results say exactly when something holds, because it does not hold always. A BinaryFILE written
from payloads is read back as those payloads if and only if no payload is empty, since an empty one is
written as the end marker. What both validators accept is accepted by the emitter if and only if no event
is called `chunked_replayer`. Chunked and one-shot replay agree, for all decoders and sinks, if and only if
every length the file declares fits the scratch buffer; for one decoder and sink, if and only if every one
that is reached does. The names in the generated header mean what they are written for if and only if no
event is called `payload`, `sink`, `actual_size`, `message_type`, `discriminator`, `expected_size`,
`decode_one`, `source_discriminator`, `event_name`, `replay_binary_file`, `std` or `feedforge`, and no
namespace component but the first is called `std` or `feedforge`. Each has a concrete input on the failing
side.

Conventions: a `byte` is a number below 256 and a `string` of the compiler holds one byte per character.
`std::uint64_t` and `std::size_t` counters are natural numbers whose bound 2^64-1 is written out wherever
the code looks at it, wraps, or has to be shown not to wrap.

## Model

| member | source | states |
|---|---|---|
| BinaryFileFormat.ParseRender | include/feedforge/framing/binary_file.hpp:48-94 | A file is read back as exactly the frames and ending it was written from: the framing is unambiguous |
| BinaryFileFormat.RenderParse | include/feedforge/framing/binary_file.hpp:48-94 | Every byte string is the encoding of what is read from it: reading loses no byte |
| BinaryFileFormat.ParseExtend | include/feedforge/framing/binary_file.hpp:165-259 | More bytes never change a frame already read; they only continue the unfinished end |
| BinaryFileFormat.AnnouncedLengthStays | include/feedforge/framing/binary_file.hpp:198-201 | Once a length prefix is complete, no later byte changes the length it announced |
| BinaryFileFormat.ParseFrom | include/feedforge/framing/binary_file.hpp:48-94 | Cutting a file at a frame boundary cuts its parsed form at the same place |
| BinaryFileCursors.BinaryFileCursor.Next | include/feedforge/framing/binary_file.hpp:48-94 | Call k hands out frame k of the parsed input with its offset and ordinal, and after the last frame the ending, again on every later call |
| BinaryFileCursors.BinaryFileCursor.Remaining | include/feedforge/framing/binary_file.hpp:100-105 | The bytes behind the end marker once it was reached, nothing otherwise |
| BinaryFileCursors.AtEnding | include/feedforge/framing/binary_file.hpp:53-83 | Which of the four endings a file has is decided by the bytes after its last frame |
| FramingRuns.CursorOnFile | include/feedforge/framing/binary_file.hpp:48-105 | Calls on a file of two frames, marker and a trailing byte, with every payload, offset and ordinal written out |
| FramingRuns.CursorOnShortFiles | include/feedforge/framing/binary_file.hpp:53-83 | The outcomes on an empty file, a lone prefix byte and half a payload, written out |
| BinaryFileWriter.BinaryFile | tools/generate_conformance_bundle.py:521-530 | Refuses exactly the lists with a payload over 65535 bytes, and otherwise writes prefix and payload of each and the end marker if asked |
| BinaryFileWriter.RoundTrip | tools/generate_conformance_bundle.py:521-530 | Reading gives back the payloads and the ending if and only if no payload is empty |
| BinaryFileWriter.EmptyPayloadEndsFile | tools/generate_conformance_bundle.py:523-527 | At the first empty payload a reader sees the end marker, and all that was written later as trailing data |
| BinaryFileWriter.EmptyPayloadIsLost | tools/generate_conformance_bundle.py:521-530 | A concrete file that is not read back: one empty payload, written without end marker, reads as a complete empty file |
| BinaryFileWriter.CompletedFile | include/feedforge/framing/binary_file.hpp:48-105 | Any file on which the cursor completes is the writer's encoding of the frames it yielded, the marker, and `remaining()` |
| ChunkedCursors.RepresentableOffsetBytes | include/feedforge/framing/binary_file.hpp:146-156 | Counts no byte whose offset exceeds 2^64-1, and leaves one out only when the counter then stands at the limit |
| ChunkedCursors.ChunkedCursor.Next | include/feedforge/framing/binary_file.hpp:165-259 | Keeps the invariant, consumes a prefix of the input, and reports frame, need, or error as the parsed stream requires; a terminal cursor repeats its outcome and changes nothing |
| ChunkedCursors.ChunkedCursor.Finish | include/feedforge/framing/binary_file.hpp:261-277 | Names the ending of the stream received, at the offset of that ending; a terminal cursor repeats its outcome |
| ChunkedCursors.ChunkedCursor.Understands | include/feedforge/framing/binary_file.hpp:300-312 | In every reachable state the cursor's fields are the parsed form of all bytes received |
| ChunkedCursors.ChunkedCursor.Counters | include/feedforge/framing/binary_file.hpp:300-312 | received = committed + prefix + payload bytes, never above 2^64-1; a pending prefix lies at `committed`; scratch holds exactly the pending payload bytes of the stream |
| ChunkedCursors.ChunkedCursor.OverflowExactly | include/feedforge/framing/binary_file.hpp:184-187 | Overflow is reported exactly when a prefix or payload byte is due and offered while received = 2^64-1 |
| ChunkedCursors.ChunkedCursor.FrameExactly | include/feedforge/framing/binary_file.hpp:245-258 | A frame is reported exactly when the parsed stream has one more than was handed out; its bytes are in scratch, and offset and ordinal are where it lies |
| ChunkedCursors.ChunkedCursor.NoFrameExactly | include/feedforge/framing/binary_file.hpp:165-243 | Without a frame: need, trailing data or a buffer too small exactly as the ending of the parsed stream says, at the offset where the unfinished part begins or the marker ends |
| ChunkedCursors.ChunkedCursor.ReadPrefix | include/feedforge/framing/binary_file.hpp:180-220 | Completes the length prefix out of the input, or reports why it cannot go on |
| ChunkedCursors.ChunkedCursor.CollectPayload | include/feedforge/framing/binary_file.hpp:222-258 | Takes what the payload still needs, and hands out the frame the scratch buffer then holds |
| Replay.ObserveSticky | generated/include/feedforge/generated/nasdaq/itch50_all.hpp:2790-2792 | A verdict once reached is final: no later byte changes summary or events |
| Replay.PlayConsumes | generated/include/feedforge/generated/nasdaq/itch50_all.hpp:2799-2805 | A replay still running has consumed exactly the encodings of its frames |
| ReplayReport.ObserveReports | generated/include/feedforge/generated/nasdaq/itch50_all.hpp:2788-2822 | At every point: each counter is the number of frames seen with that verdict, no frame but the last seen ends the replay, and status, error and offset are those of the parsed stream |
| ReplayReport.ReportsExactly | generated/include/feedforge/generated/nasdaq/itch50_all.hpp:2788-2891 | A finished replay reports one thing if and only if it meets that description |
| ReplayReport.OneShotReports | generated/include/feedforge/generated/nasdaq/itch50_all.hpp:2710-2771 | So does the one-shot replay of a whole file |
| OneShotReplay.ReplayBinaryFile | generated/include/feedforge/generated/nasdaq/itch50_all.hpp:2710-2771 | The loop over the cursor computes the one-shot meaning, summary and events, for every input, decoder and sink; each counter is a number of frames, and status, error and offset are those of the parsed file |
| OneShotReplay.ReplayBinaryFileInlined | src/feedforgec/emit_cpp.cpp:995-1112 | The specialised loop for partial projections computes the same meaning and report, so both shapes agree |
| ChunkedReplayers.ChunkedReplayer.Push | generated/include/feedforge/generated/nasdaq/itch50_all.hpp:2788-2822 | The state depends only on the concatenation of the chunks; terminates; after a verdict nothing changes |
| ChunkedReplayers.ChunkedReplayer.Step | generated/include/feedforge/generated/nasdaq/itch50_all.hpp:2795-2820 | One turn of the loop consumes at least a byte or settles the replay |
| ChunkedReplayers.ChunkedReplayer.Says | generated/include/feedforge/generated/nasdaq/itch50_all.hpp:2788-2891 | In every reachable state of the replayer the summary is the report of the bytes pushed so far |
| ChunkedReplayers.ChunkedReplayer.Finish | generated/include/feedforge/generated/nasdaq/itch50_all.hpp:2824-2849 | Reports the conclusion of the whole stream, the same on every later call |
| ChunkedReplayers.ChunkedReplayer.DecodeFrame | generated/include/feedforge/generated/nasdaq/itch50_all.hpp:2856-2883 | Counts, delivers and stops as one step of the fold over the frame held in scratch, and counts it under the status its verdict has |
| ReplayTheorems.ReplayChunks | generated/include/feedforge/generated/nasdaq/itch50_all.hpp:2788-2891 | Any cut into chunks, empty ones included, then `finish`: the conclusion of the concatenation with its counts, status and offsets as the parsed stream has them, equal to one-shot replay if and only if every length reached fits |
| ReplayTheorems.AgreeExactly | include/feedforge/framing/binary_file.hpp:216-219 | For one decoder and sink the two replays agree if and only if every declared length that is reached fits the scratch buffer |
| ReplayTheorems.AgreeForAllSetups | include/feedforge/framing/binary_file.hpp:216-219 | They agree for all decoders and sinks if and only if every declared length fits, which a caller can check beforehand |
| ReplayTheorems.NoScratchAtAll | include/feedforge/framing/binary_file.hpp:216-219 | A concrete disagreement: one payload byte and no scratch buffer, for every decoder and sink |
| ReplayTheorems.LargeScratch | generated/include/feedforge/generated/nasdaq/itch50_all.hpp:2710-2771 | Chunking invariance: with room for every declared length reached, summary and events equal one-shot replay |
| ReplayTheorems.ShortScratch | include/feedforge/framing/binary_file.hpp:216-219 | At the first reached length that does not fit: exactly the events before it, and `insufficient_scratch` with error offset = bytes consumed = the frame's offset |
| ReplayTheorems.ScratchCases | include/feedforge/framing/binary_file.hpp:216-219 | Every stream and buffer falls under exactly one of these two cases |
| ReplayTheorems.Conservation | generated/include/feedforge/generated/nasdaq/itch50_all.hpp:2788-2891 | At every point frames seen = emitted + skipped + decode error, events delivered = emitted, bytes consumed = the frames seen plus the end marker |
| Emission.LoadUnsigned | include/feedforge/wire/load_big_endian.hpp:15-25 | The shifting accumulator yields the big-endian number of the bytes and never loses a bit |
| Bytes.BigEndianInjective | include/feedforge/wire/load_big_endian.hpp:15-25 | Equal numbers of equal width come from equal bytes, and conversely |
| SchemaModel.CheckNamespace | src/feedforgec/model.cpp:861-898 | Accepts exactly the namespaces all of whose components are valid |
| SchemaModel.JoinComponents | src/feedforgec/model.cpp:867-898 | Splitting at `::` loses nothing, so what is checked is what is printed |
| NameRules.SourceNameExactly | src/feedforgec/model.cpp:335-344 | A name is valid if and only if it has 1 to 128 of the written-out letters, digits and single underscores, begins with a letter and is no keyword of the written-out table |
| NameRules.ComponentExactly | src/feedforgec/model.cpp:346-358 | The same for a namespace component, which may have capitals |
| NameRules.NamespaceExactly | src/feedforgec/model.cpp:861-898 | A namespace is accepted if and only if it is valid components with `::` between them |
| NameRules.KeywordsExactly | src/feedforgec/model.cpp:18-111 | The 92 keywords, sorted by length |
| SchemaModel.CppTypeExactly | src/feedforgec/emit_cpp.cpp:89-155 | The emitter has a C++ type for exactly the fields the front end calls compatible, with a scale exactly on decimals |
| TypeTables.NoOtherRow | src/feedforgec/emit_cpp.cpp:89-155 | The kinds, logical types and widths with a value type, each written out, and no others |
| TypeTables.BuiltinText | src/feedforgec/model.cpp:615-724 | When a text or reserved field is accepted, with the one place a discriminator may have |
| TypeTables.BuiltinNumbers | src/feedforgec/model.cpp:615-724 | The width each builtin number must have |
| ValidateSchema.CheckTiling | src/feedforgec/model.cpp:733-778 | Sound and complete: accepts if and only if every byte lies in exactly one field and no field leaves the message |
| ValidateSchema.GapOrOverlap | src/feedforgec/model.cpp:739-771 | Wherever the coverage loop stops, the fields do not tile the message |
| ValidateSchema.ConsecutiveIsExact | src/feedforgec/model.cpp:738-778 | Fields that lie end to end up to the size cover every byte once |
| ValidateSchema.ExactCoverOfMembers | src/feedforgec/model.cpp:733-778 | Tiling does not depend on the order in which fields are listed |
| Documents.SpelledValueType | src/feedforgec/emit_cpp.cpp:89-155 | The emitter's type of a resolved field is the one in the table of spellings that the document alone determines |
| ValidateSchema.ResolveTypeExactly | src/feedforgec/model.cpp:436-526 | A declared type is accepted if and only if its kind, logical type, width and scale stand in the document's table, and resolves to just those |
| ValidateSchema.CollectTypes | src/feedforgec/model.cpp:435-527 | Accepts exactly declarable types with distinct names, and each result says the kind, logical type, width and scale that its document entry spells |
| Resolution.LookupResolves | src/feedforgec/model.cpp:644-654 | Looking a type up among the resolved ones is looking it up in the document |
| Resolution.ResolveFieldExactly | src/feedforgec/model.cpp:615-724 | A field is accepted if and only if the document may hold it, and keeps name, place, role, kind, logical type and scale |
| ValidateSchema.CollectFields | src/feedforgec/model.cpp:585-731 | Accepts exactly well-formed fields with distinct names and one discriminator |
| ValidateSchema.CountIsOne | src/feedforgec/model.cpp:692-731 | Counting role fields to one decides that exactly one discriminator exists |
| ValidateSchema.ValidateMessage | src/feedforgec/model.cpp:531-781 | Accepts exactly the messages whose name, code, size, fields and tiling are right |
| ValidateSchema.Validate | src/feedforgec/model.cpp:360-787 | Accepts exactly the schemas the specification accepts, resolved as it says |
| DocumentRules.MessageExactly | src/feedforgec/model.cpp:531-781 | A message is accepted if and only if the document alone says so: name, code and size in range, fields the document may hold with distinct names, one role, and every byte in exactly one field |
| DocumentRules.SchemaExactly | src/feedforgec/model.cpp:360-787 | A schema is accepted if and only if it meets those rules, with distinct types, messages and codes |
| ValidatePipeline.SelectFields | src/feedforgec/model.cpp:966-1035 | Accepts a lone wildcard or distinct projectable names, and selects those fields in order |
| ValidatePipeline.ValidateProjection | src/feedforgec/model.cpp:923-1053 | Accepts exactly projections of a known message whose event and field names collide with nothing generated |
| ValidatePipeline.Validate | src/feedforgec/model.cpp:789-1058 | Accepts exactly the pipelines the specification accepts, resolved as it says |
| DocumentRules.ProjectionExactly | src/feedforgec/model.cpp:923-1053 | A projection is accepted if and only if its source is the code of a message, its event name is free, and its fields are `*` or distinct names of fields with a value, none called like the event or its members |
| DocumentRules.PipelineExactly | src/feedforgec/model.cpp:790-1057 | A pipeline is accepted for a schema if and only if the two documents alone say so |
| DocumentRules.BothExactly | src/feedforgec/main.cpp:157-203 | Which pairs of documents are accepted, and which compile, in terms of the documents alone |
| Acceptance.UnknownMessagesFree | src/feedforgec/model.cpp:850-856 | Acceptance does not change between `error` and `skip`, and fails for any other word |
| Backend.LowerToFfir | src/feedforgec/lower.cpp:27-115 | Copies, sorts and fingerprints; each fingerprint is the digest of the finished record's own semantics text |
| Backend.FingerprintsIgnoreFingerprints | src/feedforgec/lower.cpp:110-113 | Storing the fingerprints changes neither of the texts they were computed from |
| Backend.ValidateIr | src/feedforgec/emit_cpp.cpp:157-381 | Accepts exactly the FFIR for which code may be written |
| Backend.CheckEvent | src/feedforgec/emit_cpp.cpp:282-379 | Accepts exactly events of a known message whose fields are its own, in bounds, distinct and representable |
| Emission.EmitDecoder | src/feedforgec/emit_cpp.cpp:848-985 | Either shape of decoder has one case per event in order, and the fallback that the two list lengths choose |
| Emission.EqualCountsSelectAll | src/feedforgec/emit_cpp.cpp:873-909 | As many events as known messages means every known message is selected, so the shorter shape loses none |
| Emission.LoadIsExact | src/feedforgec/emit_cpp.cpp:498-564 | Every emitted load is in bounds and its cast keeps the value |
| Emission.FindUnselected | src/feedforgec/emit_cpp.cpp:943-977 | The second switch finds exactly the known messages that are not selected, with their sizes |
| Emission.CompilationPreservesMeaning | src/feedforgec/emit_cpp.cpp:848-985 | For every accepted FFIR and every payload the decoder never leaves the payload and returns the outcome and event that look-up, size check and projection prescribe |
| FrontToBack.AcceptedSchemaSound | src/feedforgec/model.cpp:360-787 | An accepted schema resolves to tiled messages in strict discriminator order, each with a discriminator and well-typed fields |
| FrontToBack.AcceptedProjection | src/feedforgec/model.cpp:923-1053 | An accepted projection becomes an event the emitter accepts if and only if it is not called `chunked_replayer` |
| FrontToBack.LoweringKeeps | src/feedforgec/lower.cpp:69-108 | Lowering re-sorts what resolution sorted, so messages and events arrive unchanged |
| FrontToBack.FrontEndImpliesBackEnd | src/feedforgec/emit_cpp.cpp:42-52 | What both validators accept is accepted by `validate_ir` after lowering if and only if no event is called `chunked_replayer` |
| Acceptance.CompilableExactly | src/feedforgec/emit_cpp.cpp:157-379 | The converse: a pair compiles if and only if versions, names and resolution are in order and `validate_ir` accepts what it lowers to; the policy words, the namespace and the wire format need no check of their own |
| FfirRecords.TypesInOrder | src/feedforgec/lower.cpp:59-113 | The FFIR holds a record for each declared type, in strict order of name, character by character |
| FfirRecords.RecordsInOrder | src/feedforgec/lower.cpp:59-113 | Messages rise by discriminator, fields by offset and events by the discriminator of their message |
| FfirRecords.HeaderWritten | src/feedforgec/lower.cpp:59-113 | The header of the FFIR: what the documents say and the two constants |
| FfirRecords.ValidHeader | src/feedforgec/emit_cpp.cpp:157-213 | What an accepted FFIR has in its header, fingerprints included |
| FfirRecords.ValidEvents | src/feedforgec/emit_cpp.cpp:273-379 | Each event of an accepted FFIR belongs to one message, and each of its fields is a field of that message that has a value and lies inside it |
| SmallestPair.RenamedPairStopsAtEmitter | src/feedforgec/model.cpp:117-122 | A concrete pair that both validators accept and the emitter refuses, for its event called `chunked_replayer` |
| SmallestPair.SmallestPairCompiles | src/feedforgec/main.cpp:157-203 | FeedForge accepts a concrete pair and emits code for it, so that the theorems about accepted documents are not about none; so it does for the pair whose event is called `sink` |
| SmallestPair.SmallestDecoder | src/feedforgec/emit_cpp.cpp:848-985 | The verdict of its decoder on every payload, written out: an event with two bytes as a number, wrong size, empty, and an unknown message skipped |
| SmallestPair.StrictDecoder | src/feedforgec/emit_cpp.cpp:848-985 | With `unknown_messages = "error"` the pair compiles, and its decoder declines an unknown first byte with `unknown_message_type` |
| OrderBook.BookCompiles | src/feedforgec/main.cpp:157-203 | A pair with declared types, reserved bytes and an unselected message compiles |
| OrderBook.BookDecoder | src/feedforgec/emit_cpp.cpp:848-985 | The verdict of its decoder on every payload, written out: a decimal, a character and a timestamp in the order named, a known message skipped, an unknown one refused |
| DecoderNames.NamesMeanExactly | src/feedforgec/emit_cpp.cpp:746-923 | For every FFIR the emitter accepts: each event declaration in `decode_one` finds its struct, `std::` and `feedforge::` find the global namespaces, no struct has a member of its own name and nothing is declared twice in the namespace, if and only if no event and no inner namespace component has one of the listed names |
| DecoderNames.NamesMeanWritten | src/feedforgec/emit_cpp.cpp:746-923 | The same condition with the twelve event names and two namespace names written out |
| SmallestPair.HiddenPairIsEmitted | src/feedforgec/emit_cpp.cpp:848-911 | A concrete pair that passes every check although the name of its event, `sink`, finds a parameter in the emitted decoder |
| Compiler.Compile | src/feedforgec/main.cpp:157-203 | Produces a decoder for exactly the compilable pairs of documents |
| Compiler.CompiledDecoderMeansDocuments | src/feedforgec/main.cpp:157-203 | End to end: for every accepted pair and every payload the verdict is the one the two documents describe, each value of the C++ type its declaration gives and read where the declaration puts it |
| DocumentMeaning.DocumentsDetermine | src/feedforgec/main.cpp:157-203 | What the documents describe leaves no choice: two verdicts that meet it are equal, in type, number, order and content of their values |
| DocumentMeaning.ProjectsDetermines | src/feedforgec/model.cpp:966-1035 | A projection fixes its values completely, with `*` as with names |
| CompiledReplay.PlayDelivers | generated/include/feedforge/generated/nasdaq/itch50_all.hpp:2856-2883 | The sink has been given exactly the events of the frames seen, in order |
| CompiledReplay.PlayEndsFor | generated/include/feedforge/generated/nasdaq/itch50_all.hpp:2856-2891 | A replay that sees fewer frames than there are ended because the sink stopped at the last one seen, the decoder declined it with the outcome reported, or the next one does not fit the scratch buffer |
| CompiledReplay.ReplayAccounted | generated/include/feedforge/generated/nasdaq/itch50_all.hpp:2788-2891 | At every point and at the end, with a decoder that means the documents: the events they prescribe for the frames seen, never an empty payload, and the reason for seeing no more |
| CompiledReplay.CompiledReplayPrescribed | generated/include/feedforge/generated/nasdaq/itch50_all.hpp:2788-2891 | A compiled decoder means the documents on every payload, and what its replay concludes for any stream is what they prescribe |
| CompiledReplay.ReportDetermined | generated/include/feedforge/generated/nasdaq/itch50_all.hpp:2788-2891 | Documents, sink, buffer and stream determine the whole report, every counter, status, offset and event: two that meet the description are equal |
| CompiledReplay.ReplayCompiled | src/feedforgec/main.cpp:157-203 | Compiles exactly the compilable pairs, and pushing a file in any chunks then reports the conclusion of the whole file under the decoder the documents describe |
| Compiler.ProjectionMeans | src/feedforgec/model.cpp:966-1035 | A decoded projection holds the named fields in order, or with `*` every projectable field once and in offset order, each of its declared type |
| Lossless.WildcardIsLossless | src/feedforgec/model.cpp:987-992 | Two right-sized payloads of a message projected with `*` decode equally if and only if they agree on every byte that is not reserved |
| Lossless.EventsShowProjectedBytes | src/feedforgec/emit_cpp.cpp:498-564 | For any projection, decoded events are equal if and only if the projected bytes are |
| Lossless.ProjectableAfterDiscriminator | src/feedforgec/model.cpp:691-695 | The discriminator owns byte 0, so every projectable field has offset at least 1 |
| Lossless.ProjectableCover | src/feedforgec/model.cpp:722-778 | Projectable fields cover exactly the bytes that are neither the discriminator nor reserved |
| OrderIndependence.OrderLeavesNoTrace | src/feedforgec/lower.cpp:59-113 | Reordering types, messages, fields within a message or projections changes neither acceptance nor the FFIR, fingerprints included |
| OrderIndependence.SchemaInAnyOrder | src/feedforgec/model.cpp:783-786 | Acceptance of a schema and what it resolves to do not depend on order |
| OrderIndependence.PipelineInAnyOrder | src/feedforgec/model.cpp:1055-1057 | Acceptance of a pipeline and what it resolves to do not depend on the order of its projections |
| Sorting.SortInAnyOrder | src/feedforgec/lower.cpp:69-108 | A bag of elements with distinct keys has one sorted order, whatever order it came in |
| Json.RoundTrip | src/feedforgec/ir.cpp:191-233 | Reading a printed value gives it back and stops where it ends, whatever follows; escapes as in section 7 of RFC 8259 |
| Json.RenderInjective | src/feedforgec/ir.cpp:10-22 | Different values print differently |
| CanonicalReader.ParseCanonical | src/feedforgec/ir.cpp:249-290 | Reading canonical JSON by its keys, in whatever order they stand, gives back every part of every FFIR value |
| CanonicalReader.SchemaPreimage | src/feedforgec/ir.cpp:151-165 | Schema fingerprint texts are equal exactly when the schema semantics are; document revision, generator version and pipeline have no part |
| CanonicalReader.PipelinePreimage | src/feedforgec/ir.cpp:167-187 | Pipeline fingerprint texts are equal exactly when format version and pipeline are |
| CanonicalJson.FieldKeys | src/feedforgec/ir.cpp:40-64 | The nine names of a field record rise strictly, and under each stands what the field has; a field without logical type or scale has no such name |
| CanonicalReader.TypeText | src/feedforgec/ir.cpp:24-38 | Whoever reads the printed text of a type finds each value under its name |
| CanonicalReader.FieldText | src/feedforgec/ir.cpp:40-64 | The same for a field: width under `width` and offset under `offset` |
| CanonicalReader.MessageText | src/feedforgec/ir.cpp:93-113 | The same for a message |
| CanonicalReader.EventText | src/feedforgec/ir.cpp:115-139 | The same for an event, its source as a character and as a number |
| CanonicalReader.WireText | src/feedforgec/ir.cpp:141-149 | The same for the wire format |
| CanonicalReader.SchemaSemanticsText | src/feedforgec/ir.cpp:151-165 | The same for the text hashed for the schema fingerprint |
| CanonicalReader.PipelineSemanticsText | src/feedforgec/ir.cpp:167-187 | The same for the text hashed for the pipeline fingerprint |
| CanonicalReader.SchemaText | src/feedforgec/ir.cpp:249-290 | The same for the schema in the whole text |
| CanonicalReader.PipelineText | src/feedforgec/ir.cpp:249-290 | The same for the pipeline in the whole text |
| CanonicalReader.IrText | src/feedforgec/ir.cpp:249-290 | The same for the whole text, which ends in a newline |
| Texts.FieldWritten | src/feedforgec/ir.cpp:40-64 | The whole text of one field |
| JsonPrinter.PrintCanonicalJson | src/feedforgec/ir.cpp:249-290 | The appending printers write the text that the parser inverts |
| JsonPrinter.Printer.AppendField | src/feedforgec/ir.cpp:40-64 | Appends the field's record, optional members only where present, and nothing before it changes |
| JsonPrinter.Printer.AppendType | src/feedforgec/ir.cpp:24-38 | Appends the type's record, with a scale only where there is one |
| JsonPrinter.Printer.AppendFields | src/feedforgec/ir.cpp:79-91 | Appends the list with commas between and not before the first |
| JsonPrinter.Printer.AppendMessages | src/feedforgec/ir.cpp:93-113 | Appends every message in order |
| JsonPrinter.Printer.AppendEvents | src/feedforgec/ir.cpp:115-139 | Appends every event in order, its source both as a character and as a number |
| JsonPrinter.Printer.AppendSchemaSemantics | src/feedforgec/ir.cpp:151-165 | Appends the text hashed for the schema fingerprint |
| JsonPrinter.Printer.AppendPipelineSemantics | src/feedforgec/ir.cpp:167-187 | Appends the text hashed for the pipeline fingerprint |
| CppLiteral.EscapeCppString | src/feedforgec/emit_cpp.cpp:383-431 | Reading the result by the escape rules of ISO C++20 [lex.ccon] gives back every byte string |
| CppLiteral.ReadOne | src/feedforgec/emit_cpp.cpp:417-427 | Whatever follows an escape, a digit included, the reader takes the escape and no more |
| CppLiteral.EscapedIsPrintable | src/feedforgec/emit_cpp.cpp:383-431 | The result is printable ASCII, so it cannot end the line it stands in |
| Texts.CppOctal | src/feedforgec/emit_cpp.cpp:417-427 | Octal escapes written out |
| Gzip.DeterministicGzip | tools/generate_conformance_bundle.py:802-816 | A reader of stored blocks (RFC 1951 section 3.2.4) in a member (RFC 1952 section 2.3) recovers data of every length |
| Gzip.MemberReadsBack | tools/generate_conformance_bundle.py:802-816 | Length complements, checksum and length modulo 2^32 all check out for that reader |
| Gzip.OnlyLastBlockIsFinal | tools/generate_conformance_bundle.py:804-813 | The last block and no other is final, all others are full, and none is empty unless the data is |
| Texts.SmallMember | tools/generate_conformance_bundle.py:802-816 | The member of one byte, all ten bytes of its header included |
| Sha256.Sha256State.Update | src/feedforgec/sha256.cpp:31-41 | Feeding appends to the message fed, so update(a) then update(b) is update(a + b) |
| Sha256.Sha256State.Finish | src/feedforgec/sha256.cpp:43-76 | Returns the FIPS 180-4 digest of all that was fed, in the one-block and the two-block case |
| Sha256.Sha256State.Transform | src/feedforgec/sha256.cpp:79-138 | Computes the block function on the hash and the buffer |
| Sha256.PaddedLength | src/feedforgec/sha256.cpp:43-65 | Padding fills whole blocks with the fewest zeros possible, one block or two |
| Sha256.LengthFieldIsExact | src/feedforgec/sha256.cpp:44-44 | Below 2^61 bytes the length field is the bit length, although the count is kept modulo 2^64 |
| Sha256.HashBlocksPrefix | src/feedforgec/sha256.cpp:31-41 | A hashed block is not affected by what is fed later |
| Sha256.DigestOf | src/feedforgec/sha256.cpp:157-162 | One update and finish give the digest of section 6.2 of FIPS 180-4 |
| Sha256Constants.ConstantOfPrime | src/feedforgec/sha256.cpp:13-27 | Section 4.2.2 of FIPS 180-4: every round constant is the first 32 bits of the fraction of the cube root of its prime |
| Sha256Constants.InitialWords | src/feedforgec/sha256.cpp:140-149 | Section 5.3.3 of FIPS 180-4: every initial word is that of the square root of its prime |
| Sha256Abc.AbcDigest | src/feedforgec/sha256.cpp:79-138 | The digest of `abc` is the one published with the standard, computed through all 64 rounds |
| Sha256Abc.AbcHex | src/feedforgec/sha256.cpp:164-178 | And so is its text, the high digit of each byte first |
| Utf8.InvalidUtf8Offset | src/feedforgec/parse_toml.cpp:58-110 | Nothing if and only if the text is well formed under RFC 3629, otherwise the end of its longest well-formed prefix |
| Utf8.FirstOfEncoding | src/feedforgec/parse_toml.cpp:58-110 | The byte ranges accept the encoding of every code point, whatever follows |
| Utf8.EncodingOfFirst | src/feedforgec/parse_toml.cpp:66-107 | What the byte ranges accept is the one encoding of a code point: no overlong form, no surrogate |
| Utf8.BoundaryIsByte | src/feedforgec/parse_toml.cpp:54-56 | In a well-formed text an offset lies between code points exactly if its byte is not a continuation byte |
| Utf8.MarkAtOffset | src/feedforgec/parse_toml.cpp:112-126 | At a boundary the line is one plus the newlines and the column one plus the code points since the line began, a leading byte order mark not counted |
| Utf8.AdvanceCounts | src/feedforgec/parse_toml.cpp:117-124 | Stepping over bytes counts newlines and code points |
| TomlLexing.RefusedExactly | src/feedforgec/parse_toml.cpp:183-357 | A document is refused at an offset and for a reason if and only if lexemes of the grammar fill it up to there and none can follow: a byte beyond ASCII outside strings and comments, a bad header key, or a brace closing inside an innermost array |
| TomlLexing.LexemesSkipped | src/feedforgec/parse_toml.cpp:183-357 | Comments, strings, fine headers and paired brackets are passed over, whatever they hold, and the refusal is that of the rest |
| TomlLexing.LexedIsAccepted | src/feedforgec/parse_toml.cpp:183-358 | A document that is lexemes to its end is not refused |
| TomlLexing.AsciiWithoutBracketsAccepted | src/feedforgec/parse_toml.cpp:183-358 | An ASCII document without an opening bracket is never refused |
| TomlLexing.BraceInArrayRefused | src/feedforgec/parse_toml.cpp:350-354 | A concrete refusal: `x=[}` at its last byte |
| TomlDocuments.HeaderKeyExactly | src/feedforgec/parse_toml.cpp:39-42 | A document `[b]` is refused if and only if the character is none of the 64 written out, for every one that stands for itself |
| TomlDocuments.PiecesAreAccepted | src/feedforgec/parse_toml.cpp:173-358 | Accepted: any document of headers that begin with such a character, comments, strings that close and brackets that match, whatever stands inside strings and comments |
| TomlDocuments.HeaderKeyIsRefused | src/feedforgec/parse_toml.cpp:319-325 | Behind any such document a header with another first character, after one bracket or two and any blanks, is refused at that character |
| TomlDocuments.NonAsciiIsRefused | src/feedforgec/parse_toml.cpp:288-293 | So is a byte beyond ASCII outside strings and comments, where it stands |
| TomlDocuments.NonAsciiInHeaderIsRefused | src/feedforgec/parse_toml.cpp:128-171 | And one in the line of a header |
| TomlDocuments.ClosingBraceIsRefused | src/feedforgec/parse_toml.cpp:350-354 | And a brace that closes an array |
| TomlDocuments.OpenStringIsAccepted | src/feedforgec/parse_toml.cpp:193-217 | A string left open at the end of its line ends the scan without a refusal |
| TomlDocuments.MarkIsSkipped | src/feedforgec/parse_toml.cpp:176-176 | A byte order mark in front moves every refusal by three bytes and does nothing else |
| TomlDocuments.DocumentWithTablesAccepted | src/feedforgec/parse_toml.cpp:173-358 | A concrete document with `[[types]]`, `[emit]`, strings and an array is accepted |
| TomlLexing.CheckHeaderExactly | src/feedforgec/parse_toml.cpp:128-171 | The check of a header line gives a result if and only if the grammar says it is there |
| TomlScanner.ValidateTableHeaderCharacters | src/feedforgec/parse_toml.cpp:128-171 | Gives the one result the grammar allows: the first byte beyond ASCII outside strings and comment, a string left open, or all closed |
| TomlScanner.ScanOnce | src/feedforgec/parse_toml.cpp:183-356 | One turn in any lexical state moves on without changing what is still to be refused, or gives the answer; the depth stays the number of open arrays |
| TomlScanner.RefusedBetweenCodePoints | src/feedforgec/parse_toml.cpp:183-357 | What is refused in a well-formed text is at the beginning of a code point |
| TomlScanner.ValidateParserPreconditions | src/feedforgec/parse_toml.cpp:173-358 | Terminates on every well-formed text and refuses exactly what the grammar refuses, at a character boundary and behind a byte order mark |
| TomlScanner.CheckSource | src/feedforgec/parse_toml.cpp:440-447 | A document goes to the parser if and only if it is well formed and not refused by the grammar; otherwise line and column count the text in front of the fault, be it the end of the longest well-formed prefix or the place of the refusal |

## Left out

- Gzip.DeterministicGzip: the CRC-32 is a function parameter, the same for writer and reader.
- Sha256.DigestOf: collision resistance is not stated; in the compiler proofs the digest is a function of the text.
- CppLiteral.EscapeCppString: the reader refuses hexadecimal and universal escapes, which the compiler never writes.
- Emission.EmitDecoder: the emitted decoder is a program of switches, size checks, loads and casts; its C++ text is not modelled.
- Names in the generated header are modelled where events and namespace components meet what the emitter writes around them; macros, other clashes of field names and what a namespace already holds elsewhere are not. The emitter lets the names listed in `DecoderNames.IsSafeEventName` pass, and its header then does not mean what it should.
- The decoder and the sink of a replay are parameters: a function of the payload, and a function of the events delivered so far and the next one.
- DocumentRules.BothExactly: as in the validators modelled here, the limits on size of the next line are no part of what is accepted.
- Size limits on documents (numbers of types, messages, fields, projections, TOML nodes and namespace components, lengths of names of types and namespaces and of documentation strings, total length of allowed values, rendered output): they refuse large documents and change nothing else.
- Duplicate codes are compared as strings and duplicate projection sources likewise; for accepted one-byte codes that is the comparison of bytes the source makes.
- The order in which two faults of one document are found, and the wording, codes and hints of diagnostics: only acceptance is modelled, and the source position where UTF-8 and the scan are concerned.
- The resolved records and the FFIR records, which repeat each other field by field, share one set of datatypes.
- Sorting is modelled by its result: for distinct keys every sorting algorithm gives it.
- A payload view of the one-shot cursor is a value, because its input is never written to; the view of the chunked cursor is a length into the scratch array, so later calls overwrite it.
- The toml++ parser and the code that walks its nodes: the model starts from the parsed documents.
- Generated headers beyond decoder and replay: event structs, metadata, static assertions, include guards and comments.
- The 23 concrete ITCH layouts: the theorems hold for every accepted schema.
- File and process I/O, option handling, Git, tar and zip work, benchmarks and their own copy of SHA-256.
- Templates, concepts, alignment and compile-time checks; the decoder implementation is `portable_checked`.
