# InterCall: a verified model

InterCall is a symmetric remote-call protocol. Two peers share one byte stream; each may call procedures of the
other. Interfaces are written in a small language, and generated codecs encode values by their interface types. This
project models the parts of the implementation that are hardest to get right and proves what they promise:

- **the Go connection runtime** as a step system over goroutines, one step per lock-protected section, gate operation
  or stream event, first against an arbitrary peer, then as two endpoints over FIFO frame channels, then over byte
  channels with short writes and torn frames;
- **the codec**: the recursive codec that the Go emitter defines, the TypeScript instruction table and its LIFO
  machine, and the compiler that builds the table from an occurrence graph;
- **the interface language front end**: scanner, explicit-stack parser, comment attachment, validator and canonical
  printer, down to the bytes;
- **fast algorithms against simple ones**: chunked frame reception, the memoised depth preflight, the stable emission
  order, codec sharing by key, interface negotiation with its cancellation race, and the resource accounting of the
  TypeScript call path.

## Layout

| files | what they hold |
|---|---|
| `Lists`, `LittleEndian`, `Frame`, `Streams`, `ChunkQueue` | sequences, wire integers, frames, full reads and writes, chunked reception |
| `Locked`, `Connection`, `ConnectionSteps` | the lock-protected sections: as functions, as methods on the connection object, and the goroutine bodies that call them |
| `Endpoint`, `Incoming`, `Outgoing`, `WireOrder` | one endpoint as a step system and its invariants |
| `TwoEndpoints`, `ByteWire`, `TornWire` | two endpoints over frames, over bytes, and what follows a torn frame |
| `Leaves`, `Codec` | primitive codecs and the recursive reference codec |
| `CodecTable`, `CodecBuffers`, `CodecVm`, `CodecDecodeVm` | the instruction table, the budget and output buffer, the encoding and decoding machines |
| `CodecCompiler`, `CodecFacts`, `CodecProgram` | the compiler, the precomputed zero-width facts, and the theorems that join them |
| `Syntax`, `Parser`, `Marks` | tokens, trees, recursive descent, the explicit-stack parser, trees as marked tokens |
| `Scanner`, `DocText`, `Documents`, `WrittenDocs` | bytes to tokens, comment bodies to documents and back |
| `Formatter`, `FormatterStack`, `Layout`, `Rescan` | the canonical printer, its item stack, and what scanning its output finds |
| `Attach`, `AttachLoops`, `Collect`, `CanonicalBody`, `InterfaceFile` | comment attachment and the canonical-body fixpoint |
| `Validator`, `InterfaceTypes`, `Depth`, `CompiledInterface`, `InterfaceGraph` | validation and what it gives the later phases |
| `TypeKey`, `CodecSharing` | the codec sharing key and the registration that relies on it |
| `EmissionOrder`, `Negotiation`, `CallAccounting` | the remaining algorithms and protocols |

Steps of a system are a datatype with `Enabled` and `Apply`; a run is a sequence of steps each enabled where it is
taken; a property of every run is an invariant kept by every step. Loops of the program are methods proved against
functions; the functions carry the theorems.

## Model

| member | source | states |
|---|---|---|
| `LittleEndian.GetPut` | go/frame.go:132-143 | a 64-bit field written little-endian reads back |
| `LittleEndian.PutGet` | go/frame.go:65-88 | eight bytes are the encoding of the number they read as, so the header fields lose nothing |
| `Frames.ReadEncoded` | go/frame.go:110-127 | an encoded frame followed by anything reads as that frame and ends exactly at its end |
| `Frames.ReadPartial` | go/frame.go:93-105 | a proper prefix of an encoded frame never reads as a frame |
| `Frames.ReadIsCanonical` | go/frame.go:65-88 | whatever bytes read as a frame are that frame's encoding |
| `Frames.HeaderIsCanonical` | go/frame.go:65-88 | an accepted header is the header of the kind, ID, key and length it parses to, all in range |
| `Frames.ReadFrameStable` | go/frame.go:110-127 | later bytes never change a frame already readable |
| `Frames.ParseConcat` | go/frame.go:110-127 | a stream of complete frames and a tail parses to those frames and the parse of the tail |
| `Frames.ParseSplit` | typescript/src/runtime/frame.ts:59-88 | parsing a prefix first and its leftover with the next bytes gives the parse of the whole |
| `Frames.ParseConsumes` | typescript/src/runtime/frame.ts:59-88 | the frames parsed and the unread rest together are exactly the bytes received, and the rest is short or over-ceiling |
| `Frames.BuildFrame` | go/frame.go:132-143 | the buffer filled field by field is the frame's encoding |
| `Frames.PatchRequestId` | go/call.go:150-151 | overwriting the first eight bytes of a request built with ID zero gives the request with the allocated ID |
| `Streams.WriteFull` | go/write.go:88-108 | success exactly when the replies of the writer carry every byte, then exactly the frame was appended; otherwise a prefix of it |
| `Streams.ReadFull` | go/frame.go:93-105 | exactly the requested bytes under any short reads, or failure exactly when the stream is too short |
| `Streams.ReadFrameFrom` | go/frame.go:110-127 | under any short reads the result is what the arriving bytes denote, and the payload of an over-ceiling frame is not consumed |
| `ChunkQueues.ChunkQueue.Append` | typescript/src/runtime/chunk-queue.ts:10-15 | the contents grow by the chunk |
| `ChunkQueues.ChunkQueue.Read` | typescript/src/runtime/chunk-queue.ts:17-36 | the first bytes are returned and removed whatever the chunk boundaries, exactly when that many are unread; otherwise nothing changes |
| `ChunkQueues.FrameReceiver.Next` | typescript/src/runtime/frame.ts:71-82 | delivers the frame at the front of the unread bytes, waits, or stops before an over-ceiling header |
| `ChunkQueues.ReceiveChunk` | typescript/src/runtime/connection-runtime.ts:58-68 | draining after a chunk delivers the frames of the unread bytes and the chunk parsed as one, and leaves exactly the rest |
| `ChunkQueues.ReceiveAll` | typescript/src/runtime/frame.ts:59-88 | for every split of a byte stream the frames delivered and the stop before an over-ceiling header are those of the whole stream |
| `ChunkQueues.StoppedStays` | typescript/src/runtime/connection-runtime.ts:58-68 | chunks after an over-ceiling header add no frame |
| `Connections.Connection.AdmitOutgoing` | go/call.go:136-152 | a terminal cause or an ended context wins without an ID; otherwise the next ID is issued and one pending entry inserted |
| `Connections.Connection.ClaimResponse` | go/call.go:218-228 | the response claims the pending entry of its ID and removes it, or claims nothing |
| `Connections.Connection.ClaimCancel` | go/call.go:248-257 | cancellation claims and removes the pending entry of the ID and no other, or claims nothing |
| `Connections.Connection.AdmitIncomingFrame` | go/receive.go:127-146 | start, defer, drop or terminal, decided by the entry of the ID alone |
| `Connections.Connection.CompleteIncomingWrite` | go/receive.go:169-186 | the entry is removed, or replaced by the deferred request, which is returned |
| `Connections.Connection.SelectTerminalCause` | go/connection.go:180-217 | the first cause stays; its selection empties both maps and hands the pending entries to the teardown |
| `Connections.RunTeardown` | go/connection.go:236-243 | every claimed call is completed with the cause and no other |
| `ConnectionSteps.ReceiveFrame` | go/receive.go:33-61 | the receive loop on a frame leaves the object in the state that a run of the step system leaves, goes on exactly when that run does, and starts the handler or claims the call that it does |
| `ConnectionSteps.Answer` | go/receive.go:220-244 | a handler that holds the gate, through admission, any outcome of its write and what follows, is a run of the step system on the object, and returns the deferred request exactly when that run starts it |
| `ConnectionSteps.Send` | go/call.go:133-165 | a call that holds the gate, through admission and any outcome of its write, is a run of the step system on the object: it waits under its ID, or was refused with the result that the run returns |
| `IncomingRequests.StepKeepsInv` | go/receive.go:116-186 | every step of every goroutine keeps the relation between the incoming entry, the deferred slot and the live generations of each ID |
| `IncomingRequests.RunKeepsInv` | go/receive.go:116-186 | the relation holds in every reachable state, against every peer |
| `IncomingRequests.DisciplinedAdmission` | go/receive.go:127-146 | a request from a peer that keeps the reuse rule is never answered by the duplicate-ID termination: the one deferred slot suffices |
| `IncomingRequests.ReuseAfterResponseIsSafe` | README.md:470-476 | in every run against such a peer the duplicate-ID error is unreachable, and each accepted request starts exactly one handler generation, in order |
| `IncomingRequests.NeverBlamed` | go/receive.go:116-146 | from every reachable state, such a peer is never the terminal cause |
| `OutgoingCalls.StepKeepsInv` | go/call.go:133-180 | every step keeps one owner per admitted call: the pending map, the receive loop, its cancellation or the teardown |
| `OutgoingCalls.OwnerSettles` | go/call.go:218-258 | a step that completes a call is a step of its owner and completes it for the first time |
| `OutgoingCalls.OutcomeIsFinal` | go/call.go:166-180 | a settled outcome is never replaced and never completed again, in any continuation |
| `OutgoingCalls.SettledAtMostOnce` | go/call.go:133-180 | in every run a call is completed at most once, an admitted call has exactly one owner, and what a call returned is what it was settled with |
| `OutgoingCalls.TerminalIsFinal` | go/connection.go:180-243 | after terminal selection the cause never changes, both maps stay empty, and nothing is dispatched, issued or admitted |
| `WireOrder.StepKeepsEndpoint` | go/write.go:47-65 | every step keeps the gate exclusive and the frames on the wire complete, in gate order |
| `WireOrder.RunKeepsEndpoint` | go/write.go:47-65 | the wire invariants hold in every reachable state |
| `WireOrder.RequestIdsAreConsecutive` | go/call.go:123-162 | until a write fails the request frames on the wire carry the IDs 0, 1, 2, ... without gap or repeat |
| `TwoEndpoints.RunKeepsSystem` | go/receive.go:204-245 | over channels that carry a frame whole or not at all, each endpoint discharges the reuse discipline of the other in every run |
| `TwoEndpoints.JourneyIsOrdered` | go/receive.go:33-61 | over such channels a request is sent, received, dispatched, answered and returned at most once each, in that order, with its own key and payload |
| `TwoEndpoints.ResponseBelongsToCall` | go/call.go:218-240 | over such channels, in every run, a call settled by a response was settled with what the one dispatch of its own key and payload returned |
| `TwoEndpoints.DuplicateIsUnreachable` | go/receive.go:127-146 | over such channels the duplicate-ID error is unreachable between two Go endpoints |
| `TwoEndpoints.EveryIdHasOnePlace` | go/call.go:133-180 | over such channels each issued ID is in exactly one place in every run, from unwritten to consumed |
| `ByteWire.ByteMoveRefines` | go/write.go:88-108 | every byte-level move that reads nothing across a torn frame, with any short write, tear or later bytes, is one frame-level move or none |
| `ByteWire.ByteRunRefines` | go/write.go:88-108 | every byte-level run in which no frame is read across a torn one reaches only states of the frame-level system, and before a tear the bytes accepted are the complete frames in gate order and the written part of the frame in progress |
| `ByteWire.NothingAfterIsSafe` | go/binding.go:10-12 | a run in which no stream accepts a byte after a tear reads no frame across it |
| `ByteWire.ByteResponseBelongsToCall` | go/call.go:218-240 | in every such run over bytes a call settled by a response was settled with what the one dispatch of its own key and payload returned |
| `ByteWire.ByteDuplicateIsUnreachable` | go/receive.go:127-146 | in every such run over bytes the duplicate-ID error is unreachable |
| `ByteWire.ByteEveryIdHasOnePlace` | go/call.go:133-180 | in every such run over bytes each issued ID is in exactly one place |
| `ByteWire.ByteSideIsEndpoint` | go/receive.go:33-61 | in every byte-level run, whatever is read across a torn frame, each side is one endpoint against some peer, so everything proved of one endpoint holds |
| `ByteWire.ByteSettledAtMostOnce` | go/call.go:133-180 | in every byte-level run, whatever is read across a torn frame, a call is completed at most once and returns what it was settled with |
| `ByteWire.WireParses` | go/frame.go:65-143 | the bytes of an untorn stream between frames read back as exactly the frames written |
| `TornWire.TornIsCompleted` | go/frame.go:93-127 | after a frame torn behind its header the reader takes the next bytes for the lost ones: kind, ID and key of the torn frame, and the torn frame itself if and only if those bytes equal the lost ones |
| `TornWire.TornHeaderIsCompleted` | go/frame.go:65-88 | a header torn in the middle is completed by the next bytes, and whatever frame is then read starts with the torn bytes |
| `TornWire.EveryTornWire` | go/write.go:88-108 | on every torn stream that such a run leaves, the reader at the tear finds the torn frame completed by whatever was accepted after it |
| `TornWire.ReadAcrossBreaks` | go/frame.go:65-88 | the condition is needed: a frame read across a tear behind the ID has a kind and ID that nobody made visible, and the ID is then in two places at once |
| `TornWire.TornRunForgesRequest` | go/call.go:161-165 | a run that reads across a torn frame and settles a call from the dispatch of a payload that nobody sent |
| `Leaves.LeafRoundTrip` | go/internal/tool/codec.go:408-536 | an encoded primitive followed by anything decodes to it and exactly that rest |
| `Leaves.LeafCanonical` | typescript/src/runtime/primitive-codec.ts:105-150 | every accepted primitive is the encoding of the value decoded: one NaN, valid UTF-8, exact ranges |
| `Leaves.LeafEncodes` | typescript/src/runtime/primitive-codec.ts:55-103 | encoding succeeds exactly on values of the primitive, any NaN pattern included, which becomes the canonical one |
| `Codec.WidthOfValue` | go/internal/tool/model.go:196-213 | a type flagged zero-width encodes every value to no bytes, any other to at least one |
| `Codec.ZeroIsUnique` | go/internal/tool/codec.go:253-266 | a zero-width type has exactly one value |
| `Codec.RoundTrip` | go/internal/tool/codec.go:288-322 | decoding an encoded value followed by any suffix returns the value and exactly that suffix |
| `Codec.Canonical` | go/internal/tool/codec.go:337-391 | every accepted byte string is the encoding of the value decoded followed by the rest |
| `Codec.DecodingIsInjective` | go/internal/tool/codec.go:337-391 | no two byte strings decode to one value and one rest |
| `Codec.CountCheckIsSafe` | go/internal/tool/codec.go:362-391 | the count-versus-remaining check never rejects a valid list encoding |
| `CodecTable.ZeroAtMeaning` | typescript/src/runtime/codec-program.ts:161-197 | an instruction is flagged zero-width exactly when the type it denotes is |
| `CodecTable.EncAgrees` | typescript/src/runtime/codec-vm.ts:32-55 | on every value of the type whose lists fit, the table emits the reference encoding and charges its cost |
| `CodecTable.DecAgrees` | typescript/src/runtime/codec-vm.ts:71-93 | the table accepts what the reference accepts within the list limit, with the same value and rest |
| `CodecTable.TableRoundTrip` | typescript/src/runtime/codec-vm.ts:57-93 | decoding an encoding followed by any suffix returns the value, the suffix and the charge of encoding |
| `CodecTable.TableCanonical` | typescript/src/runtime/codec-vm.ts:160-213 | every accepted byte string re-encodes to itself at the same charge |
| `CodecTable.EncodesExactly` | typescript/src/runtime/codec-vm.ts:125-158 | the table encodes a value if and only if its normal form is a value of the type whose lists fit, and then encodes the normal form |
| `CodecTable.UncheckedElements` | typescript/src/runtime/codec-vm.ts:135-140 | the elements of a zero-width list are not checked: a list of numbers passes as a list of empty records |
| `CodecBuffers.CodecBudget.Charge` | typescript/src/runtime/codec-budget.ts:21-27 | all or nothing: an over-limit charge leaves the budget as it was |
| `CodecBuffers.EncoderBuffer.Append` | typescript/src/runtime/encoder-buffer.ts:38-75 | the contents grow by the bytes, or the maximum would be exceeded and they stay |
| `CodecBuffers.EncoderBuffer.Ensure` | typescript/src/runtime/encoder-buffer.ts:48-75 | growing never changes the contents nor exceeds the maximum, and fails exactly when the maximum is too small |
| `CodecVm.EncodeInto` | typescript/src/runtime/codec-vm.ts:32-55 | the stack machine terminates, succeeds exactly when the table encodes the value within output limit and budget, and appends exactly that encoding |
| `CodecVm.EncodeListFrame` | typescript/src/runtime/codec-vm.ts:125-144 | one list turn emits the count, charges, and leaves exactly the elements to do |
| `CodecVm.EncodeRecordFrame` | typescript/src/runtime/codec-vm.ts:146-158 | one record turn rejects missing and extra members and leaves exactly the fields to do, in order |
| `CodecDecodeVm.DecodeValue` | typescript/src/runtime/codec-vm.ts:71-93 | the destination-passing machine terminates, succeeds exactly when the table decodes a prefix within the budget, and returns that value and consumes that prefix |
| `CodecDecodeVm.DecodeProgram` | typescript/src/runtime/codec-vm.ts:57-62 | a payload must be consumed exactly |
| `CodecDecodeVm.DecodeListFrame` | typescript/src/runtime/codec-vm.ts:160-189 | one list turn reads the count and leaves exactly the element slots to fill, or fills them with the zero value |
| `CodecDecodeVm.DecodeRecordFrame` | typescript/src/runtime/codec-vm.ts:191-213 | one record turn leaves exactly the field slots to fill, in order |
| `CodecCompiler.FinishKeepsCache` | typescript/src/tool/codec.ts:82-107 | appending a finished occurrence keeps the table ordered and every cached occurrence translated |
| `CodecCompiler.CompiledMeaning` | typescript/src/tool/codec.ts:82-107 | the instruction of every compiled occurrence means the type that the occurrence stands for |
| `CodecCompiler.FailureIsReal` | typescript/src/tool/codec.ts:50-70 | an occurrence found open below itself, or an undeclared name, means that the root has no finite type |
| `CodecCompiler.Compile` | typescript/src/tool/codec.ts:26-73 | compilation succeeds exactly when the root resolves to a finite type; the table refers only to earlier instructions and its root means that type |
| `CodecFacts.ZeroWidths` | typescript/src/runtime/codec-program.ts:161-197 | on every table, forward references and recursion through lists included, the walk refuses exactly a circle of records and names, and otherwise flags exactly the zero instruction, names of flagged instructions and records of nothing else |
| `CodecFacts.NodeCosts` | typescript/src/runtime/codec-program.ts:88-118 | a flagged record costs one node more than its fields together, a name what it names, everything else nothing |
| `CodecFacts.ZeroValues` | typescript/src/runtime/codec-program.ts:120-159 | fails exactly when a flagged record defines one property with two objects; otherwise the value of a flagged record has exactly its fields, each with its own value, and nothing else has one |
| `CodecFacts.OrderedFlag` | typescript/src/runtime/codec-program.ts:161-197 | on a table that refers only to earlier instructions the flag is the zero-width of the type denoted |
| `CodecFacts.OrderedCost` | typescript/src/runtime/codec-program.ts:88-118 | there the precomputed cost is what visiting the value would charge |
| `CodecFacts.OrderedValue` | typescript/src/runtime/codec-program.ts:120-159 | there the prebuilt value is the one value of the type |
| `CodecPrograms.MakeProgram` | typescript/src/runtime/codec-program.ts:49-80 | refuses exactly a root or reference outside the table, a circle, and a flagged record that defines one property with two objects; otherwise all facts are right, and on a table that refers only to earlier instructions they are those of the types it denotes |
| `CodecPrograms.FactsAreUnique` | typescript/src/runtime/codec-program.ts:49-80 | an accepted table has only one set of right facts |
| `CodecPrograms.CompileProgram` | typescript/src/tool/codec.ts:26-73 | every root that resolves gives a well-built program for the type it stands for, and no other root does |
| `CodecPrograms.BudgetAgrees` | typescript/src/runtime/codec-vm.ts:76-93 | encoding and decoding charge the same, so a value fits a node budget when encoded if and only if its bytes fit when decoded |
| `CodecPrograms.MachineMatchesReference` | typescript/src/runtime/codec-vm.ts:32-55 | the bytes of a program for a type are the reference encoding and decode back |
| `CodecPrograms.EncodeThenDecode` | typescript/src/runtime/codec-vm.ts:15-62 | the two machines in a row return the normal form of the value |
| `Syntax.ParsedDecls` | go/internal/syntax/parse.go:41-63 | a parsed tree consists of exactly the tokens consumed, each of the kind its place demands |
| `Parsers.ParseTypeSpec` | go/internal/syntax/parse.go:263-331 | on every token sequence the explicit-stack parser equals recursive descent: same tree and next token, or rejection at the same token for the same reason |
| `Parsers.ParseParams` | go/internal/syntax/parse.go:193-233 | the parameter loop equals recursive descent |
| `Parsers.ParseDeclaration` | go/internal/syntax/parse.go:145-222 | each declaration form equals recursive descent, errors included |
| `Parsers.ParseTokens` | go/internal/syntax/parse.go:41-63 | the declaration loop equals recursive descent on the whole token sequence |
| `Marks.DeclsComeBack` | go/internal/syntax/parse.go:145-331 | parsing any tokens with the texts of a tree and attaching the documents before them gives that tree, up to spans |
| `Scanners.Scanner.Next` | go/internal/syntax/scanner.go:37-67 | one token or comment of the remaining text, always advancing; after the first error every call fails |
| `Scanners.Scanner.ScanIdent` | go/internal/syntax/scanner.go:76-88 | the longest run of identifier bytes |
| `Scanners.Scanner.ScanComment` | go/internal/syntax/scanner.go:96-115 | a comment ends at the first closing delimiter and must be valid UTF-8 |
| `Scanners.ScanFile` | go/internal/syntax/docs.go:65-76 | the token loop yields every token and comment with its span |
| `DocTexts.CleanAround` | go/internal/syntax/scanner.go:171-180 | comment text splits and joins at any ASCII byte that is no part of a delimiter |
| `Documents.NormalLinesOk` | go/internal/syntax/docs.go:368-407 | normalising any comment body gives nothing or lines in normal form: no CR, no trailing blanks, no empty ends, no shared indentation |
| `Documents.GroupDocOk` | go/internal/syntax/docs.go:353-361 | every comment group gives the empty document or one in normal form |
| `WrittenDocs.ReadsBack` | go/internal/syntax/format.go:212-237 | a document in normal form written at any indentation normalises to itself |
| `WrittenDocs.BodyClean` | go/internal/syntax/format.go:212-237 | a written document never closes its comment early and stays valid UTF-8 |
| `Formatters.FormatText` | go/internal/syntax/format.go:32-44 | the canonical text is one piece per token, each with its white space and document, and a final line feed |
| `FormatterStacks.WriteDoc` | go/internal/syntax/format.go:212-237 | the line loop writes the document's comment |
| `FormatterStacks.WriteType` | go/internal/syntax/format.go:152-163 | the prefix, the document and the own words of a type are written, its parts pushed |
| `FormatterStacks.WriteTypeBody` | go/internal/syntax/format.go:169-190 | what is written and what is pushed together are the recursive text of the type |
| `FormatterStacks.RunFormat` | go/internal/syntax/format.go:72-96 | draining the item stack writes what the recursive printer writes, and terminates |
| `FormatterStacks.WriteDecl` | go/internal/syntax/format.go:100-146 | each declaration form is written as the recursive printer writes it |
| `FormatterStacks.FormatFile` | go/internal/syntax/format.go:32-44 | the file loop writes the canonical text |
| `Layouts.LayOutFile` | go/internal/syntax/format.go:100-190 | the printed pieces carry the tokens and documents of the tree, words separated, documents on lines of their own |
| `Rescans.ScanLayout` | go/internal/syntax/scanner.go:37-115 | scanning laid-out text finds exactly its tokens, and one comment directly before every documented token |
| `Attachments.SubsetClean` | go/internal/syntax/docs.go:231-281 | whatever attachment puts into a slot is empty or in normal form |
| `Attachments.DocAtPiece` | go/internal/syntax/docs.go:231-281 | in canonical text the document found before a token is the one printed there |
| `AttachLoops.NormalizeDoc` | go/internal/syntax/docs.go:368-407 | the loops over lines compute the normalised document |
| `AttachLoops.SharedIndentation` | go/internal/syntax/docs.go:384-399 | the prefix loop with its early exit computes the indentation shared by all nonblank lines |
| `AttachLoops.JoinGroup` | go/internal/syntax/docs.go:353-361 | the nonempty normalised bodies, joined by a blank line |
| `AttachLoops.LineStarts` | go/internal/syntax/position.go:69-82 | zero and every offset after an LF, ascending |
| `AttachLoops.FindBlankLine` | go/internal/syntax/docs.go:321-339 | true exactly when some complete line between two LFs holds only blanks, the CR of a CRLF aside |
| `AttachLoops.LineNumbers` | go/internal/syntax/docs.go:310-312 | equal line numbers mean exactly that no LF lies between |
| `AttachLoops.IsTrailing` | go/internal/syntax/docs.go:299-305 | looking at the closest completed node decides whether any completed node is on the comment's line |
| `AttachLoops.FindDoc` | go/internal/syntax/docs.go:231-281 | the searches and loops find the document of an anchor |
| `Collectors.WalkListChain` | go/internal/syntax/docs.go:161-181 | a run of lists shares the end of its element |
| `Collectors.WalkType` | go/internal/syntax/docs.go:118-152 | the walk with a stack of open records gathers anchors, node ends and prefixes in source order |
| `Collectors.Collect` | go/internal/syntax/docs.go:65-111 | the declaration loop gathers those of the file |
| `Collectors.FindDocs` | go/internal/syntax/docs.go:231-281 | the anchor loop finds the document of every anchor |
| `Collectors.AttachDocs` | go/internal/syntax/docs.go:38-42 | the pass fills every slot with the document of its anchor |
| `Collectors.ParseSource` | go/internal/syntax/parse.go:41-92 | scanning and parsing succeed exactly when the text scans and its tokens parse |
| `CanonicalBodies.PrintedComesBack` | go/internal/syntax/format.go:32-237 | printing any tree with proper identifiers and documents in normal form, then parsing and attaching, gives that tree with those documents, up to spans |
| `CanonicalBodies.BodyIsFixpoint` | go/internal/tool/artifact.go:205-220 | for every source that parses, the formatted body parses, re-attaches the same documents to the same nodes, is valid exactly when the source is, and formats to itself |
| `CanonicalBodies.CanonicalExactly` | go/internal/tool/artifact.go:205-220 | a text is a canonical body if and only if it is what formatting some valid source gives |
| `InterfaceFiles.IsCanonicalBody` | go/internal/tool/artifact.go:210-220 | the tools' check decides exactly that |
| `Validators.CheckType` | go/internal/syntax/validate.go:152-183 | the work stack accepts exactly the types whose names are declared earlier and whose records have distinct fields |
| `Validators.Validator.CheckMembers` | go/internal/syntax/validate.go:102-112 | parameters are accepted exactly when their names are distinct and their types valid |
| `Validators.Validator.Check` | go/internal/syntax/validate.go:87-117 | one declaration is accepted exactly when its name, types and key are new and valid, and the scopes grow by it |
| `Validators.Validate` | go/internal/syntax/validate.go:35-58 | a file is accepted exactly when it is a valid interface, stated without scopes |
| `Validators.ValidPlain` | go/internal/tool/metadata.go:91-113 | validity ignores spans, so it survives reformatting |
| `InterfaceTypes.ValidRanked` | go/internal/syntax/validate.go:10-34 | following the names of a valid interface always ends |
| `InterfaceTypes.RootsKnown` | go/internal/syntax/validate.go:87-117 | every root of a valid interface refers only to earlier declarations |
| `Depths.DepthState.Walk` | go/internal/tool/depth.go:130-175 | the memoised walk rejects exactly a root whose longest resolved path exceeds the limit, and everything it memoised fits |
| `Depths.CheckDepth` | go/internal/tool/depth.go:64-101 | on every valid interface the memoised preflight rejects exactly when some resolved path is too long |
| `Depths.WalkRoot` | typescript/src/tool/depth.ts:39-90 | the plain walk rejects exactly a root that is too deep and never reports recursion |
| `Depths.ValidateDepth` | typescript/src/tool/depth.ts:10-33 | the plain preflight gives the same verdict as the memoised one |
| `CompiledInterfaces.ZeroWidthMeans` | go/internal/tool/model.go:196-213 | the flag computed on the tree is the zero-width of the wire type |
| `CompiledInterfaces.DepictedMeaning` | typescript/src/tool/codec.ts:26-73 | the meaning of an occurrence node is the wire type of the occurrence |
| `CompiledInterfaces.CompileDepicted` | typescript/src/tool/codec.ts:26-73 | every occurrence that a graph depicts compiles, to a program for its wire type |
| `CompiledInterfaces.RootBytes` | go/internal/tool/codec.go:288-322 | the program's bytes for a root are the field-order encoding of its wire type, read back exactly, and are empty exactly for zero-width roots |
| `InterfaceGraphs.GraphDepicts` | typescript/src/tool/codec.ts:26-73 | numbering every occurrence of a valid interface gives a graph that depicts all of it |
| `InterfaceGraphs.CompileRoot` | typescript/src/tool/codec.ts:26-73 | every root of every valid interface compiles, to a program for its wire type |
| `TypeKeys.KeyIsStructure` | go/internal/tool/model.go:219-242 | two occurrences have the same key text if and only if they are structurally identical |
| `CodecSharing.ParsedNamedWell` | go/internal/syntax/parse.go:263-331 | every type of a file that parses has the words for names that the key relies on |
| `CodecSharing.KnownIsComplete` | go/internal/tool/codec.go:131-141 | the early return loses nothing: a type whose key is present has everything nested in it registered already, although the types around it are not |
| `CodecSharing.CodecEmitter.RegisterType` | go/internal/tool/codec.go:131-149 | adds exactly the keys of the anonymous occurrences in the type, keeps every earlier entry, and completes every entry it adds |
| `CodecSharing.CodecEmitter.RegisterUnderlying` | go/internal/tool/codec.go:117-126 | adds exactly the keys of what is nested in the inlined type |
| `CodecSharing.CodecEmitter.Register` | go/internal/tool/codec.go:94-113 | afterwards every needed anonymous occurrence of the file has an entry of its own structure, so has everything nested in an entry, and there is no other entry |
| `EmissionOrders.InsertSorted` | go/internal/tool/mapping.go:1090-1096 | the ready list stays sorted and gains exactly the name |
| `EmissionOrders.CountDependencies` | go/internal/tool/mapping.go:1034-1053 | each distinct dependency is counted once and recorded once with its dependents |
| `EmissionOrders.Release` | go/internal/tool/mapping.go:1062-1072 | emitting a type makes exactly those dependents ready that have no other dependency left |
| `EmissionOrders.EmissionOrder` | go/internal/tool/mapping.go:1033-1087 | always takes the smallest ready name; fails exactly when references run in a cycle, naming the smallest of the types from which they lead into one |
| `EmissionOrders.KnotsAreCycles` | go/internal/tool/mapping.go:1074-1086 | a set of types each of which refers to one of them exists exactly when some chain of references leads from a type back to itself |
| `EmissionOrders.StuckIsCaught` | go/internal/tool/mapping.go:1074-1086 | when nothing is ready, what remains is exactly the types from which references lead into a cycle |
| `EmissionOrders.GreedyFollows` | go/internal/tool/mapping.go:1028-1032 | every type follows all its dependencies and none comes twice |
| `EmissionOrders.OrderIsUnique` | go/internal/tool/mapping.go:1028-1032 | the order of all types is unique |
| `EmissionOrders.AnswerIsUnique` | go/internal/tool/mapping.go:1028-1087 | the graph alone decides the order or the failure |
| `EmissionOrders.OrderIgnoresRecording` | go/internal/tool/mapping.go:1033-1087 | recording types or references in another order or number changes neither the order nor the name reported |
| `Negotiations.TurnKeeps` | go/negotiate.go:45-116 | every move of either side or its callback keeps what outcome, stream and bytes promise |
| `Negotiations.RunKeeps` | go/negotiate.go:139-188 | those promises hold in every run of both sides |
| `Negotiations.ConnectedMeansAgreed` | go/negotiate.go:214-237 | in every run a connected client agreed in both directions, a connected server knows the client expects its export, and each read exactly one identifier |
| `Negotiations.FirstByteMeansAgreed` | go/negotiate.go:214-237 | in every run, once the client wrote a byte beyond its identifier both directions agree |
| `Negotiations.ServerConnectsExactly` | go/negotiate.go:229-236 | some run connects the server if and only if the client expects its export, whatever the client exports |
| `Negotiations.ServerMeetsMismatch` | go/negotiate.go:229-236 | a run that connects the server to a client whose export it does not import |
| `Negotiations.StreamHasOneOwner` | go/negotiate.go:45-84 | each stream is closed at most once, a handed-off stream was not and will not be closed by the callback, and failure excludes handoff |
| `Negotiations.ReadInterfaceID` | go/negotiate.go:263-284 | succeeds exactly when the replies bring the identifier, and consumes exactly it |
| `CallAccounting.StepKeeps` | typescript/src/runtime/call-order.ts:20-84 | every stretch of every call, response and claimant, re-entrant ones from the user's encoder included, keeps the accounts and the promise chain |
| `CallAccounting.CountersAreOutstanding` | typescript/src/runtime/request-state.ts:26-85 | in every run the counters equal the outstanding slots and bytes, within their bounds; no release underflows; a finished call or response holds nothing |
| `CallAccounting.LeasesInOrder` | typescript/src/runtime/send-gate.ts:40-72 | in every run the promise chain is a lock with a waiting line: at most one lease is held, leases are granted in request order, the resolved promises come first, and each other one is held by exactly one task |
| `CallAccounting.GateNeverStuck` | typescript/src/runtime/send-gate.ts:40-72 | in every run, while any task waits in the gate, one holds the lease or one can go on, whatever was refused or cut short |
| `CallAccounting.StepOnward` | typescript/src/runtime/request-state.ts:54-85 | no stretch takes back what was returned, and a finished call or response never changes |
| `CallAccounting.ReturnedOnce` | typescript/src/runtime/connection-runtime.ts:75-135 | over every run a slot and a reservation are taken at most once and returned at most once |

## Findings

- The TypeScript encoder does not check the elements of a list of zero-width values (`CodecTable.UncheckedElements`).
  `CodecTable.EncodesExactly` states exactly which values it encodes: those whose normal form, with every such element
  replaced by the zero value and every NaN by the canonical one, is a value of the type.
- A server that connects knows only that the client expects the server's export: it can connect exactly then
  (`Negotiations.ServerConnectsExactly`), also to a client whose export it does not import
  (`Negotiations.ServerMeetsMismatch`). It knows better once one byte follows the client's identifier
  (`Negotiations.FirstByteMeansAgreed`).
- A write that accepts part of a frame and fails releases the gate before the terminal cause is selected
  (go/call.go:161-165, go/receive.go:231-236), and nothing asks a stream to refuse bytes after an error
  (go/binding.go:10-12). If another frame is accepted in between, the peer reads the torn frame completed by that frame's
  bytes (`TornWire.TornIsCompleted`) and may answer it, and the answer settles the first call
  (`TornWire.TornRunForgesRequest`). The byte-level theorems hold for every run in which no frame is read across a torn
  one, in particular if no byte is accepted after it (`ByteWire.NothingAfterIsSafe`), and they fail in every other run
  whose tear lies behind the ID (`TornWire.ReadAcrossBreaks`), unless the reader is over and drops the frame. What holds
  of one endpoint against any peer holds in all runs (`ByteWire.ByteSideIsEndpoint`).
- The comment on `Token` in go/internal/syntax/token.go:127-132 says that the literal is empty for keywords; the
  scanner sets it (go/internal/syntax/scanner.go:76-87). The model follows the scanner.

## Left out

- Argument validation of `Call` (nil arguments, a foreign import binding).
- IncomingRequests.ReuseAfterResponseIsSafe: the start of a handler goroutine is one step with its admission, and a peer
  has received a response once the frame was accepted in full.
- ByteWire.ByteRunRefines: a read across a tear inside the first eight bytes; the ID read is then a mix of two, and it is
  open whether it happens to be one that was made visible.
- Timers, fairness and liveness: a timeout is a cancellation step that may happen at any moment.
- Float arithmetic: a float is its bit pattern with one canonical NaN. JavaScript numbers and bigints are integers.
- The TypeScript `TextDecoder` may drop a byte-order mark; the string leaf is the Go one.
- CodecFacts.NodeCosts: costs are unbounded integers. In JavaScript they are doubles, which overflow to infinity for
  zero-width types of about 2^1024 nodes.
- CodecVm.EncodeInto: tables whose instructions refer only to earlier ones, which is what the compiler makes. A
  hand-written table with forward references or recursion through lists is accepted by `MakeProgram`, but the machines
  are not covered on it.
- CodecDecodeVm.DecodeValue: the same tables; destinations are paths into one tree, not shared objects.
- Parsers.ParseTypeSpec: open containers are values on the stack; the program mutates the nodes in place.
- Diagnostics: the parser model has the token and the expectation, no wording; scanner error positions are not modelled.
- Collectors.AttachDocs: the slot-setting closures become a table from anchor offset to document.
- Library searches and sorts in go/internal/syntax/docs.go: the prefix search is membership, `sort.Ints` is insertion sort.
- Validators.Validate: the key function is an arbitrary function of kind and name; FNV-0 itself is not modelled.
- EmissionOrders.EmissionOrder: references come as a list of names per type; walking the Go types that yields them is not modelled.
- Negotiations.ConnectedMeansAgreed: argument validation, and digests as anything but 32 bytes.
- CallAccounting.StepKeeps: teardown is one step per pending call rather than one for all; payload contents, the
  incoming-handler limits and the polling of the native send buffer are not modelled.
- Sockets, WebSockets, HTTP, the command line, file ownership, package discovery, Go type mapping and emitted source text.
- The TypeScript copy of the interface language front end, which duplicates the Go one.
