# Verified model of Nornir's cores

This Dafny project models the cores of Nornir, the parts that compute rather than call
out, and proves what they are for.

- `SseFraming`, `SseIntercept`, `SseBlocks`, `SseRerun`, `SseSideLog`, `SseProxy`: the response interceptor of
  `bifrost_proxy`. It frames a byte stream into server-sent events, removes thinking blocks into a side-log and
  renumbers the blocks that survive. `Fate` and `Filtered` say what becomes of each event
  without any state machine; the class `Interceptor` is the code.
- `DepWalk`, `DepCut`, `DepResolve`, `DepSymbols`, `Zones`: the dependency walker of `dep_resolve_core`, over any
  import graph, and the zone rules of `gleipnir_core` that supply what its order needs.
- `Schema`, `DefaultsConditions`, `Defaults`, `DefaultsBranches`, `DefaultsOneLevel`, `DefaultsOneEntry`, `DefaultsNested`, `DefaultsTwice`,
  `DefaultsLimits`, `DefaultGate`: conditional defaults of `default_apply_core`, with the report as a log of edits
  that can be replayed, the pointer-driven passes as functions on trees, and idempotence level
  by level.
- `Scripts`, `DefaultsScript`, `DefaultsOneJob`, `DefaultsAcross`: the same gate, for every schema, as a list of
  additions and removals at paths; when running such a list twice is running it once; and
  idempotence also across sections.
- `Xml`, `XmlText`, `XmlLayout`, `XmlContent`, `XmlReadBack`, `XmlRoundTrip`, `XmlIo`, `Toml`: the XML printer and parser and the
  TOML conversion of `format_core`.
- `Hold`, `HoldKeys`, `HoldRelay`, `HoldMic`: the synthetic key hold of `keystroke_io` and the microphone relay that
  commands it, two processes joined by a channel, as steps in any order.
- `Session`: the logs of `session_io`, each a function of the history of requests.
- `Grouping`, `Visibility`, `FileNames`, `Wrap`, `LineLists`, `Batches`, `Calendar`: the policy filter of `syn_core`,
  grouping, wrapping and line lists of `report_render_core`, the batch splitter and the
  calendar.
- `Prelude`, `Utf8`: text, UTF-8 and JSON values, with the order of keys (`Doc`) where it shows.

Code that updates state is modelled by methods and classes whose contracts tie them to
specification functions; the lemmas are about those functions. A byte is the character of the
same code, so buffers and strings have one type. A file is its content. An import graph gives,
for each path, the imports in order, each with the file it resolves to.

Libraries are parameters or tokens: the JSON parser and serializer of the proxy are functions of
which nothing is assumed unless a lemma says so, and then of the values of one stream; the XML reader's
input is a token sequence that `Lex` makes of the printed pieces, trimming text as the reader
is configured to; compiled filters are predicates.

Places where code and documentation differ, or where a natural claim is false:

- The walker promises dependencies deepest first (`core/dep_resolve_core/src/resolve.rs:43-46`).
  With a limit that cuts at no importer, that holds exactly when no file in reach is on an import cycle
  (`WalkIsTopological`). A limit that cuts can break the order (`CutOrderIsNotTopological`) and
  can miss a file within it (`DetourMisses`), unless it cuts evenly (`EvenCutIsExact`);
  `ListIsImportsOfRun` says what is listed with any limit.
  Under the zone rules neither happens (`DefaultDepthSuffices`).
- The comment at `core/default_apply_core/src/lib.rs:38-42` says that fields governed by a
  conditional are left to it. The code fills every required field with a default first. So a
  strip may be undone and repeated, and applying twice may differ from once: when an entry
  writes what itself or an earlier entry reads (`SelfReadIsNotIdempotent`,
  `LateWriteIsNotIdempotent`, and `ComparedObjectIsNotIdempotent` where it is the object below
  that writes), or when it adds an object with a default that lacks what the object requires
  (`RawDefaultIsNotIdempotent`). For one conditional `OneEntryTwiceIffNoFlip` (on one level) and
  `OneJobTwiceIffNoFlip` (anywhere) say exactly when. `ConsistentTwice` shuts out both and proves that then it never
  does, on any schema; `GateTwiceIsOnce` allows more for conditionals among siblings, and
  `TwiceIfSameBranches` is about single data.
- All thinking blocks share one buffer, so the side-log is not always per block
  (`OverlapMixesTexts`). `LogIsShared` says what it holds, `BlocksIffApart` exactly when each
  block logs its own deltas.
- A second interceptor is not always the identity (`OrphanIsRewritten`,
  `UnaddressedStartHides`); `RerunIsIdentity` says exactly when it is. On bytes there is one
  more case: each pass drops a carriage return at the end of data that it rebuilds
  (`TrailingReturnIsLost`).
- A tap during a hold lifts the held keys (`TapBreaksHold`); `HoldIsWholeCombo` and
  `ModifiersStayHeld` say exactly when a hold is whole and when only the main key is pressed
  again. The relay never sends a tap.
- XML does not keep every value; `XmlRoundTrips` says exactly which documents come back.
- `core/time_core/src/lib.rs:5-6` claims the years 1970 to 2099. The loops are right for
  every second, in unbounded integers.
- Event framing follows section 9.2.6 of the WHATWG HTML Living Standard only in part: line
  feeds only, and of several `data:` lines the last one counts. The model does what the code
  does.

## Model

| member | source | states |
|---|---|---|
| SseFraming.FindEventBoundary | daemons/bifrost_proxy/src/main.rs:819-821 | the result is the first position of `\n\n`, and none means there is no such position |
| SseFraming.Residue | daemons/bifrost_proxy/src/main.rs:621-643 | what the loop leaves in the buffer holds no event boundary |
| SseFraming.FramesPartition | daemons/bifrost_proxy/src/main.rs:621-643 | the events taken off and the leftover put together are the buffer, and each event has its only boundary at its end |
| SseFraming.FramesSplit | daemons/bifrost_proxy/src/main.rs:577-643 | cutting a byte stream anywhere changes neither its events nor its leftover |
| SseFraming.FramesOfFlatten | daemons/bifrost_proxy/src/main.rs:621-643 | complete events written one after the other, before any other bytes, are framed one by one |
| SseFraming.FramesOfChunksIsWhole | daemons/bifrost_proxy/src/main.rs:577-643 | framing chunk by chunk with a buffer is framing the whole stream at once |
| SseFraming.ChunkingIndependence | daemons/bifrost_proxy/src/main.rs:577-643 | two ways of cutting one byte stream give the same events and the same leftover, and the leftover holds no boundary |
| SseFraming.ParseMeaning | daemons/bifrost_proxy/src/main.rs:666-679 | an event has a type and data exactly when some line starts with `event: ` and some with `data: `; the last of each counts, and of the type white space at both ends is dropped |
| SseFraming.RebuiltEventParses | daemons/bifrost_proxy/src/main.rs:666-679 | a rebuilt event parses back to its type and its data without a last carriage return, so to its data exactly when that is one line |
| SseFraming.RebuiltEventIsFrame | daemons/bifrost_proxy/src/main.rs:789-791 | a rebuilt event is exactly one frame |
| SseIntercept.Owner | daemons/bifrost_proxy/src/main.rs:646-786 | an index denotes the latest start of that index that no later start or stop of it ended; none means there is no such start |
| SseIntercept.ModesAreOwners | daemons/bifrost_proxy/src/main.rs:682-786 | on every stream the block map holds exactly the open blocks, each with strip or its rank among surviving starts, and the counter is the number of surviving starts |
| SseIntercept.OutputsAreFiltered | daemons/bifrost_proxy/src/main.rs:646-786 | on every stream the events sent are the stream without the events of thinking blocks, surviving blocks carrying their rank, everything else unchanged; the right-hand side is defined without the state machine |
| SseIntercept.LiveIndicesDistinct | daemons/bifrost_proxy/src/main.rs:682-786 | on every stream, well formed or not, forwarded indices of open blocks are pairwise distinct and below the next index |
| SseBlocks.ThinkingStartIsStripped | daemons/bifrost_proxy/src/main.rs:690-700 | a start whose `content_block` has the `type` `thinking` sends nothing, on every stream |
| SseBlocks.OtherStartIsSent | daemons/bifrost_proxy/src/main.rs:702-717 | any other start is sent on with the number of such starts before it as index, everything else of its value kept in place |
| SseBlocks.ThinkingBlockIsStripped | daemons/bifrost_proxy/src/main.rs:720-786 | a delta or stop of an open thinking block sends nothing: its index, or 0 if it has none, is that of a start with `thinking` as the type of its block, and no start or stop of that index came since |
| SseBlocks.OtherBlockIsSent | daemons/bifrost_proxy/src/main.rs:720-786 | a delta or stop of any other open block is sent on with the number of its start as index, everything else of its value kept in place |
| SseBlocks.OthersPass | daemons/bifrost_proxy/src/main.rs:646-786 | what is no readable block event, and a delta or stop whose index stands for no open block, is sent on as it came |
| SseBlocks.ThinkingIsLogged | daemons/bifrost_proxy/src/main.rs:682-816 | a thinking block that starts while no other is open adds one entry at its stop, if there is a session and any text: the strings at `delta` and `thinking` of the deltas of its index, in order |
| SseBlocks.OnlyThinkingIsLogged | daemons/bifrost_proxy/src/main.rs:754-786 | nothing but the stop of an open thinking block adds to the log |
| SseRerun.SurvivorsNumbered | daemons/bifrost_proxy/src/main.rs:682-717 | starts in the output read as the proxy writes them under 0, 1, 2, ... in order, none is a thinking block, and as many start as survive |
| SseRerun.RerunIsIdentity | daemons/bifrost_proxy/src/main.rs:646-786 | on every stream: an interceptor fed with its own output logs nothing, and changes nothing exactly when each delta or stop that a block open in that output claims reads as the proxy writes it for that block, in its own order of keys |
| SseRerun.WellFormedIsSettled | daemons/bifrost_proxy/src/main.rs:646-786 | that condition holds of every stream whose deltas and stops belong to open blocks and whose forwarded starts have an index |
| SseRerun.OrphanIsRewritten | daemons/bifrost_proxy/src/main.rs:720-751 | a stream with a delta of no open block, on which a second interceptor changes the output, whatever the texts of the events |
| SseRerun.UnaddressedStartHides | daemons/bifrost_proxy/src/main.rs:682-717 | a stream with a forwarded start without an index, on which a second interceptor changes the output, whatever the texts of the events |
| SseSideLog.LogIsShared | daemons/bifrost_proxy/src/main.rs:720-816 | on every stream the buffer is the text of the thinking deltas since the last thinking start or stop, and the side-log has an entry for it at each stop of a thinking block |
| SseSideLog.OwnIffApart | daemons/bifrost_proxy/src/main.rs:720-786 | the buffer is exactly the deltas with text of one open thinking block, taken by position, if and only if none of them came before the last thinking start or stop and no delta with text of another thinking block came after |
| SseSideLog.BlocksIffApart | daemons/bifrost_proxy/src/main.rs:720-786 | every stopped thinking block has exactly its own deltas with text in the buffer, by position, if and only if that holds at each such stop |
| SseSideLog.SideLogIsPerBlock | daemons/bifrost_proxy/src/main.rs:794-816 | then the side-log has one entry for each stopped thinking block with text: its own deltas in order |
| SseSideLog.NoOverlapIsApart | daemons/bifrost_proxy/src/main.rs:682-786 | it always holds when no thinking block starts while one of another index is open |
| SseSideLog.OverlapMixesTexts | daemons/bifrost_proxy/src/main.rs:720-786 | two overlapping thinking blocks with any two texts: the first to stop takes the text of both |
| Utf8.Utf8Cut | daemons/bifrost_proxy/src/main.rs:646-650 | UTF-8 as section 4 of RFC 3629 has it, cut in front of an ASCII byte, leaves two texts of UTF-8 |
| Utf8.Utf8Meaning | daemons/bifrost_proxy/src/main.rs:646-650 | what is accepted as UTF-8 is a text of characters, each encoded by section 3 of RFC 3629 |
| Utf8.EncodingIsUtf8 | daemons/bifrost_proxy/src/main.rs:646-650 | every text of characters so encoded is accepted |
| SseProxy.FrameIsDecoded | daemons/bifrost_proxy/src/main.rs:657-662 | the three kinds of block events by the text of their frames, as they are read and as they are written |
| SseProxy.DecodeMeaning | daemons/bifrost_proxy/src/main.rs:646-663 | what is not UTF-8, lacks a type or data, or has another type is passed on as it came; a block event has the value of its data |
| SseProxy.DecodedIsRead | daemons/bifrost_proxy/src/main.rs:646-679 | the data of a block event read from a frame is UTF-8 without a line feed, and is what the parser was given |
| SseProxy.OutputRereads | daemons/bifrost_proxy/src/main.rs:646-679 | every event sent is one frame, which reads back as the event exactly when its data is one line and the parser reads its value back, if the serializer writes the values of the stream as one line of UTF-8 each |
| SseProxy.SecondPassIsIdentity | daemons/bifrost_proxy/src/main.rs:570-643 | with a serializer that writes the values of the stream, and of what was sent, as one line of UTF-8 each, a second interceptor behind the first changes no byte, the unterminated rest included, exactly when no data sent ends in a carriage return and each event, as it is read again, is claimed by no thinking block and has the data that the serializer writes of it for the block that claims it |
| SseProxy.SettledSecondPass | daemons/bifrost_proxy/src/main.rs:570-643 | when the parser also reads these values back, that is so exactly when the output is settled and no data sent ends in a carriage return |
| SseProxy.TrailingReturnIsLost | daemons/bifrost_proxy/src/main.rs:621-679 | a delta of UTF-8 whose data ends in two carriage returns and does not parse, whatever the serializer: the output is settled, and a second interceptor drops a return |
| SseProxy.Interceptor.constructor | daemons/bifrost_proxy/src/main.rs:546-563 | a new state is that of the empty stream |
| SseProxy.Interceptor.HandleBlockStart | daemons/bifrost_proxy/src/main.rs:682-717 | makes the step of the state machine for a block start, state and rebuilt text |
| SseProxy.Interceptor.HandleBlockDelta | daemons/bifrost_proxy/src/main.rs:720-751 | makes the step of the state machine for a delta |
| SseProxy.Interceptor.HandleBlockStop | daemons/bifrost_proxy/src/main.rs:754-786 | makes the step of the state machine for a stop, side-log entry included |
| SseProxy.Interceptor.RouteSseEvent | daemons/bifrost_proxy/src/main.rs:646-663 | routes a raw event by its type and passes every other event as it came |
| SseProxy.Interceptor.Send | daemons/bifrost_proxy/src/main.rs:636-640 | a send arrives unless the receiver has closed, and says so |
| SseProxy.Interceptor.RouteCompleteEvents | daemons/bifrost_proxy/src/main.rs:621-643 | takes every complete event off the buffer, in order, and leaves the rest; it ends early exactly when a send fails |
| SseProxy.Interceptor.Receive | daemons/bifrost_proxy/src/main.rs:577-612 | after every frame of the body the whole state is a function of the bytes received; after a failed send it is that of the first events of the stream |
| SseProxy.Interceptor.Serve | daemons/bifrost_proxy/src/main.rs:570-615 | what arrives is what the receiver takes, until it closes, of a sequence that depends only on the concatenated bytes and on whether the stream failed; unless it closed, so does the state |
| SseProxy.AllIsDelivered | daemons/bifrost_proxy/src/main.rs:570-615 | a receiver that never closes gets the texts of the filtered events and, unless the stream failed, the unfinished rest |
| DepWalk.WalkIsSound | core/dep_resolve_core/src/resolve.rs:102-194 | on every graph, cyclic or not: each body runs at most once, no file is listed twice, listed files and groups agree, and every listed file is readable, parses, and is at most `max_depth` + 1 imports away |
| DepWalk.WalkIsExact | core/dep_resolve_core/src/resolve.rs:102-194 | when the limit cuts at no file that imports another, the list is exactly the readable, parseable files reached by one or more imports |
| DepWalk.RoomyByFileCount | core/dep_resolve_core/src/resolve.rs:102-129 | a limit of at least the number of readable files is such a limit, cycles or not |
| DepWalk.WalkIsTopological | core/dep_resolve_core/src/resolve.rs:102-194 | with such a limit the order is topological if and only if no file in reach of the target is on an import cycle, and the target is listed if and only if it is on one |
| DepWalk.ListIsImportsOfRun | core/dep_resolve_core/src/resolve.rs:102-194 | on every graph and with every limit the list is exactly the readable, parseable imports of the files whose body ran, and the body of the target runs |
| DepWalk.CutOrderIsNotTopological | core/dep_resolve_core/src/resolve.rs:102-129 | a project and a limit for which the order is not topological, because a file cut off by the limit is walked again later |
| DepWalk.DetourMisses | core/dep_resolve_core/src/resolve.rs:102-148 | a project and a limit for which a file within the limit is missed, because the walk first came to its importer by a detour |
| DepCut.WalkSees | core/dep_resolve_core/src/resolve.rs:102-148 | on every graph and with every limit the walk is that of the project without the imports of files beyond the limit |
| DepCut.EvenCutIsExact | core/dep_resolve_core/src/resolve.rs:102-194 | a limit that cuts all import chains to an importer or none, and so for all files one import further: the list is exactly the readable, parseable files at most `max_depth` + 1 imports away, and listed dependencies stand before their importers |
| DepCut.RoomyCutsEvenly | core/dep_resolve_core/src/resolve.rs:102-129 | without cycles in reach, a limit that cuts at no importer is such a limit |
| DepCut.ChainCutsEvenly | core/dep_resolve_core/src/resolve.rs:102-129 | a project and a limit that cuts at an importer and yet cuts evenly |
| DepSymbols.WalkFiles | core/dep_resolve_core/src/resolve.rs:150-194 | on every graph and with every limit a file is listed if and only if it can be read and parsed and a file whose body ran, and that parses, imports it |
| DepSymbols.WalkSymbols | core/dep_resolve_core/src/resolve.rs:150-194 | the symbols of a listed file are those that the files whose body ran take from it, one file after the other as they are finished, each in the order of its imports |
| DepSymbols.WalkSymbolsMeaning | core/dep_resolve_core/src/resolve.rs:150-194 | a symbol is gathered for a listed file if and only if an import of it in some file whose body ran takes the symbol, in hybrid mode as a signature unless that file is the target |
| DepSymbols.KeptSymbols | core/dep_resolve_core/src/resolve.rs:312-317 | the symbols kept are those that no earlier one shares its name with, in order |
| DepSymbols.KeptGroups | core/dep_resolve_core/src/resolve.rs:76-97 | the groups returned are in the order of the list, each with the kept symbols of its file |
| DepSymbols.ResolvedNames | core/dep_resolve_core/src/resolve.rs:47-98 | a name is in the group returned for a file if and only if an import of it in some file whose body ran takes a symbol of that name |
| DepResolve.FirstOfEachNameIsDistinct | core/dep_resolve_core/src/resolve.rs:312-317 | removing duplicates keeps every name and leaves each once |
| DepResolve.DedupSymbols | core/dep_resolve_core/src/resolve.rs:312-317 | the symbols kept are the first of each name, in order |
| DepResolve.ResultFiles | core/dep_resolve_core/src/resolve.rs:47-98 | the groups returned are those of the listed files that have symbols |
| DepResolve.ResultIsTopological | core/dep_resolve_core/src/resolve.rs:47-98 | dropping files without symbols keeps a topological order topological |
| DepResolve.Resolver.WalkFile | core/dep_resolve_core/src/resolve.rs:102-129 | visits a file as the walk function says, for every state |
| DepResolve.Resolver.RecurseIntoDeps | core/dep_resolve_core/src/resolve.rs:131-148 | walks the imports of a file in order, skipping visited and unreadable ones |
| DepResolve.Resolver.ExtractFromDeps | core/dep_resolve_core/src/resolve.rs:150-194 | lists each importable file once and adds the symbols, in the mode for the depth |
| DepResolve.Resolver.TakeGroups | core/dep_resolve_core/src/resolve.rs:76-97 | the map is emptied into groups in walk order |
| DepResolve.Resolver.ResolveDependencies | core/dep_resolve_core/src/resolve.rs:47-98 | the result is the groups of the walk from the target |
| Zones.ImportRule | core/gleipnir_core/src/structures.rs:64-141 | an import is allowed exactly from a higher to a lower of the nine levels and to structure or one of eight pairs of zones |
| Zones.ChainsDescend | core/gleipnir_core/src/structures.rs:64-141 | in a governed project levels fall along every import chain by at least one per import |
| Zones.GovernedGraphs | core/gleipnir_core/src/structures.rs:127-141 | a project whose every import obeys `can_import` has no import cycle and chains of at most 8 imports |
| Zones.ReachIsDirect | core/gleipnir_core/src/structures.rs:108-141 | what a file reaches by any chain it could import directly: the zone matrix is closed under chains |
| Zones.PureReachesPure | core/gleipnir_core/src/structures.rs:103-119 | a pure file transitively reaches only pure and structure files |
| Zones.DefaultDepthSuffices | cli/dep_resolve/src/main.rs:31-33 | in a governed project the default depth of 10 never cuts: the walk is exact, topological, without duplicates and without the target |
| Schema.MatchesFieldsMeaning | core/default_apply_core/src/lib.rs:202-232 | a flat condition holds exactly when every entry of `required` is a present field that meets its constraint |
| DefaultsConditions.FlatIfMeaning | core/default_apply_core/src/lib.rs:180-282 | a condition with `required` holds exactly when the object at the path of its entry has every such field, each equal to its `const` or else among its `enum` |
| DefaultsConditions.AcrossIfMeaning | core/default_apply_core/src/lib.rs:180-282 | a condition that leads through sections holds exactly when that is so of the object at the end of its own path from the root |
| DefaultsConditions.FirstSectionDecides | core/default_apply_core/src/lib.rs:237-262 | of several sections the first that asks for something decides; those before it must be there |
| Defaults.InjectMeaning | core/default_apply_core/src/lib.rs:284-312 | present fields keep their value, and of the absent ones exactly the required ones with a default appear, with that default |
| Defaults.UnconditionalCompletes | core/default_apply_core/src/lib.rs:58-107 | after the unconditional pass every required field with a default is present at every level the pass reaches |
| Defaults.CompleteIsFixed | core/default_apply_core/src/lib.rs:58-107 | on such data the pass changes nothing and reports nothing |
| Defaults.UnconditionalEdits | core/default_apply_core/src/lib.rs:58-107 | the edits of the unconditional pass are additions only and turn the input into its result |
| Defaults.ReportIsExactLog | core/default_apply_core/src/lib.rs:43-52 | replaying the reported edits on the input gives the output: each addition was of an absent field, each strip of a present one, and nothing else changed; without `else` clauses all are additions |
| Defaults.WithoutElseOnlyExtends | core/default_apply_core/src/lib.rs:43-52 | without `else` clauses the result extends the input at every depth |
| DefaultsBranches.PassMeaning | core/default_apply_core/src/lib.rs:58-107 | the unconditional pass over an object adds exactly the missing required fields that have a default and goes on into exactly those fields whose property is of type object; other levels and values stay |
| DefaultsBranches.FlatThenMeaning | core/default_apply_core/src/lib.rs:284-333 | a flat `then` adds exactly the missing required fields that have a default at the level of its entry, to the object at the path of its entry |
| DefaultsBranches.FlatElseMeaning | core/default_apply_core/src/lib.rs:383-417 | an `else` with some boolean among its members takes exactly the fields marked `false` off that object |
| DefaultsBranches.AcrossElseMeaning | core/default_apply_core/src/lib.rs:383-454 | an `else` without any works across sections from the root |
| DefaultsBranches.EntryBranches | core/default_apply_core/src/lib.rs:112-142 | an entry takes its `then` where its condition holds, first at its own object with its own level and then across sections with the root schema, its `else` where it does not, and without `if` nothing |
| DefaultsOneLevel.ApplyIsOn | core/default_apply_core/src/lib.rs:43-52 | for a schema of one level the gate acts on the fields of the object alone |
| DefaultsOneLevel.ResultMeetsConditionals | core/default_apply_core/src/lib.rs:112-142 | when no entry writes what itself or an earlier entry reads and each field has one writer, the result satisfies every conditional |
| DefaultsOneLevel.ApplyTwiceIsOnce | core/default_apply_core/src/lib.rs:43-142 | when no entry writes what itself or an earlier entry reads, applying twice gives the data of applying once, however many entries write a field and also where `else` strips what the unconditional pass puts back |
| DefaultsOneLevel.ApplyTwiceIfAlike | core/default_apply_core/src/lib.rs:43-142 | whatever the entries read and write, applying twice gives the data of applying once on all data on which each entry decides in the second pass as in the first |
| DefaultsOneEntry.TwiceIffNoFlip | core/default_apply_core/src/lib.rs:43-142 | with one conditional on one level, whatever it reads and writes: applying twice gives the data of applying once if and only if it does not strip first and hold once what it stripped is filled in again |
| DefaultsOneEntry.OneEntryTwiceIffNoFlip | core/default_apply_core/src/lib.rs:43-142 | that is so for all data if and only if the schema is not of this form: every field the conditional reads and strips is required with a default that meets it, every other field it reads can meet it, and one of the stripped ones is compared |
| DefaultsOneLevel.SelfReadIsNotIdempotent | core/default_apply_core/src/lib.rs:383-417 | a schema whose entry strips the field it reads, on which applying twice differs from once |
| DefaultsOneLevel.LateWriteIsNotIdempotent | core/default_apply_core/src/lib.rs:112-142 | a schema in which a later entry writes what an earlier one reads, on which applying twice differs from once |
| DefaultsOneLevel.TwoWritersConflict | core/default_apply_core/src/lib.rs:112-142 | two entries that write one field: the result fails the conditional of the first |
| DefaultsNested.StripNestedIsWithout | core/default_apply_core/src/lib.rs:420-454 | stripping through pointers removes exactly the fields marked `false`, at every depth, said as one function on the tree |
| DefaultsNested.CrossElseIsWithout | core/default_apply_core/src/lib.rs:383-417 | an `else` across sections is that function on the whole data |
| DefaultsNested.ResolveUnder | core/default_apply_core/src/lib.rs:488-505 | the properties resolved one key further are those under that key, an empty key leading nowhere |
| DefaultsNested.NestedThenIsWith | core/default_apply_core/src/lib.rs:350-378 | injecting through pointers gives each object that a clause requires fields of exactly the missing defaults of the root schema, said as one function on the tree |
| DefaultsNested.CrossThenIsWith | core/default_apply_core/src/lib.rs:336-347 | a `then` across sections is that function on the whole data |
| DefaultsNested.GateIsLevels | core/default_apply_core/src/lib.rs:43-171 | for conditionals among siblings at any depth the whole gate is the unconditional pass and then each level on its own object |
| DefaultsTwice.PassAt | core/default_apply_core/src/lib.rs:58-171 | field by field what one pass makes of a level: an object that was there all the time is what a pass over it gives, one that an entry added is its default at its level, and presence and any other value are what the entries of the level give |
| DefaultsTwice.GateTwiceIsOnce | core/default_apply_core/src/lib.rs:43-171 | for such schemas at any depth, whose entries compare no object and add one only with a default that settles, applying the gate twice gives the data of applying it once |
| DefaultsLimits.RawDefaultIsNotIdempotent | core/default_apply_core/src/lib.rs:58-142 | an entry adds an object whose default lacks what the object requires: applying twice differs from once |
| DefaultsLimits.ComparedObjectIsNotIdempotent | core/default_apply_core/src/lib.rs:112-171 | an entry compares an object whose own entry adds a field to it: applying twice differs from once |
| Scripts.IdempotentIffSettled | core/default_apply_core/src/lib.rs:284-454 | running any list of additions and removals at any paths twice is running it once on all data if and only if, for each field that is never removed, at every depth, what the list makes out of nothing it leaves alone when it runs again |
| Scripts.ReadySettles | core/default_apply_core/src/lib.rs:284-454 | that holds when every default added is left as it is by the earlier commands inside its field |
| DefaultsScript.IfDecidesSame | core/default_apply_core/src/lib.rs:178-277 | a condition, flat or across sections, decides alike on two data that show no difference at the paths it looks at: a path that must lead to something, a group that must be an object, a field that must be there, or a value that is compared |
| DefaultsScript.GateIsScript | core/default_apply_core/src/lib.rs:43-454 | on every schema and all data, conditionals across sections included, the gate runs the commands of the unconditional pass and of the branches taken, in order |
| DefaultsScript.TwiceIfSameBranches | core/default_apply_core/src/lib.rs:43-454 | on every schema, for data on which each entry takes the same branch in the second pass and the commands are settled, applying the gate twice gives the data of applying it once |
| DefaultsScript.ConsistentTwice | core/default_apply_core/src/lib.rs:43-454 | when no entry at any depth looks at what it or a later entry may change, in its own or another section, and defaults are ready for the commands before them, applying the gate twice gives the data of applying it once on all data |
| DefaultsOneJob.IfStillMatches | core/default_apply_core/src/lib.rs:178-277 | a condition, flat or across sections, that compares no object and holds on some data holds on all data with more fields |
| DefaultsOneJob.OneJobTwiceIffNoFlip | core/default_apply_core/src/lib.rs:43-454 | a schema with one conditional, at any depth and across sections, that compares no object and whose defaults are ready for the commands before them: on any data applying twice gives the data of applying once if and only if the conditional does not strip first and hold once what it stripped is filled in again |
| DefaultsAcross.AcrossIsConsistent | core/default_apply_core/src/lib.rs:781-871 | a conditional that gives or forbids a field of one section by a value in another, as in the example of the original, meets that condition, whatever the values and the non-empty names of two different sections |
| DefaultsAcross.AcrossResult | core/default_apply_core/src/lib.rs:781-871 | what the gate makes of any data with both groups of that example: the switch is filled in if absent, the field at the other end is filled in or stripped by whether the switch equals the constant, and nothing else changes |
| DefaultGate.ReportAppend | core/default_apply_core/src/lib.rs:15-36 | the report lists of consecutive edits are the lists put together |
| DefaultGate.ReportMeaning | core/default_apply_core/src/lib.rs:15-36 | the report has path, field and value of each addition in one list and path and field of each removal in the other, in order |
| DefaultGate.Applier.constructor | core/default_apply_core/src/lib.rs:43-48 | starts with the data and an empty report |
| DefaultGate.Applier.InjectRequiredDefaults | core/default_apply_core/src/lib.rs:284-312 | adds the missing required defaults of one object and reports each |
| DefaultGate.Applier.ApplyUnconditionalDefaults | core/default_apply_core/src/lib.rs:58-107 | the recursive pass with its report is the pass as a function |
| DefaultGate.Applier.ApplyFlatThen | core/default_apply_core/src/lib.rs:315-333 | a flat `then` injects at the object of the entry |
| DefaultGate.Applier.ApplyCrossSectionThen | core/default_apply_core/src/lib.rs:336-347 | a `then` with `properties` works from the root |
| DefaultGate.Applier.ApplyNestedThen | core/default_apply_core/src/lib.rs:350-378 | descends to each object that has `required` and injects there with the defaults of the root schema |
| DefaultGate.Applier.ApplyElseStrip | core/default_apply_core/src/lib.rs:383-417 | chooses between stripping at the object of the entry and stripping from the root |
| DefaultGate.Applier.StripNestedElse | core/default_apply_core/src/lib.rs:420-454 | strips each field marked `false`, at any depth |
| DefaultGate.Applier.ProcessAllOfEntries | core/default_apply_core/src/lib.rs:112-142 | evaluates and applies the entries in order, each on the data the earlier ones left |
| DefaultGate.Applier.WalkPropertiesForAllOf | core/default_apply_core/src/lib.rs:145-171 | visits nested object schemas depth first |
| DefaultGate.Applier.ApplyConditionalDefaults | core/default_apply_core/src/lib.rs:43-52 | the data and both report lists are those of the gate function, and replaying the edits on the old data gives the new data |
| XmlText.EscapeIsEach | core/format_core/src/serialize.rs:206-218 | the chained replacements escape character by character |
| XmlText.EscapeRoundTrip | core/format_core/src/serialize.rs:206-218 | unescaping the predefined entities (section 4.6 of XML 1.0) inverts both escapes on every text |
| XmlText.UnescapeMeaning | core/format_core/src/parse.rs:73-87 | five entity names stand for characters, and no other does; text without `&` stands for itself |
| XmlText.EscapeKeepsTrimmed | core/format_core/src/serialize.rs:206-211 | escaping adds no space at either end, so a trimming reader loses nothing |
| XmlLayout.ScalarText | core/format_core/src/serialize.rs:136-161 | the text of strings, numbers, booleans and null |
| XmlLayout.ArrayText | core/format_core/src/serialize.rs:118-133 | an array is its items one after the other under the same name |
| XmlLayout.IndentMeaning | core/format_core/src/serialize.rs:142 | two spaces for each level |
| XmlLayout.MembersMeaning | core/format_core/src/serialize.rs:82-133 | keys with `@` are attributes, the last `#text` with a string is the text, everything else is a child |
| XmlLayout.ChildrenText | core/format_core/src/serialize.rs:118-133 | the children are written one after the other, and nothing for the other members |
| XmlLayout.ObjectText | core/format_core/src/serialize.rs:169-203 | the text of an object in its three forms |
| XmlLayout.DocumentText | core/format_core/src/serialize.rs:45-76 | the text of a document, and which values have none |
| XmlReadBack.AttrsParse | core/format_core/src/parse.rs:73-87 | the attributes written parse back to their texts, whatever the values |
| XmlRoundTrip.AddGrouped | core/format_core/src/parse.rs:183-203 | siblings of a new name become nothing, a value or an array, by their number |
| XmlRoundTrip.ObjectBack | core/format_core/src/parse.rs:161-206 | attributes, text and grouped children are put together to the fields read one by one |
| XmlReadBack.BodyReads | core/format_core/src/parse.rs:92-153 | what is written after a start tag is read as the element says, up to the line feed after it, for every string and object |
| XmlReadBack.EscapedReads | core/format_core/src/parse.rs:92-153 | a text inside layout is read without its own layout, and not at all when nothing else is left |
| XmlReadBack.PrintsAlike | core/format_core/src/serialize.rs:136-167 | null, booleans and numbers print and read like an empty object and like strings |
| XmlReadBack.ElementReads | core/format_core/src/serialize.rs:136-203 | every value written inside a parent is read as its elements, layout vanishing: one, or for an array those of its items |
| XmlRoundTrip.BackIffNormal | core/format_core/src/parse.rs:161-206 | a value that is no array is read back as it was if and only if it is in normal form |
| XmlRoundTrip.ArrayIffNormal | core/format_core/src/parse.rs:183-203 | an array is read back as it was if and only if it has at least two items and all are in normal form |
| XmlRoundTrip.XmlRoundTrips | core/format_core/src/serialize.rs:45-73 | for every document with distinct keys, parsing the printed text returns an equal value if and only if the document is in normal form |
| XmlRoundTrip.PrintingMerges | core/format_core/src/serialize.rs:136-167 | outside the normal form different values print alike: singleton and empty arrays, null, booleans and numbers |
| XmlContent.ContentIsRead | core/format_core/src/parse.rs:92-153 | whatever stands between the tags of an element, texts, CDATA, comments and elements in any order: its elements in order, and as text all its texts put together, or none if they are all empty |
| XmlContent.BadContentFails | core/format_core/src/parse.rs:92-153 | a missing or another closing tag, a text or attributes that cannot be decoded, and an error of the reader make the content unreadable |
| XmlContent.AttributesMeaning | core/format_core/src/parse.rs:73-87 | attributes are read in order under their names with `@`, exactly when no name is repeated and every value can be decoded |
| XmlContent.DocumentIsRead | core/format_core/src/parse.rs:26-69 | a document is declarations and comments and then one element; what follows it is not read |
| XmlContent.BadDocumentFails | core/format_core/src/parse.rs:26-69 | anything else at the root is an error |
| XmlIo.Writer.Classify | core/format_core/src/serialize.rs:83-107 | splits an object into attributes, the last `#text` string and children, in order |
| XmlIo.Writer.WriteElement | core/format_core/src/serialize.rs:136-167 | appends exactly the pieces of the element to the output |
| XmlIo.Writer.WriteObject | core/format_core/src/serialize.rs:170-203 | appends exactly the pieces of an object, in its three forms |
| XmlIo.WriteDocument | core/format_core/src/serialize.rs:45-73 | accepts exactly a root object with one non-attribute key, and what it writes parses back to the value exactly for normal documents |
| XmlIo.BuildXmlElement | core/format_core/src/parse.rs:161-206 | inserts attributes, text and grouped children as the value function says |
| XmlIo.Reader.ReadElement | core/format_core/src/parse.rs:92-118 | reads one element, the failing cases included, and leaves the events after it |
| XmlIo.Reader.ReadChildren | core/format_core/src/parse.rs:92-153 | reads up to the closing tag, with the error cases of the parser |
| XmlIo.Reader.ReadDocument | core/format_core/src/parse.rs:37-70 | skips declaration and comments and reads the root element |
| Toml.ConvertToToml | core/format_core/src/serialize.rs:433-462 | the filling loops return the converted value, or the error of the first null |
| Toml.ConvertsIffNullFree | core/format_core/src/serialize.rs:433-462 | conversion fails exactly on values that contain a null |
| Toml.ConversionError | core/format_core/src/serialize.rs:428-450 | the error of a failed conversion is that of a null |
| Toml.TomlRoundTrip | core/format_core/src/parse.rs:212-234 | JSON to TOML and back is the identity exactly when every integer fits 64 signed bits |
| Toml.NullPathsAreExact | core/format_core/src/convert.rs:242-271 | the paths found are exactly the paths that lead to a null |
| Toml.NullPathsIffFails | core/format_core/src/convert.rs:202-239 | there is a path to list exactly when conversion fails |
| Toml.NullPathsCount | core/format_core/src/convert.rs:242-271 | there is one path for each null |
| Toml.ShowMeaning | core/format_core/src/convert.rs:242-271 | a path is shown with dots between keys and positions in brackets, and the root by a word of its own |
| Toml.FindNullPaths | core/format_core/src/convert.rs:242-271 | the pushing recursion returns the dotted texts of those paths, in order, with the special cases of an empty prefix |
| Toml.StripMeaning | core/format_core/src/convert.rs:172-192 | nulls go from objects and arrays, and everything else stays in order, stripped itself |
| Toml.StripRemovesNulls | core/format_core/src/convert.rs:172-192 | stripping a value that is not null removes every null, changes nothing exactly when there was none, is idempotent, and makes the value convertible |
| Hold.DownCombo | capability/keystroke_io/src/lib.rs:100-116 | pressing a combo puts exactly its keys down, releasing lifts exactly them, whatever was down before |
| Hold.KeysFollowGrip | capability/keystroke_io/src/lib.rs:202-249 | for every sequence of commands and timeouts, taps included, the keys down are those of the grip, and none is down without a hold or after the exit |
| Hold.HoldIsWholeCombo | capability/keystroke_io/src/lib.rs:202-249 | for every sequence of commands and timeouts, said of the commands alone: when the worker runs and holds, and which keys are down; with a modifier a hold shows the whole combo if and only if no tap came since the start that began it |
| Hold.TapBreaksHold | capability/keystroke_io/src/lib.rs:219-232 | a tap during a hold lifts every key although the worker still holds |
| Hold.ModifiersStayHeld | capability/keystroke_io/src/lib.rs:119-122 | a key pressed while down is always the main key if and only if the combo has no modifier or no tap was the first of a hold |
| HoldKeys.EventsMeaning | capability/keystroke_io/src/lib.rs:100-249 | the key events one by one, for every sequence: a start outside a hold presses the modifiers in order and the key, a stop in a hold releases the key and the modifiers in reverse, a tap does both, a timeout in a hold presses the key, the end releases all, and anything else adds nothing |
| HoldMic.RelayMeaning | daemons/relay_mic_to_voice/src/main.rs:287-376 | for every run until the relay quits, said of the mute changes alone: it records if and only if the last change was an unmute, it holds if and only if moreover a terminal was focused at the first unmute since the last mute, and it sent a start for each such unmute and a stop for the mute that ended it |
| HoldMic.QuitMeaning | daemons/relay_mic_to_voice/src/main.rs:322-347 | quitting stops the hold, if there is one, and then shuts down |
| HoldRelay.RelayStepKeeps | daemons/relay_mic_to_voice/src/main.rs:287-316 | every step keeps: the relay holds only while recording, its commands alternate and end as its own flag says, and a shutdown is last |
| HoldRelay.WorkerStepKeeps | capability/keystroke_io/src/lib.rs:202-249 | every step keeps: the worker's flag is the one asked for by the commands taken, and it runs until it takes the shutdown |
| HoldRelay.ChannelOutlivesRelay | capability/keystroke_io/src/lib.rs:193-200 | the worker never sees the channel hang up: it takes the shutdown first |
| HoldRelay.EveryRunIsSafe | daemons/relay_mic_to_voice/src/main.rs:287-376 | in every interleaving of relay, channel and timeouts: commands alternate, a worker that drained the channel agrees with the relay, the keys down are exactly the combo while it holds, and only the main key is re-pressed |
| HoldRelay.QuitReleasesEverything | daemons/relay_mic_to_voice/src/main.rs:322-347 | after the relay quit, the worker runs exactly as long as it has a command to take, and then no key is down |
| HoldRelay.RecordingState.StartRecording | daemons/relay_mic_to_voice/src/main.rs:293-305 | records always, and holds when the terminal has focus |
| HoldRelay.RecordingState.StopRecording | daemons/relay_mic_to_voice/src/main.rs:307-315 | sends a stop exactly when holding and clears both flags |
| HoldRelay.RecordingState.OnMic | daemons/relay_mic_to_voice/src/main.rs:349-376 | a mute change does what the relay step says |
| HoldRelay.RecordingState.Run | daemons/relay_mic_to_voice/src/main.rs:322-347 | a whole run of the relay sends the commands of the modelled run that ends by quitting |
| HoldRelay.Keyboard.PressAll | capability/keystroke_io/src/lib.rs:100-105 | presses the modifiers in order and then the key |
| HoldRelay.Keyboard.ReleaseAll | capability/keystroke_io/src/lib.rs:108-116 | releases the key and then the modifiers in reverse |
| HoldRelay.Keyboard.RunWorker | capability/keystroke_io/src/lib.rs:202-249 | the worker thread makes the modelled run on what it receives, and an exited worker leaves no key down |
| Session.LinesOfFile | capability/write_engine/src/lib.rs:376-387 | lines appended to a log are the lines read back |
| Session.LastLineOfFile | capability/session_io/src/lib.rs:52-59 | the last line read is the last line appended, and there is none exactly in an empty log |
| Session.LastNonBlankMeaning | capability/session_io/src/lib.rs:52-59 | of any file the last line is read that is not blank |
| Session.ClassifyMeaning | core/intercept_core/src/lib.rs:54-72 | a request with tools is a compaction exactly when its one tool is `Read`, a main exchange exactly when one of four named tools is among them, and of no kind exactly without tools |
| Session.DroppedAtLatest | capability/session_io/src/lib.rs:79-86 | the main log starts at the last main exchange before the latest effective compaction |
| Session.KeptSnoc | capability/session_io/src/lib.rs:79-127 | one more request appends to the main log, keeps its last line, or leaves it |
| Session.RoutedHolds | daemons/bifrost_proxy/src/main.rs:261-284 | routing one more request keeps every log the function of the history that it is |
| Session.InjectAdds | core/compaction_inject_core/src/lib.rs:15-28 | the rewritten request has one more system block at the end and is otherwise the same, keys in the same order, with the same classification; it fails exactly without a system array |
| Session.AnswerMeaning | daemons/bifrost_proxy/src/main.rs:243-284 | an error of validation or rewriting is passed on, a compaction is answered with its rewritten text, and everything else is left as it is |
| Session.SessionDir.CapturePrecompaction | capability/session_io/src/lib.rs:63-76 | appends the last main line to the snapshots and returns its number, or does nothing on an empty log |
| Session.SessionDir.TruncateMain | capability/session_io/src/lib.rs:79-86 | keeps only the last line |
| Session.SessionDir.RecordCompaction | capability/session_io/src/lib.rs:93-127 | snapshot, log and truncation, with line 0 when there was nothing to snapshot |
| Session.SessionDir.Route | daemons/bifrost_proxy/src/main.rs:237-284 | a body that is not UTF-8 is refused and nothing logged; otherwise raw log first, then the log of the kind, and the answer: nothing to rewrite, the rewritten request, or the error |
| Session.SessionDir.Intercept | daemons/bifrost_proxy/src/main.rs:227-285 | over every history of bodies of UTF-8: raw, subagent and compaction logs are the projections, the main log is the suffix not dropped, snapshot k is the last main exchange before the k-th effective compaction, and k is returned; a body that is not UTF-8 changes nothing |
| Grouping.GateIgnoresOverrides | core/syn_core/src/lib.rs:96-127 | in gate mode overrides change no visible issue |
| Visibility.FilterDecides | core/syn_core/src/lib.rs:96-127 | in gate mode, and without overrides, the configured filter decides alone |
| Visibility.OverridesDecide | core/syn_core/src/lib.rs:96-152 | in report mode overrides decide alone: the tool unless it is `all`, a severity at least that of the level in the order info, warning, error, blocked, the custom filter and the code, as far as given |
| Visibility.AllIssuesMeaning | core/report_render_core/src/lib.rs:41-67 | all issues of all reports in order, each with the file of its report |
| Visibility.GroupMeaning | core/report_render_core/src/lib.rs:41-95 | a group holds exactly the issues of its tool and code, in order, and counts their files |
| Visibility.DenyMeaning | core/syn_core/src/lib.rs:154-158 | something is denied exactly when a visible issue matches the filter |
| Grouping.AddIssue | core/report_render_core/src/lib.rs:49-80 | one more issue keeps the index and the partial groups exact |
| Grouping.FileCountIsExact | core/report_render_core/src/lib.rs:69-74 | the file names sorted, without equal neighbours and counted are the number of different files |
| FileNames.CountIsExact | core/report_render_core/src/lib.rs:69-74 | the same for any names |
| Grouping.GroupIssues | core/report_render_core/src/lib.rs:41-95 | groups are sorted by distinct keys, each holds exactly the issues of its key in report order with the number of distinct files, and the counts add up to all issues |
| Grouping.ApplyFilters | core/syn_core/src/lib.rs:129-177 | the groups are those of exactly the visible issues; denial exactly in gate mode with a visible deny match, allowance exactly when nothing is visible |
| Grouping.TotalSort | core/report_render_core/src/lib.rs:97-99 | sorting does not change the total |
| Wrap.GreedyWraps | core/report_render_core/src/lib.rs:141-164 | greedy wrapping keeps the words in order and exceeds a width only with a single word |
| Wrap.GreedyIsShortest | core/report_render_core/src/lib.rs:141-164 | no wrapping with the same first and rest width has fewer lines |
| Wrap.JoinMeaning | core/report_render_core/src/lib.rs:141-164 | a line is its words with one space between |
| Wrap.WrapAdaptive | core/report_render_core/src/lib.rs:141-164 | the loop returns the joined greedy lines, one empty line for no words |
| LineLists.CollapsedReads | core/report_render_core/src/lib.rs:166-183 | the lines can be read back from the text of any runs |
| LineLists.PartText | core/report_render_core/src/lib.rs:166-183 | a run is its line in decimal, and behind a slash how often it comes unless that is once |
| LineLists.CollapseLineNumbers | core/report_render_core/src/lib.rs:166-183 | the text is that of maximal runs of the lines, and reading it gives the lines |
| LineLists.SplitRows | core/report_render_core/src/lib.rs:400-422 | rows are the bracketed list cut after commas and no wider than there is room; a first part without room for itself gets an extra comma |
| LineLists.FormatFileLocation | core/report_render_core/src/lib.rs:378-430 | for 64-bit numbers the rows together are the bracketed list, fit the width, stand beside the file exactly when they fit there, and give the lines back |
| Batches.ComputeBatches | dispatchers/split_jsonl_batches/src/main.rs:70-98 | sizes sum to the total within the maximum, are the fewest possible, and lie within both limits exactly when some split does; then they are even, larger first, otherwise only the last is too small |
| Batches.EvenBatches | dispatchers/split_jsonl_batches/src/main.rs:81-87 | the even distribution meets both limits and differs by at most one, larger first |
| Batches.SplitLines | dispatchers/split_jsonl_batches/src/main.rs:153-174 | the batches written are the lines cut into pieces, in order, as few as possible |
| Calendar.OrderOfTimes | core/time_core/src/lib.rs:7-37 | the independent day count orders valid times as their parts do and identifies them |
| Calendar.NextSecondCounts | core/time_core/src/lib.rs:7-46 | from the first second of 1970 on, the count goes on by one for each second of the Gregorian calendar |
| Calendar.EpochToParts | core/time_core/src/lib.rs:7-37 | the result is the one valid Gregorian time that the day count maps back to the second |
| Calendar.IsoTextOrder | core/time_core/src/lib.rs:54-57 | through year 9999 later seconds give greater text |
| Calendar.IsoTextMeaning | core/time_core/src/lib.rs:54-57 | the text is `YYYY-MM-DDTHH:MM:SSZ`, each field in decimal filled up with zeros |
| Calendar.IsoZulu | core/time_core/src/lib.rs:54-57 | the text is the one of that time |

## Left out

- SseSideLog.SideLogIsPerBlock: entries are texts; their timestamps and session fields are not modelled, and indices are unbounded where the original has 64 bits.
- SseProxy.Interceptor.Serve: a receiver that closes does so after a number of sends; the channel's capacity and waiting are not modelled.
- SseRerun.RerunIsIdentity: an event's data is compared through the serializer; how it writes numbers, strings and spaces is a parameter.
- DepWalk.WalkIsTopological: is about limits that cut at no importer; for others `DepCut.EvenCutIsExact` has a condition that is sufficient for the order, and no exact one.
- SseProxy.SecondPassIsIdentity: that the serializer writes one line of UTF-8 is a hypothesis, since `serde_json` is not part of this model.
- SseProxy.SettledSecondPass: moreover assumes that the values of the stream are read back as they were written, which may fail for a float.
- DepWalk.WalkIsExact: the target's source is what the reader returns for its path, and reading or parsing does not change during a walk.
- DepResolve.Resolver.ResolveDependencies: module names are already resolved to files, and the symbols an import takes are a parameter; whether a direct dependency appears with full bodies in hybrid mode is not claimed, since the first extraction wins.
- Zones.GovernedGraphs: the classification of a file is a parameter; path patterns are not modelled.
- Defaults.ReportIsExactLog: paths are sequences of object keys. Keys with `/` or `~`, and numeric segments into arrays, are outside the model, because the original joins keys without the escapes of section 3 of RFC 6901.
- DefaultGate.Applier.ApplyConditionalDefaults: a schema is given by the parts the code reads; value summaries and reason strings of the report are not modelled, and `serde_json` objects are equal whatever the order of their keys.
- DefaultsTwice.GateTwiceIsOnce: is about conditionals among siblings; those across sections are in `DefaultsScript`.
- DefaultsScript.ConsistentTwice: its condition is sufficient; which schemas with several entries break it and are still idempotent on all data is not said.
- XmlText.EscapeRoundTrip: numeric character references are not part of `Unescape`; the printer writes none.
- XmlRoundTrip.XmlRoundTrips: the way back, from XML to value to XML, is not claimed, nor which names a conforming lexer accepts.
- XmlIo.Reader.ReadChildren: tokens are what the XML library reports; its own errors are one token.
- Toml.TomlRoundTrip: numbers are exact reals, so the rounding of large integers to floats and the text of floats are not modelled.
- HoldRelay.EveryRunIsSafe: focus, hush, the recording lock and the speech queue are inputs or absent; keyboard failures are not modelled.
- Session.SessionDir.Intercept: the result of schema validation is given with the request, the datagram is left out, requests of one session come one at a time, file errors are not modelled, and a stored line is one that the serializer wrote, without a line feed and not blank.
- Grouping.ApplyFilters: signal, direction and canary texts of a group are not carried.
- Wrap.WrapAdaptive: the text is given as its words.
- LineLists.FormatFileLocation: padding, gutter and colour around the rows are not modelled.
- Calendar.EpochToParts: integers are unbounded.
- White space is that of ASCII where the original trims strings, and that of section 2.3 of XML 1.0 where the XML reader trims.
- HTTP, TLS, upstream forwarding, signals, watchers, links and databases: input and output around the cores.
- JSON, YAML, TOON and regular-expression parsing, tree-sitter, jq filters and JSON Schema validation: libraries.
- `drain_queue`: its read and delete are two steps, so nothing is conserved against a concurrent writer.
- `civil_date`, `groups_to_json`, markdown output and the path, diff and saga helpers: not modelled.
