# Jhin: models and proofs

A Dafny model of eight parts of Jhin and proofs of what they promise. Each module takes the form of
the code it models: code that fills dictionaries, moves cursors or updates refs is a method with loops
or a class, proved against a specification function; code made of expressions is a set of functions.
The theorems are lemmas about the specification functions. `dafny verify dfyconfig.toml` checks the whole
project.

* **OpenAPI compatibility** (`OpenApi*.dfy`). `Flatten` expands a possibly cyclic schema into leaf
  fields, `ReadSurface` reads a document, `Compare` labels the differences of two documents. The leaf
  fields of a schema are defined as a set of contributions, one for every way down to a path; the
  dictionary is their join. Reading enum values finishes on every component exactly when the union
  references are acyclic. A comparison without a breaking change is then an order: reflexive,
  transitive through a document without recursion markers, blind to the order of lists, and such that
  every accepted call stays accepted where what is not compared is kept. `OpenApiTypes`, `OpenApiTrails`,
  `OpenApiDeclared` and `OpenApiReports` say the same things from the document alone: which chain of union
  members declares a type name, which trail of parts leads to a field, which declaration is described, and
  under which condition each kind of change is reported. Schema objects and security requirements follow the OpenAPI
  Specification 3.1.0, sections 4.8.24 and 4.8.30. `OpenApiWitnesses` holds the small documents for the
  exact conditions.
* **Conversation journal** (`EventStream*.dfy`, `Journal*.dfy`). The incremental reader of a
  server-sent event stream (WHATWG HTML, sections 9.2.5 and 9.2.6, LF and CRLF only) gives the same
  events however a text is cut, and reads back what was printed; each event is that of the lines of its
  frame (`EventStreamFrames`). The last-writer merge makes all
  clients that saw the same items show the same list, and agrees with the acceptance script's
  overwriting replay exactly when no id ends below its highest revision.
* **Transcript** (`Transcript.dfy`, `Parties.dfy`, `Timeline*.dfy`, `Grouping.dfy`, `ExchangeRows.dfy`,
  `Drafts*.dfy`, `Projection*.dfy`). Merging, grouping into quiet exchanges, hiding answered drafts and
  marking days neither lose nor repeat an item. Which messages are quiet, who stands on their two sides,
  which chips, drafts, sessions and files are shown, and with which records, is said from the messages and
  entries themselves.
* **Durations** (`Durations.dfy`). The two labels of a duration name the same quantity.
* **Markdown** (`Markdown*.dfy`). Link safety, the inline tokeniser, and the block parser. The
  tokeniser is generic in its pattern (`MarkdownScan`, `MarkdownScanLaws`), and the block parser in its
  line rules and its inline reader (`MarkdownBlocks`); `MarkdownInline`, `MarkdownLines` and `Markdown`
  supply those of the application.
* **Structural dominance** (`Dominance*.dfy`). The audit's check that a definition dominates a use is
  sound against the executions of a language of statement lists, if, loops, try and with.
* **Editorial evidence** (`Editorial*.dfy`). The acceptor of review traces, and the story of hand-offs,
  drafts, decisions and publications that every accepted trace tells, and what its report vouches for.
* **Device polling** (`DevicePoll.dfy`). The backoff of section 3.5 of RFC 8628 over whole runs.

`Basics`, `Sorting`, `Selection`, `TextLines` and `Whitespace` hold what several modules share.

Results where the code differs from what it or its documentation says, each stated exactly:

* Compatibility composes through a document exactly when it has no recursion markers
  (`OpenApiRetyped.CompatibilityComposesExactly`; the smallest documents are in
  `OpenApiWitnesses.MarkersHideATypeChange`), and keeps payloads exactly when no marker hides a type that
  was dropped (`OpenApiPayloads.SubstitutableExactlyWhenMarkersKept`, `OpenApiWitnesses.MarkerRefusesOldBody`).
* The root field of a schema is flattened and never compared (`OpenApiRoot.RootNeverCompared`,
  `OpenApiWitnesses.RootRefusesOldBody`); bodies with a value there stay valid exactly when its types and
  enum are kept (`OpenApiPayloads.BodiesKeptExactlyWhenRootKept`).
* A comment justifies reporting no wider type by the old values, which all stay valid. That serves who
  sends them; what is read may be new: responses hold only values known before exactly when no field was widened
  (`OpenApiPayloads.ReaderKeepsValuesExactly`, `OpenApiWitnesses.ReaderMeetsNewValue`).
* A comment says that unions relax what their members require. The `required` that a member is given
  reaches only its root, which is left out (`OpenApiFlatten.RequiredReachesOnlyTheRoot`), so a field is
  required as soon as all members that have it require it (`OpenApiRoot.UnionRequires`,
  `OpenApiWitnesses.UnionFieldRequired`).
* Frames, events and rest of an event stream depend on the cuts exactly when it holds CR CR LF
  (`EventStreamChunks.FramesInvariantExactly`, `EventStreamChunks.StreamInvariantExactly`,
  `EventStreamCuts.EventsDependOnTheCut`).
* Overwriting by sequence and the client's merge agree exactly when no id ends below its highest revision
  (`JournalConvergence.OverwriteNewestExactly`, `JournalConvergence.ClientAgreesWithOverwrite`); a revision
  that falls makes them differ (`JournalConvergence.FallingRevision`).
* A relative link is documented to point back at the application. An accepted one names another host
  exactly when it starts with a slash and a backslash (`MarkdownInline.AcceptedGoes`,
  `MarkdownInline.BackslashNamesHost`).
* The backoff misses a `slow_down` when two in a row are stored at the same millisecond
  (`DevicePoll.BackoffExactly`). A client meets that only when its clock is set back
  (`DevicePoll.ClockSeparates`, `DevicePoll.SetBackPollsTooSoon`).
* The key of a pair of agents joins their two keys with a bar. A pair shares its key with no other one exactly
  when its text can be split in order at one bar only, as it can when neither key holds one
  (`Parties.UnmistakableExactly`, `Parties.KeysExactly`); with a bar two pairs share one
  (`Parties.BarsConfusePairs`).
* The compact label is documented as never more than six characters; that holds exactly below 100,000
  days (`Durations.SixCharactersExactly`, `Durations.SevenCharacters`).

## Model

| member | source | states |
|---|---|---|
| OpenApiSchema.ReadEnum | scripts/openapi_snapshot.py:135-157 | the loops over both unions compute the enum of a schema: its own values, its constant, or those of all members that have some; none when no member does |
| OpenApiSchema.UnionValues | scripts/openapi_snapshot.py:140-157 | a schema without own values has an enum exactly when some member has one, and then a value is in it exactly when some member offers it |
| OpenApiSchema.MemberHalts | scripts/openapi_snapshot.py:146-150 | every recursive enum call on a member finishes, at a strictly smaller depth than the call it is made from |
| OpenApiSchema.TerminationIsAcyclicity | scripts/openapi_snapshot.py:135-157 | reading enums finishes on every component of a document if and only if its anyOf/oneOf references have a rank that falls along them |
| OpenApiSchema.EverySchemaHalts | scripts/openapi_snapshot.py:135-157 | when the components halt, so does every schema written anywhere else, in a parameter or a body |
| OpenApiTypes.NamesByChains | scripts/openapi_snapshot.py:113-132 | a name is among the type names of a schema exactly when some chain of union members, each without a type of its own and the next one a member of its first union with members, ends in a schema that says the name itself, a member that lists none saying "unknown" |
| OpenApiTypes.UndeclaredExactly | scripts/openapi_snapshot.py:119-132 | a schema without its own type has exactly the names that the members of the first union that adds any add, "unknown" for a member that declares none; without such a union it is an object when it has properties or a reference, and anything otherwise |
| OpenApiTypes.ClosedByChains | scripts/openapi_snapshot.py:135-157 | a schema has an enum exactly when some chain of union members, references followed, ends in a schema with an enum or a constant |
| OpenApiTypes.ValuesByChains | scripts/openapi_snapshot.py:135-157 | a value is in the enum of a schema exactly when some such chain ends in a schema that lists it, or whose constant it is when it lists none |
| OpenApiFlatten.EverySchemaReadable | scripts/openapi_snapshot.py:160-243 | when reading enums finishes on the components, flattening finishes on every schema, whatever references it follows |
| OpenApiFlatten.Flatten | scripts/openapi_snapshot.py:160-182 | wherever the enum of every schema it comes to can be read, on cyclic schemas too, the recursion ends and gives at each path the join of all contributions there, a recursion marker where a reference repeats; the measure is the references not yet seen, then the schema |
| OpenApiFlatten.FlattenBody | scripts/openapi_snapshot.py:184-243 | the dictionary filled for one schema is that of its own field, its properties, items, extra properties and union members together |
| OpenApiFlatten.FlattenProperties | scripts/openapi_snapshot.py:188-203 | updating the dictionary with every property's fields adds exactly the leaves below their names, required when the name is listed |
| OpenApiFlatten.FlattenChild | scripts/openapi_snapshot.py:205-211 | updating with the fields of items or of additional properties adds exactly the leaves below that segment, and overwrites nothing |
| OpenApiFlatten.FlattenMembers | scripts/openapi_snapshot.py:213-241 | merging the members of a union gives the join of their leaves with what was there, their roots left out, and the same for whatever `required` the members are given |
| OpenApiFlatten.RequiredReachesOnlyTheRoot | scripts/openapi_snapshot.py:213-241 | a schema flattened as required and as optional has the same leaves below its root |
| OpenApiRoot.UnionRequires | scripts/openapi_snapshot.py:184-243 | a field below any schema, whatever stands beside its union, is required if and only if its own contributions are and every contribution of a union member is; a member without the field does not relax it, and neither does the `required` the members are given |
| OpenApiWitnesses.UnionFieldRequired | scripts/openapi_snapshot.py:213-241 | an anyOf whose one member has a required property gives a required field |
| OpenApiFlatten.MergeMember | scripts/openapi_snapshot.py:229-241 | one member's fields are joined into the dictionary path by path, skipping the prefix |
| OpenApiFlatten.JoinUnion | scripts/openapi_snapshot.py:126-253 | merging two dictionaries' fields at a path is joining their contributions: types and enums unite, required means required by all, an absent enum is neutral |
| OpenApiFlatten.CollectIn | scripts/openapi_snapshot.py:184-243 | a path is a key of the flattened dictionary exactly when some leaf lies there, and holds the join of all of them |
| OpenApiTrails.LeavesAreTrails | scripts/openapi_snapshot.py:160-243 | a schema contributes exactly what its trails end in: a trail goes from part to part, follows no reference twice, and arrives at a property, items or additional properties |
| OpenApiTrails.FieldPresent | scripts/openapi_snapshot.py:160-243 | a path has a field exactly when some trail leads to it |
| OpenApiTrails.FieldTypes | scripts/openapi_snapshot.py:160-243 | the types of the field at any path are exactly the names that the ends of the trails to it declare, the recursion marker for a reference met again |
| OpenApiTrails.FieldRequired | scripts/openapi_snapshot.py:188-211 | a field is required exactly when the last step of every trail to it says so: a property its owner lists, or items, and never additional properties |
| OpenApiTrails.FieldEnum | scripts/openapi_snapshot.py:160-253 | a field has an enum exactly when the end of some trail to it has one, and then of exactly the values these list |
| OpenApiTrails.RootField | scripts/openapi_snapshot.py:184-186 | the root field of a body has exactly the names that its schema declares |
| OpenApiStalks.LeavesAreTree | scripts/openapi_snapshot.py:160-243 | the leaves of any schema form a tree: with a path every path above it is there, and the field of a free-form map is never required |
| OpenApiStalks.StalkWidens | scripts/openapi_snapshot.py:160-253 | flattening a schema together with one that has a single field at a path, in an allOf, adds that field's type at the path and changes nothing else |
| OpenApiReorder.LeavesReordered | scripts/openapi_snapshot.py:160-243 | schemas that are alike up to the order of their lists, at every level, have the same leaves |
| OpenApiReorder.EnumReordered | scripts/openapi_snapshot.py:135-157 | such schemas have the same enum values, and reading one finishes when reading the other does |
| OpenApiReorder.TypeNamesReordered | scripts/openapi_snapshot.py:113-132 | such schemas have the same type names |
| OpenApiPermuted.PermutingLeavesFields | scripts/openapi_snapshot.py:113-243 | permuting properties, enum values, required names, type names or members of allOf, anyOf and oneOf, anywhere in a document, leaves every flattened field unchanged |
| OpenApiPermuted.PermutedCopyReportsNothing | scripts/openapi_snapshot.py:512-582 | comparing a document with such a copy of itself reports no change at all |
| OpenApiCompatibility.ReorderedCopyReportsNothing | scripts/openapi_snapshot.py:512-582 | the same for any pairing of schemas that are alike up to order and repetition |
| OpenApiSurface.DescribeParameters | scripts/openapi_snapshot.py:307-343 | the parameters of an operation are flattened below their location and name, the parameter's own field required as the parameter is, a later declaration of a path in place of an earlier one |
| OpenApiSurface.DescribeBody | scripts/openapi_snapshot.py:271-283 | a body is the flattened schema of its first JSON media type, and empty without one |
| OpenApiDeclared.ParametersExactly | scripts/openapi_snapshot.py:307-324 | a path is among the parameter fields exactly when some declared parameter has a field there, and the field is that of the last one that has |
| OpenApiDeclared.BodyExactly | scripts/openapi_snapshot.py:271-283 | a body has the fields of the schema of its first JSON media type, which is application/json or ends in +json, and none without one |
| OpenApiDeclared.ResponsesExactly | scripts/openapi_snapshot.py:326-331 | every declared status, and no other, is described, by the last response that has it |
| OpenApiDeclared.SecurityExactly | scripts/openapi_snapshot.py:286-304 | the alternatives are one for each entry, with its schemes and the scopes of each, in any order |
| OpenApiDeclared.DescribedExactly | scripts/openapi_snapshot.py:307-343 | each part of a described operation is read from its own part of the raw one |
| OpenApiDeclared.DocumentExactly | scripts/openapi_snapshot.py:346-363 | for every document and key: the key is in the surface exactly when some path item has its path and some published verb of it lower-cases to its verb, and it is described by the last such operation |
| OpenApiCompare.CompareFields | scripts/openapi_snapshot.py:388-484 | the loops over old and new fields report exactly the specified set of changes, with removed, retyped, newly required, narrowed and newly closed fields breaking, and a required field under a new optional parent not |
| OpenApiCompare.CompareSecurity | scripts/openapi_snapshot.py:487-509 | the changes of security are exactly the specified ones: breaking when an old alternative is gone or credentials are newly asked for |
| OpenApiCompare.CompareResponses | scripts/openapi_snapshot.py:512-582 | the changes of all response bodies and statuses, read in the direction of the reader |
| OpenApiCompare.Compare | scripts/openapi_snapshot.py:512-582 | two documents are read and compared: the changes reported are exactly those of their operations, parameters, requests, statuses, responses, security, ids and deprecation |
| OpenApiReports.FieldsReported | scripts/openapi_snapshot.py:388-484 | for any two bodies and any change: it is reported exactly when the condition of its kind holds of the two sides, with the names, types and values of these, and as breaking as its kind is |
| OpenApiReports.ReportedExactly | scripts/openapi_snapshot.py:512-582 | the same for any two surfaces, over operations, statuses, fields, security, ids and deprecation |
| OpenApiDeclared.RemovedExactly | scripts/openapi_snapshot.py:512-524 | an operation is reported as removed exactly when the old document declares it somewhere and the new one nowhere, and as new exactly the other way round |
| OpenApiWitnesses.NullableTypeChange | scripts/openapi_snapshot.py:119-127 | two documents in which a field that was a string or null becomes an integer or null: the type change is reported as breaking |
| OpenApiCompatibility.VerdictIsKept | scripts/openapi_snapshot.py:388-591 | a comparison has no breaking change if and only if everything published is kept: operations, fields, types, enums, required flags, statuses and callers |
| OpenApiRoot.RootNeverCompared | scripts/openapi_snapshot.py:403-405 | whatever fields stand at the two roots, the comparison reports the same changes and the same verdict |
| OpenApiWitnesses.RootRefusesOldBody | scripts/openapi_snapshot.py:403-405 | two documents whose request bodies are a string and an integer: no change is reported, and the old body is refused |
| OpenApiCompatibility.SurfaceUnchanged | scripts/openapi_snapshot.py:512-582 | comparing a surface with itself reports nothing |
| OpenApiCompatibility.FieldsTransitive | scripts/openapi_snapshot.py:381-484 | keeping fields composes through fields without a recursion marker, the optional new parent, open enums and required flags included |
| OpenApiCompatibility.TransitiveExactlyWithoutMarkers | scripts/openapi_snapshot.py:381-385 | keeping fields composes through given fields for all fields before and after if and only if none of the given ones is a recursion marker |
| OpenApiCompatibility.SurfaceTransitive | scripts/openapi_snapshot.py:388-582 | the same over whole surfaces, security alternatives included |
| OpenApiCompatibility.CompatibilityIsTransitive | scripts/openapi_snapshot.py:512-591 | if nothing breaks from a to b and from b to c, and b is free of markers, then nothing breaks from a to c |
| OpenApiRetyped.CompatibilityComposesExactly | scripts/openapi_snapshot.py:381-385 | for any document b: whenever nothing breaks from a to b and from b to c, nothing breaks from a to c, for all documents a and c, if and only if no field of b below a root is a recursion marker |
| OpenApiWitnesses.MarkersHideATypeChange | scripts/openapi_snapshot.py:381-385 | three documents, a field of a component being a string, the component itself, an integer: nothing breaks in either step, and something does over both |
| OpenApiPayloads.CompletenessKept | scripts/openapi_snapshot.py:388-484 | a payload with every field the old description owes, given its parents, has every field the new one owes |
| OpenApiPayloads.Substitutability | scripts/openapi_snapshot.py:388-484 | after a comparison without breaking changes every payload valid for the old fields is valid for the new ones, for any reading of values and any meaning of the markers, when no marker hides a type that was dropped |
| OpenApiPayloads.SubstitutableExactlyWhenMarkersKept | scripts/openapi_snapshot.py:381-385 | with markers read as the types they stand for, all payloads valid before stay valid if and only if no marker hides a dropped type |
| OpenApiWitnesses.MarkerRefusesOldBody | scripts/openapi_snapshot.py:381-385 | two documents, a field of a component being a string and then the component itself: nothing breaking is reported, and the old body is refused |
| OpenApiPayloads.BodiesKeptExactlyWhenRootKept | scripts/openapi_snapshot.py:403-405 | between compatible fields every body with a value at its root stays valid if and only if the types and the enum of the root are kept |
| OpenApiPayloads.ReaderKeepsPresence | scripts/openapi_snapshot.py:388-484 | a response field a reader could count on is still there in every complete new response |
| OpenApiPayloads.ReaderKeepsValuesExactly | scripts/openapi_snapshot.py:381-385 | every value at a shared field of every valid new response is one the old fields admit if and only if no shared field gained a type or a value |
| OpenApiWitnesses.ReaderMeetsNewValue | scripts/openapi_snapshot.py:381-385 | two documents, a response field being a string and then a string or null: nothing breaking is reported, and a valid response holds a value that the old fields do not admit |
| OpenApiPayloads.CallersKept | scripts/openapi_snapshot.py:487-509 | credentials that satisfied the old security satisfy the new one |
| OpenApiPayloads.CallsKeepWorking | scripts/openapi_snapshot.py:512-591 | after a comparison of two documents without breaking changes, every call accepted before, with its credentials, parameters and body, is accepted after, if what the comparison does not look at is kept: the root of the body and the types behind markers |
| EventStream.ConsumeEventFrames | apps/web/lib/agentic-chat.ts:53-72 | the nested loops read the complete frames of a buffer, in order, and leave the text after the last blank line as the rest |
| EventStreamFrames.ReadFrameExactly | apps/web/lib/agentic-chat.ts:57-70 | for every frame: without a line of the field data it dispatches nothing; otherwise one event, whose data joins the values of all data lines in their order, whose name is the value of the last event line or "message", and whose id is that of the last id line without NUL or empty |
| EventStreamFrames.EventsExactly | apps/web/lib/agentic-chat.ts:53-72 | the events of a buffer are one for each of its complete frames that carries data, in their order, each the event of the lines of its frame |
| EventStreamFrames.CutExactly | apps/web/lib/agentic-chat.ts:55-56 | frames and rest are the one division of the text into frames that end at their first blank line and a rest that holds none |
| EventStreamFrames.NormalizeExactly | apps/web/lib/agentic-chat.ts:54 | normalising drops the CR of every CR LF and nothing else |
| EventStreamChunks.Renormalize | apps/web/lib/agentic-chat.ts:53-72 | normalising a rest again together with the next chunk is normalising the whole, even when a cut falls inside CR LF, in texts without CR CR LF |
| EventStreamChunks.CutConcat | apps/web/lib/agentic-chat.ts:53-72 | cutting frames is greedy from the left: more text only continues from the rest |
| EventStreamChunks.ChunkInvariance | apps/web/lib/agentic-chat.ts:53-72 | for any text without CR CR LF and any way of cutting it, feeding each chunk after the previous rest gives the events and the rest of the whole text |
| EventStreamChunks.FramesInvariantExactly | apps/web/lib/agentic-chat.ts:53-72 | the frames of a text, and its rest, survive every way of cutting it if and only if it holds no CR CR LF |
| EventStreamChunks.StreamInvariantExactly | apps/web/lib/agentic-chat.ts:53-72 | at every point of a stream the events and the rest returned so far are those of reading it in one piece, however it was cut, if and only if the stream holds no CR CR LF |
| EventStreamCuts.EventsDependOnTheCut | apps/web/lib/agentic-chat.ts:53-72 | a text with CR CR LF and two cuts of it that give different events |
| EventStreamRoundTrip.RoundTrip | apps/web/lib/agentic-chat.ts:53-72 | printing any printable events and consuming the text gives the same events and an empty rest |
| EventStreamRoundTrip.RoundTripInChunks | apps/web/lib/agentic-chat.ts:53-72 | the same however the printed text is cut |
| Journal.MergeConversationItems | apps/web/lib/agentic-chat.ts:42-49 | the merge shows, sorted by creation time and id and each id once, the current items with every incoming item that is newer by (revision, sequence) in place |
| JournalConvergence.MergeShowsNewest | apps/web/lib/agentic-chat.ts:42-49 | a merge shows exactly the newest item of every id of both lists |
| JournalConvergence.Convergence | apps/web/lib/agentic-chat.ts:42-49 | clients that have seen the same items, in any batches, order and repetition, end with the same list |
| JournalConvergence.MergeIdempotent | apps/web/lib/agentic-chat.ts:42-49 | merging the same items again changes nothing |
| JournalConvergence.MergeCommutative | apps/web/lib/agentic-chat.ts:42-49 | merging a into b or b into a gives one list, when (id, revision, sequence) determines an item |
| JournalConvergence.MergeAssociative | apps/web/lib/agentic-chat.ts:42-49 | merges may be grouped in any way, under the same condition |
| JournalConvergence.OverwriteNewestExactly | scripts/verify_agentic_chat.py:99-107 | overwriting by id in sequence order leaves the newest items if and only if no id ends below its highest revision |
| JournalConvergence.ClientAgreesWithOverwrite | scripts/verify_agentic_chat.py:99-107 | a client that saw the journal in any batches shows what overwriting leaves if and only if no id ends below its highest revision |
| JournalConvergence.FallingRevision | scripts/verify_agentic_chat.py:99-107 | a journal of two entries of one id, the later one with the lower revision: overwriting leaves the later and a client shows the earlier |
| JournalReplay.Events | scripts/verify_agentic_chat.py:78-97 | a stream is accepted if and only if it delivers the events up to `through` in order before asking for a snapshot, within the frame limit; the frames are contiguous and are those delivered |
| JournalReplay.ResumedReplay | scripts/verify_agentic_chat.py:99-105 | two accepted replays of one log, the second from where the first stopped, are the log itself |
| JournalReplay.ReplayAgreesWithClient | scripts/verify_agentic_chat.py:99-107 | the script's fold over a resumed replay and any client that saw the same log agree item by item if and only if no id ends below its highest revision |
| Transcript.QuietTraffic | apps/web/lib/chat.ts:783-842 | quiet traffic is always written by an agent and is never a question or a memory receipt |
| Parties.QuietExactly | apps/web/lib/chat.ts:783-829 | a message is quiet exactly when an agent wrote it, it is no question to the person and no memory receipt, and either a colleague wrote it or it is structured work that names another party than its sender |
| Parties.SidesExactly | apps/web/lib/chat.ts:796-842 | its two sides are its sender and its target, or else its origin, or else the agent the person talks to; its key is that of the pair, it names the agents and the tasks of the message, and the party shown is the one across from the agent the person talks to |
| Parties.KeysExactly | apps/web/lib/chat.ts:774-842 | two quiet messages have one key exactly when the same two parties stand on their sides, in either order, as long as the keys of one pair hold no bar |
| Parties.PairKeyExactly | apps/web/lib/chat.ts:836-841 | the key of a pair of texts without a bar tells the two, in no order |
| Parties.UnmistakableExactly | apps/web/lib/chat.ts:836-841 | for any pair: no other pair has its key if and only if its text can be split in order at one bar only |
| Parties.BarsConfusePairs | apps/web/lib/chat.ts:836-841 | two different pairs with one key |
| Timeline.MergeTimeline | apps/web/lib/chat.ts:685-729 | the loops and the sort compute the merge of messages, shown chips and tool calls |
| Timeline.MergedContents | apps/web/lib/chat.ts:685-729 | the timeline is sorted by time and kind and shows every candidate id once and nothing else |
| Timeline.MergedEntries | apps/web/lib/chat.ts:695-717 | a message, or a call, is in the timeline exactly when it was given |
| TimelineShows.ChipsExactly | apps/web/lib/chat.ts:700-711 | a chip is shown exactly when one with its id is of a kind for the transcript, essential or wanted in detail, and no copy of a message |
| TimelineShows.OrderExactly | apps/web/lib/chat.ts:719-728 | earlier items come first, and at one time messages before calls and calls before chips |
| Timeline.TiesKeepTheirOrder | apps/web/lib/chat.ts:719-728 | items of one time and one kind stand in the order in which they were given |
| Timeline.WithDaySeparators | apps/web/lib/chat.ts:999-1023 | the loop puts a marker before the first row of each known day that differs from the last known one |
| Timeline.MarkersOnlyAdd | apps/web/lib/chat.ts:999-1023 | dropping the markers gives back the rows, and the heading in force at the end is the last known day |
| Timeline.RowUnderItsDay | apps/web/lib/chat.ts:999-1023 | every row with a known day stands under a heading of that day |
| TimelineShows.MarkersMarkChanges | apps/web/lib/chat.ts:999-1023 | a marker stands only right above a row of its day, when the last row above with a known day has another one |
| Grouping.GroupExchanges | apps/web/lib/chat.ts:892-973 | the loop with its open group computes the pass |
| Grouping.GroupedExactly | apps/web/lib/chat.ts:892-973 | rows are a partition of the timeline, in order, into exchanges that end only where the next item does not belong, if and only if they are what the pass gives |
| Grouping.ExchangeContents | apps/web/lib/chat.ts:892-973 | an exchange starts with an agent message, holds only messages of one pair key and chips linked to an earlier item of it, and no tool call, question or memory receipt |
| Grouping.AdjacentExchangesDiffer | apps/web/lib/chat.ts:938-950 | two exchanges in a row have different pair keys |
| ExchangeRows.TogetherExactly | apps/web/lib/chat.ts:929-955 | two quiet messages in a row stand in one exchange exactly when the same two parties stand on their sides, in either order |
| ExchangeRows.ChipTogether | apps/web/lib/chat.ts:953-968 | a chip right after an item of an exchange joins it exactly when it reports progress and names an agent on a side of an earlier message of the exchange, or a task of an earlier item |
| ExchangeRows.ExchangeShows | apps/web/lib/chat.ts:844-923 | an exchange has the id and time of its first message, the count of its items, the outcome of its last one, and the name and id of the party across from the agent the person talks to |
| Grouping.OnlyTheLastRowChanges | apps/web/lib/chat.ts:892-973 | appending items leaves every row but the last as it was |
| Drafts.ReadReplaced | apps/web/lib/chat-journal-projection.ts:18-38 | the loop over receipts collects the drafts they hide |
| Drafts.ReadPublicGenerations | apps/web/lib/chat-journal-projection.ts:9-43 | the drafts shown are, in journal order, exactly the generations of the primary agent that are under way or completed, have a text, and share no id with the newest attempt for any receipt |
| DraftsShown.ShownExactly | apps/web/lib/chat-journal-projection.ts:9-43 | an entry is shown as a draft exactly when it is a generation of the primary agent, under way or completed, with a text that is not blank, and its id is not that of the latest attempt, of one run and agent, at or before a reply saved or removed there |
| Drafts.HidesNewest | apps/web/lib/chat-journal-projection.ts:28-38 | a receipt hides nothing exactly when no attempt of its run and agent precedes it, and otherwise only the newest of these |
| Drafts.AtMostOneEach | apps/web/lib/chat-journal-projection.ts:28-38 | k receipts hide at most k ids, each that of the newest attempt for one of them |
| Drafts.MoreRepliesRevealNothing | apps/web/lib/chat-journal-projection.ts:9-43 | adding saved replies never brings a hidden draft back |
| Drafts.TombstoneKeepsDrafts | apps/web/lib/chat-journal-projection.ts:22-27 | replacing a saved reply by its tombstone leaves the visible drafts as they were |
| Projection.ProjectChatTimeline | apps/web/lib/chat-journal-projection.ts:46-77 | the maps, pushes and the sort compute the projection |
| ProjectionConserves.ServerMessagesAreLive | apps/web/lib/chat-journal-projection.ts:51-65 | the reconciled messages are exactly the live ones, each id once |
| ProjectionConserves.ServerCallsAreLive | apps/web/lib/chat-journal-projection.ts:53-63 | the reconciled calls are exactly the live ones, each id once |
| ProjectionRecords.CachedMessage | apps/web/lib/chat-journal-projection.ts:51-52 | before the journal is read, the record of a message is the last cached one with its id, and none when an entry removed it |
| ProjectionRecords.CachedCall | apps/web/lib/chat-journal-projection.ts:51-53 | the same for a call |
| ProjectionRecords.MessageAfterEntry | apps/web/lib/chat-journal-projection.ts:54-58 | reading one more entry replaces the record of the message it names by its own, the sender's name falling back to the record before and the agent kept from it, and leaves every other record |
| ProjectionRecords.CallAfterEntry | apps/web/lib/chat-journal-projection.ts:59-63 | the same for a call, unless the record before has a result from after an entry that has none |
| ProjectionRecords.RecordsAreFound | apps/web/lib/chat-journal-projection.ts:65-68 | the reconciled messages and calls are exactly these records, one under each id |
| ProjectionRows.PendingExactly | apps/web/lib/chat-journal-projection.ts:65-67 | an optimistic message is pending exactly as long as no server message carries its turn id, or has it for its own id |
| ProjectionConserves.TimelineShows | apps/web/lib/chat-journal-projection.ts:65-69 | a message is shown exactly when it is live or pending, a call exactly when it is live and passes the filter |
| ProjectionConserves.RemovedStaysHidden | apps/web/lib/chat-journal-projection.ts:51-65 | a removed message is shown only if a live entry or a pending turn names its id |
| ProjectionConserves.RemovedNeverShown | apps/web/lib/chat-journal-projection.ts:51-64 | with one journal entry for each id, no removed message or call is shown |
| ProjectionConserves.RowsConserveTimeline | apps/web/lib/chat-journal-projection.ts:69-76 | dropping the day markers and expanding the exchanges gives the timeline's items, each once, and the rows are sorted by time and id |
| ProjectionConserves.ProjectionConserves | apps/web/lib/chat-journal-projection.ts:46-77 | in the rows shown every item stands once and no two have one id; every live server message and every live filtered call is there with its reconciled record, also when a pending turn has its id, and there is no other message but pending turns and no other call |
| ProjectionConserves.ProjectionShows | apps/web/lib/chat-journal-projection.ts:46-77 | by id: the rows show a message exactly when it is live or pending, a call exactly when it is live and passes the filter, and with one journal entry for each id no removed one |
| ProjectionRows.ExtrasExactly | apps/web/lib/chat-journal-projection.ts:70-74 | the rows shown hold each public draft, each terminal or preview session that was not removed and each artifact, as often as it is given, in an agentic chat, and no such row otherwise |
| ProjectionRows.RowsInOrder | apps/web/lib/chat-journal-projection.ts:75-76 | the rows stand in the order of their times, and at one time in that of their ids |
| ProjectionRows.CallsShown | apps/web/lib/chat-journal-projection.ts:68 | calls are shown all in an agentic chat, and otherwise those of the command line |
| Durations.LabelShowsElapsed | apps/web/lib/chat.ts:254-274 | read as counts and units, the compact label names the elapsed seconds rounded down to minutes from ten minutes, to hours from ten hours, to days from ten days |
| Durations.ElapsedIsClose | apps/web/lib/chat.ts:254-274 | the quantity named never exceeds the time and falls short of it by less than a tenth |
| Durations.ElapsedNeverFalls | apps/web/lib/chat.ts:254-274 | the quantity named never falls as time passes |
| Durations.LabelsAgree | apps/web/lib/chat.ts:302-323 | from one minute up the spoken label names what the compact one does, without its seconds; below it says "under a minute" |
| Durations.SixCharactersExactly | apps/web/lib/chat.ts:251-274 | the compact label has at most six characters if and only if the time is below 100,000 days |
| Durations.SevenCharacters | apps/web/lib/chat.ts:251-274 | at 100,000 days the label has more than six characters |
| MarkdownInline.SafeHrefExactly | apps/web/lib/markdown.ts:49-63 | a link is accepted if and only if its address, without the ignored characters, starts with http:, https: or mailto:, in any case, or has one of the five relative shapes |
| MarkdownInline.AcceptedGoes | apps/web/lib/markdown.ts:39-63 | what a browser reads as the scheme of an accepted address is http, https or mailto, and without a scheme the address names another host if and only if it starts with a slash and a backslash |
| MarkdownInline.BackslashNamesHost | apps/web/lib/markdown.ts:41-63 | an accepted address that names another host, which the comment rules out |
| MarkdownInline.SafeHrefKeeps | apps/web/lib/markdown.ts:49-63 | an accepted address comes back trimmed and otherwise as written, and is accepted again as it is |
| MarkdownInline.MatchExactly | apps/web/lib/markdown.ts:76 | the matcher finds a piece of a given length exactly where one of the four forms of the pattern stands, so no text has two matches at one place |
| MarkdownInline.LinkExactly | apps/web/lib/markdown.ts:76 | the link alternative matches exactly the pieces made of a bracketed text and a target in parentheses |
| MarkdownScan.Tokenise | apps/web/lib/markdown.ts:81-109 | the loop with its cursor and in-place merging of texts computes the scan, for any pattern |
| MarkdownInline.ParseInline | apps/web/lib/markdown.ts:81-109 | the same for the application's pattern |
| MarkdownRoundTrip.InlineRoundTrip | apps/web/lib/markdown.ts:76-109 | printing any list of tokens and parsing the text gives that list if and only if the list is canonical: tokens proper, no two texts in a row, and no text in which, as printed, something else than text would be read |
| MarkdownRoundTrip.PlainTextsComeBack | apps/web/lib/markdown.ts:76-109 | lists of proper tokens whose texts hold no backtick, asterisk or opening bracket always come back |
| MarkdownRoundTrip.InlineFaithful | apps/web/lib/markdown.ts:76-109 | for any text the tokens spell it, up to blanks around link targets, with no empty token, no two texts in a row, no token holding its terminator and no link that is not accepted |
| MarkdownRoundTrip.LinkWritten | apps/web/lib/markdown.ts:99-103 | a matched link becomes the link it spells, or the literal text of the piece when its target is not safe |
| MarkdownLines.AfterBlanksExactly | apps/web/lib/markdown.ts:115-117 | the tail of the line patterns accepts exactly blanks followed by a text that neither starts with a blank nor breaks the line |
| MarkdownLines.HeadingExactly | apps/web/lib/markdown.ts:115 | a line is a heading with a given text exactly when it is one to four hashes, blanks and that text |
| MarkdownLines.Classify | apps/web/lib/markdown.ts:148-183 | a line outside a fence becomes a heading, an item, a gap or prose, prose is trimmed and not empty, and nothing of a fence comes of it |
| MarkdownLines.ClassifyExactly | apps/web/lib/markdown.ts:115-182 | a line outside a fence is, character by character: a heading exactly of as many hashes as its level, one to four, blanks and the text; an unordered item exactly of blanks, a hyphen or asterisk, blanks and the text; an ordered one exactly of blanks, one to nine digits, a full stop or parenthesis, blanks and the text; blank; or prose, trimmed |
| MarkdownLines.FenceExactly | apps/web/lib/markdown.ts:144 | a line marks a fence exactly when it begins with blanks and three backticks |
| MarkdownLines.MarkOfLine | apps/web/lib/markdown.ts:143-184 | every line has one mark, decided by the line and by whether it stands in a fence, and an unterminated fence one more |
| MarkdownLines.WithinIsOdd | apps/web/lib/markdown.ts:144-157 | a line stands in a fence exactly after an odd number of fence markers |
| MarkdownBlocks.FlushParagraph | apps/web/lib/markdown.ts:127-135 | what is pending of a paragraph becomes the block of its lines, and nothing is pushed when nothing is pending |
| MarkdownBlocks.FlushList | apps/web/lib/markdown.ts:136-141 | what is pending of a list becomes the block of its items, and nothing is pushed when nothing is pending |
| MarkdownBlocks.ReadLine | apps/web/lib/markdown.ts:143-184 | reading a line keeps that at most one of paragraph, list and fence holds anything, and that the blocks so far with what is pending and left to read are those of the whole text |
| MarkdownBlocks.ParseBlocks | apps/web/lib/markdown.ts:119-191 | the machine with its three accumulators gives one block for each longest run of lines that belong together |
| MarkdownBlocks.GroupsOfRun | apps/web/lib/markdown.ts:119-191 | lines that belong together make one block of their own when the next line does not continue them |
| Markdown.ParseMarkdown | apps/web/lib/markdown.ts:119-191 | one block for each longest run of lines that belong together; in order, and leaving nothing out, the blocks show the lines of the source as what their characters make them: a heading its text at the level of its hashes, a code block the lines of a fence joined, a paragraph tokens that spell its lines, and a list of its kind one item of such tokens for each bullet or number |
| Markdown.KeptExactly | apps/web/lib/markdown.ts:143-184 | the lines to be shown are, from their characters, all lines inside a fence and all others that are not blank, each as the mark it is |
| Markdown.BlocksKeepLines | apps/web/lib/markdown.ts:119-191 | the runs hold every line inside a fence and every line outside one that is not blank, once and in order, and nothing else |
| Markdown.BoundaryExactly | apps/web/lib/markdown.ts:143-184 | a block ends between two lines if and only if the second does not continue the first |
| Dominance.StatementDominates | scripts/audit_phase10_logging.py:379-396 | the walk up the parent map answers yes exactly when definition and use lie below one statement list, the definition strictly first |
| Dominance.NearestStatement | scripts/audit_phase10_logging.py:229-237 | the walk finds the innermost statement around a node |
| Dominance.LastStep | scripts/audit_phase10_logging.py:388-396 | the place where the walk stops decides the test |
| DominanceSound.DominanceIsSound | scripts/audit_phase10_logging.py:379-396 | in every execution of every program that ends, normally or not, whenever the statement of the use is reached, the definition has completed since their common list was entered |
| DominanceOngoing.OngoingIsBeginning | scripts/audit_phase10_logging.py:379-396 | wherever an execution stands, also one that never ends, what it has shown is the beginning of an execution that ends |
| DominanceOngoing.DominanceHoldsSoFar | scripts/audit_phase10_logging.py:379-396 | so at every moment of every execution, ended or not, the definition has completed before its use was reached |
| DominanceSound.PlainBlockRuns | scripts/audit_phase10_logging.py:379-396 | every program has an execution that ends normally, so soundness is about something |
| Editorial.VerifyRounds | scripts/verify_agent_work_evidence.py:90-117 | the loop over the rounds accepts exactly when every round passes, each revises the one before, and the last has an outcome; the report is that of the last |
| Editorial.VerifyEditorial | scripts/verify_agent_work_evidence.py:71-122 | evidence is accepted if and only if its calls can be ordered, hand-offs and reviews match by id, and the rounds are in order |
| EditorialRound.CompletedDistinct | scripts/verify_agent_work_evidence.py:52-56 | with unique ids the completed calls in execution order are pairwise different, so positions are places in time |
| EditorialRound.RoundReviewed | scripts/verify_agent_work_evidence.py:125-250 | a round that passes has a last draft write by the author, then its only hand-off, then its only decision, by the publisher and with the verdict of its status, and at most the one publication after it |
| EditorialRound.RoundExactly | scripts/verify_agent_work_evidence.py:125-313 | a round passes if and only if such moments exist and the round is documented |
| EditorialRounds.RoundsAreReviews | scripts/verify_agent_work_evidence.py:80-92 | in an accepted trace hand-offs and reviews are in bijection |
| EditorialRounds.ArticleStays | scripts/verify_agent_work_evidence.py:103-109 | all rounds are about one post, over one connection, by one author and one publisher |
| EditorialRounds.StatusOfRound | scripts/verify_agent_work_evidence.py:95-121 | every round but the last asks for changes and is followed by another revision; the last is approved or published |
| EditorialRounds.NewDraft | scripts/verify_agent_work_evidence.py:110-113 | between two hand-offs in order of different revisions of a post lies a write of that post |
| EditorialRounds.OnePublication | scripts/verify_agent_work_evidence.py:187-250 | a publication of any of the reviews is the only one of its review, in the last round, after its decision |
| EditorialRounds.EditorialSound | scripts/verify_agent_work_evidence.py:71-250 | on calls with unique ids, acceptance means that hand-offs and reviews are in bijection and gives moments for all rounds: hand-offs in order, each after a new draft by the author since the last hand-off and before its only decision, all of one article, with the statuses that go with their places, and one publication at most, in the last round after its decision |
| EditorialReport.CallsInOrder | scripts/verify_agent_work_evidence.py:52-56 | the trace holds every tool call of the evidence, in the order of their times and at one time of their ids |
| EditorialReport.AnsweredExactly | scripts/verify_agent_work_evidence.py:286-302 | the writer has answered exactly when some message of the writer's, a text in the writer's task or in one that goes on from the work request, is later than the result, and reading the messages up to it does not fail |
| EditorialReport.RoundVouches | scripts/verify_agent_work_evidence.py:141-302 | a documented round has a hand-off of the right agents that names the article, revision and work request of the review, no other delegation, the one work request completed by the director, both tasks finished, one result of the director and a later answer of the writer, and for an approval a last read-back that is still that draft |
| EditorialReport.ReportVouches | scripts/verify_agent_work_evidence.py:71-122 | the report names as writer the agent of the last hand-off, as director the publisher named in it, and its article and revision; the records show that round, and the outcome is a release or an approved draft, as the review ended |
| EditorialWitness.DecidedAfterNextHandoff | scripts/verify_agent_work_evidence.py:71-250 | evidence of two rounds that is accepted, in which the first review is decided after the second is asked for |
| DevicePoll.DevicePollDelayMs | apps/web/lib/oauth.ts:116-125 | there is no delay exactly on a terminal status; otherwise it is the least one that is at least the base and at least the server's interval, with the backoff on top |
| DevicePoll.Poller.RefetchInterval | apps/web/lib/hooks.ts:894-902 | one evaluation of the callback updates both refs as specified, returns the delay for the new backoff, and never lowers the backoff |
| DevicePoll.EvaluationsCountOnce | apps/web/lib/hooks.ts:894-902 | however often the callback runs on one response, the response counts once |
| DevicePoll.BackoffExactly | apps/web/lib/hooks.ts:888-902 | over any run the backoff is 5000 ms for each `slow_down` if and only if successive ones were stored at different times, the first not at 0 |
| DevicePoll.BackoffGrows | apps/web/lib/hooks.ts:894-902 | the backoff never comes back down |
| DevicePoll.ClockSeparates | apps/web/lib/hooks.ts:894-902 | in a run while the clock goes forward no two successive `slow_down` responses are stored at one time |
| DevicePoll.PollsKeepTheirDistance | apps/web/lib/oauth.ts:105-125 | over any run while the clock goes forward no poll follows a terminal status, and each waits at least the base, or the server's interval, and five seconds for every `slow_down` so far |
| DevicePoll.SetBackPollsTooSoon | apps/web/lib/hooks.ts:897-900 | a run on a clock set back, in which a `slow_down` is not counted and the next poll comes too soon |

## Left out

OpenAPI:
- Paths are sequences of segments, so two property names that collide once joined by `.`, `[]` or `{}` stay apart here, and so does a property with an empty name; the `describe_operation` names of parameters are segments too.
- Tuples of type names and enum values are sets: a name listed twice is one name. Alternatives and scopes of a security requirement are multisets; alternatives with the same scheme written twice cannot occur in JSON.
- A key of the wrong JSON type reads as absent, and JSON object keys are taken as unique.
- The order and the wording of reported changes, and reading, rendering and writing snapshot files.
- OpenApiFlatten.Flatten: asks that the enum of every schema it comes to can be read to an end; where one cannot, the code's recursion does not end either.
- OpenApiPayloads.Substitutability: is about payloads as maps from paths to values; what a marker stands for is a parameter, not read from the schema.

Journal and transcript:
- Times are numbers and texts are compared by any total order in place of `localeCompare`; invalid timestamps are not modelled outside the day markers.
- A journal entry carries the whole record of its message or call, where the code spreads the entry's data over the cached record; the calendar that names a day is a parameter, as are labels and the clock. Lower case is that of ASCII.
- A message content whose `client_turn_id` is not a string reads as one without it, where the code compares its text form.
- The network, storage and React parts of the client, and status wording.

Durations:
- Fractions of a second beyond rounding down, and the elapsed time computed from server timestamps.

Markdown:
- Markdown.ParseMarkdown: reads inline text through the function that `MarkdownInline.ParseInline` computes, because a method cannot be passed as a value.
- Characters are Unicode scalar values in place of UTF-16 units; the renderer and the test for external links are not modelled.
- MarkdownInline.AcceptedGoes: models of URL parsing (section 4.4 of the URL Standard) only what comes before the scheme, the scheme, and the first two characters of a relative address.

Dominance:
- Functions, classes, match statements and asynchronous statements, and an exception raised while leaving a with block; the binding and scope predicates of the audit and its lists of reviewed exceptions.

Editorial evidence:
- Scalars are texts or null and equal only when identical, where Python also equates 1, 1.0 and true. Times are numbers; a timestamp that cannot be read refuses the evidence.
- EditorialRounds.EditorialSound: does not say that a decision precedes the hand-off of the next round, because the code accepts evidence in which it does not (`EditorialWitness.DecidedAfterNextHandoff`).
- The secure-intake check and the HTTP client of the script.

Device polling:
- The query library: a run is a list of responses, each with at least one evaluation of the callback and a poll no sooner than the last delay. Intervals are whole seconds.

- Everywhere: errors raised for malformed input outside the paths named above, performance, and concurrency beyond the order of events.
