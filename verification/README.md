# UiGraph: a verified model

A Dafny model of the parts of UiGraph that carry promises across calls, with proofs of those
promises. Check it with `dafny verify dfyconfig.toml`.

- **API-spec compiler.** Inlining of `$ref` in OpenAPI documents, the order in which their
  operations become endpoints, the GraphQL selection builder with its two renderings, and the
  protobuf type index with its examples.
- **Versioned diagrams.** Row, current blob, version blobs and cache, under the request handlers
  one after the other, and under any interleaving of them with failing calls.
- **API groups.** Publish, sync, release, restore and delete over the store's transaction, with
  failing calls, and the service levels (SLAs) that users set on endpoints.
- **Screenshot queue, migrations, role rules.** Three small machines with guarantees over whole
  runs or all rule sets.

Modules follow the program's files. A handler or a loop is a method over the tables, maps and
arrays that the program changes; its `ensures` ties the new state to a function or a relation on
values, and the lemmas about that function or relation are the promises. What each request leaves
behind is stated column by column in `DiagramRequests` and `ApiGroupRequests`, and
`DiagramRefinement` shows that the interleaving model, run one request at a time, is the sequential
one. Storage and store calls that can fail are marked by `Faults` (API groups), by `Die` and
`CallIgnored` steps (diagrams) or by `Trouble` (migrations). SHA-256, fresh ids, clocks, regular
expressions, the printing of non-string attributes and the effect of a migration script are
parameters.

Some results say that the code does not do something that one may expect of it. Each comes with the
exact condition, for all inputs, and with a run or an input that shows the failure:

- A second inlining pass can change the result or never return: `OpenApiRefs.SecondPassUnchangedIff`
  and `SecondPassReturnsIff`; inputs in `SecondPassCanChange`, `SecondPassCanLoop` and
  `PlantedCanBeUnchanged`.
- A failed publish can leave the spec blob at odds with the recorded hash, and a later release then
  seals the mismatch: `ApiGroupHashes.PublishKeepsHashesIff` and `ReleaseAfterPublishFitsIff`; runs in
  `FailedSyncBreaksHashes` and `ReleaseSealsMismatch`.
- An endpoint edit can reach a published version: `ApiGroupRestores.EditKeepsVersionsIff`; run in
  `EditReachesVersion`.
- A restore keeps SLAs of the working copy, although internal/api/catalog/apigroup_version.go:131-132
  says that the exact snapshot is restored: `ApiGroupRestores.RestoredSlaIff`; run in
  `RestoreKeepsOtherSla`.
- A diagram's stores can disagree when the row update fails: `Diagrams.RowFailureAgreesIff`; run in
  `FailedSyncBreaksAgreement`.
- A diagram's cache can go stale between concurrent requests: `DiagramCache.FitsIff`, with the kinds of
  steps that keep it fresh in `FitsWhenQuiet`; run in `DiagramInterleaving.CacheCanGoStale`.
- A snapshot of a diagram can record the hash of other content: `DiagramVersionHashes.VersionsFitIff`;
  run in `OvertakenSnapshotMisfits`.
- An operation can be listed more than once, when keys repeat, or not at all, when a second `paths`
  key has it: `OpenApiListing.EachOnceIff`; document in `SecondPathsAreLost`.
- Endpoints with a space in their methods can share an SLA key: `EndpointSla.SlaKeyIdentifies`; pair in
  `SpacedMethodsCollide`.

`Migrations.SortedIff`, `ProtoIndex.OwnKeysIff`, `RoleMap.LookupReadsPathIff` and
`ScreenshotQueue.Decoding` are exact conditions of the same kind.

## Model

| member | source | states |
|---|---|---|
| OpenApiRefs.ResolveJsonPointer | internal/api/catalog/openapi_refs.go:31-48 | the loop over the pointer's parts returns the member they lead to, and nil when the text is no local pointer or a part is missing |
| OpenApiRefs.PointerReaches | internal/api/catalog/openapi_refs.go:31-48 | a pointer written from slash-free keys gives the member that a plain reader finds along all of them, and nil if there is none |
| OpenApiRefs.PointerNames | internal/api/catalog/openapi_refs.go:31-48 | whatever a pointer gives, a plain reader finds along slash-free keys that the pointer is written from: a key with a slash is out of reach |
| OpenApiRefs.TargetIs | internal/api/catalog/openapi_refs.go:9-15 | the objects that are followed are those whose `$ref` member is a string written from slash-free keys that lead a plain reader to something not null, and that is what they stand for |
| OpenApiRefs.ReturnsIffAcyclic | internal/api/catalog/openapi_refs.go:6-29 | inlining returns exactly when no chain of references from the value repeats one, and then follows at most as many in a row as there are different ones |
| OpenApiRefs.ResultIgnoresBound | internal/api/catalog/openapi_refs.go:6-29 | the depth bound that stands for termination does not affect the result |
| OpenApiRefs.MeaningPreserved | internal/api/catalog/openapi_refs.go:6-29 | along every path a plain reader of the inlined value sees what a reader following references on demand sees in the original; what lies below a dangling reference is read as written |
| OpenApiRefs.OnlyMeaning | internal/api/catalog/openapi_refs.go:6-29 | the inlined value is the only value with that meaning |
| OpenApiRefs.NormalIffNothingPlanted | internal/api/catalog/openapi_refs.go:9-27 | no resolvable reference is left, except beneath a dangling one, exactly when the walk plants none through a `$ref` member that is not a string |
| OpenApiRefs.NormalIsFixed | internal/api/catalog/openapi_refs.go:6-29 | a value is in that normal form exactly when inlining it follows no reference, and then inlining leaves it as it is |
| OpenApiRefs.SecondPassIsIdle | internal/api/catalog/openapi_refs.go:6-29 | a second pass changes nothing and follows no reference exactly when the first plants no resolvable reference |
| OpenApiRefs.SecondPassUnchangedIff | internal/api/catalog/openapi_refs.go:6-29 | a second pass returns and changes nothing exactly when every resolvable reference that the first plants leads back to the object it was planted in |
| OpenApiRefs.SecondPassReturnsIff | internal/api/catalog/openapi_refs.go:6-29 | a second pass returns exactly when the first plants no reference to a cycle |
| OpenApiRefs.StringRefsPlantNothing | internal/api/catalog/openapi_refs.go:9-27 | when all `$ref` members are strings nothing is planted, so inlining is idempotent |
| OpenApiRefs.SecondPassCanChange | internal/api/catalog/openapi_refs.go:9-27 | there is a document for which a second pass changes the result |
| OpenApiRefs.SecondPassCanLoop | internal/api/catalog/openapi_refs.go:9-27 | there is a document whose inlining returns a value on which a second pass does not return |
| OpenApiRefs.PlantedCanBeUnchanged | internal/api/catalog/openapi_refs.go:9-27 | there is a document where a planted reference leads back to its object, so that a second pass changes nothing |
| OpenApiOrder.ParseDocumentOrder | internal/api/catalog/openapi_order.go:12-49 | the loops over the node tree return the path keys in order and, for each path, the HTTP methods of its last mapping, in lower case and in order |
| OpenApiOrder.MappingValue | internal/api/catalog/openapi_order.go:58-68 | the value of the first entry with the key, if the node is a mapping that has one |
| OpenApiOrder.MethodsForPathItem | internal/api/catalog/openapi_order.go:88-110 | the listed methods that the item has, or the usual ones it has when none are listed |
| OpenApiOrder.ParseSpecEndpoints | internal/api/catalog/service_logic.go:231-330 | one endpoint per pair of the specified list, in its order; endpoint k is numbered k, has a path and a method with an operation in the document, the method in upper case, and the operation's own id if it is a non-empty string, or else method and path |
| OpenApiListing.CountPairs | internal/api/catalog/service_logic.go:259-277 | a path and method are listed as often as the path is in the path order times the method is among the path's methods, if the operation is an object, and else never |
| OpenApiListing.EachOnceIff | internal/api/catalog/openapi_order.go:28-46 | where the order can be read, whatever the decoded paths are, every operation object becomes one endpoint and nothing else does exactly when each one's path is a key at most once, and its method is listed once under that path, ignoring case, or no HTTP method is |
| OpenApiListing.DistinctKeysGiveEachOnce | internal/api/catalog/openapi_order.go:28-46 | with distinct path keys, and method keys distinct ignoring case, that is so exactly when a path that lists HTTP methods lists all operations it has |
| OpenApiListing.DecodesCovers | internal/api/catalog/openapi_order.go:23-46 | when the decoded paths are those of the node tree, a path that lists HTTP methods lists all operations it has |
| OpenApiListing.SecondPathsAreLost | internal/api/catalog/openapi_order.go:23-46 | a document with two `paths` keys: the order comes from the first, decoding keeps the last, and an operation that only the last one has is not listed |
| OpenApiListing.UnorderedIsEachOnce | internal/api/catalog/service_logic.go:245-247 | where the order cannot be read, every operation object becomes one endpoint and nothing else does |
| OpenApiListing.UnorderedInOrder | internal/api/catalog/service_logic.go:245-247 | they come by sorted paths, with the usual methods in their usual order under each |
| OpenApiListing.EachOnceIsBijection | internal/api/catalog/service_logic.go:263-328 | a list with each operation once has no repetition and has exactly the document's operations |
| OpenApiListing.InDocumentOrder | internal/api/catalog/openapi_order.go:10-49 | the endpoints are path by path in the order of the document, then the unlisted paths, sorted, with the methods as listed, or the usual ones where none are, less what is no operation |
| OpenApiListing.OnlyListedInOrder | internal/api/catalog/openapi_order.go:10-49 | when the decoded paths are those of the node tree and path keys are distinct, the endpoints are just the paths and methods as listed, less those that are no operations |
| OpenApiListing.MethodKeysInOrder | internal/api/catalog/openapi_order.go:33-44 | the methods of a path are its keys that are HTTP methods in any case, each in lower case, all of them and in order |
| OpenApiListing.FallbackFindsNothing | internal/api/catalog/openapi_order.go:93-109 | trying the usual methods on an item that lists no HTTP method finds nothing |
| GraphQLTypes.ReadsBack | internal/specparser/graphql.go:190-205 | a printed type reference reads back, by the grammar of type references, as the same type, whatever follows it |
| GraphQLTypes.FormatIsInjective | internal/specparser/graphql.go:190-205 | different types print differently |
| GraphQLSelection.SelectionBuilder.BuildSelectionTree | internal/specparser/graphql.go:244-310 | the builder with one shared, mutable map of visited types returns the tree given by a function of the immutable set of types above, and leaves the map's marks as they were |
| GraphQLSelection.SelectionBuilder.BuildFragments | internal/specparser/graphql.go:284-308 | one fragment for each of the first two union members that the schema defines, built under the same marks |
| GraphQLSelection.SelectionBuilder.BuildObjectSelection | internal/specparser/graphql.go:312-373 | scalars and enums up to their cap, then objects up to theirs, with the marks restored |
| GraphQLTree.SelTreeIsGood | internal/specparser/graphql.go:244-373 | for every schema, however its types refer to each other, the tree names only declared fields with their declared types, nests fields at most MaxDepth deep and enters no type again through a field |
| GraphQLTree.NodeOrigin | internal/specparser/graphql.go:312-373 | every node comes from one declared field of its parent type |
| GraphQLTree.TypesDoNotRecur | internal/specparser/graphql.go:253-262 | on every path of an operation's tree no type is entered twice through field types, its own type included, and at most MaxDepth fields are passed |
| GraphQLComplete.SelTreeIsComplete | internal/specparser/graphql.go:244-373 | at every object and interface entered, the tree selects the first scalars and enums up to their cap, then, where a level is left, the first objects, interfaces and unions up to theirs, in order; at every union a fragment on each of the first two members that is defined; and the same below each selected field, nothing where its type is being expanded or no level is left |
| GraphQLComplete.CompleteIffBuilt | internal/specparser/graphql.go:244-373 | it is the only such tree |
| GraphQLPrint.RenderSelectionSet | internal/specparser/graphql.go:377-442 | the loops write the text given by a function of the tree and the indent, fragments in sorted order |
| GraphQLPrint.LexAround | internal/specparser/graphql.go:377-442 | white space separates tokens: texts around it are read one after the other |
| GraphQLPrint.LexRender | internal/specparser/graphql.go:377-442 | at any indent the printed text has the tokens of the tree, and is blank exactly when the tree is empty |
| GraphQLPrint.ParseTokens | internal/specparser/graphql.go:377-442 | the grammar of selection sets and inline fragments reads its own tokens back |
| GraphQLPrint.RoundTrip | internal/specparser/graphql.go:377-442 | printing and reading undo each other up to return types and fragment order, at any indent |
| GraphQLPrint.RequestReadsBack | internal/specparser/graphql.go:100-145 | the text shown for an operation of a valid schema reads back as the tree that the builder made |
| GraphQLResponse.ExampleResponseValue | internal/specparser/graphql.go:615-678 | the recursion over lists, scalars, enums, unions and objects returns the specified example |
| GraphQLResponse.ObjectFromSelection | internal/specparser/graphql.go:680-709 | the loop over the selection fills the specified object |
| GraphQLResponse.IndexFields | internal/specparser/graphql.go:685-689 | the field index has each name's last declaration and no other name |
| GraphQLResponse.MembersMirror | internal/specparser/graphql.go:680-709 | an object's members are exactly the selected names, each with the example of its last node |
| GraphQLResponse.ExampleHasType | internal/specparser/graphql.go:615-714 | whatever is selected, the example has its type: a list type is a list of one, a built-in scalar and an enum a fixed value, anything else an object whose members have the types of their fields |
| GraphQLResponse.Mirrors | internal/specparser/graphql.go:602-709 | down to the depth, through lists, the example has a value where the selection has one, with exactly the selected names as keys; one level further objects are empty |
| GraphQLResponse.ResponseMirrorsRequest | internal/specparser/graphql.go:602-613 | the response example of an operation mirrors its request for three object levels |
| ProtoIndex.TypeIndex.StoreType | internal/specparser/grpc.go:345-353 | a normalized key that is new gets the message, a key in use or empty changes nothing |
| ProtoIndex.TypeIndex.IndexMessage | internal/specparser/grpc.go:248-280 | the recursion stores, under up to four keys each, a message before those nested in it |
| ProtoIndex.TypeIndex.ExtractMessageFields | internal/specparser/grpc.go:282-310 | the fields with a name and a type, in order |
| ProtoIndex.BuildMergedTypeIndex | internal/specparser/grpc.go:230-246 | the loop over files fills one index with all messages in traversal order |
| ProtoIndex.FirstClaimWins | internal/specparser/grpc.go:230-280 | a key is in the index exactly when some message claims it, and leads to the first one in traversal order that does |
| ProtoIndex.OwnKeysIff | internal/specparser/grpc.go:264-270 | every message owns all its keys exactly when no two messages share a short name |
| ProtoIndex.EveryMessageIsFound | internal/specparser/grpc.go:230-280 | with distinct short names across all files, each of a message's keys leads to it |
| ProtoPlaces.AllVisited | internal/specparser/grpc.go:230-280 | the traversal visits every message of every file once, in the order of files and declarations, a message before those nested in it, with its dotted path |
| ProtoPlaces.FieldsInOrder | internal/specparser/grpc.go:282-310 | the fields kept are all declarations with a name and a type, in order |
| ProtoPlaces.NameLeadsToFirst | internal/specparser/grpc.go:230-280 | a message's own name and its dotted path, alone or behind the package, lead to the first message in that order that has this name, with its full name and fields |
| ProtoPlaces.OnlyNames | internal/specparser/grpc.go:264-270 | no other keys are in the index |
| ProtoPlaces.DistinctNamesLead | internal/specparser/grpc.go:230-280 | if no two messages of all files share their own name, every name of every message leads to it |
| ProtoExamples.ExampleValueForType | internal/specparser/grpc.go:386-431 | the value shows the type: scalars by their example, unknown or too deep types by an empty object, messages by an object with exactly their field names, each showing its field's type, in a list if repeated |
| ProtoExamples.OneExample | internal/specparser/grpc.go:386-431 | what a type shows at a depth is one value |
| ProtoExamples.ExampleLevels | internal/specparser/grpc.go:386-431 | an example has at most as many nested non-empty objects as the depth, for recursive messages too |
| ProtoExamples.ExampleAlong | internal/specparser/grpc.go:386-431 | along every path of field names that the depth suffices for there is the fixed example of a built-in type, or an object with just the fields of its message, empty once the depth is used up; a repeated field is a list of one |
| ProtoExamples.ResolvedIsFound | internal/specparser/grpc.go:355-372 | a name without dots resolves to the key under which its example is made |
| ProtoExamples.ResolvedIffThere | internal/specparser/grpc.go:355-372 | a type name resolves to a name in the index exactly when it, or it behind the package, is there |
| StorageKeys.KeysDiffer | internal/storage/storage.go:34-51 | for ids without slashes, keys of diagrams, diagram versions, specs and spec versions are injective and disjoint |
| VersionNumbers.NextNumber | internal/store/postgres/catalog.go:944-952 | numbering a version one above the highest keeps every owner's numbers 1 to n |
| VersionNumbers.LatestIsCount | internal/store/postgres/diagrams.go:221-228 | where numbers are 1 to n the highest is the count |
| Diagrams.DiagramHandler.CreateDiagram | internal/api/diagram/diagram.go:83-173 | rejects an empty name or content, else writes blob, row, version 1 and cache |
| Diagrams.DiagramHandler.GetDiagramContent | internal/api/diagram/diagram.go:301-328 | returns the cache entry or else the live row's blob, which then fills the cache |
| Diagrams.DiagramHandler.UpdateDiagram | internal/api/diagram/diagram.go:343-411 | changes metadata, and blob and hash if the hash differs, dropping the cache entry; the stores when the row update fails too |
| Diagrams.DiagramHandler.DeleteDiagram | internal/api/diagram/diagram.go:425-438 | marks the row and drops the cache entry |
| Diagrams.DiagramHandler.SyncDiagram | internal/api/diagram/diagram.go:453-556 | leaves unchanged content alone, else writes content and a new version; says whether it made one; the stores when the row update fails too |
| Diagrams.DiagramHandler.SyncNewDiagram | internal/api/diagram/diagram.go:558-600 | creates the diagram with version 1 |
| Diagrams.DiagramHandler.LoadContent | internal/api/diagram/diagram.go:622-632 | cache entry or download, filling the cache |
| Diagrams.DiagramHandler.LatestVersionNumber | internal/store/postgres/diagrams.go:221-228 | the highest number in use for the diagram, or 0 |
| Diagrams.DiagramHandler.SnapshotDiagram | internal/api/diagram/version.go:51-106 | records what a reader gets as the next version |
| Diagrams.DiagramHandler.RestoreDiagram | internal/api/diagram/version.go:153-222 | writes a version's content back and records it as the next version; the stores when the row update fails too |
| Diagrams.StepAgrees | internal/api/diagram/diagram.go:83-600 | every successful request, and expiry at any time, keeps: row hash fits the current blob, version hashes fit their blobs, cached values are current blobs of live rows, numbers are 1 to n |
| Diagrams.RunAgrees | internal/api/diagram/diagram.go:83-600 | the same over every run |
| Diagrams.StepKeepsVersions | internal/api/diagram/version.go:51-222 | no request changes a version's row or blob |
| Diagrams.RunKeepsVersions | internal/api/diagram/version.go:51-222 | the same over every run |
| Diagrams.ReadIsCurrent | internal/api/diagram/diagram.go:622-632 | in agreement a reader gets the current blob of a live diagram, and nothing for others |
| Diagrams.UpdateIsRead | internal/api/diagram/diagram.go:343-411 | after an update readers get the new content, whatever the cache held, unless it hashes like different content before it |
| Diagrams.SyncTwiceIsOnce | internal/api/diagram/diagram.go:480-498 | syncing the same content again changes nothing |
| Diagrams.RestoreRoundTrip | internal/api/diagram/version.go:153-222 | restoring a version after any run gives readers its content, one version more, the rest unchanged |
| DiagramRequests.SyncLeaves | internal/api/diagram/diagram.go:480-536 | column by column: content of a new hash becomes the current blob, its hash and source the row's, and exactly one version more records it, numbered next, automatic; other rows, versions, blobs and entries stay; any other sync changes nothing |
| DiagramRequests.CreateLeaves | internal/api/diagram/diagram.go:83-173 | column by column: a new row with its blob, version 1, automatic if there is a source, and a cache entry |
| DiagramRequests.SyncNewLeaves | internal/api/diagram/diagram.go:539-600 | the same without a cache entry, always automatic |
| DiagramRequests.SnapshotLeaves | internal/api/diagram/version.go:51-105 | column by column: one version more with the current blob, the row's hash and source and the given label; row and blob stay, the content is cached |
| DiagramRequests.RestoreLeaves | internal/api/diagram/version.go:153-222 | column by column: the version's content and hash become current and are recorded as the next version, with the source naming the version |
| DiagramRequests.UpdateLeaves | internal/api/diagram/diagram.go:340-402 | column by column: the given name and source, and the content if its hash is new; no version is made |
| DiagramRequests.DeleteLeaves | internal/api/diagram/diagram.go:425-437 | the row is marked and not cached, and readers get nothing |
| DiagramRequests.ReadLeaves | internal/api/diagram/diagram.go:301-330 | nothing changes but the cache, which has the current blob of a live diagram afterwards |
| Diagrams.InterruptedAgreesIff | internal/api/diagram/diagram.go:500-512 | a new current blob under an old row and cache agrees exactly when hash and cache entry fit the new content anyway |
| Diagrams.RowFailureAgreesIff | internal/api/diagram/diagram.go:388-402 | an update, sync or restore whose row update fails leaves the stores in agreement exactly when it uploaded nothing, or content that fits the row's hash and, but for an update, the cache entry |
| DiagramRequests.RowFailureLeaves | internal/api/diagram/diagram.go:388-402 | an update or sync whose row update fails leaves rows and versions, has replaced the blob if the hash is new, and the cache entry is gone for an update only |
| DiagramRequests.RestoreFailureLeaves | internal/api/diagram/version.go:185-199 | so does a restore, with the version's content |
| Diagrams.EmptyAgrees | internal/api/diagram/diagram.go:83-657 | the empty stores, with which runs begin, agree |
| Diagrams.FailedSyncBreaksAgreement | internal/api/diagram/diagram.go:500-512 | a run: create a diagram, sync other content and let the row update fail; the row has the hash of the old content and readers get that content, while the blob is the new one |
| DiagramInterleaving.RunKeeps | internal/api/diagram/diagram.go:83-657 | along every interleaving with failures, evictions and deaths, held and cached contents were their blob's content at the recorded moment |
| DiagramInterleaving.HandlersAreSafe | internal/api/diagram/diagram.go:83-657 | the call order of every handler lets it fill the cache only with content of its own diagram |
| DiagramRefinement.RequestRefines | internal/api/diagram/diagram.go:83-657 | every request that is not turned down, run alone call by call, turns rows, hashes, blobs, versions and cache into those of the model of whole requests |
| DiagramRefinement.RowReadRefines | internal/api/diagram/diagram.go:188-215 | so does a reader that asks for the row as well |
| DiagramRefinement.TurnedDown | internal/api/diagram/diagram.go:83-536 | a request that is turned down changes nothing |
| DiagramInterleaving.ServedWasTheBlob | internal/api/diagram/diagram.go:27-657 | content served from the cache was the blob at an earlier moment, younger than one hour plus the gap between getting it and caching it |
| DiagramInterleaving.CacheCanGoStale | internal/api/diagram/diagram.go:622-657 | a run where an update comes between a reader's download and its write to the cache: all requests have finished and the cache holds the old content |
| DiagramCache.FitsIff | internal/api/diagram/diagram.go:83-657 | in every reachable state a cache entry is the current blob exactly when the last write of the blob since the content was got, if there is one, wrote the same content |
| DiagramCache.HandlersDrop | internal/api/diagram/diagram.go:83-657 | after a write of the current blob, updates, syncs and restores go on to drop the cache entry before any other call that touches cache or current blob; only the two creating handlers do not |
| DiagramCache.StepKeepsFit | internal/api/diagram/diagram.go:622-657 | a step keeps each entry current or about to be dropped, if it caches only what is still current, replaces the blob only with a drop to come or no other content cached, and loses no drop of a stale entry to a failure |
| DiagramCache.FitsWhenQuiet | internal/api/diagram/diagram.go:83-657 | in every interleaving of such steps, once all requests have finished each cache entry is the current blob |
| DiagramSnapshots.StepKeepsSnapshots | internal/api/diagram/version.go:51-222 | a step with fresh version ids, of any request, failing or not, keeps the blobs of all versions |
| DiagramSnapshots.SnapshotsNeverChange | internal/api/diagram/version.go:51-222 | in every interleaving with failures the blob of a version never changes once it is there |
| DiagramVersionHashes.StepBookOk | internal/api/diagram/version.go:51-222 | each step of any request, failing or not, keeps the recorded hash and the blob of every version, and a request that creates, syncs or restores holds content of the hash it takes along, or of the version it restores |
| DiagramVersionHashes.StepFitsIff | internal/api/diagram/version.go:51-222 | after a step the recorded hash of every version is that of its blob exactly when it was before and the step records no snapshot of the working copy with another hash than that of the content read |
| DiagramVersionHashes.VersionsFitIff | internal/api/diagram/version.go:60-99 | in every interleaving with failures, the recorded hash of every version is that of its blob exactly when every snapshot of the working copy recorded the hash of the content it read |
| DiagramVersionHashes.OvertakenSnapshotMisfits | internal/api/diagram/version.go:60-99 | a run in which no call fails: an update between a snapshot's reading of the row and of the content makes a version with the hash of the old content and a blob of the new one |
| EndpointSla.PreserveEndpointSlas | internal/api/catalog/service_logic.go:156-168 | changes the fresh endpoints in place to those with SLAs carried over |
| EndpointSla.SlasByKey | internal/api/catalog/service_logic.go:157-162 | the map holds, for each key, the SLA of the last endpoint that has one |
| EndpointSla.SlaKeyIdentifies | internal/api/catalog/service_logic.go:170-175 | two endpoints share a key exactly when both have the same operation id, or neither has one and method, in any case, and path are the same, or one's method goes on after a space with the beginning of the other's path |
| EndpointSla.SpacelessIdentifies | internal/api/catalog/service_logic.go:170-175 | without operation ids and spaces in methods, exactly when method, in any case, and path are the same |
| EndpointSla.SpacedMethodsCollide | internal/api/catalog/service_logic.go:170-175 | "GET /A" with path "b" and "GET" with path "/A b" share a key |
| EndpointSla.OnlySlasChange | internal/api/catalog/service_logic.go:156-168 | an endpoint gets the last existing SLA under its key, or keeps its own, and no other field changes |
| EndpointSla.PublishKeepsSla | internal/api/catalog/service_logic.go:136-168 | a publish keeps the SLA of each key that the new endpoints have |
| EndpointSla.SlaSurvives | internal/api/catalog/service_logic.go:150-168 | with distinct keys, an endpoint keeps its SLA through any number of endpoint lists that have its key |
| ApiGroupHandlers.ApiGroupHandler.StorePublish | internal/store/postgres/catalog.go:917-1012 | the transaction replaces endpoints, numbers and inserts the version, copies endpoints and updates the row, or changes nothing |
| ApiGroupHandlers.ApiGroupHandler.PrepareEndpoints | internal/api/catalog/service_logic.go:133-140 | stamps the commit and carries SLAs over, in place |
| ApiGroupHandlers.ApiGroupHandler.PublishApiGroupVersion | internal/api/catalog/service_logic.go:80-148 | for every pattern of failing calls, the stores and the status after a publish |
| ApiGroupHandlers.ApiGroupHandler.CreateApiGroup | internal/api/catalog/apigroup.go:55-130 | the row, and a first version if there is a spec |
| ApiGroupHandlers.ApiGroupHandler.UpdateApiGroup | internal/api/catalog/apigroup.go:230-312 | publishes when the spec's hash is new, else writes the row |
| ApiGroupHandlers.ApiGroupHandler.SyncApiGroup | internal/api/catalog/apigroup.go:398-440 | no change for an unchanged spec, else publishes or writes the row; says whether it made a version |
| ApiGroupHandlers.ApiGroupHandler.SyncNewApiGroup | internal/api/catalog/apigroup.go:442-466 | the create path of sync |
| ApiGroupHandlers.ApiGroupHandler.CreateApiGroupVersion | internal/api/catalog/apigroup_version.go:31-78 | an explicit release, of a given spec or of the working copy |
| ApiGroupHandlers.ApiGroupHandler.RestoreApiGroupVersion | internal/api/catalog/apigroup_version.go:97-160 | copies the snapshot row by row and publishes it with the version's spec |
| ApiGroupHandlers.ApiGroupHandler.DeleteApiGroup | internal/api/catalog/apigroup.go:327-338 | marks a live row |
| ApiGroupHandlers.ApiGroupHandler.UpdateApiEndpoint | internal/api/catalog/endpoint.go:174-256 | edits the row found by id alone, in a working copy or in a version; rows are then listed by order again |
| ApiGroups.HandleIsSafe | internal/api/catalog/service_logic.go:80-148 | whatever the request and whichever calls fail, keys, numbers and routes stay sound and every published version keeps its row, endpoints and blob |
| ApiGroups.RunIsSafe | internal/api/catalog/service_logic.go:80-148 | the same over every run: versions never change, version blobs are there and not empty, numbers are 1 to n |
| ApiGroupRequests.ReleaseLeaves | internal/api/catalog/service_logic.go:115-131 | column by column: a release without a spec that gets done leaves endpoints and spec of the group as they are; the new version has a copy of each working row in order, with only its version id and releaser set, the blob and hash of the group, and the given name or its number's; otherwise only its blob may be there |
| ApiGroupRequests.SpecLeaves | internal/api/catalog/service_logic.go:80-148 | column by column: a publish of a spec gets done exactly when its calls do, the spec parses and no route comes twice; then spec, hash, the endpoints in order with commit and carried SLA, and the next version with a copy of them; otherwise at most the two blobs change |
| ApiGroupRequests.CreateLeaves | internal/api/catalog/apigroup.go:55-130 | the new row's columns, and the publish it makes if there is a spec |
| ApiGroupRequests.SyncNewLeaves | internal/api/catalog/apigroup.go:442-466 | the same for the create path of sync, with the commit |
| ApiGroupRequests.UpdateLeaves | internal/api/catalog/apigroup.go:230-312 | the row's columns, and the publish it makes exactly for a spec of a new hash |
| ApiGroupRequests.SyncLeaves | internal/api/catalog/apigroup.go:398-440 | nothing for the recorded spec; else the row's columns, and the publish it makes if there is a spec |
| ApiGroupRequests.SpecReleaseLeaves | internal/api/catalog/apigroup_version.go:31-78 | the publish that a release with a spec makes: under the given name, not automatic |
| ApiGroupRequests.RestoreLeaves | internal/api/catalog/apigroup_version.go:97-160 | the publish that a restore makes: the version's blob with copies of its rows, not stamped with a version |
| ApiGroupRequests.DeleteLeaves | internal/api/catalog/apigroup.go:327-338 | only the mark of a live row changes |
| ApiGroupRequests.EditLeaves | internal/api/catalog/endpoint.go:174-256 | one row gets the patched columns, the list is in order again, and nothing else changes; it fails when the write does or a route comes twice |
| ApiGroupRequests.VersionEditLeaves | internal/api/catalog/endpoint.go:174-256 | the same for a row of a version, without a look at routes |
| ApiGroupRequests.EditOfNothing | internal/api/catalog/endpoint.go:174-190 | an edit finds nothing exactly when the row is not there |
| ApiGroupHashes.HandleKeepsHashes | internal/api/catalog/apigroup.go:55-466 | a request that succeeds or is turned down keeps: the group's hash is that of the blob at its spec key, a version's that of its blob |
| ApiGroupHashes.RunKeepsHashes | internal/api/catalog/apigroup.go:55-466 | the same over every run without failures |
| ApiGroupHashes.PublishKeepsHashesIff | internal/api/catalog/service_logic.go:93-148 | for all faults, a publish keeps that agreement exactly when it gets through, uploads no spec, uploads to another key than the row's, or uploads a spec of the row's hash |
| ApiGroupHashes.ReleaseFitsIff | internal/api/catalog/service_logic.go:115-131 | a release without a spec makes a version whose hash fits its blob exactly when the group's hash fitted the group's blob |
| ApiGroupHashes.ReleaseAfterPublishFitsIff | internal/api/catalog/service_logic.go:93-131 | so the release after a publish does exactly when the publish got through or spared the group's blob |
| ApiGroupHashes.FailedSyncBreaksHashes | internal/api/catalog/service_logic.go:93-119 | a spec that does not parse, synced over one that did, breaks it |
| ApiGroupHashes.ReleaseSealsMismatch | internal/api/catalog/service_logic.go:93-131 | a release after that makes a version whose hash is not that of its blob, and syncing the recorded spec again changes nothing |
| ApiGroupHashes.SyncAddsVersionIff | internal/api/catalog/apigroup.go:407-440 | a sync that is done leaves the spec key holding the synced spec, and adds a version exactly when it did not hold it before, unless the two hash alike |
| ApiGroupHashes.SyncTwiceIsOnce | internal/api/catalog/apigroup.go:407-411 | syncing the same spec again changes nothing, whatever else it says and whatever fails |
| ApiGroupRestores.RestoreRoundTrip | internal/api/catalog/apigroup_version.go:97-160 | after any run, failures included, restoring a version gives a working spec equal to its spec and endpoints equal to its snapshot in order and content, up to audit columns, commit hash and SLAs, adds one version and keeps all others |
| ApiGroupRestores.RestoreGetsDone | internal/api/catalog/apigroup_version.go:97-160 | unless one of its calls fails, restoring a version of a live group succeeds |
| ApiGroupRestores.RestoredSlaIff | internal/api/catalog/service_logic.go:136-168 | after any run, a restored row has its snapshot's SLA exactly when the working copy had no other last SLA under its key, or could not be listed |
| ApiGroupRestores.RestoreKeepsOtherSla | internal/api/catalog/apigroup_version.go:130-153 | a run: create, set an SLA, restore version 1, which has none; the SLA stays |
| ApiGroupRestores.SlaSurvivesRun | internal/api/catalog/service_logic.go:136-168 | over every run of requests, endpoint edits included as long as they do not touch the key's endpoints, a key's SLA stays as long as the key's endpoint does |
| ApiGroupRestores.EditKeepsVersionsIff | internal/api/catalog/endpoint.go:174-256 | an endpoint edit leaves published versions alone exactly when it is for the working copy, the write fails, the row is not there or belongs to no version, or nothing changes |
| ApiGroupRestores.EditReachesVersion | internal/api/catalog/endpoint.go:174-256 | a run: create a group, edit the row of its first version; the version has changed |
| ScreenshotQueue.Decoding | internal/queue/queue.go:42-52 | every member decodes, to its own job exactly when the organisation id has no bar |
| ScreenshotQueue.Encoding | internal/queue/queue.go:42-52 | encoding a decoded member gives the member back |
| ScreenshotQueue.Queue.EnqueueScreenshot | internal/queue/queue.go:57-60 | one entry per diagram, due three seconds from now |
| ScreenshotQueue.Queue.ClaimDue | internal/queue/queue.go:64-69 | takes and removes the first due member by due time and name, if one is due |
| ScreenshotQueue.Queue.DequeueScreenshot | internal/queue/queue.go:73-91 | the job of the claimed member, if any |
| ScreenshotQueue.EarliestIs | internal/queue/queue.go:64-69 | a poll finds a member exactly when one is due, and finds an earliest one |
| ScreenshotQueue.PendingIs | internal/queue/queue.go:54-71 | over every run, a member is pending exactly when it was enqueued and not claimed since, due three seconds after its latest enqueue |
| ScreenshotQueue.ClaimIsSettled | internal/queue/queue.go:62-69 | a claim comes at least three seconds after the latest enqueue of its member, and takes an earliest-due one |
| ScreenshotQueue.Debounced | internal/queue/queue.go:15-18 | a claim comes at least three seconds after each earlier enqueue of its member |
| ScreenshotQueue.ClaimsApart | internal/queue/queue.go:62-69 | between two claims of a member there is an enqueue, and they are three seconds apart |
| ScreenshotQueue.NothingLost | internal/queue/queue.go:54-91 | an enqueued member is pending or has been claimed since |
| ScreenshotQueue.Drain | internal/queue/queue.go:64-91 | as many polls as members, past all due times, claim each member once in order of due times |
| Migrations.SqlFiles | internal/migrate/migrate.go:39-50 | the names of the directory's ".sql" files, sorted |
| Migrations.Migrator.ApplyMigration | internal/migrate/migrate.go:83-99 | script and tracking row commit together or not at all |
| Migrations.Migrator.RunFS | internal/migrate/migrate.go:24-71 | the loop over sorted files ends where the specified run ends, with the same database and log |
| Migrations.AllRunsAreFaithful | internal/migrate/migrate.go:24-99 | over any runs, cut short anywhere, no script is executed twice and the database is the fold of the recorded ones |
| Migrations.RunsAreInOrder | internal/migrate/migrate.go:24-99 | with scripts only added at the sorted end, what is applied is always a first part of the sorted scripts, and all of them once a run succeeds |
| Migrations.SortedIff | internal/migrate/migrate.go:50-69 | a successful run leaves the scripts applied in sorted order exactly when those applied before were the first ones in that order |
| Migrations.RunTwiceIsOnce | internal/migrate/migrate.go:17-21 | after a successful run another one changes nothing, whatever happens to it |
| Migrations.SortedLists | internal/migrate/migrate.go:39-50 | the scripts of a directory are its regular ".sql" files, all of them, by ascending names |
| Migrations.RunDirIs | internal/migrate/migrate.go:24-99 | a run executes and records the scripts that are not recorded yet, in order, up to some script; it succeeds exactly when it starts, nothing goes wrong and each does its work on what those before it made, and then has done them all |
| RoleMap.OnePartIsDone | internal/rolemap/rolemap.go:184-191 | the return for a key of one part is unreachable: such a key was found before or is missing |
| RoleMap.LookupIs | internal/rolemap/rolemap.go:179-197 | a dotted key reads the nested path, unless a map on the way has the rest as a literal key; then the first such map answers |
| RoleMap.LookupReadsPathIff | internal/rolemap/rolemap.go:179-197 | for every key, that is the nested value exactly when no other value shadows it |
| RoleMap.LookupOfNested | internal/rolemap/rolemap.go:179-197 | looking up undoes nesting along dot-free components |
| RoleMap.ListValues | internal/rolemap/rolemap.go:199-223 | the loop lists the value's strings, leaving out nil items |
| RoleMap.MatchRule | internal/rolemap/rolemap.go:96-177 | per operator, the verdict: yes, no, or cannot be evaluated |
| RoleMap.ValuesAre | internal/rolemap/rolemap.go:199-223 | a text is among a value's strings exactly when the value or one of its items, nil ones apart, is or prints as it |
| RoleMap.VerdictIs | internal/rolemap/rolemap.go:96-177 | per operator: a text that is equal to, contains, starts or ends with, or matches the rule's value; for the negated ones a value that is there and has no such text; only an unknown operator or a broken expression cannot be evaluated |
| RoleMap.AcceptedIff | internal/rolemap/rolemap.go:58-77 | accepted are exactly the rules with a key that is not blank, an existing role and a value if they take one that can be evaluated for every user |
| StableSort.SortStable | internal/rolemap/rolemap.go:82-82 | sorts in place into the stable order by a key |
| StableSort.StableKeepsTies | internal/rolemap/rolemap.go:82-82 | elements with the same key stay in their order |
| RoleMap.Resolve | internal/rolemap/rolemap.go:79-94 | the role of the rule that does not say no with the least priority and then position, or an error if that rule cannot be evaluated, or the default if all say no; the caller's rules are unchanged |
| RoleMap.OneOutcome | internal/rolemap/rolemap.go:79-94 | the rules determine the outcome |
| RoleMap.AcceptedRulesResolve | internal/rolemap/rolemap.go:58-94 | rules that validation accepts always resolve, to a known role or the default |
| RoleMap.OrderDoesNotMatter | internal/rolemap/rolemap.go:79-94 | with distinct priorities the outcome does not depend on the order of the rules |

## Left out

- HTTP decoding, routing, authentication, permissions, status codes and response bodies.
- Postgres: tables are maps and sequences under the statements' documented effect. Endpoint ids, timestamps, folder, team and other metadata columns are dropped, and rows with equal `ord` keep the order they had.
- gqlparser, protocompile, YAML, JSON and regexp: the model starts from typed trees. YAML aliases and merge keys, and non-string keys, are not among them.
- JSON Pointer escapes (`~0`, `~1`) and array indices: the program decodes neither, nor does the model.
- Cyclic references: the program recurses without end; the model says exactly when (`OpenApiRefs.ReturnsIffAcyclic`).
- The request and response bodies of endpoints beyond `$ref` inlining, and the endpoints made from GraphQL and protobuf: `body` stands for those columns.
- Variables of GraphQL operations, and whether every rendered query is valid: an object field whose type is not expanded prints bare.
- Upper and lower case outside ASCII, except for the characters that map to ASCII letters.
- GraphQLPrint.RequestReadsBack: covers the selection set; the operation header, its variables and its arguments are not modelled.
- DiagramInterleaving.ServedWasTheBlob: speaks of content served from the cache; a row hash that a racing request overwrites is not part of it.
- Diagrams.RestoreRoundTrip: holds for a version of any diagram, because the handler does not check that the version belongs to the diagram it restores.
- Thumbnails, screenshots and their row updates; the queue ends at the claim, and Redis calls that fail change nothing.
- Two migration runners at the same time: the second insertion of a version would fail on the primary key.
- Creating and deleting single endpoints, listing, and reading specs: plain row operations.
- Deployments without object storage, where publishing is skipped.
- Billing, the GitHub app, SAML and OIDC, seat limits, load tests and cost estimates.
