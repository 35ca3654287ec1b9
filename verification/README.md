# Verified model of the content-extraction proxy

A Dafny 4.11 model of the parts of the proxy that hold state, arithmetic or a
protocol, with proofs about every input, every run and every interleaving.
`dafny verify dfyconfig.toml` checks all of it.

What is modelled, file by file:

* **Compound File writer** (`CfbReader`, `CfbNames`, `CfbLayout`, `CfbChains`,
  `CfbDirectory`, `CfbRoundTrip`, `CfbPlacement`, `CfbSearch`, `CfbWriter`, over
  `Bytes` and `Lexicographic`). `CfbReader` is a reader written from [MS-CFB]
  sections 2.1 to 2.6 alone, with the standard's constants; the script's are its own.
  `CfbLayout` says what `_build_cfb` plans, `CfbWriter` is the script
  itself (byte arrays, `pack_into`, the loops over sectors), proved to produce the
  plan; the round trip connects plan and reader.
* **JSON null normalisation** (`JsonText`, `Docling`, `DoclingRules`, over `Text`). A
  JSON tree, a
  compact printer with any string escaper that prints a quote as `\"`, the letters of
  field names as themselves, and any other character as itself or as an escape that
  begins with a backslash; and the byte-level search and replace.
* **Asynchronous protocol** (`Tasks`, `TaskSafety`, `TaskAgreement`, `TaskTenants`,
  `TaskLimits`, `TaskPairing`).
  A step system, one Redis command per step: submissions, worker attempts with
  retries, result readers, expiries and failing commands, interleaved at will.
* **Spooling and fallback** (`Spool`, `Uploads`, `Fallback`). A source of any length
  read in any chunks, temporary files whose operations may fail, the rewindable
  reader, the parts of a multipart upload, the request builder with its cleanup, and
  the dispatch with its single retry.
* **Routing** (`Mime`, `MimeRules`, `Registry`, `RoutingRules`, `Routing`). MIME
  resolution, the engine table
  built from an unordered map, the phased search, and the synchronous and
  asynchronous entry points side by side, the synchronous ones from the body of the
  request to the engine calls and what the client is sent.
* **DNS cache and pinning** (`DnsCache`, `DnsLookups`, `Pinning`). The bounded cache
  with its eviction loop, the step system of concurrent merged lookups, the address
  policy and the rewriting of sources.
* **Reverse proxy** (`Paths`, `AuthStamps`, `ReverseProxy`). Path rewriting on a model
  of Go's `path.Clean`, the two ways of stamping credentials, and the Rewrite step
  with its trust test and forwarding headers.
* **Body capture** (`Capture`). Peek-and-restore streams, the capturing response
  writer and `itoa`.

Where Go ranges over a map, the model picks the next key freely, so every
postcondition holds for every iteration order. Where the order can matter, the loop
also returns it as a ghost enumeration of the keys (`Enumerations`), and the results
about orders quantify over all enumerations. The parameters of the model are: the
upper-casing of names in the Compound File writer, the JSON string escaper, the
magic-byte sniffer, API-key fingerprints and the hash of idempotency keys, DNS
answers and the clock, URL parsing and printing, the text of an IP address, and
which I/O operation fails.

Five comments of the repository promise more than the code does; the model follows
the code:

* `internal/transport/http/handlers/async.go:230-233` says that of two concurrent
  submissions under one Idempotency-Key only one runs the engine work. Both may
  enqueue before either reserves the key (`TaskAgreement.BothCanEnqueue`); what
  holds is agreement on the token, and that an answered submission enqueued exactly
  when its lookup came before the reservation
  (`TaskAgreement.EnqueuedIffBeforeReservation`).
* `internal/tasks/orchestrator.go:444-447` says that a result is the stored body with
  its content type. The two are separate keys, written and read by separate commands,
  so when a task is retried a reader can be given the body of one attempt with the
  content type of another (`TaskPairing.RetriedAnswer`; `TaskPairing.PairedIff` says
  exactly when they belong together).
* `internal/engine/mime.go:27-30` treats a pair of wildcards as matching every type,
  but the branch before it takes every pattern that ends in a slash and a star, so
  the pair covers only types whose first part is a star (`Registry.DoubleWildcard`).
* `internal/engine/mimedetect/detect.go:191-195` says that a `.csv` name beats a
  text/plain sniff; the sniff wins (`Mime.TextSniffBeatsExtension`).
* `scripts/gen-fixtures.py:520-526` claims the order of [MS-CFB] section 2.6.4. The
  script counts code points where the standard counts UTF-16 units, and upper-cases
  whole strings where the standard maps unit by unit. So the orders can differ, and a
  search of the tree can miss a stream: beyond the Basic Multilingual Plane
  (`CfbSearch.SurrogateNameIsLost`), and within it for a letter whose upper case is
  two letters (`CfbSearch.SharpSPairIsLost`). A stream is found by its name exactly
  when every stream that the script puts before it comes before it in the standard's
  order too (`CfbSearch.ReachedIff`, for all names and all upper-casings).

## Model

| member | source | states |
|---|---|---|
| CfbRoundTrip.RoundTrip | scripts/gen-fixtures.py:365-588 | for every dict of streams that the writer accepts, the reader of [MS-CFB] lists exactly the streams, each with its name and bytes, small ones through the mini stream and large ones through sectors of their own |
| CfbWriter.BuildCfb | scripts/gen-fixtures.py:365-588 | the loops yield an image that reads back as the streams, of 512 bytes for the header and each sector; or they fail, exactly when the sectors are more than one FAT sector can list, or else a name takes more than 31 UTF-16 units |
| CfbRoundTrip.EveryStreamListed | scripts/gen-fixtures.py:528-558 | every stream of the dict is in the listing |
| CfbRoundTrip.Opens | scripts/gen-fixtures.py:388-394 | the header, FAT, directory, mini FAT and mini stream that a reader decodes are the planned ones, and the file is 512 bytes for the header and each sector |
| CfbRoundTrip.HeaderFields | scripts/gen-fixtures.py:387-518 | every field of the header, at the standard's offset, has the value the standard requires or the planned location, down to the reserved bytes and the unused DIFAT slots; the fixed fields byte by byte |
| CfbRoundTrip.StreamReads | scripts/gen-fixtures.py:425-485 | following the chain recorded for a stream returns its bytes, padding cut off |
| CfbPlacement.PlacedByLength | scripts/gen-fixtures.py:419-423 | in every image a stream's entry begins a chain of the mini FAT, inside the mini stream, if the stream has fewer than 4096 bytes, and otherwise a chain of the FAT beyond the other parts |
| CfbPlacement.ChainsAreLeast | scripts/gen-fixtures.py:425-475 | a chain has as many sectors as the bytes need and no more, but at least one |
| CfbPlacement.PartsAreLeast | scripts/gen-fixtures.py:448-462 | so have the directory, the mini FAT and the mini stream |
| CfbPlacement.ImageIsItsParts | scripts/gen-fixtures.py:576-588 | the length of the file is that of the header, the FAT sector and these parts |
| CfbPlacement.NamesDecode | scripts/gen-fixtures.py:361-362 | the names that a reader lists decode, by RFC 2781, to the dict's own, each with its bytes |
| CfbChains.Allocation | scripts/gen-fixtures.py:459-501 | the sectors are shared out among the FAT sector and disjoint chains, each chain ends after exactly its allotted length, and every other FAT slot is free |
| CfbChains.MiniAllocation | scripts/gen-fixtures.py:425-446 | likewise the mini FAT: disjoint chains for the small streams, each of exactly its allotted length, and free slots up to a multiple of 128 |
| CfbChains.TilesPartition | scripts/gen-fixtures.py:464-479 | consecutive extents give each sector of the range to exactly one of them |
| CfbChains.ChainOfRun | scripts/gen-fixtures.py:489-500 | a run of FAT entries is followed from its first sector through each in order to the end mark |
| CfbChains.FullRun | scripts/gen-fixtures.py:471-485 | the FAT holds, for each large stream, a run at its recorded start of its recorded length |
| CfbChains.MiniRun | scripts/gen-fixtures.py:425-446 | the mini FAT holds such a run for each small stream |
| CfbDirectory.EntryRoundTrip | scripts/gen-fixtures.py:397-417 | a directory entry parses back to the name, kind, siblings, child, start and size it was packed from |
| CfbDirectory.EntryIsPadded | scripts/gen-fixtures.py:397-417 | besides its fields an entry is zero, but for the black node colour |
| CfbDirectory.UnusedEntry | scripts/gen-fixtures.py:560-568 | an unused entry reads as one: no name, kind 0, no links |
| CfbDirectory.EntriesRoundTrip | scripts/gen-fixtures.py:537-569 | so does a whole directory of 128-byte entries |
| CfbDirectory.InOrderOfChain | scripts/gen-fixtures.py:532-558 | the in-order walk of the right-leaning chain lists the entries once, in order |
| CfbDirectory.SearchEntry | scripts/gen-fixtures.py:528-558 | for any strict order, a search of the chain for an entry's name ends at that entry if and only if the names of all entries before it are less |
| CfbDirectory.SearchTree | scripts/gen-fixtures.py:528-558 | so every entry is found if and only if the chain is strictly increasing |
| CfbNames.SortSorted | scripts/gen-fixtures.py:525-528 | the sort by length and upper-cased name is sorted |
| CfbNames.SortStable | scripts/gen-fixtures.py:525-528 | one name ends up before another if and only if its key is less, or the keys are equal and it was given first |
| CfbNames.SortOfDistinct | scripts/gen-fixtures.py:525-530 | it keeps the names distinct, and is strictly increasing if and only if the keys are pairwise distinct |
| CfbNames.OrderedAsStandard | scripts/gen-fixtures.py:520-526 | a name is ordered as [MS-CFB] section 2.6.4 orders it, against all Basic names whose two upper cases agree, if and only if it is itself in the Basic Multilingual Plane |
| CfbNames.Utf16Injective | scripts/gen-fixtures.py:405 | different names are written as different UTF-16 strings |
| CfbSearch.ReachedIff | scripts/gen-fixtures.py:520-558 | for all names and upper-casings, the standard's tree search for a stream's name ends at that stream if and only if every stream that the script puts before it is before it in the standard's order |
| CfbSearch.AllFoundIff | scripts/gen-fixtures.py:520-558 | so every stream is found if and only if the standard orders any two streams as the script does |
| CfbSearch.AllFoundIffOrdersAgree | scripts/gen-fixtures.py:520-558 | with distinct sort keys, if and only if every two names whose keys are in order are in the standard's order |
| CfbSearch.LookupFinds | scripts/gen-fixtures.py:365-588 | under that condition, searching the image for a stream's name returns that stream's bytes |
| CfbSearch.LookupFindsPlainNames | scripts/gen-fixtures.py:520-526 | the condition holds for Basic names with distinct keys, on each of which the two upper-casings agree |
| CfbSearch.LaterIsLost | scripts/gen-fixtures.py:520-558 | whenever the two orders disagree about two names, the writer accepts the pair and the search for one of them finds nothing |
| CfbSearch.SurrogateNameIsLost | scripts/gen-fixtures.py:525-526 | such a pair beyond the Basic Multilingual Plane, for every case map that leaves a surrogate after the letter A |
| CfbSearch.SharpSPairIsLost | scripts/gen-fixtures.py:525-526 | such a pair within it, with distinct keys: a sharp s, which the script upper-cases to two letters, and T |
| CfbWriter.StartHeader | scripts/gen-fixtures.py:388-394 | the first header fields are packed in place |
| CfbWriter.FinishHeader | scripts/gen-fixtures.py:503-518 | the remaining ones, in place, over any start already packed |
| CfbWriter.PackMini | scripts/gen-fixtures.py:425-441 | the loop over small streams yields the planned mini stream, mini FAT and recorded starts |
| CfbWriter.PadMiniFat | scripts/gen-fixtures.py:443-446 | the padding loop reaches the next positive multiple of 128 entries |
| CfbWriter.AllocateFull | scripts/gen-fixtures.py:471-487 | the loop over large streams yields the planned chains, starts and sector payloads |
| CfbWriter.FillFat | scripts/gen-fixtures.py:489-500 | the FAT array is filled as planned, or a sector number runs past it, exactly when there are more than 128 sectors |
| CfbWriter.MakeDirectory | scripts/gen-fixtures.py:528-569 | the directory blocks are the planned ones, or a name is too long |
| CfbWriter.Assemble | scripts/gen-fixtures.py:576-588 | writing each part to its own sectors, in any of the loops, gives the parts one after the other |
| Docling.NormalizePrinted | internal/engine/compat/docling/docling.go:263-271 | on the printed form of any JSON value the replacements are one JSON edit |
| Docling.NormalizeIsIntended | internal/engine/compat/docling/docling.go:231-271 | that edit is the intended one (null becomes "" in exactly the named fields) if and only if no null member's name ends in a quote and a field; the length drops by two for each replacement |
| Docling.IntendedWithoutQuotes | internal/engine/compat/docling/docling.go:231-271 | it is the intended one whenever no member name contains a quote |
| DoclingRules.ContentIsBlanked | internal/engine/compat/docling/docling.go:259-271 | for such values, null becomes "" in exactly the five members the code names, at any depth, and nothing else changes |
| DoclingRules.JsonIff | internal/engine/compat/docling/docling.go:255-257 | which Content-Types are normalised: exactly those that after blanks, in any case, begin with application/json |
| Docling.NormalizeTwicePrinted | internal/engine/compat/docling/docling.go:263-271 | normalising printed JSON twice is normalising it once |
| Docling.NormalizeNullContent | internal/engine/compat/docling/docling.go:263-271 | the loop over the fields, on arbitrary bytes, is those replacements, never lengthens, and leaves an output of equal length unchanged |
| Docling.MaybeNormalize | internal/engine/compat/docling/docling.go:231-253 | only JSON bodies change; when the length changes Content-Length denotes the new one, and otherwise the headers stay; a right Content-Length stays right, and no other header changes |
| Docling.QuotedNameIsBlanked | internal/engine/compat/docling/docling.go:263-271 | a JSON value that should stay as it is and does not |
| Docling.NotIdempotentOnBytes | internal/engine/compat/docling/docling.go:263-271 | bytes, not JSON, that a second pass changes again |
| Tasks.ValidateBlobLimits | internal/tasks/orchestrator.go:213-231 | accepts if and only if every blob and their sum are within the caps |
| TaskLimits.TotalOfParts | internal/tasks/orchestrator.go:217-228 | the running total is the sum of the sizes |
| TaskLimits.OnlyAdmissibleEnqueued | internal/tasks/orchestrator.go:246-249 | in every run only submissions within both caps reach the queue, and only submissions over one are rejected |
| TaskSafety.RunSafe | internal/tasks/orchestrator.go:246-313 | the safety invariant holds in every reachable state, with expiry, failures and retries |
| TaskSafety.Attribution | internal/tasks/orchestrator.go:448-475 | a body read through a token was saved by an attempt of exactly the task bound to it, and the caller's fingerprint is the submitter's unless that was empty |
| TaskSafety.EngineSeesUploads | internal/tasks/worker.go:80-107 | on every attempt the engine is handed the uploaded files in order, with names, types, lengths and bytes |
| TaskTenants.AnsweredUnderOwnKey | internal/transport/http/handlers/async.go:200-241 | in every run, with failures and expiry, a caller is answered with a token bound to its own fingerprint |
| TaskTenants.TenantsStayApart | internal/transport/http/handlers/async.go:200-211 | in every run two submissions get one token only if both gave an Idempotency-Key, the keys hash alike and the fingerprints are equal |
| TaskTenants.SubmitterMayRead | internal/tasks/orchestrator.go:444-452 | while its binding lives, the token of an answer opens the bound task to exactly the callers with the submitter's fingerprint, or to all when that is empty |
| TaskPairing.RunKnown | internal/tasks/orchestrator.go:465-475 | in every reachable state, what the result keys hold and what readers have read was written by the attempt that wrote it last |
| TaskPairing.HalvesAreGenuine | internal/tasks/orchestrator.go:448-463 | the body of an answer was made by the attempt that wrote the task's body last before it was read, and its content type is empty or was made, for the same task, by the attempt that wrote the type last before it was read |
| TaskPairing.PairedIff | internal/tasks/orchestrator.go:448-475 | body and type are one attempt's answer when those two attempts are one, or no type was found and the attempt had none; and only then, if no two attempts of the task made equal bodies or equal types |
| TaskPairing.PairedWithoutRetry | internal/tasks/orchestrator.go:448-475 | with one attempt that answered, the body is its body and a type that was found is its type |
| TaskPairing.HalvesCanMix | internal/tasks/orchestrator.go:458-474 | from every state in which two attempts of a task have converted, a reader can be given the body of one with the type of the other |
| TaskPairing.MixedAnswer | internal/tasks/orchestrator.go:458-474 | a run of the whole system that ends so |
| TaskPairing.RetryCanMix | internal/tasks/orchestrator.go:458-474 | it takes no two attempts at once: from every state in which a type is stored and a retry has converted, a reader can be given the retry's body with the earlier type |
| TaskPairing.RetriedAnswer | internal/tasks/orchestrator.go:458-474 | a run of the whole system that ends so, its attempts one after the other |
| TaskAgreement.RunAgrees | internal/tasks/orchestrator.go:488-534 | the agreement invariant holds in every state reached without command failures and expiries of keys |
| TaskAgreement.Agreement | internal/transport/http/handlers/async.go:207-241 | all answers under one fingerprint and Idempotency-Key carry one token, that of the only successful SETNX, and it has a binding |
| TaskAgreement.EnqueuedIffBeforeReservation | internal/transport/http/handlers/async.go:207-236 | an answered submission with an Idempotency-Key made one lookup, and it enqueued if and only if that came before every successful reservation of its key |
| TaskAgreement.EnqueuesOnlyBeforeReservation | internal/tasks/orchestrator.go:488-534 | a lookup asks under its caller's fingerprint and the hash of its key, finds the record if and only if the reservation came first, and then its submission, answered or not, never enqueues |
| TaskAgreement.BothCanEnqueue | internal/transport/http/handlers/async.go:207-236 | a run without any failure in which two submissions under one key both enqueue |
| Spool.Part | internal/spool/spool.go:127-201 | exact contents, size and offset; too large if and only if capped and longer; in memory if and only if within the threshold; a bound on what is consumed; no handle or directory entry left by any failing path |
| Spool.CopyUpTo | internal/spool/spool.go:127-160 | a limited copy takes exactly the limit or everything, for any chunking |
| Spool.Reader.Read | internal/spool/spool.go:62-71 | delivers the next bytes of the contents and nothing after Close |
| Spool.Reader.Seek | internal/spool/spool.go:73-83 | moves the offset as asked, or leaves it |
| Spool.Reader.Close | internal/spool/spool.go:85-110 | releases the file once, whatever is called later |
| Fallback.PeekHead | internal/transport/http/handlers/mime_resolve.go:34-47 | returns the first 512 bytes, or all, and leaves the reader at its start |
| Fallback.RewindFiles | internal/transport/http/handlers/fallback.go:35-52 | every body is back at its start, or a seek was refused |
| Fallback.Dispatch | internal/transport/http/handlers/convert.go:157-219 | at most two engine calls, each with the request and finding all bodies whole and at offset 0; the second only on the default engine after an error or a status of 500 or more; a response that gives way is closed unread, and the one returned, also when some body does not rewind, is open with its whole body unread |
| Uploads.ReadField | internal/transport/http/handlers/convert.go:328-342 | a form field is read whole, or refused, exactly when it is over the cap |
| Uploads.FilesInOrder | internal/transport/http/handlers/convert.go:311-316 | the files of a request are its file parts, each as often as it occurs and in order |
| Uploads.OptionsAreLast | internal/transport/http/handlers/convert.go:343 | an option is there if and only if some field has its name, with the data of the last one |
| Fallback.BuildFileRequest | internal/transport/http/handlers/convert.go:236-347 | succeeds if and only if every file and field is within its cap; then the bodies are the files in order, whole, rewound and apart, with their heads peeked, and the options are the last of each field; on failure everything opened is released |
| Mime.ExtensionIsFromLastDot | internal/engine/mimedetect/detect.go:267-277 | the extension is what follows the last dot of the last path segment, and nothing when there is none |
| Mime.FilepathExt | internal/engine/engine.go:376-386 | the scan from the end computes it |
| Mime.CanonicalDropsParameters | internal/engine/mimedetect/detect.go:284-293 | parameters never change the canonical type |
| Mime.NewResolver | internal/engine/mimedetect/detect.go:151-158 | for every iteration order the table is the built-in one with the overrides merged in along that order |
| Mime.OrderIrrelevantIff | internal/engine/mimedetect/detect.go:151-158 | all orders in which the loop can visit the overrides give one table if and only if no two overrides normalise to one key with different values |
| Mime.ValidOverridesWin | internal/config/config.go:992-1008 | for a validated configuration the table holds the operator's entry where there is one, else the built-in entry |
| Mime.MergedIsClean | internal/config/config.go:992-1008 | and every type in it is bare and lower case |
| Mime.ResolvedIsCanonical | internal/engine/mimedetect/detect.go:201-246 | the resolved type is never empty and canonicalising it again for routing changes nothing |
| MimeRules.SpelledTypeIsCanonical | internal/engine/mimedetect/detect.go:284-293 | a type in any case, between blanks and before parameters, is resolved to its lower-case self |
| MimeRules.DeclaredWins | internal/engine/mimedetect/detect.go:201-206 | a declared type that says something is the answer |
| MimeRules.SniffWins | internal/engine/mimedetect/detect.go:208-220 | otherwise every concrete type that the first bytes look like, other than a Compound File, is the answer for every file name |
| MimeRules.NameTellsCompoundFiles | internal/engine/mimedetect/detect.go:224-227 | a Compound File with a known extension has the table's type for it |
| MimeRules.NameTellsTheRest | internal/engine/mimedetect/detect.go:229-233 | so has a body that looks like nothing |
| MimeRules.NothingTells | internal/engine/mimedetect/detect.go:235-246 | without a known extension a Compound File stays what it looks like, and the rest is an octet stream |
| MimeRules.OfficeFilesAreTold | internal/engine/mimedetect/detect.go:113-131 | the ten built-in extensions, in any case, give their types |
| Mime.NameMattersIff | internal/engine/mimedetect/detect.go:201-246 | renaming an upload can change its type if and only if the declared type says nothing, the body looks like nothing or like any Compound File, and the table has for some name another type than the body gets without one |
| Mime.TextSniffBeatsExtension | internal/engine/mimedetect/detect.go:218-220 | a text/plain sniff wins over every file name |
| Registry.StringSort | internal/engine/engine.go:400-407 | the in-place sort yields an ordered permutation |
| Registry.SortedIsUnique | internal/engine/engine.go:400-407 | there is only one such permutation |
| Lexicographic.BeforeIff | internal/engine/engine.go:400-407 | the order is the dictionary's: the first difference decides, and a proper prefix comes first |
| Registry.CompilePatterns | internal/engine/mime.go:16-34 | the loop, with its unreachable branch, compiles the listed types |
| Registry.PatternsMean | internal/engine/mime.go:36-42 | a compiled pattern matches a type if and only if a listed entry covers it |
| Registry.DoubleWildcard | internal/engine/mime.go:23-30 | a pair of wildcards covers only types whose own first part is a star |
| Registry.ExtPatternsMean | internal/engine/mime.go:58-82 | likewise for extensions, with or without the dot |
| Registry.NewRegistry | internal/engine/engine.go:200-245 | for every iteration order, the error cases and every field of the table |
| Registry.TableIsUnique | internal/engine/engine.go:200-245 | the table does not depend on that order |
| Registry.PickRouteVerbose | internal/engine/engine.go:296-339 | the nested loops compute the phased search |
| Registry.PickIsTheRule | internal/engine/engine.go:280-339 | the answer is the only one the rule allows: the alphabetically first non-default engine that asks for the upload in the first phase that has one, else the default if it answers the facade, else the error |
| Registry.RuleIsDeterministic | internal/engine/engine.go:280-339 | the rule leaves no choice |
| RoutingRules.StrategiesMean | internal/engine/routing_strategy.go:11-36 | under each strategy, which of type and name decides and which is asked first; any other word means the type first |
| RoutingRules.OneSignalOnly | internal/engine/routing_strategy.go:13-20 | under mime the file name has no influence, under extension the type has none |
| RoutingRules.PickedAnswersFacade | internal/engine/engine.go:296-339 | whoever is picked answers the facade that was asked for |
| RoutingRules.ListedTypeMeans | internal/engine/mime.go:16-42 | what a listed type covers, between blanks and in any case: a wildcard for the second part all types with that first part, any other word itself only |
| RoutingRules.ListedExtensionMeans | internal/engine/mime.go:58-82 | likewise a listed extension, with or without its dot |
| Registry.SameAsMimeIff | internal/engine/engine.go:351-364 | mime_then_extension and mime route all uploads alike if and only if no non-default engine lists an extension that a file can have |
| Routing.DecodeFilename | internal/transport/http/handlers/external.go:165-180 | the decoded name is never empty and only printable ASCII |
| Routing.NameIsDecoded | internal/transport/http/handlers/external.go:165-180 | every percent-encoding of a printable name stands for that name, and what does not decode to one for "upload" |
| Routing.Process | internal/transport/http/handlers/external.go:47-159 | the synchronous external path answers as the common route specification says, with 400, 413 and 501 for its refusals; the engine it picks is called once, with the name, the type and the whole body at offset 0; the client is sent the engine's status and whole body, or 502; everything is released |
| Routing.SubmitProcess | internal/transport/http/handlers/async.go:67-91 | the asynchronous external path meets the same specification, with 400 instead of 413 for a body over the cap |
| Routing.Buffer | internal/tasks/payload.go:194-209 | spool, drain and close hold exactly the body and leave nothing open |
| Routing.PayloadFromMultipart | internal/tasks/payload.go:88-173 | buffers and references are index-aligned, in upload order; accepts if and only if every file and field is within its cap |
| Routing.Submit | internal/transport/http/handlers/async.go:152-172 | the asynchronous docling path routes by the first file as specified and leaves nothing open |
| Routing.RouteDependsOnlyOn | internal/transport/http/handlers/async.go:152-172 | bare declared type, first bytes and lowered extension of the first file fix the engine |
| Routing.Handle | internal/transport/http/handlers/convert.go:84-219 | the synchronous docling path as a whole: an upload is refused, or described and routed like the asynchronous one; the engine calls, at most two, carry names, types and the form fields as options and see all files whole and at offset 0; the client is sent the last call's status and whole body, or 502; below 500 that is the first and only call's; everything is released |
| Routing.WorkerRunsPickedEngine | internal/tasks/worker.go:64-68 | the worker's lookup by name finds the very engine that was picked |
| Routing.NoResolverAgreesIff | internal/tasks/payload.go:139-147 | without an injected resolver the two paths see one type if and only if the declared type says something, or is the octet stream and neither body nor name says more |
| DnsCache.SentinelIsSoundIff | internal/transport/http/handlers/ssrf.go:396-406 | every iteration order evicts an entry that expires soonest, if and only if the empty host is not alone in doing so |
| DnsCache.Cache.Get | internal/transport/http/handlers/ssrf.go:383-391 | finds exactly the live entries |
| DnsCache.Cache.Put | internal/transport/http/handlers/ssrf.go:393-412 | the eviction loop and the store, for every iteration order |
| DnsCache.StoreKeepsBound | internal/transport/http/handlers/ssrf.go:393-412 | the bound is kept and no other entry changes |
| DnsCache.StoredIsFound | internal/transport/http/handlers/ssrf.go:383-412 | what was stored is found until its time to live has passed |
| DnsCache.EvictionPrefersExpired | internal/transport/http/handlers/ssrf.go:396-406 | a live entry is given up only when no expired one is kept |
| DnsLookups.RunKeeps | internal/transport/http/handlers/ssrf.go:178-206 | the invariant of concurrent lookups holds along every run |
| DnsLookups.LookupsAreGenuine | internal/transport/http/handlers/ssrf.go:178-206 | what a lookup returns the DNS answered for that host, and it was stored at most the time to live before the cache was read; the cache is within its bound and the sentinel is sound |
| DnsLookups.OneQuestionPerHost | internal/transport/http/handlers/ssrf.go:187-202 | at most one caller at a time asks the DNS about a host |
| Pinning.ClassifyIP | internal/transport/http/handlers/ssrf.go:327-358 | the switch and the scan compute the classification |
| Pinning.MappedAlike | internal/transport/http/handlers/ssrf.go:254-261 | an IPv4 address and its mapped form are classified alike |
| Pinning.FineV4Iff | internal/transport/http/handlers/ssrf.go:262-276 | exactly which IPv4 addresses are accepted, octet by octet |
| Pinning.FineV6Iff | internal/transport/http/handlers/ssrf.go:327-358 | exactly which IPv6 addresses are accepted |
| Pinning.ReasonV4 | internal/transport/http/handlers/ssrf.go:327-358 | the reason given for each IPv4 address, octet by octet |
| Pinning.ReasonV6 | internal/transport/http/handlers/ssrf.go:327-358 | and for each other IPv6 address |
| Pinning.Resolve | internal/transport/http/handlers/ssrf.go:127-172 | succeeds if and only if scheme, host, port and every address pass; uses the first address, and the given port or else 80 for http and 443 for https |
| Pinning.AcceptsIff | internal/transport/http/handlers/ssrf.go:133-170 | what passes: http and https, no port or 80 or 443, a host, and addresses that are all fine |
| Pinning.HostAndPort | internal/transport/http/handlers/ssrf.go:137-143 | a host name is split from its port |
| Pinning.PinnedReadsBack | internal/transport/http/handlers/convert.go:417-428 | the pinned host splits into the literal address and the port |
| Pinning.PinnedIsInjective | internal/transport/http/handlers/convert.go:417-428 | different addresses of a family or different ports are pinned apart |
| Pinning.ValidateSources | internal/transport/http/handlers/convert.go:406-442 | in place and in order, pins every source or stops at the first rejected one |
| Pinning.PinningIsFaithful | internal/transport/http/handlers/convert.go:383-405 | a pinned source has its scheme, path, query and headers, an accepted resolved address, the port that was given or else 80 for http and 443 for https, and a Host header, its own or the original host |
| Paths.CleanIff | internal/transport/http/reverseproxy/proxy.go:94-108 | a rooted path is clean if and only if it is "/" or all its elements are plain |
| Paths.CleanTwice | internal/transport/http/reverseproxy/proxy.go:115-120 | cleaning is idempotent on rooted paths |
| Paths.CleanDrops | internal/transport/http/reverseproxy/proxy.go:115-120 | cleaning drops empty elements and dots, and takes back an element before "..", or nothing at the root |
| Paths.PassesIff | internal/transport/http/reverseproxy/proxy.go:94-108 | exactly which paths the guard lets through |
| Paths.RewriteIsExact | internal/transport/http/reverseproxy/proxy.go:59-64 | for every base path of a URL with a host, the outgoing path is the clean base followed by the unchanged remainder |
| Paths.OutboundStaysBelowBase | internal/transport/http/reverseproxy/proxy.go:110-121 | it is already clean and the base stays an element-wise prefix |
| Paths.RewriteIsInjective | internal/transport/http/reverseproxy/proxy.go:59-64 | different requests have different outgoing paths |
| AuthStamps.ValidateAuthHeaders | internal/config/config.go:1019-1050 | for one engine, the table of seen names accepts if and only if all names are well formed and differ in more than case |
| AuthStamps.ValidateAllAuthHeaders | internal/config/config.go:1019-1050 | the loop over the engines accepts if and only if that holds of every enabled one, in every iteration order |
| AuthStamps.SameHeaderIff | internal/config/config.go:1027-1046 | two names are one header if and only if they differ only in case |
| AuthStamps.ApplyMulti | internal/engine/authutil/auth.go:121-154 | one outcome for each spec, and the headers stamped in order |
| AuthStamps.ConfiguredIsSent | internal/engine/authutil/auth.go:121-154 | for a validated configuration each of its headers carries its key, after "Bearer " if its scheme is bearer, unless the key is empty; no other header changes |
| AuthStamps.FormatHeaderValuesMulti | internal/engine/authutil/auth.go:164-181 | the map of stamps, keyed by configured spelling |
| AuthStamps.StampAll | internal/transport/http/reverseproxy/proxy.go:75-80 | for every iteration order the result is the stamps set along that order; each header is a stamp's or the one before |
| AuthStamps.RoutesCoincideIff | internal/engine/authutil/auth.go:111-181 | every order in which the loop can visit the stamps gives the headers of the other route if and only if no two spellings of a header carry different values |
| AuthStamps.ValidRoutesCoincide | internal/config/config.go:1019-1050 | they do for every configuration that validation accepts |
| ReverseProxy.IsTrusted | internal/transport/http/reverseproxy/proxy.go:177-198 | the scan answers whether the caller's address lies in a trusted network |
| ReverseProxy.SetXForwarded | internal/transport/http/reverseproxy/proxy.go:81 | the forwarding headers that the Go library sets after the stamps |
| ReverseProxy.ForwardingIsSet | internal/transport/http/reverseproxy/proxy.go:81 | the caller's address after any earlier ones, the host it asked for and the scheme it used; all other headers as they were |
| ReverseProxy.JoinCommaOf | internal/transport/http/reverseproxy/proxy.go:81 | earlier addresses are joined in order, with commas |
| ReverseProxy.SanitizedIff | internal/transport/http/reverseproxy/proxy.go:123-157 | which of the caller's headers pass, by name in any case, with their values |
| ReverseProxy.Proxy.Rewrite | internal/transport/http/reverseproxy/proxy.go:53-82 | address, path and all headers of the outgoing request: stripped by trust, stamped along an iteration order, then given the forwarding headers |
| ReverseProxy.ForwardedForIsGenuine | internal/transport/http/reverseproxy/proxy.go:29-36 | an untrusted caller cannot forge where a request came from, and a trusted caller's chain is kept and extended, unless a stamp sets the header |
| ReverseProxy.CallerCannotSupply | internal/transport/http/reverseproxy/proxy.go:123-157 | for every order, a stripped header is on the stamped request only with a stamp's value |
| ReverseProxy.StampsWin | internal/transport/http/reverseproxy/proxy.go:66-80 | for every order, a header that a stamp names carries a stamp whatever the caller sent, and every other one that is not stripped the caller's value |
| ReverseProxy.MountStampsLikeAdapter | internal/transport/http/reverseproxy/proxy.go:36-41 | in every order a validated mount stamps what an adapter would stamp on the stripped headers |
| Capture.ReadSome | internal/transport/http/middleware/full_capture.go:178-184 | any sequence of reads of a restored stream delivers the original bytes in order |
| Capture.PeekBody | internal/transport/http/middleware/full_capture.go:174-184 | the prefix, and a stream with the whole body still to come, even for a body that breaks |
| Capture.LogUpstreamStatus | internal/transport/http/handlers/upstream_log.go:30-61 | whatever is logged, what is left of the body is what was left |
| Capture.CaptureWriter.WriteMany | internal/transport/http/middleware/full_capture.go:219-233 | after any writes the copy is the first bytes of their concatenation and the count its length |
| Capture.Itoa | internal/transport/http/middleware/full_capture.go:150-172 | digits that denote the number, after a minus sign for a negative one, for every int but the least, which becomes a bare minus sign |

## Left out

- Stream names are sequences of Unicode scalar values: a Python name with a lone surrogate, which cannot be encoded, is not modelled.
- Upper-casing is any function of names in the Compound File model, and the standard's case map any function of units. No result rests on the two agreeing except `CfbSearch.LookupFindsPlainNames` and `CfbNames.OrderedAsStandard`, which ask it of the names they speak of; they do not agree on all names, as `CfbSearch.SharpSPairIsLost` shows. `OrderedAsStandard` takes NUL and the surrogates to have no case.
- The red-black tree of [MS-CFB] section 2.6.4 is read as a search tree; node colours are written as the script writes them and never read.
- CfbRoundTrip.RoundTrip: the timestamps, class identifiers and state bits of a directory entry are written as zeros and not read back.
- Docling.NormalizePrinted: printed JSON only, compact and with any escaper as described above (so not one that prints a quote as `\u0022`); on other bytes only `NormalizeNullContent` speaks.
- JSON text is modelled as characters; the search strings are ASCII, so matching bytes and matching characters is the same.
- Text.ToLower: ASCII letters only, and `TrimSpace` only ASCII blanks; Unicode case and white space do not occur in the headers and patterns concerned.
- Redis and the work queue are maps with SET, SETNX, GET and expiry; each SET of a pipeline is a step of its own, so that all interleavings of a pipeline with other clients are covered; that the server may run a pipeline without interruption is not used; queue names, polling, depth metrics and task status are not modelled, so nothing is said about "success" of an archived task.
- Identifiers (tokens, blob keys, task identifiers) are fresh in the step system; hashes are any functions.
- TaskAgreement.Agreement: assumes, like the other results of `TaskAgreement`, that no Redis command fails and that no key expires during the run; Attribution and EngineSeesUploads assume neither.
- Byte counts are unbounded integers; overflow of a 64-bit size is not modelled. `Capture.Itoa` does model the wrap-around of the least int.
- Fallback.Dispatch: an engine is one that reads a prefix of each body and then answers or fails, always alike, as no request calls an engine twice; logging, spans and the circuit breaker are not modelled.
- The magic-byte sniffer is an uninterpreted function of the first bytes.
- Mime.ValidOverridesWin: assumes of a validated MIME value only that it is not empty and has no blank and no semicolon, which is less than its regular expression says.
- Routing.Process: response headers, which are copied back; a response that breaks off while it is copied; the text of an error that the handler writes itself. That logging in between leaves the body alone is `Capture.LogUpstreamStatus`.
- Routing.Handle: the upload branch; the branch for remote sources is `Pinning.ValidateSources` and the default engine.
- Routing.SubmitProcess: up to the enqueueing, which `Tasks` takes over; with a resolver, as in production (`Routing.NoResolverAgreesIff` says what changes without one).
- DnsLookups.LookupsAreGenuine: the clock never runs backwards, and a caller reads the time and the cache in one step.
- Pinning.ValidateSources: parsing and printing of URLs are parameters, assumed to be inverse on a URL with a pinned host; `net.IP.String` is assumed to give different texts to different addresses of one size. IPv6 zones are not modelled.
- Pinning.ClassifyIP: the library predicates on addresses and networks are modelled from Go's documentation.
- Paths.RewriteIsExact: base paths are empty or begin with a slash, as in a URL with a host; paths are the decoded `URL.Path`; the raw path is cleared, as the code does. `path.Clean` is modelled from Go's documentation.
- AuthStamps.RoutesCoincideIff: header names are tokens, as validation and the HTTP server demand; Go leaves other names uncanonicalised and `AuthStamps.CanonicalKey` does not.
- ReverseProxy.Proxy.Rewrite: how the caller's address is split and parsed, which is a parameter; `SetXForwarded` is modelled from Go's documentation.
- TaskPairing.PairedIff: its only-if half speaks of tasks no two of whose attempts made equal bodies or equal types; otherwise halves of two attempts can be one answer by coincidence.
- Capture.PeekBody: base64 of the prefix, redaction of headers and of log snippets.
- Not modelled, because they would add only plumbing or single-branch members: HTTP servers and clients, configuration loading, TLS, CORS, metrics, logging, health checks, the other fixture generators, JSON (un)marshalling of queue records, and multipart and MIME header parsing, which here start from a list of parts.
