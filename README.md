# MongoTools collection copy, modelled in Dafny

This project models the core of MongoTools, a set of command-line tools that copy
MongoDB databases and collections between servers. It covers:

- **The collection-copy engine** (`MongoToolsLib/SharedMethods.cs`). It covers:
  - the early-exit guards and the automatic insert batch size;
  - the policy on an existing target: skip, resume, if-smaller and drop;
  - the WiredTiger configuration string built for a new collection;
  - the index options copied to the target;
  - `SafeQuery`, which reopens a failing cursor after the last `_id` it yielded and
    has a budget of consecutive errors;
  - the buffered batch writer, which retries a failed batch once;
  - the `*`/`?` wildcard matcher.
- **Mapping resolution** (`MongoToolsLib/Migrator.cs`). Database and collection
  tokens (an exact name, a name in another case, `src=dst`, a wildcard) become
  (source, target) pairs. `DatabaseCopy` turns the pairs into copy tasks and skips
  self-copies.
- **The command line**: the tokenizer `ParseCommandLineArguments` and the option
  checks of the MongoCopy front-end, `ParseArgumentAsList` and `ParseArguments`.
- **The CSV row serialiser** of `CSVReflection/JsonToCSV.cs`.
- **Two older copy loops with different failure behaviour**:
  - `MongoDB/SharedMethods.cs` loses a failed batch, and `DuplicateCollection` in the
    same file resends a failed insert with the next document;
  - `Migrate/Migrator.cs` lets a failure escape and stop the whole database copy.

Every driver call is an input to the model:

- A collection is the sequence of its documents in `_id` order, with integer keys
  that strictly increase.
- `MoveNext` and insert failures are fault schedules: `seq<bool>`, where entry `k`
  says whether call `k` throws, and calls past the end succeed.
- Statistics, existence, the capped flag and the server version are plain inputs.

Loops that the C# code runs in place are Dafny methods with loop invariants. Each is
proved equal to a specification function, and the properties are lemmas about those
functions. The code that builds values is modelled as functions.

Modules:

| file | module | models |
|---|---|---|
| wrappers.dfy | Wrappers | `Option` |
| text.dfy | Text | the .NET string operations the code relies on |
| wildcard.dfy | Wildcard | `HasWildcard`, `WildcardToRegex`, `WildcardIsMatch` |
| safe_cursor.dfy | SafeCursor | `SafeQuery` |
| batching.dfy | Batching | the buffer loop and its retry |
| storage_config.dfy | StorageConfig | `HasCollectionCreationOptions` and the configuration list of `CreateCollection` |
| indexes.dfy | Indexes | `CreateIndexes` and the index loops of the older copies |
| copy_engine.dfy | CopyEngine | `CopyCollection` and `CreateCollection` |
| resolver.dfy | Resolver | `ListDatabases`, `ListCollections`, `DatabaseCopy` and the mask overload |
| cli.dfy | CommandLine | `ParseCommandLineArguments` |
| migrate_args.dfy | MigrateArgs | `ParseArgumentAsList` and `ParseArguments` |
| json_to_csv.dfy | CsvExport | `Fields`, `BsonToCSV`, `BsonToType`, `BsonValueToString`, `ReachInnerDocument` |
| legacy_copy.dfy | LegacyCopy | `CopyCollection` and `DuplicateCollection` of `MongoDB/SharedMethods.cs` |
| legacy_migrator.dfy | LegacyMigrator | `Migrate/Migrator.cs` |

## Model

| member | source | states |
|---|---|---|
| Wildcard.EscapeChar | MongoTools/MongoToolsLib/SharedMethods.cs:455 | escaping one character never yields a bare `*` or `?`. An escaped character is the character itself, or a backslash and the character, and the escaped `*` and `?` are exactly the escapes of `*` and `?` |
| Wildcard.ReplaceStars | MongoTools/MongoToolsLib/SharedMethods.cs:455 | the first `Replace` turns exactly the escaped `*` into `.*` and changes nothing else |
| Wildcard.ReplaceQuestionMarks | MongoTools/MongoToolsLib/SharedMethods.cs:455 | the second `Replace` turns exactly the escaped `?` into `.` and changes nothing else |
| Wildcard.WildcardToRegexPieces | MongoTools/MongoToolsLib/SharedMethods.cs:451-457 | the regex is an optional `^`, then one piece per pattern character (`*` as `.*`, `?` as `.`, any other character as itself), then `$` |
| Wildcard.PlainGlobIsEquality | MongoTools/MongoToolsLib/SharedMethods.cs:472-474 | without wildcards, the case-insensitive glob reading accepts exactly the names equal to the pattern ignoring case |
| Wildcard.PlainGlobIsOrdinalEquality | MongoTools/MongoToolsLib/SharedMethods.cs:472-474 | without wildcards, the case-sensitive glob reading accepts exactly the pattern itself |
| Wildcard.StarMatchesAll | MongoTools/MongoToolsLib/SharedMethods.cs:455-474 | `*` accepts every single-line name |
| Wildcard.QuestionMarksMatchLength | MongoTools/MongoToolsLib/SharedMethods.cs:455-474 | `n` question marks accept exactly the names of length `n` |
| Wildcard.GlobConcat | MongoTools/MongoToolsLib/SharedMethods.cs:474 | matches compose: two matching parts match the joined pattern |
| Wildcard.StarFreeLength | MongoTools/MongoToolsLib/SharedMethods.cs:474 | a pattern without `*` only accepts names as long as itself |
| Wildcard.PrefixStarMatches | MongoTools/MongoToolsLib/SharedMethods.cs:466-475 | `prefix*` matches every non-blank name that starts with the prefix |
| Wildcard.StarFreeNeedsLength | MongoTools/MongoToolsLib/SharedMethods.cs:466-475 | a pattern without `*` rejects any name of another length, whether it is compared as a string or as a glob |
| Wildcard.WildcardExamples | MongoTools/MongoToolsLib/SharedMethods.cs:466-475 | `user_*` matches `user_2024`; `user_??` does not |
| Wildcard.HasWildcard | MongoTools/MongoToolsLib/SharedMethods.cs:459-464 | a pattern has a wildcard when it is non-null and holds `*` or `?`; without one, `WildcardIsMatch` compares names plainly, as `PlainGlobIsEquality` and `PlainGlobIsOrdinalEquality` state |
| Wildcard.WildcardToRegex | MongoTools/MongoToolsLib/SharedMethods.cs:451-457 | the regex text of a pattern, whose shape `WildcardToRegexPieces` states piece by piece |
| Wildcard.WildcardIsMatch | MongoTools/MongoToolsLib/SharedMethods.cs:466-475 | null or blank input never matches, a pattern without wildcards is compared as a string, and any other pattern is read as a glob; the lemmas above state what each reading accepts |
| Text.TrimmedItemsAppend | MongoTools/MongoCopy/Migrate.cs:278 | trimming and dropping empty items works piece by piece: the items of a concatenation are the items of each part, in the same order |
| Text.TrimmedItemsMembers | MongoTools/MongoCopy/Migrate.cs:278 | a text is an item exactly when it is non-empty and is the trim of some input piece |
| SafeCursor.FindSpec | MongoTools/MongoToolsLib/SharedMethods.cs:409-416 | a find returns exactly the collection's documents that match the query and the `_id` floor, in `_id` order |
| SafeCursor.FindAboveAll | MongoTools/MongoToolsLib/SharedMethods.cs:409-416 | a floor below every document changes nothing |
| SafeCursor.FindBounded | MongoTools/MongoToolsLib/SharedMethods.cs:409-416 | a find only returns documents with keys above any bound all documents exceed |
| SafeCursor.ResumeIsSuffix | MongoTools/MongoToolsLib/SharedMethods.cs:409-431 | reopening with `_id > last` after `i` documents gives exactly the rest of the find: nothing skipped, nothing repeated |
| SafeCursor.QueryRunBounds | MongoTools/MongoToolsLib/SharedMethods.cs:405-447 | a run never yields more documents than the find holds; a run that does not fail yields all of them |
| SafeCursor.QueryRunFails | MongoTools/MongoToolsLib/SharedMethods.cs:426-442 | the query fails exactly when six consecutive `MoveNext` calls throw before the end of the stream, counting the errors already there. A success resets the count |
| SafeCursor.ExhaustsAfterFault | MongoTools/MongoToolsLib/SharedMethods.cs:434-442 | after a fault that is within budget, the budget runs out exactly when it runs out for the rest of the schedule with one more error |
| SafeCursor.ExhaustsAfterSuccess | MongoTools/MongoToolsLib/SharedMethods.cs:431-432 | after a success the error count starts afresh |
| SafeCursor.ExhaustsAtEnd | MongoTools/MongoToolsLib/SharedMethods.cs:426-430 | once the stream is read to its end, a success ends the query and the budget can no longer run out |
| SafeCursor.FindPrefix | MongoTools/MongoToolsLib/SharedMethods.cs:409-446 | every prefix of a find is in `_id` order and holds only matching documents of the collection |
| SafeCursor.ReadCursor | MongoTools/MongoToolsLib/SharedMethods.cs:422-447 | the inner loop reads a prefix of the open cursor. It stops on a fault or at the end, and the run so far agrees with the specification run |
| SafeCursor.OpenCursor | MongoTools/MongoToolsLib/SharedMethods.cs:409-419 | reopening the cursor after `n` yielded documents yields the rest of the original find |
| SafeCursor.ReadOnce | MongoTools/MongoToolsLib/SharedMethods.cs:405-447 | one pass of the outer loop extends what was yielded to a longer prefix of the find |
| SafeCursor.SafeQuery | MongoTools/MongoToolsLib/SharedMethods.cs:395-449 | the documents yielded are a prefix of the find in ascending `_id` order, all of them matching. Their number and the failure are those of the specification run, and without a failure the whole find is yielded |
| Batching.BatchesPartition | MongoTools/MongoToolsLib/SharedMethods.cs:151-200 | the full batches followed by the remainder are the stream |
| Batching.BatchSizes | MongoTools/MongoToolsLib/SharedMethods.cs:159-184 | every full batch holds exactly `size` documents and the remainder fewer |
| Batching.WrittenArePrefix | MongoTools/MongoToolsLib/SharedMethods.cs:159-185 | the batches written are the leading batches, each written once; the loop aborts exactly when a batch is left unwritten |
| Batching.SingleFaultsAreRetried | MongoTools/MongoToolsLib/SharedMethods.cs:164-182 | without two failures in a row every batch is written |
| Batching.SecondFailureAborts | MongoTools/MongoToolsLib/SharedMethods.cs:176-182 | two failures in a row abort at that batch: the retry is not repeated |
| Batching.InsertWithRetry | MongoTools/MongoToolsLib/SharedMethods.cs:164-182 | one insert call and one retry: it fails only when both calls throw |
| Batching.WriteStream | MongoTools/MongoToolsLib/SharedMethods.cs:151-185 | the buffer loop writes what the specification of full batches with retry writes, and leaves the remainder in the buffer |
| Batching.WrittenIsPrefix | MongoTools/MongoToolsLib/SharedMethods.cs:151-200 | what the loop writes is the start of the stream; without an abort, the writes and the buffer make up the whole stream |
| Batching.WrittenSizes | MongoTools/MongoToolsLib/SharedMethods.cs:159-184 | every batch written inside the loop has exactly `size` documents |
| Batching.LeftoverIsSuffix | MongoTools/MongoToolsLib/SharedMethods.cs:159-185 | the insert calls left after the loop are the tail of the call schedule, so the remainder's insert is one of the scheduled calls |
| Batching.WriteFullNoFaults | MongoTools/MongoToolsLib/SharedMethods.cs:159-185 | with no failing call every batch is written |
| StorageConfig.CompressorEdit | MongoTools/MongoToolsLib/SharedMethods.cs:234-238 | the compressor edit keeps the user and page entries and leaves exactly one compressor entry |
| StorageConfig.PresetKeepsOthers | MongoTools/MongoToolsLib/SharedMethods.cs:240-273 | the allocation edit keeps the user entries and the compressor entries |
| StorageConfig.PresetSetsPages | MongoTools/MongoToolsLib/SharedMethods.cs:240-273 | after the allocation edit, each page key holds exactly the preset's entry |
| StorageConfig.PagesSurvive | MongoTools/MongoToolsLib/SharedMethods.cs:234-238 | removing compressor entries keeps every page entry |
| StorageConfig.CompressorsSurvive | MongoTools/MongoToolsLib/SharedMethods.cs:240-273 | removing page entries keeps every compressor entry |
| StorageConfig.ApplyCompressor | MongoTools/MongoToolsLib/SharedMethods.cs:234-238 | for a valid compressor, the compressor entries become the one lower-cased entry and the other entries stay; otherwise nothing changes |
| StorageConfig.ApplyAllocation | MongoTools/MongoToolsLib/SharedMethods.cs:240-273 | for a preset, the page entries become the preset's three and the other entries stay; otherwise nothing changes |
| StorageConfig.BuildConfig | MongoTools/MongoToolsLib/SharedMethods.cs:229-276 | the list keeps the user's entries, holds the chosen compressor and preset entries, and is empty exactly when there is nothing to configure |
| StorageConfig.ValidCompressor | MongoTools/MongoToolsLib/SharedMethods.cs:16 | a given compressor is valid when it is "", "zlib" or "snappy", ignoring case; `ApplyCompressor` and `BuildConfig` state what a valid one adds |
| StorageConfig.ParseConfigString | MongoTools/MongoToolsLib/SharedMethods.cs:229-232 | the entries of the config string: nothing when it is absent or blank, else its pieces between commas, trimmed, with empty ones dropped; `BuildConfig` keeps its user entries in order |
| StorageConfig.HasCollectionCreationOptions | MongoTools/MongoToolsLib/SharedMethods.cs:217-221 | creation options are set when the compressor is valid or the allocation option is non-empty; `CopyEngine.DropsTarget` drops an empty target for them |
| Indexes.RecreatedSpec | MongoTools/MongoToolsLib/SharedMethods.cs:300-313 | exactly the listed indexes other than `_id_` are recreated |
| Indexes.RecreatedFlags | MongoTools/MongoToolsLib/SharedMethods.cs:305-313 | `_id_` is never recreated; background and sparse are the source's flags OR the overrides, and the other options are copied |
| Indexes.NoOverrideIsLegacy | MongoTools/MongoToolsLib/SharedMethods.cs:311-313 | without overrides an index is recreated as the older copies recreate it |
| Indexes.CreateIndexes | MongoTools/MongoToolsLib/SharedMethods.cs:290-393 | a legacy server gets one request per recreated index, in order. A newer one gets a single `createIndexes` command with them all, and nothing when none is left |
| Indexes.RequestsOmitIdIndex | MongoTools/MongoToolsLib/SharedMethods.cs:305 | no request carries the `_id_` index, whatever the server |
| Indexes.LegacyServerMisclassified | MongoTools/MongoToolsLib/SharedMethods.cs:323 | the server test as written treats a 2.4 server as new; the corrected test treats it as legacy |
| Indexes.LegacyServerAsWritten | MongoTools/MongoToolsLib/SharedMethods.cs:323 | the server test as written, `Major < 2 && MajorRevision < 6`; `LegacyServerMisclassified` shows the servers it misreads |
| Indexes.LegacyServer | MongoTools/MongoToolsLib/SharedMethods.cs:323 | the corrected test: a server older than 2.6 |
| Indexes.WaitForIndex | MongoTools/MongoToolsLib/SharedMethods.cs:348-359 | the wait polls between 1 and 30 times and stops at the first poll that reports the index |
| Indexes.LegacyIndexes | MongoTools/MongoDB/SharedMethods.cs:96-115 | the older index loop sends one request per index other than `_id_`, with the source's own options |
| CopyEngine.TargetName | MongoTools/MongoToolsLib/SharedMethods.cs:39 | the target is the given name when it is non-empty, else the source's name |
| CopyEngine.SystemCollectionsAreGuarded | MongoTools/MongoToolsLib/SharedMethods.cs:42-47 | every collection whose name starts with `system.`, in any case, is guarded |
| CopyEngine.AutoBatchSize | MongoTools/MongoToolsLib/SharedMethods.cs:72-90 | a positive requested size is kept. Otherwise, below the cap of 200, the size is one more than the number of whole average-sized objects that fit in 4 MB; the cap is reached exactly when 199 of them fit; unavailable statistics or a zero average give 100 |
| CopyEngine.BatchesFit | MongoTools/MongoToolsLib/SharedMethods.cs:76-79 | for a positive average, the capped quotient plus one is, below 200, one more than the number of whole objects that fit in 4 MB, and 200 exactly when 199 of them fit |
| CopyEngine.AutoBatchSizeExamples | MongoTools/MongoToolsLib/SharedMethods.cs:72-90 | a 40000-byte average gives 105, a 1000-byte average gives 200, unavailable statistics give 100 |
| CopyEngine.MaxId | MongoTools/MongoToolsLib/SharedMethods.cs:102-110 | the resume point is the largest `_id` of the target, and none for an empty target |
| CopyEngine.TargetVerdict | MongoTools/MongoToolsLib/SharedMethods.cs:93-116 | the corrected checks on an existing target: skip-existing skips a target holding documents, then if-smaller skips a target holding at least as many documents as the source; a missing target passes |
| CopyEngine.TargetVerdictAsWritten | MongoTools/MongoToolsLib/SharedMethods.cs:93-116 | the same checks as written, where the if-smaller exit without resume is a failure; `IfSmallerWithoutResumeFails` and `VerdictsAgreeOtherwise` relate it to the corrected checks |
| CopyEngine.VerdictsExitAlike | MongoTools/MongoToolsLib/SharedMethods.cs:93-116 | both versions of the checks exit for exactly the same targets, and where they differ the code as written reports a failure |
| CopyEngine.DropsTarget | MongoTools/MongoToolsLib/SharedMethods.cs:119-135 | an existing target that passed the checks is dropped with drop-collections, or when it is empty and creation options are set, and never once resume found a document; `ResumeKeepsTarget` follows |
| CopyEngine.IfSmallerWithoutResumeFails | MongoTools/MongoToolsLib/SharedMethods.cs:112-116 | without resume, the if-smaller skip is reported as a failure by the code as written and as a skip by the corrected code |
| CopyEngine.VerdictsAgreeOtherwise | MongoTools/MongoToolsLib/SharedMethods.cs:93-116 | the two versions of the checks on an existing target differ only on that path |
| CopyEngine.ResumeKeepsTarget | MongoTools/MongoToolsLib/SharedMethods.cs:119-135 | resume never drops a target that holds documents |
| CopyEngine.Transfer | MongoTools/MongoToolsLib/SharedMethods.cs:151-200 | the batches written are a prefix of the documents above the floor, in order and of the batch shape. The copy fails exactly when the cursor budget runs out or a full batch fails twice, and without faults it copies everything. A transfer that ends without an exception misses at most a final remainder shorter than one batch, and misses nothing when no insert call fails |
| CopyEngine.CreateCollection | MongoTools/MongoToolsLib/SharedMethods.cs:223-288 | nothing happens for an existing target. Otherwise the collection is created exactly when there is something to configure. The configuration keeps the user entries, holds the lower-cased entry of a valid compressor or else the user compressor entries, and holds the preset page entries or else the user page entries |
| CopyEngine.CopyCollection | MongoTools/MongoToolsLib/SharedMethods.cs:25-215 | for the code as written (`asWritten`) or corrected: the guards, a missing or capped source and the checks on the target exit without writing, the if-smaller exit without resume being a failure as written. The drop follows the policy. Indexes are requested before or after the copy under the server test of the chosen version. What is inserted is a prefix of the documents above the resume point, in batches of the automatic size; the copy fails exactly as the cursor and insert fault schedules say. A copy that ends without an exception misses at most a final remainder shorter than one batch, whose insert failed and was only logged; with no failing insert everything above the resume point is inserted |
| CopyEngine.Proceed | MongoTools/MongoToolsLib/SharedMethods.cs:137-206 | after the checks: the create, the indexes before or after under the chosen server test, and the copy loop with the same guarantees |
| CopyEngine.ResumeSkipsTarget | MongoTools/MongoToolsLib/SharedMethods.cs:102-110 | when resuming, every document copied has an `_id` above every document of the target |
| CopyEngine.ResumeCompletesCopy | MongoTools/MongoToolsLib/SharedMethods.cs:102-110 | resuming after an interrupted copy inserts exactly the missing documents |
| CopyEngine.FindAll | MongoTools/MongoToolsLib/SharedMethods.cs:405-416 | with no query and no floor the find is the whole collection |
| Resolver.FirstIgnoreCase | MongoTools/MongoToolsLib/Migrator.cs:51 | the name found is listed and equals the token ignoring case; nothing is found exactly when no listed name does |
| Resolver.FirstIgnoreCaseIsFirst | MongoTools/MongoToolsLib/Migrator.cs:51 | the name found is the first such name in listing order |
| Resolver.Resolve | MongoTools/MongoToolsLib/Migrator.cs:51 | an exact listed name wins; otherwise the name is found ignoring case |
| Resolver.RenamePair | MongoTools/MongoToolsLib/Migrator.cs:47-54 | a `src=dst` token yields at most one pair, with a listed source and non-empty names |
| Resolver.RenamePairSpec | MongoTools/MongoToolsLib/Migrator.cs:47-54 | the source is looked up by the text before the first `=`, and the target is the text after it, up to any second `=` |
| Resolver.Matching | MongoTools/MongoToolsLib/Migrator.cs:58-61 | the names a wildcard token expands to are exactly the listed names it matches |
| Resolver.Identity | MongoTools/MongoToolsLib/Migrator.cs:105-109 | without a collection list every collection maps to itself, in order |
| Resolver.EmptyTargetsAreNoTargets | MongoTools/MongoToolsLib/Migrator.cs:31-32 | an empty target list is the same as none |
| Resolver.WildcardTokenPairs | MongoTools/MongoToolsLib/Migrator.cs:56-62 | a token that is not a rename maps every listed database it matches to itself, and nothing else |
| Resolver.ZippedComplete | MongoTools/MongoToolsLib/Migrator.cs:66-75 | with at least as many targets as sources the positional pairing never reads past the end |
| Resolver.ZippedPairs | MongoTools/MongoToolsLib/Migrator.cs:66-75 | every positional pair is a found source and the non-empty target at the same position |
| Resolver.ZippedFindsAll | MongoTools/MongoToolsLib/Migrator.cs:66-75 | every found source token with a non-empty target at its position yields that pair, even when the enumeration throws later on |
| Resolver.ZippedFails | MongoTools/MongoToolsLib/Migrator.cs:66-75 | the enumeration throws exactly when a found source token sits at or past the end of the target list |
| Resolver.ListDatabases | MongoTools/MongoToolsLib/Migrator.cs:27-77 | the database pairs: none for a null list, the rename or wildcard pairs of each token without targets (`WildcardTokenPairs`), and the positional pairs with targets (`ZippedPairs`, `ZippedFindsAll`, `ZippedFails`); an empty target list is none (`EmptyTargetsAreNoTargets`) |
| Resolver.ListCollections | MongoTools/MongoToolsLib/Migrator.cs:103-135 | every collection to itself without a list (`Identity`), else the pairs of each entry in entry order (`EntryPairsAppend`, `EntryPairsListed`) |
| Resolver.EntryPairsAppend | MongoTools/MongoToolsLib/Migrator.cs:114-132 | entries are resolved independently, and their pairs are concatenated in entry order without de-duplication |
| Resolver.EntryPairsListed | MongoTools/MongoToolsLib/Migrator.cs:114-132 | every pair of a list is a listed collection, mapped to itself or renamed to a non-empty name |
| Resolver.Masked | MongoTools/MongoToolsLib/Migrator.cs:263-265 | the mask selects exactly the listed names that contain it, case-sensitively |
| Resolver.EmptyMaskSelectsAll | MongoTools/MongoToolsLib/Migrator.cs:265 | the empty mask selects every collection, in order |
| Resolver.CollectionTasksSpec | MongoTools/MongoToolsLib/Migrator.cs:166-184 | exactly the collection pairs that do not pass the source's skip test (same server, same database object, same collection name) get a task |
| Resolver.NoSelfCopyTasks | MongoTools/MongoToolsLib/Migrator.cs:170-175 | no task passes the source's skip test: same server, same database object and same collection name |
| Resolver.DatabaseCopy | MongoTools/MongoToolsLib/Migrator.cs:149-189 | the thread count is clamped to at least one. One task is emitted per resolved mapping, in enumeration order, and the enumeration's failure is passed on |
| Resolver.AddCollectionTasks | MongoTools/MongoToolsLib/Migrator.cs:168-183 | the inner loop appends the tasks of one database pair |
| Resolver.AddDatabaseTasks | MongoTools/MongoToolsLib/Migrator.cs:161-186 | the outer loop gives the tasks of every database pair, in enumeration order |
| CommandLine.ParseCommandLineArguments | MongoTools/MongoToolsLib/SimpleHelpers/ConsoleUtils.cs:324-361 | null arguments give empty options; otherwise the options are those of one step per argument, left to right |
| CommandLine.RunAppend | MongoTools/MongoToolsLib/SimpleHelpers/ConsoleUtils.cs:332-358 | the arguments are read in one pass: reading `xs + ys` is reading `ys` from the state after `xs` |
| CommandLine.MarkedKeyValueSets | MongoTools/MongoToolsLib/SimpleHelpers/ConsoleUtils.cs:337-344 | a marked `key=value` sets its key and closes any tag, whatever came before |
| CommandLine.FlagSetsTrue | MongoTools/MongoToolsLib/SimpleHelpers/ConsoleUtils.cs:346-351 | a marked argument without `=` past its start sets its name to "true" and becomes the open tag |
| CommandLine.BareTokensAfterTag | MongoTools/MongoToolsLib/SimpleHelpers/ConsoleUtils.cs:353-357 | a bare argument after a tag sets that tag; because the tag is kept, a second bare argument sets the same key again |
| CommandLine.LeadingBareTokensIgnored | MongoTools/MongoToolsLib/SimpleHelpers/ConsoleUtils.cs:353 | bare arguments before any tag change nothing |
| CommandLine.BareTokenIgnored | MongoTools/MongoToolsLib/SimpleHelpers/ConsoleUtils.cs:339-357 | after a `key=value`, a bare argument is another `key=value` or ignored |
| CommandLine.LeadingEqualsIsNotKeyValue | MongoTools/MongoToolsLib/SimpleHelpers/ConsoleUtils.cs:338-339 | an argument whose `=` comes first is never a `key=value`; it is at most the value of the last tag |
| CommandLine.KeysFromArguments | MongoTools/MongoToolsLib/SimpleHelpers/ConsoleUtils.cs:341-355 | every key of the options is the key of some `key=value` argument or the name of some tag |
| CommandLine.Step | MongoTools/MongoToolsLib/SimpleHelpers/ConsoleUtils.cs:337-357 | the effect of one argument, which `MarkedKeyValueSets`, `FlagSetsTrue`, `BareTokensAfterTag`, `LeadingBareTokensIgnored` and `BareTokenIgnored` state case by case |
| CommandLine.Run | MongoTools/MongoToolsLib/SimpleHelpers/ConsoleUtils.cs:332-358 | the arguments read left to right, one step each; `RunAppend` states that the reading is one pass |
| MigrateArgs.ParseArgumentAsList | MongoTools/MongoCopy/Migrate.cs:271-279 | the items are the pieces of the option, taken as a string array when it reads as one and else cut at every `,` and `;`, each trimmed, with empty ones dropped, in order. Every item is trimmed and non-empty, and an absent option lists nothing |
| MigrateArgs.ListFromTextHasNoSeparators | MongoTools/MongoCopy/Migrate.cs:271-279 | a list given as text never yields an item holding `,` or `;` |
| MigrateArgs.ParseArguments | MongoTools/MongoCopy/Migrate.cs:102-186 | the corrected checks, with the -105 test on the target names: each exit code from -101 to -106 happens exactly under its own condition, and there is no other exit |
| MigrateArgs.ParseArgumentsAsWritten | MongoTools/MongoCopy/Migrate.cs:102-186 | the checks as written: the exit codes -101 to -104 and -106 each happen exactly under their own condition, -105 never happens, and a wildcard target list goes on to the length test |
| MigrateArgs.ParseArgumentsInOrder | MongoTools/MongoCopy/Migrate.cs:102-186 | running the field reads and the checks one after another, with the -105 test looking at the source names as written, gives the outcome of `ParseArgumentsAsWritten` |
| MigrateArgs.AcceptedSettings | MongoTools/MongoCopy/Migrate.cs:131-185 | under the corrected checks, accepted settings name both endpoints and a source database, and a kept target list has the sources' length and no wildcards on either side |
| MigrateArgs.AcceptedSettingsAsWritten | MongoTools/MongoCopy/Migrate.cs:131-185 | under the checks as written, accepted settings are consistent in the same way, except that a kept target list may hold wildcards |
| MigrateArgs.AsWrittenDiffersOnlyAt105 | MongoTools/MongoCopy/Migrate.cs:161-172 | the two versions differ only where the corrected one exits with -105, and there the code as written accepts the settings or exits with -106 |
| MigrateArgs.EmptyTargetListReusesSources | MongoTools/MongoCopy/Migrate.cs:151-156 | an empty target list is accepted as none, so the source names are used |
| MigrateArgs.Defaults | MongoTools/MongoCopy/Migrate.cs:117-121 | by default the batch size is -1, one thread is used, indexes are copied and nothing is dropped |
| MigrateArgs.NumbersReadBack | MongoTools/MongoCopy/Migrate.cs:117-118 | a batch size or thread count written as a number within the range of an `int` is read back as that number |
| MigrateArgs.OverflowReadsDefault | MongoTools/MongoCopy/Migrate.cs:117-118 | a number outside the range of an `int` cannot be read, so the batch size falls back to -1 and the thread count to 1 |
| Text.ParseInt | MongoTools/MongoCopy/Migrate.cs:117-118 | `int.Parse` as the typed option read uses it: a value read always fits an `int`; `ParseIntToString` reads every printed `int` back, `ParseIntOverflow` rejects every printed integer outside the range, and `ParseIntPlusSigned` accepts a leading `+` |
| Text.ParseIntToString | MongoTools/MongoCopy/Migrate.cs:117-118 | the printed form of every `int` parses back to it |
| Text.ParseIntOverflow | MongoTools/MongoCopy/Migrate.cs:117-118 | the printed form of an integer outside the `int` range does not parse |
| Text.ParseIntPlusSigned | MongoTools/MongoCopy/Migrate.cs:117-118 | a leading `+` is accepted |
| MigrateArgs.AcceptedListsNeverRunOut | MongoTools/MongoCopy/Migrate.cs:176-180 | settings accepted by the checks as written never make the database pairing read past the end of the target list |
| MigrateArgs.SecondWildcardTestUnreachable | MongoTools/MongoCopy/Migrate.cs:161-172 | the checks as written never exit with -105 |
| MigrateArgs.WildcardTargetAccepted | MongoTools/MongoCopy/Migrate.cs:168-172 | a wildcard target name passes the checks as written and is rejected with -105 by the corrected checks |
| CsvExport.Names | MongoTools/CSVReflection/JsonToCSV.cs:33 | one name per configured field, in order |
| CsvExport.HeaderSplitsIntoNames | MongoTools/CSVReflection/JsonToCSV.cs:31-34 | the header splits at the delimiter back into the field names |
| CsvExport.Fields | MongoTools/CSVReflection/JsonToCSV.cs:31-34 | the header line, whose columns `HeaderSplitsIntoNames` recovers |
| CsvExport.BsonValueToString | MongoTools/CSVReflection/JsonToCSV.cs:177-231 | the method gives the text of a value that the specification gives |
| CsvExport.BsonToType | MongoTools/CSVReflection/JsonToCSV.cs:148-170 | the method gives the text of a field that the specification gives |
| CsvExport.ReachInnerDocument | MongoTools/CSVReflection/JsonToCSV.cs:239-271 | the drill-down loop reaches the document that the specification reaches |
| CsvExport.BsonToCSV | MongoTools/CSVReflection/JsonToCSV.cs:48-109 | the method gives the line that the row specification gives |
| CsvExport.Row | MongoTools/CSVReflection/JsonToCSV.cs:48-109 | the line of one document: the columns joined, null when a mandatory field is missing, or an exception; `RowShape`, `LineNeedsEveryField` and `MissingMandatoryDropsLine` state its cases |
| CsvExport.ColumnsTexts | MongoTools/CSVReflection/JsonToCSV.cs:60-105 | there is one text per field, each that field's column, and with a one-character delimiter no text holds the delimiter |
| CsvExport.RowShape | MongoTools/CSVReflection/JsonToCSV.cs:104-108 | a written line splits at a one-character delimiter into exactly one column per field, in order |
| CsvExport.LineNeedsEveryField | MongoTools/CSVReflection/JsonToCSV.cs:83-91 | a line is written only when every field gives a column |
| CsvExport.MissingMandatoryDropsLine | MongoTools/CSVReflection/JsonToCSV.cs:83-91 | a missing mandatory field makes the line null |
| CsvExport.MissingOptionalIsEmpty | MongoTools/CSVReflection/JsonToCSV.cs:92-95 | a missing optional field gives an empty column |
| CsvExport.NullIsEmpty | MongoTools/CSVReflection/JsonToCSV.cs:179-182 | a null value gives an empty column |
| CsvExport.StringsSpec | MongoTools/CSVReflection/JsonToCSV.cs:183-197 | the elements convert exactly when all are strings, and then to those strings |
| CsvExport.ElementTextsSpec | MongoTools/CSVReflection/JsonToCSV.cs:150-165 | an array's elements convert exactly when each one does, each by itself |
| CsvExport.ArrayField | MongoTools/CSVReflection/JsonToCSV.cs:150-197 | an array field converts exactly when every element does, and a nested array only when all its elements are strings |
| CsvExport.ArrayOfStrings | MongoTools/CSVReflection/JsonToCSV.cs:150-165 | an array of strings becomes the strings joined by the list delimiter |
| CsvExport.DottedName | MongoTools/CSVReflection/JsonToCSV.cs:239-271 | `a.b` reads field `b` of the document under `a` |
| CsvExport.DottedNameThroughValue | MongoTools/CSVReflection/JsonToCSV.cs:239-271 | when the level `a` is not a document, the lookup of `b` continues in the same document |
| CsvExport.DottedNameMissingLevel | MongoTools/CSVReflection/JsonToCSV.cs:239-271 | a missing level leaves no document, and reading from it throws |
| CsvExport.DrillDownWalks | MongoTools/CSVReflection/JsonToCSV.cs:239-271 | the level-by-level drill-down is the walk down the path from its first level |
| CsvExport.ReachInnerWalks | MongoTools/CSVReflection/JsonToCSV.cs:239-271 | for every document and dotted name, the inner document is null exactly when the walk meets a missing level, and otherwise holds the value found at the last level under the last segment |
| CsvExport.DottedColumn | MongoTools/CSVReflection/JsonToCSV.cs:68-100 | a dotted field throws when a level of its path is missing and otherwise gives the text of the value found, whether or not it is mandatory |
| LegacyCopy.SystemCollectionSkipped | MongoTools/MongoDB/SharedMethods.cs:43-46 | a collection whose name starts with `system.`, in any case, is skipped |
| LegacyCopy.DatabaseEndingInSystemSkipped | MongoTools/MongoDB/SharedMethods.cs:43-46 | the guard tests the full name, so every collection of a database whose name ends in `system` is skipped |
| LegacyCopy.DropLoopAccounted | MongoTools/MongoDB/SharedMethods.cs:49-73 | the loop keeps every document accounted for: the batches sent and the buffer are the stream, and each batch is inserted or lost according to its own call |
| LegacyCopy.DropCopyAccounted | MongoTools/MongoDB/SharedMethods.cs:49-90 | after the remainder, the batches sent are the stream. They are 1 to the capacity long and all full but the last, and the ones lost are exactly the ones whose call threw |
| LegacyCopy.KeptAndFailedCount | MongoTools/MongoDB/SharedMethods.cs:65-71 | every batch sent is either inserted or lost |
| LegacyCopy.DropCopyWithoutFaults | MongoTools/MongoDB/SharedMethods.cs:49-90 | without faults everything is inserted and nothing is lost |
| LegacyCopy.DropCopyConserves | MongoTools/MongoDB/SharedMethods.cs:49-90 | inserted plus lost documents are as many as the collection holds |
| LegacyCopy.CopyCollection | MongoTools/MongoDB/SharedMethods.cs:22-117 | the target is dropped when asked, even for a guarded collection. A negative capacity throws first. Otherwise the loop loses failed batches, and the indexes other than `_id_` are copied |
| LegacyCopy.ResendLoopKeepsAll | MongoTools/MongoDB/SharedMethods.cs:145-159 | the per-document loop never loses a document: what is inserted plus the buffer is the stream |
| LegacyCopy.DuplicateAccounted | MongoTools/MongoDB/SharedMethods.cs:145-177 | after the remainder, what is inserted then lost is the stream. At most one batch is lost, and only when the last two calls both throw |
| LegacyCopy.DuplicateWithoutFaults | MongoTools/MongoDB/SharedMethods.cs:145-159 | without faults each document is inserted by its own call |
| LegacyCopy.FirstCallLost | MongoTools/MongoDB/SharedMethods.cs:65-71 | only the first call fails: its batch is lost and the rest are inserted |
| LegacyCopy.FirstFailureLostByCopy | MongoTools/MongoDB/SharedMethods.cs:49-73 | with batches of one and a failing first call, the copy loses the first document |
| LegacyCopy.FirstFailureResentByDuplicate | MongoTools/MongoDB/SharedMethods.cs:145-159 | with the same faults, the duplicate resends it and loses nothing |
| LegacyCopy.LaterCallsSucceed | MongoTools/MongoDB/SharedMethods.cs:49-73 | calls past the fault schedule succeed |
| LegacyCopy.DuplicateCollection | MongoTools/MongoDB/SharedMethods.cs:119-204 | writes go to `collection + suffix` and nothing is dropped. A negative capacity throws. The documents are read in `_id` order and written after each one, failed inserts being resent. The indexes other than `_id_` are copied |
| LegacyCopy.DuplicateInIdOrder | MongoTools/MongoDB/SharedMethods.cs:140 | the duplicate inserts the documents in ascending `_id` order |
| LegacyMigrator.HaltLoopKeeps | MongoTools/Migrate/Migrator.cs:99-113 | the loop that stops at the first failed insert keeps its invariant: the inserted batches are a prefix of the stream, and nothing is written after a throw |
| LegacyMigrator.HaltSticks | MongoTools/Migrate/Migrator.cs:109 | once an insert has thrown, later documents change nothing |
| LegacyMigrator.HaltedCopy | MongoTools/Migrate/Migrator.cs:99-121 | the documents inserted, then lost, are a prefix of the stream. No call threw before the failing one, a throw loses exactly one batch, and without a throw everything is inserted. Every batch sent holds the batch size in documents (one for a size of 0), except a shorter, non-empty last one |
| LegacyMigrator.HaltedWithoutFaults | MongoTools/Migrate/Migrator.cs:99-121 | without faults everything is inserted |
| LegacyMigrator.CopyOutcome | MongoTools/Migrate/Migrator.cs:72-148 | the target is the source's name and is dropped exactly when asked, before the guard. A negative capacity throws, and indexes are copied only after a copy that did not throw |
| LegacyMigrator.SystemTargetDropped | MongoTools/Migrate/Migrator.cs:85-96 | a guarded collection's target is still dropped when asked |
| LegacyMigrator.HaltStepSized | MongoTools/Migrate/Migrator.cs:104-112 | a batch is sent exactly when the buffer reaches the batch size, so the buffer stays shorter than it |
| LegacyMigrator.HaltLoopSized | MongoTools/Migrate/Migrator.cs:99-113 | after the loop every batch sent is full and the buffer holds less than a batch |
| LegacyMigrator.DrainSized | MongoTools/Migrate/Migrator.cs:115-121 | the remainder flushed after the loop is non-empty and shorter than a batch |
| LegacyMigrator.HaltedSent | MongoTools/Migrate/Migrator.cs:99-121 | every batch sent is inserted or lost, in call order |
| LegacyMigrator.CopiedInBatches | MongoTools/Migrate/Migrator.cs:99-121 | the batches a copy reports, inserted then lost, hold the batch size each except a shorter last one |
| LegacyMigrator.CopiedInIdOrder | MongoTools/Migrate/Migrator.cs:99 | documents are inserted in ascending `_id` order |
| LegacyMigrator.CopyCollection | MongoTools/Migrate/Migrator.cs:72-148 | the method's outcome is `CopyOutcome` |
| LegacyMigrator.CopyAllInOrder | MongoTools/Migrate/Migrator.cs:24-27 | collections are copied in listing order; only the last may throw, and a throw stops the loop |
| LegacyMigrator.TargetsAreSources | MongoTools/Migrate/Migrator.cs:81-82 | every target has its source's name |
| LegacyMigrator.CopyAllSticks | MongoTools/Migrate/Migrator.cs:24-27 | after a throw no later collection is copied |
| LegacyMigrator.NegativeBatchSizeStopsAtOnce | MongoTools/Migrate/Migrator.cs:72-75 | a negative batch size throws on the first collection and nothing else is copied |
| LegacyMigrator.CopyCollections | MongoTools/Migrate/Migrator.cs:24-27 | the dispatch loop gives the reports of `CopyAll` |
| LegacyMigrator.DatabaseCopy | MongoTools/Migrate/Migrator.cs:21-28 | every listed collection is copied, in listing order, until the first throw |
| LegacyMigrator.CollectionsCopy | MongoTools/Migrate/Migrator.cs:38-45 | the collections of the list are copied in list order until the first throw |
| LegacyMigrator.CollectionsCopyMasked | MongoTools/Migrate/Migrator.cs:55-62 | only collections that contain the mask, case-sensitively, are copied |

## Left out

- Driver I/O is replaced by inputs. These are the collections in `_id` order, the fault schedules of `MoveNext` and of the inserts (for the older copies of `MongoDB/SharedMethods.cs` and `Migrate/Migrator.cs` only the inserts: their reads and drops never throw), statistics, existence, the capped flag, the server version and the `IndexExists` answers.
- Logging, console progress, the `double` progress percentage, `Thread.Sleep` back-offs and the lazy-wait throttle are not modelled. The 30 polls of the index wait remain as a bounded count.
- Concurrency: `ParallelTasks` is not part of this model. `DatabaseCopy` is modelled up to the tasks it emits.
- `ServersAreEqual` resolves host names; it is a boolean input.
- Resolver.IsSelfCopy: the skip test compares the two `MongoDatabase` objects by reference; the boolean input `sharedServer` stands for that reference equality. When it is false a same-named collection on the same server still gets a task, as in the source.
- Indexes.IndexSpec: an index is modelled by the `IndexInfo` fields alone. Other options in the raw index document (a partial filter, a collation), which the `createIndexes` command passes on and the one-at-a-time branch does not, are not modelled.
- Text.ParseInt: the invariant culture's signs are assumed, and the trailing null characters `int.Parse` also skips are not modelled.
- `FlexibleOptions` is not part of this model. Its typed `Get` reads absent or unreadable values as the default, and its reading of an option as a JSON string array is an input.
- The regex engine is specified directly as glob semantics. Case folding is ASCII-only, and names are assumed to hold no line break, because `.` does not match one.
- `CheckConnections`, `Main`, the other CLI front-ends and the rest of `ConsoleUtils.cs` (configuration files, help, prompts, `CloseApplication`) are not modelled; an exit is the `Exit(code)` outcome.
- The `--key:value` spelling mentioned beside the tokenizer is not handled by the code and is not modelled.
- `JsonToCSV.LoadExportLayout` (XML loading) and the text of `Double` and `DateTime` values are not modelled.
- The `MongoToolsLib/Migrator.cs` overloads of `DatabaseCopy` for one database and of `CollectionsCopy` for a list only loop over names and call `CopyCollection`. They are not modelled separately; the mask selection of the third overload is `Resolver.Masked`.
- `MongoDB/Merger.cs`, `MongoDB/Migrator.cs` and `MongoDB/Duplicator.cs` are thin dispatch loops and are not modelled. Data-only files (models, enums, argument constants) are not modelled either.
- Inserts are all-or-nothing: a batch that is partly inserted before an exception is not modelled.
- The index requests of the older copies always succeed: a failing `EnsureIndex` is not modelled.
- A negative capacity for a buffer list is modelled as the copy throwing before it starts.
- A collection is its documents with strictly increasing integer `_id`s; other key types and sort orders are not modelled.
- LegacyCopy.CopyCollection and LegacyCopy.DuplicateCollection: the unsorted read of the first is the collection's natural order, which is an input; only the duplicate's read is tied to `_id` order.
- MigrateArgs.ParseArguments and MigrateArgs.AcceptedSettings: they describe the corrected -105 test on the target names. The code as written is `MigrateArgs.ParseArgumentsAsWritten`, which `ParseArgumentsInOrder` follows and which accepts wildcard target names (`AcceptedSettingsAsWritten`).
- CsvExport.BsonValueToString: `Double` and `DateTime` values are given as already formatted text, not as numbers and dates.

## Findings

| source | as written | input that shows it | evidently intended | confidence | as-written member | corrected member |
|---|---|---|---|---|---|---|
| MongoTools/MongoToolsLib/SharedMethods.cs:112-116 | the if-smaller exit formats `last["_id"]` into its log message, and `last` is null without resume, so the exit throws into the outer handler and is reported as a failure | an existing target with as many documents as the source, if-smaller on, resume off | a quiet skip of the collection | not executed | CopyEngine.IfSmallerWithoutResumeFails | CopyEngine.TargetVerdict |
| MongoTools/MongoToolsLib/SharedMethods.cs:323 | a server is treated as older than 2.6 when `Major < 2 && MajorRevision < 6`, which holds only for major versions below 2 | a 2.4 server, which has no `createIndexes` command | major below 2, or major 2 with minor below 6 | not executed | Indexes.LegacyServerMisclassified | Indexes.LegacyServer |
| MongoTools/MongoCopy/Migrate.cs:161-172 | the -105 check on target names tests the source names again, so it never fires | sources `["app"]`, targets `["copy*"]` | reject wildcards in the target names with -105 | not executed | MigrateArgs.SecondWildcardTestUnreachable | MigrateArgs.ParseArguments |
