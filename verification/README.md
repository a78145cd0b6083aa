# Verified models of Sofia's configuration, conformance, analytics and loading logic

This project models the parts of the repository whose behaviour is hardest to see from any one
function, and proves what they promise, for all inputs and all runs.

- **Configuration overrides.** `TomlLiterals` prints a configuration value as a TOML literal the way the
  TypeScript SDK does and reads it back with a reader for the String, Keys, Array and Inline Table
  sections of TOML v1.0.0. `ConfigOverrides` flattens a configuration into `path=literal` overrides and
  follows them into the command line program, which parses each override and applies it to a table.
  `ConfigArrival` proves when the table built there is the configuration, `OverrideEffects` what an override
  does to a table that is there already, `ConfigErrors` which values and texts are refused and why.
- **Conformance regression gate.** `RegressionReports` is the validator, `RegressionFacts` says which
  reports it accepts and what it then knows, `RegressionCompact` the same for compact
  baselines, and `RegressionIdentity` which checks are the same one and what the gate lists.
  `RegressionMessages` and `CompactMessages` say which errors any report gets. `RegressionGate`
  compares two reports, `RegressionBaseline` compacts one, `RegressionWitness` gives reports that are
  accepted, and `RegressionValidator` is the code that appends errors and fills dictionaries.
- **Review regression gate.** `ReviewBaseline`, `ReviewReports`, `ReviewCompact`, `ReviewMessages`,
  `ReviewCompactMessages` and `ReviewValidator` do the same for the second gate, and `ReviewOrder` says
  that the order of its cases and checks does not matter.
- **MCP fixture server.** `McpProtocol` is the handler of one message, the life of one connection and
  the stdio loop, and `McpMethods` says how every message is answered. `McpHttp` is the HTTP front with
  its session table, with one request at a time and with many threads, and `McpFront` says which requests
  it refuses. `SseStream` encodes event streams and reads them back by sections 9.2.5 and 9.2.6 of the
  WHATWG HTML standard, and `JsonReader` takes the texts in it back to messages.
- **Schema titles.** `SchemaTitles` is the title normalisation of a JSON schema tree. `SchemaNames`
  says which names it gives, `SchemaMeaning` that it changes nothing but titles and keeps them distinct,
  `SchemaSettled` which values it leaves alone, and `SchemaAcceptance` that a bundle with references accepts
  what it accepted before. `SchemaAssertions` and `SchemaExact` say how exact the condition for that is.
- **Analytics.** `EventQueue` is the bounded queue as a state machine over the steps of producers, flush
  callers and the worker. `EventBatches` splits events into requests, `EventDedupe` is the capped set of
  emitted keys, `AcceptedLines` counts the changed lines of a unified diff.
- **Loading and normalising.** `RoleLoader` and `RoleLoading` load agent roles over configuration
  layers, and `RoleWarnings` says which warnings that gives. `ReleaseVersion` normalises versions and makes
  tags, `ReleaseForms` says which texts it takes. `WrapperArgs` parses and rebuilds the arguments of the
  lint wrapper, `WrapperFlags` says what raises its flags.

`Wrappers`, `Text`, `JsonText`, `JsonShapes`, `Ordering` and `ErrorLog` hold what several models share.
`dafny verify dfyconfig.toml` checks the whole project.

Code that changes things step by step is a method, or a class with methods, proved equal to a
specification function; the properties are then proved of that function. Errors and exceptions are
values (`Result`, `Option`, or a flag saying that the code raised).

Where the code and a natural expectation differ, the code is followed. Six properties that one might
expect hold only under a condition. For each the condition is proved exact, and a lemma shows how the
property fails without it:

- the table the program builds is the configuration exactly when every path and literal arrives
  (`ConfigArrival.ConfigurationArrives`, `ConfigOverrides.DottedKeyNests`);
- a compact baseline can be read back exactly when every required slot has a check that is not skipped
  (`RegressionBaseline.CompactReadsBack`, `RegressionBaseline.SkippedSlotBlocksEveryCandidate`);
- rebuilding the wrapper's arguments is stable exactly when the user named a manifest or the manifest path
  is not `--` (`WrapperArgs.RebuildIsStable`, `WrapperArgs.SeparatorGrows`);
- a schema bundle without alternatives, negations and conditions keeps its meaning exactly when no assertion
  in it holds something to be titled (`SchemaExact.MeaningKeptIff`, `SchemaAcceptance.ConstantsCanChange`);
- an override leaves a path apart from its own as it was exactly unless that is the `enabled` of a lone
  feature boolean that the override leads through (`OverrideEffects.OthersKept`);
- a text is accepted as a version exactly in the intended spellings and in one more, which lets
  `1.0-bet-alpha5` pass for `1.0b5` (`ReleaseForms.NormalizeIff`, `ReleaseForms.BetAlphaTaken`).

## Model

| member | source | states |
|---|---|---|
| `TomlLiterals.PrintedReads` | sdk/typescript/src/exec.ts:307-343 | reading a printed value gives back the value it stands for and the untouched rest of the text if no text in it holds U+007F and every integer fits 64 bits, and fails otherwise |
| `TomlLiterals.PrintedItemsRead` | sdk/typescript/src/exec.ts:317-319 | the same for the elements of an array, nested to any depth |
| `TomlLiterals.PrintedEntriesRead` | sdk/typescript/src/exec.ts:320-331 | the same for the entries of an inline table |
| `TomlLiterals.PrintedKeyReads` | sdk/typescript/src/exec.ts:340-343 | a non-empty key printed bare or quoted reads back as that key if it holds no U+007F, and fails otherwise |
| `TomlLiterals.QuotedBodyReads` | sdk/typescript/src/exec.ts:308-309 | every JSON escape is read as the character it stands for; exactly U+007F is unreadable |
| `TomlLiterals.PrintedIntegerReads` | sdk/typescript/src/exec.ts:310-314 | a printed integer reads back exactly when it fits 64 bits |
| `TomlLiterals.ScalarsNeedDelimiter` | sdk/typescript/src/exec.ts:310-316 | the condition on the following text is needed: a number or boolean directly followed by other text never reads back |
| `ConfigOverrides.FlattenConfigOverrides` | sdk/typescript/src/exec.ts:267-305 | the recursive pushes append exactly the flattened overrides, or throw the error the flattening has, keeping what was pushed |
| `ConfigOverrides.FlattenAll` | sdk/typescript/src/exec.ts:291-304 | the loop over an object's entries appends exactly their overrides, or throws their first error |
| `ConfigOverrides.FlattenChild` | sdk/typescript/src/exec.ts:298-303 | one turn of that loop on a nested object or a leaf |
| `ConfigOverrides.SerializeConfigOverrides` | sdk/typescript/src/exec.ts:261-265 | a whole configuration serialises to its flattened overrides or fails with their error |
| `ConfigErrors.PrintFails` | sdk/typescript/src/exec.ts:307-338 | a value prints exactly when nothing in it is null, unsupported, not finite or under an empty key; otherwise the first such thing, in reading order, is thrown |
| `ConfigErrors.ConfigurationFails` | sdk/typescript/src/exec.ts:267-305 | the same for a whole configuration, which must be an object |
| `ConfigOverrides.LiteralArrives` | sofia-rs/utils/cli/src/config_override.rs:60-102 | the receiver's parse of a printed literal, with its fallback to a raw string, is the value meant, if and only if a condition on the value holds |
| `ConfigOverrides.PathReceived` | sofia-rs/utils/cli/src/config_override.rs:49-93 | a path arrives unchanged exactly when it has no `=`, no outer blanks and is not the legacy alias |
| `ConfigErrors.OverrideMeans` | sofia-rs/utils/cli/src/config_override.rs:49-93 | for every override text: no equals sign and an empty path are refused, in that order; otherwise path and value are what stands on the two sides of the first equals sign without outer blanks, with the legacy alias replaced |
| `ConfigErrors.RawTextMeans` | sofia-rs/utils/cli/src/config_override.rs:72-79 | a text that is no TOML value stands for itself without outer quotes |
| `ConfigErrors.TrimMeans` | sofia-rs/utils/cli/src/config_override.rs:56-76 | trimming is the one way to drop exactly the unwanted characters at both ends |
| `ConfigOverrides.SplitJoin` | sofia-rs/config/src/overrides.rs:18-27 | splitting a joined path at its dots recovers non-empty dot-free segments |
| `ConfigOverrides.OverrideReceived` | sofia-rs/utils/cli/src/config_override.rs:49-93 | the receiver recovers the segments and the value of an override exactly when both arrive |
| `ConfigOverrides.LeavesReceived` | sdk/typescript/src/exec.ts:267-305 | the receiver finds every leaf at its own path, in order, exactly when all of them arrive |
| `ConfigOverrides.ApplyAllUnder` | sofia-rs/config/src/overrides.rs:18-99 | overrides below one key act on that key's table and on nothing else |
| `ConfigOverrides.LeavesRebuild` | sofia-rs/config/src/overrides.rs:9-99 | setting all leaves of an object, in order, in a table without its keys adds exactly that object, nested empty objects included, whatever the structured-feature merge does |
| `OverrideEffects.BuildCliOverridesLayer` | sofia-rs/config/src/overrides.rs:9-15 | the loop that applies parsed overrides to a growing root builds the specified layer, in which every path that is no structured feature has the value of its last override, if no later one leads above or below it |
| `OverrideEffects.PathSet` | sofia-rs/config/src/overrides.rs:18-99 | after an override of a path that is no structured feature, the path holds its value, whatever was there before: nothing, another value, or a scalar on the way |
| `OverrideEffects.FeatureSet` | sofia-rs/config/src/overrides.rs:29-73 | at a structured feature a boolean only sets `enabled` of a configured one, a table is merged into what is there, also into a lone boolean, and anything else replaces it |
| `OverrideEffects.FeaturePathMeans` | sofia-rs/config/src/merge.rs:62-74 | which paths those are: three features, at the top or in a profile |
| `OverrideEffects.OthersKept` | sofia-rs/config/src/overrides.rs:18-99 | every path apart from the override's keeps its value if and only if it is not the `enabled` of a lone feature boolean that the override leads through; that one takes over the boolean |
| `OverrideEffects.SetStays` | sofia-rs/config/src/overrides.rs:9-99 | a value stays while overrides go elsewhere |
| `OverrideEffects.LastWins` | sofia-rs/config/src/overrides.rs:9-99 | of several overrides of such a path the last wins, whatever table they were applied to, if no later one leads above or below it |
| `ConfigOverrides.ConfigurationRebuilt` | sdk/typescript/src/exec.ts:261-305 | the leaves are all received if and only if every path and literal arrives, and then the layer built is the whole configuration |
| `ConfigOverrides.DottedKeyNests` | sdk/typescript/src/exec.ts:298-298 | for a configuration of one leaf of any value whose key has one dot, the layer built: a nested table, and not the configuration |
| `ConfigArrival.HeadReceived` | sofia-rs/utils/cli/src/config_override.rs:49-93 | below segments that arrived, the next received segment is the sender's key if that key arrives, and shorter than the key otherwise: dots, equals signs, blanks and the alias included |
| `ConfigArrival.BuiltKeys` | sofia-rs/config/src/overrides.rs:18-99 | the table built has exactly the keys that received paths lead to, whatever the feature merge does |
| `ConfigArrival.KeyForced` | sdk/typescript/src/exec.ts:291-303 | if every key of a level is led to by some received path, every key of that level arrives |
| `ConfigArrival.LayerForces` | sofia-rs/config/src/overrides.rs:9-99 | a table built below arrived segments that equals the entries' own table forces all paths and literals below to arrive |
| `ConfigArrival.ConfigurationArrives` | sdk/typescript/src/exec.ts:261-305 | the layer built from the emitted overrides is the configuration if and only if every path and every literal arrives, for every feature merge |
| `ConfigArrival.SpecialKeyIsLost` | sdk/typescript/src/exec.ts:298-298 | so any configuration with a dot or an equals sign in some top-level key is never rebuilt |
| `SseStream.StreamDecodes` | scripts/mcp_conformance/server.py:1344-1371 | for each framing, an event-stream reader recovers exactly the one-line payloads that were sent, in order |
| `SseStream.LineEndsUsed` | scripts/mcp_conformance/server.py:1344-1371 | the two comment framings end lines with CR only, every other with LF only |
| `SseStream.DumpsIsOneLine` | scripts/mcp_conformance/server.py:1365-1371 | the JSON text of any message has no CR and no LF |
| `SseStream.MessagesDecode` | scripts/mcp_conformance/server.py:1344-1371 | so the texts of every list of JSON messages are recovered under every framing, with no condition |
| `JsonReader.LoadsDumps` | scripts/mcp_conformance/server.py:1365-1371 | reading the JSON text of any message gives the message back, so the text determines it |
| `JsonReader.MessagesRecovered` | scripts/mcp_conformance/server.py:1344-1371 | so under every framing, reading the stream and its texts gives back exactly the messages sent, in order |
| `SseStream.CommentsIgnored` | scripts/mcp_conformance/server.py:1349-1359 | any number of CR-ended comments leaves the reader as it was |
| `SseStream.FloodExceedsLimit` | scripts/mcp_conformance/server.py:1349-1356 | the comment flood is longer than the event limit it probes |
| `RegressionFacts.ChecksRead` | scripts/mcp_conformance/run_sofia_compliance.py:1639-1664 | reading a case's checks is silent exactly when all are good, and then adds exactly their identity and status facts |
| `RegressionFacts.CasesCollected` | scripts/mcp_conformance/run_sofia_compliance.py:1593-1613 | collecting cases is silent exactly when all are typed and no slot is taken twice, and then tabulates them |
| `RegressionFacts.ModesRead` | scripts/mcp_conformance/run_sofia_compliance.py:1615-1679 | reading all required modes is silent exactly when each has its cases and covers its catalog |
| `RegressionFacts.FullRead` | scripts/mcp_conformance/run_sofia_compliance.py:1459-1679 | the validator accepts a full report if and only if a stated condition on the report holds, and its dictionary then holds exactly the reported facts |
| `RegressionFacts.SameFacts` | scripts/mcp_conformance/run_sofia_compliance.py:1459-1679 | a dictionary without empty entries is determined by its facts |
| `RegressionMessages.FullMessages` | scripts/mcp_conformance/run_sofia_compliance.py:1459-1679 | for every full report, good or bad: the validator raises if and only if a check it must read makes it raise, and otherwise an error is reported if and only if the report deserves it, error by error: header, cases, slots, checks and scenarios, where the first case of a slot counts |
| `RegressionMessages.HeaderMessages` | scripts/mcp_conformance/run_sofia_compliance.py:1459-1492 | which of the eight header errors are reported |
| `RegressionMessages.CasesReported` | scripts/mcp_conformance/run_sofia_compliance.py:1593-1613 | collecting cases reports exactly the malformed, untyped and repeated ones and tabulates the first of each slot |
| `RegressionMessages.ModesReported` | scripts/mcp_conformance/run_sofia_compliance.py:1615-1677 | reading the modes reports exactly what each mode lacks |
| `RegressionMessages.RaisingChecks` | scripts/mcp_conformance/run_sofia_compliance.py:1425-1457 | the checks that make the validator raise: a list or dictionary for a source, or for the status of an identifiable check |
| `RegressionCompact.CompactRead` | scripts/mcp_conformance/run_sofia_compliance.py:1490-1591 | the validator accepts a compact baseline, whoever wrote it, if and only if it is well formed, its buckets list good identities once, and these cover every mode; its dictionary is then exactly what they list |
| `RegressionCompact.RecordMeans` | scripts/mcp_conformance/run_sofia_compliance.py:1522-1549 | a record is read as an identity exactly when its five members spell that identity |
| `RegressionCompact.RecordsReadIff` | scripts/mcp_conformance/run_sofia_compliance.py:1516-1554 | reading a bucket is silent exactly when all records are good and new, and then adds exactly what they list |
| `RegressionCompact.TransportsMean` | scripts/mcp_conformance/run_sofia_compliance.py:1502-1508 | the required transports are accepted exactly when they are the two known ones, in either order |
| `CompactMessages.CompactReported` | scripts/mcp_conformance/run_sofia_compliance.py:1490-1591 | for every compact baseline, good or bad: when the validator raises, exactly which errors it reports otherwise, and which identities it then knows |
| `CompactMessages.RecordsReported` | scripts/mcp_conformance/run_sofia_compliance.py:1516-1554 | a bucket is reported for malformed records exactly if it has one, for duplicates exactly if an identity recurs in it, and adds exactly the identities spelled |
| `CompactMessages.RaisingRecords` | scripts/mcp_conformance/run_sofia_compliance.py:1528-1549 | the records that make the validator raise |
| `RegressionGate.PassMeans` | scripts/mcp_conformance/run_sofia_compliance.py:1744-1809 | the gate passes if and only if both reports are acceptable, agree on the auth policy, and no decided check regressed |
| `RegressionIdentity.ListsMean` | scripts/mcp_conformance/run_sofia_compliance.py:1772-1798 | which identities are new failures, known failures, missing and fixed, each by its statuses in the two reports |
| `RegressionIdentity.ListsSorted` | scripts/mcp_conformance/run_sofia_compliance.py:1772-1798 | all four lists are sorted |
| `RegressionIdentity.MessagesMean` | scripts/mcp_conformance/run_sofia_compliance.py:1744-1781 | which errors the gate reports: those of each report under its own label, those of the auth policies, and one for each failing shipping check |
| `RegressionGate.PassReflexive` | scripts/mcp_conformance/run_sofia_compliance.py:1744-1809 | a report passes against itself exactly when it is valid, has a recorded auth policy and no shipping failure |
| `RegressionGate.PassTransitive` | scripts/mcp_conformance/run_sofia_compliance.py:1744-1809 | passing is transitive along a chain of reports |
| `RegressionGate.InterchangeableVerdicts` | scripts/mcp_conformance/run_sofia_compliance.py:1744-1801 | interchangeable reports get and give the same verdict against every other report |
| `RegressionGate.CaseOrderIrrelevant` | scripts/mcp_conformance/run_sofia_compliance.py:1593-1679 | any reordering of a report's cases is interchangeable with it |
| `RegressionGate.ChecksInterchangeable` | scripts/mcp_conformance/run_sofia_compliance.py:1593-1679 | so is any replacement of one case's checks by checks with the same outcomes |
| `RegressionGate.ReorderedChecksMeanTheSame` | scripts/mcp_conformance/run_sofia_compliance.py:1593-1679 | reordered checks have the same outcomes |
| `RegressionGate.StableNameOfNumbered` | scripts/mcp_conformance/run_sofia_compliance.py:1443-1450 | a decimal `#n` suffix, in any script's digits, is dropped from a name with a non-empty stem |
| `RegressionGate.RenumberedCheckMeansTheSame` | scripts/mcp_conformance/run_sofia_compliance.py:1425-1456 | renumbering that suffix leaves the check's identity and status alone |
| `RegressionGate.RenumberedListMeansTheSame` | scripts/mcp_conformance/run_sofia_compliance.py:1443-1456 | and so keeps the outcomes of the whole list |
| `RegressionIdentity.StableNameKept` | scripts/mcp_conformance/run_sofia_compliance.py:1443-1450 | a name is left as it is if and only if it is not a non-empty stem followed by `#` and decimal digits |
| `RegressionIdentity.StableNameMeans` | scripts/mcp_conformance/run_sofia_compliance.py:1443-1450 | the stable name is the name without such a number, and nothing else is |
| `RegressionIdentity.IdentityMeans` | scripts/mcp_conformance/run_sofia_compliance.py:1425-1457 | a check has an identity exactly when its source, scenario and id are usable, and it is made of the mode, the transport, its source, its scenario and its id, or without an id its stable name |
| `RegressionIdentity.IdentityRaises` | scripts/mcp_conformance/run_sofia_compliance.py:1425-1457 | the identity raises exactly for a source that is a list or a dictionary |
| `RegressionIdentity.SameIdentityIff` | scripts/mcp_conformance/run_sofia_compliance.py:1425-1457 | two checks share an identity if and only if mode, transport, source and scenario agree and so does the id, or the name without its number where there is no id |
| `RegressionIdentity.NamesTellApart` | scripts/mcp_conformance/run_sofia_compliance.py:1443-1457 | so checks without id and number are told apart by their names |
| `RegressionIdentity.FactMeans` | scripts/mcp_conformance/run_sofia_compliance.py:1639-1660 | a check is recorded as a fact exactly when it has that identity, names that status and its success flag agrees with it |
| `RegressionIdentity.CoverageMeans` | scripts/mcp_conformance/run_sofia_compliance.py:1660-1677 | a mode is covered exactly when the scenarios observed are those of its catalog |
| `RegressionIdentity.CatalogMeans` | scripts/mcp_conformance/run_sofia_compliance.py:1617-1625 | a report runs a catalog exactly when it lists its scenarios one by one in order |
| `RegressionBaseline.CompactsWhenAcceptable` | scripts/mcp_conformance/run_sofia_compliance.py:1682-1726 | a report compacts exactly when it is acceptable |
| `RegressionBaseline.CompactReadsBack` | scripts/mcp_conformance/run_sofia_compliance.py:1459-1726 | reading the compact baseline back keeps exactly the PASS and FAIL facts, and is silent if and only if every required slot has a decided check |
| `RegressionBaseline.CompactGatesAlike` | scripts/mcp_conformance/run_sofia_compliance.py:1682-1809 | then the gate gives every candidate the same verdict, errors and four lists against the compact baseline as against the report |
| `RegressionBaseline.CompactIdempotent` | scripts/mcp_conformance/run_sofia_compliance.py:1682-1726 | and compacting the compact baseline changes nothing |
| `RegressionBaseline.SkippedSlotBlocksEveryCandidate` | scripts/mcp_conformance/run_sofia_compliance.py:1682-1809 | otherwise no candidate at all passes against it |
| `RegressionBaseline.CleanReadingCovers` | scripts/mcp_conformance/run_sofia_compliance.py:1459-1679 | whichever format it has, a report read without complaint is complete and well formed |
| `RegressionWitness.AcceptableReportExists` | scripts/mcp_conformance/run_sofia_compliance.py:1459-1726 | for every scenario catalog some full report is acceptable with every required slot decided, so the claims above are about something |
| `RegressionWitness.UndecidedReportExists` | scripts/mcp_conformance/run_sofia_compliance.py:1459-1726 | and if any scenario is required, some acceptable report has an undecided slot |
| `RegressionValidator.RequiredRegressionChecks` | scripts/mcp_conformance/run_sofia_compliance.py:1459-1679 | the appending code returns the specified dictionary, appends exactly the specified errors, and raises exactly where the specification does |
| `RegressionValidator.ReadCompactInto` | scripts/mcp_conformance/run_sofia_compliance.py:1490-1591 | the same for its compact branch |
| `RegressionValidator.ReadFullInto` | scripts/mcp_conformance/run_sofia_compliance.py:1593-1679 | the same for its full branch |
| `RegressionValidator.CompareFailures` | scripts/mcp_conformance/run_sofia_compliance.py:1772-1781 | new and known failures are the sorted difference and intersection of the failing identities, and each shipping failure is reported |
| `RegressionValidator.CompareBaseline` | scripts/mcp_conformance/run_sofia_compliance.py:1783-1798 | missing and fixed checks are the sorted lists of what is gone and of what now passes |
| `RegressionValidator.EvaluateRegressionGate` | scripts/mcp_conformance/run_sofia_compliance.py:1744-1809 | the gate's code computes the specified result |
| `ReviewBaseline.CleanReading` | scripts/mcp_conformance/review_regressions.py:859-1029 | a clean reading found every required case, only good identities, and totals that match its recount |
| `ReviewReports.ChecksReadIff` | scripts/mcp_conformance/review_regressions.py:859-1029 | reading a case's checks is silent exactly when all are well formed, distinct and new, and then adds exactly their results |
| `ReviewReports.CasesReadIff` | scripts/mcp_conformance/review_regressions.py:859-1029 | reading the cases is silent exactly when each is good and no slot occurs twice, and then adds exactly their slots and results |
| `ReviewReports.FullRead` | scripts/mcp_conformance/review_regressions.py:859-1029 | the validator accepts a full report if and only if a stated condition on the report holds, and then reads it as exactly its results |
| `ReviewReports.FullReportRecorded` | scripts/mcp_conformance/review_regressions.py:859-1029 | in a clean full report every check of every case is recorded under its own identity with its own result, nothing else is, and no two cases share a slot |
| `ReviewReports.FullReportExists` | scripts/mcp_conformance/review_regressions.py:859-1029 | a dictionary is what some accepted full report reads as if and only if its identities are good and every required slot has one |
| `ReviewCompact.CompactRead` | scripts/mcp_conformance/review_regressions.py:882-938 | the validator accepts a compact reviewer baseline, whoever wrote it, if and only if it is well formed and its totals count what its buckets spell out; its dictionary is then exactly that |
| `ReviewCompact.RecordMeans` | scripts/mcp_conformance/review_regressions.py:912-935 | a record is read as an identity exactly when its members spell it and its case is required |
| `ReviewCompact.RecordsReadIff` | scripts/mcp_conformance/review_regressions.py:904-938 | reading a bucket is silent exactly when all records are good and new, and then adds exactly what they spell out |
| `ReviewCompact.CaseRefsReadIff` | scripts/mcp_conformance/review_regressions.py:886-902 | reading the required cases is silent exactly when all are typed and distinct, and then observes exactly these |
| `ReviewMessages.FullReported` | scripts/mcp_conformance/review_regressions.py:859-1029 | for every full review report, good or bad: an error is reported if and only if the report deserves it, error by error, and the reading knows exactly the required slots filled and the first result of each identity in the first case of its slot |
| `ReviewMessages.CheckMeans` | scripts/mcp_conformance/review_regressions.py:967-985 | a check has an identity and a result exactly when its name has the review prefix and its success is a boolean |
| `ReviewMessages.CasesReported` | scripts/mcp_conformance/review_regressions.py:938-990 | the same for the list of cases |
| `ReviewMessages.TotalsMean` | scripts/mcp_conformance/review_regressions.py:1000-1024 | the totals agree exactly when they count passing, failing and all results, passed cases and observed cases |
| `ReviewMessages.ClosingMessages` | scripts/mcp_conformance/review_regressions.py:992-1028 | which missing and surplus cases, wrong totals and wrong verdicts are reported |
| `ReviewCompactMessages.CompactReported` | scripts/mcp_conformance/review_regressions.py:882-1029 | the same for every compact review baseline, good or bad, whose passing bucket comes before the failing one |
| `ReviewBaseline.CompactReadsBack` | scripts/mcp_conformance/review_regressions.py:1032-1067 | reading a compacted report back yields no errors, all cases and the identical dictionary |
| `ReviewBaseline.CleanReportExists` | scripts/mcp_conformance/review_regressions.py:859-1067 | every dictionary of good identities is what some report reads as, without errors |
| `ReviewBaseline.CompactIdempotent` | scripts/mcp_conformance/review_regressions.py:1032-1067 | compacting twice is compacting once |
| `ReviewBaseline.PassMeans` | scripts/mcp_conformance/review_regressions.py:1070-1110 | the gate passes exactly when both reports are clean, no failure is new and no check is gone |
| `ReviewCompact.ListsMean` | scripts/mcp_conformance/review_regressions.py:1086-1099 | which identities are new failures, known failures, missing and fixed, each by its results in the two reports |
| `ReviewCompact.ListsSorted` | scripts/mcp_conformance/review_regressions.py:1086-1099 | all four lists are sorted |
| `ReviewBaseline.PassIsPreorder` | scripts/mcp_conformance/review_regressions.py:1070-1110 | passing is reflexive exactly on clean reports, and transitive |
| `ReviewBaseline.CompactGatesAlike` | scripts/mcp_conformance/review_regressions.py:1032-1110 | against a compacted baseline the gate answers as against the report itself |
| `ReviewOrder.InterchangeableVerdicts` | scripts/mcp_conformance/review_regressions.py:1070-1110 | reports that are clean together and then read alike get and give the same verdict against every other report, and when clean the same whole result |
| `ReviewOrder.CaseOrderIrrelevant` | scripts/mcp_conformance/review_regressions.py:859-1029 | any reordering of a report's cases is interchangeable with it |
| `ReviewOrder.CheckOrderIrrelevant` | scripts/mcp_conformance/review_regressions.py:859-1029 | so is any reordering of one case's checks |
| `ReviewValidator.RequiredReviewChecks` | scripts/mcp_conformance/review_regressions.py:859-1029 | the appending code returns the specified dictionary and appends exactly the specified errors |
| `ReviewValidator.CompareFailures` | scripts/mcp_conformance/review_regressions.py:1086-1092 | known and new failures are the sorted intersection and difference |
| `ReviewValidator.CompareBaseline` | scripts/mcp_conformance/review_regressions.py:1094-1099 | missing and fixed checks likewise |
| `ReviewValidator.EvaluateReviewRegressionGate` | scripts/mcp_conformance/review_regressions.py:1070-1110 | the gate's code computes the specified result |
| `SchemaTitles.PendingTitle` | sdk/python/scripts/update_sdk_artifacts.py:423-459 | walking with a title passed along is walking the node with that title already written |
| `SchemaTitles.PendingOwner` | sdk/python/scripts/update_sdk_artifacts.py:413-420 | walking with an owner passed along is walking the properties with their discriminator titles already written |
| `SchemaTitles.NameKept` | sdk/python/scripts/update_sdk_artifacts.py:350-388 | annotation never changes the name a variant deserves |
| `SchemaNames.PascalMeans` | sdk/python/scripts/update_sdk_artifacts.py:318-321 | the Pascal case of a text is its maximal runs of letters and digits, each with a raised first letter, and nothing else is |
| `SchemaNames.VariantNameMeans` | sdk/python/scripts/update_sdk_artifacts.py:350-388 | the name of a variant in full: the words of its discriminator's literal, of its only property or only required member, before the base; the base and `Value` for an enum; none otherwise |
| `SchemaNames.MarkFound` | sdk/python/scripts/update_sdk_artifacts.py:350-388 | every variant falls under one of these cases |
| `SchemaNames.VariantsMean` | sdk/python/scripts/update_sdk_artifacts.py:423-459 | a list is refused if and only if some variant would take a title that is taken or cannot be annotated; otherwise each variant gets the title it deserves and is annotated under it |
| `SchemaNames.VariantsNamed` | sdk/python/scripts/update_sdk_artifacts.py:423-459 | so after the walk every listed variant bears the words of what tells it apart, before its base, or keeps its title if nothing does |
| `SchemaNames.DiscriminatorsTitled` | sdk/python/scripts/update_sdk_artifacts.py:413-420 | under a titled owner each untitled discriminator property gets the owner's title followed by its key's words, and every other property keeps its title |
| `SchemaTitles.Idempotent` | sdk/python/scripts/update_sdk_artifacts.py:462-500 | annotating an annotated tree again changes nothing anywhere in it |
| `SchemaTitles.VariantsIdempotent` | sdk/python/scripts/update_sdk_artifacts.py:423-459 | the same for a list of variants, whatever titles are taken the second time |
| `SchemaTitles.DefinitionsIdempotent` | sdk/python/scripts/update_sdk_artifacts.py:462-500 | the same for definition tables |
| `SchemaMeaning.AnnotateChangesTitlesOnly` | sdk/python/scripts/update_sdk_artifacts.py:413-500 | annotation that does not raise changes nothing but `title` members, anywhere in the tree |
| `SchemaMeaning.VariantTitles` | sdk/python/scripts/update_sdk_artifacts.py:423-459 | every changed title is new: not taken before and not equal to another changed one |
| `SchemaMeaning.VariantTitlesDistinct` | sdk/python/scripts/update_sdk_artifacts.py:423-459 | titles end up pairwise distinct if and only if those of the variants that already bear the name they deserve, or deserve none, are; so distinct titles stay distinct |
| `SchemaMeaning.AnnotateVariantList` | sdk/python/scripts/update_sdk_artifacts.py:423-459 | the loop over the list, writing each variant back in place, computes the specified list or raises where it does |
| `SchemaSettled.UnchangedIffSettled` | sdk/python/scripts/update_sdk_artifacts.py:413-500 | the walk changes nothing if and only if every listed variant bears the name derived from its shape and no discriminator under a titled owner lacks its title |
| `SchemaSettled.ResultSettled` | sdk/python/scripts/update_sdk_artifacts.py:462-500 | what the walk returns is always such a value |
| `SchemaAcceptance.DefinitionKept` | sdk/python/scripts/update_sdk_artifacts.py:487-495 | a definition is present after the walk exactly when it was before, and is annotated under its own name |
| `SchemaAcceptance.AnnotateKeepsMeaning` | sdk/python/scripts/update_sdk_artifacts.py:462-500 | the annotated bundle and each of its definitions accept the same instances, following references to any depth and for any meaning of assertions and patterns, when no assertion carries data the walk would title |
| `SchemaAcceptance.ConstantKeptIff` | sdk/python/scripts/update_sdk_artifacts.py:462-500 | a schema that fixes a constant keeps its meaning if and only if the constant holds nothing to be titled |
| `SchemaAssertions.AssertionsKeptIffPlain` | sdk/python/scripts/update_sdk_artifacts.py:462-500 | for every bundle the condition above holds if and only if the walk leaves each assertion, anywhere in the bundle's schema and its definitions, exactly as it was |
| `SchemaExact.Distinguished` | sdk/python/scripts/update_sdk_artifacts.py:462-500 | a schema built from assertions, references, properties, additional properties and single items that lost an assertion rejects an instance its successor accepts, under some meaning of assertions |
| `SchemaExact.MeaningKeptIff` | sdk/python/scripts/update_sdk_artifacts.py:462-500 | a bundle of such schemas and each of its definitions accept the same instances under every meaning of assertions if and only if no assertion carries data the walk would title |
| `SchemaAcceptance.ConstantsCanChange` | sdk/python/scripts/update_sdk_artifacts.py:462-500 | a dictionary given as a constant can itself receive a title, and then the schema rejects what it accepted |
| `EventQueue.EveryRun` | sofia-rs/analytics/src/client.rs:158-277 | after every interleaving: accepted messages are processed, in-flight and queued ones in order; slots filled and held never exceed 256; the worker has done exactly a sequential replay; a flush is answered exactly when processed |
| `EventQueue.FlushBarrier` | sofia-rs/analytics/src/client.rs:256-277 | once a flush call has seen its answer, everything accepted before its message entered the queue is ingested, its events handed on and their requests made |
| `EventQueue.AttemptsAccounted` | sofia-rs/analytics/src/client.rs:186-195 | every fact offered is accepted or dropped, with multiplicity |
| `EventQueue.DroppedIffFull` | sofia-rs/analytics/src/client.rs:186-195 | in every reachable state a fact is dropped exactly when all slots are filled or held |
| `EventQueue.WorkerLoop` | sofia-rs/analytics/src/client.rs:161-178 | the worker's loop computes the replay that the invariant speaks of |
| `EventQueue.RequestsCarryAllowed` | sofia-rs/analytics/src/client.rs:832-856 | the requests carry exactly the events that the authentication found for each message lets through, in order |
| `EventQueue.EverythingDelivered` | sofia-rs/analytics/src/client.rs:158-184 | in every run, under any logins, the requests made and those still due for the message in hand carry exactly those events |
| `EventQueue.BackendCarriesAll` | sofia-rs/analytics/src/client.rs:832-856 | with a backend login whenever a message gives out events, that is every event handed on |
| `EventBatches.TrackEventRequestBatches` | sofia-rs/analytics/src/client.rs:858-879 | the loop yields a batching: all events in order, marked events alone and only they, no empty request, no plain run split |
| `EventBatches.BatchingUnique` | sofia-rs/analytics/src/client.rs:858-879 | there is only one such batching, so the promise determines the result |
| `EventBatches.Batches` | sofia-rs/analytics/src/client.rs:858-879 | a recursive definition of the same batching |
| `EventBatches.FilterMeans` | sofia-rs/analytics/src/client.rs:832-856 | filtering keeps exactly the events to keep, each as often as it occurs, in order |
| `EventBatches.AllowedMeans` | sofia-rs/analytics/src/client.rs:832-856 | a backend login lets every event through, an API key those meant for it, anything else none |
| `EventBatches.SendTrackEvents` | sofia-rs/analytics/src/client.rs:832-856 | the posted requests are the batching of exactly the events the authentication allows |
| `EventDedupe.EmittedKeys.ShouldEnqueueAppUsed` | sofia-rs/analytics/src/client.rs:197-213 | the answer and the new set, with the early return for a missing id |
| `EventDedupe.EmittedKeys.ShouldEnqueuePluginUsed` | sofia-rs/analytics/src/client.rs:215-236 | the answer and the new set, where the reset comes before the id is looked at |
| `EventDedupe.SameKeyIff` | sofia-rs/analytics/src/client.rs:197-236 | two calls have the same key exactly when turn and id agree, where a plugin's own id comes before the other, and a call has no key exactly when it has no id |
| `EventDedupe.NeverOverfull` | sofia-rs/analytics/src/client.rs:84-236 | in every run the set holds at most 4096 keys |
| `EventDedupe.EpochKeys` | sofia-rs/analytics/src/client.rs:197-236 | between resets the set is exactly the keys admitted since, each admitted once |
| `EventDedupe.EpochIsFull` | sofia-rs/analytics/src/client.rs:197-236 | exactly 4096 distinct keys are admitted from the start to the first reset and between consecutive resets |
| `EventDedupe.AdmittedIffNew` | sofia-rs/analytics/src/client.rs:197-236 | a call with a key is let through if and only if it resets or its key is new since the last reset |
| `EventDedupe.ReadmittedAfterReset` | sofia-rs/analytics/src/client.rs:197-236 | a key is admitted twice only if a reset lies between |
| `EventDedupe.AnonymousPluginResets` | sofia-rs/analytics/src/client.rs:215-236 | a plugin call without any id passes and empties a full set; an app call without one leaves it |
| `AcceptedLines.AcceptedLineCounts` | sofia-rs/analytics/src/accepted_lines.rs:27-61 | the loop returns the two counts of the specification |
| `AcceptedLines.CountsAddUp` | sofia-rs/analytics/src/accepted_lines.rs:27-61 | counts over concatenated diffs add up, up to an exactly stated correction that vanishes when the second starts with a file line |
| `AcceptedLines.FilesCounted` | sofia-rs/analytics/src/accepted_lines.rs:27-61 | on the lines of any structured diff exactly the added and deleted body lines are counted, also when they look like file headers |
| `AcceptedLines.DiffTextCounted` | sofia-rs/analytics/src/accepted_lines.rs:27-61 | the same for the diff written out as text and split into lines, with or without carriage returns |
| `AcceptedLines.LinesMean` | sofia-rs/analytics/src/accepted_lines.rs:27-61 | what the lines of a text are: a newline ends a line, which then loses a carriage return, and the text after the last newline stays as it is |
| `McpProtocol.ProtocolServer.HandleMessage` | scripts/mcp_conformance/server.py:306-348 | the plan and the connection's new flags for any message |
| `McpProtocol.ProtocolServer.HandleNotification` | scripts/mcp_conformance/server.py:350-362 | only an initialized notification after an initialize, in legacy mode, changes anything |
| `McpProtocol.ProtocolServer.HandleLegacy` | scripts/mcp_conformance/server.py:487-572 | the plan and flags for a legacy request |
| `McpProtocol.InitializeSucceeds` | scripts/mcp_conformance/server.py:494-518 | an initialize request succeeds exactly when it names a protocol version, whatever came before |
| `McpProtocol.FlagsMean` | scripts/mcp_conformance/server.py:306-572 | after any messages the two flags say exactly whether an initialize succeeded, and whether an initialized notification followed it |
| `McpProtocol.LegacyLifecycle` | scripts/mcp_conformance/server.py:487-572 | a result to any request other than initialize implies a completed handshake; after one, ping and logging always succeed and the others reach their handler |
| `McpProtocol.ModernIndependence` | scripts/mcp_conformance/server.py:364-485 | in modern mode the plan does not depend on the connection and leaves it as it was |
| `McpMethods.ClassifyMeans` | scripts/mcp_conformance/server.py:306-348 | a message is a request or a notification exactly when it is an object of version 2.0 with a text method and object parameters, with or without an id; repeated members count by their last |
| `McpMethods.MalformedMeans` | scripts/mcp_conformance/server.py:306-348 | the answer, code and status for every other message |
| `McpMethods.CommonMeans` | scripts/mcp_conformance/server.py:364-572 | which handler or fixed result each method shared by the modes reaches; any other method is refused |
| `McpMethods.ModernAnswers` | scripts/mcp_conformance/server.py:364-485 | every modern request in full: initialize, missing metadata, unsupported versions and the listed methods, each with its handler or its refusal's code and status |
| `McpMethods.ModernReachedIff` | scripts/mcp_conformance/server.py:364-485 | a modern request gets past the protocol if and only if it declares the modern version with its metadata and names a known method, on a connection in any state |
| `McpMethods.LegacyAnswers` | scripts/mcp_conformance/server.py:487-572 | every legacy request in full, with the handler or the refusal's code and status, on a connection in any state |
| `McpMethods.LegacyReachedIff` | scripts/mcp_conformance/server.py:487-572 | after any history a legacy request other than initialize gets past the protocol if and only if the handshake is complete and its method is known |
| `McpMethods.FindMeans` | scripts/mcp_conformance/server.py:306-572 | a member lookup finds the last member of the name, and fails exactly when there is none |
| `McpProtocol.RunStdio` | scripts/mcp_conformance/server.py:1641-1671 | the stdio loop writes, for each line, its notifications and response, or a parse error, from the flags its earlier messages left |
| `McpProtocol.ModernTranscript` | scripts/mcp_conformance/server.py:1641-1671 | a modern server answers a stream of lines piece by piece: what came before never matters |
| `McpHttp.FixtureHttpServer.DoDelete` | scripts/mcp_conformance/server.py:1412-1431 | which status, and that exactly the named session is forgotten |
| `McpHttp.FixtureHttpServer.LegacyState` | scripts/mcp_conformance/server.py:1542-1568 | a fresh connection for initialize and discovery, the session's own for a known id, none otherwise |
| `McpHttp.FixtureHttpServer.ServeLegacy` | scripts/mcp_conformance/server.py:1504-1540 | a legacy message changes the connection it is routed to and no other session |
| `McpHttp.FixtureHttpServer.DoPost` | scripts/mcp_conformance/server.py:1433-1540 | connection objects shared through the session table behave as independent values, one per session |
| `McpFront.FrontMeans` | scripts/mcp_conformance/server.py:1433-1487 | a POST gets past the front exactly when it meets all six checks; otherwise it is refused with the status and code of the first it fails |
| `McpFront.RefusedPost` | scripts/mcp_conformance/server.py:1433-1487 | and then touches no session |
| `McpFront.ModernPost` | scripts/mcp_conformance/server.py:1489-1540 | a modern POST is refused for its headers if it has an id and they do not match, and is otherwise answered on a connection of its own |
| `McpFront.LegacyPost` | scripts/mcp_conformance/server.py:1504-1568 | what a legacy POST does to the session table and which reply it gets, for initialize, discovery, a known session and any other |
| `McpHttp.UndisturbedIsAlone` | scripts/mcp_conformance/server.py:1433-1568 | in the threaded model a request handled before anything else happens does to the sessions, and answers, what it does alone |
| `McpHttp.EveryRun` | scripts/mcp_conformance/server.py:1412-1568 | after every interleaving of arrivals, handling and deletions: no two sessions share a connection, each connection's flags come from its own messages alone, and each response is what they determine |
| `McpHttp.HttpLifecycle` | scripts/mcp_conformance/server.py:306-572 | in every legacy run a result to a request other than initialize implies an earlier successful initialize and then an initialized notification on that very connection |
| `McpHttp.HttpModern` | scripts/mcp_conformance/server.py:1490-1509 | in every modern run each response is the one a server without history gives |
| `McpHttp.DeletedStaysDeleted` | scripts/mcp_conformance/server.py:1412-1431 | a deleted session stays unknown until its id is handed out again |
| `McpHttp.DeletedMeans` | scripts/mcp_conformance/server.py:1412-1431 | in the threaded model a deletion forgets the session it names and touches nothing else |
| `McpHttp.UnknownSessionRefused` | scripts/mcp_conformance/server.py:1555-1567 | a message under an unknown session is refused and touches no connection |
| `RoleLoader.DeclaredIsFileOverTable` | sofia-rs/agent-roles/src/loader.rs:147-164 | a declared role that names a file is the role of that file, completed from its table |
| `RoleLoader.OwnIsFirstCandidate` | sofia-rs/agent-roles/src/loader.rs:35-98 | a layer's own definition of a name is the first candidate of that name: readable declarations in name order, then readable undeclared files |
| `RoleLoader.FirstWinsMeans` | sofia-rs/agent-roles/src/loader.rs:59-71 | what the first candidate of a name is |
| `RoleLoader.DeclaredFilesMean` | sofia-rs/agent-roles/src/loader.rs:46-58 | the files discovery skips are exactly those that some readable declaration names, also one whose name is taken |
| `RoleLoader.DeclarationFails` | sofia-rs/agent-roles/src/loader.rs:147-173 | a declaration fails with its table's error or with that of the file the table names |
| `RoleLoader.MergeMeans` | sofia-rs/agent-roles/src/loader.rs:100-113 | merging a layer overlays its accepted definitions name by name, warns once for each of the others, and keeps every loaded role described |
| `RoleLoader.LoadedIsMerged` | sofia-rs/agent-roles/src/loader.rs:34-117 | the roles loaded are the overlay of all layers' own definitions |
| `RoleLoader.LoadedIffDescribed` | sofia-rs/agent-roles/src/loader.rs:34-117 | a role is loaded if and only if some layer's own definition gives it a description |
| `RoleLoader.FieldsFromHighest` | sofia-rs/agent-roles/src/loader.rs:34-173 | each field is the value from the highest layer that sets it, counting from the first described one |
| `RoleLoader.WarningsAccount` | sofia-rs/agent-roles/src/loader.rs:34-123 | warnings plus accepted definitions equal malformed tables plus definitions offered |
| `RoleWarnings.WarningsMean` | sofia-rs/agent-roles/src/loader.rs:34-123 | the warnings of a load, one by one and in order: for each layer its malformed table, each unreadable declaration's error, each name declared earlier, each unreadable file's error, each name found or declared earlier, and each role left without a description |
| `RoleWarnings.LayerWarned` | sofia-rs/agent-roles/src/loader.rs:35-98 | the same for one layer before it is merged |
| `RoleWarnings.FirstErrorEnds` | sofia-rs/agent-roles/src/loader.rs:125-145 | without layers the load ends with the error of the first declaration that cannot be read, lacks a description or repeats a name |
| `RoleWarnings.NoErrorLoads` | sofia-rs/agent-roles/src/loader.rs:125-145 | and succeeds if there is none |
| `RoleLoading.ReadDeclaredRoles` | sofia-rs/agent-roles/src/loader.rs:46-73 | the loop over declared roles fills the specified maps and pushes the specified warnings |
| `RoleLoading.DiscoverAgentRolesInDir` | sofia-rs/agent-roles/src/loader.rs:290-335 | the same for discovered files |
| `RoleLoading.AddDiscovered` | sofia-rs/agent-roles/src/loader.rs:75-98 | the same for adding them to the layer |
| `RoleLoading.MergeLayer` | sofia-rs/agent-roles/src/loader.rs:100-113 | the same for merging the layer |
| `RoleLoading.LoadAgentRoles` | sofia-rs/agent-roles/src/loader.rs:23-117 | the load returns the overlay of all layers with exactly the specified warnings, or the error of the first folder that cannot be listed with exactly the warnings up to there, or without layers the plain result, which is empty without an agents table |
| `RoleLoading.LoadWithoutLayers` | sofia-rs/agent-roles/src/loader.rs:125-145 | without layers the first thing wrong ends the load |
| `RoleLoading.AloneIffSound` | sofia-rs/agent-roles/src/loader.rs:125-145 | it succeeds if and only if every declaration reads, is described and has a name of its own, and then has all of them |
| `ReleaseVersion.MatchIff` | sdk/python/release_version.py:9-12 | the pattern matches exactly the rendered versions, each in one way |
| `ReleaseForms.NormalizeIff` | sdk/python/release_version.py:68-82 | a text is normalised to a result if and only if it spells, in one of the listed ways, a version whose normal text that is |
| `ReleaseForms.WrittenNormalizes` | sdk/python/release_version.py:68-82 | in particular every listed spelling of a version is accepted and gives its normal text |
| `ReleaseForms.BetAlphaTaken` | sdk/python/release_version.py:76-78 | a release followed by `-bet-alpha` and a number is accepted as that beta, because one substitution completes the next one's pattern |
| `ReleaseForms.TagSpelled` | sdk/python/release_version.py:45-66 | the tag of every accepted version: the prefix, the release, and its pre-release spelled out unless a post-release follows one that is no alpha |
| `ReleaseVersion.NormalizeIdempotent` | sdk/python/release_version.py:68-82 | normalising is idempotent on every accepted version |
| `ReleaseVersion.TagNormalizes` | sdk/python/release_version.py:45-82 | normalising the release tag of an accepted version gives back its normalised form |
| `ReleaseVersion.TagsDistinguish` | sdk/python/release_version.py:45-82 | versions get the same tag if and only if they normalise alike |
| `ReleaseVersion.RuntimeResolves` | sdk/python/release_version.py:35-42 | a runtime version is resolved exactly when it has the required form, is already normalised, and its tag leads back to it |
| `ReleaseForms.RuntimeIff` | sdk/python/release_version.py:35-42 | a runtime version is answered if and only if its text is three numbers, perhaps an alpha with a number, perhaps a post-release of that |
| `WrapperArgs.ParseWrapperArgs` | tools/argument-comment-lint/wrapper_common.py:53-102 | the loop splits at the first separator and raises the flags of the scan, also for dangling value flags and for value flags that swallow another flag |
| `WrapperArgs.ArgumentsSplit` | tools/argument-comment-lint/wrapper_common.py:53-102 | parsing loses no argument |
| `WrapperFlags.RaisedIff` | tools/argument-comment-lint/wrapper_common.py:53-102 | a flag is raised if and only if some argument raises it by itself or is the value an option before it waits for, where a waiting option swallows whatever follows |
| `WrapperFlags.TargetMeans` | tools/argument-comment-lint/wrapper_common.py:23-34 | which arguments select a target |
| `WrapperArgs.BuildFinalArgs` | tools/argument-comment-lint/wrapper_common.py:105-120 | the builder computes the specified list |
| `WrapperFlags.AllDefaults` | tools/argument-comment-lint/wrapper_common.py:105-120 | without arguments all defaults are filled in, in their order |
| `WrapperArgs.ArgumentsKept` | tools/argument-comment-lint/wrapper_common.py:105-120 | the user's own arguments survive in order on their own side of the separator |
| `WrapperArgs.BuiltParses` | tools/argument-comment-lint/wrapper_common.py:53-120 | parsing what was built gives what was there and exactly the defaults filled in |
| `WrapperArgs.RebuildIsStable` | tools/argument-comment-lint/wrapper_common.py:53-120 | parsing and rebuilding the built list returns it unchanged if and only if a manifest was named or the path is not `--` |
| `WrapperArgs.SeparatorGrows` | tools/argument-comment-lint/wrapper_common.py:105-120 | with the path `--` and no manifest named, every round makes the list longer |

## Left out

- Floating-point numbers and integers of 22 digits and more in `toTomlValue`; lone surrogates in strings, since a character here is a Unicode scalar value. Object members that are `undefined`, which the SDK skips.
- TOML that the printer never writes (literal strings, dates, floats, multi-line values, dotted keys): the reader covers the emitted grammar, and other text falls back to the raw string as in the program.
- `merge_toml_values` is a parameter of the override receiver; only tables at structured feature paths reach it.
- The UTF-8 encoding of event streams: the stream is a sequence of characters.
- Floating-point numbers in conformance reports; decimal digits are those of Unicode 16, while each Python release brings its own table; the scenario catalog and the required review cases are parameters of the gates. Report fields the validators never look at are not modelled.
- The human-readable report tables, writing report files, and running the cases that produce a report.
- Updating schema dictionaries in place and aliasing between them: the schema is a value, except in the variant list, which is an array written in place. The enum flattening and file handling around the normalisation are left out.
- References other than `#/definitions/<name>` and `#/$defs/<name>`, and the keyword `dependencies`: what they mean is left to the rules, a parameter.
- SchemaAcceptance.AnnotateKeepsMeaning: gives one direction only, because with alternatives, negations or conditions a changed assertion may sit where it cannot matter (next to an alternative that accepts everything, say); SchemaExact.MeaningKeptIff gives both directions for bundles without them.
- The contents of MCP results and the `data` member of errors: handlers are functions of the request, which is all the source passes them.
- HTTP header validation and the origin check are inputs of a POST; session ids are inputs because they are random. GET and health requests touch no state.
- McpHttp.EveryRun: a handler runs as one step once its request has been routed; it reads or sets each flag at most once, and the flags never fall.
- The analytics reducer, authentication lookup, HTTP posting and the capture file: the reducer is a pair of functions, the authentication found is an input of each step. The end of the worker when all senders are gone is left out.
- EventQueue.EveryRun: a waiting flush may be overtaken by a producer for a slot just freed, which the real channel does not allow; the runs covered are therefore a superset.
- The record types of analytics events and facts; whether an event is sent alone is a predicate parameter.
- The file system and TOML parsing under the role loader: a declaration, a role file and a folder listing are inputs that may be errors. Messages of warnings are kinds with a name or an error text.
- The environment handling and process spawning of the lint wrapper; `--help` and output of the release script.
- The README table of contents script, packaging, npm staging, release upload, samples, the agent graph store, agent identity and the app server daemon.
