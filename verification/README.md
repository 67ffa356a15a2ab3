# Verified models of Hardhat's build and testing tools

A Dafny model of the parts of Hardhat whose correctness rests on an argument rather
than on a glance: the optimised edit distance, incremental compilation, the artifact
store and its caches, the listener machine of the ethers provider, fixture snapshots,
the graph walks of the lint rule and of `flatten`, and the small normal forms for hex
numbers, contract names and dependency versions. `dafny verify dfyconfig.toml` checks
everything.

Code that computes is modelled by functions; code that changes state step by step is
modelled by methods and classes with loops, each proved against a function or a
predicate, and the laws are then proved about that function or predicate.

| file | about |
|---|---|
| `Wrappers.dfy`, `Sequences.dfy`, `JsStrings.dfy` | missing values and errors; what filtering means; UTF-16 strings, `split` and `join` |
| `Levenshtein.dfy`, `FindDistance.dfy` | the textbook distance, and the fast form that refines it |
| `ContractNames.dfy`, `Suggestions.dfy` | fully qualified names, artifact paths, "did you mean" |
| `SolidityBuild.dfy`, `SolidityCompileTask.dfy` | one run of incremental compilation, as values and in place |
| `SolidityCoherence.dfy`, `SolidityHistory.dfy`, `SolidityAcceptance.dfy`, `SolidityBuildStale.dfy` | the invariant, whole histories of runs, whether they compile, and where they go wrong |
| `ArtifactStore.dfy`, `Artifacts.dfy` | the artifact store and its class |
| `BuildInfoJson.dfy`, `JsonReading.dfy` | the streaming JSON writer, and what a reader gets back from its text |
| `BlockEvents.dfy`, `TransactionEvents.dfy`, `EthersProvider.dfy` | the listener machines, split at each `await`, and the provider class |
| `Fixtures.dfy`, `FixtureLoader.dfy` | snapshots of a node, `loadFixture`, and the stateful loader |
| `ImportLint.dfy`, `Flatten.dfy` | the walk over import graphs, the deterministic topological order |
| `Vyper.dfy`, `VyperBuild.dfy`, `VyperBuildStale.dfy` | the Vyper cache, parser, invalidation and grouping; whole Vyper runs, and where they go wrong |
| `HexNumbers.dfy`, `DependencyVersions.dfy` | hex normal forms, merging of dependency maps |

## Findings

Places where the code does not do what its documentation, or a natural reading, says.
Each has a lemma with a concrete input, an exact condition, or both.

- `artifactExists` never answers false: a missing artifact makes it throw
  (`ArtifactStore.ArtifactExistsOrThrows`). The Vyper invalidation is documented as
  dropping the cache entry of a file whose artifact is missing, but it asks
  `artifactExists` and therefore fails instead (`Vyper.MissingArtifactIsAnError`).
- The Vyper skip decision compares the compiler version recorded for a file with the
  text of the file's pragma, so a file is skipped only if its pragma is literally that
  version (`Vyper.FateIsJustified`). It never looks at the configuration: when a version
  is removed, its files go on being skipped although a build from scratch fails
  (`VyperBuildStale.RemovedVersionGoesUnnoticed`); `VyperBuild.ScratchSucceedsIff` says
  exactly when. Nor does it look at imports: a file is skipped although a file it imports
  has changed (`VyperBuildStale.ChangedImportIsMissed`); `VyperBuild.FileIsCleanIff` says
  exactly when a file is left as a clean build leaves it.
- A Solidity file that leaves the dependency graph keeps its cache entry. If a file it
  imports is recompiled meanwhile, the update can be lost when the file comes back
  (`SolidityBuildStale.LeavingTheGraphLosesAnUpdate`). A failed run followed by an undo
  has the same effect (`SolidityBuildStale.FailedRunThenUndoKeepsWrongArtifact`).
  `SolidityHistory.LaterRunsAreCleanIff` is the exact condition for both.
- A block number request that is rejected leaves its listener registered without an
  interval (`BlockEvents.RejectedStartLeavesListenerUnserved`). `BlockEvents.IntervalIff`
  says exactly when there is one.
- A registration replaces the number of the block polled last, so listeners registered
  before are not told of the blocks in between (`BlockEvents.RegistrationSkipsBlocks`);
  `BlockEvents.StartLosesNumbers` says exactly which are lost, and
  `BlockEvents.EveryNumberComesUpOrIsLost` that no others are.
- Reverting a snapshot behind the back of `loadFixture` makes the next load fail
  (`Fixtures.UserRevertLosesSnapshot`); a fixture that loads itself is kept twice and the
  inner execution wins (`Fixtures.SelfNestedFixtureReturnsInner`).
  `Fixtures.LoadGivesLatestExecution` has the exact conditions for both.
- The lint rule resolves the imports of a nested module relative to the linted file, so
  slow imports can be missed (`ImportLint.NestedImportIsMissed`).
  `ImportLint.SameReportsIff` says exactly when that makes no difference to the reports.
- On an import cycle through the linted file its own slow imports are reported twice
  (`ImportLint.CycleReportsTwice`); `ImportLint.LintIsExact` counts all reports.
- `toRpcQuantity` gives no quantity for "0x" and for all-zero texts other than "0x0", nor
  for negative numbers (`HexNumbers.TextQuantity`, `HexNumbers.NumberQuantity`); padding
  to zero bytes does not reach its length (`HexNumbers.PaddedQuantity`).

## Model

| member | source | states |
|---|---|---|
| `FindDistance.FindDistance` | packages/hardhat-core/src/utils/contract-names.ts:69-170 | for all strings the optimised algorithm (swap, trimming, shortcut, interleaved vector, unrolled loop) returns the Levenshtein distance |
| `FindDistance.PickMinIsMinimum` | packages/hardhat-core/src/utils/contract-names.ts:70-84 | for all distances the branching `_min`, which never compares all three candidates, is their minimum |
| `FindDistance.TrimEnd` | packages/hardhat-core/src/utils/contract-names.ts:97-100 | dropping the common end keeps the distance and stops only at different last units or an empty string |
| `FindDistance.TrimStart` | packages/hardhat-core/src/utils/contract-names.ts:102-106 | skipping the common start keeps the distance and stops only at different first units or the end |
| `FindDistance.ShortcutIsExact` | packages/hardhat-core/src/utils/contract-names.ts:108-113 | on trimmed strings, when the shorter is empty or the longer has fewer than three units, the distance is the longer length |
| `FindDistance.FourColumns` | packages/hardhat-core/src/utils/contract-names.ts:138-157 | one pass of the unrolled loop turns the vector from column x of the table into column x + 4 |
| `FindDistance.OneColumn` | packages/hardhat-core/src/utils/contract-names.ts:159-167 | one pass of the remainder loop turns the vector from column x into column x + 1 |
| `FindDistance.Sweep` | packages/hardhat-core/src/utils/contract-names.ts:129-169 | filling the vector and sweeping all columns ends in the distance |
| `Levenshtein.DistanceIsLeastEdits` | packages/hardhat-core/src/utils/contract-names.ts:60-69 | the distance is at most k iff some script of at most k single-unit insertions, deletions and substitutions turns one string into the other |
| `Levenshtein.ZeroIffEqual` | packages/hardhat-core/src/utils/contract-names.ts:86-88 | distance zero iff the strings are equal |
| `Levenshtein.Symmetric` | packages/hardhat-core/src/utils/contract-names.ts:90-92 | swapping the arguments keeps the distance |
| `Levenshtein.Triangle` | packages/hardhat-core/src/utils/contract-names.ts:69-170 | the triangle inequality for all strings |
| `Levenshtein.Bounds` | packages/hardhat-core/src/utils/contract-names.ts:69-170 | the distance lies between the length difference and the longer length |
| `ContractNames.ParsePrinted` | packages/hardhat-core/src/utils/contract-names.ts:7-58 | parsing a printed name gives both parts back iff the contract name has no colon |
| `ContractNames.PrintParsed` | packages/hardhat-core/src/utils/contract-names.ts:17-58 | a name parses into two parts iff it is fully qualified; printing those gives it back, and parsed contract names never contain a colon |
| `ContractNames.PathRoundTrip` | packages/hardhat-core/src/internal/artifacts.ts:411-418 | from a normalised source name and a contract name to the artifact path and back |
| `ContractNames.NameRoundTrip` | packages/hardhat-core/src/internal/artifacts.ts:849-857 | from an artifact path to the fully qualified name and back |
| `Suggestions.GetSimilarContractNames` | packages/hardhat-core/src/internal/artifacts.ts:753-775 | the result is exactly the names at the least distance, as often and in the order they occur, if that is at most the threshold, and empty otherwise |
| `Suggestions.FilterDuplicates` | packages/hardhat-core/src/internal/artifacts.ts:720-745 | each repeated name is replaced by the fully qualified names of the files it stands for, group by group in order of first occurrence |
| `Suggestions.SuggestionsAre` | packages/hardhat-core/src/internal/artifacts.ts:706-745 | a string is shown iff it is a similar name that occurs once, or the fully qualified name of an artifact whose contract name occurs more than once |
| `Suggestions.KeysAreInOrder` | packages/hardhat-core/src/internal/artifacts.ts:724-728 | the groups are the names at their first occurrences, ascending, and no other |
| `Suggestions.ShownGroupByGroup` | packages/hardhat-core/src/internal/artifacts.ts:730-744 | of two shown strings the earlier one belongs to the same group or to an earlier one |
| `Suggestions.SuggestionsAreConservedAndDistinct` | packages/hardhat-core/src/internal/artifacts.ts:685-704 | for all artifact files and given names, telling repeated suggestions apart keeps their number and makes them pairwise distinct |
| `SolidityAcceptance.CachedBuildIsForcedBuild` | packages/hardhat-core/src/builtin-tasks/compile.ts:1285-1436 | after every history of runs, failed runs and disk changes in which no file that left the graph misses an update or stops compiling, a run succeeds iff a forced build from scratch does and no artifact of such a file is missing, and then leaves the same, beside exactly those artifacts, however jobs are merged; what compiles is taken to be local to a file and its imports |
| `SolidityAcceptance.CompilesIffForcedDoes` | packages/hardhat-core/src/builtin-tasks/compile.ts:326-376 | although a run leaves out the skipped jobs, its jobs compile iff those of a forced build do |
| `SolidityAcceptance.SanctionSurvivesIff` | packages/hardhat-core/src/builtin-tasks/compile.ts:1361-1386 | a run keeps the invariant that every cached closure compiles iff the files that left the graph still compile at the contents recorded next |
| `SolidityAcceptance.MergedArePurposeful` | packages/hardhat-core/src/internal/solidity/compilation-job.ts:103-134 | if every file of the created jobs is one that emits or is imported by one, so is every file of the merged jobs |
| `SolidityHistory.CachedBuildIsCleanBuild` | packages/hardhat-core/src/builtin-tasks/compile.ts:1285-1436 | the same without any assumption on what compiles, for runs whose forced build compiles: a run succeeds iff its own jobs compile and no artifact of a file that left the graph is missing |
| `SolidityHistory.AlwaysCoherent` | packages/hardhat-core/src/builtin-tasks/compile.ts:1322-1386 | in every such history each cached file's artifacts are the compiler output for its whole import closure at the recorded hashes; files may leave the graph and come back |
| `SolidityHistory.LaterRunsAreCleanIff` | packages/hardhat-core/src/builtin-tasks/compile.ts:1322-1386 | all successful runs that can follow a run are clean iff no file that left the graph misses an update or, if a job failed, what the other jobs wrote agrees with what the cache records |
| `SolidityHistory.CoherentIffEveryRunIsClean` | packages/hardhat-core/src/builtin-tasks/compile.ts:1322-1386 | when no recorded artifact is missing, the invariant holds iff every successful run from here is clean, so nothing weaker would do |
| `SolidityHistory.CompileIsClean` | packages/hardhat-core/src/builtin-tasks/compile.ts:1322-1436 | from a coherent state a run succeeds iff its jobs compile and no leftover artifact is missing, and leaves the clean build beside the leftovers |
| `SolidityCoherence.CoherenceSurvivesIff` | packages/hardhat-core/src/builtin-tasks/compile.ts:1361-1386 | a run whose jobs compile keeps the invariant iff no file that left the graph misses an update |
| `SolidityCoherence.FailureIsHarmlessIff` | packages/hardhat-core/src/builtin-tasks/compile.ts:419-475 | a run in which a job fails keeps the invariant iff what the others wrote agrees with what the cache records |
| `SolidityCoherence.UnchangedImportsSuffice` | packages/hardhat-core/src/builtin-tasks/compile.ts:1361-1386 | it is enough that nothing a file outside the graph may import is recorded anew |
| `SolidityBuild.CompileExactly` | packages/hardhat-core/src/builtin-tasks/compile.ts:1361-1436 | from any state, coherent or not: a successful run leaves the clean build iff every file is recompiled or already recorded and on disk as its clean output, and beside it exactly what is left over or was declared earlier; a failed job leaves the cache file alone; a missing artifact leaves every clean output written and recorded and nothing removed |
| `SolidityBuild.EndsAs` | packages/hardhat-core/src/builtin-tasks/compile.ts:1350-1436 | a run fails in its jobs iff one does not compile, and in the removal iff a leftover or an artifact declared earlier is missing |
| `SolidityBuild.NeededAreThoseThatNeedIt` | packages/hardhat-core/src/builtin-tasks/compile.ts:326-360 | without force the filter keeps exactly the jobs that need compilation, as often and in the order they occur |
| `SolidityBuild.RecompiledIff` | packages/hardhat-core/src/builtin-tasks/compile.ts:1480-1499 | a file is recompiled iff the run is forced or a job that emits it holds a file that is new, changed, misses an artifact or, if it emits, is configured differently |
| `SolidityBuild.RerunDoesNothing` | packages/hardhat-core/src/builtin-tasks/compile.ts:1322-1386 | after a successful run the same run without force has no job to do |
| `SolidityBuild.FailedRunWrites` | packages/hardhat-core/src/builtin-tasks/compile.ts:392-477 | when some job does not compile, the disk changes exactly at the files emitted by a job that does, which get their clean output |
| `SolidityBuild.AcceptedIff` | packages/hardhat-core/src/builtin-tasks/compile.ts:419-454 | the jobs that are written are exactly those that compile, before and after one that does not |
| `SolidityCoherence.SkippedIsFresh` | packages/hardhat-core/src/builtin-tasks/compile.ts:1480-1499 | each emitting file of a skipped job is cached and on disk exactly as a clean build leaves it, although the configuration of imports is not compared |
| `SolidityBuild.CreatedJobsSuffice` | packages/hardhat-core/src/internal/solidity/compilation-job.ts:142-207 | one job per file with its transitive dependencies, merged without losing work, is what a run needs |
| `SolidityBuild.MergedJobsAreValid` | packages/hardhat-core/src/internal/solidity/compilation-job.ts:103-134 | merging keeps jobs import-closed and at their files' configurations |
| `SolidityBuild.MergedJobsEmitTheSame` | packages/hardhat-core/src/internal/solidity/compilation-job.ts:57-72 | a file gets artifacts after merging iff it did before |
| `SolidityBuildStale.LeavingTheGraphLosesAnUpdate` | packages/hardhat-core/src/builtin-tasks/compile.ts:1322-1386 | three successful runs of a trusted toolchain that do not end in a clean build |
| `SolidityBuildStale.FailedRunThenUndoKeepsWrongArtifact` | packages/hardhat-core/src/builtin-tasks/compile.ts:392-477 | a successful run, a run in which one of two jobs fails, and, both edits undone, a successful run that does not end in a clean build |
| `SolidityCompileTask.CompileTask.CompileJobs` | packages/hardhat-core/src/builtin-tasks/compile.ts:392-477 | every job is tried, all that compile are written, and it succeeds iff all do |
| `SolidityCompileTask.Merge` | packages/hardhat-core/src/internal/solidity/compilation-job.ts:57-72 | the merged job contains both jobs, emitting where either does, and nothing else |
| `SolidityCompileTask.MergeJobs` | packages/hardhat-core/src/internal/solidity/compilation-job.ts:103-134 | merging neither drops nor invents work, leaves the jobs of every unmergeable configuration as they are, as often and in the order they were, and yields one job for each mergeable configuration |
| `SolidityCompileTask.CompileTask.RemoveNonExistingFiles` | packages/hardhat-core/src/builtin-tasks/utils/solidity-files-cache.ts:82-90 | exactly the entries of existing files remain |
| `SolidityCompileTask.CompileTask.InvalidateCacheMissingArtifacts` | packages/hardhat-core/src/builtin-tasks/compile.ts:1442-1475 | exactly the entries of graph files with a missing artifact are removed |
| `SolidityCompileTask.CompileTask.CheckJob` | packages/hardhat-core/src/builtin-tasks/compile.ts:1480-1499 | the early-exit loop answers whether some file of the job is new, changed, or (if it emits) configured differently |
| `SolidityCompileTask.CompileTask.FilterJobs` | packages/hardhat-core/src/builtin-tasks/compile.ts:326-360 | all jobs when forced, otherwise those the laws above describe |
| `SolidityCompileTask.CompileTask.EmitArtifacts` | packages/hardhat-core/src/builtin-tasks/compile.ts:807-874 | the disk gains exactly the outputs of the emitting files of the job |
| `SolidityCompileTask.CompileTask.UpdateCache` | packages/hardhat-core/src/builtin-tasks/compile.ts:1361-1377 | the nested loops record exactly the emitted files, later jobs winning |
| `SolidityCompileTask.CompileTask.RemoveObsoleteArtifacts` | packages/hardhat-core/src/builtin-tasks/compile.ts:1395-1400 | fails without deleting when a valid artifact is missing, otherwise keeps exactly the valid ones |
| `SolidityCompileTask.CompileTask.Run` | packages/hardhat-core/src/builtin-tasks/compile.ts:1285-1436 | the whole orchestration, in place, is the run the laws above are about; the cache file is written only if all jobs compiled |
| `ArtifactStore.CacheIsTransparent` | packages/hardhat-core/src/internal/artifacts.ts:90-203 | in every sequential history of operations the caching store answers exactly as one with its cache disabled |
| `ArtifactStore.StepIsTransparent` | packages/hardhat-core/src/internal/artifacts.ts:205-245 | every operation answers and changes the disk as without a cache, keeps the cache honest and never re-enables a disabled one |
| `ArtifactStore.LookupByName` | packages/hardhat-core/src/internal/artifacts.ts:494-510 | a bare name is found iff exactly one artifact file bears it, and that is the answer; it is not found iff none does and ambiguous iff several do |
| `ArtifactStore.LookupByFqn` | packages/hardhat-core/src/internal/artifacts.ts:606-639 | a fully qualified name is found iff the path formed from it is on disk in that casing; it is not found iff there is nothing in any casing, and otherwise the error is the casing |
| `ArtifactStore.LookupBuildInfo` | packages/hardhat-core/src/internal/artifacts.ts:90-114 | a contract has no build info iff it has no debug file, and otherwise the one its debug file names |
| `ArtifactStore.SavedIsFound` | packages/hardhat-core/src/internal/artifacts.ts:205-245 | a saved contract is found under its name with its text, and with the build info it was saved with; no other file changes |
| `ArtifactStore.SavedIsListed` | packages/hardhat-core/src/internal/artifacts.ts:140-203 | after a save the artifact is listed iff its name makes it neither a debug file nor a build info, and its debug file is listed iff it was just written or already there |
| `ArtifactStore.KindsAreDisjoint` | packages/hardhat-core/src/internal/artifacts.ts:140-203 | an artifact is neither a debug file nor a build info, its debug file is no build info, and every other `.json` file is one of these or begins like the build info directory |
| `ArtifactStore.AnswersAreRemembered` | packages/hardhat-core/src/internal/artifacts.ts:116-203 | while the cache is enabled, found paths, build infos and all three lists are remembered |
| `ArtifactStore.RemoveObsoleteIs` | packages/hardhat-core/src/internal/artifacts.ts:366-406 | what removal does does not depend on the caches: it fails with the disk untouched or removes obsolete artifacts and then build infos, and clears the cache |
| `ArtifactStore.RemovalIsExact` | packages/hardhat-core/src/internal/artifacts.ts:366-406 | exactly which of all files remain, unchanged: an artifact iff it is valid, a build info iff a debug file that stays references it, any other file iff it is not the debug file of a deleted artifact; a valid artifact keeps its debug file |
| `ArtifactStore.NothingDangles` | packages/hardhat-core/src/internal/artifacts.ts:439-467 | a remaining debug file still finds its build info if it did before |
| `ArtifactStore.OnlyValidArtifactsRemain` | packages/hardhat-core/src/internal/artifacts.ts:366-406 | the removal succeeds iff the file system knows the path of every valid artifact in its own casing, and then the artifacts left are exactly those |
| `ArtifactStore.DebugPathInjective` | packages/hardhat-core/src/internal/artifacts.ts:812-814 | different artifacts have different debug files |
| `ArtifactStore.ArtifactExistsOrThrows` | packages/hardhat-core/src/internal/artifacts.ts:80-83 | `artifactExists` is true or an error, never false |
| `Artifacts.Artifacts.ClearCache` | packages/hardhat-core/src/internal/artifacts.ts:420-427 | empties the caches, unless the cache is disabled |
| `Artifacts.Artifacts.DisableCache` | packages/hardhat-core/src/internal/artifacts.ts:432-434 | from here on there is no cache; disk and valid artifacts are unchanged |
| `Artifacts.Artifacts.GetArtifactPaths` | packages/hardhat-core/src/internal/artifacts.ts:140-163 | the cached list, or the list read from disk and then remembered |
| `Artifacts.Artifacts.GetDebugFilePaths` | packages/hardhat-core/src/internal/artifacts.ts:185-203 | the same for debug files |
| `Artifacts.Artifacts.GetBuildInfoPaths` | packages/hardhat-core/src/internal/artifacts.ts:165-183 | the same for build infos |
| `Artifacts.Artifacts.GetArtifactPath` | packages/hardhat-core/src/internal/artifacts.ts:494-510 | the remembered path, or the one found by name, remembered unless there was an error |
| `Artifacts.Artifacts.GetBuildInfo` | packages/hardhat-core/src/internal/artifacts.ts:90-114 | the build info its debug file names, by the remembered path if there is one |
| `Artifacts.Artifacts.SaveArtifactAndDebugFile` | packages/hardhat-core/src/internal/artifacts.ts:205-245 | writes the artifact, writes its debug file if there is a build info, leaves every other file alone, and clears the cache |
| `Artifacts.Artifacts.RemoveObsoleteArtifacts` | packages/hardhat-core/src/internal/artifacts.ts:366-406 | the in-place removal is the one the laws above are about |
| `BuildInfoJson.SaveBuildInfo` | packages/hardhat-core/src/internal/artifacts.ts:247-361 | the streamed pieces concatenate to the one-shot serialisation with `output` last and `sources`, `contracts` last in it, for any number of fields |
| `BuildInfoJson.WriteEntries` | packages/hardhat-core/src/internal/artifacts.ts:313-350 | an `isFirst` loop writes the members separated by commas |
| `BuildInfoJson.LongerThanBraces` | packages/hardhat-core/src/internal/artifacts.ts:280-310 | an object's text is longer than two units iff it has a member that is not undefined, so the comma is written exactly when needed |
| `JsonReading.SavedTextSays` | packages/hardhat-core/src/internal/artifacts.ts:247-361 | two build infos have the same text iff they are equal up to what `JSON.stringify` leaves out, so a saved file determines its build info |
| `JsonReading.SameTextIff` | packages/hardhat-core/src/internal/artifacts.ts:280-305 | two values have the same text iff they are equal once undefined fields are dropped and undefined items are null |
| `JsonReading.TextDetermines` | packages/hardhat-core/src/internal/artifacts.ts:280-305 | a value without gaps, and where it ends, can be read off any text that starts with it |
| `JsonReading.BuildInfoFields` | packages/hardhat-core/src/internal/artifacts.ts:512-527 | each part of a build info is found under its own name |
| `JsonReading.OutputFields` | packages/hardhat-core/src/internal/artifacts.ts:293-350 | sources and contracts are found under their names in the output, and every other field as it was |
| `BlockEvents.IntervalIff` | packages/hardhat-ethers/src/internal/hardhat-ethers-provider.ts:890-919 | under every interleaving there is at most one interval, and there is one iff some start has ended without rejection since the list of listeners was last empty |
| `BlockEvents.IntervalLaw` | packages/hardhat-ethers/src/internal/hardhat-ethers-provider.ts:890-919 | an interval implies a listener, and with no start pending and none rejected since the list was last empty a listener implies an interval |
| `BlockEvents.RejectedStartLeavesListenerUnserved` | packages/hardhat-ethers/src/internal/hardhat-ethers-provider.ts:890-912 | a rejected block number request leaves a listener without an interval |
| `BlockEvents.ExactlyOnceInOrder` | packages/hardhat-ethers/src/internal/hardhat-ethers-provider.ts:954-993 | between registrations each persistent listener receives every number that comes up once and in order, each once-listener the first one only, and is then removed; starts under way, resets and failed polls included |
| `BlockEvents.EveryNumberComesUpOrIsLost` | packages/hardhat-ethers/src/internal/hardhat-ethers-provider.ts:895-993 | if block numbers never go back, each number after the last polled one comes up or is lost to a start, and never both |
| `BlockEvents.EveryNumberComesUp` | packages/hardhat-ethers/src/internal/hardhat-ethers-provider.ts:954-993 | if none is lost, the numbers that come up are all those after the last polled one, ascending |
| `BlockEvents.StartLosesNumbers` | packages/hardhat-ethers/src/internal/hardhat-ethers-provider.ts:895-895 | a start that gets block number n calls nobody and loses exactly the numbers after the last polled one up to n, some iff n is larger |
| `BlockEvents.RegistrationSkipsBlocks` | packages/hardhat-ethers/src/internal/hardhat-ethers-provider.ts:895-895 | a listener registered at block 5 hears nothing of blocks 6 to 8 when another is registered at block 8 |
| `BlockEvents.RegistrationsAre` | packages/hardhat-ethers/src/internal/hardhat-ethers-provider.ts:1038-1065 | a registration comes last; a removal leaves the list without the first item of that listener, or unchanged if there is none, and without a listener empties it; the intervals go with the last listener, and nothing else changes |
| `BlockEvents.OffSilences` | packages/hardhat-ethers/src/internal/hardhat-ethers-provider.ts:1053-1059 | a listener that is registered once and then removed receives nothing more |
| `BlockEvents.ServedListenersHear` | packages/hardhat-ethers/src/internal/hardhat-ethers-provider.ts:954-993 | while there is an interval, a tick and its answer tell every listener each new number once and in order |
| `TransactionEvents.TransactionIntervalLaw` | packages/hardhat-ethers/src/internal/hardhat-ethers-provider.ts:820-888 | the same exact law for transaction hashes, where no start is ever lost, and no hash is ever kept with an empty list |
| `TransactionEvents.UndisturbedPollDelivers` | packages/hardhat-ethers/src/internal/hardhat-ethers-provider.ts:926-952 | a poll that nothing interferes with calls every listener of a mined transaction exactly once and nobody else, and then drops exactly the once-listeners of mined transactions |
| `TransactionEvents.TxRegistrationsAre` | packages/hardhat-ethers/src/internal/hardhat-ethers-provider.ts:820-859 | for every hash, what a registration, each removal and an emission leave of its listeners: one more at the end, one less from the first place, none, or the persistent ones; other hashes are unchanged |
| `EthersProvider.HardhatEthersProvider.OnBlock` | packages/hardhat-ethers/src/internal/hardhat-ethers-provider.ts:1038-1046 | registers the listener at the end of the list |
| `EthersProvider.HardhatEthersProvider.ClearBlockListeners` | packages/hardhat-ethers/src/internal/hardhat-ethers-provider.ts:1048-1065 | drops all listeners or the first with this identity, and the interval with the last one |
| `EthersProvider.HardhatEthersProvider.CallBlockListeners` | packages/hardhat-ethers/src/internal/hardhat-ethers-provider.ts:1020-1036 | calls everyone in order and then drops the once-listeners |
| `EthersProvider.HardhatEthersProvider.PollBlocks` | packages/hardhat-ethers/src/internal/hardhat-ethers-provider.ts:954-993 | the poll loop is the delivery the laws above are about |
| `EthersProvider.HardhatEthersProvider.FinishBlockPollingStart` | packages/hardhat-ethers/src/internal/hardhat-ethers-provider.ts:890-912 | sets an interval unless there is one or nobody listens any more |
| `EthersProvider.HardhatEthersProvider.OnTransactionHash` | packages/hardhat-ethers/src/internal/hardhat-ethers-provider.ts:820-829 | registers the listener under its hash as the law above describes |
| `EthersProvider.HardhatEthersProvider.ClearTransactionHashListeners` | packages/hardhat-ethers/src/internal/hardhat-ethers-provider.ts:831-859 | drops everything, a hash or one listener, with the hash's list and the interval once empty |
| `EthersProvider.HardhatEthersProvider.EmitTransactionHash` | packages/hardhat-ethers/src/internal/hardhat-ethers-provider.ts:995-1018 | calls the listeners of the hash in order, drops its once-listeners, and says whether there were any |
| `EthersProvider.HardhatEthersProvider.PollTransactionHashes` | packages/hardhat-ethers/src/internal/hardhat-ethers-provider.ts:926-952 | the nested loops of an undisturbed poll are the poll the law above is about |
| `Fixtures.LoadGivesLatestExecution` | packages/hardhat-network-helpers/src/loadFixture.ts:33-70 | after every run, user snapshots, reverts and self-loading fixtures included: an anonymous fixture is refused and nothing happens; a kept one is not executed, fails iff its snapshot is gone and otherwise gives one of its executions, the latest iff the fixture was not already kept when that one ended; any other load gives the execution it performs, or the error that escapes from it |
| `Fixtures.LoadingAgainExecutesNothing` | packages/hardhat-network-helpers/src/loadFixture.ts:33-70 | after any run and a load that succeeds, whatever is mutated and snapshotted in between, loading the fixture again executes nothing and gives the same data and chain, unless the fixture loaded itself |
| `Fixtures.OnlyDestroyedAreForgotten` | packages/hardhat-network-helpers/src/loadFixture.ts:42-55 | in runs without reverts by the user, loading a kept fixture forgets another iff that destroys its snapshot |
| `Fixtures.ExecutedIsKept` | packages/hardhat-network-helpers/src/loadFixture.ts:58-69 | an executed fixture is kept beside exactly what its execution left |
| `Fixtures.OnlySelfLoadingRepeats` | packages/hardhat-network-helpers/src/loadFixture.ts:58-69 | in runs where no fixture loads itself, the latest execution of each fixture ended while it was not kept, so loads give the latest one |
| `Fixtures.NoSnapshotIsLost` | packages/hardhat-network-helpers/src/loadFixture.ts:33-70 | without reverts by the user the kept snapshots are strictly ordered and all valid, and no load fails for an invalid snapshot |
| `Fixtures.UserRevertLosesSnapshot` | packages/hardhat-network-helpers/src/loadFixture.ts:42-55 | one revert by the user makes the next load fail |
| `Fixtures.SelfNestedFixtureReturnsInner` | packages/hardhat-network-helpers/src/loadFixture.ts:58-69 | a fixture that loads itself later returns the data of its inner execution, and goes on doing so when only that one is kept |
| `Fixtures.SearchIsExact` | packages/hardhat-core/src/internal/hardhat-network/provider/node.ts:1901-1914 | on ascending ids the search that gives up at the first larger id finds what is there |
| `Fixtures.RestoreIsFaithful` | packages/hardhat-network-helpers/src/helpers/takeSnapshot.ts:19-56 | restoring gives back the recorded chain and leaves no kept snapshot invalid that was valid and is still kept |
| `FixtureLoader.Loader.LoadFixture` | packages/hardhat-network-helpers/src/loadFixture.ts:33-70 | the stateful loader is the one the laws above are about |
| `FixtureLoader.Loader.RevertToSnapshot` | packages/hardhat-core/src/internal/hardhat-network/provider/node.ts:1059-1109 | reverts iff the id is found, and drops that snapshot and all later ones |
| `FixtureLoader.Loader.TakeSnapshot` | packages/hardhat-core/src/internal/hardhat-network/provider/node.ts:1031-1057 | ids are never reused |
| `FixtureLoader.Loader.RestoreSnapshot` | packages/hardhat-network-helpers/src/helpers/takeSnapshot.ts:19-56 | restores and filters the kept snapshots, or fails and changes nothing |
| `ImportLint.LintIsExact` | packages/eslint-plugin-slow-imports/lib/rules/no-top-level-external-import.js:55-104 | on every finite, possibly cyclic graph: the traversed set grows by exactly the modules reached while avoiding those already traversed, and an external import is reported once if it stands in the linted file and once if it stands in a module reached, so twice iff the linted file is reached itself, and no other import is reported |
| `ImportLint.CycleReportsTwice` | packages/eslint-plugin-slow-imports/lib/rules/no-top-level-external-import.js:91-104 | on a cycle through the linted file its external import is reported twice |
| `ImportLint.NestedImportIsMissed` | packages/eslint-plugin-slow-imports/lib/rules/no-top-level-external-import.js:83-83 | three files for which the rule misses a slow import that resolving from the importing file finds |
| `ImportLint.LintIsIdealIfAlike` | packages/eslint-plugin-slow-imports/lib/rules/no-top-level-external-import.js:82-90 | the rule does what resolving from the importing file would do if the imports of every module it reaches resolve alike from both files |
| `ImportLint.SameReportsIff` | packages/eslint-plugin-slow-imports/lib/rules/no-top-level-external-import.js:82-101 | every import is reported as often as resolving from the importing file would report it iff the modules with slow imports that are reached are those that should be |
| `ImportLint.SameModulesIff` | packages/eslint-plugin-slow-imports/lib/rules/no-top-level-external-import.js:82-90 | both traverse the same modules iff what the rule reaches is closed under the real imports and reached by them |
| `ImportLint.LintBlamesTheRightImport` | packages/eslint-plugin-slow-imports/lib/rules/no-top-level-external-import.js:91-104 | every report stands at an import of the linted file that is, or leads to, the reported one |
| `ImportLint.Rule.Visitor` | packages/eslint-plugin-slow-imports/lib/rules/no-top-level-external-import.js:55-102 | the recursive visitor that changes the global set is the walk the laws above are about |
| `ImportLint.Rule.DetectTopLevelExternalDependency` | packages/eslint-plugin-slow-imports/lib/rules/no-top-level-external-import.js:61-80 | visits all imports of one module in order |
| `ImportLint.Rule.LintFile` | packages/eslint-plugin-slow-imports/lib/rules/no-top-level-external-import.js:104-104 | visits all imports of the linted file, each as its own origin |
| `Flatten.SortedFilesIsCorrect` | packages/hardhat-core/src/builtin-tasks/flatten.ts:18-64 | there is an order iff the graph has no cycle, and then every file, with or without edges, is in it exactly once and after its dependencies |
| `Flatten.Deterministic` | packages/hardhat-core/src/builtin-tasks/flatten.ts:22-53 | the order does not depend on how entries or dependency sets are stored |
| `Flatten.GetSortedFiles` | packages/hardhat-core/src/builtin-tasks/flatten.ts:18-64 | the nested loops compute the order the laws above are about, or report the cycle |
| `Vyper.ParseIsTransparent` | packages/hardhat-vyper/src/parser.ts:15-70 | after any calls and honest cache changes `parse` returns what the text itself says, or the error for test directives |
| `Vyper.ParsingAgainReadsNothing` | packages/hardhat-vyper/src/parser.ts:15-35 | parsing the same file again gives the same answer and changes nothing, whatever a reader would say of the text |
| `Vyper.VyperParser.ParseFile` | packages/hardhat-vyper/src/parser.ts:15-70 | the two-level memo in place is the parser the law above is about |
| `Vyper.RecordedEntryIsHonest` | packages/hardhat-vyper/src/index.ts:328-335 | the entry recorded for a parsed file is one the parser may trust |
| `Vyper.InvalidateKeepsOnlyBacked` | packages/hardhat-vyper/src/index.ts:359-389 | what survives was there before, and every resolved file that survives has all its artifacts |
| `Vyper.InvalidateExactly` | packages/hardhat-vyper/src/index.ts:359-389 | an entry is dropped iff it belongs to a resolved file one of whose artifacts does not exist |
| `Vyper.MissingArtifactIsAnError` | packages/hardhat-vyper/src/index.ts:359-389 | with a lookup that never answers false, invalidation leaves the cache alone iff nothing is missing, and fails otherwise |
| `Vyper.StoreLookupNeverFalse` | packages/hardhat-core/src/internal/artifacts.ts:80-83 | the artifact store is such a lookup |
| `Vyper.InvalidateCacheMissingArtifacts` | packages/hardhat-vyper/src/index.ts:359-389 | the loop on the cache object is the invalidation the laws above are about |
| `Vyper.GroupFiles` | packages/hardhat-vyper/src/index.ts:252-282 | the loop places the files as the laws below describe |
| `Vyper.PlacedByFate` | packages/hardhat-vyper/src/index.ts:252-282 | each version group and the unmatched list hold exactly the files with that fate, in order |
| `Vyper.FatesKeepOrder` | packages/hardhat-vyper/src/index.ts:252-282 | the files of a fate are all those with it, as often and in the order they were resolved |
| `Vyper.ExactlyOneFate` | packages/hardhat-vyper/src/index.ts:252-282 | every file is in the list of its fate and in no other |
| `Vyper.FateIsJustified` | packages/hardhat-vyper/src/index.ts:242-282 | a skipped file has an entry with the same hash and all its artifacts; otherwise its entry differs, and it has the newest configured version its pragma allows, or is unmatched if there is none |
| `VyperBuild.FileIsCleanIff` | packages/hardhat-vyper/src/index.ts:242-337 | a successful run leaves a file as a clean build would iff it compiled it, or a version is picked for it that makes of the present sources what was made of the recorded ones |
| `VyperBuild.RunIsClean` | packages/hardhat-vyper/src/index.ts:242-337 | if the reported version identifies the compiler, a file whose imports are what they were when it was compiled and whose picked version reports exactly its pragma is left clean |
| `VyperBuild.SucceedsIff` | packages/hardhat-vyper/src/index.ts:242-298 | a run succeeds iff no artifact of a cached file is missing and no file is unmatched |
| `VyperBuild.FromScratchIff` | packages/hardhat-vyper/src/index.ts:255-298 | a run from scratch succeeds iff a version is picked for every file |
| `VyperBuild.ScratchSucceedsIff` | packages/hardhat-vyper/src/index.ts:255-298 | after a successful run, the same run from scratch succeeds iff every skipped file has a picked version |
| `VyperBuild.RunKeepsMade` | packages/hardhat-vyper/src/index.ts:300-346 | every successful run keeps each entry and its artifact the output of some compiler for some sources with the recorded hash |
| `VyperBuild.FileAfter` | packages/hardhat-vyper/src/index.ts:300-337 | a compiled file has a fresh entry and artifact, a skipped one is unchanged, and none is unmatched |
| `VyperBuild.OutsiderAfter` | packages/hardhat-vyper/src/cache.ts:72-78 | a file outside the run keeps its entry iff it still exists, and its artifacts |
| `VyperBuild.MadeIsHonest` | packages/hardhat-vyper/src/index.ts:328-335 | what runs have recorded the parser may trust |
| `VyperBuild.CompileGroups` | packages/hardhat-vyper/src/index.ts:300-337 | the nested loops on the cache object and the disk are the compilation the laws above are about |
| `VyperBuildStale.RemovedVersionGoesUnnoticed` | packages/hardhat-vyper/src/index.ts:255-282 | after the version of two files is removed from the configuration a run still succeeds, and a run from scratch fails |
| `VyperBuildStale.ChangedImportIsMissed` | packages/hardhat-vyper/src/index.ts:255-262 | with a local compiler, after a file is changed that another imports, a successful run leaves that other file as it was, which is not what a clean build leaves |
| `Vyper.VyperFilesCache.AddFile` | packages/hardhat-vyper/src/cache.ts:84-86 | sets this entry and no other |
| `Vyper.VyperFilesCache.RemoveNonExistingFiles` | packages/hardhat-vyper/src/cache.ts:72-78 | exactly the entries of existing files remain |
| `Vyper.VyperFilesCache.CheckFileChanged` | packages/hardhat-vyper/src/cache.ts:100-126 | true iff there is no entry, or another hash, or, if a version is given, another version |
| `HexNumbers.HexEqualComparesNumbers` | packages/hardhat-chai-matchers/src/internal/hexEqual.ts:1-29 | the matcher passes iff both are hex texts and denote the same number (different numbers if negated); it fails on everything else |
| `HexNumbers.CanonicalUnique` | packages/hardhat-chai-matchers/src/internal/hexEqual.ts:19-22 | a number has one lower-case form without leading zeros |
| `HexNumbers.TextQuantity` | packages/hardhat-network-helpers/src/utils.ts:49-78 | a hex text becomes a quantity of the same value iff it is "0x0" or has a non-zero digit, and otherwise `toBigInt` fails |
| `HexNumbers.TextNeedsPrefix` | packages/hardhat-network-helpers/src/utils.ts:58-66 | a text is an error iff it does not start with "0x" |
| `HexNumbers.HexObjectQuantity` | packages/hardhat-network-helpers/src/utils.ts:67-77 | an object with `toHexString` behaves as its text, with "0x" put before it if missing, so hex digits alone keep their value |
| `HexNumbers.NumberQuantity` | packages/hardhat-network-helpers/src/utils.ts:53-57 | an integer becomes a quantity of the same value iff it is not negative |
| `HexNumbers.RadixObjectQuantity` | packages/hardhat-network-helpers/src/utils.ts:67-77 | an object with `toString` behaves as the integer it stands for, negative ones included |
| `HexNumbers.QuantityIsShortest` | packages/hardhat-network-helpers/src/utils.ts:75-77 | no hex text of the same number is shorter than its quantity |
| `HexNumbers.PaddedQuantity` | packages/hardhat-network-helpers/src/utils.ts:135-147 | padding keeps the value, of all-zero texts too, and has the asked length iff the value fits and there is a byte to fill or nothing to pad |
| `HexNumbers.HexTextsCanBePadded` | packages/hardhat-network-helpers/src/utils.ts:75-77 | every hex text becomes a quantity, or "0x", of the same value |
| `HexNumbers.TwoDigitsPerByte` | packages/hardhat-network-helpers/src/utils.ts:141-143 | fitting into 2n digits is fitting into n bytes |
| `DependencyVersions.AddDependencies` | scripts/check-dependencies.js:82-109 | adds exactly the declarations of the section that no exception covers |
| `DependencyVersions.GetDependencyMap` | scripts/check-dependencies.js:111-120 | the map records exactly what the three sections of the package declare |
| `DependencyVersions.MergeDependencies` | scripts/check-dependencies.js:122-145 | the merged map records exactly what some of the maps record |
| `DependencyVersions.MergeIgnoresOrder` | scripts/check-dependencies.js:122-145 | the same maps in another order, or repeated, merge to the same map |
| `DependencyVersions.CheckVersions` | scripts/check-dependencies.js:187-203 | succeeds iff every dependency has exactly one spec |
| `DependencyVersions.OneSpecEachIffConsistent` | scripts/check-dependencies.js:185-203 | one spec each on the merged map iff no two declarations of a dependency differ |
| `DependencyVersions.CheckPeerDependencies` | scripts/check-dependencies.js:35-80 | succeeds iff a package with peer dependencies has dev dependencies and every peer is one of them with the same spec, apart from the exceptions |
| `DependencyVersions.ReadPackages` | scripts/check-dependencies.js:163-183 | the first loop checks the peers of every package but the skipped one and makes their maps |
| `DependencyVersions.ConsideredIff` | scripts/check-dependencies.js:163-176 | exactly the packages other than the skipped one are considered |
| `DependencyVersions.CheckDependencies` | scripts/check-dependencies.js:160-203 | the whole check succeeds iff, over all packages but the skipped one, no two declarations of a dependency differ and the peer dependencies match |

## Left out

- solc, content hashing, import resolution, `tsort`, array sorting, `semver.maxSatisfying`, `trueCasePath` and JSON string escaping are parameters with the contracts the code relies on: hashes are injective, the output for a file depends on its import closure only, and so on.
- File paths and source names: the compilation models take them to determine each other, and compare configurations by value where job merging compares them by identity.
- SolidityCompileTask.CompileTask.EmitArtifacts: build infos and debug files are modelled in the artifact store, not in the compile task.
- Vyper runs in which the compiler rejects a group.
- Concurrent readers during a save: the store is sequential, and lists of files are sets.
- Source names under `build-info`, names of JavaScript prototype members and integer-like contract names, whose order in an object differs.
- Listeners for event filters, and callbacks that throw or register listeners while a delivery is under way; the interval laws allow any registrations between deliveries.
- TransactionEvents.TransactionIntervalLaw: between the receipts of one poll anything may happen, so the machine lets a poll remove any listeners at its end; whom it calls is stated for polls that nothing interferes with, because a poll goes on calling the lists it had before they were cleared.
- `hardhat_reset`; a restorer is a record in the kept list rather than an object of its own.
- ImportLint.LintIsExact: modules that cannot be read or parsed have no imports; how a specifier is resolved from a file is a parameter.
- BuildInfoJson.SaveBuildInfo: entries of `sources` and `contracts` are not undefined, as in any output parsed from JSON.
- JsonReading.SavedTextSays: escaping works unit by unit and no escape begins another; unpaired surrogates, whose escape depends on their neighbours, are not covered.
- The refusal of solc versions before 0.4.11: one comparison ahead of all jobs.
- The regular expression for version pragmas, the messages of errors, and file output of the caches.
- `getFileWithoutImports` and the licence and pragma handling of `flatten`: line filters that nothing else depends on.
- The documentation site, network plumbing, compiler downloads, proxies for other libraries and the ledger plugin: effects with little logic.
