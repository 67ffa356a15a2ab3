/**
 Two ways in which a successful run is not a clean build. A library that drops out of
 the graph for one run and comes back is skipped although a file it imports was
 recompiled meanwhile. And a run that fails after it has rewritten an artifact leaves
 the new one in place when the edit is undone.

 The library and the file it imports have the same configuration, so that they are
 compiled by one job; a third file has a configuration and a job of its own.
 */
module SolidityBuildStale {
  import opened JsStrings
  import opened SolidityBuild
  import opened SolidityAcceptance

  const LIBRARY: FilePath := [1]
  const IMPORTED: FilePath := [2]
  const OTHER: FilePath := [3]
  const CONTRACT: ContractName := [4]
  const OLD: Content := [5]
  const NEW: Content := [6]
  const TEXT: Content := [7]
  const GOOD: Content := [8]
  const BAD: Content := [9]
  const CONFIG := SolcConfig([1], [])
  const OTHER_CONFIG := SolcConfig([2], [])

  /** The library's one artifact is the content of the file it imports; the third file may not compile. */
  function Tools(): Toolchain {
    Toolchain(
      c => c,
      (p: FilePath, c: Content) => if p == LIBRARY then {IMPORTED} else {},
      (config: SolcConfig, src: Sources, p: FilePath) =>
        if p == LIBRARY && IMPORTED in src then map[CONTRACT := src[IMPORTED]] else map[],
      (config: SolcConfig, src: Sources) => OTHER in src ==> src[OTHER] != BAD)
  }

  function PairJob(imported: Content): Job {
    Job(CONFIG, map[LIBRARY := JobFile(TEXT, true), IMPORTED := JobFile(imported, true)])
  }

  function ImportedJob(imported: Content): Job {
    Job(CONFIG, map[IMPORTED := JobFile(imported, true)])
  }

  function OtherJob(other: Content): Job {
    Job(OTHER_CONFIG, map[OTHER := JobFile(other, true)])
  }

  const EVERYTHING: set<FilePath> := {LIBRARY, IMPORTED, OTHER}

  function ConfigOf(p: FilePath): SolcConfig {
    if p == OTHER then OTHER_CONFIG else CONFIG
  }

  /** A run over all files. */
  function All(imported: Content, other: Content): Run {
    Run(map[LIBRARY := TEXT, IMPORTED := imported, OTHER := other], EVERYTHING, ConfigOf,
        [PairJob(imported), OtherJob(other)], false)
  }

  /** A run whose graph does not contain the library. */
  function WithoutLibrary(imported: Content): Run {
    Run(map[IMPORTED := imported, OTHER := GOOD], EVERYTHING, ConfigOf,
        [ImportedJob(imported), OtherJob(GOOD)], false)
  }

  lemma ToolsAreTrusted()
    ensures Trusted(Tools()) && AcceptanceIsLocal(Tools())
  {
    var tc := Tools();
    forall config, t: Sources | AllEndorsed(tc, config, t) ensures tc.accepts(config, t) {
      if OTHER in t {
        assert Endorsed(tc, config, t, OTHER);
      }
    }
  }

  lemma PairJobIsValid(r: Run, c: Content)
    requires r.project.Keys >= {LIBRARY, IMPORTED} && r.project[LIBRARY] == TEXT && r.project[IMPORTED] == c
    requires r.configOf == ConfigOf
    ensures ValidJob(Tools(), r, PairJob(c))
  {
    assert SourcesOf(PairJob(c)) == map[LIBRARY := TEXT, IMPORTED := c];
  }

  lemma SingleJobIsValid(r: Run, p: FilePath, c: Content)
    requires p != LIBRARY && p in r.project && r.project[p] == c && r.configOf == ConfigOf
    ensures ValidJob(Tools(), r, Job(ConfigOf(p), map[p := JobFile(c, true)]))
  {
    assert SourcesOf(Job(ConfigOf(p), map[p := JobFile(c, true)])) == map[p := c];
  }

  lemma AllIsValid(c: Content, d: Content)
    ensures ValidRun(Tools(), All(c, d))
  {
    var r := All(c, d);
    PairJobIsValid(r, c);
    SingleJobIsValid(r, OTHER, d);
    assert Emits(r.jobs[0], LIBRARY) && Emits(r.jobs[0], IMPORTED) && Emits(r.jobs[1], OTHER);
  }

  lemma WithoutLibraryIsValid(c: Content)
    ensures ValidRun(Tools(), WithoutLibrary(c))
  {
    var r := WithoutLibrary(c);
    SingleJobIsValid(r, IMPORTED, c);
    SingleJobIsValid(r, OTHER, GOOD);
    assert Emits(r.jobs[0], IMPORTED) && Emits(r.jobs[1], OTHER);
  }

  lemma JobsMergeIntoThemselves(jobs: seq<Job>)
    ensures Merges(jobs, jobs)
  {}

  // -------------------------------------------------------------- states on the way

  function Entries(imported: Content): Cache {
    map[LIBRARY := CacheEntry(TEXT, CONFIG, {CONTRACT}), IMPORTED := CacheEntry(imported, CONFIG, {}),
        OTHER := CacheEntry(GOOD, OTHER_CONFIG, {})]
  }

  function OneArtifact(content: Content): Disk {
    map[ArtifactPath(LIBRARY, CONTRACT) := content]
  }

  lemma Recorded(c: Content, d: Content)
    ensures RecordedPaths(Entries(c)) == OneArtifact(d).Keys
  {}

  // ------------------------------------------------------------- what the jobs yield

  lemma PairJobEmits(c: Content)
    ensures EmittedArtifacts(Tools(), PairJob(c)) == OneArtifact(c)
    ensures EmittedEntries(Tools(), PairJob(c)) ==
      map[LIBRARY := CacheEntry(TEXT, CONFIG, {CONTRACT}), IMPORTED := CacheEntry(c, CONFIG, {})]
  {
    var tc, job := Tools(), PairJob(c);
    assert OutputOf(tc, job, LIBRARY) == map[CONTRACT := c] && OutputOf(tc, job, IMPORTED) == map[];
    assert OutputOf(tc, job, LIBRARY).Keys == {CONTRACT} && OutputOf(tc, job, IMPORTED).Keys == {};
    assert EmittedPaths(tc, job) == {ArtifactPath(LIBRARY, CONTRACT)};
  }

  lemma ImportedJobEmits(c: Content)
    ensures EmittedArtifacts(Tools(), ImportedJob(c)) == map[]
    ensures EmittedEntries(Tools(), ImportedJob(c)) == map[IMPORTED := CacheEntry(c, CONFIG, {})]
  {
    var tc, job := Tools(), ImportedJob(c);
    assert OutputOf(tc, job, IMPORTED) == map[] && OutputOf(tc, job, IMPORTED).Keys == {};
    assert EmittedPaths(tc, job) == {};
  }

  lemma OtherJobEmits(c: Content)
    ensures EmittedArtifacts(Tools(), OtherJob(c)) == map[]
    ensures EmittedEntries(Tools(), OtherJob(c)) == map[OTHER := CacheEntry(c, OTHER_CONFIG, {})]
  {
    var tc, job := Tools(), OtherJob(c);
    assert OutputOf(tc, job, OTHER) == map[] && OutputOf(tc, job, OTHER).Keys == {};
    assert EmittedPaths(tc, job) == {};
  }

  lemma OneJob(tc: Toolchain, disk: Disk, cache: Cache, j: Job)
    ensures WriteJobs(tc, disk, [j]) == disk + EmittedArtifacts(tc, j)
    ensures CacheJobs(tc, cache, [j]) == cache + EmittedEntries(tc, j)
    ensures AllAccepted(tc, [j]) <==> Accepted(tc, j)
    ensures AcceptedJobs(tc, [j]) == if Accepted(tc, j) then [j] else []
  {
    assert [j][1..] == [];
    assert [j][0] == j;
  }

  lemma TwoJobs(tc: Toolchain, disk: Disk, cache: Cache, j: Job, k: Job)
    requires Accepted(tc, j)
    ensures WriteJobs(tc, disk, [j, k]) == disk + EmittedArtifacts(tc, j) + EmittedArtifacts(tc, k)
    ensures CacheJobs(tc, cache, [j, k]) == cache + EmittedEntries(tc, j) + EmittedEntries(tc, k)
    ensures AllAccepted(tc, [j, k]) <==> Accepted(tc, k)
    ensures AcceptedJobs(tc, [j, k]) == if Accepted(tc, k) then [j, k] else [j]
  {
    OneJob(tc, disk + EmittedArtifacts(tc, j), cache + EmittedEntries(tc, j), k);
    assert [j, k][1..] == [k] && [j, k][0] == j && [j, k][1] == k;
  }

  lemma Verdicts(c: Content)
    ensures Accepted(Tools(), PairJob(c)) && Accepted(Tools(), ImportedJob(c))
    ensures Accepted(Tools(), OtherJob(GOOD)) && !Accepted(Tools(), OtherJob(BAD))
  {
    assert SourcesOf(OtherJob(BAD))[OTHER] == BAD && SourcesOf(OtherJob(GOOD))[OTHER] == GOOD;
  }

  lemma BothNeeded(tc: Toolchain, cache: Cache, j: Job, p: FilePath, k: Job, q: FilePath)
    requires p in j.files && HasFileChanged(tc, cache, p, j.files[p], j.config)
    requires q in k.files && HasFileChanged(tc, cache, q, k.files[q], k.config)
    ensures NeededJobs(tc, [j, k], cache, false) == [j, k]
  {
    assert [j, k][..1] == [j] && [j][..0] == [];
    assert NeededJobs(tc, [j], cache, false) == NeededJobs(tc, [], cache, false) + [j] == [j];
  }

  /** A run whose jobs compile and whose recorded artifacts are just what is on disk. */
  lemma Assemble(tc: Toolchain, s: State, r: Run, merged: seq<Job>, cache: Cache, disk: Disk)
    requires AllAccepted(tc, merged) && AcceptedJobs(tc, merged) == merged
    requires CacheAfter(tc, s, r, merged) == cache && WriteJobs(tc, s.disk, merged) == disk
    requires RecordedPaths(cache) == disk.Keys
    ensures Compile(tc, s, r, merged, {}) == Outcome(State(cache, disk), disk.Keys, Succeeded)
  {}

  /** A run of which a job does not compile. */
  lemma Fail(tc: Toolchain, s: State, r: Run, merged: seq<Job>, written: seq<Job>, disk: Disk)
    requires !AllAccepted(tc, merged) && AcceptedJobs(tc, merged) == written && WriteJobs(tc, s.disk, written) == disk
    ensures Compile(tc, s, r, merged, {}) == Outcome(State(s.cache, disk), {}, JobFailed)
  {}

  // -------------------------------------------------------------------- the runs

  lemma FirstRunYields()
    ensures WriteJobs(Tools(), map[], All(OLD, GOOD).jobs) == OneArtifact(OLD)
    ensures CacheJobs(Tools(), map[], All(OLD, GOOD).jobs) == Entries(OLD)
    ensures AllAccepted(Tools(), All(OLD, GOOD).jobs)
    ensures AcceptedJobs(Tools(), All(OLD, GOOD).jobs) == All(OLD, GOOD).jobs
  {
    Verdicts(OLD);
    TwoJobs(Tools(), map[], map[], PairJob(OLD), OtherJob(GOOD));
    PairJobEmits(OLD);
    OtherJobEmits(GOOD);
    EntriesOfAll(OLD);
    ArtifactsOfAll(OLD);
  }

  lemma EntriesOfAll(c: Content)
    ensures map[] + map[LIBRARY := CacheEntry(TEXT, CONFIG, {CONTRACT}), IMPORTED := CacheEntry(c, CONFIG, {})]
      + map[OTHER := CacheEntry(GOOD, OTHER_CONFIG, {})] == Entries(c)
  {}

  lemma ArtifactsOfAll(c: Content)
    ensures map[] + OneArtifact(c) + map[] == OneArtifact(c)
  {}

  /** The first run compiles everything. */
  lemma FirstRun()
    ensures JobsToDo(Tools(), State(map[], map[]), All(OLD, GOOD)) == All(OLD, GOOD).jobs
    ensures Compile(Tools(), State(map[], map[]), All(OLD, GOOD), All(OLD, GOOD).jobs, {})
         == Outcome(State(Entries(OLD), OneArtifact(OLD)), OneArtifact(OLD).Keys, Succeeded)
  {
    var tc, s, r := Tools(), State(map[], map[]), All(OLD, GOOD);
    assert CheckedCache(s, r) == map[];
    BothNeeded(tc, map[], PairJob(OLD), LIBRARY, OtherJob(GOOD), OTHER);
    FirstRunYields();
    Recorded(OLD, OLD);
    Assemble(tc, s, r, r.jobs, Entries(OLD), OneArtifact(OLD));
  }

  /** With everything cached at its present content a run does nothing, whatever the artifact holds. */
  lemma NothingToDo(c: Content, d: Content)
    ensures JobsToDo(Tools(), State(Entries(c), OneArtifact(d)), All(c, GOOD)) == []
    ensures Compile(Tools(), State(Entries(c), OneArtifact(d)), All(c, GOOD), [], {})
         == Outcome(State(Entries(c), OneArtifact(d)), OneArtifact(d).Keys, Succeeded)
  {
    var tc, s, r := Tools(), State(Entries(c), OneArtifact(d)), All(c, GOOD);
    assert CheckedCache(s, r) == Entries(c);
    assert !NeedsCompilation(tc, r.jobs[0], Entries(c)) && !NeedsCompilation(tc, r.jobs[1], Entries(c));
    NoneNeeded(tc, r.jobs, Entries(c));
    Recorded(c, d);
    Assemble(tc, s, r, [], Entries(c), OneArtifact(d));
  }

  lemma CleanArtifact(c: Content)
    ensures CleanBuild(Tools(), All(c, GOOD)).Keys == {ArtifactPath(LIBRARY, CONTRACT)}
    ensures CleanBuild(Tools(), All(c, GOOD))[ArtifactPath(LIBRARY, CONTRACT)] == c
  {}

  // ------------------------------------------------------- leaving the graph

  lemma OnlyImportedNeeded()
    ensures JobsToDo(Tools(), State(Entries(OLD), OneArtifact(OLD)), WithoutLibrary(NEW)) == [ImportedJob(NEW)]
    ensures CheckedCache(State(Entries(OLD), OneArtifact(OLD)), WithoutLibrary(NEW)) == Entries(OLD)
  {
    var tc, s, r := Tools(), State(Entries(OLD), OneArtifact(OLD)), WithoutLibrary(NEW);
    assert CheckedCache(s, r) == Entries(OLD);
    assert HasFileChanged(tc, Entries(OLD), IMPORTED, r.jobs[0].files[IMPORTED], CONFIG);
    assert !NeedsCompilation(tc, r.jobs[1], Entries(OLD));
    assert r.jobs[..1] == [r.jobs[0]] && [r.jobs[0]][..0] == [];
    assert NeededJobs(tc, r.jobs[..1], Entries(OLD), false) == NeededJobs(tc, [], Entries(OLD), false) + [r.jobs[0]];
    assert NeededJobs(tc, r.jobs, Entries(OLD), false) == NeededJobs(tc, r.jobs[..1], Entries(OLD), false) + [];
  }

  lemma Plus(disk: Disk)
    ensures disk + map[] == disk
  {}

  lemma ReplaceImported()
    ensures Entries(OLD) + map[IMPORTED := CacheEntry(NEW, CONFIG, {})] == Entries(NEW)
  {}

  /** The second run recompiles the changed import only: the library is not in its graph. */
  lemma RunWithoutLibrary()
    ensures Compile(Tools(), State(Entries(OLD), OneArtifact(OLD)), WithoutLibrary(NEW), [ImportedJob(NEW)], {})
         == Outcome(State(Entries(NEW), OneArtifact(OLD)), OneArtifact(OLD).Keys, Succeeded)
  {
    var tc, s, r := Tools(), State(Entries(OLD), OneArtifact(OLD)), WithoutLibrary(NEW);
    OnlyImportedNeeded();
    Verdicts(NEW);
    OneJob(tc, OneArtifact(OLD), Entries(OLD), ImportedJob(NEW));
    ImportedJobEmits(NEW);
    ReplaceImported();
    Plus(OneArtifact(OLD));
    Recorded(NEW, OLD);
    Assemble(tc, s, r, [ImportedJob(NEW)], Entries(NEW), OneArtifact(OLD));
  }

  lemma FirstRunRuns()
    ensures Runs(Tools(), State(map[], map[]), All(OLD, GOOD), All(OLD, GOOD).jobs)
  {
    AllIsValid(OLD, GOOD);
    FirstRun();
    JobsMergeIntoThemselves(All(OLD, GOOD).jobs);
  }

  lemma NothingToDoRuns(c: Content, d: Content)
    ensures Runs(Tools(), State(Entries(c), OneArtifact(d)), All(c, GOOD), [])
  {
    AllIsValid(c, GOOD);
    NothingToDo(c, d);
    JobsMergeIntoThemselves([]);
  }

  lemma RunWithoutLibraryRuns()
    ensures Runs(Tools(), State(Entries(OLD), OneArtifact(OLD)), WithoutLibrary(NEW), [ImportedJob(NEW)])
  {
    WithoutLibraryIsValid(NEW);
    OnlyImportedNeeded();
    JobsMergeIntoThemselves([ImportedJob(NEW)]);
  }

  lemma StaleIsNotClean(c: Content, d: Content)
    requires c != d
    ensures OneArtifact(d) != CleanBuild(Tools(), All(c, GOOD))
  {
    CleanArtifact(c);
  }

  /** Three successful runs of a trusted toolchain that do not end in a clean build. */
  lemma LeavingTheGraphLosesAnUpdate()
    ensures Trusted(Tools()) && AcceptanceIsLocal(Tools())
    ensures
      var s0 := State(map[], map[]);
      var first := Compile(Tools(), s0, All(OLD, GOOD), All(OLD, GOOD).jobs, {});
      var second := Compile(Tools(), first.state, WithoutLibrary(NEW), [ImportedJob(NEW)], {});
      var third := Compile(Tools(), second.state, All(NEW, GOOD), [], {});
      && Runs(Tools(), s0, All(OLD, GOOD), All(OLD, GOOD).jobs) && first.ending.Succeeded?
      && Runs(Tools(), first.state, WithoutLibrary(NEW), [ImportedJob(NEW)]) && second.ending.Succeeded?
      && Runs(Tools(), second.state, All(NEW, GOOD), []) && third.ending.Succeeded?
      && third.state.disk != CleanBuild(Tools(), All(NEW, GOOD))
  {
    ToolsAreTrusted();
    FirstRunRuns();
    FirstRun();
    RunWithoutLibraryRuns();
    RunWithoutLibrary();
    NothingToDoRuns(NEW, OLD);
    NothingToDo(NEW, OLD);
    StaleIsNotClean(NEW, OLD);
  }

  // ------------------------------------------------------------ failing and undoing

  lemma BothEditsNeeded()
    ensures JobsToDo(Tools(), State(Entries(OLD), OneArtifact(OLD)), All(NEW, BAD)) == All(NEW, BAD).jobs
  {
    assert CheckedCache(State(Entries(OLD), OneArtifact(OLD)), All(NEW, BAD)) == Entries(OLD);
    BothNeeded(Tools(), Entries(OLD), PairJob(NEW), IMPORTED, OtherJob(BAD), OTHER);
  }

  lemma OneCompiles()
    ensures !AllAccepted(Tools(), All(NEW, BAD).jobs) && AcceptedJobs(Tools(), All(NEW, BAD).jobs) == [PairJob(NEW)]
  {
    Verdicts(NEW);
    TwoJobs(Tools(), map[], map[], PairJob(NEW), OtherJob(BAD));
  }

  lemma Overwrite(c: Content, d: Content)
    ensures OneArtifact(c) + OneArtifact(d) == OneArtifact(d)
  {}

  lemma FailingWrites()
    ensures WriteJobs(Tools(), OneArtifact(OLD), [PairJob(NEW)]) == OneArtifact(NEW)
  {
    OneJob(Tools(), OneArtifact(OLD), map[], PairJob(NEW));
    PairJobEmits(NEW);
    Overwrite(OLD, NEW);
  }

  /** One job compiles and rewrites the artifact, the other does not. */
  lemma FailingRun()
    ensures Compile(Tools(), State(Entries(OLD), OneArtifact(OLD)), All(NEW, BAD), All(NEW, BAD).jobs, {})
         == Outcome(State(Entries(OLD), OneArtifact(NEW)), {}, JobFailed)
  {
    OneCompiles();
    FailingWrites();
    Fail(Tools(), State(Entries(OLD), OneArtifact(OLD)), All(NEW, BAD), All(NEW, BAD).jobs, [PairJob(NEW)], OneArtifact(NEW));
  }

  lemma FailingRunRuns()
    ensures Runs(Tools(), State(Entries(OLD), OneArtifact(OLD)), All(NEW, BAD), All(NEW, BAD).jobs)
  {
    AllIsValid(NEW, BAD);
    BothEditsNeeded();
    JobsMergeIntoThemselves(All(NEW, BAD).jobs);
  }

  /**
   After a successful run two edits are made, one of which does not compile. The run fails
   and leaves the other edit's artifact. When both edits are undone, the next run
   succeeds, does nothing, and that artifact stays.
   */
  lemma FailedRunThenUndoKeepsWrongArtifact()
    ensures Trusted(Tools()) && AcceptanceIsLocal(Tools())
    ensures
      var s0 := State(map[], map[]);
      var first := Compile(Tools(), s0, All(OLD, GOOD), All(OLD, GOOD).jobs, {});
      var second := Compile(Tools(), first.state, All(NEW, BAD), All(NEW, BAD).jobs, {});
      var third := Compile(Tools(), second.state, All(OLD, GOOD), [], {});
      && Runs(Tools(), s0, All(OLD, GOOD), All(OLD, GOOD).jobs) && first.ending.Succeeded?
      && Runs(Tools(), first.state, All(NEW, BAD), All(NEW, BAD).jobs) && second.ending.JobFailed?
      && Runs(Tools(), second.state, All(OLD, GOOD), []) && third.ending.Succeeded?
      && third.state.disk != CleanBuild(Tools(), All(OLD, GOOD))
  {
    ToolsAreTrusted();
    FirstRunRuns();
    FirstRun();
    FailingRunRuns();
    FailingRun();
    NothingToDoRuns(OLD, NEW);
    NothingToDo(OLD, NEW);
    StaleIsNotClean(OLD, NEW);
  }
}
