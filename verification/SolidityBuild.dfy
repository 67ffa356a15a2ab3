/**
 Incremental Solidity compilation as values: what one `compile` run does to the
 files cache and to the artifacts on disk, and why skipping cached jobs leaves
 exactly what a clean build would leave.

 A file is identified by its absolute path; its source name is determined by the
 path, so an artifact is identified by the file and the contract it comes from.
 */
module SolidityBuild {
  import opened JsStrings
  import opened Sequences

  type FilePath = JsString
  type Content = JsString
  type Hash = JsString
  type ContractName = JsString
  type Artifact = JsString

  datatype SolcConfig = SolcConfig(version: JsString, settings: JsString)

  datatype ArtifactPath = ArtifactPath(file: FilePath, contract: ContractName)

  /** What an entry of the Solidity files cache records of a compiled file. */
  datatype CacheEntry = CacheEntry(contentHash: Hash, config: SolcConfig, artifacts: set<ContractName>)

  type Cache = map<FilePath, CacheEntry>
  type Disk = map<ArtifactPath, Artifact>
  type Sources = map<FilePath, Content>

  datatype JobFile = JobFile(content: Content, emits: bool)
  datatype Job = Job(config: SolcConfig, files: map<FilePath, JobFile>)

  /** The parts of the build that are code we cannot see: hashing, import resolution and solc. */
  datatype Toolchain = Toolchain(
    hash: Content -> Hash,
    imports: (FilePath, Content) -> set<FilePath>,
    solc: (SolcConfig, Sources, FilePath) -> map<ContractName, Artifact>,
    accepts: (SolcConfig, Sources) -> bool  // solc reports no error on this input
  )

  /** One invocation of the compile task. */
  datatype Run = Run(
    project: Sources,                  // the dependency graph
    existing: set<FilePath>,           // the files that exist on the file system
    configOf: FilePath -> SolcConfig,  // the configuration each file is compiled with
    jobs: seq<Job>,                    // the created compilation jobs
    force: bool
  )

  datatype State = State(cache: Cache, disk: Disk)

  // ------------------------------------------------------ assumptions on tools

  ghost predicate ImportClosed(tc: Toolchain, s: Sources) {
    forall p :: p in s ==> tc.imports(p, s[p]) <= s.Keys
  }

  ghost predicate Within(s: Sources, t: Sources) {
    forall p :: p in s ==> p in t && s[p] == t[p]
  }

  /** Equal hashes mean equal contents. */
  ghost predicate HashInjective(tc: Toolchain) {
    forall x, y :: tc.hash(x) == tc.hash(y) ==> x == y
  }

  /** Adding files to an input that already holds all imports of a file does not change its output. */
  ghost predicate SolcIsLocal(tc: Toolchain) {
    forall config, s, t, p :: p in s && Within(s, t) && ImportClosed(tc, s) && ImportClosed(tc, t)
      ==> tc.solc(config, s, p) == tc.solc(config, t, p)
  }

  ghost predicate Trusted(tc: Toolchain) {
    HashInjective(tc) && SolcIsLocal(tc)
  }

  // --------------------------------------------------------------- jobs of a run

  function SourcesOf(job: Job): Sources {
    map p | p in job.files :: job.files[p].content
  }

  /** A job takes its files from the project, with all they import, and uses their configuration. */
  ghost predicate ValidJob(tc: Toolchain, r: Run, job: Job) {
    && Within(SourcesOf(job), r.project)
    && ImportClosed(tc, SourcesOf(job))
    && forall p :: p in job.files && job.files[p].emits ==> job.config == r.configOf(p)
  }

  ghost predicate ValidJobs(tc: Toolchain, r: Run, jobs: seq<Job>) {
    forall i :: 0 <= i < |jobs| ==> ValidJob(tc, r, jobs[i])
  }

  predicate Emits(job: Job, p: FilePath) {
    p in job.files && job.files[p].emits
  }

  ghost predicate EmittedBy(jobs: seq<Job>, p: FilePath) {
    exists i :: 0 <= i < |jobs| && Emits(jobs[i], p)
  }

  /** What job creation provides: valid jobs that together emit every file of the graph. */
  ghost predicate ValidRun(tc: Toolchain, r: Run) {
    && ImportClosed(tc, r.project)
    && r.project.Keys <= r.existing
    && ValidJobs(tc, r, r.jobs)
    && forall p :: p in r.project ==> EmittedBy(r.jobs, p)
  }

  // ------------------------------------------------------------- merging of jobs

  /** `j` was merged into `m`: same configuration, and nothing of `j` is lost. */
  ghost predicate PartOf(j: Job, m: Job) {
    && j.config == m.config
    && j.files.Keys <= m.files.Keys
    && forall p :: p in j.files && j.files[p].emits ==> m.files[p].emits
  }

  /** `m` contains `p` because some job that was merged into it does. */
  ghost predicate Explained(jobs: seq<Job>, m: Job, p: FilePath)
    requires p in m.files
  {
    exists i :: 0 <= i < |jobs| && PartOf(jobs[i], m) && p in jobs[i].files && jobs[i].files[p] == m.files[p]
  }

  ghost predicate Absorbed(j: Job, merged: seq<Job>) {
    exists i :: 0 <= i < |merged| && PartOf(j, merged[i])
  }

  ghost predicate JobExplained(jobs: seq<Job>, m: Job) {
    forall p :: p in m.files ==> Explained(jobs, m, p)
  }

  /** Merging neither drops nor invents work. */
  ghost predicate Merges(jobs: seq<Job>, merged: seq<Job>) {
    && (forall i :: 0 <= i < |merged| ==> JobExplained(jobs, merged[i]))
    && (forall i :: 0 <= i < |jobs| ==> Absorbed(jobs[i], merged))
  }

  lemma MergedJobIsValid(tc: Toolchain, r: Run, jobs: seq<Job>, merged: seq<Job>, k: nat)
    requires ValidJobs(tc, r, jobs) && Merges(jobs, merged) && k < |merged|
    ensures ValidJob(tc, r, merged[k])
  {
    var m := merged[k];
    assert JobExplained(jobs, m);
    forall p | p in m.files
      ensures p in r.project && m.files[p].content == r.project[p]
      ensures tc.imports(p, m.files[p].content) <= m.files.Keys
      ensures m.files[p].emits ==> m.config == r.configOf(p)
    {
      assert Explained(jobs, m, p);
      var i :| 0 <= i < |jobs| && PartOf(jobs[i], m) && p in jobs[i].files && jobs[i].files[p] == m.files[p];
      assert ValidJob(tc, r, jobs[i]);
      assert p in SourcesOf(jobs[i]);
    }
  }

  lemma MergedJobsAreValid(tc: Toolchain, r: Run, jobs: seq<Job>, merged: seq<Job>)
    requires ValidJobs(tc, r, jobs) && Merges(jobs, merged)
    ensures ValidJobs(tc, r, merged)
  {
    forall k | 0 <= k < |merged| ensures ValidJob(tc, r, merged[k]) {
      MergedJobIsValid(tc, r, jobs, merged, k);
    }
  }

  /** Merging keeps the set of files that get artifacts. */
  lemma MergedJobsEmitTheSame(jobs: seq<Job>, merged: seq<Job>, p: FilePath)
    requires Merges(jobs, merged)
    ensures EmittedBy(jobs, p) <==> EmittedBy(merged, p)
  {}

  /** `createCompilationJobFromFile`: the file emits artifacts, its transitive dependencies do not. */
  function CreateJob(r: Run, p: FilePath, dependencies: set<FilePath>): Job
    requires p in r.project && dependencies <= r.project.Keys
  {
    Job(r.configOf(p), map q | q in {p} + dependencies :: JobFile(r.project[q], q == p))
  }

  /** `files` lists a project, and `dependencies` gives each file all it imports, directly or not. */
  ghost predicate Graph(tc: Toolchain, project: Sources, files: seq<FilePath>, dependencies: FilePath -> set<FilePath>) {
    && (forall p :: p in project <==> p in files)
    && (forall p :: p in project ==> Transitive(tc, project, p, dependencies(p)))
  }

  ghost predicate Transitive(tc: Toolchain, project: Sources, p: FilePath, dependencies: set<FilePath>) {
    && {p} + dependencies <= project.Keys
    && forall q :: q in {p} + dependencies ==> tc.imports(q, project[q]) <= {p} + dependencies
  }

  function CreateJobs(r: Run, files: seq<FilePath>, dependencies: FilePath -> set<FilePath>): seq<Job>
    requires forall i :: 0 <= i < |files| ==> files[i] in r.project && dependencies(files[i]) <= r.project.Keys
  {
    seq(|files|, i requires 0 <= i < |files| => CreateJob(r, files[i], dependencies(files[i])))
  }

  lemma CreatedJobIsValid(tc: Toolchain, r: Run, p: FilePath, dependencies: set<FilePath>)
    requires Transitive(tc, r.project, p, dependencies)
    ensures ValidJob(tc, r, CreateJob(r, p, dependencies)) && Emits(CreateJob(r, p, dependencies), p)
  {
    assert SourcesOf(CreateJob(r, p, dependencies)).Keys == {p} + dependencies;
  }

  /** One job per file, merged in any way that keeps all work, is what a run needs. */
  lemma CreatedJobsSuffice(tc: Toolchain, r: Run, files: seq<FilePath>, dependencies: FilePath -> set<FilePath>)
    requires ImportClosed(tc, r.project) && r.project.Keys <= r.existing
    requires Graph(tc, r.project, files, dependencies)
    requires Merges(CreateJobs(r, files, dependencies), r.jobs)
    ensures ValidRun(tc, r)
  {
    var created := CreateJobs(r, files, dependencies);
    forall i | 0 <= i < |created| ensures ValidJob(tc, r, created[i]) {
      CreatedJobIsValid(tc, r, files[i], dependencies(files[i]));
    }
    MergedJobsAreValid(tc, r, created, r.jobs);
    forall p | p in r.project ensures EmittedBy(r.jobs, p) {
      var i :| 0 <= i < |files| && files[i] == p;
      CreatedJobIsValid(tc, r, p, dependencies(p));
      assert Emits(created[i], p);
      MergedJobsEmitTheSame(created, r.jobs, p);
    }
  }

  // ------------------------------------------------------------ steps of one run

  /** `removeNonExistingFiles` */
  function OnlyExisting(cache: Cache, existing: set<FilePath>): Cache {
    map p | p in cache && p in existing :: cache[p]
  }

  predicate AllOnDisk(disk: Disk, p: FilePath, artifacts: set<ContractName>) {
    forall c :: c in artifacts ==> ArtifactPath(p, c) in disk
  }

  /** `invalidateCacheMissingArtifacts` */
  function Invalidate(cache: Cache, disk: Disk, files: set<FilePath>): Cache {
    map p | p in cache && (p in files ==> AllOnDisk(disk, p, cache[p].artifacts)) :: cache[p]
  }

  /** `hasFileChanged`: the configuration is only compared for files that emit artifacts. */
  predicate HasFileChanged(tc: Toolchain, cache: Cache, p: FilePath, f: JobFile, config: SolcConfig) {
    || p !in cache
    || cache[p].contentHash != tc.hash(f.content)
    || (f.emits && cache[p].config != config)
  }

  /** `needsCompilation` */
  predicate NeedsCompilation(tc: Toolchain, job: Job, cache: Cache) {
    exists p :: p in job.files && HasFileChanged(tc, cache, p, job.files[p], job.config)
  }

  /** The filter subtask. */
  function NeededJobs(tc: Toolchain, jobs: seq<Job>, cache: Cache, force: bool): seq<Job> {
    if force then jobs
    else if jobs == [] then []
    else
      var init, last := jobs[..|jobs| - 1], jobs[|jobs| - 1];
      NeededJobs(tc, init, cache, force) + (if NeedsCompilation(tc, last, cache) then [last] else [])
  }

  function OutputOf(tc: Toolchain, job: Job, p: FilePath): map<ContractName, Artifact> {
    tc.solc(job.config, SourcesOf(job), p)
  }

  function EmittedPaths(tc: Toolchain, job: Job): set<ArtifactPath> {
    set p, c | p in job.files.Keys && job.files[p].emits && c in OutputOf(tc, job, p).Keys :: ArtifactPath(p, c)
  }

  /** The artifacts one job saves. */
  function EmittedArtifacts(tc: Toolchain, job: Job): Disk {
    map a | a in EmittedPaths(tc, job) :: OutputOf(tc, job, a.file)[a.contract]
  }

  /** The cache entries one job produces. */
  function EmittedEntries(tc: Toolchain, job: Job): Cache {
    map p | p in job.files && job.files[p].emits ::
      CacheEntry(tc.hash(job.files[p].content), job.config, OutputOf(tc, job, p).Keys)
  }

  function WriteJobs(tc: Toolchain, disk: Disk, jobs: seq<Job>): Disk
    decreases jobs
  {
    if jobs == [] then disk
    else WriteJobs(tc, disk + EmittedArtifacts(tc, jobs[0]), jobs[1..])
  }

  function CacheJobs(tc: Toolchain, cache: Cache, jobs: seq<Job>): Cache
    decreases jobs
  {
    if jobs == [] then cache
    else CacheJobs(tc, cache + EmittedEntries(tc, jobs[0]), jobs[1..])
  }

  /** The artifacts the entries of a cache declare valid. */
  function RecordedPaths(cache: Cache): set<ArtifactPath> {
    set p, c | p in cache.Keys && c in cache[p].artifacts :: ArtifactPath(p, c)
  }

  function KeepOnly(disk: Disk, valid: set<ArtifactPath>): Disk {
    map a | a in disk && a in valid :: disk[a]
  }

  /** The cache the filter looks at. */
  function CheckedCache(s: State, r: Run): Cache {
    Invalidate(OnlyExisting(s.cache, r.existing), s.disk, r.project.Keys)
  }

  function JobsToDo(tc: Toolchain, s: State, r: Run): seq<Job> {
    NeededJobs(tc, r.jobs, CheckedCache(s, r), r.force)
  }

  predicate Accepted(tc: Toolchain, job: Job) {
    tc.accepts(job.config, SourcesOf(job))
  }

  /** The jobs that compile: one that does not is no reason to stop the others. */
  function AcceptedJobs(tc: Toolchain, jobs: seq<Job>): seq<Job> {
    if jobs == [] then []
    else (if Accepted(tc, jobs[0]) then [jobs[0]] else []) + AcceptedJobs(tc, jobs[1..])
  }

  predicate AllAccepted(tc: Toolchain, jobs: seq<Job>) {
    forall i :: 0 <= i < |jobs| ==> Accepted(tc, jobs[i])
  }

  datatype Ending = Succeeded | JobFailed | ArtifactMissing

  /** What a run leaves behind: the cache file and the disk, and the artifacts declared valid in the process. */
  datatype Outcome = Outcome(state: State, valid: set<ArtifactPath>, ending: Ending)

  function CacheAfter(tc: Toolchain, s: State, r: Run, merged: seq<Job>): Cache {
    CacheJobs(tc, CheckedCache(s, r), merged)
  }

  /**
   One whole run, given how the needed jobs were merged and the artifacts already
   declared valid in this process. If a job does not compile, the others have been
   written but the cache file has not. It also fails when a valid artifact is missing
   on disk.
   */
  function Compile(tc: Toolchain, s: State, r: Run, merged: seq<Job>, declared: set<ArtifactPath>): Outcome {
    var disk := WriteJobs(tc, s.disk, AcceptedJobs(tc, merged));
    if !AllAccepted(tc, merged) then
      Outcome(State(s.cache, disk), declared, JobFailed)
    else
      var cache := CacheAfter(tc, s, r, merged);
      var valid := declared + RecordedPaths(cache);
      if valid <= disk.Keys then
        Outcome(State(cache, KeepOnly(disk, valid)), valid, Succeeded)
      else
        Outcome(State(cache, disk), valid, ArtifactMissing)
  }

  // ------------------------------------------------------------- the clean build

  function CleanOutput(tc: Toolchain, r: Run, p: FilePath): map<ContractName, Artifact> {
    tc.solc(r.configOf(p), r.project, p)
  }

  function CleanPaths(tc: Toolchain, r: Run): set<ArtifactPath> {
    set p, c | p in r.project.Keys && c in CleanOutput(tc, r, p).Keys :: ArtifactPath(p, c)
  }

  /** What compiling every file of the project from nothing leaves on disk. */
  function CleanBuild(tc: Toolchain, r: Run): Disk {
    map a | a in CleanPaths(tc, r) :: CleanOutput(tc, r, a.file)[a.contract]
  }

  // ------------------------------------------------------- what each step yields

  function Needing(tc: Toolchain, cache: Cache): Job -> bool {
    j => NeedsCompilation(tc, j, cache)
  }

  /** The filter keeps exactly the jobs that need compilation, as often and in the order they occur. */
  lemma NeededAreThoseThatNeedIt(tc: Toolchain, jobs: seq<Job>, cache: Cache)
    ensures Filters(jobs, Needing(tc, cache), NeededJobs(tc, jobs, cache, false))
  {
    NeededIsFilter(tc, jobs, cache);
    FilterFilters(jobs, Needing(tc, cache));
  }

  lemma {:induction false} NeededIsFilter(tc: Toolchain, jobs: seq<Job>, cache: Cache)
    ensures NeededJobs(tc, jobs, cache, false) == Filter(jobs, Needing(tc, cache))
  {
    if jobs != [] {
      NeededIsFilter(tc, jobs[..|jobs| - 1], cache);
    }
  }

  lemma NeededIff(tc: Toolchain, jobs: seq<Job>, cache: Cache, force: bool, j: Job)
    ensures j in NeededJobs(tc, jobs, cache, force) <==> j in jobs && (force || NeedsCompilation(tc, j, cache))
  {
    if !force {
      NeededAreThoseThatNeedIt(tc, jobs, cache);
      FiltersHas(jobs, Needing(tc, cache), NeededJobs(tc, jobs, cache, false), j);
    }
  }

  /** A job is skipped only if all its files are cached unchanged. */
  lemma NeededOrCached(tc: Toolchain, jobs: seq<Job>, cache: Cache, force: bool, i: nat)
    requires i < |jobs|
    ensures jobs[i] in NeededJobs(tc, jobs, cache, force) || !NeedsCompilation(tc, jobs[i], cache)
  {
    NeededIff(tc, jobs, cache, force, jobs[i]);
  }

  lemma NeededAreJobs(tc: Toolchain, jobs: seq<Job>, cache: Cache, force: bool, i: nat)
    requires i < |NeededJobs(tc, jobs, cache, force)|
    ensures NeededJobs(tc, jobs, cache, force)[i] in jobs
  {
    NeededIff(tc, jobs, cache, force, NeededJobs(tc, jobs, cache, force)[i]);
  }

  lemma NeededAreValid(tc: Toolchain, r: Run, cache: Cache)
    requires ValidJobs(tc, r, r.jobs)
    ensures ValidJobs(tc, r, NeededJobs(tc, r.jobs, cache, r.force))
  {
    var needed := NeededJobs(tc, r.jobs, cache, r.force);
    forall i | 0 <= i < |needed| ensures ValidJob(tc, r, needed[i]) {
      NeededAreJobs(tc, r.jobs, cache, r.force, i);
    }
  }

  /** In a valid job, locality makes the output of a file its clean output. */
  lemma EmittedIsClean(tc: Toolchain, r: Run, job: Job, p: FilePath)
    requires Trusted(tc) && ImportClosed(tc, r.project) && ValidJob(tc, r, job) && Emits(job, p)
    ensures OutputOf(tc, job, p) == CleanOutput(tc, r, p)
    ensures tc.hash(job.files[p].content) == tc.hash(r.project[p])
  {}

  /** The entry a compiled file gets. */
  ghost predicate FreshEntry(tc: Toolchain, r: Run, p: FilePath, e: CacheEntry)
    requires p in r.project
  {
    e == CacheEntry(tc.hash(r.project[p]), r.configOf(p), CleanOutput(tc, r, p).Keys)
  }

  ghost predicate FreshOnDisk(tc: Toolchain, r: Run, p: FilePath, disk: Disk) {
    forall c :: c in CleanOutput(tc, r, p) ==>
      ArtifactPath(p, c) in disk && disk[ArtifactPath(p, c)] == CleanOutput(tc, r, p)[c]
  }

  ghost predicate SameAt(d: Disk, d': Disk, a: ArtifactPath) {
    (a in d <==> a in d') && (a in d ==> d[a] == d'[a])
  }

  /** If `p` was emitted, its clean output was written over what was there; nothing else of it changed. */
  ghost predicate WrittenOver(tc: Toolchain, r: Run, before: Disk, after: Disk, p: FilePath, emitted: bool) {
    forall c ::
      if emitted && c in CleanOutput(tc, r, p)
      then ArtifactPath(p, c) in after && after[ArtifactPath(p, c)] == CleanOutput(tc, r, p)[c]
      else SameAt(before, after, ArtifactPath(p, c))
  }

  lemma WrittenByJob(tc: Toolchain, r: Run, job: Job, disk: Disk, p: FilePath)
    requires Trusted(tc) && ImportClosed(tc, r.project) && ValidJob(tc, r, job)
    ensures WrittenOver(tc, r, disk, disk + EmittedArtifacts(tc, job), p, Emits(job, p))
  {
    var after := disk + EmittedArtifacts(tc, job);
    if Emits(job, p) {
      EmittedIsClean(tc, r, job, p);
    }
    forall c
      ensures
        if Emits(job, p) && c in CleanOutput(tc, r, p)
        then ArtifactPath(p, c) in after && after[ArtifactPath(p, c)] == CleanOutput(tc, r, p)[c]
        else SameAt(disk, after, ArtifactPath(p, c))
    {
      assert ArtifactPath(p, c) in EmittedPaths(tc, job) <==> Emits(job, p) && c in OutputOf(tc, job, p);
    }
  }

  lemma {:induction false} WrittenDisk(tc: Toolchain, r: Run, disk: Disk, jobs: seq<Job>, p: FilePath)
    requires Trusted(tc) && ImportClosed(tc, r.project) && ValidJobs(tc, r, jobs)
    ensures WrittenOver(tc, r, disk, WriteJobs(tc, disk, jobs), p, EmittedBy(jobs, p))
    decreases jobs
  {
    if jobs != [] {
      var next := disk + EmittedArtifacts(tc, jobs[0]);
      assert ValidJob(tc, r, jobs[0]);
      assert forall i :: 0 <= i < |jobs[1..]| ==> jobs[1..][i] == jobs[i + 1];
      WrittenByJob(tc, r, jobs[0], disk, p);
      WrittenDisk(tc, r, next, jobs[1..], p);
      EmittedTail(jobs, p);
      WrittenTwice(tc, r, disk, next, WriteJobs(tc, disk, jobs), p, Emits(jobs[0], p), EmittedBy(jobs[1..], p));
    }
  }

  lemma WrittenTwice(tc: Toolchain, r: Run, a: Disk, b: Disk, c: Disk, p: FilePath, first: bool, second: bool)
    requires WrittenOver(tc, r, a, b, p, first) && WrittenOver(tc, r, b, c, p, second)
    ensures WrittenOver(tc, r, a, c, p, first || second)
  {}

  lemma EmittedTail(jobs: seq<Job>, p: FilePath)
    requires jobs != []
    ensures EmittedBy(jobs, p) <==> Emits(jobs[0], p) || EmittedBy(jobs[1..], p)
  {}

  lemma {:induction false} WrittenCache(tc: Toolchain, r: Run, cache: Cache, jobs: seq<Job>, p: FilePath)
    requires Trusted(tc) && ImportClosed(tc, r.project) && ValidJobs(tc, r, jobs)
    ensures EmittedBy(jobs, p) ==>
      p in r.project && p in CacheJobs(tc, cache, jobs) && FreshEntry(tc, r, p, CacheJobs(tc, cache, jobs)[p])
    ensures !EmittedBy(jobs, p) ==>
      (p in cache <==> p in CacheJobs(tc, cache, jobs)) && (p in cache ==> cache[p] == CacheJobs(tc, cache, jobs)[p])
    decreases jobs
  {
    if jobs != [] {
      var job, next := jobs[0], cache + EmittedEntries(tc, jobs[0]);
      assert ValidJob(tc, r, job);
      assert forall i :: 0 <= i < |jobs[1..]| ==> jobs[1..][i] == jobs[i + 1];
      WrittenCache(tc, r, next, jobs[1..], p);
      EmittedTail(jobs, p);
      if Emits(job, p) {
        EmittedIsClean(tc, r, job, p);
        assert p in SourcesOf(job);
      }
    }
  }

  lemma {:induction false} AcceptedAre(tc: Toolchain, jobs: seq<Job>)
    ensures forall i :: 0 <= i < |AcceptedJobs(tc, jobs)| ==> AcceptedJobs(tc, jobs)[i] in jobs
    ensures AllAccepted(tc, jobs) ==> AcceptedJobs(tc, jobs) == jobs
  {
    if jobs != [] {
      AcceptedAre(tc, jobs[1..]);
      if AllAccepted(tc, jobs) {
        assert forall i :: 0 <= i < |jobs[1..]| ==> jobs[1..][i] == jobs[i + 1];
      }
    }
  }

  /** Every job that compiles is among them, and no other. */
  lemma {:induction false} AcceptedIff(tc: Toolchain, jobs: seq<Job>, j: Job)
    ensures j in AcceptedJobs(tc, jobs) <==> j in jobs && Accepted(tc, j)
  {
    if jobs != [] {
      AcceptedIff(tc, jobs[1..], j);
      assert jobs == [jobs[0]] + jobs[1..];
    }
  }

  // ---------------------------------------------- one run, from whatever state

  /** Work a run may do: valid inputs, and the needed jobs merged in some way. */
  ghost predicate Runs(tc: Toolchain, s: State, r: Run, merged: seq<Job>) {
    ValidRun(tc, r) && Merges(JobsToDo(tc, s, r), merged)
  }

  lemma MergedAreValid(tc: Toolchain, s: State, r: Run, merged: seq<Job>)
    requires Runs(tc, s, r, merged)
    ensures ValidJobs(tc, r, merged) && ValidJobs(tc, r, AcceptedJobs(tc, merged))
  {
    NeededAreValid(tc, r, CheckedCache(s, r));
    MergedJobsAreValid(tc, r, JobsToDo(tc, s, r), merged);
    AcceptedAre(tc, merged);
  }

  ghost predicate Recompiled(tc: Toolchain, s: State, r: Run, p: FilePath) {
    EmittedBy(JobsToDo(tc, s, r), p)
  }

  /** The file is new, it or its configuration has changed, or one of its artifacts is missing. */
  ghost predicate OutOfDate(tc: Toolchain, s: State, job: Job, q: FilePath)
    requires q in job.files
  {
    || q !in s.cache
    || (exists c :: c in s.cache[q].artifacts && ArtifactPath(q, c) !in s.disk)
    || s.cache[q].contentHash != tc.hash(job.files[q].content)
    || (job.files[q].emits && s.cache[q].config != job.config)
  }

  ghost predicate HoldsOutOfDate(tc: Toolchain, s: State, job: Job) {
    exists q :: q in job.files && OutOfDate(tc, s, job, q)
  }

  ghost predicate Due(tc: Toolchain, s: State, r: Run, job: Job) {
    r.force || HoldsOutOfDate(tc, s, job)
  }

  lemma NeedsCompilationIff(tc: Toolchain, s: State, r: Run, job: Job)
    requires ValidRun(tc, r) && ValidJob(tc, r, job)
    ensures NeedsCompilation(tc, job, CheckedCache(s, r)) <==> HoldsOutOfDate(tc, s, job)
  {
    var checked := CheckedCache(s, r);
    forall q | q in job.files
      ensures HasFileChanged(tc, checked, q, job.files[q], job.config) <==> OutOfDate(tc, s, job, q)
    {
      assert q in SourcesOf(job) && q in r.project && q in r.existing;
      assert q in checked <==> q in s.cache && AllOnDisk(s.disk, q, s.cache[q].artifacts);
    }
  }

  /** Exactly what a run recompiles: with force everything, otherwise what shares a job with something out of date. */
  lemma RecompiledIff(tc: Toolchain, s: State, r: Run, p: FilePath)
    requires ValidRun(tc, r)
    ensures Recompiled(tc, s, r, p) <==> exists j :: j in r.jobs && Emits(j, p) && Due(tc, s, r, j)
  {
    if Recompiled(tc, s, r, p) {
      var needed := JobsToDo(tc, s, r);
      var n :| 0 <= n < |needed| && Emits(needed[n], p);
      ToDoIff(tc, s, r, needed[n]);
    }
    if j :| j in r.jobs && Emits(j, p) && Due(tc, s, r, j) {
      DueIsRecompiled(tc, s, r, j, p);
    }
  }

  lemma DueIsRecompiled(tc: Toolchain, s: State, r: Run, j: Job, p: FilePath)
    requires ValidRun(tc, r) && j in r.jobs && Emits(j, p) && Due(tc, s, r, j)
    ensures Recompiled(tc, s, r, p)
  {
    ToDoIff(tc, s, r, j);
    var needed := JobsToDo(tc, s, r);
    var n :| 0 <= n < |needed| && needed[n] == j;
    assert Emits(needed[n], p);
  }

  lemma ToDoIff(tc: Toolchain, s: State, r: Run, j: Job)
    requires ValidRun(tc, r)
    ensures j in JobsToDo(tc, s, r) <==> j in r.jobs && Due(tc, s, r, j)
  {
    NeededIff(tc, r.jobs, CheckedCache(s, r), r.force, j);
    if j in r.jobs {
      var i :| 0 <= i < |r.jobs| && r.jobs[i] == j;
      assert ValidJob(tc, r, r.jobs[i]);
      NeedsCompilationIff(tc, s, r, j);
    }
  }

  /** What the cache holds of a file that is skipped. */
  ghost predicate SkippedEntry(tc: Toolchain, s: State, r: Run, p: FilePath)
    requires p in r.project
  {
    && p in s.cache
    && s.cache[p].contentHash == tc.hash(r.project[p]) && s.cache[p].config == r.configOf(p)
    && AllOnDisk(s.disk, p, s.cache[p].artifacts)
  }

  /** What a run does to the cache entry and the artifacts of one file. */
  lemma FileAfter(tc: Toolchain, s: State, r: Run, merged: seq<Job>, p: FilePath)
    requires Trusted(tc) && Runs(tc, s, r, merged)
    ensures WrittenOver(tc, r, s.disk, WriteJobs(tc, s.disk, merged), p, Recompiled(tc, s, r, p))
    ensures
      var cache := CacheAfter(tc, s, r, merged);
      if Recompiled(tc, s, r, p) then p in r.project && p in cache && FreshEntry(tc, r, p, cache[p])
      else if p in r.project then SkippedEntry(tc, s, r, p) && p in cache && cache[p] == s.cache[p]
      else (p in cache <==> p in s.cache && p in r.existing) && (p in cache ==> cache[p] == s.cache[p])
  {
    MergedAreValid(tc, s, r, merged);
    MergedJobsEmitTheSame(JobsToDo(tc, s, r), merged, p);
    WrittenDisk(tc, r, s.disk, merged, p);
    WrittenCache(tc, r, CheckedCache(s, r), merged, p);
    if p in r.project && !Recompiled(tc, s, r, p) {
      SkippedIsCached(tc, s, r, p);
    }
  }

  lemma SkippedIsCached(tc: Toolchain, s: State, r: Run, p: FilePath)
    requires ValidRun(tc, r) && p in r.project && !Recompiled(tc, s, r, p)
    ensures p in CheckedCache(s, r) && SkippedEntry(tc, s, r, p)
  {
    assert EmittedBy(r.jobs, p);
    var i :| 0 <= i < |r.jobs| && Emits(r.jobs[i], p);
    NeededOrCached(tc, r.jobs, CheckedCache(s, r), r.force, i);
    assert ValidJob(tc, r, r.jobs[i]) && p in SourcesOf(r.jobs[i]);
    assert !HasFileChanged(tc, CheckedCache(s, r), p, r.jobs[i].files[p], r.jobs[i].config);
  }

  /** The artifacts recorded by cached files that still exist but have left the graph. */
  function Leftovers(s: State, r: Run): set<ArtifactPath> {
    set p, c | p in s.cache.Keys && p in r.existing && p !in r.project && c in s.cache[p].artifacts
      :: ArtifactPath(p, c)
  }

  function NamesAt(paths: set<ArtifactPath>, p: FilePath): set<ContractName> {
    set a | a in paths && a.file == p :: a.contract
  }

  /** The part of the disk that belongs to some files. */
  function At(disk: Disk, files: set<FilePath>): Disk {
    map a | a in disk && a.file in files :: disk[a]
  }

  /**
   When a run leaves the clean output of a file: it is recompiled and nothing else was
   declared for it, or what is recorded, declared and on disk already is its clean output.
   */
  ghost predicate LeftClean(tc: Toolchain, s: State, r: Run, declared: set<ArtifactPath>, p: FilePath) {
    if Recompiled(tc, s, r, p) then NamesAt(declared, p) <= CleanOutput(tc, r, p).Keys
    else
      && p in s.cache
      && NamesAt(declared, p) + s.cache[p].artifacts == CleanOutput(tc, r, p).Keys
      && FreshOnDisk(tc, r, p, s.disk)
  }

  lemma RecordedAt(tc: Toolchain, s: State, r: Run, merged: seq<Job>, a: ArtifactPath)
    requires Trusted(tc) && Runs(tc, s, r, merged)
    ensures
      var recorded := RecordedPaths(CacheAfter(tc, s, r, merged));
      if a.file !in r.project then a in recorded <==> a in Leftovers(s, r)
      else if Recompiled(tc, s, r, a.file) then a in recorded <==> a.contract in CleanOutput(tc, r, a.file)
      else a.file in s.cache && (a in recorded <==> a.contract in s.cache[a.file].artifacts)
  {
    FileAfter(tc, s, r, merged, a.file);
    assert a == ArtifactPath(a.file, a.contract);
  }

  /** A recorded artifact of the project is always on disk after the jobs. */
  lemma RecordedIsWritten(tc: Toolchain, s: State, r: Run, merged: seq<Job>, a: ArtifactPath)
    requires Trusted(tc) && Runs(tc, s, r, merged)
    requires a.file in r.project && a in RecordedPaths(CacheAfter(tc, s, r, merged))
    ensures a in WriteJobs(tc, s.disk, merged)
  {
    FileAfter(tc, s, r, merged, a.file);
    assert a == ArtifactPath(a.file, a.contract);
    if !Recompiled(tc, s, r, a.file) {
      assert SameAt(s.disk, WriteJobs(tc, s.disk, merged), a);
    }
  }

  /** A run that compiles fails exactly if a leftover or an artifact declared earlier is not on disk. */
  lemma EndsAs(tc: Toolchain, s: State, r: Run, merged: seq<Job>, declared: set<ArtifactPath>)
    requires Trusted(tc) && Runs(tc, s, r, merged)
    ensures Compile(tc, s, r, merged, declared).ending ==
      if !AllAccepted(tc, merged) then JobFailed
      else if declared + Leftovers(s, r) <= WriteJobs(tc, s.disk, merged).Keys then Succeeded
      else ArtifactMissing
  {
    AcceptedAre(tc, merged);
    var disk, recorded := WriteJobs(tc, s.disk, merged), RecordedPaths(CacheAfter(tc, s, r, merged));
    forall a | a in recorded && a.file in r.project ensures a in disk {
      RecordedIsWritten(tc, s, r, merged, a);
    }
    forall a: ArtifactPath | a.file !in r.project ensures a in recorded <==> a in Leftovers(s, r) {
      RecordedAt(tc, s, r, merged, a);
    }
  }

  /** After a successful run a path of a project file is on disk iff it is declared or recorded. */
  lemma KeptAt(tc: Toolchain, s: State, r: Run, merged: seq<Job>, declared: set<ArtifactPath>, a: ArtifactPath)
    requires Trusted(tc) && Runs(tc, s, r, merged) && Compile(tc, s, r, merged, declared).ending.Succeeded?
    ensures
      var disk := Compile(tc, s, r, merged, declared).state.disk;
      && (a in disk <==> a in declared || a in RecordedPaths(CacheAfter(tc, s, r, merged)))
      && (a in disk ==> a in WriteJobs(tc, s.disk, merged) && disk[a] == WriteJobs(tc, s.disk, merged)[a])
  {
    AcceptedAre(tc, merged);
  }

  /** A successful run leaves exactly the clean output of a file iff it is left clean. */
  lemma FileIsCleanIff(tc: Toolchain, s: State, r: Run, merged: seq<Job>, declared: set<ArtifactPath>, p: FilePath)
    requires Trusted(tc) && Runs(tc, s, r, merged) && Compile(tc, s, r, merged, declared).ending.Succeeded?
    requires p in r.project
    ensures LeftClean(tc, s, r, declared, p) <==>
      HoldsExactly(Compile(tc, s, r, merged, declared).state.disk, p, CleanOutput(tc, r, p))
  {
    FileAfter(tc, s, r, merged, p);
    var disk, output := Compile(tc, s, r, merged, declared).state.disk, CleanOutput(tc, r, p);
    var names := NamesAt(declared, p);
    if Recompiled(tc, s, r, p) {
      forall c
        ensures ArtifactPath(p, c) in disk <==> c in names || c in output
        ensures c in output ==> ArtifactPath(p, c) in disk && disk[ArtifactPath(p, c)] == output[c]
      {
        KeptAt(tc, s, r, merged, declared, ArtifactPath(p, c));
        RecordedAt(tc, s, r, merged, ArtifactPath(p, c));
      }
      ExactIfRecompiled(disk, p, names, output);
    } else {
      forall c ensures KeptName(s.disk, disk, names + s.cache[p].artifacts, p, c) {
        KeptAt(tc, s, r, merged, declared, ArtifactPath(p, c));
        RecordedAt(tc, s, r, merged, ArtifactPath(p, c));
      }
      ExactIfSkipped(tc, r, s.disk, disk, p, names + s.cache[p].artifacts);
    }
  }

  lemma ExactIfRecompiled(disk: Disk, p: FilePath, names: set<ContractName>, output: map<ContractName, Artifact>)
    requires forall c :: ArtifactPath(p, c) in disk <==> c in names || c in output
    requires forall c :: c in output ==> ArtifactPath(p, c) in disk && disk[ArtifactPath(p, c)] == output[c]
    ensures HoldsExactly(disk, p, output) <==> names <= output.Keys
  {
    if HoldsExactly(disk, p, output) {
      forall c | c in names ensures c in output {
        assert ArtifactPath(p, c) in disk;
      }
    }
  }

  /** Among the artifacts of `p` exactly those named are left, as they were. */
  ghost predicate KeptName(before: Disk, disk: Disk, names: set<ContractName>, p: FilePath, c: ContractName) {
    && (ArtifactPath(p, c) in disk <==> c in names)
    && (c in names ==> SameAt(before, disk, ArtifactPath(p, c)))
  }

  lemma ExactIfSkipped(tc: Toolchain, r: Run, before: Disk, disk: Disk, p: FilePath, names: set<ContractName>)
    requires forall c :: KeptName(before, disk, names, p, c)
    ensures HoldsExactly(disk, p, CleanOutput(tc, r, p)) <==>
      names == CleanOutput(tc, r, p).Keys && FreshOnDisk(tc, r, p, before)
  {
    var output := CleanOutput(tc, r, p);
    if HoldsExactly(disk, p, output) {
      forall c ensures c in names <==> c in output {
        assert KeptName(before, disk, names, p, c);
      }
      forall c | c in output ensures ArtifactPath(p, c) in before && before[ArtifactPath(p, c)] == output[c] {
        assert KeptName(before, disk, names, p, c);
      }
    }
    if names == output.Keys && FreshOnDisk(tc, r, p, before) {
      forall c
        ensures ArtifactPath(p, c) in disk <==> c in output
        ensures c in output ==> disk[ArtifactPath(p, c)] == output[c]
      {
        assert KeptName(before, disk, names, p, c);
      }
    }
  }

  /** The artifacts of `p` on disk are exactly `output`. */
  ghost predicate HoldsExactly(disk: Disk, p: FilePath, output: map<ContractName, Artifact>) {
    forall c :: (ArtifactPath(p, c) in disk <==> c in output) && (c in output ==> disk[ArtifactPath(p, c)] == output[c])
  }

  lemma CleanBuildIff(tc: Toolchain, r: Run, disk: Disk)
    ensures At(disk, r.project.Keys) == CleanBuild(tc, r) <==>
      forall p :: p in r.project ==> HoldsExactly(disk, p, CleanOutput(tc, r, p))
  {
    var at, clean := At(disk, r.project.Keys), CleanBuild(tc, r);
    if at == clean {
      forall p, c | p in r.project
        ensures ArtifactPath(p, c) in disk <==> c in CleanOutput(tc, r, p)
        ensures c in CleanOutput(tc, r, p) ==> disk[ArtifactPath(p, c)] == CleanOutput(tc, r, p)[c]
      {
        var a := ArtifactPath(p, c);
        assert a in at <==> a in disk;
        assert a in clean <==> c in CleanOutput(tc, r, p);
      }
    }
    if forall p :: p in r.project ==> HoldsExactly(disk, p, CleanOutput(tc, r, p)) {
      forall a: ArtifactPath
        ensures a in at <==> a in clean
        ensures a in at && a in clean ==> at[a] == clean[a]
      {
        assert a == ArtifactPath(a.file, a.contract);
        assert a.file in r.project ==> HoldsExactly(disk, a.file, CleanOutput(tc, r, a.file));
      }
    }
  }

  /** Exactly what a run with a failing job writes: the clean output of each file emitted by a job that compiles. */
  lemma FailedRunWrites(tc: Toolchain, s: State, r: Run, merged: seq<Job>, declared: set<ArtifactPath>, p: FilePath)
    requires Trusted(tc) && Runs(tc, s, r, merged) && !AllAccepted(tc, merged)
    ensures WrittenOver(tc, r, s.disk, Compile(tc, s, r, merged, declared).state.disk, p, SomeCompiles(tc, merged, p))
  {
    MergedAreValid(tc, s, r, merged);
    WrittenDisk(tc, r, s.disk, AcceptedJobs(tc, merged), p);
    AcceptedEmit(tc, merged, p);
  }

  /** One of the jobs that emit the file compiles. */
  ghost predicate SomeCompiles(tc: Toolchain, jobs: seq<Job>, p: FilePath) {
    exists i :: 0 <= i < |jobs| && Accepted(tc, jobs[i]) && Emits(jobs[i], p)
  }

  lemma AcceptedEmit(tc: Toolchain, jobs: seq<Job>, p: FilePath)
    ensures EmittedBy(AcceptedJobs(tc, jobs), p) <==> SomeCompiles(tc, jobs, p)
  {
    var written := AcceptedJobs(tc, jobs);
    if i :| 0 <= i < |jobs| && Accepted(tc, jobs[i]) && Emits(jobs[i], p) {
      AcceptedIff(tc, jobs, jobs[i]);
      var k :| 0 <= k < |written| && written[k] == jobs[i];
    }
    if k :| 0 <= k < |written| && Emits(written[k], p) {
      AcceptedIff(tc, jobs, written[k]);
    }
  }

  /** The cache is up to date and the clean outputs are written, but nothing has been removed. */
  ghost predicate LeftWritten(tc: Toolchain, s: State, r: Run, s': State, p: FilePath) {
    && WrittenOver(tc, r, s.disk, s'.disk, p, Recompiled(tc, s, r, p))
    && (Recompiled(tc, s, r, p) ==> p in r.project && p in s'.cache && FreshEntry(tc, r, p, s'.cache[p]))
  }

  /**
   Exactly what a run leaves, from any state, coherent or not. It ends as `EndsAs` says; a
   failed job leaves the cache file alone; a missing artifact leaves everything written and
   nothing removed; and a successful run leaves the clean build
   iff every file of the project is left clean, and beside it exactly the leftovers and
   what was declared, as they were.
   */
  lemma CompileExactly(tc: Toolchain, s: State, r: Run, merged: seq<Job>, declared: set<ArtifactPath>)
    requires Trusted(tc) && Runs(tc, s, r, merged)
    ensures
      var outcome := Compile(tc, s, r, merged, declared);
      && (outcome.ending.Succeeded? ==>
            (At(outcome.state.disk, r.project.Keys) == CleanBuild(tc, r) <==>
             forall p :: p in r.project ==> LeftClean(tc, s, r, declared, p)))
      && (outcome.ending.Succeeded? ==> forall a: ArtifactPath :: a.file !in r.project ==>
            && (a in outcome.state.disk <==> a in declared + Leftovers(s, r))
            && (a in outcome.state.disk ==> SameAt(s.disk, outcome.state.disk, a)))
      && (outcome.ending.JobFailed? ==> outcome.state.cache == s.cache && outcome.valid == declared)
      && (outcome.ending.ArtifactMissing? ==> forall p :: LeftWritten(tc, s, r, outcome.state, p))
  {
    var outcome := Compile(tc, s, r, merged, declared);
    if outcome.ending.ArtifactMissing? {
      AcceptedAre(tc, merged);
      forall p ensures LeftWritten(tc, s, r, outcome.state, p) {
        FileAfter(tc, s, r, merged, p);
      }
    }
    if outcome.ending.Succeeded? {
      forall p | p in r.project
        ensures LeftClean(tc, s, r, declared, p) <==> HoldsExactly(outcome.state.disk, p, CleanOutput(tc, r, p))
      {
        FileIsCleanIff(tc, s, r, merged, declared, p);
      }
      CleanBuildIff(tc, r, outcome.state.disk);
      forall a: ArtifactPath | a.file !in r.project
        ensures a in outcome.state.disk <==> a in declared + Leftovers(s, r)
        ensures a in outcome.state.disk ==> SameAt(s.disk, outcome.state.disk, a)
      {
        KeptAt(tc, s, r, merged, declared, a);
        RecordedAt(tc, s, r, merged, a);
        FileAfter(tc, s, r, merged, a.file);
        assert a == ArtifactPath(a.file, a.contract);
      }
    }
  }

  // ------------------------------------------------------------------ running again

  /** After a successful run every file of the project is recorded as it is, with its artifacts. */
  lemma RecordedAfterSuccess(tc: Toolchain, s: State, r: Run, merged: seq<Job>, job: Job, q: FilePath)
    requires Trusted(tc) && Runs(tc, s, r, merged) && Compile(tc, s, r, merged, {}).ending.Succeeded?
    requires ValidJob(tc, r, job) && q in job.files
    ensures !OutOfDate(tc, Compile(tc, s, r, merged, {}).state, job, q)
  {
    assert q in SourcesOf(job) && q in r.project && r.project[q] == job.files[q].content;
    FileAfter(tc, s, r, merged, q);
    RecordedAreThere(tc, s, r, merged, q);
  }

  lemma RecordedAreThere(tc: Toolchain, s: State, r: Run, merged: seq<Job>, q: FilePath)
    requires Compile(tc, s, r, merged, {}).ending.Succeeded? && q in CacheAfter(tc, s, r, merged)
    ensures
      var s' := Compile(tc, s, r, merged, {}).state;
      s'.cache == CacheAfter(tc, s, r, merged) && forall c :: c in s'.cache[q].artifacts ==> ArtifactPath(q, c) in s'.disk
  {
    var s' := Compile(tc, s, r, merged, {}).state;
    forall c | c in s'.cache[q].artifacts ensures ArtifactPath(q, c) in s'.disk {
      assert ArtifactPath(q, c) in RecordedPaths(s'.cache);
    }
  }

  lemma {:induction false} NoneNeeded(tc: Toolchain, jobs: seq<Job>, cache: Cache)
    requires forall i :: 0 <= i < |jobs| ==> !NeedsCompilation(tc, jobs[i], cache)
    ensures NeededJobs(tc, jobs, cache, false) == []
  {
    if jobs != [] {
      NoneNeeded(tc, jobs[..|jobs| - 1], cache);
    }
  }

  /** The same run once more compiles nothing. */
  lemma RerunDoesNothing(tc: Toolchain, s: State, r: Run, merged: seq<Job>)
    requires Trusted(tc) && Runs(tc, s, r, merged) && Compile(tc, s, r, merged, {}).ending.Succeeded?
    ensures JobsToDo(tc, Compile(tc, s, r, merged, {}).state, r.(force := false)) == []
  {
    var s', r' := Compile(tc, s, r, merged, {}).state, r.(force := false);
    assert ValidRun(tc, r') by {
      forall i | 0 <= i < |r'.jobs| ensures ValidJob(tc, r', r'.jobs[i]) {
        assert ValidJob(tc, r, r.jobs[i]);
      }
    }
    forall i | 0 <= i < |r'.jobs| ensures !NeedsCompilation(tc, r'.jobs[i], CheckedCache(s', r')) {
      assert ValidJob(tc, r, r.jobs[i]) && ValidJob(tc, r', r'.jobs[i]);
      NeedsCompilationIff(tc, s', r', r'.jobs[i]);
      forall q | q in r.jobs[i].files ensures !OutOfDate(tc, s', r.jobs[i], q) {
        RecordedAfterSuccess(tc, s, r, merged, r.jobs[i], q);
      }
    }
    NoneNeeded(tc, r'.jobs, CheckedCache(s', r'));
  }
}
