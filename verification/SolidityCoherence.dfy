/**
 The invariant of incremental compilation: what the cache records is what is on
 disk. It says when a run from a state is a clean build, exactly which runs keep it,
 and that nothing weaker would do.
 */
module SolidityCoherence {
  import opened SolidityBuild

  // --------------------------------------------------------------- the invariant

  /** The artifacts of `p` are `output`: the right names, and the right contents where present. */
  ghost predicate Holds(disk: Disk, p: FilePath, artifacts: set<ContractName>, output: map<ContractName, Artifact>) {
    && artifacts == output.Keys
    && forall c :: c in output && ArtifactPath(p, c) in disk ==> disk[ArtifactPath(p, c)] == output[c]
  }

  /** Every file of `src` is cached at exactly the hash of its content in `src`. */
  ghost predicate CachedAt(tc: Toolchain, cache: Cache, src: Sources) {
    forall q :: q in src ==> RecordedIn(tc, cache, q, src[q])
  }

  ghost predicate RecordedIn(tc: Toolchain, cache: Cache, q: FilePath, content: Content) {
    q in cache && cache[q].contentHash == tc.hash(content)
  }

  /**
   Each cached file's artifacts are the compiler output for the file with all it
   imports, at the hashes the cache records.
   */
  ghost predicate Coherent(tc: Toolchain, s: State) {
    forall p, src :: p in src && ImportClosed(tc, src) && CachedAt(tc, s.cache, src)
      ==> Holds(s.disk, p, s.cache[p].artifacts, tc.solc(s.cache[p].config, src, p))
  }

  // --------------------------------------------------- one run, from a coherent state

  /**
   The heart of the argument: a file whose job was skipped is cached and on disk
   exactly as a clean build would have left it.
   */
  lemma SkippedIsFresh(tc: Toolchain, s: State, r: Run, job: Job, p: FilePath)
    requires Trusted(tc) && Coherent(tc, s) && ImportClosed(tc, r.project)
    requires ValidJob(tc, r, job) && Emits(job, p) && !NeedsCompilation(tc, job, CheckedCache(s, r))
    ensures p in CheckedCache(s, r) && FreshEntry(tc, r, p, CheckedCache(s, r)[p])
    ensures FreshOnDisk(tc, r, p, s.disk)
  {
    var src, checked := SourcesOf(job), CheckedCache(s, r);
    forall q | q in src
      ensures q in checked && s.cache[q] == checked[q] && RecordedIn(tc, s.cache, q, src[q])
    {
      assert q in job.files && !HasFileChanged(tc, checked, q, job.files[q], job.config);
    }
    assert p in src && !HasFileChanged(tc, checked, p, job.files[p], job.config);
    assert CachedAt(tc, s.cache, src);
    assert Holds(s.disk, p, s.cache[p].artifacts, tc.solc(s.cache[p].config, src, p));
    EmittedIsClean(tc, r, job, p);
    assert AllOnDisk(s.disk, p, checked[p].artifacts);
  }

  lemma NotRecompiledIsFresh(tc: Toolchain, s: State, r: Run, p: FilePath)
    requires Trusted(tc) && Coherent(tc, s) && ValidRun(tc, r) && p in r.project && !Recompiled(tc, s, r, p)
    ensures p in s.cache && FreshEntry(tc, r, p, s.cache[p]) && FreshOnDisk(tc, r, p, s.disk)
  {
    assert EmittedBy(r.jobs, p);
    var i :| 0 <= i < |r.jobs| && Emits(r.jobs[i], p);
    NeededOrCached(tc, r.jobs, CheckedCache(s, r), r.force, i);
    SkippedIsFresh(tc, s, r, r.jobs[i], p);
  }

  /** In a fresh process a coherent state leaves every file clean. */
  lemma CoherentLeavesClean(tc: Toolchain, s: State, r: Run, p: FilePath)
    requires Trusted(tc) && Coherent(tc, s) && ValidRun(tc, r) && p in r.project
    ensures LeftClean(tc, s, r, {}, p)
  {
    if !Recompiled(tc, s, r, p) {
      NotRecompiledIsFresh(tc, s, r, p);
    }
    FreshIsLeftClean(tc, s, r, p);
  }

  lemma FreshIsLeftClean(tc: Toolchain, s: State, r: Run, p: FilePath)
    requires p in r.project
    requires Recompiled(tc, s, r, p) || (p in s.cache && FreshEntry(tc, r, p, s.cache[p]) && FreshOnDisk(tc, r, p, s.disk))
    ensures LeftClean(tc, s, r, {}, p)
  {
    assert NamesAt({}, p) == {};
  }

  /** After the jobs, every file of the project is cached and on disk as a clean build leaves it. */
  lemma ProjectIsFresh(tc: Toolchain, s: State, r: Run, merged: seq<Job>, p: FilePath)
    requires Trusted(tc) && Coherent(tc, s) && Runs(tc, s, r, merged) && p in r.project
    ensures p in CacheAfter(tc, s, r, merged) && FreshEntry(tc, r, p, CacheAfter(tc, s, r, merged)[p])
    ensures FreshOnDisk(tc, r, p, WriteJobs(tc, s.disk, merged))
  {
    FileAfter(tc, s, r, merged, p);
    if !Recompiled(tc, s, r, p) {
      NotRecompiledIsFresh(tc, s, r, p);
    }
  }

  // ------------------------------------------------- what a run does to the invariant

  /** A cached file that still exists but is not in the graph of this run. */
  predicate Leaves(s: State, r: Run, p: FilePath) {
    p in s.cache && p in r.existing && p !in r.project
  }

  /** The contents the cache will record: those of the project, and those already recorded for leavers. */
  ghost predicate CachedNext(tc: Toolchain, s: State, r: Run, src: Sources) {
    forall q :: q in src ==> RecordedNext(tc, s, r, q, src[q])
  }

  ghost predicate RecordedNext(tc: Toolchain, s: State, r: Run, q: FilePath, content: Content) {
    if q in r.project then content == r.project[q]
    else Leaves(s, r, q) && s.cache[q].contentHash == tc.hash(content)
  }

  lemma CachedNextIs(tc: Toolchain, s: State, r: Run, merged: seq<Job>, src: Sources)
    requires Trusted(tc) && Runs(tc, s, r, merged)
    ensures CachedAt(tc, CacheAfter(tc, s, r, merged), src) <==> CachedNext(tc, s, r, src)
  {
    forall q | q in src
      ensures RecordedIn(tc, CacheAfter(tc, s, r, merged), q, src[q]) <==> RecordedNext(tc, s, r, q, src[q])
    {
      RecordedNextIs(tc, s, r, merged, q, src[q]);
    }
  }

  lemma RecordedNextIs(tc: Toolchain, s: State, r: Run, merged: seq<Job>, q: FilePath, content: Content)
    requires Trusted(tc) && Runs(tc, s, r, merged)
    ensures RecordedIn(tc, CacheAfter(tc, s, r, merged), q, content) <==> RecordedNext(tc, s, r, q, content)
  {
    FileAfter(tc, s, r, merged, q);
  }

  /**
   No leaver misses an update: for all contents the cache will record, what it has on
   disk still is the compiler output for it.
   */
  ghost predicate LeaversUnaffected(tc: Toolchain, s: State, r: Run) {
    forall p, src :: p in src && p !in r.project && ImportClosed(tc, src) && CachedNext(tc, s, r, src)
      ==> Holds(s.disk, p, s.cache[p].artifacts, tc.solc(s.cache[p].config, src, p))
  }

  /** It is enough that nothing a leaver may import is recorded anew. */
  lemma UnchangedImportsSuffice(tc: Toolchain, s: State, r: Run)
    requires Coherent(tc, s)
    requires forall p, src :: p in src && p !in r.project && ImportClosed(tc, src) && CachedNext(tc, s, r, src) ==>
      CachedAt(tc, s.cache, src)
    ensures LeaversUnaffected(tc, s, r)
  {}

  /** Artifacts that are on disk alike hold an output alike. */
  lemma HoldsAlike(d: Disk, d': Disk, p: FilePath, artifacts: set<ContractName>, output: map<ContractName, Artifact>)
    requires forall c :: c in artifacts ==> SameAt(d, d', ArtifactPath(p, c))
    ensures Holds(d, p, artifacts, output) <==> Holds(d', p, artifacts, output)
  {}

  /** Whatever else is given to it, the compiler output for a file of the project is its clean output. */
  lemma OutputInProject(tc: Toolchain, s: State, r: Run, p: FilePath, src: Sources)
    requires Trusted(tc) && ImportClosed(tc, r.project) && p in r.project
    requires p in src && ImportClosed(tc, src) && CachedNext(tc, s, r, src)
    ensures tc.solc(r.configOf(p), src, p) == CleanOutput(tc, r, p)
  {
    var common := map q | q in src && q in r.project :: src[q];
    assert ImportClosed(tc, common) && Within(common, src) && Within(common, r.project);
  }

  lemma ProjectHolds(tc: Toolchain, s: State, r: Run, merged: seq<Job>, p: FilePath, src: Sources)
    requires Trusted(tc) && Coherent(tc, s) && Runs(tc, s, r, merged) && p in r.project
    requires p in src && ImportClosed(tc, src) && CachedNext(tc, s, r, src)
    ensures
      var cache := CacheAfter(tc, s, r, merged);
      p in cache && Holds(WriteJobs(tc, s.disk, merged), p, cache[p].artifacts, tc.solc(cache[p].config, src, p))
  {
    ProjectIsFresh(tc, s, r, merged, p);
    OutputInProject(tc, s, r, p, src);
  }

  /** The recorded artifacts survive the removal of obsolete ones. */
  lemma RecordedSurvive(tc: Toolchain, s: State, r: Run, merged: seq<Job>, declared: set<ArtifactPath>, p: FilePath, c: ContractName)
    requires AllAccepted(tc, merged)
    requires p in CacheAfter(tc, s, r, merged) && c in CacheAfter(tc, s, r, merged)[p].artifacts
    ensures SameAt(WriteJobs(tc, s.disk, merged), Compile(tc, s, r, merged, declared).state.disk, ArtifactPath(p, c))
  {
    AcceptedAre(tc, merged);
  }

  /** At one file and one choice of contents, the invariant after a run that compiled. */
  lemma HoldsAfter(tc: Toolchain, s: State, r: Run, merged: seq<Job>, declared: set<ArtifactPath>, p: FilePath, src: Sources)
    requires Trusted(tc) && Coherent(tc, s) && Runs(tc, s, r, merged) && AllAccepted(tc, merged)
    requires p in src && ImportClosed(tc, src) && CachedNext(tc, s, r, src)
    ensures
      var s' := Compile(tc, s, r, merged, declared).state;
      && p in s'.cache
      && (Holds(s'.disk, p, s'.cache[p].artifacts, tc.solc(s'.cache[p].config, src, p)) <==>
          p in r.project || Holds(s.disk, p, s.cache[p].artifacts, tc.solc(s.cache[p].config, src, p)))
  {
    FileAfter(tc, s, r, merged, p);
    var s', written := Compile(tc, s, r, merged, declared).state, WriteJobs(tc, s.disk, merged);
    var entry := s'.cache[p];
    forall c | c in entry.artifacts ensures SameAt(written, s'.disk, ArtifactPath(p, c)) {
      RecordedSurvive(tc, s, r, merged, declared, p, c);
    }
    var output := tc.solc(entry.config, src, p);
    HoldsAlike(written, s'.disk, p, entry.artifacts, output);
    if p in r.project {
      ProjectHolds(tc, s, r, merged, p, src);
    } else {
      HoldsAlike(s.disk, written, p, entry.artifacts, output);
    }
  }

  /** A run that compiles keeps the invariant exactly if no leaver misses an update. */
  lemma CoherenceSurvivesIff(tc: Toolchain, s: State, r: Run, merged: seq<Job>, declared: set<ArtifactPath>)
    requires Trusted(tc) && Coherent(tc, s) && Runs(tc, s, r, merged) && AllAccepted(tc, merged)
    ensures Coherent(tc, Compile(tc, s, r, merged, declared).state) <==> LeaversUnaffected(tc, s, r)
  {
    var s' := Compile(tc, s, r, merged, declared).state;
    forall p, src | p in src && ImportClosed(tc, src)
      ensures CachedAt(tc, s'.cache, src) <==> CachedNext(tc, s, r, src)
      ensures CachedNext(tc, s, r, src) ==>
        && p in s'.cache
        && (Holds(s'.disk, p, s'.cache[p].artifacts, tc.solc(s'.cache[p].config, src, p)) <==>
            p in r.project || Holds(s.disk, p, s.cache[p].artifacts, tc.solc(s.cache[p].config, src, p)))
    {
      CachedNextIs(tc, s, r, merged, src);
      if CachedNext(tc, s, r, src) {
        HoldsAfter(tc, s, r, merged, declared, p, src);
      }
    }
  }

  /** Where both give an artifact, it is the same one. */
  ghost predicate Agree(x: map<ContractName, Artifact>, y: map<ContractName, Artifact>) {
    forall c :: c in x && c in y ==> x[c] == y[c]
  }

  /** What a failed run wrote over recorded artifacts is what the cache says they are. */
  ghost predicate OverwritesHarmless(tc: Toolchain, s: State, r: Run, written: seq<Job>) {
    forall p, src :: p in src && ImportClosed(tc, src) && CachedAt(tc, s.cache, src) && EmittedBy(written, p)
      ==> Agree(CleanOutput(tc, r, p), tc.solc(s.cache[p].config, src, p))
  }

  /** A run in which a job fails keeps the invariant exactly if what the others wrote is harmless. */
  lemma FailureIsHarmlessIff(tc: Toolchain, s: State, r: Run, merged: seq<Job>, declared: set<ArtifactPath>)
    requires Trusted(tc) && Coherent(tc, s) && Runs(tc, s, r, merged) && !AllAccepted(tc, merged)
    ensures Coherent(tc, Compile(tc, s, r, merged, declared).state) <==>
      OverwritesHarmless(tc, s, r, AcceptedJobs(tc, merged))
  {
    MergedAreValid(tc, s, r, merged);
    var written := AcceptedJobs(tc, merged);
    var s' := Compile(tc, s, r, merged, declared).state;
    forall p, src | p in src && ImportClosed(tc, src) && CachedAt(tc, s.cache, src)
      ensures Holds(s'.disk, p, s'.cache[p].artifacts, tc.solc(s'.cache[p].config, src, p)) <==>
        (EmittedBy(written, p) ==> Agree(CleanOutput(tc, r, p), tc.solc(s.cache[p].config, src, p)))
    {
      WrittenDisk(tc, r, s.disk, written, p);
      OverwrittenHolds(tc, s, r, s'.disk, p, tc.solc(s.cache[p].config, src, p), EmittedBy(written, p));
    }
  }

  lemma OverwrittenHolds(tc: Toolchain, s: State, r: Run, disk: Disk, p: FilePath, output: map<ContractName, Artifact>, emitted: bool)
    requires p in s.cache && Holds(s.disk, p, s.cache[p].artifacts, output) && WrittenOver(tc, r, s.disk, disk, p, emitted)
    ensures Holds(disk, p, s.cache[p].artifacts, output) <==> (emitted ==> Agree(CleanOutput(tc, r, p), output))
  {
    if emitted && Agree(CleanOutput(tc, r, p), output) {
      forall c | c in output && ArtifactPath(p, c) in disk ensures disk[ArtifactPath(p, c)] == output[c] {
        if c !in CleanOutput(tc, r, p) {
          assert SameAt(s.disk, disk, ArtifactPath(p, c));
        }
      }
    }
  }
}
