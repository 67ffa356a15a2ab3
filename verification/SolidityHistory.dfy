/**
 Whole histories of compile runs, successful or not, with whatever else happens to
 the artifacts directory between them.
 */
module SolidityHistory {
  import opened SolidityBuild
  import opened SolidityCoherence

  datatype Event =
    /** A compile run in its own process, with the way its jobs were merged. */
    | Compiles(run: Run, merged: seq<Job>)
    /** Anything else that happens to the artifacts directory. */
    | DiskBecomes(disk: Disk)

  /** Recorded artifacts may be deleted, and anything may appear at paths no entry records. */
  ghost predicate LeavesRecordsAlone(s: State, disk: Disk) {
    forall a :: a in RecordedPaths(s.cache) && a in disk ==> a in s.disk && s.disk[a] == disk[a]
  }

  function After(tc: Toolchain, s: State, events: seq<Event>): State {
    if events == [] then s
    else
      var s := After(tc, s, events[..|events| - 1]);
      match events[|events| - 1]
      case Compiles(r, merged) => Compile(tc, s, r, merged, {}).state
      case DiskBecomes(disk) => s.(disk := disk)
  }

  /** The guard of one run: no leaver misses an update, and a failed run overwrites nothing. */
  ghost predicate Harmless(tc: Toolchain, s: State, r: Run, merged: seq<Job>) {
    if AllAccepted(tc, merged) then LeaversUnaffected(tc, s, r)
    else OverwritesHarmless(tc, s, r, AcceptedJobs(tc, merged))
  }

  ghost predicate Possible(tc: Toolchain, s: State, e: Event) {
    match e
    case Compiles(r, merged) => Runs(tc, s, r, merged) && Harmless(tc, s, r, merged)
    case DiskBecomes(disk) => LeavesRecordsAlone(s, disk)
  }

  ghost predicate History(tc: Toolchain, s: State, events: seq<Event>) {
    events != [] ==>
      && History(tc, s, events[..|events| - 1])
      && Possible(tc, After(tc, s, events[..|events| - 1]), events[|events| - 1])
  }

  lemma HarmlessIffCoherent(tc: Toolchain, s: State, r: Run, merged: seq<Job>, declared: set<ArtifactPath>)
    requires Trusted(tc) && Coherent(tc, s) && Runs(tc, s, r, merged)
    ensures Coherent(tc, Compile(tc, s, r, merged, declared).state) <==> Harmless(tc, s, r, merged)
  {
    if AllAccepted(tc, merged) {
      CoherenceSurvivesIff(tc, s, r, merged, declared);
    } else {
      FailureIsHarmlessIff(tc, s, r, merged, declared);
    }
  }

  lemma DiskChangeKeepsCoherence(tc: Toolchain, s: State, d: Disk)
    requires Coherent(tc, s) && LeavesRecordsAlone(s, d)
    ensures Coherent(tc, s.(disk := d))
  {}

  /** The invariant holds throughout every history, starting from an empty cache and any disk. */
  lemma {:induction false} AlwaysCoherent(tc: Toolchain, disk: Disk, events: seq<Event>)
    requires Trusted(tc) && History(tc, State(map[], disk), events)
    ensures Coherent(tc, After(tc, State(map[], disk), events))
  {
    if events != [] {
      var before := events[..|events| - 1];
      AlwaysCoherent(tc, disk, before);
      var s := After(tc, State(map[], disk), before);
      match events[|events| - 1]
      case Compiles(r, merged) => HarmlessIffCoherent(tc, s, r, merged, {});
      case DiskBecomes(d) => DiskChangeKeepsCoherence(tc, s, d);
    }
  }

  // ------------------------------------------------------------- one more run

  /** From a coherent state a run ends as it must, and a successful one leaves the clean build beside the leftovers. */
  lemma CompileIsClean(tc: Toolchain, s: State, r: Run, merged: seq<Job>)
    requires Trusted(tc) && Coherent(tc, s) && Runs(tc, s, r, merged)
    ensures
      var outcome := Compile(tc, s, r, merged, {});
      && (outcome.ending.Succeeded? <==> AllAccepted(tc, merged) && Leftovers(s, r) <= s.disk.Keys)
      && (outcome.ending.Succeeded? ==> outcome.state.disk == CleanBuild(tc, r) + KeepOnly(s.disk, Leftovers(s, r)))
  {
    var outcome := Compile(tc, s, r, merged, {});
    LeftoversUntouched(tc, s, r, merged);
    EndsAs(tc, s, r, merged, {});
    assert {} + Leftovers(s, r) == Leftovers(s, r);
    if outcome.ending.Succeeded? {
      forall p | p in r.project ensures LeftClean(tc, s, r, {}, p) {
        CoherentLeavesClean(tc, s, r, p);
      }
      CompileExactly(tc, s, r, merged, {});
      TwoParts(tc, s, r, outcome.state.disk);
    }
  }

  lemma LeftoversUntouched(tc: Toolchain, s: State, r: Run, merged: seq<Job>)
    requires Trusted(tc) && Runs(tc, s, r, merged)
    ensures Leftovers(s, r) <= WriteJobs(tc, s.disk, merged).Keys <==> Leftovers(s, r) <= s.disk.Keys
  {
    forall a | a in Leftovers(s, r) ensures a in WriteJobs(tc, s.disk, merged) <==> a in s.disk {
      FileAfter(tc, s, r, merged, a.file);
      assert SameAt(s.disk, WriteJobs(tc, s.disk, merged), ArtifactPath(a.file, a.contract));
    }
  }

  lemma TwoParts(tc: Toolchain, s: State, r: Run, disk: Disk)
    requires At(disk, r.project.Keys) == CleanBuild(tc, r)
    requires forall a: ArtifactPath :: a.file !in r.project ==>
      && (a in disk <==> a in {} + Leftovers(s, r))
      && (a in disk ==> SameAt(s.disk, disk, a))
    ensures disk == CleanBuild(tc, r) + KeepOnly(s.disk, Leftovers(s, r))
  {
    var both := CleanBuild(tc, r) + KeepOnly(s.disk, Leftovers(s, r));
    forall a: ArtifactPath
      ensures a in disk <==> a in both
      ensures a in disk && a in both ==> disk[a] == both[a]
    {
      if a.file in r.project {
        assert a !in Leftovers(s, r);
        assert a in disk <==> a in At(disk, r.project.Keys);
      } else {
        assert a !in At(disk, r.project.Keys);
      }
    }
  }

  /** The outcome of a forced build from nothing. */
  function ForcedFromScratch(tc: Toolchain, r: Run, merged: seq<Job>): Outcome {
    Compile(tc, State(map[], map[]), r.(force := true), merged, {})
  }

  lemma ForcedRunIsValid(tc: Toolchain, r: Run)
    requires ValidRun(tc, r)
    ensures ValidRun(tc, r.(force := true))
  {}

  lemma CleanBuildIgnoresForce(tc: Toolchain, r: Run)
    ensures CleanBuild(tc, r.(force := true)) == CleanBuild(tc, r)
  {}

  lemma NothingIsCoherent(tc: Toolchain)
    ensures Coherent(tc, State(map[], map[]))
  {
    var none: Cache := map[];
    forall p, src: Sources | p in src ensures !CachedAt(tc, none, src) {
      assert !RecordedIn(tc, none, p, src[p]);
    }
  }

  lemma ForcedDoesEverything(tc: Toolchain, r: Run)
    ensures JobsToDo(tc, State(map[], map[]), r.(force := true)) == r.jobs
    ensures Leftovers(State(map[], map[]), r.(force := true)) == {}
  {}

  lemma CleanWithoutLeftovers(tc: Toolchain, s: State, r: Run, merged: seq<Job>)
    requires Trusted(tc) && Coherent(tc, s) && Runs(tc, s, r, merged) && AllAccepted(tc, merged)
    requires Leftovers(s, r) == {}
    ensures Compile(tc, s, r, merged, {}).ending.Succeeded?
    ensures Compile(tc, s, r, merged, {}).state.disk == CleanBuild(tc, r)
  {
    CompileIsClean(tc, s, r, merged);
    AddingNothing(CleanBuild(tc, r), s.disk);
  }

  lemma AddingNothing(disk: Disk, other: Disk)
    ensures disk + KeepOnly(other, {}) == disk
  {
    assert KeepOnly(other, {}).Keys == {};
  }

  lemma ForcedIsClean(tc: Toolchain, r: Run, merged: seq<Job>)
    requires Trusted(tc) && ValidRun(tc, r) && Merges(r.jobs, merged) && AllAccepted(tc, merged)
    ensures ForcedFromScratch(tc, r, merged).ending.Succeeded?
    ensures ForcedFromScratch(tc, r, merged).state.disk == CleanBuild(tc, r)
  {
    ForcedRunIsValid(tc, r);
    CleanBuildIgnoresForce(tc, r);
    ForcedDoesEverything(tc, r);
    NothingIsCoherent(tc);
    CleanWithoutLeftovers(tc, State(map[], map[]), r.(force := true), merged);
  }

  /**
   After any history of runs, failures, edits and artifact deletions, one more run
   succeeds exactly if its jobs compile and no artifact of a file that left the graph is
   missing; and then the disk holds what a forced build from scratch leaves, and beside
   it exactly the artifacts still recorded for files that left the graph.
   */
  lemma CachedBuildIsCleanBuild(tc: Toolchain, disk: Disk, events: seq<Event>, r: Run, merged: seq<Job>, forced: seq<Job>)
    requires Trusted(tc) && History(tc, State(map[], disk), events)
    requires Runs(tc, After(tc, State(map[], disk), events), r, merged)
    requires Merges(r.jobs, forced) && AllAccepted(tc, forced)
    ensures
      var s := After(tc, State(map[], disk), events);
      var outcome := Compile(tc, s, r, merged, {});
      && (outcome.ending.Succeeded? <==> AllAccepted(tc, merged) && Leftovers(s, r) <= s.disk.Keys)
      && (outcome.ending.Succeeded? ==>
            outcome.state.disk == ForcedFromScratch(tc, r, forced).state.disk + KeepOnly(s.disk, Leftovers(s, r)))
  {
    AlwaysCoherent(tc, disk, events);
    CompileIsClean(tc, After(tc, State(map[], disk), events), r, merged);
    ForcedIsClean(tc, r, forced);
  }

  // ------------------------------------------------- nothing weaker would do

  /** If the run succeeds, its project ends up as a clean build leaves it. */
  ghost predicate RunIsClean(tc: Toolchain, s: State, r: Run, merged: seq<Job>) {
    Runs(tc, s, r, merged) && Compile(tc, s, r, merged, {}).ending.Succeeded? ==>
      At(Compile(tc, s, r, merged, {}).state.disk, r.project.Keys) == CleanBuild(tc, r)
  }

  ghost predicate EveryRunIsClean(tc: Toolchain, s: State) {
    forall r, merged :: RunIsClean(tc, s, r, merged)
  }

  /** Every recorded artifact is there, as after every successful run. */
  ghost predicate Complete(s: State) {
    RecordedPaths(s.cache) <= s.disk.Keys
  }

  lemma CoherentRunIsClean(tc: Toolchain, s: State, r: Run, merged: seq<Job>)
    requires Trusted(tc) && Coherent(tc, s)
    ensures RunIsClean(tc, s, r, merged)
  {
    if Runs(tc, s, r, merged) && Compile(tc, s, r, merged, {}).ending.Succeeded? {
      forall p | p in r.project ensures LeftClean(tc, s, r, {}, p) {
        CoherentLeavesClean(tc, s, r, p);
      }
      CompileExactly(tc, s, r, merged, {});
    }
  }

  ghost function Listed(files: set<FilePath>): (names: seq<FilePath>)
    ensures forall p :: p in names <==> p in files
  {
    if files == {} then [] else
      var p :| p in files;
      [p] + Listed(files - {p})
  }

  /** `p` with everything else, in the configuration the cache records. */
  function RevisitJob(s: State, src: Sources, p: FilePath): Job
    requires p in s.cache
  {
    Job(s.cache[p].config, map q | q in src :: JobFile(src[q], q == p))
  }

  /** A run over `src`, file by file, with nothing missing. */
  ghost function Revisit(s: State, src: Sources): Run
    requires src.Keys <= s.cache.Keys
  {
    var names := Listed(src.Keys);
    Run(src, s.cache.Keys, p => if p in s.cache then s.cache[p].config else SolcConfig([], []),
        seq(|names|, i requires 0 <= i < |names| => assert names[i] in names; RevisitJob(s, src, names[i])), false)
  }

  lemma RevisitIsValid(tc: Toolchain, s: State, src: Sources)
    requires ImportClosed(tc, src) && src.Keys <= s.cache.Keys
    ensures ValidRun(tc, Revisit(s, src))
  {
    var r, names := Revisit(s, src), Listed(src.Keys);
    forall i | 0 <= i < |r.jobs| ensures ValidJob(tc, r, r.jobs[i]) {
      assert names[i] in names;
      assert SourcesOf(RevisitJob(s, src, names[i])) == src;
    }
    forall p | p in src ensures EmittedBy(r.jobs, p) {
      var i :| 0 <= i < |names| && names[i] == p;
      assert Emits(r.jobs[i], p);
    }
  }

  lemma SelfMerge(jobs: seq<Job>)
    ensures Merges(jobs, jobs)
  {}

  lemma RevisitDoesNothing(tc: Toolchain, s: State, src: Sources)
    requires Complete(s) && CachedAt(tc, s.cache, src) && src.Keys <= s.cache.Keys
    ensures JobsToDo(tc, s, Revisit(s, src)) == []
    ensures Compile(tc, s, Revisit(s, src), [], {}) ==
      Outcome(State(s.cache, KeepOnly(s.disk, RecordedPaths(s.cache))), RecordedPaths(s.cache), Succeeded)
  {
    var r := Revisit(s, src);
    assert CheckedCache(s, r) == s.cache by {
      forall p | p in s.cache ensures AllOnDisk(s.disk, p, s.cache[p].artifacts) {
        assert forall c :: c in s.cache[p].artifacts ==> ArtifactPath(p, c) in RecordedPaths(s.cache);
      }
    }
    forall i | 0 <= i < |r.jobs| ensures !NeedsCompilation(tc, r.jobs[i], s.cache) {
      RevisitedJobIsSkipped(tc, s, src, i);
    }
    NoneNeeded(tc, r.jobs, s.cache);
    assert {} + RecordedPaths(s.cache) == RecordedPaths(s.cache);
  }

  lemma RevisitedJobIsSkipped(tc: Toolchain, s: State, src: Sources, i: nat)
    requires CachedAt(tc, s.cache, src) && src.Keys <= s.cache.Keys && i < |Revisit(s, src).jobs|
    ensures !NeedsCompilation(tc, Revisit(s, src).jobs[i], s.cache)
  {
    var p := Listed(src.Keys)[i];
    assert p in Listed(src.Keys);
    var job := RevisitJob(s, src, p);
    assert Revisit(s, src).jobs[i] == job;
    forall q | q in job.files ensures !HasFileChanged(tc, s.cache, q, job.files[q], job.config) {
      assert RecordedIn(tc, s.cache, q, src[q]);
    }
  }

  /** Wherever the invariant is broken there is a successful run that is not clean. */
  lemma BrokenIsSeen(tc: Toolchain, s: State, p: FilePath, src: Sources)
    requires Trusted(tc) && Complete(s) && p in src && ImportClosed(tc, src) && CachedAt(tc, s.cache, src)
    requires src.Keys <= s.cache.Keys && RunIsClean(tc, s, Revisit(s, src), [])
    ensures Holds(s.disk, p, s.cache[p].artifacts, tc.solc(s.cache[p].config, src, p))
  {
    var r := Revisit(s, src);
    RevisitIsValid(tc, s, src);
    RevisitDoesNothing(tc, s, src);
    SelfMerge([]);
    var kept := KeepOnly(s.disk, RecordedPaths(s.cache));
    CleanBuildIff(tc, r, kept);
    assert HoldsExactly(kept, p, CleanOutput(tc, r, p));
    forall c ensures c in s.cache[p].artifacts <==> c in CleanOutput(tc, r, p) {
      assert ArtifactPath(p, c) in kept <==> c in s.cache[p].artifacts;
    }
    forall c | c in CleanOutput(tc, r, p) ensures s.disk[ArtifactPath(p, c)] == CleanOutput(tc, r, p)[c] {
      assert ArtifactPath(p, c) in kept;
    }
  }

  /** The invariant says exactly that every successful run from here is clean. */
  lemma CoherentIffEveryRunIsClean(tc: Toolchain, s: State)
    requires Trusted(tc) && Complete(s)
    ensures Coherent(tc, s) <==> EveryRunIsClean(tc, s)
  {
    if Coherent(tc, s) {
      forall r, merged ensures RunIsClean(tc, s, r, merged) {
        CoherentRunIsClean(tc, s, r, merged);
      }
    }
    if EveryRunIsClean(tc, s) {
      forall p, src | p in src && ImportClosed(tc, src) && CachedAt(tc, s.cache, src)
        ensures Holds(s.disk, p, s.cache[p].artifacts, tc.solc(s.cache[p].config, src, p))
      {
        assert forall q :: q in src ==> RecordedIn(tc, s.cache, q, src[q]);
        BrokenIsSeen(tc, s, p, src);
      }
    }
  }

  /** After a run that succeeded, or failed without anything missing before, nothing recorded is missing. */
  lemma StaysComplete(tc: Toolchain, s: State, r: Run, merged: seq<Job>)
    requires Trusted(tc) && Runs(tc, s, r, merged)
    requires
      var ending := Compile(tc, s, r, merged, {}).ending;
      ending.Succeeded? || (ending.JobFailed? && Complete(s))
    ensures Complete(Compile(tc, s, r, merged, {}).state)
  {
    if !AllAccepted(tc, merged) {
      MergedAreValid(tc, s, r, merged);
      forall a | a in RecordedPaths(s.cache) ensures a in WriteJobs(tc, s.disk, AcceptedJobs(tc, merged)) {
        WrittenDisk(tc, r, s.disk, AcceptedJobs(tc, merged), a.file);
        assert a == ArtifactPath(a.file, a.contract);
      }
    }
  }

  /**
   Exactly when a run loses an update: all successful runs that can follow are clean iff
   no leaver misses an update or, if a job failed, what the others wrote is harmless.
   */
  lemma LaterRunsAreCleanIff(tc: Toolchain, s: State, r: Run, merged: seq<Job>)
    requires Trusted(tc) && Coherent(tc, s) && Runs(tc, s, r, merged)
    requires
      var ending := Compile(tc, s, r, merged, {}).ending;
      ending.Succeeded? || (ending.JobFailed? && Complete(s))
    ensures EveryRunIsClean(tc, Compile(tc, s, r, merged, {}).state) <==> Harmless(tc, s, r, merged)
  {
    StaysComplete(tc, s, r, merged);
    HarmlessIffCoherent(tc, s, r, merged, {});
    CoherentIffEveryRunIsClean(tc, Compile(tc, s, r, merged, {}).state);
  }
}
