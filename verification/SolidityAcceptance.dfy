/**
 Whether a cached run compiles. A run leaves out the jobs whose files did not change, so it
 might succeed where a forced build would meet an error, or fail where that would not.
 With acceptance that is local to a file and what it imports it does neither.
 */
module SolidityAcceptance {
  import opened SolidityBuild
  import opened SolidityCoherence
  import opened SolidityHistory

  /** Within `t`, the file compiles together with what it imports. */
  ghost predicate Endorsed(tc: Toolchain, config: SolcConfig, t: Sources, q: FilePath) {
    exists s :: q in s && Within(s, t) && ImportClosed(tc, s) && tc.accepts(config, s)
  }

  /** What compiles does so without the files it does not import, and files that compile do so together. */
  ghost predicate AcceptanceIsLocal(tc: Toolchain) {
    && (forall config, s, t :: Within(s, t) && ImportClosed(tc, s) && tc.accepts(config, t) ==> tc.accepts(config, s))
    && (forall config, t :: ImportClosed(tc, t) && AllEndorsed(tc, config, t) ==> tc.accepts(config, t))
  }

  ghost predicate AllEndorsed(tc: Toolchain, config: SolcConfig, t: Sources) {
    forall q :: q in t ==> Endorsed(tc, config, t, q)
  }

  // ------------------------------------------------------------ jobs without ballast

  /** Whoever has `p` and all it imports has `q`. */
  ghost predicate Needs(tc: Toolchain, src: Sources, p: FilePath, q: FilePath) {
    forall s :: p in s && Within(s, src) && ImportClosed(tc, s) ==> q in s
  }

  /** Every file of a job is there for one that emits artifacts. */
  ghost predicate Purposeful(tc: Toolchain, job: Job) {
    forall q {:trigger HasPurpose(tc, job, q)} :: q in job.files ==> HasPurpose(tc, job, q)
  }

  ghost predicate HasPurpose(tc: Toolchain, job: Job, q: FilePath) {
    exists p :: Emits(job, p) && Needs(tc, SourcesOf(job), p, q)
  }

  ghost predicate AllPurposeful(tc: Toolchain, jobs: seq<Job>) {
    forall i :: 0 <= i < |jobs| ==> Purposeful(tc, jobs[i])
  }

  /** A job for one file with its transitive dependencies, and nothing else, is purposeful. */
  lemma CreatedJobIsPurposeful(tc: Toolchain, r: Run, p: FilePath, dependencies: set<FilePath>)
    requires p in r.project && dependencies <= r.project.Keys
    requires forall q :: q in dependencies ==> Needs(tc, r.project, p, q)
    ensures Purposeful(tc, CreateJob(r, p, dependencies))
  {
    var job := CreateJob(r, p, dependencies);
    forall q | q in job.files ensures HasPurpose(tc, job, q) {
      assert Emits(job, p);
      forall s | p in s && Within(s, SourcesOf(job)) && ImportClosed(tc, s) ensures q in s {
        assert Within(s, r.project);
      }
    }
  }

  /** The part two sources have in common. */
  function Common(s: Sources, t: Sources): Sources {
    map q | q in s && q in t :: s[q]
  }

  lemma CommonIsClosed(tc: Toolchain, s: Sources, t: Sources)
    requires ImportClosed(tc, s) && ImportClosed(tc, t)
    requires forall q :: q in s && q in t ==> s[q] == t[q]
    ensures ImportClosed(tc, Common(s, t)) && Within(Common(s, t), s) && Within(Common(s, t), t)
  {}

  /** Merging keeps jobs purposeful. */
  lemma MergedArePurposeful(tc: Toolchain, r: Run, jobs: seq<Job>, merged: seq<Job>, k: nat)
    requires ValidJobs(tc, r, jobs) && AllPurposeful(tc, jobs) && Merges(jobs, merged) && k < |merged|
    ensures Purposeful(tc, merged[k])
  {
    forall q | q in merged[k].files ensures HasPurpose(tc, merged[k], q) {
      MergedHasPurpose(tc, r, jobs, merged, k, q);
    }
  }

  lemma MergedHasPurpose(tc: Toolchain, r: Run, jobs: seq<Job>, merged: seq<Job>, k: nat, q: FilePath)
    requires ValidJobs(tc, r, jobs) && AllPurposeful(tc, jobs) && Merges(jobs, merged) && k < |merged|
    requires q in merged[k].files
    ensures HasPurpose(tc, merged[k], q)
  {
    var i := ExplainedBy(jobs, merged, k, q);
    MergedJobIsValid(tc, r, jobs, merged, k);
    JobHasPurpose(tc, r, jobs, i, q);
    PurposeInMore(tc, r, jobs[i], merged[k], q);
  }

  lemma ExplainedBy(jobs: seq<Job>, merged: seq<Job>, k: nat, q: FilePath) returns (i: nat)
    requires Merges(jobs, merged) && k < |merged| && q in merged[k].files
    ensures i < |jobs| && PartOf(jobs[i], merged[k]) && q in jobs[i].files
  {
    assert JobExplained(jobs, merged[k]) && Explained(jobs, merged[k], q);
    i :| 0 <= i < |jobs| && PartOf(jobs[i], merged[k]) && q in jobs[i].files && jobs[i].files[q] == merged[k].files[q];
  }

  lemma JobHasPurpose(tc: Toolchain, r: Run, jobs: seq<Job>, i: nat, q: FilePath)
    requires ValidJobs(tc, r, jobs) && AllPurposeful(tc, jobs) && i < |jobs| && q in jobs[i].files
    ensures ValidJob(tc, r, jobs[i]) && HasPurpose(tc, jobs[i], q)
  {
    assert Purposeful(tc, jobs[i]);
  }

  lemma PurposeInMore(tc: Toolchain, r: Run, j: Job, m: Job, q: FilePath)
    requires ValidJob(tc, r, j) && ValidJob(tc, r, m) && PartOf(j, m) && HasPurpose(tc, j, q)
    ensures HasPurpose(tc, m, q)
  {
    var p :| Emits(j, p) && Needs(tc, SourcesOf(j), p, q);
    NeedsInMore(tc, r, j, m, p, q);
    assert Emits(m, p);
  }

  lemma NeedsInMore(tc: Toolchain, r: Run, j: Job, m: Job, p: FilePath, q: FilePath)
    requires ValidJob(tc, r, j) && ValidJob(tc, r, m) && p in j.files && Needs(tc, SourcesOf(j), p, q)
    ensures Needs(tc, SourcesOf(m), p, q)
  {
    var part := SourcesOf(j);
    forall s | p in s && Within(s, SourcesOf(m)) && ImportClosed(tc, s) ensures q in s {
      assert forall x :: x in s && x in part ==> s[x] == r.project[x] == part[x];
      CommonIsClosed(tc, s, part);
      assert p in Common(s, part);
    }
  }

  // ------------------------------------------------------------------ the invariant

  /** Every cached file, at the hashes the cache records, compiles with what it imports. */
  ghost predicate Sanctioned(tc: Toolchain, cache: Cache) {
    forall p, src :: p in src && ImportClosed(tc, src) && CachedAt(tc, cache, src) ==>
      Endorsed(tc, cache[p].config, src, p)
  }

  /** A skipped job would compile. */
  lemma SkippedIsAccepted(tc: Toolchain, s: State, r: Run, job: Job)
    requires AcceptanceIsLocal(tc) && Sanctioned(tc, s.cache) && ValidJob(tc, r, job) && Purposeful(tc, job)
    requires !NeedsCompilation(tc, job, CheckedCache(s, r))
    ensures Accepted(tc, job)
  {
    var src := SourcesOf(job);
    SkippedIsRecorded(tc, s, r, job);
    forall p | Emits(job, p) ensures Endorsed(tc, job.config, src, p) {
      assert p in src && Endorsed(tc, s.cache[p].config, src, p);
    }
    EmittersSuffice(tc, job);
  }

  /** If what emits artifacts compiles, so does the rest of a purposeful job. */
  lemma EmittersSuffice(tc: Toolchain, job: Job)
    requires Purposeful(tc, job) && forall p :: Emits(job, p) ==> Endorsed(tc, job.config, SourcesOf(job), p)
    ensures AllEndorsed(tc, job.config, SourcesOf(job))
  {
    forall q | q in SourcesOf(job) ensures Endorsed(tc, job.config, SourcesOf(job), q) {
      assert HasPurpose(tc, job, q);
      var p :| Emits(job, p) && Needs(tc, SourcesOf(job), p, q);
      EndorsedTogether(tc, job.config, SourcesOf(job), p, q);
    }
  }

  lemma EndorsedTogether(tc: Toolchain, config: SolcConfig, src: Sources, p: FilePath, q: FilePath)
    requires Endorsed(tc, config, src, p) && Needs(tc, src, p, q)
    ensures Endorsed(tc, config, src, q)
  {
    var part :| p in part && Within(part, src) && ImportClosed(tc, part) && tc.accepts(config, part);
    assert q in part;
  }

  /** The cache records the contents of a skipped job, and the configuration of what it emits. */
  lemma SkippedIsRecorded(tc: Toolchain, s: State, r: Run, job: Job)
    requires !NeedsCompilation(tc, job, CheckedCache(s, r))
    ensures CachedAt(tc, s.cache, SourcesOf(job))
    ensures forall p :: Emits(job, p) ==> p in s.cache && s.cache[p].config == job.config
  {
    var src, checked := SourcesOf(job), CheckedCache(s, r);
    forall q | q in job.files
      ensures RecordedIn(tc, s.cache, q, src[q]) && (Emits(job, q) ==> s.cache[q].config == job.config)
    {
      assert !HasFileChanged(tc, checked, q, job.files[q], job.config);
    }
  }

  /** A job that was merged into one that compiles would compile. */
  lemma PartIsAccepted(tc: Toolchain, r: Run, j: Job, m: Job)
    requires AcceptanceIsLocal(tc) && ValidJob(tc, r, j) && ValidJob(tc, r, m) && PartOf(j, m) && Accepted(tc, m)
    ensures Accepted(tc, j)
  {
    PartIsWithin(tc, r, j, m);
  }

  /** Jobs that compile do so when they are merged. */
  lemma MergedIsAccepted(tc: Toolchain, r: Run, jobs: seq<Job>, merged: seq<Job>, k: nat)
    requires AcceptanceIsLocal(tc) && ValidJobs(tc, r, jobs) && Merges(jobs, merged) && k < |merged| && AllAccepted(tc, jobs)
    ensures Accepted(tc, merged[k])
  {
    var m := merged[k];
    MergedJobIsValid(tc, r, jobs, merged, k);
    forall q | q in SourcesOf(m) ensures Endorsed(tc, m.config, SourcesOf(m), q) {
      var i := ExplainedBy(jobs, merged, k, q);
      assert ValidJob(tc, r, jobs[i]);
      PartIsWithin(tc, r, jobs[i], m);
      assert Accepted(tc, jobs[i]) && q in SourcesOf(jobs[i]);
    }
    assert AllEndorsed(tc, m.config, SourcesOf(m));
  }

  lemma PartIsWithin(tc: Toolchain, r: Run, j: Job, m: Job)
    requires ValidJob(tc, r, j) && ValidJob(tc, r, m) && PartOf(j, m)
    ensures Within(SourcesOf(j), SourcesOf(m))
  {
    forall q | q in SourcesOf(j) ensures q in SourcesOf(m) && SourcesOf(j)[q] == SourcesOf(m)[q] {
      assert q in j.files && q in m.files;
    }
  }

  /** If the jobs of a run compile, so would those it left out. */
  lemma EveryJobIsAccepted(tc: Toolchain, s: State, r: Run, merged: seq<Job>, i: nat)
    requires AcceptanceIsLocal(tc) && Sanctioned(tc, s.cache) && Runs(tc, s, r, merged)
    requires AllPurposeful(tc, r.jobs) && AllAccepted(tc, merged) && i < |r.jobs|
    ensures Accepted(tc, r.jobs[i])
  {
    var j, needed := r.jobs[i], JobsToDo(tc, s, r);
    assert ValidJob(tc, r, j) && Purposeful(tc, j);
    NeededOrCached(tc, r.jobs, CheckedCache(s, r), r.force, i);
    if j in needed {
      var n :| 0 <= n < |needed| && needed[n] == j;
      assert Absorbed(needed[n], merged);
      var k :| 0 <= k < |merged| && PartOf(j, merged[k]);
      MergedAreValid(tc, s, r, merged);
      PartIsAccepted(tc, r, j, merged[k]);
    } else {
      SkippedIsAccepted(tc, s, r, j);
    }
  }

  /** A cached run compiles exactly if a forced one does, however the jobs are merged. */
  lemma CompilesIffForcedDoes(tc: Toolchain, s: State, r: Run, merged: seq<Job>, forced: seq<Job>)
    requires AcceptanceIsLocal(tc) && Sanctioned(tc, s.cache) && Runs(tc, s, r, merged)
    requires AllPurposeful(tc, r.jobs) && Merges(r.jobs, forced)
    ensures AllAccepted(tc, merged) <==> AllAccepted(tc, forced)
  {
    if AllAccepted(tc, merged) {
      forall i | 0 <= i < |r.jobs| ensures Accepted(tc, r.jobs[i]) {
        EveryJobIsAccepted(tc, s, r, merged, i);
      }
      forall k | 0 <= k < |forced| ensures Accepted(tc, forced[k]) {
        MergedIsAccepted(tc, r, r.jobs, forced, k);
      }
    }
    if AllAccepted(tc, forced) {
      ForcedMeansAccepted(tc, s, r, merged, forced);
    }
  }

  lemma ForcedMeansAccepted(tc: Toolchain, s: State, r: Run, merged: seq<Job>, forced: seq<Job>)
    requires AcceptanceIsLocal(tc) && Runs(tc, s, r, merged) && Merges(r.jobs, forced) && AllAccepted(tc, forced)
    ensures AllAccepted(tc, merged)
  {
    var needed := JobsToDo(tc, s, r);
    MergedJobsAreValid(tc, r, r.jobs, forced);
    NeededAreValid(tc, r, CheckedCache(s, r));
    forall n | 0 <= n < |needed| ensures Accepted(tc, needed[n]) {
      NeededAreJobs(tc, r.jobs, CheckedCache(s, r), r.force, n);
      var i :| 0 <= i < |r.jobs| && r.jobs[i] == needed[n];
      assert Absorbed(r.jobs[i], forced);
      var k :| 0 <= k < |forced| && PartOf(r.jobs[i], forced[k]);
      PartIsAccepted(tc, r, r.jobs[i], forced[k]);
    }
    forall k | 0 <= k < |merged| ensures Accepted(tc, merged[k]) {
      MergedIsAccepted(tc, r, needed, merged, k);
    }
  }

  // ----------------------------------------------------- what a run does to it

  /** At all contents the cache will record, every file that left the graph still compiles. */
  ghost predicate LeaversStillCompile(tc: Toolchain, s: State, r: Run) {
    forall p, src :: p in src && p !in r.project && ImportClosed(tc, src) && CachedNext(tc, s, r, src) ==>
      Endorsed(tc, s.cache[p].config, src, p)
  }

  lemma ProjectIsEndorsed(tc: Toolchain, s: State, r: Run, merged: seq<Job>, p: FilePath, src: Sources)
    requires AcceptanceIsLocal(tc) && Sanctioned(tc, s.cache) && Runs(tc, s, r, merged)
    requires AllPurposeful(tc, r.jobs) && AllAccepted(tc, merged)
    requires p in r.project && p in src && ImportClosed(tc, src) && CachedNext(tc, s, r, src)
    ensures Endorsed(tc, r.configOf(p), src, p)
  {
    assert EmittedBy(r.jobs, p);
    var i :| 0 <= i < |r.jobs| && Emits(r.jobs[i], p);
    EveryJobIsAccepted(tc, s, r, merged, i);
    var whole := SourcesOf(r.jobs[i]);
    assert ValidJob(tc, r, r.jobs[i]);
    forall q | q in whole && q in src ensures whole[q] == src[q] {
      assert RecordedNext(tc, s, r, q, src[q]);
    }
    CommonIsClosed(tc, whole, src);
    var part := Common(whole, src);
    assert p in part && tc.accepts(r.configOf(p), part);
  }

  /** A run whose jobs compile keeps this exactly if the files that left the graph still compile. */
  lemma SanctionSurvivesIff(tc: Toolchain, s: State, r: Run, merged: seq<Job>)
    requires Trusted(tc) && AcceptanceIsLocal(tc) && Sanctioned(tc, s.cache) && Runs(tc, s, r, merged)
    requires AllPurposeful(tc, r.jobs) && AllAccepted(tc, merged)
    ensures Sanctioned(tc, CacheAfter(tc, s, r, merged)) <==> LeaversStillCompile(tc, s, r)
  {
    var cache := CacheAfter(tc, s, r, merged);
    forall p, src | p in src && ImportClosed(tc, src)
      ensures CachedAt(tc, cache, src) <==> CachedNext(tc, s, r, src)
      ensures CachedNext(tc, s, r, src) ==>
        p in cache && if p in r.project then Endorsed(tc, cache[p].config, src, p) else cache[p] == s.cache[p]
    {
      CachedNextIs(tc, s, r, merged, src);
      if CachedNext(tc, s, r, src) {
        assert RecordedNext(tc, s, r, p, src[p]);
        FileAfter(tc, s, r, merged, p);
        if p in r.project {
          ProjectIsEndorsed(tc, s, r, merged, p, src);
        }
      }
    }
  }

  // -------------------------------------------------------------- whole histories

  /** Jobs hold nothing without a purpose, and files that leave the graph go on compiling. */
  ghost predicate Lawful(tc: Toolchain, s: State, events: seq<Event>) {
    events != [] ==>
      && Lawful(tc, s, events[..|events| - 1])
      && LawfulEvent(tc, After(tc, s, events[..|events| - 1]), events[|events| - 1])
  }

  ghost predicate LawfulEvent(tc: Toolchain, s: State, e: Event) {
    e.Compiles? ==>
      AllPurposeful(tc, e.run.jobs) && (AllAccepted(tc, e.merged) ==> LeaversStillCompile(tc, s, e.run))
  }

  lemma {:induction false} AlwaysSanctioned(tc: Toolchain, disk: Disk, events: seq<Event>)
    requires Trusted(tc) && AcceptanceIsLocal(tc)
    requires History(tc, State(map[], disk), events) && Lawful(tc, State(map[], disk), events)
    ensures Sanctioned(tc, After(tc, State(map[], disk), events).cache)
  {
    if events == [] {
      NothingIsSanctioned(tc);
    } else {
      var before, e := events[..|events| - 1], events[|events| - 1];
      AlwaysSanctioned(tc, disk, before);
      var s := After(tc, State(map[], disk), before);
      if e.Compiles? && AllAccepted(tc, e.merged) {
        SanctionSurvivesIff(tc, s, e.run, e.merged);
        assert Compile(tc, s, e.run, e.merged, {}).state.cache == CacheAfter(tc, s, e.run, e.merged);
      }
    }
  }

  lemma NothingIsSanctioned(tc: Toolchain)
    ensures Sanctioned(tc, map[])
  {
    var none: Cache := map[];
    forall p, src: Sources | p in src ensures !CachedAt(tc, none, src) {
      assert !RecordedIn(tc, none, p, src[p]);
    }
  }

  /**
   After any lawful history a run succeeds exactly if a forced build from scratch does and
   no artifact of a file that left the graph is missing; and then it leaves the same, and
   beside it exactly the artifacts still recorded for such files.
   */
  lemma CachedBuildIsForcedBuild(tc: Toolchain, disk: Disk, events: seq<Event>, r: Run, merged: seq<Job>, forced: seq<Job>)
    requires Trusted(tc) && AcceptanceIsLocal(tc)
    requires History(tc, State(map[], disk), events) && Lawful(tc, State(map[], disk), events)
    requires Runs(tc, After(tc, State(map[], disk), events), r, merged)
    requires AllPurposeful(tc, r.jobs) && Merges(r.jobs, forced)
    ensures
      var s := After(tc, State(map[], disk), events);
      var outcome, scratch := Compile(tc, s, r, merged, {}), ForcedFromScratch(tc, r, forced);
      && (outcome.ending.Succeeded? <==> scratch.ending.Succeeded? && Leftovers(s, r) <= s.disk.Keys)
      && (outcome.ending.Succeeded? ==>
            outcome.state.disk == scratch.state.disk + KeepOnly(s.disk, Leftovers(s, r)))
  {
    var s := After(tc, State(map[], disk), events);
    AlwaysCoherent(tc, disk, events);
    AlwaysSanctioned(tc, disk, events);
    CompileIsClean(tc, s, r, merged);
    CompilesIffForcedDoes(tc, s, r, merged, forced);
    if AllAccepted(tc, forced) {
      ForcedIsClean(tc, r, forced);
    }
  }
}
