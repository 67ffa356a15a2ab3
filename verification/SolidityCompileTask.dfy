/**
 The compile task as the program runs it: loops that change the files cache and
 write and delete artifacts step by step. Each is proved against the values of
 module SolidityBuild, where the properties of whole runs are.
 */
module SolidityCompileTask {
  import opened SolidityBuild
  import opened Sequences

  // ------------------------------------------------------------- merging of jobs

  /** `CompilationJob.merge`: an emitting file replaces a non-emitting one. */
  function Merge(a: Job, b: Job): (m: Job)
    requires a.config == b.config
    ensures PartOf(a, m) && PartOf(b, m)
    ensures forall p :: p in m.files ==>
      (p in a.files && a.files[p] == m.files[p]) || (p in b.files && b.files[p] == m.files[p])
  {
    Job(b.config, map p | p in a.files.Keys + b.files.Keys ::
      if p in b.files && (p !in a.files || b.files[p].emits) then b.files[p] else a.files[p])
  }

  type Groups = map<SolcConfig, seq<Job>>

  function Flatten(order: seq<SolcConfig>, groups: Groups): seq<Job>
    requires forall i :: 0 <= i < |order| ==> order[i] in groups
  {
    if order == [] then [] else groups[order[0]] + Flatten(order[1..], groups)
  }

  lemma {:induction false} FlattenHas(order: seq<SolcConfig>, groups: Groups, j: Job)
    requires forall i :: 0 <= i < |order| ==> order[i] in groups
    ensures j in Flatten(order, groups) <==> exists i :: 0 <= i < |order| && j in groups[order[i]]
  {
    if order != [] {
      FlattenHas(order[1..], groups, j);
      if j in Flatten(order[1..], groups) {
        var i :| 0 <= i < |order[1..]| && j in groups[order[1..][i]];
        assert j in groups[order[i + 1]];
      }
      if i :| 0 <= i < |order| && j in groups[order[i]] && j !in groups[order[0]] {
        assert j in groups[order[1..][i - 1]];
      }
    }
  }

  ghost predicate WellGrouped(groups: Groups, mergeable: SolcConfig -> bool) {
    forall c :: c in groups ==>
      && (forall i :: 0 <= i < |groups[c]| ==> groups[c][i].config == c)
      && (mergeable(c) ==> |groups[c]| == 1)
  }

  ghost predicate GroupExplained(jobs: seq<Job>, group: seq<Job>) {
    forall i :: 0 <= i < |group| ==> JobExplained(jobs, group[i])
  }

  ghost predicate GroupsExplained(jobs: seq<Job>, groups: Groups) {
    forall c :: c in groups ==> GroupExplained(jobs, groups[c])
  }

  ghost predicate GroupsAbsorb(jobs: seq<Job>, groups: Groups) {
    forall k :: 0 <= k < |jobs| ==> jobs[k].config in groups && Absorbed(jobs[k], groups[jobs[k].config])
  }

  ghost predicate AllAbsorbed(group: seq<Job>, r: seq<Job>) {
    forall i :: 0 <= i < |group| ==> Absorbed(group[i], r)
  }

  lemma PartOfTransitive(a: Job, b: Job, c: Job)
    requires PartOf(a, b) && PartOf(b, c)
    ensures PartOf(a, c)
  {}

  lemma ExplainedGrows(jobs: seq<Job>, j: Job, m: Job, m': Job, p: FilePath)
    requires p in m.files && p in m'.files && m.files[p] == m'.files[p]
    requires Explained(jobs, m, p) && PartOf(m, m')
    ensures Explained(jobs + [j], m', p)
  {
    var i :| 0 <= i < |jobs| && PartOf(jobs[i], m) && p in jobs[i].files && jobs[i].files[p] == m.files[p];
    PartOfTransitive(jobs[i], m, m');
    assert (jobs + [j])[i] == jobs[i];
  }

  lemma ExplainedByLast(jobs: seq<Job>, j: Job, m: Job, p: FilePath)
    requires p in m.files && p in j.files && j.files[p] == m.files[p] && PartOf(j, m)
    ensures Explained(jobs + [j], m, p)
  {
    assert (jobs + [j])[|jobs|] == j;
  }

  lemma StillExplained(jobs: seq<Job>, j: Job, m: Job)
    requires JobExplained(jobs, m)
    ensures JobExplained(jobs + [j], m)
  {
    forall p | p in m.files ensures Explained(jobs + [j], m, p) {
      ExplainedGrows(jobs, j, m, m, p);
    }
  }

  lemma LastExplained(jobs: seq<Job>, j: Job)
    ensures JobExplained(jobs + [j], j)
  {
    forall p | p in j.files ensures Explained(jobs + [j], j, p) {
      ExplainedByLast(jobs, j, j, p);
    }
  }

  lemma MergeExplained(jobs: seq<Job>, g: Job, j: Job)
    requires JobExplained(jobs, g) && g.config == j.config
    ensures JobExplained(jobs + [j], Merge(g, j))
  {
    var m := Merge(g, j);
    forall p | p in m.files ensures Explained(jobs + [j], m, p) {
      if p in g.files && g.files[p] == m.files[p] {
        ExplainedGrows(jobs, j, g, m, p);
      } else {
        ExplainedByLast(jobs, j, m, p);
      }
    }
  }

  /** One step of the grouping loop, on the group of the job's configuration. */
  function AddToGroup(group: seq<Job>, j: Job, mergeable: bool): (r: seq<Job>)
    requires mergeable ==> |group| <= 1
    requires forall i :: 0 <= i < |group| ==> group[i].config == j.config
  {
    if mergeable && |group| == 1 then [Merge(group[0], j)] else group + [j]
  }

  ghost predicate Extends(jobs: seq<Job>, group: seq<Job>, j: Job, r: seq<Job>) {
    GroupExplained(jobs + [j], r) && Absorbed(j, r) && AllAbsorbed(group, r)
  }

  lemma MergedGroupExtends(jobs: seq<Job>, g: Job, j: Job)
    requires g.config == j.config && JobExplained(jobs, g)
    ensures Extends(jobs, [g], j, [Merge(g, j)])
  {
    MergeExplained(jobs, g, j);
    var r := [Merge(g, j)];
    assert PartOf(j, r[0]) && PartOf(g, r[0]);
  }

  lemma AppendedGroupExtends(jobs: seq<Job>, group: seq<Job>, j: Job)
    requires GroupExplained(jobs, group)
    ensures Extends(jobs, group, j, group + [j])
  {
    var r := group + [j];
    LastExplained(jobs, j);
    assert PartOf(j, r[|group|]);
    forall i | 0 <= i < |group|
      ensures JobExplained(jobs + [j], r[i]) && Absorbed(group[i], r)
    {
      StillExplained(jobs, j, group[i]);
      assert PartOf(group[i], r[i]);
    }
  }

  lemma AddToGroupExtends(jobs: seq<Job>, group: seq<Job>, j: Job, mergeable: bool)
    requires mergeable ==> |group| <= 1
    requires forall i :: 0 <= i < |group| ==> group[i].config == j.config
    requires GroupExplained(jobs, group)
    ensures Extends(jobs, group, j, AddToGroup(group, j, mergeable))
  {
    if mergeable && |group| == 1 {
      assert group == [group[0]];
      MergedGroupExtends(jobs, group[0], j);
    } else {
      AppendedGroupExtends(jobs, group, j);
    }
  }

  ghost predicate Ordered(order: seq<SolcConfig>, groups: Groups) {
    && Distinct(order)
    && (forall i :: 0 <= i < |order| ==> order[i] in groups)
    && (forall c :: c in groups ==> c in order)
  }

  ghost predicate Grouped(jobs: seq<Job>, groups: Groups, mergeable: SolcConfig -> bool) {
    && WellGrouped(groups, mergeable)
    && GroupsExplained(jobs, groups)
    && GroupsAbsorb(jobs, groups)
    && KeepsUnmergeable(jobs, groups, mergeable)
  }

  function GroupFor(groups: Groups, c: SolcConfig): seq<Job> {
    if c in groups then groups[c] else []
  }

  /** `mergeCompilationJobs`: jobs with the same mergeable configuration become one. */
  method MergeJobs(jobs: seq<Job>, mergeable: SolcConfig -> bool) returns (merged: seq<Job>)
    ensures MergedAs(jobs, merged, mergeable)
  {
    var groups: Groups := map[];
    var order: seq<SolcConfig> := [];
    for n := 0 to |jobs|
      invariant OrderedGroups(jobs[..n], order, groups, mergeable)
    {
      var j := jobs[n];
      assert jobs[..n + 1] == jobs[..n] + [j];
      OrderedGroupsStep(jobs[..n], j, order, groups, mergeable);
      order := if j.config in groups then order else order + [j.config];
      groups := groups[j.config := AddToGroup(GroupFor(groups, j.config), j, mergeable(j.config))];
    }
    assert jobs[..|jobs|] == jobs;
    merged := Flatten(order, groups);
    FlattenedIsMerged(jobs, order, groups, mergeable);
  }

  /**
   Mergeable configurations end up with one job each, of all the others the jobs stay as they are, as
   often and in the order they were, and no work is lost.
   */
  ghost predicate MergedAs(jobs: seq<Job>, merged: seq<Job>, mergeable: SolcConfig -> bool) {
    && Merges(jobs, merged)
    && OnePerMergeable(merged, mergeable)
    && forall c :: !mergeable(c) ==> Filter(merged, Uses(c)) == Filter(jobs, Uses(c))
  }

  function Uses(c: SolcConfig): Job -> bool {
    (j: Job) => j.config == c
  }

  ghost predicate OrderedGroups(jobs: seq<Job>, order: seq<SolcConfig>, groups: Groups, mergeable: SolcConfig -> bool) {
    Grouped(jobs, groups, mergeable) && Ordered(order, groups)
  }

  lemma OrderedGroupsStep(jobs: seq<Job>, j: Job, order: seq<SolcConfig>, groups: Groups, mergeable: SolcConfig -> bool)
    requires OrderedGroups(jobs, order, groups, mergeable)
    ensures
      var group := GroupFor(groups, j.config);
      && (mergeable(j.config) ==> |group| <= 1)
      && (forall i :: 0 <= i < |group| ==> group[i].config == j.config)
      && OrderedGroups(jobs + [j],
                       if j.config in groups then order else order + [j.config],
                       groups[j.config := AddToGroup(group, j, mergeable(j.config))], mergeable)
  {
    GroupedStep(jobs, j, groups, mergeable);
    OrderedStep(order, groups, j.config, AddToGroup(GroupFor(groups, j.config), j, mergeable(j.config)));
  }

  lemma OrderedStep(order: seq<SolcConfig>, groups: Groups, c: SolcConfig, next: seq<Job>)
    requires Ordered(order, groups)
    ensures Ordered(if c in groups then order else order + [c], groups[c := next])
  {}

  lemma FlattenedIsMerged(jobs: seq<Job>, order: seq<SolcConfig>, groups: Groups, mergeable: SolcConfig -> bool)
    requires OrderedGroups(jobs, order, groups, mergeable)
    ensures Ordered(order, groups) && MergedAs(jobs, Flatten(order, groups), mergeable)
  {
    FlattenedMerges(jobs, order, groups, mergeable);
    FlattenedOnce(order, groups, mergeable);
    FlattenedKeepsUnmergeable(jobs, order, groups, mergeable);
  }

  lemma FlattenedKeepsUnmergeable(jobs: seq<Job>, order: seq<SolcConfig>, groups: Groups, mergeable: SolcConfig -> bool)
    requires Ordered(order, groups) && WellGrouped(groups, mergeable) && KeepsUnmergeable(jobs, groups, mergeable)
    ensures forall c :: !mergeable(c) ==> Filter(Flatten(order, groups), Uses(c)) == Filter(jobs, Uses(c))
  {
    forall c | !mergeable(c) ensures Filter(Flatten(order, groups), Uses(c)) == Filter(jobs, Uses(c)) {
      FlattenedUses(order, groups, mergeable, c);
    }
  }

  /** The jobs of a configuration are its group. */
  lemma {:induction false} FlattenedUses(order: seq<SolcConfig>, groups: Groups, mergeable: SolcConfig -> bool, c: SolcConfig)
    requires WellGrouped(groups, mergeable) && Distinct(order)
    requires forall i :: 0 <= i < |order| ==> order[i] in groups
    ensures Filter(Flatten(order, groups), Uses(c)) == if c in order then groups[c] else []
  {
    if order != [] {
      var first := groups[order[0]];
      FlattenedUses(order[1..], groups, mergeable, c);
      FilterConcat(first, Flatten(order[1..], groups), Uses(c));
      if c == order[0] {
        FilterAll(first, Uses(c));
        assert c !in order[1..] && first + [] == first;
      } else {
        FilterNone(first, Uses(c));
        assert c in order <==> c in order[1..];
      }
    }
  }

  lemma StillKeepsUnmergeable(jobs: seq<Job>, j: Job, groups: Groups, mergeable: SolcConfig -> bool)
    requires WellGrouped(groups, mergeable) && KeepsUnmergeable(jobs, groups, mergeable)
    ensures
      var group := GroupFor(groups, j.config);
      && (mergeable(j.config) ==> |group| <= 1)
      && (forall i :: 0 <= i < |group| ==> group[i].config == j.config)
      && KeepsUnmergeable(jobs + [j], groups[j.config := AddToGroup(group, j, mergeable(j.config))], mergeable)
  {
    forall c ensures Filter(jobs + [j], Uses(c)) == if j.config == c then Filter(jobs, Uses(c)) + [j] else Filter(jobs, Uses(c)) {
      FilterSnoc(jobs, j, Uses(c));
    }
  }

  /** No two jobs share a mergeable configuration. */
  ghost predicate OnePerMergeable(merged: seq<Job>, mergeable: SolcConfig -> bool) {
    forall i, j :: 0 <= i < j < |merged| && mergeable(merged[i].config) ==> merged[i].config != merged[j].config
  }

  ghost predicate KeepsUnmergeable(jobs: seq<Job>, groups: Groups, mergeable: SolcConfig -> bool) {
    forall c :: !mergeable(c) ==> GroupFor(groups, c) == Filter(jobs, Uses(c))
  }

  lemma {:induction false} FlattenedOnce(order: seq<SolcConfig>, groups: Groups, mergeable: SolcConfig -> bool)
    requires WellGrouped(groups, mergeable) && Distinct(order)
    requires forall i :: 0 <= i < |order| ==> order[i] in groups
    ensures OnePerMergeable(Flatten(order, groups), mergeable)
  {
    if order != [] {
      var first, rest := groups[order[0]], Flatten(order[1..], groups);
      FlattenedOnce(order[1..], groups, mergeable);
      forall j | 0 <= j < |rest| ensures rest[j].config != order[0] {
        FlattenHas(order[1..], groups, rest[j]);
      }
    }
  }

  ghost predicate Distinct(order: seq<SolcConfig>) {
    forall i, j :: 0 <= i < j < |order| ==> order[i] != order[j]
  }

  lemma GroupedStep(jobs: seq<Job>, j: Job, groups: Groups, mergeable: SolcConfig -> bool)
    requires Grouped(jobs, groups, mergeable)
    ensures
      var group := GroupFor(groups, j.config);
      && (mergeable(j.config) ==> |group| <= 1)
      && (forall i :: 0 <= i < |group| ==> group[i].config == j.config)
      && Grouped(jobs + [j], groups[j.config := AddToGroup(group, j, mergeable(j.config))], mergeable)
  {
    var group := GroupFor(groups, j.config);
    assert GroupExplained(jobs, group);
    AddToGroupExtends(jobs, group, j, mergeable(j.config));
    var next := AddToGroup(group, j, mergeable(j.config));
    OthersExplained(jobs, j, groups, next);
    OthersAbsorbed(jobs, j, groups, next);
    StillWellGrouped(groups, j, mergeable);
    StillKeepsUnmergeable(jobs, j, groups, mergeable);
  }

  lemma StillWellGrouped(groups: Groups, j: Job, mergeable: SolcConfig -> bool)
    requires WellGrouped(groups, mergeable)
    ensures
      var group := GroupFor(groups, j.config);
      && (mergeable(j.config) ==> |group| <= 1)
      && (forall i :: 0 <= i < |group| ==> group[i].config == j.config)
      && WellGrouped(groups[j.config := AddToGroup(group, j, mergeable(j.config))], mergeable)
  {}

  lemma OthersExplained(jobs: seq<Job>, j: Job, groups: Groups, next: seq<Job>)
    requires GroupsExplained(jobs, groups) && GroupExplained(jobs + [j], next)
    ensures GroupsExplained(jobs + [j], groups[j.config := next])
  {
    forall c, i | c in groups && c != j.config && 0 <= i < |groups[c]|
      ensures JobExplained(jobs + [j], groups[c][i])
    {
      assert GroupExplained(jobs, groups[c]);
      StillExplained(jobs, j, groups[c][i]);
    }
  }

  lemma OthersAbsorbed(jobs: seq<Job>, j: Job, groups: Groups, next: seq<Job>)
    requires GroupsAbsorb(jobs, groups)
    requires Absorbed(j, next) && AllAbsorbed(GroupFor(groups, j.config), next)
    ensures GroupsAbsorb(jobs + [j], groups[j.config := next])
  {}

  lemma FlattenedMerges(jobs: seq<Job>, order: seq<SolcConfig>, groups: Groups, mergeable: SolcConfig -> bool)
    requires Grouped(jobs, groups, mergeable) && Ordered(order, groups)
    ensures Merges(jobs, Flatten(order, groups))
  {
    var merged := Flatten(order, groups);
    forall i | 0 <= i < |merged|
      ensures JobExplained(jobs, merged[i])
    {
      FlattenHas(order, groups, merged[i]);
      var k :| 0 <= k < |order| && merged[i] in groups[order[k]];
      assert GroupExplained(jobs, groups[order[k]]);
    }
    forall i | 0 <= i < |jobs|
      ensures Absorbed(jobs[i], merged)
    {
      FlattenedAbsorbs(jobs[i], order, groups);
    }
  }

  lemma FlattenedAbsorbs(j: Job, order: seq<SolcConfig>, groups: Groups)
    requires Ordered(order, groups) && j.config in groups && Absorbed(j, groups[j.config])
    ensures Absorbed(j, Flatten(order, groups))
  {
    var merged, group := Flatten(order, groups), groups[j.config];
    var k :| 0 <= k < |group| && PartOf(j, group[k]);
    FlattenHas(order, groups, group[k]);
    var n :| 0 <= n < |order| && order[n] == j.config;
    assert group[k] in groups[order[n]];
    var i :| 0 <= i < |merged| && merged[i] == group[k];
  }

  // --------------------------------------------------------------------- the compile task

  class CompileTask {
    const tc: Toolchain
    var cacheFile: Cache
    var cache: Cache  // the cache while a run works on it
    var disk: Disk
    /** `_validArtifacts`: only ever grows while the process lives. */
    var valid: set<ArtifactPath>

    ghost function Now(): State
      reads this
    {
      State(cacheFile, disk)
    }

    constructor (tc: Toolchain, cacheFile: Cache, disk: Disk)
      ensures this.tc == tc && Now() == State(cacheFile, disk) && valid == {}
    {
      this.tc, this.cacheFile, this.cache, this.disk, this.valid := tc, cacheFile, map[], disk, {};
    }

    method RemoveNonExistingFiles(existing: set<FilePath>)
      modifies this`cache
      ensures cache == OnlyExisting(old(cache), existing)
    {
      var todo := cache.Keys;
      while todo != {}
        invariant todo <= old(cache).Keys
        invariant cache == map p | p in old(cache) && (p in existing || p in todo) :: old(cache)[p]
      {
        var p :| p in todo;
        if p !in existing {
          cache := cache - {p};
        }
        todo := todo - {p};
      }
    }

    method InvalidateCacheMissingArtifacts(files: set<FilePath>)
      modifies this`cache
      ensures cache == Invalidate(old(cache), disk, files)
    {
      var todo := files;
      while todo != {}
        invariant todo <= files
        invariant cache == Invalidate(old(cache), disk, files - todo)
      {
        var p :| p in todo;
        ghost var done := files - todo;
        if p in cache {
          var missing := SomeMissing(p, cache[p].artifacts);
          if missing {
            cache := cache - {p};
          }
        }
        todo := todo - {p};
        assert files - todo == done + {p};
      }
      assert files - {} == files;
    }

    /** The inner loop, which stops at the first missing artifact. */
    method SomeMissing(p: FilePath, artifacts: set<ContractName>) returns (missing: bool)
      ensures missing == !AllOnDisk(disk, p, artifacts)
    {
      var todo := artifacts;
      while todo != {}
        invariant todo <= artifacts && AllOnDisk(disk, p, artifacts - todo)
      {
        var c :| c in todo;
        if ArtifactPath(p, c) !in disk {
          return true;
        }
        todo := todo - {c};
      }
      return false;
    }

    /** `needsCompilation`: stops at the first changed file. */
    method CheckJob(job: Job) returns (needed: bool)
      ensures needed == NeedsCompilation(tc, job, cache)
    {
      var todo := job.files.Keys;
      while todo != {}
        invariant todo <= job.files.Keys
        invariant forall p :: p in job.files && p !in todo ==> !HasFileChanged(tc, cache, p, job.files[p], job.config)
      {
        var p :| p in todo;
        if HasFileChanged(tc, cache, p, job.files[p], job.config) {
          return true;
        }
        todo := todo - {p};
      }
      return false;
    }

    method FilterJobs(jobs: seq<Job>, force: bool) returns (needed: seq<Job>)
      ensures needed == NeededJobs(tc, jobs, cache, force)
    {
      if force {
        return jobs;
      }
      needed := [];
      for i := 0 to |jobs|
        invariant needed == NeededJobs(tc, jobs[..i], cache, false)
      {
        assert jobs[..i + 1][..i] == jobs[..i] && jobs[..i + 1][i] == jobs[i];
        var changed := CheckJob(jobs[i]);
        if changed {
          needed := needed + [jobs[i]];
        }
      }
      assert jobs[..|jobs|] == jobs;
    }

    /** Saves the artifacts of one job, file by file and contract by contract. */
    method EmitArtifacts(job: Job)
      modifies this`disk
      ensures disk == old(disk) + EmittedArtifacts(tc, job)
    {
      var todo := set p | p in job.files.Keys && job.files[p].emits;
      ghost var all := EmittedArtifacts(tc, job);
      while todo != {}
        invariant forall p :: p in todo ==> p in job.files && job.files[p].emits
        invariant Overlaid(old(disk), disk, all, todo)
      {
        var p :| p in todo;
        ghost var before := disk;
        EmitFile(p, OutputOf(tc, job, p));
        OverlaidStep(old(disk), before, disk, job, todo, p);
        todo := todo - {p};
      }
      OverlaidDone(old(disk), disk, all);
    }

    lemma OverlaidDone(before: Disk, now: Disk, all: Disk)
      requires Overlaid(before, now, all, {})
      ensures now == before + all
    {}

    /** `now` is `before` with those of `all` written over it that belong to files done. */
    ghost static predicate Overlaid(before: Disk, now: Disk, all: Disk, todo: set<FilePath>) {
      && (forall a: ArtifactPath :: a in now <==> a in before || (a in all && a.file !in todo))
      && (forall a :: a in now ==> now[a] == if a in all && a.file !in todo then all[a] else before[a])
    }

    /** `now` is `before` with the output of one file written over it. */
    ghost static predicate Wrote(before: Disk, now: Disk, p: FilePath, output: map<ContractName, Artifact>) {
      && (forall a: ArtifactPath :: a in now <==> a in before || (a.file == p && a.contract in output))
      && (forall a :: a in now ==> now[a] == if a.file == p && a.contract in output then output[a.contract] else before[a])
    }

    lemma EmittedOf(job: Job, a: ArtifactPath)
      requires Emits(job, a.file)
      ensures a in EmittedArtifacts(tc, job) <==> a.contract in OutputOf(tc, job, a.file)
      ensures a in EmittedArtifacts(tc, job) ==> EmittedArtifacts(tc, job)[a] == OutputOf(tc, job, a.file)[a.contract]
    {}

    lemma OverlaidStep(start: Disk, before: Disk, now: Disk, job: Job, todo: set<FilePath>, p: FilePath)
      requires p in todo && Emits(job, p)
      requires Overlaid(start, before, EmittedArtifacts(tc, job), todo)
      requires Wrote(before, now, p, OutputOf(tc, job, p))
      ensures Overlaid(start, now, EmittedArtifacts(tc, job), todo - {p})
    {
      var all := EmittedArtifacts(tc, job);
      forall a: ArtifactPath
        ensures a in now <==> a in start || (a in all && a.file !in todo - {p})
        ensures a in now ==> now[a] == if a in all && a.file !in todo - {p} then all[a] else start[a]
      {
        if a.file == p { EmittedOf(job, a); }
      }
    }

    method EmitFile(p: FilePath, output: map<ContractName, Artifact>)
      modifies this`disk
      ensures Wrote(old(disk), disk, p, output)
    {
      var todo := output.Keys;
      while todo != {}
        invariant todo <= output.Keys
        invariant forall a: ArtifactPath :: a in disk <==>
          a in old(disk) || (a.file == p && a.contract in output && a.contract !in todo)
        invariant forall a :: a in disk ==>
          disk[a] == if a.file == p && a.contract in output && a.contract !in todo then output[a.contract] else old(disk)[a]
      {
        var c :| c in todo;
        disk := disk[ArtifactPath(p, c) := output[c]];
        todo := todo - {c};
      }
    }

    /** Every job is tried, whatever happens to the others. */
    method CompileJobs(jobs: seq<Job>) returns (ok: bool)
      modifies this`disk
      ensures disk == WriteJobs(tc, old(disk), AcceptedJobs(tc, jobs))
      ensures ok == AllAccepted(tc, jobs)
    {
      ok := true;
      for i := 0 to |jobs|
        invariant WriteJobs(tc, disk, AcceptedJobs(tc, jobs[i..])) == WriteJobs(tc, old(disk), AcceptedJobs(tc, jobs))
        invariant ok == AllAccepted(tc, jobs[..i])
      {
        NextJob(tc, disk, jobs, i);
        if Accepted(tc, jobs[i]) {
          EmitArtifacts(jobs[i]);
        } else {
          ok := false;
        }
      }
      assert jobs[..|jobs|] == jobs;
    }

    static lemma NextJob(tc: Toolchain, disk: Disk, jobs: seq<Job>, i: nat)
      requires i < |jobs|
      ensures WriteJobs(tc, disk, AcceptedJobs(tc, jobs[i..])) ==
        WriteJobs(tc, if Accepted(tc, jobs[i]) then disk + EmittedArtifacts(tc, jobs[i]) else disk, AcceptedJobs(tc, jobs[i + 1..]))
      ensures AllAccepted(tc, jobs[..i + 1]) <==> AllAccepted(tc, jobs[..i]) && Accepted(tc, jobs[i])
    {
      var rest := AcceptedJobs(tc, jobs[i + 1..]);
      assert jobs[i..][0] == jobs[i] && jobs[i..][1..] == jobs[i + 1..];
      if Accepted(tc, jobs[i]) {
        assert AcceptedJobs(tc, jobs[i..]) == [jobs[i]] + rest && ([jobs[i]] + rest)[0] == jobs[i] && ([jobs[i]] + rest)[1..] == rest;
      } else {
        assert AcceptedJobs(tc, jobs[i..]) == [] + rest == rest;
      }
      assert forall k :: 0 <= k < i ==> jobs[..i + 1][k] == jobs[..i][k];
      assert jobs[..i + 1][i] == jobs[i];
    }

    method UpdateCache(jobs: seq<Job>)
      modifies this`cache
      ensures cache == CacheJobs(tc, old(cache), jobs)
    {
      for i := 0 to |jobs|
        invariant CacheJobs(tc, cache, jobs[i..]) == CacheJobs(tc, old(cache), jobs)
      {
        assert jobs[i..][0] == jobs[i] && jobs[i..][1..] == jobs[i + 1..];
        AddFiles(jobs[i]);
      }
    }

    method AddFiles(job: Job)
      modifies this`cache
      ensures cache == old(cache) + EmittedEntries(tc, job)
    {
      var todo := set p | p in job.files.Keys && job.files[p].emits;
      ghost var all := EmittedEntries(tc, job);
      while todo != {}
        invariant todo <= all.Keys
        invariant cache.Keys == old(cache).Keys + (all.Keys - todo)
        invariant forall p :: p in cache ==> cache[p] == if p in all && p !in todo then all[p] else old(cache)[p]
      {
        var p :| p in todo;
        cache := cache[p := CacheEntry(tc.hash(job.files[p].content), job.config, OutputOf(tc, job, p).Keys)];
        todo := todo - {p};
      }
    }

    /** Fails without deleting anything when a valid artifact is missing. */
    method RemoveObsoleteArtifacts() returns (ok: bool)
      modifies this`disk
      ensures ok == (valid <= old(disk).Keys)
      ensures disk == if ok then KeepOnly(old(disk), valid) else old(disk)
    {
      if !(valid <= disk.Keys) {
        return false;
      }
      var todo := disk.Keys - valid;
      while todo != {}
        invariant todo <= old(disk).Keys - valid
        invariant disk == map a | a in old(disk) && (a in valid || a in todo) :: old(disk)[a]
      {
        var a :| a in todo;
        disk := disk - {a};
        todo := todo - {a};
      }
      return true;
    }

    /** The whole compile task. The cache file is written only if all jobs compiled. */
    method Run(r: Run, mergeable: SolcConfig -> bool) returns (ending: Ending, ghost merged: seq<Job>)
      modifies this
      ensures MergedAs(JobsToDo(tc, old(Now()), r), merged, mergeable)
      ensures Compile(tc, old(Now()), r, merged, old(valid)) == Outcome(Now(), valid, ending)
    {
      ghost var s := Now();
      cache := cacheFile;
      RemoveNonExistingFiles(r.existing);
      InvalidateCacheMissingArtifacts(r.project.Keys);
      assert cache == CheckedCache(s, r) && disk == s.disk;
      var needed := FilterJobs(r.jobs, r.force);
      assert needed == JobsToDo(tc, s, r);
      var mergedJobs := MergeJobs(needed, mergeable);
      merged := mergedJobs;
      var compiled := CompileJobs(mergedJobs);
      if !compiled {
        return JobFailed, merged;
      }
      UpdateCache(mergedJobs);
      cacheFile := cache;
      valid := valid + RecordedPaths(cache);
      var removed := RemoveObsoleteArtifacts();
      ending := if removed then Succeeded else ArtifactMissing;
    }
  }
}
