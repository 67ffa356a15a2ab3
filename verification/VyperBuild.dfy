/**
 Whole runs of the Vyper compile task: invalidate, group, compile every group, and
 record what was compiled. When is a skipped file what a clean build would leave?
 */
module VyperBuild {
  import opened Wrappers
  import opened JsStrings
  import opened ContractNames
  import opened Vyper

  type Sources = map<FilePath, JsString>
  type Disk = map<JsString, JsString>  // artifacts by fully qualified name

  /** What the compiler makes of one file. */
  datatype Output = Output(contract: JsString, artifact: JsString)

  /**
   Source names, hashes, pragmas and imports, and the compilers: what the one of a configured
   version makes of a file among others, and the version it reports.
   */
  datatype Tools = Tools(
    nameOf: FilePath -> JsString,
    reader: Reader,
    imports: (FilePath, JsString) -> set<FilePath>,
    compile: (Version, Sources, FilePath) -> Output,
    reports: Version -> Version
  )

  /** Different files have different source names, and contract names have no colon. */
  ghost predicate Sane(t: Tools) {
    && (forall p, q :: t.nameOf(p) == t.nameOf(q) ==> p == q)
    && (forall v, src, p :: COLON !in t.compile(v, src, p).contract)
  }

  datatype State = State(entries: Entries, disk: Disk)

  function FqnOf(t: Tools, p: FilePath, contract: JsString): JsString {
    GetFullyQualifiedName(t.nameOf(p), contract)
  }

  lemma FqnInjective(t: Tools, p: FilePath, c: JsString, q: FilePath, d: JsString)
    requires Sane(t) && COLON !in c && COLON !in d && FqnOf(t, p, c) == FqnOf(t, q, d)
    ensures p == q && c == d
  {
    ParsePrinted(t.nameOf(p), c);
    ParsePrinted(t.nameOf(q), d);
  }

  /** The file as the resolver hands it over. */
  function Resolved(t: Tools, src: Sources, p: FilePath): File
    requires p in src
  {
    File(p, t.nameOf(p), t.reader.hash(src[p]), t.reader.pragma(src[p]))
  }

  /** The entry recorded for a file compiled with version `v`. */
  function EntryOf(t: Tools, v: Version, src: Sources, p: FilePath): Entry
    requires p in src
  {
    Entry(t.reader.hash(src[p]), t.nameOf(p), t.reports(v), t.reader.pragma(src[p]), [t.compile(v, src, p).contract])
  }

  /** `artifactExists`: true or an error. */
  function Existing(disk: Disk): Lookup {
    name => if name in disk then Ok(true) else Err(Thrown)
  }

  // -------------------------------------------------------------------- compiling

  function Write(t: Tools, src: Sources, s: State, v: Version, p: FilePath): State
    requires p in src
  {
    var output := t.compile(v, src, p);
    State(s.entries[p := EntryOf(t, v, src, p)], s.disk[FqnOf(t, p, output.contract) := output.artifact])
  }

  function WriteGroup(t: Tools, src: Sources, s: State, v: Version, files: seq<File>): State
    requires forall i :: 0 <= i < |files| ==> files[i].path in src
  {
    if files == [] then s
    else Write(t, src, WriteGroup(t, src, s, v, files[..|files| - 1]), v, files[|files| - 1].path)
  }

  ghost predicate GroupsIn(src: Sources, groups: map<Version, seq<File>>) {
    forall v :: v in groups ==> forall i :: 0 <= i < |groups[v]| ==> groups[v][i].path in src
  }

  function WriteGroups(t: Tools, src: Sources, s: State, order: seq<Version>, groups: map<Version, seq<File>>): State
    requires GroupsIn(src, groups) && forall i :: 0 <= i < |order| ==> order[i] in groups
  {
    if order == [] then s
    else
      var v := order[|order| - 1];
      WriteGroup(t, src, WriteGroups(t, src, s, order[..|order| - 1], groups), v, groups[v])
  }

  /** The loops over groups and files, on the cache object and the disk. */
  method CompileGroups(t: Tools, src: Sources, cache: VyperFilesCache, disk: Disk, order: seq<Version>, groups: map<Version, seq<File>>)
    returns (written: Disk)
    requires GroupsIn(src, groups) && forall i :: 0 <= i < |order| ==> order[i] in groups
    modifies cache
    ensures State(cache.files, written) == WriteGroups(t, src, State(old(cache.files), disk), order, groups)
  {
    written := disk;
    for i := 0 to |order|
      invariant State(cache.files, written) == WriteGroups(t, src, State(old(cache.files), disk), order[..i], groups)
    {
      assert order[..i + 1][..i] == order[..i] && order[..i + 1][i] == order[i];
      written := CompileGroup(t, src, cache, written, order[i], groups[order[i]]);
    }
    assert order[..|order|] == order;
  }

  method CompileGroup(t: Tools, src: Sources, cache: VyperFilesCache, disk: Disk, v: Version, files: seq<File>) returns (written: Disk)
    requires forall i :: 0 <= i < |files| ==> files[i].path in src
    modifies cache
    ensures State(cache.files, written) == WriteGroup(t, src, State(old(cache.files), disk), v, files)
  {
    written := disk;
    for k := 0 to |files|
      invariant State(cache.files, written) == WriteGroup(t, src, State(old(cache.files), disk), v, files[..k])
    {
      assert files[..k + 1][..k] == files[..k] && files[..k + 1][k] == files[k];
      var p := files[k].path;
      var output := t.compile(v, src, p);
      written := written[FqnOf(t, p, output.contract) := output.artifact];
      cache.AddFile(p, EntryOf(t, v, src, p));
    }
    assert files[..|files|] == files;
  }

  // ------------------------------------------------------------------- a whole run

  /** One run: the sources, the files that exist, how versions are picked, and the order in which groups are compiled. */
  datatype Run = Run(src: Sources, existing: set<FilePath>, files: seq<File>, pick: MaxSatisfying, order: seq<Version>)

  function Remaining(s: State, r: Run): Entries {
    map p | p in s.entries && p in r.existing :: s.entries[p]
  }

  ghost predicate Holds(files: seq<File>, p: FilePath) {
    exists i :: 0 <= i < |files| && files[i].path == p
  }

  ghost predicate NoRepeats<T(!new)>(xs: seq<T>) {
    forall i, j :: 0 <= i < j < |xs| ==> xs[i] != xs[j]
  }

  /** Every source is resolved once, and every group is compiled once. */
  ghost predicate ValidRun(t: Tools, s: State, r: Run) {
    && r.src.Keys <= r.existing && (forall p :: p in r.src ==> Holds(r.files, p))
    && (forall i :: 0 <= i < |r.files| ==> r.files[i].path in r.src && r.files[i] == Resolved(t, r.src, r.files[i].path))
    && (forall i, j :: 0 <= i < j < |r.files| ==> r.files[i].path != r.files[j].path)
    && (Checked(s, r).Ok? ==>
          && NoRepeats(r.order)
          && forall v :: v in r.order <==> v in PlaceAll(Checked(s, r).value, r.pick, r.files).groups)
  }

  /** The entries the skip decision looks at, or the error of a missing artifact. */
  function Checked(s: State, r: Run): Result<Entries, Error> {
    Invalidate(Existing(s.disk), Remaining(s, r), r.files)
  }

  lemma GroupsAreIn(t: Tools, s: State, r: Run, entries: Entries)
    requires ValidRun(t, s, r)
    ensures GroupsIn(r.src, PlaceAll(entries, r.pick, r.files).groups)
  {
    var groups: map<Version, seq<File>> := PlaceAll(entries, r.pick, r.files).groups;
    PlacedByFate(entries, r.pick, r.files);
    forall v: Version, i: int | v in groups && 0 <= i < |groups[v]| ensures groups[v][i].path in r.src {
      assert GroupFor(groups, v) == WithFate(entries, r.pick, r.files, Compiled(v));
      ExactlyOneFate(entries, r.pick, r.files, Compiled(v), groups[v][i]);
    }
  }

  /** It fails if an artifact of a cached file is missing or a file has no compiler. */
  ghost function Compile(t: Tools, s: State, r: Run): Result<State, Error>
    requires ValidRun(t, s, r)
  {
    if Checked(s, r).Err? then Err(Thrown)
    else
      var entries := Checked(s, r).value;
      var placed := PlaceAll(entries, r.pick, r.files);
      GroupsAreIn(t, s, r, entries);
      if placed.unmatched != [] then Err(Thrown)
      else
        assert forall i :: 0 <= i < |r.order| ==> r.order[i] in r.order;
        Ok(WriteGroups(t, r.src, State(entries, s.disk), r.order, placed.groups))
  }

  // ------------------------------------------------------ what it does to one file

  /** The entry and the artifact of `p` are what version `v` makes of it in `src`. */
  ghost predicate Made(t: Tools, s: State, p: FilePath, v: Version, src: Sources) {
    && p in src && p in s.entries && s.entries[p] == EntryOf(t, v, src, p)
    && var output := t.compile(v, src, p);
       FqnOf(t, p, output.contract) in s.disk ==> s.disk[FqnOf(t, p, output.contract)] == output.artifact
  }

  /** Nothing changed at `p`. */
  ghost predicate SameAt(t: Tools, s: State, s': State, p: FilePath) {
    && (p in s.entries <==> p in s'.entries) && (p in s.entries ==> s.entries[p] == s'.entries[p])
    && forall c :: COLON !in c ==>
         && (FqnOf(t, p, c) in s.disk <==> FqnOf(t, p, c) in s'.disk)
         && (FqnOf(t, p, c) in s.disk ==> s.disk[FqnOf(t, p, c)] == s'.disk[FqnOf(t, p, c)])
  }

  /** `p` was compiled with version `v`: entry and artifact are there. */
  ghost predicate Fresh(t: Tools, s: State, p: FilePath, v: Version, src: Sources) {
    Made(t, s, p, v, src) && FqnOf(t, p, t.compile(v, src, p).contract) in s.disk
  }

  lemma WriteAt(t: Tools, src: Sources, s: State, v: Version, q: FilePath, p: FilePath)
    requires Sane(t) && q in src
    ensures p == q ==> Fresh(t, Write(t, src, s, v, q), p, v, src)
    ensures p != q ==> SameAt(t, s, Write(t, src, s, v, q), p)
  {
    var written := FqnOf(t, q, t.compile(v, src, q).contract);
    if p != q {
      forall c | COLON !in c ensures FqnOf(t, p, c) != written {
        if FqnOf(t, p, c) == written {
          FqnInjective(t, p, c, q, t.compile(v, src, q).contract);
        }
      }
    }
  }

  lemma SameAtTransitive(t: Tools, a: State, b: State, c: State, p: FilePath)
    requires SameAt(t, a, b, p) && SameAt(t, b, c, p)
    ensures SameAt(t, a, c, p)
  {}

  lemma FreshStays(t: Tools, s: State, s': State, p: FilePath, v: Version, src: Sources)
    requires Sane(t) && Fresh(t, s, p, v, src) && SameAt(t, s, s', p)
    ensures Fresh(t, s', p, v, src)
  {
    assert COLON !in t.compile(v, src, p).contract;
  }

  lemma {:induction false} WriteGroupAt(t: Tools, src: Sources, s: State, v: Version, files: seq<File>, p: FilePath)
    requires Sane(t) && forall i :: 0 <= i < |files| ==> files[i].path in src
    ensures Holds(files, p) ==> Fresh(t, WriteGroup(t, src, s, v, files), p, v, src)
    ensures !Holds(files, p) ==> SameAt(t, s, WriteGroup(t, src, s, v, files), p)
  {
    if files != [] {
      var init, last := files[..|files| - 1], files[|files| - 1];
      var before := WriteGroup(t, src, s, v, init);
      WriteGroupAt(t, src, s, v, init, p);
      WriteAt(t, src, before, v, last.path, p);
      HoldsLast(files, p);
      if p != last.path {
        if Holds(init, p) {
          FreshStays(t, before, WriteGroup(t, src, s, v, files), p, v, src);
        } else {
          SameAtTransitive(t, s, before, WriteGroup(t, src, s, v, files), p);
        }
      }
    }
  }

  lemma HoldsLast(files: seq<File>, p: FilePath)
    requires files != []
    ensures Holds(files, p) <==> Holds(files[..|files| - 1], p) || files[|files| - 1].path == p
  {
    var init := files[..|files| - 1];
    if Holds(init, p) {
      var i :| 0 <= i < |init| && init[i].path == p;
      assert files[i].path == p;
    }
    if i :| 0 <= i < |files| && files[i].path == p {
      if i < |init| { assert init[i].path == p; }
    }
  }

  lemma {:induction false} WriteGroupsAt(t: Tools, src: Sources, s: State, order: seq<Version>, groups: map<Version, seq<File>>, p: FilePath, v: Version)
    requires Sane(t) && GroupsIn(src, groups) && NoRepeats(order) && forall i :: 0 <= i < |order| ==> order[i] in groups
    requires forall w :: w in order && w != v ==> !Holds(groups[w], p)
    ensures
      var s' := WriteGroups(t, src, s, order, groups);
      if v in order && Holds(groups[v], p) then Fresh(t, s', p, v, src) else SameAt(t, s, s', p)
  {
    if order != [] {
      var init, w := order[..|order| - 1], order[|order| - 1];
      assert forall i :: 0 <= i < |init| ==> init[i] == order[i];
      var before := WriteGroups(t, src, s, init, groups);
      WriteGroupsAt(t, src, s, init, groups, p, v);
      assert w !in init && (v in order <==> v in init || v == w);
      assert w in order;
      WriteGroupAt(t, src, before, w, groups[w], p);
      var after := WriteGroups(t, src, s, order, groups);
      if w != v || !Holds(groups[w], p) {
        if v in init && Holds(groups[v], p) {
          FreshStays(t, before, after, p, v, src);
        } else {
          SameAtTransitive(t, s, before, after, p);
        }
      }
    }
  }

  /** A resolved file is in the group of a version exactly if that is its fate. */
  lemma InGroup(t: Tools, s: State, r: Run, entries: Entries, i: nat, v: Version)
    requires ValidRun(t, s, r) && i < |r.files|
    ensures
      var groups := PlaceAll(entries, r.pick, r.files).groups;
      (v in groups && Holds(groups[v], r.files[i].path)) <==> FateOf(entries, r.pick, r.files[i]) == Compiled(v)
  {
    var groups, f := PlaceAll(entries, r.pick, r.files).groups, r.files[i];
    PlacedByFate(entries, r.pick, r.files);
    assert GroupFor(groups, v) == WithFate(entries, r.pick, r.files, Compiled(v));
    HeldByFate(r, entries, i, v);
    assert !(v in groups) ==> GroupFor(groups, v) == [] && !Holds([], f.path);
  }

  lemma HeldByFate(r: Run, entries: Entries, i: nat, v: Version)
    requires i < |r.files| && forall i, j :: 0 <= i < j < |r.files| ==> r.files[i].path != r.files[j].path
    ensures Holds(WithFate(entries, r.pick, r.files, Compiled(v)), r.files[i].path) <==>
      FateOf(entries, r.pick, r.files[i]) == Compiled(v)
  {
    var group, f := WithFate(entries, r.pick, r.files, Compiled(v)), r.files[i];
    ExactlyOneFate(entries, r.pick, r.files, Compiled(v), f);
    if Holds(group, f.path) {
      var k :| 0 <= k < |group| && group[k].path == f.path;
      ExactlyOneFate(entries, r.pick, r.files, Compiled(v), group[k]);
      var j :| 0 <= j < |r.files| && r.files[j] == group[k];
      assert j == i;
    }
    if FateOf(entries, r.pick, f) == Compiled(v) {
      var k :| 0 <= k < |group| && group[k] == f;
      assert group[k].path == f.path;
    }
  }

  /** Compiling the groups does to a file what its fate says. */
  lemma PlacedAfter(t: Tools, s: State, r: Run, entries: Entries, i: nat)
    requires Sane(t) && ValidRun(t, s, r) && i < |r.files| && Checked(s, r) == Ok(entries)
    requires Compile(t, s, r).Ok?
    ensures
      var fate := FateOf(entries, r.pick, r.files[i]);
      if fate.Compiled? then Fresh(t, Compile(t, s, r).value, r.files[i].path, fate.version, r.src)
      else SameAt(t, State(entries, s.disk), Compile(t, s, r).value, r.files[i].path)
  {
    var f := r.files[i];
    var placed, fate := PlaceAll(entries, r.pick, r.files), FateOf(entries, r.pick, f);
    GroupsAreIn(t, s, r, entries);
    var v := if fate.Compiled? then fate.version else [];
    forall w | w in r.order && w != v ensures !Holds(placed.groups[w], f.path) {
      InGroup(t, s, r, entries, i, w);
    }
    InGroup(t, s, r, entries, i, v);
    assert forall k :: 0 <= k < |r.order| ==> r.order[k] in r.order;
    WriteGroupsAt(t, r.src, State(entries, s.disk), r.order, placed.groups, f.path, v);
  }

  /** A successful run has no unmatched file. */
  lemma NoneUnmatched(t: Tools, s: State, r: Run, i: nat)
    requires ValidRun(t, s, r) && i < |r.files| && Compile(t, s, r).Ok?
    ensures !FateOf(Checked(s, r).value, r.pick, r.files[i]).Unmatched?
  {
    PlacedByFate(Checked(s, r).value, r.pick, r.files);
    ExactlyOneFate(Checked(s, r).value, r.pick, r.files, Unmatched, r.files[i]);
  }

  /** What a successful run does to a file, by its fate. */
  lemma FileAfter(t: Tools, s: State, r: Run, i: nat)
    requires Sane(t) && ValidRun(t, s, r) && i < |r.files| && Compile(t, s, r).Ok?
    ensures
      var p := r.files[i].path;
      match FateOf(Checked(s, r).value, r.pick, r.files[i])
      case Compiled(v) => Fresh(t, Compile(t, s, r).value, p, v, r.src)
      case Skipped => p in s.entries && SameAt(t, s, Compile(t, s, r).value, p)
      case Unmatched => false
  {
    var entries, p := Checked(s, r).value, r.files[i].path;
    PlacedAfter(t, s, r, entries, i);
    NoneUnmatched(t, s, r, i);
    InvalidateKeepsOnlyBacked(Existing(s.disk), Remaining(s, r), r.files);
    if FateOf(entries, r.pick, r.files[i]).Skipped? {
      assert SameAt(t, s, State(entries, s.disk), p);
      SameAtTransitive(t, s, State(entries, s.disk), Compile(t, s, r).value, p);
    }
  }

  /** Other files keep what they have, as long as they exist; the entries of deleted files are dropped. */
  lemma OutsiderAfter(t: Tools, s: State, r: Run, p: FilePath)
    requires Sane(t) && ValidRun(t, s, r) && Compile(t, s, r).Ok? && p !in r.src
    ensures SameAt(t, State(Checked(s, r).value, s.disk), Compile(t, s, r).value, p)
    ensures p in Compile(t, s, r).value.entries <==> p in s.entries && p in r.existing
    ensures p in Checked(s, r).value ==> p in s.entries && Checked(s, r).value[p] == s.entries[p]
  {
    InvalidateExactly(Existing(s.disk), Remaining(s, r), r.files);
    var entries := Checked(s, r).value;
    var placed := PlaceAll(entries, r.pick, r.files);
    GroupsAreIn(t, s, r, entries);
    assert forall w :: w in r.order ==> !Holds(placed.groups[w], p);
    assert forall k :: 0 <= k < |r.order| ==> r.order[k] in r.order;
    WriteGroupsAt(t, r.src, State(entries, s.disk), r.order, placed.groups, p, []);
    InvalidateKeepsOnlyBacked(Existing(s.disk), Remaining(s, r), r.files);
  }

  // ---------------------------------------------------------------- the run-level law

  /** Everything cached was made by some compiler from some sources. */
  ghost predicate AllMade(t: Tools, s: State) {
    forall p :: p in s.entries ==> IsMade(t, s, p)
  }

  ghost predicate IsMade(t: Tools, s: State, p: FilePath) {
    exists v, src :: Made(t, s, p, v, src)
  }

  /** On disk and in the cache `p` is as a clean build leaves it: made by the version picked for it, from what it is now. */
  ghost predicate LeftClean(t: Tools, s: State, r: Run, p: FilePath)
    requires p in r.src
  {
    var version := r.pick(t.reader.pragma(r.src[p]));
    version.Some? && p in s.entries &&
    var output := t.compile(version.value, r.src, p);
    && s.entries[p].artifacts == [output.contract]
    && FqnOf(t, p, output.contract) in s.disk && s.disk[FqnOf(t, p, output.contract)] == output.artifact
  }

  /** A skipped file's artifacts are all there. */
  lemma SkippedIsThere(t: Tools, s: State, r: Run, i: nat)
    requires ValidRun(t, s, r) && i < |r.files| && Checked(s, r).Ok?
    requires FateOf(Checked(s, r).value, r.pick, r.files[i]).Skipped?
    ensures
      var p := r.files[i].path;
      && p in s.entries && s.entries[p].contentHash == r.files[i].contentHash && s.entries[p].version == r.files[i].pragma
      && forall k :: 0 <= k < |s.entries[p].artifacts| ==> FqnOf(t, p, s.entries[p].artifacts[k]) in s.disk
  {
    InvalidateKeepsOnlyBacked(Existing(s.disk), Remaining(s, r), r.files);
    var f := r.files[i];
    assert Backed(Existing(s.disk), Checked(s, r).value, f);
    assert r.files[i] == Resolved(t, r.src, f.path);
    forall k | 0 <= k < |s.entries[f.path].artifacts| ensures FqnOf(t, f.path, s.entries[f.path].artifacts[k]) in s.disk {
      AllExistMeans(s.disk, f.sourceName, s.entries[f.path].artifacts, k);
    }
  }

  lemma {:induction false} AllExistMeans(disk: Disk, name: JsString, artifacts: seq<JsString>, k: nat)
    requires k < |artifacts| && AllExist(Existing(disk), name, artifacts) == Ok(true)
    ensures GetFullyQualifiedName(name, artifacts[k]) in disk
  {
    if k > 0 {
      AllExistMeans(disk, name, artifacts[1..], k - 1);
    }
  }

  /**
   Exactly when a successful run leaves a file as a clean build would. A compiled file always
   is. A skipped file is iff a version is picked for it at all and that version makes of
   the present sources what was made of the recorded ones.
   */
  lemma FileIsCleanIff(t: Tools, s: State, r: Run, i: nat, v: Version, src: Sources)
    requires Sane(t) && ValidRun(t, s, r) && i < |r.files| && Compile(t, s, r).Ok?
    requires r.files[i].path in s.entries ==> Made(t, s, r.files[i].path, v, src)
    ensures
      var p := r.files[i].path;
      var picked := r.pick(r.files[i].pragma);
      LeftClean(t, Compile(t, s, r).value, r, p) <==>
        || FateOf(Checked(s, r).value, r.pick, r.files[i]).Compiled?
        || (picked.Some? && t.compile(picked.value, r.src, p) == t.compile(v, src, p))
  {
    FileAfter(t, s, r, i);
    var p, s' := r.files[i].path, Compile(t, s, r).value;
    assert r.files[i] == Resolved(t, r.src, p);
    var fate := FateOf(Checked(s, r).value, r.pick, r.files[i]);
    if fate.Skipped? {
      SkippedIsThere(t, s, r, i);
      var output := t.compile(v, src, p);
      assert s.entries[p].artifacts == [output.contract] && s.entries[p].artifacts[0] == output.contract;
      assert COLON !in output.contract;
      assert s'.disk[FqnOf(t, p, output.contract)] == output.artifact;
    } else {
      assert Fresh(t, s', p, fate.version, r.src);
    }
  }

  // ------------------------------------------------------ when imports stay the same

  ghost predicate ImportClosed(t: Tools, src: Sources) {
    forall p :: p in src ==> t.imports(p, src[p]) <= src.Keys
  }

  ghost predicate Within(src: Sources, src': Sources) {
    forall p :: p in src ==> p in src' && src[p] == src'[p]
  }

  /** The output for a file is determined by sources that hold it with all it imports. */
  ghost predicate CompilerIsLocal(t: Tools) {
    forall v, src, src', p :: p in src && ImportClosed(t, src) && Within(src, src') ==>
      t.compile(v, src, p) == t.compile(v, src', p)
  }

  /** Compilers that report the same version are the same. */
  ghost predicate VersionIdentifies(t: Tools) {
    forall v, w, src, p :: t.reports(v) == t.reports(w) ==> t.compile(v, src, p) == t.compile(w, src, p)
  }

  /** Both hold `p` with all it imports, directly or not, in the same contents. */
  ghost predicate SameClosure(t: Tools, src: Sources, src': Sources, p: FilePath) {
    exists common :: p in common && ImportClosed(t, common) && Within(common, src) && Within(common, src')
  }

  /**
   A file whose imports are what they were when it was compiled, and for which a version is
   picked that reports exactly the file's pragma, is left clean by every successful run,
   compiled or not.
   */
  lemma RunIsClean(t: Tools, s: State, r: Run, i: nat, v: Version, src: Sources)
    requires Sane(t) && CompilerIsLocal(t) && VersionIdentifies(t)
    requires ValidRun(t, s, r) && i < |r.files| && Compile(t, s, r).Ok?
    requires r.files[i].path in s.entries ==>
      Made(t, s, r.files[i].path, v, src) && SameClosure(t, src, r.src, r.files[i].path)
    requires
      var picked := r.pick(r.files[i].pragma);
      picked.Some? && t.reports(picked.value) == r.files[i].pragma
    ensures LeftClean(t, Compile(t, s, r).value, r, r.files[i].path)
  {
    FileIsCleanIff(t, s, r, i, v, src);
    FileAfter(t, s, r, i);
    var p, w := r.files[i].path, r.pick(r.files[i].pragma).value;
    if FateOf(Checked(s, r).value, r.pick, r.files[i]).Skipped? {
      SkippedIsThere(t, s, r, i);
      var common :| p in common && ImportClosed(t, common) && Within(common, src) && Within(common, r.src);
      assert t.reports(v) == t.reports(w);
      assert t.compile(v, src, p) == t.compile(v, common, p) == t.compile(w, common, p) == t.compile(w, r.src, p);
    }
  }

  // --------------------------------------------------------------- success and failure

  const EMPTY := State(map[], map[])

  /** Once nothing is missing, a run fails exactly if some file is unmatched. */
  lemma SucceedsIff(t: Tools, s: State, r: Run)
    requires ValidRun(t, s, r)
    ensures Compile(t, s, r).Ok? <==>
      Checked(s, r).Ok? && forall i :: 0 <= i < |r.files| ==> !FateOf(Checked(s, r).value, r.pick, r.files[i]).Unmatched?
  {
    if Checked(s, r).Ok? {
      var entries := Checked(s, r).value;
      PlacedByFate(entries, r.pick, r.files);
      var unmatched := PlaceAll(entries, r.pick, r.files).unmatched;
      if unmatched != [] {
        ExactlyOneFate(entries, r.pick, r.files, Unmatched, unmatched[0]);
        var i :| 0 <= i < |r.files| && r.files[i] == unmatched[0];
        assert FateOf(entries, r.pick, r.files[i]).Unmatched?;
      }
      forall i | 0 <= i < |r.files| && FateOf(entries, r.pick, r.files[i]).Unmatched? ensures unmatched != [] {
        ExactlyOneFate(entries, r.pick, r.files, Unmatched, r.files[i]);
      }
    }
  }

  lemma {:induction false} NothingToInvalidate(lookup: Lookup, files: seq<File>)
    ensures Invalidate(lookup, map[], files) == Ok(map[])
  {
    if files != [] {
      NothingToInvalidate(lookup, files[1..]);
    }
  }

  /** A run from scratch succeeds exactly if a version is picked for every file. */
  lemma FromScratchIff(t: Tools, r: Run)
    requires ValidRun(t, EMPTY, r)
    ensures Compile(t, EMPTY, r).Ok? <==> forall i :: 0 <= i < |r.files| ==> r.pick(r.files[i].pragma).Some?
  {
    assert Remaining(EMPTY, r) == map[];
    NothingToInvalidate(Existing(EMPTY.disk), r.files);
    SucceedsIff(t, EMPTY, r);
    forall i | 0 <= i < |r.files|
      ensures FateOf(map[], r.pick, r.files[i]).Unmatched? <==> r.pick(r.files[i].pragma).None?
    {
    }
  }

  /**
   Exactly when the cache hides a failure: after a successful run, the same run from scratch
   succeeds iff every skipped file has a picked version.
   */
  lemma ScratchSucceedsIff(t: Tools, s: State, r: Run, order: seq<Version>)
    requires ValidRun(t, s, r) && Compile(t, s, r).Ok? && ValidRun(t, EMPTY, r.(order := order))
    ensures Compile(t, EMPTY, r.(order := order)).Ok? <==>
      forall i :: 0 <= i < |r.files| && FateOf(Checked(s, r).value, r.pick, r.files[i]).Skipped? ==>
        r.pick(r.files[i].pragma).Some?
  {
    FromScratchIff(t, r.(order := order));
    SucceedsIff(t, s, r);
    forall i | 0 <= i < |r.files| && !FateOf(Checked(s, r).value, r.pick, r.files[i]).Skipped?
      ensures r.pick(r.files[i].pragma).Some?
    {
      assert !FateOf(Checked(s, r).value, r.pick, r.files[i]).Unmatched?;
    }
  }

  // ------------------------------------------------------------------ true records

  /** What was made stays made where nothing changes. */
  lemma MadeStays(t: Tools, s: State, s': State, p: FilePath)
    requires Sane(t) && p in s.entries && SameAt(t, s, s', p) && IsMade(t, s, p)
    ensures IsMade(t, s', p)
  {
    var v, src :| Made(t, s, p, v, src);
    assert COLON !in t.compile(v, src, p).contract;
    assert Made(t, s', p, v, src);
  }

  /** Every successful run keeps the records true. */
  lemma RunKeepsMade(t: Tools, s: State, r: Run)
    requires Sane(t) && ValidRun(t, s, r) && Compile(t, s, r).Ok? && AllMade(t, s)
    ensures AllMade(t, Compile(t, s, r).value)
  {
    forall p | p in Compile(t, s, r).value.entries ensures IsMade(t, Compile(t, s, r).value, p) {
      if p in r.src {
        SourceIsMade(t, s, r, p);
      } else {
        OutsiderIsMade(t, s, r, p);
      }
    }
  }

  /** Hence the parser may trust every entry that runs have recorded. */
  lemma MadeIsHonest(t: Tools, s: State)
    requires AllMade(t, s) && HashInjective(t.reader)
    ensures HonestEntries(t.reader, s.entries)
  {
    forall p | p in s.entries ensures HonestPragma(t.reader, s.entries[p].contentHash, s.entries[p].pragma) {
      assert IsMade(t, s, p);
      var v, src :| Made(t, s, p, v, src);
    }
  }

  lemma SourceIsMade(t: Tools, s: State, r: Run, p: FilePath)
    requires Sane(t) && ValidRun(t, s, r) && Compile(t, s, r).Ok? && AllMade(t, s) && p in r.src
    ensures IsMade(t, Compile(t, s, r).value, p)
  {
    assert Holds(r.files, p);
    var i :| 0 <= i < |r.files| && r.files[i].path == p;
    var s', fate := Compile(t, s, r).value, FateOf(Checked(s, r).value, r.pick, r.files[i]);
    FileAfter(t, s, r, i);
    if fate.Skipped? {
      MadeStays(t, s, s', p);
    } else {
      assert Made(t, s', p, fate.version, r.src);
    }
  }

  lemma OutsiderIsMade(t: Tools, s: State, r: Run, p: FilePath)
    requires Sane(t) && ValidRun(t, s, r) && Compile(t, s, r).Ok? && AllMade(t, s)
    requires p !in r.src && p in Compile(t, s, r).value.entries
    ensures IsMade(t, Compile(t, s, r).value, p)
  {
    OutsiderAfter(t, s, r, p);
    var between := State(Checked(s, r).value, s.disk);
    assert SameAt(t, s, between, p);
    MadeStays(t, s, between, p);
    MadeStays(t, between, Compile(t, s, r).value, p);
  }
}
