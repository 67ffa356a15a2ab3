/**
 The artifacts directory and the path caches in front of it. File lists are sorted
 before use, so they are sets here; synchronous and asynchronous twins are one
 function. `TrueCase` stands for the case-insensitive search of the file system.
 */
module ArtifactStore {
  import opened Wrappers
  import opened JsStrings
  import opened ContractNames

  /** A file and, if it is a debug file, the build info it references. */
  datatype File = File(text: JsString, buildInfo: Option<Path>)

  type Files = map<Path, File>

  type TrueCase = (set<Path>, Path) -> Option<Path>

  datatype Error = NotFound | WrongCasing | MultipleFound | NotFullyQualified | Unreadable

  /** ".dbg" */
  const DBG: JsString := [46, 100, 98, 103]
  const DBG_JSON: JsString := DBG + JSON
  /** "build-info" */
  const BUILD_INFO: JsString := [98, 117, 105, 108, 100, 45, 105, 110, 102, 111]

  predicate EndsWith(s: JsString, suffix: JsString) {
    |suffix| <= |s| && s[|s| - |suffix|..] == suffix
  }

  // --------------------------------------------------------------- kinds of files

  function FirstSegment(p: Path): JsString {
    if p.dir == [] then p.base else p.dir[0]
  }

  predicate IsArtifact(p: Path) {
    EndsWith(p.base, JSON) && !(BUILD_INFO <= FirstSegment(p)) && !EndsWith(p.base, DBG_JSON)
  }

  predicate IsDebugFile(p: Path) {
    EndsWith(p.base, DBG_JSON)
  }

  predicate IsBuildInfo(p: Path) {
    p.dir != [] && p.dir[0] == BUILD_INFO && EndsWith(p.base, JSON)
  }

  /** `_getDebugFilePath` */
  function DebugPath(p: Path): Path {
    if EndsWith(p.base, JSON) then p.(base := p.base[..|p.base| - |JSON|] + DBG_JSON) else p
  }

  // ------------------------------------------------- answers computed from the disk

  function ArtifactPathsOf(files: Files): set<Path> {
    set p | p in files.Keys && IsArtifact(p)
  }

  function DebugFilePathsOf(files: Files): set<Path> {
    set p | p in files.Keys && IsDebugFile(p)
  }

  function BuildInfoPathsOf(files: Files): set<Path> {
    set p | p in files.Keys && IsBuildInfo(p)
  }

  /** `_getArtifactPathFromFiles` */
  function FromFiles(name: JsString, paths: set<Path>): Result<Path, Error> {
    var matching := set p | p in paths && p.base == name + JSON;
    if matching == {} then Err(NotFound)
    else if exists p :: p in matching && matching == {p} then
      var p :| p in matching && matching == {p};
      Ok(p)
    else Err(MultipleFound)
  }

  /** `_getValidArtifactPathFromFullyQualifiedName` */
  function FromFqn(fs: TrueCase, files: Files, fqn: JsString): Result<Path, Error> {
    match FormArtifactPath(fqn)
    case None => Err(NotFullyQualified)
    case Some(p) =>
      match fs(files.Keys, p)
      case None => Err(NotFound)
      case Some(q) => if q == p then Ok(p) else Err(WrongCasing)
  }

  /** `_getArtifactPath` without a cache. */
  function PathOf(fs: TrueCase, files: Files, name: JsString): Result<Path, Error> {
    if IsFullyQualifiedName(name) then FromFqn(fs, files, name) else FromFiles(name, ArtifactPathsOf(files))
  }

  /** The build info path recorded for a contract, if it has a debug file. */
  function BuildInfoPathOf(files: Files, fqn: JsString): Result<Option<Path>, Error> {
    match FormArtifactPath(fqn)
    case None => Err(NotFullyQualified)
    case Some(p) =>
      var d := DebugPath(p);
      if d !in files then Ok(None)
      else if files[d].buildInfo.None? then Err(Unreadable)
      else Ok(files[d].buildInfo)
  }

  function Read(files: Files, p: Path): Result<Option<File>, Error> {
    if p in files then Ok(Some(files[p])) else Err(Unreadable)
  }

  // -------------------------------------------------------------- removing obsolete

  function WithoutObsoleteArtifacts(files: Files, valid: set<Path>): Files {
    var obsolete := ArtifactPathsOf(files) - valid;
    files - obsolete - (set p | p in obsolete :: DebugPath(p))
  }

  function Referenced(files: Files, debugFiles: set<Path>): set<Path> {
    set d | d in debugFiles && d in files && files[d].buildInfo.Some? :: files[d].buildInfo.value
  }

  function WithoutObsoleteBuildInfos(files: Files): Files {
    files - (BuildInfoPathsOf(files) - Referenced(files, DebugFilePathsOf(files)))
  }

  // ------------------------------------------------------------------ the store

  datatype Cache = Cache(
    artifactPaths: Option<set<Path>>,
    debugFilePaths: Option<set<Path>>,
    buildInfoPaths: Option<set<Path>>,
    nameToPath: map<JsString, Path>,
    fqnToBuildInfo: map<JsString, Path>
  )

  const EMPTY := Cache(None, None, None, map[], map[])

  /** No cache means that it is disabled. */
  datatype Store = Store(files: Files, cache: Option<Cache>, valid: seq<JsString>)

  /** `clearCache`: a disabled cache stays disabled. */
  function Cleared(s: Store): Store {
    if s.cache.None? then s else s.(cache := Some(EMPTY))
  }

  /** `getArtifactPaths` */
  function ListArtifacts(s: Store): (Store, set<Path>) {
    if s.cache.Some? && s.cache.value.artifactPaths.Some? then (s, s.cache.value.artifactPaths.value)
    else
      var r := ArtifactPathsOf(s.files);
      (if s.cache.None? then s else s.(cache := Some(s.cache.value.(artifactPaths := Some(r)))), r)
  }

  /** `getDebugFilePaths` */
  function ListDebugFiles(s: Store): (Store, set<Path>) {
    if s.cache.Some? && s.cache.value.debugFilePaths.Some? then (s, s.cache.value.debugFilePaths.value)
    else
      var r := DebugFilePathsOf(s.files);
      (if s.cache.None? then s else s.(cache := Some(s.cache.value.(debugFilePaths := Some(r)))), r)
  }

  /** `getBuildInfoPaths` */
  function ListBuildInfos(s: Store): (Store, set<Path>) {
    if s.cache.Some? && s.cache.value.buildInfoPaths.Some? then (s, s.cache.value.buildInfoPaths.value)
    else
      var r := BuildInfoPathsOf(s.files);
      (if s.cache.None? then s else s.(cache := Some(s.cache.value.(buildInfoPaths := Some(r)))), r)
  }

  function RememberPath(s: Store, name: JsString, r: Result<Path, Error>): Store {
    if s.cache.None? || r.Err? then s
    else s.(cache := Some(s.cache.value.(nameToPath := s.cache.value.nameToPath[name := r.value])))
  }

  /** `_getArtifactPath`. A missing qualified name lists all artifacts for its suggestions. */
  function Locate(fs: TrueCase, s: Store, name: JsString): (Store, Result<Path, Error>) {
    if s.cache.Some? && name in s.cache.value.nameToPath then (s, Ok(s.cache.value.nameToPath[name]))
    else if IsFullyQualifiedName(name) then
      var r := FromFqn(fs, s.files, name);
      (RememberPath(if r == Err(NotFound) then ListArtifacts(s).0 else s, name, r), r)
    else
      var (s', paths) := ListArtifacts(s);
      var r := FromFiles(name, paths);
      (RememberPath(s', name, r), r)
  }

  /** `getBuildInfo` */
  function BuildInfo(s: Store, fqn: JsString): (Store, Result<Option<File>, Error>) {
    if s.cache.Some? && fqn in s.cache.value.fqnToBuildInfo then (s, Read(s.files, s.cache.value.fqnToBuildInfo[fqn]))
    else
      var r := BuildInfoPathOf(s.files, fqn);
      (RememberBuildInfo(s, fqn, r), ReadBuildInfo(s.files, r))
  }

  function ReadBuildInfo(files: Files, r: Result<Option<Path>, Error>): Result<Option<File>, Error> {
    match r
    case Err(e) => Err(e)
    case Ok(None) => Ok(None)
    case Ok(Some(p)) => Read(files, p)
  }

  function RememberBuildInfo(s: Store, fqn: JsString, r: Result<Option<Path>, Error>): Store {
    if s.cache.None? || r.Err? || r.value.None? then s
    else s.(cache := Some(s.cache.value.(fqnToBuildInfo := s.cache.value.fqnToBuildInfo[fqn := r.value.value])))
  }

  /** `saveArtifactAndDebugFile`: without a build info no debug file is written. */
  function Saved(s: Store, sourceName: JsString, contractName: JsString, text: JsString, buildInfo: Option<Path>): Store {
    match FormArtifactPath(GetFullyQualifiedName(sourceName, contractName))
    case None => Cleared(s)
    case Some(p) =>
      var files := s.files[p := File(text, None)];
      Cleared(s.(files := if buildInfo.None? then files else files[DebugPath(p) := File([], buildInfo)]))
  }

  function LocateAll(fs: TrueCase, s: Store, names: seq<JsString>): (Store, Result<set<Path>, Error>)
    decreases names
  {
    if names == [] then (s, Ok({}))
    else
      match Locate(fs, s, names[0])
      case (s', Err(e)) => (s', Err(e))
      case (s', Ok(p)) =>
        match LocateAll(fs, s', names[1..])
        case (s'', Err(e)) => (s'', Err(e))
        case (s'', Ok(ps)) => (s'', Ok({p} + ps))
  }

  /** `_removeObsoleteBuildInfos` */
  function RemoveBuildInfos(s: Store): Store {
    var (s1, debugFiles) := ListDebugFiles(s);
    var (s2, infos) := ListBuildInfos(s1);
    s2.(files := s2.files - (infos - Referenced(s2.files, debugFiles)))
  }

  /** `removeObsoleteArtifacts`: fails, deleting nothing, if a valid artifact cannot be located. */
  function RemoveObsolete(fs: TrueCase, s: Store): (Store, bool) {
    match LocateAll(fs, Cleared(s), s.valid)
    case (s1, Err(_)) => (Cleared(s1), false)
    case (s1, Ok(valid)) =>
      var (s2, existing) := ListArtifacts(s1);
      var obsolete := existing - valid;
      var s3 := s2.(files := s2.files - obsolete - (set p | p in obsolete :: DebugPath(p)));
      (Cleared(RemoveBuildInfos(s3)), true)
  }

  // ------------------------------------------------------------ sequential histories

  datatype Op =
    | GetArtifactPaths
    | GetDebugFilePaths
    | GetBuildInfoPaths
    | GetArtifactPath(name: JsString)
    | GetBuildInfo(fqn: JsString)
    | SaveArtifact(sourceName: JsString, contractName: JsString, text: JsString, buildInfo: Option<Path>)
    | SaveBuildInfo(path: Path, text: JsString)
    | AddValid(fqns: seq<JsString>)
    | RemoveObsoleteArtifacts
    | ClearCache
    | DisableCache

  datatype Answer =
    | Paths(paths: set<Path>)
    | Located(path: Result<Path, Error>)
    | Info(info: Result<Option<File>, Error>)
    | Done(ok: bool)

  function Step(fs: TrueCase, s: Store, op: Op): (Store, Answer) {
    match op
    case GetArtifactPaths => var (s', r) := ListArtifacts(s); (s', Paths(r))
    case GetDebugFilePaths => var (s', r) := ListDebugFiles(s); (s', Paths(r))
    case GetBuildInfoPaths => var (s', r) := ListBuildInfos(s); (s', Paths(r))
    case GetArtifactPath(name) => var (s', r) := Locate(fs, s, name); (s', Located(r))
    case GetBuildInfo(fqn) => var (s', r) := BuildInfo(s, fqn); (s', Info(r))
    case SaveArtifact(source, contract, text, info) => (Saved(s, source, contract, text, info), Done(true))
    case SaveBuildInfo(path, text) => (Cleared(s.(files := s.files[path := File(text, None)])), Done(true))
    case AddValid(fqns) => (s.(valid := s.valid + fqns), Done(true))
    case RemoveObsoleteArtifacts => var (s', ok) := RemoveObsolete(fs, s); (s', Done(ok))
    case ClearCache => (Cleared(s), Done(true))
    case DisableCache => (s.(cache := None), Done(true))
  }

  function Answers(fs: TrueCase, s: Store, ops: seq<Op>): seq<Answer>
    decreases ops
  {
    if ops == [] then []
    else
      var (s', a) := Step(fs, s, ops[0]);
      [a] + Answers(fs, s', ops[1..])
  }

  // ------------------------------------------------------------ cache transparency

  /** Everything the cache holds is what the disk would answer. */
  ghost predicate HonestCache(fs: TrueCase, files: Files, c: Cache) {
    && (c.artifactPaths.Some? ==> c.artifactPaths.value == ArtifactPathsOf(files))
    && (c.debugFilePaths.Some? ==> c.debugFilePaths.value == DebugFilePathsOf(files))
    && (c.buildInfoPaths.Some? ==> c.buildInfoPaths.value == BuildInfoPathsOf(files))
    && HonestNames(fs, files, c.nameToPath)
    && HonestBuildInfos(files, c.fqnToBuildInfo)
  }

  ghost predicate HonestNames(fs: TrueCase, files: Files, m: map<JsString, Path>) {
    forall name :: name in m ==> PathIs(fs, files, name, m[name])
  }

  ghost predicate HonestBuildInfos(files: Files, m: map<JsString, Path>) {
    forall fqn :: fqn in m ==> BuildInfoIs(files, fqn, m[fqn])
  }

  ghost predicate PathIs(fs: TrueCase, files: Files, name: JsString, p: Path) {
    PathOf(fs, files, name) == Ok(p)
  }

  ghost predicate BuildInfoIs(files: Files, fqn: JsString, p: Path) {
    BuildInfoPathOf(files, fqn) == Ok(Some(p))
  }

  ghost predicate Honest(fs: TrueCase, s: Store) {
    s.cache.Some? ==> HonestCache(fs, s.files, s.cache.value)
  }

  /** The same store with the cache disabled. */
  function Uncached(s: Store): Store {
    s.(cache := None)
  }

  lemma LocateIsTransparent(fs: TrueCase, s: Store, name: JsString)
    requires Honest(fs, s)
    ensures Honest(fs, Locate(fs, s, name).0) && Uncached(Locate(fs, s, name).0) == Uncached(s)
    ensures Locate(fs, s, name).1 == PathOf(fs, s.files, name)
    ensures Locate(fs, Uncached(s), name) == (Uncached(s), PathOf(fs, s.files, name))
  {
    var r := PathOf(fs, s.files, name);
    ListsAreTransparent(fs, s);
    RememberPathIsHonest(fs, s, name, r);
    RememberPathIsHonest(fs, ListArtifacts(s).0, name, r);
    if s.cache.Some? && name in s.cache.value.nameToPath {
      assert PathIs(fs, s.files, name, s.cache.value.nameToPath[name]);
    }
  }

  lemma RememberPathIsHonest(fs: TrueCase, s: Store, name: JsString, r: Result<Path, Error>)
    requires Honest(fs, s) && r == PathOf(fs, s.files, name)
    ensures Honest(fs, RememberPath(s, name, r)) && Uncached(RememberPath(s, name, r)) == Uncached(s)
  {}

  lemma {:induction false} LocateAllIsTransparent(fs: TrueCase, s: Store, names: seq<JsString>)
    requires Honest(fs, s)
    ensures
      var (s', r) := LocateAll(fs, s, names);
      && Honest(fs, s') && Uncached(s') == Uncached(s)
      && LocateAll(fs, Uncached(s), names) == (Uncached(s), r)
    decreases names
  {
    if names != [] {
      LocateIsTransparent(fs, s, names[0]);
      LocateAllIsTransparent(fs, Locate(fs, s, names[0]).0, names[1..]);
    }
  }

  /** Neither the debug files nor the build infos are listed in the cache. */
  ghost predicate ListsOpen(s: Store) {
    s.cache.Some? ==> s.cache.value.debugFilePaths.None? && s.cache.value.buildInfoPaths.None?
  }

  lemma {:induction false} LocateAllKeepsListsOpen(fs: TrueCase, s: Store, names: seq<JsString>)
    requires ListsOpen(s)
    ensures ListsOpen(LocateAll(fs, s, names).0)
    decreases names
  {
    if names != [] {
      LocateAllKeepsListsOpen(fs, Locate(fs, s, names[0]).0, names[1..]);
    }
  }

  /** On open lists the removal sees the disk as it is, whatever else the cache holds. */
  lemma RemoveBuildInfosReadsTheDisk(s: Store)
    requires ListsOpen(s)
    ensures Uncached(RemoveBuildInfos(s)) == Uncached(s).(files := WithoutObsoleteBuildInfos(s.files))
    ensures RemoveBuildInfos(s).cache.None? <==> s.cache.None?
  {}

  /** What removing obsolete artifacts does, cache or no cache. */
  lemma RemoveObsoleteIs(fs: TrueCase, s: Store)
    requires Honest(fs, s)
    ensures
      var (s', ok) := RemoveObsolete(fs, s);
      var r := LocateAll(fs, Uncached(s), s.valid).1;
      && ok == r.Ok?
      && s'.files == (if ok then WithoutObsoleteBuildInfos(WithoutObsoleteArtifacts(s.files, r.value)) else s.files)
      && s'.valid == s.valid
      && s'.cache == (if s.cache.None? then None else Some(EMPTY))
  {
    var cleared := Cleared(s);
    LocateAllIsTransparent(fs, cleared, s.valid);
    LocateAllKeepsListsOpen(fs, cleared, s.valid);
    var (s1, r) := LocateAll(fs, cleared, s.valid);
    assert s1.files == s.files && s1.valid == s.valid;
    LocateAllKeepsMode(fs, cleared, s.valid);
    if r.Ok? {
      var (s2, existing) := ListArtifacts(s1);
      assert existing == ArtifactPathsOf(s.files);
      var obsolete := existing - r.value;
      var s3 := s2.(files := s2.files - obsolete - (set p | p in obsolete :: DebugPath(p)));
      assert s3.files == WithoutObsoleteArtifacts(s.files, r.value);
      RemoveBuildInfosReadsTheDisk(s3);
    }
  }

  lemma {:induction false} LocateAllKeepsMode(fs: TrueCase, s: Store, names: seq<JsString>)
    ensures LocateAll(fs, s, names).0.cache.None? <==> s.cache.None?
    decreases names
  {
    if names != [] {
      LocateAllKeepsMode(fs, Locate(fs, s, names[0]).0, names[1..]);
    }
  }

  lemma ListsAreTransparent(fs: TrueCase, s: Store)
    requires Honest(fs, s)
    ensures Honest(fs, ListArtifacts(s).0) && Uncached(ListArtifacts(s).0) == Uncached(s)
    ensures ListArtifacts(s).1 == ArtifactPathsOf(s.files)
    ensures Honest(fs, ListDebugFiles(s).0) && Uncached(ListDebugFiles(s).0) == Uncached(s)
    ensures ListDebugFiles(s).1 == DebugFilePathsOf(s.files)
    ensures Honest(fs, ListBuildInfos(s).0) && Uncached(ListBuildInfos(s).0) == Uncached(s)
    ensures ListBuildInfos(s).1 == BuildInfoPathsOf(s.files)
  {}

  lemma BuildInfoIsTransparent(fs: TrueCase, s: Store, fqn: JsString)
    requires Honest(fs, s)
    ensures Honest(fs, BuildInfo(s, fqn).0) && Uncached(BuildInfo(s, fqn).0) == Uncached(s)
    ensures BuildInfo(Uncached(s), fqn) == (Uncached(s), BuildInfo(s, fqn).1)
  {
    var r := BuildInfoPathOf(s.files, fqn);
    if s.cache.Some? && fqn in s.cache.value.fqnToBuildInfo {
      assert BuildInfoIs(s.files, fqn, s.cache.value.fqnToBuildInfo[fqn]);
    }
    assert BuildInfo(Uncached(s), fqn) == (RememberBuildInfo(Uncached(s), fqn, r), ReadBuildInfo(s.files, r));
    RememberBuildInfoIsHonest(fs, s, fqn, r);
  }

  lemma RememberBuildInfoIsHonest(fs: TrueCase, s: Store, fqn: JsString, r: Result<Option<Path>, Error>)
    requires Honest(fs, s) && r == BuildInfoPathOf(s.files, fqn)
    ensures Honest(fs, RememberBuildInfo(s, fqn, r)) && Uncached(RememberBuildInfo(s, fqn, r)) == Uncached(s)
  {
    if s.cache.Some? && r.Ok? && r.value.Some? {
      assert BuildInfoIs(s.files, fqn, r.value.value);
    }
  }

  lemma ClearedIsHonest(fs: TrueCase, s: Store)
    ensures Honest(fs, Cleared(s)) && Uncached(Cleared(s)) == Uncached(s) == Cleared(Uncached(s))
  {}

  lemma SavedIsTransparent(fs: TrueCase, s: Store, source: JsString, contract: JsString, text: JsString, info: Option<Path>)
    ensures Honest(fs, Saved(s, source, contract, text, info))
    ensures Saved(Uncached(s), source, contract, text, info) == Uncached(Saved(s, source, contract, text, info))
  {}

  /** Each operation answers as without a cache, has the same effect on disk, and keeps the cache honest. */
  lemma StepIsTransparent(fs: TrueCase, s: Store, op: Op)
    requires Honest(fs, s)
    ensures Honest(fs, Step(fs, s, op).0)
    ensures Step(fs, Uncached(s), op) == (Uncached(Step(fs, s, op).0), Step(fs, s, op).1)
    ensures s.cache.None? ==> Step(fs, s, op).0.cache.None?
  {
    match op
    case GetArtifactPaths => ListsAreTransparent(fs, s);
    case GetDebugFilePaths => ListsAreTransparent(fs, s);
    case GetBuildInfoPaths => ListsAreTransparent(fs, s);
    case GetArtifactPath(name) => LocateIsTransparent(fs, s, name);
    case GetBuildInfo(fqn) => BuildInfoIsTransparent(fs, s, fqn);
    case SaveArtifact(source, contract, text, info) => SavedIsTransparent(fs, s, source, contract, text, info);
    case SaveBuildInfo(path, text) => ClearedIsHonest(fs, s.(files := s.files[path := File(text, None)]));
    case RemoveObsoleteArtifacts =>
      RemoveObsoleteIs(fs, s);
      RemoveObsoleteIs(fs, Uncached(s));
    case _ =>
  }

  /** In every sequential history the caching store answers exactly as one without a cache. */
  lemma {:induction false} CacheIsTransparent(fs: TrueCase, s: Store, ops: seq<Op>)
    requires Honest(fs, s)
    ensures Answers(fs, s, ops) == Answers(fs, Uncached(s), ops)
    decreases ops
  {
    if ops != [] {
      StepIsTransparent(fs, s, ops[0]);
      CacheIsTransparent(fs, Step(fs, s, ops[0]).0, ops[1..]);
    }
  }

  // ------------------------------------------------------------- what a lookup answers

  /** An artifact on disk whose file is named after the contract. */
  ghost predicate Bears(files: Files, name: JsString, p: Path) {
    p in files && IsArtifact(p) && p.base == name + JSON
  }

  /**
   A bare name is found exactly if one artifact bears it; it is not found if none does, and
   ambiguous if several do. A path cache makes no difference.
   */
  lemma LookupByName(fs: TrueCase, s: Store, name: JsString)
    requires Honest(fs, s) && !IsFullyQualifiedName(name)
    ensures
      var r := Locate(fs, s, name).1;
      && (forall p :: r == Ok(p) <==> Bears(s.files, name, p) && forall q :: Bears(s.files, name, q) ==> q == p)
      && (r == Err(NotFound) <==> forall p :: !Bears(s.files, name, p))
      && (r == Err(MultipleFound) <==> exists p, q :: Bears(s.files, name, p) && Bears(s.files, name, q) && p != q)
  {
    LocateIsTransparent(fs, s, name);
    FromFilesIs(s.files, name);
  }

  lemma FromFilesIs(files: Files, name: JsString)
    ensures
      var r := FromFiles(name, ArtifactPathsOf(files));
      && (forall p :: r == Ok(p) <==> Bears(files, name, p) && forall q :: Bears(files, name, q) ==> q == p)
      && (r == Err(NotFound) <==> forall p :: !Bears(files, name, p))
      && (r == Err(MultipleFound) <==> exists p, q :: Bears(files, name, p) && Bears(files, name, q) && p != q)
  {
    var paths := ArtifactPathsOf(files);
    var matching := set p | p in paths && p.base == name + JSON;
    assert forall p :: p in matching <==> Bears(files, name, p);
    FromFilesCases(name, paths);
    forall p ensures matching == {p} <==> Bears(files, name, p) && forall q :: Bears(files, name, q) ==> q == p {
      OnlyOne(matching, p);
    }
    SeveralIff(matching);
  }

  lemma FromFilesCases(name: JsString, paths: set<Path>)
    ensures
      var matching := set p | p in paths && p.base == name + JSON;
      var r := FromFiles(name, paths);
      && (forall p :: r == Ok(p) <==> matching == {p})
      && (r == Err(NotFound) <==> matching == {})
      && (r == Err(MultipleFound) <==> matching != {} && forall p :: matching != {p})
  {
    var matching := set p | p in paths && p.base == name + JSON;
    if p :| matching == {p} {
      assert p in matching;
    }
  }

  lemma OnlyOne(m: set<Path>, p: Path)
    ensures m == {p} <==> p in m && forall q :: q in m ==> q == p
  {}

  lemma SeveralIff(m: set<Path>)
    ensures (m != {} && forall p :: m != {p}) <==> exists p, q :: p in m && q in m && p != q
  {
    if m != {} && forall p :: m != {p} {
      var p :| p in m;
      OnlyOne(m, p);
    }
  }

  /** A qualified name is found exactly if the file system knows the artifact's path in that very casing. */
  lemma LookupByFqn(fs: TrueCase, s: Store, name: JsString)
    requires Honest(fs, s) && IsFullyQualifiedName(name) && FormArtifactPath(name).Some?
    ensures
      var r, p := Locate(fs, s, name).1, FormArtifactPath(name).value;
      && (r.Ok? <==> fs(s.files.Keys, p) == Some(p)) && (r.Ok? ==> r.value == p)
      && (r == Err(NotFound) <==> fs(s.files.Keys, p) == None)
      && (r == Err(WrongCasing) <==> fs(s.files.Keys, p).Some? && fs(s.files.Keys, p) != Some(p))
  {
    LocateIsTransparent(fs, s, name);
  }

  /** The build info of a contract is the file its debug file names; without a debug file there is none. */
  lemma LookupBuildInfo(fs: TrueCase, s: Store, fqn: JsString)
    requires Honest(fs, s) && FormArtifactPath(fqn).Some?
    ensures
      var r, d := BuildInfo(s, fqn).1, DebugPath(FormArtifactPath(fqn).value);
      && (r == Ok(None) <==> d !in s.files)
      && (forall file :: r == Ok(Some(file)) <==>
            d in s.files && s.files[d].buildInfo.Some? && s.files[d].buildInfo.value in s.files
            && s.files[s.files[d].buildInfo.value] == file)
  {
    BuildInfoIsTransparent(fs, s, fqn);
  }

  /** The file system finds what is there. */
  ghost predicate Finds(fs: TrueCase) {
    forall paths, p :: p in paths ==> fs(paths, p) == Some(p)
  }

  /**
   What was saved is found, under its own path and text; and if it was saved with a build info
   that exists, that build info is found for it. All other files are as before.
   */
  lemma SavedIsFound(fs: TrueCase, s: Store, sourceName: JsString, contractName: JsString, text: JsString, info: Option<Path>)
    requires Finds(fs) && NormalizedSourceName(sourceName) && ContractName(contractName)
    ensures
      var fqn, p := GetFullyQualifiedName(sourceName, contractName), Path(Split(sourceName, SLASH), contractName + JSON);
      var s' := Saved(s, sourceName, contractName, text, info);
      && Locate(fs, s', fqn).1 == Ok(p) && p in s'.files && s'.files[p].text == text
      && (forall q :: q != p && q != DebugPath(p) ==> (q in s'.files <==> q in s.files) && (q in s.files ==> s'.files[q] == s.files[q]))
      && (info.Some? && info.value in s.files && info.value != p && info.value != DebugPath(p) ==>
            BuildInfo(s', fqn).1 == Ok(Some(s.files[info.value])))
      && (info.None? && DebugPath(p) !in s.files ==> BuildInfo(s', fqn).1 == Ok(None))
  {
    var fqn := GetFullyQualifiedName(sourceName, contractName);
    SavedFiles(s, sourceName, contractName, text, info);
    var p, s' := Path(Split(sourceName, SLASH), contractName + JSON), Saved(s, sourceName, contractName, text, info);
    ClearedIsHonest(fs, s');
    LookupByFqn(fs, s', fqn);
    assert s'.cache.Some? ==> s'.cache.value.fqnToBuildInfo == map[];
  }

  /** What saving does to the files. */
  lemma SavedFiles(s: Store, sourceName: JsString, contractName: JsString, text: JsString, info: Option<Path>)
    requires NormalizedSourceName(sourceName) && ContractName(contractName)
    ensures
      var fqn, p := GetFullyQualifiedName(sourceName, contractName), Path(Split(sourceName, SLASH), contractName + JSON);
      var s' := Saved(s, sourceName, contractName, text, info);
      && IsFullyQualifiedName(fqn) && FormArtifactPath(fqn) == Some(p) && DebugPath(p) != p
      && s' == Cleared(s')
      && s'.files == (if info.None? then s.files[p := File(text, None)]
                      else s.files[p := File(text, None)][DebugPath(p) := File([], info)])
  {
    ArtifactPathOf(sourceName, contractName);
    ParsePrinted(sourceName, contractName);
    PrintParsed(GetFullyQualifiedName(sourceName, contractName));
    var p := Path(Split(sourceName, SLASH), contractName + JSON);
    assert EndsWith(p.base, JSON);
    assert |DebugPath(p).base| > |p.base|;
  }

  /** A file is of one kind at most, except that a debug file may lie among the build infos. */
  lemma KindsAreDisjoint(p: Path)
    ensures IsArtifact(p) ==> !IsDebugFile(p) && !IsBuildInfo(p) && IsDebugFile(DebugPath(p)) && !IsBuildInfo(DebugPath(p))
    ensures EndsWith(p.base, JSON) && !IsDebugFile(p) && !IsArtifact(p) ==> BUILD_INFO <= FirstSegment(p)
  {
    if IsArtifact(p) {
      DebugPathIsDebugFile(p);
    }
  }

  /**
   What was saved is listed: the artifact unless its name makes it another kind of file, and its
   debug file, which without a build info stays as it was.
   */
  lemma SavedIsListed(s: Store, sourceName: JsString, contractName: JsString, text: JsString, info: Option<Path>)
    requires NormalizedSourceName(sourceName) && ContractName(contractName)
    ensures
      var p := Path(Split(sourceName, SLASH), contractName + JSON);
      var s' := Saved(s, sourceName, contractName, text, info);
      && (p in ListArtifacts(s').1 <==>
            !EndsWith(contractName, DBG) && !(BUILD_INFO <= Split(sourceName, SLASH)[0]))
      && (DebugPath(p) in ListDebugFiles(s').1 <==> info.Some? || DebugPath(p) in s.files)
  {
    SavedFiles(s, sourceName, contractName, text, info);
    var p := Path(Split(sourceName, SLASH), contractName + JSON);
    DebugEnding(contractName, JSON);
    assert EndsWith(p.base, JSON) && EndsWith(DebugPath(p).base, DBG_JSON);
  }

  lemma DebugEnding(name: JsString, suffix: JsString)
    ensures EndsWith(name + suffix, DBG + suffix) <==> EndsWith(name, DBG)
  {
    var all := name + suffix;
    if |DBG| <= |name| {
      assert all[|all| - |DBG + suffix|..] == name[|name| - |DBG|..] + suffix;
      if name[|name| - |DBG|..] + suffix == DBG + suffix {
        assert (DBG + suffix)[..|DBG|] == DBG;
        assert (name[|name| - |DBG|..] + suffix)[..|DBG|] == name[|name| - |DBG|..];
      }
    }
  }

  /** Answers are remembered as long as the cache is enabled. */
  lemma AnswersAreRemembered(fs: TrueCase, s: Store, name: JsString)
    requires Honest(fs, s) && s.cache.Some?
    ensures
      var (s', r) := Locate(fs, s, name);
      s'.cache.Some? && (r.Ok? ==> name in s'.cache.value.nameToPath && s'.cache.value.nameToPath[name] == r.value)
    ensures
      var (s', r) := BuildInfo(s, name);
      s'.cache.Some? && (r.Ok? && r.value.Some? ==> name in s'.cache.value.fqnToBuildInfo)
    ensures ListArtifacts(s).0.cache.Some? && ListArtifacts(s).0.cache.value.artifactPaths == Some(ListArtifacts(s).1)
    ensures ListDebugFiles(s).0.cache.Some? && ListDebugFiles(s).0.cache.value.debugFilePaths == Some(ListDebugFiles(s).1)
    ensures ListBuildInfos(s).0.cache.Some? && ListBuildInfos(s).0.cache.value.buildInfoPaths == Some(ListBuildInfos(s).1)
  {}

  // ------------------------------------------------------- what removal leaves behind

  /** The debug file of an artifact is a debug file, and never an artifact. */
  lemma DebugPathIsDebugFile(p: Path)
    requires IsArtifact(p)
    ensures IsDebugFile(DebugPath(p)) && !IsArtifact(DebugPath(p))
  {}

  /** Different artifacts have different debug files. */
  lemma DebugPathInjective(p: Path, q: Path)
    requires IsArtifact(p) && IsArtifact(q) && DebugPath(p) == DebugPath(q)
    ensures p == q
  {
    var stemP, stemQ := p.base[..|p.base| - |JSON|], q.base[..|q.base| - |JSON|];
    assert stemP + DBG_JSON == stemQ + DBG_JSON;
    assert |stemP| == |stemQ|;
    assert stemP == (stemP + DBG_JSON)[..|stemP|] == (stemQ + DBG_JSON)[..|stemQ|] == stemQ;
    assert p.base == stemP + JSON && q.base == stemQ + JSON;
  }

  /** `p` is the debug file of an artifact that is not valid. */
  ghost predicate IsObsoleteDebugFile(files: Files, valid: set<Path>, p: Path) {
    exists q :: q in ArtifactPathsOf(files) && q !in valid && DebugPath(q) == p
  }

  /** Some debug file that stays references this build info. */
  ghost predicate StaysReferenced(files: Files, valid: set<Path>, b: Path) {
    exists d :: d in files && IsDebugFile(d) && !IsObsoleteDebugFile(files, valid, d) && files[d].buildInfo == Some(b)
  }

  /**
   Exactly which files remain, and that they are unchanged: an artifact iff it is valid, a
   build info iff a debug file that stays references it, and any other file iff it is not
   the debug file of a deleted artifact.
   */
  lemma RemovalIsExact(files: Files, valid: set<Path>)
    requires valid <= ArtifactPathsOf(files)
    ensures
      var left := WithoutObsoleteBuildInfos(WithoutObsoleteArtifacts(files, valid));
      && (forall p :: p in left ==> p in files && left[p] == files[p])
      && (forall p :: p in files ==>
            (p in left <==>
             if IsArtifact(p) then p in valid
             else if IsBuildInfo(p) then StaysReferenced(files, valid, p)
             else !IsObsoleteDebugFile(files, valid, p)))
      && (forall p :: p in valid && DebugPath(p) in files ==> !IsObsoleteDebugFile(files, valid, DebugPath(p)))
  {
    forall p | p in files
      ensures
        p in WithoutObsoleteBuildInfos(WithoutObsoleteArtifacts(files, valid)) <==>
        if IsArtifact(p) then p in valid
        else if IsBuildInfo(p) then StaysReferenced(files, valid, p)
        else !IsObsoleteDebugFile(files, valid, p)
    {
      RemainsIff(files, valid, p);
    }
    forall p | p in valid ensures !IsObsoleteDebugFile(files, valid, DebugPath(p)) {
      forall q | q in ArtifactPathsOf(files) && DebugPath(q) == DebugPath(p) ensures q in valid {
        DebugPathInjective(p, q);
      }
    }
  }

  /** The build-info directory holds no artifacts, and so none of their debug files. */
  lemma BuildInfoIsApart(files: Files, valid: set<Path>, b: Path)
    requires IsBuildInfo(b)
    ensures !IsArtifact(b) && !IsObsoleteDebugFile(files, valid, b)
  {
    assert BUILD_INFO <= FirstSegment(b);
    forall q | q in ArtifactPathsOf(files) ensures DebugPath(q) != b {
      assert DebugPath(q).dir == q.dir;
    }
  }

  /** The first phase removes exactly the obsolete artifacts and their debug files. */
  lemma FirstPhase(files: Files, valid: set<Path>, p: Path)
    requires p in files
    ensures p in WithoutObsoleteArtifacts(files, valid) <==>
      !(IsArtifact(p) && p !in valid) && !IsObsoleteDebugFile(files, valid, p)
  {
    var obsolete := ArtifactPathsOf(files) - valid;
    assert p in (set q | q in obsolete :: DebugPath(q)) <==> IsObsoleteDebugFile(files, valid, p);
  }

  lemma RemainsIff(files: Files, valid: set<Path>, p: Path)
    requires valid <= ArtifactPathsOf(files) && p in files
    ensures
      p in WithoutObsoleteBuildInfos(WithoutObsoleteArtifacts(files, valid)) <==>
      if IsArtifact(p) then p in valid
      else if IsBuildInfo(p) then StaysReferenced(files, valid, p)
      else !IsObsoleteDebugFile(files, valid, p)
  {
    var gone := WithoutObsoleteArtifacts(files, valid);
    FirstPhase(files, valid, p);
    if IsArtifact(p) {
      ArtifactSurvives(files, valid, p);
    } else if IsBuildInfo(p) {
      BuildInfoIsApart(files, valid, p);
      assert p in WithoutObsoleteBuildInfos(gone) <==> p in Referenced(gone, DebugFilePathsOf(gone));
      ReferencedIff(files, valid, p);
    }
  }

  lemma ReferencedIff(files: Files, valid: set<Path>, b: Path)
    ensures
      var gone := WithoutObsoleteArtifacts(files, valid);
      b in Referenced(gone, DebugFilePathsOf(gone)) <==> StaysReferenced(files, valid, b)
  {
    var gone := WithoutObsoleteArtifacts(files, valid);
    if b in Referenced(gone, DebugFilePathsOf(gone)) {
      var d :| d in DebugFilePathsOf(gone) && d in gone && gone[d].buildInfo == Some(b);
      FirstPhase(files, valid, d);
      assert files[d] == gone[d];
    }
    if StaysReferenced(files, valid, b) {
      var d :| d in files && IsDebugFile(d) && !IsObsoleteDebugFile(files, valid, d) && files[d].buildInfo == Some(b);
      FirstPhase(files, valid, d);
      assert d in gone && gone[d] == files[d] && d in DebugFilePathsOf(gone);
    }
  }

  lemma ArtifactSurvives(files: Files, valid: set<Path>, p: Path)
    requires valid <= ArtifactPathsOf(files) && p in files && IsArtifact(p)
    ensures
      var artifactsGone := WithoutObsoleteArtifacts(files, valid);
      && (p in artifactsGone <==> p in valid)
      && (p in WithoutObsoleteBuildInfos(artifactsGone) <==> p in valid)
      && (DebugPath(p) in artifactsGone ==> p in valid)
  {}

  /** A remaining debug file still finds its build info, if it did before. */
  lemma NothingDangles(files: Files, valid: set<Path>, d: Path)
    requires valid <= ArtifactPathsOf(files)
    requires d in WithoutObsoleteBuildInfos(WithoutObsoleteArtifacts(files, valid)) && d in files && IsDebugFile(d)
    requires files[d].buildInfo.Some? && files[d].buildInfo.value in files && IsBuildInfo(files[d].buildInfo.value)
    ensures files[d].buildInfo.value in WithoutObsoleteBuildInfos(WithoutObsoleteArtifacts(files, valid))
  {}

  /** A search that reports a path in its own casing reports a file that exists. */
  ghost predicate Reliable(fs: TrueCase) {
    forall paths, p :: fs(paths, p) == Some(p) ==> p in paths
  }

  /** Without a cache every name is looked up on its own. */
  lemma LocateOne(fs: TrueCase, s: Store, names: seq<JsString>)
    requires names != [] && IsFullyQualifiedName(names[0])
    ensures
      var r, rest := LocateAll(fs, Uncached(s), names).1, LocateAll(fs, Uncached(s), names[1..]).1;
      var first := FromFqn(fs, s.files, names[0]);
      && (r.Ok? <==> first.Ok? && rest.Ok?)
      && (r.Ok? ==> r.value == {first.value} + rest.value)
  {
    assert Locate(fs, Uncached(s), names[0]) == (Uncached(s), FromFqn(fs, s.files, names[0]));
  }

  /** All names are found iff each is. */
  lemma {:induction false} AllLocatedIff(fs: TrueCase, s: Store, names: seq<JsString>)
    requires forall i :: 0 <= i < |names| ==> IsFullyQualifiedName(names[i])
    ensures LocateAll(fs, Uncached(s), names).1.Ok? <==> forall i :: 0 <= i < |names| ==> FromFqn(fs, s.files, names[i]).Ok?
  {
    if names != [] {
      var rest := names[1..];
      AllLocatedIff(fs, s, rest);
      LocateOne(fs, s, names);
      assert forall i :: 0 <= i < |names| ==> names[i] == if i == 0 then names[0] else rest[i - 1];
      assert forall i :: 0 <= i < |rest| ==> rest[i] == names[i + 1];
    }
  }

  ghost predicate NamesPath(names: seq<JsString>, p: Path) {
    exists i :: 0 <= i < |names| && FormArtifactPath(names[i]) == Some(p)
  }

  lemma NamesPathTail(names: seq<JsString>, p: Path)
    requires names != []
    ensures NamesPath(names, p) <==> FormArtifactPath(names[0]) == Some(p) || NamesPath(names[1..], p)
  {
    var rest := names[1..];
    if i :| 0 <= i < |rest| && FormArtifactPath(rest[i]) == Some(p) {
      assert FormArtifactPath(names[i + 1]) == Some(p);
    }
    if i :| 0 < i < |names| && FormArtifactPath(names[i]) == Some(p) {
      assert FormArtifactPath(rest[i - 1]) == Some(p);
    }
  }

  /** What is found are the paths the names stand for, and they are on disk. */
  lemma {:induction false} LocatedAre(fs: TrueCase, s: Store, names: seq<JsString>)
    requires Reliable(fs) && forall i :: 0 <= i < |names| ==> IsFullyQualifiedName(names[i])
    requires LocateAll(fs, Uncached(s), names).1.Ok?
    ensures forall p :: p in LocateAll(fs, Uncached(s), names).1.value <==> NamesPath(names, p)
    ensures LocateAll(fs, Uncached(s), names).1.value <= s.files.Keys
  {
    if names != [] {
      LocateOne(fs, s, names);
      LocatedAre(fs, s, names[1..]);
      forall p ensures NamesPath(names, p) <==> FormArtifactPath(names[0]) == Some(p) || NamesPath(names[1..], p) {
        NamesPathTail(names, p);
      }
    }
  }

  lemma FoundInCasingIff(fs: TrueCase, files: Files, names: seq<JsString>)
    requires forall i :: 0 <= i < |names| ==> FormArtifactPath(names[i]).Some?
    ensures (forall i :: 0 <= i < |names| ==> FromFqn(fs, files, names[i]).Ok?) <==>
      forall p :: NamesPath(names, p) ==> fs(files.Keys, p) == Some(p)
  {
    forall i | 0 <= i < |names|
      ensures NamesPath(names, FormArtifactPath(names[i]).value)
      ensures FromFqn(fs, files, names[i]).Ok? <==> fs(files.Keys, FormArtifactPath(names[i]).value) == FormArtifactPath(names[i])
    {
      assert FormArtifactPath(names[i]) == Some(FormArtifactPath(names[i]).value);
    }
  }

  /**
   `removeObsoleteArtifacts` succeeds iff every valid artifact is found on disk in its
   own casing, and then the artifacts left are exactly the valid ones.
   */
  lemma OnlyValidArtifactsRemain(fs: TrueCase, s: Store)
    requires Honest(fs, s) && Reliable(fs)
    requires forall i :: 0 <= i < |s.valid| ==>
      FormArtifactPath(s.valid[i]).Some? && IsArtifact(FormArtifactPath(s.valid[i]).value)
    ensures
      var (s', ok) := RemoveObsolete(fs, s);
      && (ok <==> forall p :: NamesPath(s.valid, p) ==> fs(s.files.Keys, p) == Some(p))
      && (ok ==> forall p ::
            p in ArtifactPathsOf(s'.files) <==> NamesPath(s.valid, p))
      && (!ok ==> s'.files == s.files)
  {
    forall i | 0 <= i < |s.valid| ensures IsFullyQualifiedName(s.valid[i]) {
      PrintParsed(s.valid[i]);
    }
    RemoveObsoleteIs(fs, s);
    AllLocatedIff(fs, s, s.valid);
    FoundInCasingIff(fs, s.files, s.valid);
    var r := LocateAll(fs, Uncached(s), s.valid).1;
    if r.Ok? {
      LocatedAre(fs, s, s.valid);
      RemovalIsExact(s.files, r.value);
    }
  }

  /** `artifactExists`: what `_getArtifactPath` throws, it throws. */
  function ArtifactExists(fs: TrueCase, s: Store, name: JsString): (Store, Result<bool, Error>) {
    match Locate(fs, s, name)
    case (s', Err(e)) => (s', Err(e))
    case (s', Ok(p)) => (s', Ok(p in s'.files))
  }

  /** It never answers false: an artifact that does not exist is an error. */
  lemma ArtifactExistsOrThrows(fs: TrueCase, s: Store, name: JsString)
    requires Honest(fs, s) && Reliable(fs)
    ensures ArtifactExists(fs, s, name).1 != Ok(false)
    ensures ArtifactExists(fs, s, name).1.Ok? <==> PathOf(fs, s.files, name).Ok?
  {
    LocateIsTransparent(fs, s, name);
  }
}
