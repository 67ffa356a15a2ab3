/**
 The Vyper plugin: its files cache, the parser with its two-level memo, and the
 part of the compile task that decides which file is compiled with which version.
 */
module Vyper {
  import opened Wrappers
  import opened JsStrings
  import opened Sequences
  import opened ContractNames
  import ArtifactStore

  type FilePath = JsString
  type Hash = JsString
  type Version = JsString
  type Pragma = JsString

  datatype Entry = Entry(
    contentHash: Hash,
    sourceName: JsString,
    version: Version,        // the version the compiler reported
    pragma: Pragma,
    artifacts: seq<JsString>
  )

  type Entries = map<FilePath, Entry>

  datatype File = File(path: FilePath, sourceName: JsString, contentHash: Hash, pragma: Pragma)

  datatype Error = Thrown

  /** `hasFileChanged(path, hash, {version})`: the last argument is compared with the recorded version. */
  predicate HasFileChanged(entries: Entries, path: FilePath, hash: Hash, version: Version) {
    path !in entries || entries[path].contentHash != hash || entries[path].version != version
  }

  class VyperFilesCache {
    var files: Entries

    constructor (files: Entries)
      ensures this.files == files
    {
      this.files := files;
    }

    method AddFile(path: FilePath, entry: Entry)
      modifies this
      ensures files == old(files)[path := entry]
    {
      files := files[path := entry];
    }

    method RemoveEntry(path: FilePath)
      modifies this
      ensures files == old(files) - {path}
    {
      files := files - {path};
    }

    method RemoveNonExistingFiles(exists_: FilePath -> bool)
      modifies this
      ensures files == map p | p in old(files) && exists_(p) :: old(files)[p]
    {
      var todo := files.Keys;
      while todo != {}
        invariant todo <= old(files).Keys
        invariant files == map p | p in old(files) && (exists_(p) || p in todo) :: old(files)[p]
      {
        var p :| p in todo;
        if !exists_(p) {
          RemoveEntry(p);
        }
        todo := todo - {p};
      }
    }

    method CheckFileChanged(path: FilePath, hash: Hash, version: Option<Version>) returns (changed: bool)
      ensures version.Some? ==> changed == HasFileChanged(files, path, hash, version.value)
      ensures version.None? ==> changed == (path !in files || files[path].contentHash != hash)
    {
      if path !in files {
        return true;
      }
      if files[path].contentHash != hash {
        return true;
      }
      if version.Some? && version.value != files[path].version {
        return true;
      }
      return false;
    }
  }

  /** `invalidateCacheMissingArtifacts` on the cache object. */
  method InvalidateCacheMissingArtifacts(cache: VyperFilesCache, lookup: Lookup, files: seq<File>) returns (ok: bool)
    modifies cache
    ensures ok == Invalidate(lookup, old(cache.files), files).Ok?
    ensures ok ==> Invalidate(lookup, old(cache.files), files) == Ok(cache.files)
  {
    for i := 0 to |files|
      invariant Invalidate(lookup, old(cache.files), files) == Invalidate(lookup, cache.files, files[i..])
    {
      var file := files[i];
      assert files[i..][0] == file && files[i..][1..] == files[i + 1..];
      if file.path !in cache.files {
        continue;
      }
      var artifacts := cache.files[file.path].artifacts;
      ghost var before := cache.files;
      var missing := false;
      var k := 0;
      while k < |artifacts|
        invariant 0 <= k <= |artifacts| && cache.files == before
        invariant AllExist(lookup, file.sourceName, artifacts) == AllExist(lookup, file.sourceName, artifacts[k..])
      {
        assert artifacts[k..][0] == artifacts[k] && artifacts[k..][1..] == artifacts[k + 1..];
        var exists_ := lookup(GetFullyQualifiedName(file.sourceName, artifacts[k]));
        if exists_.Err? {
          return false;
        }
        if !exists_.value {
          missing := true;
          break;
        }
        k := k + 1;
      }
      if missing {
        cache.RemoveEntry(file.path);
      }
    }
    return true;
  }

  // ------------------------------------------------------------------------ the parser

  class VyperParser {
    var memo: map<Hash, Pragma>
    const cache: VyperFilesCache

    constructor (cache: VyperFilesCache)
      ensures this.cache == cache && memo == map[]
    {
      this.cache, this.memo := cache, map[];
    }

    method ParseFile(r: Reader, content: JsString, path: FilePath, hash: Hash) returns (result: Result<Pragma, Error>)
      modifies this
      ensures (Parser(memo, cache.files), result) == Parse(r, Parser(old(memo), cache.files), content, path, hash)
    {
      if r.usesTestMode(content) {
        return Err(Thrown);
      }
      if hash in memo {
        return Ok(memo[hash]);
      }
      if path in cache.files && cache.files[path].contentHash == hash {
        return Ok(cache.files[path].pragma);
      }
      memo := memo[hash := r.pragma(content)];
      return Ok(r.pragma(content));
    }
  }

  /** Hashing, pragma extraction and the check for test directives. */
  datatype Reader = Reader(
    hash: JsString -> Hash,
    pragma: JsString -> Pragma,
    usesTestMode: JsString -> bool
  )

  ghost predicate HashInjective(r: Reader) {
    forall x, y :: r.hash(x) == r.hash(y) ==> x == y
  }

  /** `pragma` is the version pragma of whatever content has this hash. */
  ghost predicate HonestPragma(r: Reader, hash: Hash, pragma: Pragma) {
    forall content :: r.hash(content) == hash ==> r.pragma(content) == pragma
  }

  ghost predicate HonestMemo(r: Reader, memo: map<Hash, Pragma>) {
    forall h :: h in memo ==> HonestPragma(r, h, memo[h])
  }

  ghost predicate HonestEntries(r: Reader, entries: Entries) {
    forall p :: p in entries ==> HonestPragma(r, entries[p].contentHash, entries[p].pragma)
  }

  datatype Parser = Parser(memo: map<Hash, Pragma>, entries: Entries)

  /** `Parser.parse`: the memo of this run, then the files cache, then the text. */
  function Parse(r: Reader, p: Parser, content: JsString, path: FilePath, hash: Hash): (Parser, Result<Pragma, Error>) {
    if r.usesTestMode(content) then (p, Err(Thrown))
    else if hash in p.memo then (p, Ok(p.memo[hash]))
    else if path in p.entries && p.entries[path].contentHash == hash then (p, Ok(p.entries[path].pragma))
    else (p.(memo := p.memo[hash := r.pragma(content)]), Ok(r.pragma(content)))
  }

  datatype ParserEvent =
    | Parses(content: JsString, path: FilePath)
    | AddsFile(path: FilePath, entry: Entry)
    | RemovesEntry(path: FilePath)

  function ParserStep(r: Reader, p: Parser, e: ParserEvent): Parser {
    match e
    case Parses(content, path) => Parse(r, p, content, path, r.hash(content)).0
    case AddsFile(path, entry) => p.(entries := p.entries[path := entry])
    case RemovesEntry(path) => p.(entries := p.entries - {path})
  }

  function ParserRun(r: Reader, p: Parser, events: seq<ParserEvent>): Parser {
    if events == [] then p else ParserStep(r, ParserRun(r, p, events[..|events| - 1]), events[|events| - 1])
  }

  ghost predicate HonestEvents(r: Reader, events: seq<ParserEvent>) {
    forall i :: 0 <= i < |events| && events[i].AddsFile? ==>
      HonestPragma(r, events[i].entry.contentHash, events[i].entry.pragma)
  }

  /** A parse keeps both memos honest and gives what the text itself says. */
  lemma ParseIsHonest(r: Reader, p: Parser, content: JsString, path: FilePath)
    requires HashInjective(r) && HonestMemo(r, p.memo) && HonestEntries(r, p.entries)
    ensures
      var (p', result) := Parse(r, p, content, path, r.hash(content));
      && HonestMemo(r, p'.memo) && p'.entries == p.entries
      && result == if r.usesTestMode(content) then Err(Thrown) else Ok(r.pragma(content))
  {}

  /** Parsing the same file twice reads it once: the second time any reader gives the first answer. */
  lemma ParsingAgainReadsNothing(r: Reader, again: Reader, p: Parser, content: JsString, path: FilePath, hash: Hash)
    requires again.usesTestMode(content) == r.usesTestMode(content)
    ensures Parse(again, Parse(r, p, content, path, hash).0, content, path, hash) == Parse(r, p, content, path, hash)
  {}

  lemma {:induction false} ParserStaysHonest(r: Reader, p: Parser, events: seq<ParserEvent>)
    requires HashInjective(r) && HonestMemo(r, p.memo) && HonestEntries(r, p.entries) && HonestEvents(r, events)
    ensures HonestMemo(r, ParserRun(r, p, events).memo) && HonestEntries(r, ParserRun(r, p, events).entries)
  {
    if events != [] {
      var before := events[..|events| - 1];
      assert forall i :: 0 <= i < |before| ==> before[i] == events[i];
      ParserStaysHonest(r, p, before);
      var e := events[|events| - 1];
      if e.Parses? {
        ParseIsHonest(r, ParserRun(r, p, before), e.content, e.path);
      }
    }
  }

  /** After any calls, interleaved with honest changes of the cache, `parse` returns what the text says. */
  lemma {:induction false} ParseIsTransparent(r: Reader, entries: Entries, events: seq<ParserEvent>, content: JsString, path: FilePath)
    requires HashInjective(r) && HonestEntries(r, entries) && HonestEvents(r, events)
    ensures Parse(r, ParserRun(r, Parser(map[], entries), events), content, path, r.hash(content)).1
         == if r.usesTestMode(content) then Err(Thrown) else Ok(r.pragma(content))
  {
    ParserStaysHonest(r, Parser(map[], entries), events);
    ParseIsHonest(r, ParserRun(r, Parser(map[], entries), events), content, path);
  }

  /** The entry the compile task records for a parsed file is honest. */
  lemma RecordedEntryIsHonest(r: Reader, content: JsString, sourceName: JsString, version: Version, artifacts: seq<JsString>)
    requires HashInjective(r)
    ensures
      var entry := Entry(r.hash(content), sourceName, version, r.pragma(content), artifacts);
      HonestPragma(r, entry.contentHash, entry.pragma)
  {}

  // ----------------------------------------------------- invalidating missing artifacts

  /** `artifacts.artifactExists`; an error stands for a thrown error. */
  type Lookup = JsString -> Result<bool, Error>

  /** The inner loop: Ok(false) as soon as an artifact is reported missing. */
  function AllExist(lookup: Lookup, sourceName: JsString, artifacts: seq<JsString>): Result<bool, Error> {
    if artifacts == [] then Ok(true)
    else
      match lookup(GetFullyQualifiedName(sourceName, artifacts[0]))
      case Err(_) => Err(Thrown)
      case Ok(false) => Ok(false)
      case Ok(true) => AllExist(lookup, sourceName, artifacts[1..])
  }

  /** `invalidateCacheMissingArtifacts` */
  function Invalidate(lookup: Lookup, entries: Entries, files: seq<File>): Result<Entries, Error>
    decreases files
  {
    if files == [] then Ok(entries)
    else if files[0].path !in entries then Invalidate(lookup, entries, files[1..])
    else
      match AllExist(lookup, files[0].sourceName, entries[files[0].path].artifacts)
      case Err(_) => Err(Thrown)
      case Ok(true) => Invalidate(lookup, entries, files[1..])
      case Ok(false) => Invalidate(lookup, entries - {files[0].path}, files[1..])
  }

  /** All artifacts recorded for the file exist. */
  ghost predicate Backed(lookup: Lookup, entries: Entries, f: File) {
    f.path in entries ==> AllExist(lookup, f.sourceName, entries[f.path].artifacts) == Ok(true)
  }

  /** What survives was there before, and every resolved file that survives has all its artifacts. */
  lemma {:induction false} InvalidateKeepsOnlyBacked(lookup: Lookup, entries: Entries, files: seq<File>)
    ensures
      var r := Invalidate(lookup, entries, files);
      r.Ok? ==>
        && (forall p :: p in r.value ==> p in entries && r.value[p] == entries[p])
        && (forall i :: 0 <= i < |files| ==> Backed(lookup, r.value, files[i]))
    decreases files
  {
    if files != [] {
      var f := files[0];
      var next := if f.path in entries && AllExist(lookup, f.sourceName, entries[f.path].artifacts) == Ok(false)
                  then entries - {f.path} else entries;
      InvalidateKeepsOnlyBacked(lookup, next, files[1..]);
      var r := Invalidate(lookup, entries, files);
      if r.Ok? {
        if f.path in r.value {
          assert f.path in next && r.value[f.path] == entries[f.path];
          assert AllExist(lookup, f.sourceName, entries[f.path].artifacts) == Ok(true);
        }
        assert Backed(lookup, r.value, f);
        forall i | 0 < i < |files| ensures Backed(lookup, r.value, files[i]) {
          assert files[i] == files[1..][i - 1];
        }
      }
    }
  }

  /** An entry is dropped exactly if it belongs to a resolved file one of whose artifacts does not exist. */
  lemma {:induction false} InvalidateExactly(lookup: Lookup, entries: Entries, files: seq<File>)
    requires Invalidate(lookup, entries, files).Ok?
    ensures forall p :: p in Invalidate(lookup, entries, files).value <==>
      p in entries && forall i :: 0 <= i < |files| && files[i].path == p ==> Backed(lookup, entries, files[i])
    decreases files
  {
    if files != [] {
      var f, rest := files[0], files[1..];
      var next := if Backed(lookup, entries, f) then entries else entries - {f.path};
      InvalidateExactly(lookup, next, rest);
      assert Invalidate(lookup, entries, files) == Invalidate(lookup, next, rest);
      forall p
        ensures p in Invalidate(lookup, entries, files).value <==>
          p in entries && forall i :: 0 <= i < |files| && files[i].path == p ==> Backed(lookup, entries, files[i])
      {
        assert forall i :: 0 <= i < |rest| ==> rest[i] == files[i + 1];
        assert forall i :: 0 < i < |files| ==> files[i] == rest[i - 1];
        if p in next {
          assert forall i :: 0 <= i < |rest| && rest[i].path == p ==> (Backed(lookup, next, rest[i]) <==> Backed(lookup, entries, rest[i]));
        }
      }
    }
  }

  /** A lookup that throws for what does not exist, as `artifactExists` does. */
  ghost predicate NeverFalse(lookup: Lookup) {
    forall name :: lookup(name) != Ok(false)
  }

  lemma {:induction false} AllExistNeverFalse(lookup: Lookup, sourceName: JsString, artifacts: seq<JsString>)
    requires NeverFalse(lookup)
    ensures AllExist(lookup, sourceName, artifacts) != Ok(false)
  {
    if artifacts != [] {
      AllExistNeverFalse(lookup, sourceName, artifacts[1..]);
    }
  }

  /**
   With the lookup the store provides nothing is ever invalidated: compilation fails if
   an artifact of a cached file is missing, and otherwise leaves the cache as it is.
   */
  lemma {:induction false} MissingArtifactIsAnError(lookup: Lookup, entries: Entries, files: seq<File>)
    requires NeverFalse(lookup)
    ensures Invalidate(lookup, entries, files) ==
      if forall i :: 0 <= i < |files| ==> Backed(lookup, entries, files[i]) then Ok(entries) else Err(Thrown)
    decreases files
  {
    if files != [] {
      var f, rest := files[0], files[1..];
      MissingArtifactIsAnError(lookup, entries, rest);
      if f.path in entries {
        AllExistNeverFalse(lookup, f.sourceName, entries[f.path].artifacts);
      }
      if (forall i :: 0 <= i < |rest| ==> Backed(lookup, entries, rest[i])) && Backed(lookup, entries, f) {
        forall i | 0 <= i < |files| ensures Backed(lookup, entries, files[i]) {
          if i > 0 { assert files[i] == rest[i - 1]; }
        }
      }
      if forall i :: 0 <= i < |files| ==> Backed(lookup, entries, files[i]) {
        assert Backed(lookup, entries, files[0]);
        forall i | 0 <= i < |rest| ensures Backed(lookup, entries, rest[i]) {
          assert rest[i] == files[i + 1];
        }
      }
    }
  }

  /** `artifactExists` of the artifact store, in its present state. */
  function StoreLookup(fs: ArtifactStore.TrueCase, s: ArtifactStore.Store): Lookup {
    name =>
      match ArtifactStore.ArtifactExists(fs, s, name).1
      case Ok(b) => Ok(b)
      case Err(_) => Err(Thrown)
  }

  lemma StoreLookupNeverFalse(fs: ArtifactStore.TrueCase, s: ArtifactStore.Store)
    requires ArtifactStore.Honest(fs, s) && ArtifactStore.Reliable(fs)
    ensures NeverFalse(StoreLookup(fs, s))
  {
    forall name ensures StoreLookup(fs, s)(name) != Ok(false) {
      ArtifactStore.ArtifactExistsOrThrows(fs, s, name);
    }
  }

  // -------------------------------------------------------------- grouping by version

  /** `semver.maxSatisfying(configured, pragma)` */
  type MaxSatisfying = Pragma -> Option<Version>

  /** Where a resolved file goes. */
  datatype Fate = Skipped | Unmatched | Compiled(version: Version)

  function FateOf(entries: Entries, pick: MaxSatisfying, f: File): Fate {
    if !HasFileChanged(entries, f.path, f.contentHash, f.pragma) then Skipped
    else if pick(f.pragma).None? then Unmatched
    else Compiled(pick(f.pragma).value)
  }

  /** The files with a given fate, in order. */
  function WithFate(entries: Entries, pick: MaxSatisfying, files: seq<File>, fate: Fate): seq<File> {
    if files == [] then []
    else
      var last := files[|files| - 1];
      WithFate(entries, pick, files[..|files| - 1], fate) + (if FateOf(entries, pick, last) == fate then [last] else [])
  }

  /** `groups` holds exactly the files to compile, under their version and in order. */
  ghost predicate GroupsAre(entries: Entries, pick: MaxSatisfying, files: seq<File>, groups: map<Version, seq<File>>) {
    forall v :: GroupFor(groups, v) == WithFate(entries, pick, files, Compiled(v)) && (v in groups ==> groups[v] != [])
  }

  function GroupFor(groups: map<Version, seq<File>>, v: Version): seq<File> {
    if v in groups then groups[v] else []
  }

  datatype Placement = Placement(groups: map<Version, seq<File>>, unmatched: seq<File>)

  function Place(entries: Entries, pick: MaxSatisfying, p: Placement, f: File): Placement {
    var fate := FateOf(entries, pick, f);
    match fate
    case Skipped => p
    case Unmatched => p.(unmatched := p.unmatched + [f])
    case Compiled(v) => p.(groups := p.groups[v := GroupFor(p.groups, v) + [f]])
  }

  function PlaceAll(entries: Entries, pick: MaxSatisfying, files: seq<File>): Placement {
    if files == [] then Placement(map[], [])
    else Place(entries, pick, PlaceAll(entries, pick, files[..|files| - 1]), files[|files| - 1])
  }

  /** Every file goes to exactly one place, in order. */
  lemma {:induction false} PlacedByFate(entries: Entries, pick: MaxSatisfying, files: seq<File>)
    ensures GroupsAre(entries, pick, files, PlaceAll(entries, pick, files).groups)
    ensures PlaceAll(entries, pick, files).unmatched == WithFate(entries, pick, files, Unmatched)
  {
    if files != [] {
      var init, last := files[..|files| - 1], files[|files| - 1];
      assert files == init + [last];
      PlacedByFate(entries, pick, init);
      FateStep(entries, pick, init, last);
      GroupsStep(entries, pick, init, last, PlaceAll(entries, pick, init).groups);
    }
  }

  /** The loop of the compile task. */
  method GroupFiles(entries: Entries, pick: MaxSatisfying, files: seq<File>)
    returns (groups: map<Version, seq<File>>, unmatched: seq<File>)
    ensures Placement(groups, unmatched) == PlaceAll(entries, pick, files)
  {
    groups, unmatched := map[], [];
    for i := 0 to |files|
      invariant Placement(groups, unmatched) == PlaceAll(entries, pick, files[..i])
    {
      var file := files[i];
      assert files[..i + 1][..i] == files[..i] && files[..i + 1][i] == file;
      if !HasFileChanged(entries, file.path, file.contentHash, file.pragma) {
        continue;
      }
      var version := pick(file.pragma);
      if version.None? {
        unmatched := unmatched + [file];
        continue;
      }
      if version.value !in groups {
        assert GroupFor(groups, version.value) + [file] == [file];
        groups := groups[version.value := [file]];
        continue;
      }
      groups := groups[version.value := groups[version.value] + [file]];
    }
    assert files[..|files|] == files;
  }

  lemma FateStep(entries: Entries, pick: MaxSatisfying, files: seq<File>, f: File)
    ensures
      var fate := FateOf(entries, pick, f);
      && WithFate(entries, pick, files + [f], fate) == WithFate(entries, pick, files, fate) + [f]
      && forall other :: other != fate ==>
           WithFate(entries, pick, files + [f], other) == WithFate(entries, pick, files, other)
  {}

  lemma GroupsStep(entries: Entries, pick: MaxSatisfying, files: seq<File>, f: File, groups: map<Version, seq<File>>)
    requires GroupsAre(entries, pick, files, groups)
    ensures
      var fate := FateOf(entries, pick, f);
      GroupsAre(entries, pick, files + [f],
                if fate.Compiled? then groups[fate.version := GroupFor(groups, fate.version) + [f]] else groups)
  {}

  /** Each file is in the list of its fate, and in no other. */
  lemma {:induction false} ExactlyOneFate(entries: Entries, pick: MaxSatisfying, files: seq<File>, fate: Fate, f: File)
    ensures f in WithFate(entries, pick, files, fate) <==> f in files && FateOf(entries, pick, f) == fate
  {
    if files != [] {
      ExactlyOneFate(entries, pick, files[..|files| - 1], fate, f);
      assert files == files[..|files| - 1] + [files[|files| - 1]];
    }
  }

  function HasFate(entries: Entries, pick: MaxSatisfying, fate: Fate): File -> bool {
    f => FateOf(entries, pick, f) == fate
  }

  /** The files of a fate are all those with it, as often and in the order they were resolved. */
  lemma FatesKeepOrder(entries: Entries, pick: MaxSatisfying, files: seq<File>, fate: Fate)
    ensures Filters(files, HasFate(entries, pick, fate), WithFate(entries, pick, files, fate))
  {
    WithFateIsFilter(entries, pick, files, fate);
    FilterFilters(files, HasFate(entries, pick, fate));
  }

  lemma {:induction false} WithFateIsFilter(entries: Entries, pick: MaxSatisfying, files: seq<File>, fate: Fate)
    ensures WithFate(entries, pick, files, fate) == Filter(files, HasFate(entries, pick, fate))
  {
    if files != [] {
      WithFateIsFilter(entries, pick, files[..|files| - 1], fate);
    }
  }

  /** What `maxSatisfying` promises. */
  ghost predicate PicksMaximum(pick: MaxSatisfying, configured: set<Version>, satisfies: (Version, Pragma) -> bool, newer: (Version, Version) -> bool) {
    forall pragma ::
      && (pick(pragma).Some? ==>
            && pick(pragma).value in configured
            && satisfies(pick(pragma).value, pragma)
            && forall v :: v in configured && satisfies(v, pragma) ==> !newer(v, pick(pragma).value))
      && (pick(pragma).None? ==> forall v :: v in configured ==> !satisfies(v, pragma))
  }

  /**
   After a successful invalidation: a file is skipped exactly if its entry has the
   same hash and the compiler version recorded there is literally its pragma, and then
   all recorded artifacts exist; otherwise it is compiled with the newest configured
   version its pragma allows, or unmatched if there is none.
   */
  lemma FateIsJustified(lookup: Lookup, before: Entries, files: seq<File>, i: nat, pick: MaxSatisfying,
                        configured: set<Version>, satisfies: (Version, Pragma) -> bool, newer: (Version, Version) -> bool)
    requires i < |files| && Invalidate(lookup, before, files).Ok?
    requires PicksMaximum(pick, configured, satisfies, newer)
    ensures
      var entries := Invalidate(lookup, before, files).value;
      var f := files[i];
      match FateOf(entries, pick, f)
      case Skipped =>
        && f.path in before && before[f.path].contentHash == f.contentHash && before[f.path].version == f.pragma
        && AllExist(lookup, f.sourceName, before[f.path].artifacts) == Ok(true)
      case Unmatched =>
        && (forall v :: v in configured ==> !satisfies(v, f.pragma))
        && (f.path in entries ==> entries[f.path].contentHash != f.contentHash || entries[f.path].version != f.pragma)
      case Compiled(v) =>
        && v in configured && satisfies(v, f.pragma)
        && (forall w :: w in configured && satisfies(w, f.pragma) ==> !newer(w, v))
        && (f.path in entries ==> entries[f.path].contentHash != f.contentHash || entries[f.path].version != f.pragma)
  {
    InvalidateKeepsOnlyBacked(lookup, before, files);
    var entries := Invalidate(lookup, before, files).value;
    assert Backed(lookup, entries, files[i]);
  }
}
