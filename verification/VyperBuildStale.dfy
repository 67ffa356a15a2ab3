/**
 Two ways in which a successful Vyper run is not a clean build: a version is removed from
 the configuration, or a file changes that a skipped one imports.
 */
module VyperBuildStale {
  import opened Wrappers
  import opened JsStrings
  import opened ContractNames
  import opened Vyper
  import opened VyperBuild

  const FILE: FilePath := [1]
  const OTHER: FilePath := [2]
  const VERSION: Version := [3]
  const OLD: JsString := [4]
  const NEW: JsString := [5]

  /** A file's text is its pragma. The first file imports the other, and what is made of it is that file's text. */
  function Plain(): Tools {
    Tools(p => p, Reader(x => x, x => x, x => false),
      (p: FilePath, text: JsString) => if p == FILE then {OTHER} else {},
      (v: Version, src: Sources, p: FilePath) => Output([], if p == FILE && OTHER in src then src[OTHER] else v),
      v => v)
  }

  function Always(): MaxSatisfying {
    pragma => Some(VERSION)
  }

  function Never(): MaxSatisfying {
    pragma => None
  }

  /** A run over both files. */
  function Both(other: JsString, pick: MaxSatisfying, order: seq<Version>): Run {
    Run(map[FILE := VERSION, OTHER := other], {FILE, OTHER},
        [File(FILE, FILE, VERSION, VERSION), File(OTHER, OTHER, other, other)], pick, order)
  }

  lemma PlainIsSane()
    ensures Sane(Plain()) && CompilerIsLocal(Plain()) && VersionIdentifies(Plain())
  {
    var t := Plain();
    forall v, src, src', p | p in src && ImportClosed(t, src) && Within(src, src')
      ensures t.compile(v, src, p) == t.compile(v, src', p)
    {
    }
  }

  /** A version has a group exactly if some file is to be compiled with it. */
  lemma HasGroupIff(entries: Entries, pick: MaxSatisfying, files: seq<File>, v: Version)
    ensures v in PlaceAll(entries, pick, files).groups <==>
      exists i :: 0 <= i < |files| && FateOf(entries, pick, files[i]) == Compiled(v)
  {
    var groups := PlaceAll(entries, pick, files).groups;
    PlacedByFate(entries, pick, files);
    assert GroupFor(groups, v) == WithFate(entries, pick, files, Compiled(v));
    if v in groups {
      ExactlyOneFate(entries, pick, files, Compiled(v), groups[v][0]);
      var i :| 0 <= i < |files| && files[i] == groups[v][0];
      assert FateOf(entries, pick, files[i]) == Compiled(v);
    }
    if i :| 0 <= i < |files| && FateOf(entries, pick, files[i]) == Compiled(v) {
      ExactlyOneFate(entries, pick, files, Compiled(v), files[i]);
    }
  }

  /** Such a run is valid if its order lists the one version exactly if something is to be compiled. */
  lemma BothIsValid(s: State, other: JsString, pick: MaxSatisfying, order: seq<Version>)
    requires pick == Always() || pick == Never()
    requires order == [VERSION] || order == []
    requires
      var r := Both(other, pick, order);
      Checked(s, r).Ok? ==>
        (order == [VERSION] <==> exists i :: 0 <= i < 2 && FateOf(Checked(s, r).value, pick, r.files[i]).Compiled?)
    ensures ValidRun(Plain(), s, Both(other, pick, order))
  {
    var r := Both(other, pick, order);
    assert r.files[0].path == FILE && r.files[1].path == OTHER;
    assert Holds(r.files, FILE) && Holds(r.files, OTHER);
    if Checked(s, r).Ok? {
      var entries := Checked(s, r).value;
      forall v ensures v in order <==> v in PlaceAll(entries, pick, r.files).groups {
        HasGroupIff(entries, pick, r.files, v);
      }
    }
  }

  /** With nothing cached nothing is checked. */
  lemma NothingCached(r: Run)
    ensures Checked(EMPTY, r) == Ok(map[])
  {
    assert Remaining(EMPTY, r) == map[];
    NothingToInvalidate(Existing(EMPTY.disk), r.files);
  }

  /** The first run compiles both files. */
  ghost predicate FirstRunOk(other: JsString) {
    ValidRun(Plain(), EMPTY, Both(other, Always(), [VERSION])) && Compile(Plain(), EMPTY, Both(other, Always(), [VERSION])).Ok?
  }

  ghost function AfterFirst(other: JsString): State
    requires FirstRunOk(other)
  {
    Compile(Plain(), EMPTY, Both(other, Always(), [VERSION])).value
  }

  lemma FirstRunIsValid(other: JsString)
    ensures FirstRunOk(other)
  {
    var r := Both(other, Always(), [VERSION]);
    NothingCached(r);
    assert FateOf(map[], Always(), r.files[0]).Compiled?;
    BothIsValid(EMPTY, other, Always(), [VERSION]);
    FromScratchIff(Plain(), r);
  }

  /** After it both files are cached and their artifacts there. */
  ghost predicate Built(s: State, other: JsString) {
    var src := map[FILE := VERSION, OTHER := other];
    Fresh(Plain(), s, FILE, VERSION, src) && Fresh(Plain(), s, OTHER, VERSION, src)
  }

  lemma FirstRunBuilds(other: JsString)
    ensures FirstRunOk(other) && Built(AfterFirst(other), other)
  {
    var r := Both(other, Always(), [VERSION]);
    FirstRunIsValid(other);
    PlainIsSane();
    FirstRunCompiles(other, 0);
    FirstRunCompiles(other, 1);
  }

  lemma FirstRunCompiles(other: JsString, i: nat)
    requires FirstRunOk(other) && i < 2 && Sane(Plain())
    ensures Fresh(Plain(), AfterFirst(other), Both(other, Always(), [VERSION]).files[i].path, VERSION,
                  map[FILE := VERSION, OTHER := other])
  {
    var r := Both(other, Always(), [VERSION]);
    NothingCached(r);
    FileAfter(Plain(), EMPTY, r, i);
  }

  /** Nothing is missing afterwards. */
  lemma NothingMissing(s: State, before: JsString, now: JsString, pick: MaxSatisfying, order: seq<Version>)
    requires Built(s, before)
    ensures Checked(s, Both(now, pick, order)) == Ok(Remaining(s, Both(now, pick, order)))
  {
    var r := Both(now, pick, order);
    var entries, lookup := Remaining(s, r), Existing(s.disk);
    forall i | 0 <= i < |r.files| ensures Backed(lookup, entries, r.files[i]) {
      var artifacts := entries[r.files[i].path].artifacts;
      assert artifacts == [[]] && artifacts[1..] == [];
      assert lookup(GetFullyQualifiedName(r.files[i].sourceName, artifacts[0])) == Ok(true);
      assert AllExist(lookup, r.files[i].sourceName, artifacts[1..]) == Ok(true);
    }
    MissingArtifactIsAnError(lookup, entries, r.files);
  }

  /** A file is skipped next time exactly if its text is unchanged and names the recorded version. */
  lemma SkippedNext(s: State, before: JsString, now: JsString, pick: MaxSatisfying, order: seq<Version>)
    requires Built(s, before)
    ensures
      var r := Both(now, pick, order);
      && Checked(s, r).Ok?
      && FateOf(Checked(s, r).value, pick, r.files[0]).Skipped?
      && (FateOf(Checked(s, r).value, pick, r.files[1]).Skipped? <==> before == now == VERSION)
  {
    NothingMissing(s, before, now, pick, order);
  }

  // ------------------------------------------------------------- a changed import

  lemma SecondRunIsValid(s: State)
    requires Built(s, OLD)
    ensures ValidRun(Plain(), s, Both(NEW, Always(), [VERSION])) && Compile(Plain(), s, Both(NEW, Always(), [VERSION])).Ok?
  {
    var second := Both(NEW, Always(), [VERSION]);
    SkippedNext(s, OLD, NEW, Always(), [VERSION]);
    assert FateOf(Checked(s, second).value, Always(), second.files[1]).Compiled?;
    BothIsValid(s, NEW, Always(), [VERSION]);
    SucceedsIff(Plain(), s, second);
  }

  /**
   A file that the first one imports is changed. The next run succeeds and recompiles that
   file only, so that the first one is not what a clean build leaves.
   */
  lemma ChangedImportIsMissed()
    ensures Sane(Plain()) && CompilerIsLocal(Plain()) && VersionIdentifies(Plain())
    ensures FirstRunOk(OLD)
    ensures
      var s, second := AfterFirst(OLD), Both(NEW, Always(), [VERSION]);
      && ValidRun(Plain(), s, second) && Compile(Plain(), s, second).Ok?
      && !LeftClean(Plain(), Compile(Plain(), s, second).value, second, FILE)
  {
    PlainIsSane();
    FirstRunBuilds(OLD);
    var s, second := AfterFirst(OLD), Both(NEW, Always(), [VERSION]);
    SecondRunIsValid(s);
    SkippedNext(s, OLD, NEW, Always(), [VERSION]);
    FileIsCleanIff(Plain(), s, second, 0, VERSION, map[FILE := VERSION, OTHER := OLD]);
  }

  // ------------------------------------------------------------ a removed version

  /**
   After both files were compiled with the version their pragmas name, that version is removed
   from the configuration. The next run skips both and succeeds; from scratch it fails.
   */
  lemma RemovedVersionGoesUnnoticed()
    ensures FirstRunOk(VERSION)
    ensures
      var s, second := AfterFirst(VERSION), Both(VERSION, Never(), []);
      && ValidRun(Plain(), s, second) && Compile(Plain(), s, second).Ok?
      && ValidRun(Plain(), EMPTY, second) && Compile(Plain(), EMPTY, second).Err?
  {
    FirstRunBuilds(VERSION);
    SkippingRunSucceeds(AfterFirst(VERSION));
    ScratchFails();
  }

  lemma SkippingRunSucceeds(s: State)
    requires Built(s, VERSION)
    ensures ValidRun(Plain(), s, Both(VERSION, Never(), [])) && Compile(Plain(), s, Both(VERSION, Never(), [])).Ok?
  {
    SkippedNext(s, VERSION, VERSION, Never(), []);
    BothIsValid(s, VERSION, Never(), []);
    SucceedsIff(Plain(), s, Both(VERSION, Never(), []));
  }

  lemma ScratchFails()
    ensures ValidRun(Plain(), EMPTY, Both(VERSION, Never(), [])) && Compile(Plain(), EMPTY, Both(VERSION, Never(), [])).Err?
  {
    var r := Both(VERSION, Never(), []);
    NothingCached(r);
    BothIsValid(EMPTY, VERSION, Never(), []);
    FromScratchIff(Plain(), r);
    assert r.pick(r.files[0].pragma).None?;
  }
}
