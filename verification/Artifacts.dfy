/**
 The class `Artifacts` as it is written: a cache object that is replaced and
 filled in, and files that are written and unlinked one by one.
 */
module Artifacts {
  import opened Wrappers
  import opened JsStrings
  import opened ContractNames
  import opened ArtifactStore

  class Artifacts {
    const fs: TrueCase
    var files: Files
    var cache: Option<Cache>
    var validArtifacts: seq<JsString>

    ghost function Now(): Store
      reads this
    {
      Store(files, cache, validArtifacts)
    }

    constructor (fs: TrueCase, files: Files)
      ensures this.fs == fs && Now() == Store(files, Some(EMPTY), [])
      ensures Honest(fs, Now())
    {
      this.fs, this.files, this.cache, this.validArtifacts := fs, files, Some(EMPTY), [];
    }

    method AddValidArtifacts(fqns: seq<JsString>)
      modifies this`validArtifacts
      ensures Now() == old(Now()).(valid := old(validArtifacts) + fqns)
    {
      validArtifacts := validArtifacts + fqns;
    }

    method ClearCache()
      modifies this`cache
      ensures Now() == Cleared(old(Now()))
    {
      if cache.None? {
        return;
      }
      cache := Some(EMPTY);
    }

    method DisableCache()
      modifies this`cache
      ensures Now() == Uncached(old(Now()))
    {
      cache := None;
    }

    method GetArtifactPaths() returns (paths: set<Path>)
      modifies this`cache
      ensures (Now(), paths) == ListArtifacts(old(Now()))
    {
      if cache.Some? && cache.value.artifactPaths.Some? {
        return cache.value.artifactPaths.value;
      }
      paths := set p | p in files.Keys && IsArtifact(p);
      if cache.Some? {
        cache := Some(cache.value.(artifactPaths := Some(paths)));
      }
    }

    method GetDebugFilePaths() returns (paths: set<Path>)
      modifies this`cache
      ensures (Now(), paths) == ListDebugFiles(old(Now()))
    {
      if cache.Some? && cache.value.debugFilePaths.Some? {
        return cache.value.debugFilePaths.value;
      }
      paths := set p | p in files.Keys && IsDebugFile(p);
      if cache.Some? {
        cache := Some(cache.value.(debugFilePaths := Some(paths)));
      }
    }

    method GetBuildInfoPaths() returns (paths: set<Path>)
      modifies this`cache
      ensures (Now(), paths) == ListBuildInfos(old(Now()))
    {
      if cache.Some? && cache.value.buildInfoPaths.Some? {
        return cache.value.buildInfoPaths.value;
      }
      paths := set p | p in files.Keys && IsBuildInfo(p);
      if cache.Some? {
        cache := Some(cache.value.(buildInfoPaths := Some(paths)));
      }
    }

    /** `_getArtifactPath`, behind `readArtifact` and `artifactExists`. */
    method GetArtifactPath(name: JsString) returns (r: Result<Path, Error>)
      modifies this`cache
      ensures (Now(), r) == Locate(fs, old(Now()), name)
    {
      if cache.Some? && name in cache.value.nameToPath {
        return Ok(cache.value.nameToPath[name]);
      }
      if IsFullyQualifiedName(name) {
        r := FromFqn(fs, files, name);
        if r == Err(NotFound) {
          var _ := GetArtifactPaths();
        }
      } else {
        var paths := GetArtifactPaths();
        r := FromFiles(name, paths);
      }
      if cache.Some? && r.Ok? {
        cache := Some(cache.value.(nameToPath := cache.value.nameToPath[name := r.value]));
      }
    }

    method GetBuildInfo(fqn: JsString) returns (r: Result<Option<File>, Error>)
      modifies this`cache
      ensures (Now(), r) == BuildInfo(old(Now()), fqn)
    {
      if cache.Some? && fqn in cache.value.fqnToBuildInfo {
        return Read(files, cache.value.fqnToBuildInfo[fqn]);
      }
      var path := BuildInfoPathOf(files, fqn);
      if path.Err? {
        return Err(path.error);
      }
      if path.value.None? {
        return Ok(None);
      }
      if cache.Some? {
        cache := Some(cache.value.(fqnToBuildInfo := cache.value.fqnToBuildInfo[fqn := path.value.value]));
      }
      return Read(files, path.value.value);
    }

    method SaveArtifactAndDebugFile(sourceName: JsString, contractName: JsString, text: JsString, pathToBuildInfo: Option<Path>)
      modifies this`files, this`cache
      ensures Now() == Saved(old(Now()), sourceName, contractName, text, pathToBuildInfo)
    {
      var path := FormArtifactPath(GetFullyQualifiedName(sourceName, contractName));
      if path.Some? {
        files := files[path.value := File(text, None)];
        if pathToBuildInfo.Some? {
          files := files[DebugPath(path.value) := File([], pathToBuildInfo)];
        }
      }
      ClearCache();
    }

    method Unlink(paths: set<Path>)
      modifies this`files
      ensures files == old(files) - paths
    {
      var todo := paths;
      while todo != {}
        invariant todo <= paths && files == old(files) - (paths - todo)
      {
        var p :| p in todo;
        ghost var done := paths - todo;
        files := files - {p};
        todo := todo - {p};
        assert paths - todo == done + {p};
      }
      assert paths - {} == paths;
    }

    method LocateValid() returns (r: Result<set<Path>, Error>)
      modifies this`cache
      ensures (Now(), r) == LocateAll(fs, old(Now()), validArtifacts)
    {
      r := LocateFrom(0);
      assert validArtifacts[0..] == validArtifacts;
    }

    method LocateFrom(i: nat) returns (r: Result<set<Path>, Error>)
      requires i <= |validArtifacts|
      modifies this`cache
      ensures (Now(), r) == LocateAll(fs, old(Now()), validArtifacts[i..])
      decreases |validArtifacts| - i
    {
      if i == |validArtifacts| {
        return Ok({});
      }
      assert validArtifacts[i..][0] == validArtifacts[i] && validArtifacts[i..][1..] == validArtifacts[i + 1..];
      var path := GetArtifactPath(validArtifacts[i]);
      if path.Err? {
        return Err(path.error);
      }
      r := LocateFrom(i + 1);
      if r.Ok? {
        r := Ok({path.value} + r.value);
      }
    }

    method RemoveObsoleteBuildInfos()
      modifies this`files, this`cache
      ensures Now() == RemoveBuildInfos(old(Now()))
    {
      var debugFiles := GetDebugFilePaths();
      var validBuildInfos := Referenced(files, debugFiles);
      var buildInfoFiles := GetBuildInfoPaths();
      Unlink(buildInfoFiles - validBuildInfos);
    }

    method RemoveObsoleteArtifacts() returns (ok: bool)
      modifies this`files, this`cache
      ensures (Now(), ok) == RemoveObsolete(fs, old(Now()))
    {
      ClearCache();
      var valid := LocateValid();
      if valid.Err? {
        ClearCache();
        return false;
      }
      var existing := GetArtifactPaths();
      var obsolete := existing - valid.value;
      Unlink(obsolete);
      Unlink(set p | p in obsolete :: DebugPath(p));
      RemoveObsoleteBuildInfos();
      ClearCache();
      return true;
    }
  }
}
