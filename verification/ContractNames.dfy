/**
 Contract names: bare and fully qualified, their text, and the artifact files
 they correspond to. Paths are relative to the artifacts directory.
 */
module ContractNames {
  import opened Wrappers
  import opened JsStrings

  /** The directory segments below the artifacts directory, and the file name. */
  datatype Path = Path(dir: seq<JsString>, base: JsString)

  const DOT: CodeUnit := 46
  /** ".json" */
  const JSON: JsString := [46, 106, 115, 111, 110]

  // -------------------------------------------------------- fully qualified names

  function GetFullyQualifiedName(sourceName: JsString, contractName: JsString): JsString {
    sourceName + [COLON] + contractName
  }

  predicate IsFullyQualifiedName(name: JsString) {
    COLON in name
  }

  datatype ParsedName = ParsedName(sourceName: Option<JsString>, contractName: JsString)

  function ParseName(name: JsString): ParsedName {
    var parts := Split(name, COLON);
    if |parts| == 1 then ParsedName(None, parts[0])
    else ParsedName(Some(Join(parts[..|parts| - 1], COLON)), parts[|parts| - 1])
  }

  /** Printing and parsing give the two names back exactly when the contract name has no colon. */
  lemma ParsePrinted(sourceName: JsString, contractName: JsString)
    ensures ParseName(GetFullyQualifiedName(sourceName, contractName)) == ParsedName(Some(sourceName), contractName)
       <==> COLON !in contractName
  {
    var name := GetFullyQualifiedName(sourceName, contractName);
    var parts := Split(name, COLON);
    JoinSplit(name, COLON);
    if COLON !in contractName {
      SplitAppend(sourceName, contractName, COLON);
      JoinSplit(sourceName, COLON);
      assert parts[..|parts| - 1] == Split(sourceName, COLON);
    } else if ParseName(name).contractName == contractName {
      assert Free(parts[|parts| - 1], COLON);
    }
  }

  /** Only fully qualified names parse into two, and printing those gives the name back. */
  lemma PrintParsed(name: JsString)
    ensures ParseName(name).sourceName.Some? <==> IsFullyQualifiedName(name)
    ensures !IsFullyQualifiedName(name) ==> ParseName(name).contractName == name
    ensures IsFullyQualifiedName(name) ==>
      GetFullyQualifiedName(ParseName(name).sourceName.value, ParseName(name).contractName) == name
    ensures COLON !in ParseName(name).contractName
  {
    var parts := Split(name, COLON);
    JoinSplit(name, COLON);
    SplitSingleton(name, COLON);
    assert Free(parts[|parts| - 1], COLON);
    if |parts| > 1 {
      JoinConcat(parts[..|parts| - 1], parts[|parts| - 1], COLON);
      assert parts[..|parts| - 1] + [parts[|parts| - 1]] == parts;
    }
  }

  // ------------------------------------------------------------------ artifact paths

  const HERE: JsString := [46]
  const UP: JsString := [46, 46]

  /** Node's normalisation of a relative path, on its segments. */
  function Normalize(segments: seq<JsString>): seq<JsString> {
    if segments == [] then []
    else
      var init, last := Normalize(segments[..|segments| - 1]), segments[|segments| - 1];
      if last == [] || last == HERE then init
      else if last == UP && init != [] && init[|init| - 1] != UP then init[..|init| - 1]
      else init + [last]
  }

  /** `formArtifactPathFromFullyQualifiedName`: undefined for names that are not fully qualified. */
  function FormArtifactPath(fqn: JsString): Option<Path> {
    var parsed := ParseName(fqn);
    if parsed.sourceName.None? then None
    else
      var segments := Normalize(Split(parsed.sourceName.value, SLASH) + Split(parsed.contractName + JSON, SLASH));
      if segments == [] then Some(Path([], []))
      else Some(Path(segments[..|segments| - 1], segments[|segments| - 1]))
  }

  /** `s.replace(pattern, "")`: the first occurrence goes. */
  function RemoveFirst(s: JsString, pattern: JsString): JsString {
    if |s| < |pattern| then s
    else if s[..|pattern|] == pattern then s[|pattern|..]
    else if s == [] then s
    else [s[0]] + RemoveFirst(s[1..], pattern)
  }

  function ContractNameOf(p: Path): JsString {
    RemoveFirst(p.base, JSON)
  }

  /** `_getFullyQualifiedNameFromPath` */
  function FqnFromPath(p: Path): JsString {
    GetFullyQualifiedName(Join(p.dir, SLASH), ContractNameOf(p))
  }

  ghost predicate ProperSegment(s: JsString) {
    s != [] && s != HERE && s != UP && SLASH !in s
  }

  /** A relative source name that needs no normalisation: "contracts/Foo.sol". */
  ghost predicate NormalizedSourceName(s: JsString) {
    forall i :: 0 <= i < |Split(s, SLASH)| ==> ProperSegment(Split(s, SLASH)[i])
  }

  /** Solidity identifiers hold none of the units that mean something in names and paths. */
  ghost predicate ContractName(s: JsString) {
    COLON !in s && SLASH !in s && DOT !in s
  }

  lemma {:induction false} NormalizeProper(segments: seq<JsString>)
    requires forall i :: 0 <= i < |segments| ==> ProperSegment(segments[i])
    ensures Normalize(segments) == segments
  {
    if segments != [] {
      NormalizeProper(segments[..|segments| - 1]);
      assert segments == segments[..|segments| - 1] + [segments[|segments| - 1]];
    }
  }

  lemma {:induction false} RemoveSuffix(name: JsString)
    requires DOT !in name
    ensures RemoveFirst(name + JSON, JSON) == name
  {
    var s := name + JSON;
    if name == [] {
      assert s == JSON && s[..|JSON|] == JSON && s[|JSON|..] == [];
    } else {
      assert s[..|JSON|][0] == name[0] != JSON[0];
      assert s[1..] == name[1..] + JSON;
      RemoveSuffix(name[1..]);
      assert [name[0]] + name[1..] == name;
    }
  }

  lemma FileNameIsProper(contractName: JsString)
    requires ContractName(contractName)
    ensures ProperSegment(contractName + JSON)
    ensures Split(contractName + JSON, SLASH) == [contractName + JSON]
  {
    var s := contractName + JSON;
    assert |s| >= 5;
    assert SLASH !in JSON;
    SplitFree(s, SLASH);
  }

  /** Where the artifact of a contract lives. */
  lemma ArtifactPathOf(sourceName: JsString, contractName: JsString)
    requires NormalizedSourceName(sourceName) && ContractName(contractName)
    ensures FormArtifactPath(GetFullyQualifiedName(sourceName, contractName))
         == Some(Path(Split(sourceName, SLASH), contractName + JSON))
  {
    ParsePrinted(sourceName, contractName);
    FileNameIsProper(contractName);
    var dir := Split(sourceName, SLASH);
    var segments := dir + [contractName + JSON];
    NormalizeProper(segments);
    assert segments[..|segments| - 1] == dir;
  }

  /** From the name of a contract to its artifact and back. */
  lemma PathRoundTrip(sourceName: JsString, contractName: JsString)
    requires NormalizedSourceName(sourceName) && ContractName(contractName)
    ensures
      var fqn := GetFullyQualifiedName(sourceName, contractName);
      FormArtifactPath(fqn).Some? && FqnFromPath(FormArtifactPath(fqn).value) == fqn
  {
    ArtifactPathOf(sourceName, contractName);
    JoinSplit(sourceName, SLASH);
    RemoveSuffix(contractName);
  }

  /** A file that some contract's artifact could be. */
  ghost predicate ArtifactFile(p: Path) {
    && p.dir != []
    && (forall i :: 0 <= i < |p.dir| ==> ProperSegment(p.dir[i]))
    && exists name :: ContractName(name) && p.base == name + JSON
  }

  lemma ArtifactFileName(p: Path)
    requires ArtifactFile(p)
    ensures ContractName(ContractNameOf(p)) && p.base == ContractNameOf(p) + JSON
  {
    var name :| ContractName(name) && p.base == name + JSON;
    RemoveSuffix(name);
  }

  /** From an artifact to the name of its contract and back. */
  lemma NameRoundTrip(p: Path)
    requires ArtifactFile(p)
    ensures FormArtifactPath(FqnFromPath(p)) == Some(p)
    ensures ParseName(FqnFromPath(p)).contractName == ContractNameOf(p)
  {
    ArtifactFileName(p);
    assert AllFree(p.dir, SLASH);
    SplitJoin(p.dir, SLASH);
    ArtifactPathOf(Join(p.dir, SLASH), ContractNameOf(p));
    ParsePrinted(Join(p.dir, SLASH), ContractNameOf(p));
  }
}
