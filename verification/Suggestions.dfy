/**
 "Did you mean ...?": the existing names closest to a mistyped one, with repeated
 contract names told apart by their fully qualified names.
 */
module Suggestions {
  import opened Wrappers
  import opened JsStrings
  import opened Sequences
  import opened Levenshtein
  import opened ContractNames
  import FindDistance

  /** `EDIT_DISTANCE_THRESHOLD` */
  const THRESHOLD: nat := 3

  // ----------------------------------------------------------------- similar names

  /** The names at distance `d`, in order. */
  function AtDistance(given: JsString, names: seq<JsString>, d: nat): seq<JsString> {
    if names == [] then []
    else
      var last := names[|names| - 1];
      AtDistance(given, names[..|names| - 1], d) + (if Distance(given, last) == d then [last] else [])
  }

  function IsAt(given: JsString, d: nat): JsString -> bool {
    name => Distance(given, name) == d
  }

  lemma {:induction false} AtDistanceFilters(given: JsString, names: seq<JsString>, d: nat)
    ensures AtDistance(given, names, d) == Filter(names, IsAt(given, d))
  {
    if names != [] {
      AtDistanceFilters(given, names[..|names| - 1], d);
    }
  }

  ghost predicate NoneCloser(given: JsString, names: seq<JsString>, d: nat) {
    forall i :: 0 <= i < |names| ==> d <= Distance(given, names[i])
  }

  ghost predicate SomeAt(given: JsString, names: seq<JsString>, d: nat) {
    exists i :: 0 <= i < |names| && Distance(given, names[i]) == d
  }

  lemma {:induction false} NothingAt(given: JsString, names: seq<JsString>, d: nat)
    requires forall i :: 0 <= i < |names| ==> Distance(given, names[i]) != d
    ensures AtDistance(given, names, d) == []
  {
    if names != [] {
      NothingAt(given, names[..|names| - 1], d);
    }
  }

  /** What the loop knows after looking at `names`. */
  ghost predicate Tracks(given: JsString, names: seq<JsString>, shortest: nat, similar: seq<JsString>) {
    && shortest <= THRESHOLD
    && NoneCloser(given, names, shortest)
    && (shortest < THRESHOLD ==> SomeAt(given, names, shortest))
    && similar == AtDistance(given, names, shortest)
  }

  lemma TracksCloser(given: JsString, names: seq<JsString>, name: JsString, shortest: nat, similar: seq<JsString>)
    requires Tracks(given, names, shortest, similar) && Distance(given, name) < shortest
    ensures Tracks(given, names + [name], Distance(given, name), [name])
  {
    var all, d := names + [name], Distance(given, name);
    NothingAt(given, names, d);
    assert all[..|names|] == names && all[|names|] == name;
  }

  lemma TracksOther(given: JsString, names: seq<JsString>, name: JsString, shortest: nat, similar: seq<JsString>)
    requires Tracks(given, names, shortest, similar) && Distance(given, name) >= shortest
    ensures Tracks(given, names + [name], shortest, if Distance(given, name) == shortest then similar + [name] else similar)
  {}

  lemma TrackedIsClosest(given: JsString, names: seq<JsString>, shortest: nat, similar: seq<JsString>)
    requires Tracks(given, names, shortest, similar)
    ensures forall d: nat :: d <= THRESHOLD && NoneCloser(given, names, d) && SomeAt(given, names, d) ==>
      similar == AtDistance(given, names, d)
    ensures NoneCloser(given, names, THRESHOLD + 1) ==> similar == []
  {
    forall d: nat | d <= THRESHOLD && NoneCloser(given, names, d) && SomeAt(given, names, d)
      ensures d == shortest
    {
      var i :| 0 <= i < |names| && Distance(given, names[i]) == d;
      if shortest < THRESHOLD {
        var j :| 0 <= j < |names| && Distance(given, names[j]) == shortest;
      }
    }
    if NoneCloser(given, names, THRESHOLD + 1) {
      NothingAt(given, names, shortest);
    }
  }

  /** `_getSimilarContractNames`: exactly the names at the least distance, if that is within the threshold. */
  method GetSimilarContractNames(given: JsString, names: seq<JsString>) returns (similar: seq<JsString>)
    ensures forall d: nat :: d <= THRESHOLD && NoneCloser(given, names, d) && SomeAt(given, names, d) ==>
      similar == AtDistance(given, names, d) && Filters(names, IsAt(given, d), similar)
    ensures NoneCloser(given, names, THRESHOLD + 1) ==> similar == []
  {
    var shortest: nat := THRESHOLD;
    similar := [];
    for n := 0 to |names|
      invariant Tracks(given, names[..n], shortest, similar)
    {
      var distance := FindDistance.FindDistance(given, names[n]);
      assert names[..n + 1] == names[..n] + [names[n]];
      if distance < shortest {
        TracksCloser(given, names[..n], names[n], shortest, similar);
        shortest := distance;
        similar := [names[n]];
        continue;
      }
      TracksOther(given, names[..n], names[n], shortest, similar);
      if distance == shortest {
        similar := similar + [names[n]];
        continue;
      }
    }
    assert names[..|names|] == names;
    TrackedIsClosest(given, names, shortest, similar);
    forall d: nat | similar == AtDistance(given, names, d) ensures Filters(names, IsAt(given, d), similar) {
      AtDistanceFilters(given, names, d);
      FilterFilters(names, IsAt(given, d));
    }
  }

  // ------------------------------------------------------------ telling names apart

  function Count(names: seq<JsString>, name: JsString): nat {
    if names == [] then 0
    else Count(names[..|names| - 1], name) + (if names[|names| - 1] == name then 1 else 0)
  }

  /** The keys of the `groups` object, in the order they were inserted. */
  function Keys(names: seq<JsString>): seq<JsString> {
    if names == [] then []
    else
      var keys, last := Keys(names[..|names| - 1]), names[|names| - 1];
      if last in keys then keys else keys + [last]
  }

  function FqnsOf(files: seq<Path>, name: JsString): seq<JsString> {
    if files == [] then []
    else
      var last := files[|files| - 1];
      FqnsOf(files[..|files| - 1], name) + (if last.base == name + JSON then [FqnFromPath(last)] else [])
  }

  /** What one group becomes. */
  function Replacement(files: seq<Path>, name: JsString, occurrences: nat): seq<JsString> {
    if occurrences > 1 then FqnsOf(files, name) else [name]
  }

  function Replacements(files: seq<Path>, names: seq<JsString>, keys: seq<JsString>): seq<JsString> {
    if keys == [] then []
    else
      var last := keys[|keys| - 1];
      Replacements(files, names, keys[..|keys| - 1]) + Replacement(files, last, Count(names, last))
  }

  /** `groups` counts the names, and `keys` are its keys in the order they came up. */
  ghost predicate Groups(names: seq<JsString>, keys: seq<JsString>, groups: map<JsString, nat>) {
    && keys == Keys(names)
    && (forall k :: k in groups <==> k in keys)
    && (forall k :: k in groups ==> groups[k] == Count(names, k))
    && (forall k :: k !in groups ==> Count(names, k) == 0)
  }

  lemma GroupsStep(names: seq<JsString>, keys: seq<JsString>, groups: map<JsString, nat>, cur: JsString)
    requires Groups(names, keys, groups)
    ensures cur in groups ==> Groups(names + [cur], keys, groups[cur := groups[cur] + 1])
    ensures cur !in groups ==> Groups(names + [cur], keys + [cur], groups[cur := 1])
  {
    var all := names + [cur];
    assert all[..|all| - 1] == names && all[|all| - 1] == cur;
  }

  /** The `reduce`: how often each name occurs. */
  method GroupNames(similar: seq<JsString>) returns (keys: seq<JsString>, groups: map<JsString, nat>)
    ensures Groups(similar, keys, groups)
  {
    keys, groups := [], map[];
    for i := 0 to |similar|
      invariant Groups(similar[..i], keys, groups)
    {
      var cur := similar[i];
      assert similar[..i + 1] == similar[..i] + [cur];
      GroupsStep(similar[..i], keys, groups, cur);
      if cur in groups {
        groups := groups[cur := groups[cur] + 1];
      } else {
        keys := keys + [cur];
        groups := groups[cur := 1];
      }
    }
    assert similar[..|similar|] == similar;
  }

  /** `_filterDuplicatesAsFullyQualifiedNames` */
  method FilterDuplicates(files: seq<Path>, similar: seq<JsString>) returns (output: seq<JsString>)
    ensures output == Replacements(files, similar, Keys(similar))
  {
    var keys, groups := GroupNames(similar);
    output := [];
    for k := 0 to |keys|
      invariant output == Replacements(files, similar, keys[..k])
    {
      assert keys[k] in keys && groups[keys[k]] == Count(similar, keys[k]);
      NextReplacement(files, similar, keys, k);
      var part := ReplaceGroup(files, keys[k], groups[keys[k]]);
      output := output + part;
    }
    assert keys[..|keys|] == keys;
  }

  lemma NextReplacement(files: seq<Path>, names: seq<JsString>, keys: seq<JsString>, k: nat)
    requires k < |keys|
    ensures Replacements(files, names, keys[..k + 1]) ==
      Replacements(files, names, keys[..k]) + Replacement(files, keys[k], Count(names, keys[k]))
  {
    assert keys[..k + 1][..k] == keys[..k] && keys[..k + 1][k] == keys[k];
  }

  /** The body of the loop over the groups. */
  method ReplaceGroup(files: seq<Path>, name: JsString, occurrences: nat) returns (part: seq<JsString>)
    ensures part == Replacement(files, name, occurrences)
  {
    if occurrences > 1 {
      part := CollectFqns(files, name);
    } else {
      part := [name];
    }
  }

  method CollectFqns(files: seq<Path>, name: JsString) returns (fqns: seq<JsString>)
    ensures fqns == FqnsOf(files, name)
  {
    fqns := [];
    for i := 0 to |files|
      invariant fqns == FqnsOf(files[..i], name)
    {
      assert files[..i + 1][..i] == files[..i] && files[..i + 1][i] == files[i];
      if files[i].base == name + JSON {
        fqns := fqns + [FqnFromPath(files[i])];
      } else {
        assert FqnsOf(files[..i + 1], name) == fqns + [];
      }
    }
    assert files[..|files|] == files;
  }

  // ------------------------------------------------------------- nothing gets lost

  function Sum(names: seq<JsString>, keys: seq<JsString>): nat {
    if keys == [] then 0 else Sum(names, keys[..|keys| - 1]) + Count(names, keys[|keys| - 1])
  }

  ghost predicate NoDuplicates<T>(s: seq<T>) {
    forall i, j :: 0 <= i < j < |s| ==> s[i] != s[j]
  }

  lemma {:induction false} KeysAreDistinct(names: seq<JsString>)
    ensures NoDuplicates(Keys(names))
    ensures forall x :: x in Keys(names) <==> x in names
  {
    if names != [] {
      var init, last := names[..|names| - 1], names[|names| - 1];
      KeysAreDistinct(init);
      assert names == init + [last];
    }
  }

  lemma {:induction false} SumBump(names: seq<JsString>, x: JsString, keys: seq<JsString>)
    requires NoDuplicates(keys)
    ensures Sum(names + [x], keys) == Sum(names, keys) + if x in keys then 1 else 0
  {
    if keys != [] {
      var init, last := keys[..|keys| - 1], keys[|keys| - 1];
      SumBump(names, x, init);
      assert (names + [x])[..|names|] == names && keys == init + [last];
    }
  }

  lemma {:induction false} CountZero(names: seq<JsString>, x: JsString)
    ensures Count(names, x) == 0 <==> x !in names
  {
    if names != [] {
      CountZero(names[..|names| - 1], x);
      assert names == names[..|names| - 1] + [names[|names| - 1]];
    }
  }

  /** The group sizes add up to the number of names. */
  lemma {:induction false} GroupsCoverAll(names: seq<JsString>)
    ensures Sum(names, Keys(names)) == |names|
  {
    if names != [] {
      var init, last := names[..|names| - 1], names[|names| - 1];
      assert names == init + [last];
      GroupsCoverAll(init);
      KeysAreDistinct(init);
      SumBump(init, last, Keys(init));
      if last !in Keys(init) {
        var keys := Keys(init) + [last];
        assert keys[..|keys| - 1] == Keys(init);
        CountZero(init, last);
      }
    }
  }

  function ContractNamesOf(files: seq<Path>): (names: seq<JsString>)
    ensures |names| == |files|
  {
    seq(|files|, i requires 0 <= i < |files| => ContractNameOf(files[i]))
  }

  /** The situation in which duplicates are filtered. */
  ghost predicate Situation(files: seq<Path>, given: JsString, d: nat, similar: seq<JsString>) {
    && NoDuplicates(files)
    && (forall i :: 0 <= i < |files| ==> ArtifactFile(files[i]))
    && similar == AtDistance(given, ContractNamesOf(files), d)
  }

  lemma {:induction false} CountAtDistance(given: JsString, names: seq<JsString>, d: nat, x: JsString)
    ensures Count(AtDistance(given, names, d), x) == if Distance(given, x) == d then Count(names, x) else 0
  {
    if names != [] {
      var init, last := names[..|names| - 1], names[|names| - 1];
      CountAtDistance(given, init, d, x);
      var some, at := AtDistance(given, init, d), Distance(given, last) == d;
      assert AtDistance(given, names, d) == if at then some + [last] else some + [];
      assert some + [] == some;
      CountSnoc(some, last, x);
      assert Count(names, x) == Count(init, x) + if last == x then 1 else 0;
    }
  }

  lemma CountSnoc(names: seq<JsString>, last: JsString, x: JsString)
    ensures Count(names + [last], x) == Count(names, x) + if last == x then 1 else 0
  {
    var all := names + [last];
    assert all[..|all| - 1] == names && all[|all| - 1] == last;
  }

  /** A name occurs once for each file it names. */
  lemma {:induction false} OneFqnPerOccurrence(files: seq<Path>, name: JsString)
    requires forall i :: 0 <= i < |files| ==> ArtifactFile(files[i])
    ensures |FqnsOf(files, name)| == Count(ContractNamesOf(files), name)
  {
    if files != [] {
      var init, last := files[..|files| - 1], files[|files| - 1];
      OneFqnPerOccurrence(init, name);
      assert ContractNamesOf(files)[..|files| - 1] == ContractNamesOf(init);
      ArtifactFileName(last);
      if last.base == name + JSON {
        assert name == (name + JSON)[..|name|] == (ContractNameOf(last) + JSON)[..|name|] == ContractNameOf(last);
      }
    }
  }

  lemma {:induction false} ReplacementsConserve(files: seq<Path>, given: JsString, d: nat, similar: seq<JsString>, keys: seq<JsString>)
    requires Situation(files, given, d, similar)
    requires forall k :: k in keys ==> k in similar
    ensures |Replacements(files, similar, keys)| == Sum(similar, keys)
  {
    if keys != [] {
      var init, last := keys[..|keys| - 1], keys[|keys| - 1];
      assert keys == init + [last];
      ReplacementsConserve(files, given, d, similar, init);
      CountZero(similar, last);
      CountAtDistance(given, ContractNamesOf(files), d, last);
      OneFqnPerOccurrence(files, last);
    }
  }

  // --------------------------------------------------------- nothing is shown twice

  /** The contract name a suggestion stands for. */
  function NameIn(s: JsString): JsString {
    ParseName(s).contractName
  }

  lemma {:induction false} FqnsOfAreFqns(files: seq<Path>, name: JsString, i: nat)
    requires forall i :: 0 <= i < |files| ==> ArtifactFile(files[i])
    requires i < |FqnsOf(files, name)|
    ensures exists f :: f in files && FqnsOf(files, name)[i] == FqnFromPath(f)
    ensures NameIn(FqnsOf(files, name)[i]) == name
  {
    var init, last := files[..|files| - 1], files[|files| - 1];
    assert last in files;
    if i < |FqnsOf(init, name)| {
      FqnsOfAreFqns(init, name, i);
      assert FqnsOf(files, name)[i] == FqnsOf(init, name)[i];
      var f :| f in init && FqnsOf(init, name)[i] == FqnFromPath(f);
      assert f in files;
    } else {
      NameRoundTrip(last);
      ArtifactFileName(last);
      assert name == (name + JSON)[..|name|] == (ContractNameOf(last) + JSON)[..|name|] == ContractNameOf(last);
    }
  }

  lemma {:induction false} FqnsOfAreDistinct(files: seq<Path>, name: JsString)
    requires NoDuplicates(files) && forall i :: 0 <= i < |files| ==> ArtifactFile(files[i])
    ensures NoDuplicates(FqnsOf(files, name))
  {
    if files != [] {
      var init, last := files[..|files| - 1], files[|files| - 1];
      FqnsOfAreDistinct(init, name);
      var some := FqnsOf(init, name);
      forall i | 0 <= i < |some| ensures some[i] != FqnFromPath(last) {
        FqnsOfAreFqns(init, name, i);
        var f :| f in init && some[i] == FqnFromPath(f);
        NameRoundTrip(f);
        NameRoundTrip(last);
      }
    }
  }

  lemma {:induction false} NamesAreContractNames(files: seq<Path>, given: JsString, d: nat, similar: seq<JsString>, i: nat)
    requires Situation(files, given, d, similar) && i < |similar|
    ensures similar[i] in ContractNamesOf(files) && ContractName(similar[i])
  {
    CountZero(similar, similar[i]);
    CountAtDistance(given, ContractNamesOf(files), d, similar[i]);
    CountZero(ContractNamesOf(files), similar[i]);
    var k :| 0 <= k < |files| && ContractNamesOf(files)[k] == similar[i];
    ArtifactFileName(files[k]);
  }

  /** Every suggestion of a group stands for the group's name, and none is repeated. */
  lemma ReplacementIsDistinct(files: seq<Path>, given: JsString, d: nat, similar: seq<JsString>, name: JsString)
    requires Situation(files, given, d, similar) && name in similar
    ensures NoDuplicates(Replacement(files, name, Count(similar, name)))
    ensures forall x :: x in Replacement(files, name, Count(similar, name)) ==> NameIn(x) == name
  {
    if Count(similar, name) > 1 {
      FqnsOfAreDistinct(files, name);
      forall x | x in FqnsOf(files, name) ensures NameIn(x) == name {
        var i :| 0 <= i < |FqnsOf(files, name)| && FqnsOf(files, name)[i] == x;
        FqnsOfAreFqns(files, name, i);
      }
    } else {
      var i :| 0 <= i < |similar| && similar[i] == name;
      NamesAreContractNames(files, given, d, similar, i);
      PrintParsed(name);
    }
  }

  lemma {:induction false} ReplacementsAreDistinct(files: seq<Path>, given: JsString, d: nat, similar: seq<JsString>, keys: seq<JsString>)
    requires Situation(files, given, d, similar)
    requires NoDuplicates(keys) && forall k :: k in keys ==> k in similar
    ensures NoDuplicates(Replacements(files, similar, keys))
    ensures forall x :: x in Replacements(files, similar, keys) ==> NameIn(x) in keys
  {
    if keys != [] {
      var init, last := keys[..|keys| - 1], keys[|keys| - 1];
      assert keys == init + [last];
      ReplacementsAreDistinct(files, given, d, similar, init);
      ReplacementIsDistinct(files, given, d, similar, last);
      var a, b := Replacements(files, similar, init), Replacement(files, last, Count(similar, last));
      forall x, y | x in a && y in b ensures x != y {
        assert NameIn(x) in init && NameIn(y) == last;
      }
      DisjointConcat(a, b);
    }
  }

  lemma DisjointConcat(a: seq<JsString>, b: seq<JsString>)
    requires NoDuplicates(a) && NoDuplicates(b) && forall x, y :: x in a && y in b ==> x != y
    ensures NoDuplicates(a + b)
  {
    forall i, j | 0 <= i < j < |a + b| ensures (a + b)[i] != (a + b)[j] {
      if i < |a| <= j { assert a[i] in a && b[j - |a|] in b; }
    }
  }

  /** Telling names apart keeps the number of suggestions and makes them pairwise distinct. */
  lemma SuggestionsAreConservedAndDistinct(files: seq<Path>, given: JsString, d: nat, similar: seq<JsString>)
    requires Situation(files, given, d, similar)
    ensures |Replacements(files, similar, Keys(similar))| == |similar|
    ensures NoDuplicates(Replacements(files, similar, Keys(similar)))
  {
    KeysAreDistinct(similar);
    GroupsCoverAll(similar);
    ReplacementsConserve(files, given, d, similar, Keys(similar));
    ReplacementsAreDistinct(files, given, d, similar, Keys(similar));
  }

  // ------------------------------------------------------------ what is shown, and where

  /** `Count` counts. */
  lemma {:induction false} CountIsMultiplicity(names: seq<JsString>, x: JsString)
    ensures Count(names, x) == multiset(names)[x]
  {
    if names != [] {
      var init, last := names[..|names| - 1], names[|names| - 1];
      CountIsMultiplicity(init, x);
      assert names == init + [last];
    }
  }

  /** The names a file is shown under. */
  lemma {:induction false} FqnsOfHas(files: seq<Path>, name: JsString, x: JsString)
    ensures x in FqnsOf(files, name) <==> exists f :: f in files && f.base == name + JSON && x == FqnFromPath(f)
  {
    if files != [] {
      var init, last := files[..|files| - 1], files[|files| - 1];
      FqnsOfHas(init, name, x);
      assert files == init + [last];
    }
  }

  lemma {:induction false} ReplacementsHave(files: seq<Path>, names: seq<JsString>, keys: seq<JsString>, x: JsString)
    ensures x in Replacements(files, names, keys) <==>
      exists k :: k in keys && x in Replacement(files, k, Count(names, k))
  {
    if keys != [] {
      var init, last := keys[..|keys| - 1], keys[|keys| - 1];
      ReplacementsHave(files, names, init, x);
      assert keys == init + [last];
      if k :| k in init && x in Replacement(files, k, Count(names, k)) {
        assert k in keys;
      }
      assert last in keys;
    }
  }

  /** `f` is an artifact whose contract name is suggested more than once. */
  ghost predicate IsAmbiguous(files: seq<Path>, similar: seq<JsString>, f: Path) {
    f in files && multiset(similar)[ContractNameOf(f)] > 1
  }

  /**
   Exactly which strings are shown: a similar name itself if it occurs once, and the fully
   qualified name of every artifact whose contract name occurs more than once.
   */
  lemma SuggestionsAre(files: seq<Path>, similar: seq<JsString>, x: JsString)
    requires forall i :: 0 <= i < |files| ==> ArtifactFile(files[i])
    ensures x in Replacements(files, similar, Keys(similar)) <==>
      multiset(similar)[x] == 1 || exists f :: IsAmbiguous(files, similar, f) && x == FqnFromPath(f)
  {
    ReplacementsHave(files, similar, Keys(similar), x);
    KeysAreDistinct(similar);
    if x in Replacements(files, similar, Keys(similar)) {
      var k :| k in Keys(similar) && x in Replacement(files, k, Count(similar, k));
      ShownInGroup(files, similar, k, x);
    }
    if multiset(similar)[x] == 1 {
      ShownInGroup(files, similar, x, x);
    }
    if f :| IsAmbiguous(files, similar, f) && x == FqnFromPath(f) {
      AmbiguousIsShown(files, similar, f);
    }
  }

  lemma AmbiguousIsShown(files: seq<Path>, similar: seq<JsString>, f: Path)
    requires (forall i :: 0 <= i < |files| ==> ArtifactFile(files[i])) && IsAmbiguous(files, similar, f)
    ensures
      var k := ContractNameOf(f);
      k in similar && FqnFromPath(f) in Replacement(files, k, Count(similar, k))
  {
    var k := ContractNameOf(f);
    CountIsMultiplicity(similar, k);
    CountZero(similar, k);
    ArtifactFileName(f);
    FqnsOfHas(files, k, FqnFromPath(f));
  }

  /** What a group shows, if its name is similar. */
  lemma ShownInGroup(files: seq<Path>, similar: seq<JsString>, k: JsString, x: JsString)
    requires (forall i :: 0 <= i < |files| ==> ArtifactFile(files[i])) && k in similar
    ensures x in Replacement(files, k, Count(similar, k)) <==>
      if multiset(similar)[k] == 1 then x == k
      else exists f :: IsAmbiguous(files, similar, f) && ContractNameOf(f) == k && x == FqnFromPath(f)
  {
    CountIsMultiplicity(similar, k);
    CountZero(similar, k);
    if multiset(similar)[k] > 1 {
      FqnsOfHas(files, k, x);
      forall f | f in files ensures f.base == k + JSON <==> ContractNameOf(f) == k {
        ArtifactFileName(f);
        if f.base == k + JSON {
          assert k == (k + JSON)[..|k|] == (ContractNameOf(f) + JSON)[..|k|] == ContractNameOf(f);
        }
      }
    }
  }

  /** `keys` are the names at the positions `at`, each where it occurs first. */
  ghost predicate FirstsAt(names: seq<JsString>, keys: seq<JsString>, at: seq<nat>) {
    && |at| == |keys| && Ascending(at)
    && (forall k :: 0 <= k < |at| ==> at[k] < |names| && keys[k] == names[at[k]] && keys[k] !in names[..at[k]])
  }

  /** Groups come in the order in which their names first occur. */
  lemma {:induction false} KeysAreInOrder(names: seq<JsString>) returns (at: seq<nat>)
    ensures FirstsAt(names, Keys(names), at)
  {
    at := [];
    if names != [] {
      var init, last := names[..|names| - 1], names[|names| - 1];
      at := KeysAreInOrder(init);
      KeysAreDistinct(init);
      FirstsSnoc(init, last, Keys(init), at);
      assert names == init + [last];
      if last !in Keys(init) {
        at := at + [|init|];
      }
    }
  }

  lemma FirstsSnoc(init: seq<JsString>, last: JsString, keys: seq<JsString>, at: seq<nat>)
    requires FirstsAt(init, keys, at) && forall x :: x in keys <==> x in init
    ensures FirstsAt(init + [last], keys, at)
    ensures last !in keys ==> FirstsAt(init + [last], keys + [last], at + [|init|])
  {
    var all := init + [last];
    forall k | 0 <= k < |at| ensures all[..at[k]] == init[..at[k]] {
    }
    assert all[..|init|] == init;
  }

  /** The groups that two elements of the output come from, in the order of the output. */
  lemma {:induction false} ShownGroupByGroup(files: seq<Path>, names: seq<JsString>, keys: seq<JsString>, a: nat, b: nat)
    returns (i: nat, j: nat)
    requires a < b < |Replacements(files, names, keys)|
    ensures i <= j < |keys|
    ensures Replacements(files, names, keys)[a] in Replacement(files, keys[i], Count(names, keys[i]))
    ensures Replacements(files, names, keys)[b] in Replacement(files, keys[j], Count(names, keys[j]))
  {
    var init, last := keys[..|keys| - 1], keys[|keys| - 1];
    var before := Replacements(files, names, init);
    if b < |before| {
      i, j := ShownGroupByGroup(files, names, init, a, b);
    } else {
      j := |keys| - 1;
      if a < |before| {
        i := GroupOf(files, names, init, a);
      } else {
        i := j;
      }
    }
  }

  lemma {:induction false} GroupOf(files: seq<Path>, names: seq<JsString>, keys: seq<JsString>, a: nat) returns (i: nat)
    requires a < |Replacements(files, names, keys)|
    ensures i < |keys| && Replacements(files, names, keys)[a] in Replacement(files, keys[i], Count(names, keys[i]))
  {
    var init := keys[..|keys| - 1];
    if a < |Replacements(files, names, init)| {
      i := GroupOf(files, names, init, a);
    } else {
      i := |keys| - 1;
    }
  }
}
