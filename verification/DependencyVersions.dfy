/**
 The repository's own check that all packages declare the same version of each
 dependency: nested maps filled in by nested loops, merged, and inspected.
 */
module DependencyVersions {
  import opened Wrappers

  type Name = nat     // a package or dependency name
  type Spec = nat     // a version specification

  /** dependency => version spec => packages that declare it */
  type DependencyMap = map<Name, map<Spec, set<Name>>>

  datatype Declaration = Declaration(dependency: Name, spec: Spec, package: Name)

  datatype PackageJson = PackageJson(
    name: Name,
    dependencies: Option<map<Name, Spec>>,  // None if there is no such section
    devDependencies: Option<map<Name, Spec>>,
    peerDependencies: Option<map<Name, Spec>>
  )

  /**
   Dependencies ignored everywhere, those ignored for some packages, those whose peer
   declaration is not checked for some packages, and the one package left out altogether.
   */
  datatype Exceptions = Exceptions(
    everywhere: set<Name>,
    forPackages: map<Name, set<Name>>,
    peers: map<Name, set<Name>>,
    skipped: Name
  )

  predicate Ignored(x: Exceptions, package: Name, dependency: Name) {
    || dependency in x.everywhere
    || (dependency in x.forPackages && package in x.forPackages[dependency])
  }

  /** The declaration is recorded in the map. */
  predicate Records(m: DependencyMap, d: Declaration) {
    d.dependency in m && d.spec in m[d.dependency] && d.package in m[d.dependency][d.spec]
  }

  /** No dependency without specs, no spec without packages. */
  ghost predicate Tight(m: DependencyMap) {
    && (forall n :: n in m ==> m[n] != map[])
    && (forall n, s :: n in m && s in m[n] ==> m[n][s] != {})
  }

  /** The three nested insertions. */
  function Insert(m: DependencyMap, d: Declaration): (r: DependencyMap)
    ensures forall e :: Records(r, e) <==> Records(m, e) || e == d
    ensures Tight(m) ==> Tight(r)
  {
    var specs: map<Spec, set<Name>> := if d.dependency in m then m[d.dependency] else map[];
    var packages: set<Name> := if d.spec in specs then specs[d.spec] else {};
    m[d.dependency := specs[d.spec := packages + {d.package}]]
  }

  /** A tight map is determined by what it records. */
  lemma TightMapsAreEqual(m: DependencyMap, m': DependencyMap)
    requires Tight(m) && Tight(m') && forall d :: Records(m, d) <==> Records(m', d)
    ensures m == m'
  {
    forall n | n in m ensures n in m' && m[n].Keys <= m'[n].Keys {
      TightPart(m, m', n);
    }
    forall n | n in m' ensures n in m && m'[n].Keys <= m[n].Keys {
      TightPart(m', m, n);
    }
    forall n | n in m ensures m[n] == m'[n] {
      forall s | s in m[n] ensures m[n][s] == m'[n][s] {
        forall p ensures p in m[n][s] <==> p in m'[n][s] {
          assert Records(m, Declaration(n, s, p)) <==> Records(m', Declaration(n, s, p));
        }
      }
    }
  }

  lemma TightPart(m: DependencyMap, m': DependencyMap, n: Name)
    requires Tight(m) && n in m && forall d :: Records(m, d) ==> Records(m', d)
    ensures n in m' && m[n].Keys <= m'[n].Keys
  {
    forall s | s in m[n] ensures n in m' && s in m'[n] {
      var p :| p in m[n][s];
      assert Records(m, Declaration(n, s, p));
    }
    var s :| s in m[n].Keys;
  }

  // ------------------------------------------------------------------ one package.json

  /** What one section declares. */
  ghost predicate Declares(x: Exceptions, package: Name, section: Option<map<Name, Spec>>, d: Declaration) {
    && d.package == package && section.Some?
    && d.dependency in section.value && section.value[d.dependency] == d.spec
    && !Ignored(x, package, d.dependency)
  }

  /** What a package.json declares in any of its sections. */
  ghost predicate DeclaredIn(x: Exceptions, p: PackageJson, d: Declaration) {
    || Declares(x, p.name, p.dependencies, d)
    || Declares(x, p.name, p.devDependencies, d)
    || Declares(x, p.name, p.peerDependencies, d)
  }

  /** `addDependencies` */
  method AddDependencies(x: Exceptions, package: Name, section: Option<map<Name, Spec>>, m: DependencyMap) returns (r: DependencyMap)
    requires Tight(m)
    ensures Tight(r) && forall d :: Records(r, d) <==> Records(m, d) || Declares(x, package, section, d)
  {
    r := m;
    if section.None? {
      return;
    }
    var todo := section.value.Keys;
    while todo != {}
      invariant todo <= section.value.Keys && Tight(r)
      invariant forall d :: Records(r, d) <==>
        Records(m, d) || (Declares(x, package, section, d) && d.dependency !in todo)
    {
      var name :| name in todo;
      todo := todo - {name};
      if !Ignored(x, package, name) {
        r := Insert(r, Declaration(name, section.value[name], package));
      }
    }
  }

  /** The peer dependency is among the dev dependencies, with the same spec. */
  predicate PeerMatches(x: Exceptions, p: PackageJson, n: Name)
    requires p.peerDependencies.Some? && p.devDependencies.Some? && n in p.peerDependencies.value
  {
    || (n in x.peers && p.name in x.peers[n])
    || (n in p.devDependencies.value && p.devDependencies.value[n] == p.peerDependencies.value[n])
  }

  /** A package with peer dependencies has dev dependencies, and every peer is one of them, apart from the exceptions. */
  ghost predicate PeersMatch(x: Exceptions, p: PackageJson) {
    p.peerDependencies.Some? ==>
      p.devDependencies.Some? && forall n :: n in p.peerDependencies.value ==> PeerMatches(x, p, n)
  }

  /** `checkPeerDepedencies` */
  method CheckPeerDependencies(x: Exceptions, p: PackageJson) returns (success: bool)
    ensures success <==> PeersMatch(x, p)
  {
    if p.peerDependencies.None? {
      return true;
    }
    if p.devDependencies.None? {
      return false;
    }
    var peers, devs := p.peerDependencies.value, p.devDependencies.value;
    success := true;
    var todo := peers.Keys;
    while todo != {}
      invariant todo <= peers.Keys
      invariant success <==> forall n :: n in peers && n !in todo ==> PeerMatches(x, p, n)
    {
      var n :| n in todo;
      todo := todo - {n};
      if n in x.peers && p.name in x.peers[n] {
        continue;
      }
      if n !in devs {
        success := false;
        continue;
      }
      if peers[n] != devs[n] {
        success := false;
      }
    }
  }

  /** `getDependencyMap` */
  method GetDependencyMap(x: Exceptions, p: PackageJson) returns (r: DependencyMap)
    ensures Tight(r) && forall d :: Records(r, d) <==> DeclaredIn(x, p, d)
  {
    r := map[];
    r := AddDependencies(x, p.name, p.dependencies, r);
    r := AddDependencies(x, p.name, p.devDependencies, r);
    r := AddDependencies(x, p.name, p.peerDependencies, r);
  }

  // --------------------------------------------------------------------------- merging

  /** The innermost loop of the merge. */
  method MergePackages(r0: DependencyMap, name: Name, spec: Spec, packages: set<Name>) returns (r: DependencyMap)
    requires Tight(r0)
    ensures Tight(r)
    ensures forall d :: Records(r, d) <==>
      Records(r0, d) || (d.dependency == name && d.spec == spec && d.package in packages)
  {
    r := r0;
    var todo := packages;
    while todo != {}
      invariant todo <= packages && Tight(r)
      invariant forall d :: Records(r, d) <==>
        Records(r0, d) || (d.dependency == name && d.spec == spec && d.package in packages && d.package !in todo)
    {
      var p :| p in todo;
      todo := todo - {p};
      r := Insert(r, Declaration(name, spec, p));
    }
  }

  method MergeSpecs(r0: DependencyMap, name: Name, specs: map<Spec, set<Name>>) returns (r: DependencyMap)
    requires Tight(r0)
    ensures Tight(r)
    ensures forall d :: Records(r, d) <==>
      Records(r0, d) || (d.dependency == name && d.spec in specs && d.package in specs[d.spec])
  {
    r := r0;
    var todo := specs.Keys;
    while todo != {}
      invariant todo <= specs.Keys && Tight(r)
      invariant forall d :: Records(r, d) <==>
        Records(r0, d) || (d.dependency == name && d.spec in specs && d.spec !in todo && d.package in specs[d.spec])
    {
      var spec :| spec in todo;
      todo := todo - {spec};
      r := MergePackages(r, name, spec, specs[spec]);
    }
  }

  method MergeMap(r0: DependencyMap, m: DependencyMap) returns (r: DependencyMap)
    requires Tight(r0)
    ensures Tight(r) && forall d :: Records(r, d) <==> Records(r0, d) || Records(m, d)
  {
    r := r0;
    var todo := m.Keys;
    while todo != {}
      invariant todo <= m.Keys && Tight(r)
      invariant forall d :: Records(r, d) <==> Records(r0, d) || (Records(m, d) && d.dependency !in todo)
    {
      var name :| name in todo;
      todo := todo - {name};
      r := MergeSpecs(r, name, m[name]);
    }
  }

  /** `mergeDependenciesMap` */
  method MergeDependencies(maps: seq<DependencyMap>) returns (r: DependencyMap)
    ensures Tight(r) && forall d :: Records(r, d) <==> exists i :: 0 <= i < |maps| && Records(maps[i], d)
  {
    r := map[];
    for k := 0 to |maps|
      invariant Tight(r) && forall d :: Records(r, d) <==> exists i :: 0 <= i < k && Records(maps[i], d)
    {
      r := MergeMap(r, maps[k]);
    }
  }

  /** The same maps in another order, or repeated, merge to the same result. */
  lemma MergeIgnoresOrder(maps: seq<DependencyMap>, maps': seq<DependencyMap>, r: DependencyMap, r': DependencyMap)
    requires Tight(r) && forall d :: Records(r, d) <==> exists i :: 0 <= i < |maps| && Records(maps[i], d)
    requires Tight(r') && forall d :: Records(r', d) <==> exists i :: 0 <= i < |maps'| && Records(maps'[i], d)
    requires forall m :: m in maps <==> m in maps'
    ensures r == r'
  {
    forall d ensures Records(r, d) <==> Records(r', d) {
      if i :| 0 <= i < |maps| && Records(maps[i], d) {
        assert maps[i] in maps';
      }
      if i :| 0 <= i < |maps'| && Records(maps'[i], d) {
        assert maps'[i] in maps;
      }
    }
    TightMapsAreEqual(r, r');
  }

  // ------------------------------------------------------------------------- the check

  /** The final loop of `main`: every dependency has exactly one spec. */
  method CheckVersions(m: DependencyMap) returns (success: bool)
    ensures success <==> forall n :: n in m ==> |m[n]| == 1
  {
    success := true;
    var todo := m.Keys;
    while todo != {}
      invariant todo <= m.Keys
      invariant success <==> forall n :: n in m && n !in todo ==> |m[n]| == 1
    {
      var n :| n in todo;
      todo := todo - {n};
      if |m[n]| != 1 {
        success := false;
      }
    }
  }

  ghost predicate DeclaredSomewhere(x: Exceptions, packages: seq<PackageJson>, d: Declaration) {
    exists i :: 0 <= i < |packages| && DeclaredIn(x, packages[i], d)
  }

  /** No two packages declare different specs of one dependency, apart from the exceptions. */
  ghost predicate Consistent(x: Exceptions, packages: seq<PackageJson>) {
    forall d, e :: DeclaredSomewhere(x, packages, d) && DeclaredSomewhere(x, packages, e) && d.dependency == e.dependency
      ==> d.spec == e.spec
  }

  lemma OneSpec(specs: map<Spec, set<Name>>)
    requires specs != map[]
    ensures |specs| == 1 <==> forall s, t :: s in specs && t in specs ==> s == t
  {
    assert |specs| == |specs.Keys|;
    var s :| s in specs.Keys;
    if forall s, t :: s in specs && t in specs ==> s == t {
      assert specs.Keys == {s};
    }
    if |specs| == 1 {
      assert |specs.Keys - {s}| == 0;
      assert specs.Keys == {s};
    }
  }

  /** On the merged map of all packages, one spec each means exactly that they are consistent. */
  lemma OneSpecEachIffConsistent(x: Exceptions, packages: seq<PackageJson>, m: DependencyMap)
    requires Tight(m) && forall d :: Records(m, d) <==> DeclaredSomewhere(x, packages, d)
    ensures (forall n :: n in m ==> |m[n]| == 1) <==> Consistent(x, packages)
  {
    forall n | n in m ensures |m[n]| == 1 <==> forall s, t :: s in m[n] && t in m[n] ==> s == t {
      OneSpec(m[n]);
    }
    if Consistent(x, packages) {
      forall n, s, t | n in m && s in m[n] && t in m[n] ensures s == t {
        var p :| p in m[n][s];
        var q :| q in m[n][t];
        assert Records(m, Declaration(n, s, p)) && Records(m, Declaration(n, t, q));
      }
    }
    if forall n :: n in m ==> |m[n]| == 1 {
      forall d, e | DeclaredSomewhere(x, packages, d) && DeclaredSomewhere(x, packages, e) && d.dependency == e.dependency
        ensures d.spec == e.spec
      {
        assert Records(m, d) && Records(m, e);
      }
    }
  }

  /** The packages that are looked at. */
  function Considered(x: Exceptions, packages: seq<PackageJson>): seq<PackageJson> {
    if packages == [] then []
    else
      var last := packages[|packages| - 1];
      Considered(x, packages[..|packages| - 1]) + (if last.name == x.skipped then [] else [last])
  }

  /** All but the one that is left out. */
  lemma {:induction false} ConsideredIff(x: Exceptions, packages: seq<PackageJson>, p: PackageJson)
    ensures p in Considered(x, packages) <==> p in packages && p.name != x.skipped
  {
    if packages != [] {
      ConsideredIff(x, packages[..|packages| - 1], p);
      assert packages == packages[..|packages| - 1] + [packages[|packages| - 1]];
    }
  }

  /** `maps` are what the packages declare, one by one. */
  ghost predicate MapsOf(x: Exceptions, packages: seq<PackageJson>, maps: seq<DependencyMap>) {
    && |maps| == |packages|
    && forall i, d :: 0 <= i < |maps| ==> (Records(maps[i], d) <==> DeclaredIn(x, packages[i], d))
  }

  /** The first loop of `main`: peer dependencies are checked, and the maps are made. */
  method ReadPackages(x: Exceptions, packages: seq<PackageJson>) returns (success: bool, maps: seq<DependencyMap>)
    ensures success <==> forall p :: p in Considered(x, packages) ==> PeersMatch(x, p)
    ensures MapsOf(x, Considered(x, packages), maps)
  {
    success, maps := true, [];
    for k := 0 to |packages|
      invariant success <==> forall p :: p in Considered(x, packages[..k]) ==> PeersMatch(x, p)
      invariant MapsOf(x, Considered(x, packages[..k]), maps)
    {
      assert packages[..k + 1][..k] == packages[..k] && packages[..k + 1][k] == packages[k];
      ghost var before := Considered(x, packages[..k]);
      if packages[k].name == x.skipped {
        assert Considered(x, packages[..k + 1]) == before + [] == before;
        continue;
      }
      assert Considered(x, packages[..k + 1]) == before + [packages[k]];
      var peersOk := CheckPeerDependencies(x, packages[k]);
      var m := GetDependencyMap(x, packages[k]);
      maps := maps + [m];
      if !peersOk {
        success := false;
      }
    }
    assert packages[..|packages|] == packages;
  }

  lemma MergedDeclares(x: Exceptions, packages: seq<PackageJson>, maps: seq<DependencyMap>, d: Declaration)
    requires MapsOf(x, packages, maps)
    ensures (exists i :: 0 <= i < |maps| && Records(maps[i], d)) <==> DeclaredSomewhere(x, packages, d)
  {
    if i :| 0 <= i < |packages| && DeclaredIn(x, packages[i], d) {
      assert Records(maps[i], d);
    }
  }

  /** `main`: it succeeds iff the versions are consistent and every package's peer dependencies match. */
  method CheckDependencies(x: Exceptions, packages: seq<PackageJson>) returns (success: bool)
    ensures success <==>
      && Consistent(x, Considered(x, packages))
      && forall p :: p in packages && p.name != x.skipped ==> PeersMatch(x, p)
  {
    forall p ensures p in Considered(x, packages) <==> p in packages && p.name != x.skipped {
      ConsideredIff(x, packages, p);
    }
    var peersOk, maps := ReadPackages(x, packages);
    var all := MergeDependencies(maps);
    var versionsOk := CheckVersions(all);
    forall d ensures Records(all, d) <==> DeclaredSomewhere(x, Considered(x, packages), d) {
      MergedDeclares(x, Considered(x, packages), maps, d);
    }
    OneSpecEachIffConsistent(x, Considered(x, packages), all);
    return peersOk && versionsOk;
  }
}
