/**
 The order in which `flatten` prints the files of a dependency graph. Array sorting
 and the `tsort` package are known by what they promise.
 */
module Flatten {
  import opened Wrappers

  type Name = nat

  /** `graph.add(to, from)`: `to` has to come before `from`. */
  datatype Edge = Edge(to: Name, from: Name)

  /** A dependency graph as it is stored: entries and dependency sets in some order. */
  datatype Stored = Stored(order: seq<Name>, deps: map<Name, seq<Name>>)

  datatype Libraries = Libraries(
    before: (Name, Name) -> bool,           // localeCompare(a, b) < 0
    sort: seq<Name> -> seq<Name>,           // sorting by name
    tsort: seq<Edge> -> Option<seq<Name>>   // None: the cycle error
  )

  // ---------------------------------------------------------- what libraries promise

  ghost predicate StrictOrder(before: (Name, Name) -> bool) {
    && (forall a :: !before(a, a))
    && (forall a, b, c :: before(a, b) && before(b, c) ==> before(a, c))
    && (forall a, b :: a != b ==> before(a, b) || before(b, a))
  }

  ghost predicate Sorts(lib: Libraries) {
    forall xs: seq<Name> :: multiset(lib.sort(xs)) == multiset(xs) && InOrder(lib.before, lib.sort(xs))
  }

  ghost predicate InOrder(before: (Name, Name) -> bool, xs: seq<Name>) {
    forall i, j :: 0 <= i < j < |xs| ==> !before(xs[j], xs[i])
  }

  ghost predicate RankedBy(edges: seq<Edge>, rank: Name -> nat) {
    forall i :: 0 <= i < |edges| ==> rank(edges[i].to) < rank(edges[i].from)
  }

  /** No cycle: the names can be ranked so that every edge goes up. */
  ghost predicate Acyclic(edges: seq<Edge>) {
    exists rank :: RankedBy(edges, rank)
  }

  ghost predicate Mentions(edges: seq<Edge>, n: Name) {
    exists i :: 0 <= i < |edges| && (edges[i].to == n || edges[i].from == n)
  }

  ghost predicate NoDuplicates(xs: seq<Name>) {
    forall i, j :: 0 <= i < j < |xs| ==> xs[i] != xs[j]
  }

  /** `a` stands before `b`. */
  ghost predicate Precedes(xs: seq<Name>, a: Name, b: Name) {
    exists i, j :: 0 <= i < j < |xs| && xs[i] == a && xs[j] == b
  }

  ghost predicate TopologicalOrder(edges: seq<Edge>, r: seq<Name>) {
    && NoDuplicates(r)
    && (forall n :: n in r <==> Mentions(edges, n))
    && (forall i :: 0 <= i < |edges| ==> Precedes(r, edges[i].to, edges[i].from))
  }

  ghost predicate SortsTopologically(lib: Libraries) {
    forall edges ::
      && (lib.tsort(edges).Some? <==> Acyclic(edges))
      && (lib.tsort(edges).Some? ==> TopologicalOrder(edges, lib.tsort(edges).value))
  }

  ghost predicate Trusted(lib: Libraries) {
    StrictOrder(lib.before) && Sorts(lib) && SortsTopologically(lib)
  }

  // ------------------------------------------------------------------ getSortedFiles

  function EdgesTo(from: Name, deps: seq<Name>): seq<Edge> {
    if deps == [] then [] else EdgesTo(from, deps[..|deps| - 1]) + [Edge(deps[|deps| - 1], from)]
  }

  function EdgesOf(lib: Libraries, g: Stored, names: seq<Name>): seq<Edge>
    requires forall i :: 0 <= i < |names| ==> names[i] in g.deps
  {
    if names == [] then []
    else
      var last := names[|names| - 1];
      EdgesOf(lib, g, names[..|names| - 1]) + EdgesTo(last, lib.sort(g.deps[last]))
  }

  /** `[...new Set(xs)]` */
  function Dedup(xs: seq<Name>): seq<Name> {
    if xs == [] then []
    else
      var init, last := Dedup(xs[..|xs| - 1]), xs[|xs| - 1];
      if last in init then init else init + [last]
  }

  /** Entries and dependencies are distinct, and every dependency is an entry. */
  ghost predicate WellStored(g: Stored) {
    && NoDuplicates(g.order)
    && (forall n :: n in g.order <==> n in g.deps)
    && (forall n :: n in g.deps ==> NoDuplicates(g.deps[n]))
    && (forall n, d :: n in g.deps && d in g.deps[n] ==> d in g.deps)
  }

  /** The names in the order they are printed, or None for the cycle error. */
  ghost function SortedFiles(lib: Libraries, g: Stored): Option<seq<Name>>
    requires Trusted(lib) && WellStored(g)
  {
    SortKeepsElements(lib, g.order);
    var names := lib.sort(g.order);
    var sorted := lib.tsort(EdgesOf(lib, g, names));
    if sorted.None? then None else Some(Dedup(sorted.value + names))
  }

  /** The inner loop of `getSortedFiles`. */
  method AddEdges(edges: seq<Edge>, from: Name, deps: seq<Name>) returns (r: seq<Edge>)
    ensures r == edges + EdgesTo(from, deps)
  {
    r := edges;
    for k := 0 to |deps|
      invariant r == edges + EdgesTo(from, deps[..k])
    {
      assert deps[..k + 1][..k] == deps[..k] && deps[..k + 1][k] == deps[k];
      r := r + [Edge(deps[k], from)];
    }
    assert deps[..|deps|] == deps;
  }

  /** The outer loop: the edges of every entry, in sorted order. */
  method AddAllEdges(lib: Libraries, g: Stored, names: seq<Name>) returns (edges: seq<Edge>)
    requires forall i :: 0 <= i < |names| ==> names[i] in g.deps
    ensures edges == EdgesOf(lib, g, names)
  {
    edges := [];
    for i := 0 to |names|
      invariant edges == EdgesOf(lib, g, names[..i])
    {
      assert names[..i + 1][..i] == names[..i] && names[..i + 1][i] == names[i];
      edges := AddEdges(edges, names[i], lib.sort(g.deps[names[i]]));
    }
    assert names[..|names|] == names;
  }

  method GetSortedFiles(lib: Libraries, g: Stored) returns (r: Option<seq<Name>>)
    requires Trusted(lib) && WellStored(g)
    ensures r == SortedFiles(lib, g)
  {
    SortKeepsElements(lib, g.order);
    var names := lib.sort(g.order);
    assert forall i :: 0 <= i < |names| ==> names[i] in names;
    var edges := AddAllEdges(lib, g, names);
    var sorted := lib.tsort(edges);
    if sorted.None? {
      return None;
    }
    return Some(Dedup(sorted.value + names));
  }

  // ------------------------------------------------------------------------- proofs

  lemma SortKeepsElements(lib: Libraries, xs: seq<Name>)
    requires Sorts(lib)
    ensures forall x :: x in lib.sort(xs) <==> x in xs
  {
    forall x ensures x in lib.sort(xs) <==> x in xs {
      assert x in multiset(lib.sort(xs)) <==> x in multiset(xs);
    }
  }

  lemma {:induction false} DistinctCount(xs: seq<Name>)
    ensures NoDuplicates(xs) <==> forall x :: multiset(xs)[x] <= 1
  {
    if xs != [] {
      var init, last := xs[..|xs| - 1], xs[|xs| - 1];
      DistinctCount(init);
      assert xs == init + [last];
      assert last in init <==> multiset(init)[last] >= 1;
      if NoDuplicates(xs) {
        assert last !in init;
      }
      if forall x :: multiset(xs)[x] <= 1 {
        assert multiset(xs)[last] <= 1;
        forall x ensures multiset(init)[x] <= 1 { assert multiset(xs)[x] <= 1; }
      }
    }
  }

  lemma SortKeepsDistinct(lib: Libraries, xs: seq<Name>)
    requires Sorts(lib) && NoDuplicates(xs)
    ensures NoDuplicates(lib.sort(xs))
  {
    DistinctCount(xs);
    DistinctCount(lib.sort(xs));
  }

  lemma SameFirst(before: (Name, Name) -> bool, xs: seq<Name>, ys: seq<Name>)
    requires StrictOrder(before) && InOrder(before, xs) && InOrder(before, ys)
    requires xs != [] && ys != [] && forall x :: x in xs <==> x in ys
    ensures xs[0] == ys[0]
  {
    assert xs[0] in xs && ys[0] in ys;
    var i :| 0 <= i < |ys| && ys[i] == xs[0];
    var j :| 0 <= j < |xs| && xs[j] == ys[0];
  }

  lemma SameEmptiness(xs: seq<Name>, ys: seq<Name>)
    requires forall x :: x in xs <==> x in ys
    ensures xs == [] <==> ys == []
  {
    if xs != [] { assert xs[0] in xs; }
    if ys != [] { assert ys[0] in ys; }
  }

  lemma SameRest(xs: seq<Name>, ys: seq<Name>)
    requires NoDuplicates(xs) && NoDuplicates(ys) && forall x :: x in xs <==> x in ys
    requires xs != [] && ys != [] && xs[0] == ys[0]
    ensures forall x :: x in xs[1..] <==> x in ys[1..]
  {
    assert xs == [xs[0]] + xs[1..] && ys == [ys[0]] + ys[1..];
    forall x ensures x in xs[1..] <==> x in ys[1..] {
      assert x in xs[1..] <==> x in xs && x != xs[0];
      assert x in ys[1..] <==> x in ys && x != ys[0];
    }
  }

  /** Two sorted lists of the same distinct names are equal. */
  lemma {:induction false} SortedUnique(before: (Name, Name) -> bool, xs: seq<Name>, ys: seq<Name>)
    requires StrictOrder(before) && NoDuplicates(xs) && NoDuplicates(ys)
    requires InOrder(before, xs) && InOrder(before, ys) && forall x :: x in xs <==> x in ys
    ensures xs == ys
  {
    SameEmptiness(xs, ys);
    if xs != [] {
      SameFirst(before, xs, ys);
      SameRest(xs, ys);
      SortedUnique(before, xs[1..], ys[1..]);
      assert xs == [xs[0]] + xs[1..] && ys == [ys[0]] + ys[1..];
    }
  }

  lemma SortIgnoresOrder(lib: Libraries, xs: seq<Name>, ys: seq<Name>)
    requires Trusted(lib) && NoDuplicates(xs) && NoDuplicates(ys) && forall x :: x in xs <==> x in ys
    ensures lib.sort(xs) == lib.sort(ys)
  {
    SortKeepsElements(lib, xs);
    SortKeepsElements(lib, ys);
    SortKeepsDistinct(lib, xs);
    SortKeepsDistinct(lib, ys);
    SortedUnique(lib.before, lib.sort(xs), lib.sort(ys));
  }

  /** The same graph, stored in possibly different orders. */
  ghost predicate SameGraph(g: Stored, h: Stored) {
    && g.deps.Keys == h.deps.Keys
    && forall n, d :: n in g.deps ==> (d in g.deps[n] <==> d in h.deps[n])
  }

  lemma {:induction false} EdgesIgnoreOrder(lib: Libraries, g: Stored, h: Stored, names: seq<Name>)
    requires Trusted(lib) && WellStored(g) && WellStored(h) && SameGraph(g, h)
    requires forall i :: 0 <= i < |names| ==> names[i] in g.deps
    ensures EdgesOf(lib, g, names) == EdgesOf(lib, h, names)
  {
    if names != [] {
      var last := names[|names| - 1];
      EdgesIgnoreOrder(lib, g, h, names[..|names| - 1]);
      SortIgnoresOrder(lib, g.deps[last], h.deps[last]);
    }
  }

  /** The printed order depends on the graph only, not on how it happens to be stored. */
  lemma Deterministic(lib: Libraries, g: Stored, h: Stored)
    requires Trusted(lib) && WellStored(g) && WellStored(h) && SameGraph(g, h)
    ensures SortedFiles(lib, g) == SortedFiles(lib, h)
  {
    SortKeepsElements(lib, g.order);
    SortIgnoresOrder(lib, g.order, h.order);
    EdgesIgnoreOrder(lib, g, h, lib.sort(g.order));
  }

  lemma {:induction false} EdgesToHas(from: Name, deps: seq<Name>, e: Edge)
    ensures e in EdgesTo(from, deps) <==> e.from == from && e.to in deps
  {
    if deps != [] {
      EdgesToHas(from, deps[..|deps| - 1], e);
      assert deps == deps[..|deps| - 1] + [deps[|deps| - 1]];
    }
  }

  lemma {:induction false} EdgesHave(lib: Libraries, g: Stored, names: seq<Name>, e: Edge)
    requires Sorts(lib) && forall i :: 0 <= i < |names| ==> names[i] in g.deps
    ensures e in EdgesOf(lib, g, names) <==> e.from in names && e.to in g.deps[e.from]
  {
    if names != [] {
      var init, last := names[..|names| - 1], names[|names| - 1];
      assert names == init + [last];
      EdgesHave(lib, g, init, e);
      EdgesToHas(last, lib.sort(g.deps[last]), e);
      SortKeepsElements(lib, g.deps[last]);
    }
  }

  lemma {:induction false} DedupKeeps(xs: seq<Name>)
    ensures NoDuplicates(Dedup(xs))
    ensures forall x :: x in Dedup(xs) <==> x in xs
  {
    if xs != [] {
      DedupKeeps(xs[..|xs| - 1]);
      assert xs == xs[..|xs| - 1] + [xs[|xs| - 1]];
    }
  }

  lemma {:induction false} DedupIdentity(xs: seq<Name>)
    requires NoDuplicates(xs)
    ensures Dedup(xs) == xs
  {
    if xs != [] {
      DedupIdentity(xs[..|xs| - 1]);
      assert xs == xs[..|xs| - 1] + [xs[|xs| - 1]];
    }
  }

  /** A duplicate-free prefix survives deduplication in place. */
  lemma {:induction false} DedupPrefix(xs: seq<Name>, ys: seq<Name>)
    requires NoDuplicates(xs)
    ensures xs <= Dedup(xs + ys)
  {
    if ys == [] {
      assert xs + ys == xs;
      DedupIdentity(xs);
    } else {
      assert (xs + ys)[..|xs + ys| - 1] == xs + ys[..|ys| - 1];
      DedupPrefix(xs, ys[..|ys| - 1]);
    }
  }

  ghost predicate GraphRankedBy(g: Stored, rank: Name -> nat) {
    forall n, d :: n in g.deps && d in g.deps[n] ==> rank(d) < rank(n)
  }

  ghost predicate AcyclicGraph(g: Stored) {
    exists rank :: GraphRankedBy(g, rank)
  }

  lemma AcyclicEdges(lib: Libraries, g: Stored, names: seq<Name>)
    requires Sorts(lib) && forall n :: n in names <==> n in g.deps
    ensures Acyclic(EdgesOf(lib, g, names)) <==> AcyclicGraph(g)
  {
    var edges := EdgesOf(lib, g, names);
    if Acyclic(edges) {
      var rank :| RankedBy(edges, rank);
      forall n, d | n in g.deps && d in g.deps[n] ensures rank(d) < rank(n) {
        EdgesHave(lib, g, names, Edge(d, n));
        var i :| 0 <= i < |edges| && edges[i] == Edge(d, n);
      }
      assert GraphRankedBy(g, rank);
    }
    if AcyclicGraph(g) {
      var rank :| GraphRankedBy(g, rank);
      forall i | 0 <= i < |edges| ensures rank(edges[i].to) < rank(edges[i].from) {
        EdgesHave(lib, g, names, edges[i]);
      }
      assert RankedBy(edges, rank);
    }
  }

  /** Every file of the graph exactly once, and after all its dependencies. */
  ghost predicate DependenciesFirst(g: Stored, r: seq<Name>) {
    && NoDuplicates(r)
    && (forall n :: n in r <==> n in g.deps)
    && (forall n, d :: n in g.deps && d in g.deps[n] ==> Precedes(r, d, n))
  }

  lemma DedupedIsCorrect(lib: Libraries, g: Stored, names: seq<Name>, sorted: seq<Name>)
    requires Sorts(lib) && WellStored(g) && forall n :: n in names <==> n in g.deps
    requires TopologicalOrder(EdgesOf(lib, g, names), sorted)
    ensures DependenciesFirst(g, Dedup(sorted + names))
  {
    var r := Dedup(sorted + names);
    DedupKeeps(sorted + names);
    forall n ensures n in r <==> n in g.deps {
      if n in sorted { MentionedIsEntry(lib, g, names, n); }
    }
    forall n, d | n in g.deps && d in g.deps[n] ensures Precedes(r, d, n) {
      DependencyPrecedes(lib, g, names, sorted, n, d);
    }
  }

  lemma DependencyPrecedes(lib: Libraries, g: Stored, names: seq<Name>, sorted: seq<Name>, n: Name, d: Name)
    requires Sorts(lib) && forall n :: n in names <==> n in g.deps
    requires TopologicalOrder(EdgesOf(lib, g, names), sorted)
    requires n in g.deps && d in g.deps[n]
    ensures Precedes(Dedup(sorted + names), d, n)
  {
    var edges, r := EdgesOf(lib, g, names), Dedup(sorted + names);
    EdgesHave(lib, g, names, Edge(d, n));
    var i :| 0 <= i < |edges| && edges[i] == Edge(d, n);
    assert Precedes(sorted, edges[i].to, edges[i].from);
    var a, b :| 0 <= a < b < |sorted| && sorted[a] == d && sorted[b] == n;
    DedupPrefix(sorted, names);
    assert r[a] == d && r[b] == n;
  }

  /**
   The files are ordered iff the graph has no cycle; then each file of the graph is
   printed exactly once, and after all its dependencies.
   */
  lemma SortedFilesIsCorrect(lib: Libraries, g: Stored)
    requires Trusted(lib) && WellStored(g)
    ensures SortedFiles(lib, g).Some? <==> AcyclicGraph(g)
    ensures SortedFiles(lib, g).Some? ==> DependenciesFirst(g, SortedFiles(lib, g).value)
  {
    SortKeepsElements(lib, g.order);
    var names := lib.sort(g.order);
    AcyclicEdges(lib, g, names);
    var sorted := lib.tsort(EdgesOf(lib, g, names));
    if sorted.Some? {
      DedupedIsCorrect(lib, g, names, sorted.value);
    }
  }

  lemma MentionedIsEntry(lib: Libraries, g: Stored, names: seq<Name>, n: Name)
    requires Sorts(lib) && WellStored(g) && forall n :: n in names <==> n in g.deps
    requires Mentions(EdgesOf(lib, g, names), n)
    ensures n in g.deps
  {
    var edges := EdgesOf(lib, g, names);
    var i :| 0 <= i < |edges| && (edges[i].to == n || edges[i].from == n);
    EdgesHave(lib, g, names, edges[i]);
  }
}
