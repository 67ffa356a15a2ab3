/**
 The slow-imports lint rule: a depth-first walk over the modules a linted file
 imports, which reports every import of an external module it meets. The set of
 traversed modules is shared by all walks of a process.
 */
module ImportLint {
  import opened Wrappers

  type Specifier = nat  // the text of an import
  type FilePath = nat

  /** The modules of a project; `resolve` is given the file to start from and a specifier. */
  datatype Context = Context(
    ignored: set<Specifier>,
    isBuiltin: Specifier -> bool,
    isExternal: Specifier -> bool,
    resolve: (FilePath, Specifier) -> Option<FilePath>,
    importsOf: FilePath -> seq<Specifier>,
    modules: set<FilePath>
  )

  /** The import at `index` of `file` was reported against the import `original` of the linted file. */
  datatype Report = Report(original: nat, file: FilePath, index: nat)

  datatype Walk = Walk(traversed: set<FilePath>, reports: seq<Report>)

  /** Whatever a specifier resolves to is one of finitely many modules. */
  ghost predicate Finite(c: Context) {
    forall f, s :: c.resolve(f, s).Some? ==> c.resolve(f, s).value in c.modules
  }

  /** The project as the rule sees it: every import is resolved as if it stood in the linted file. */
  function SeenFrom(c: Context, linted: FilePath): Context {
    c.(resolve := (file: FilePath, s: Specifier) => c.resolve(linted, s))
  }

  predicate Skipped(c: Context, s: Specifier) {
    s in c.ignored || c.isBuiltin(s)
  }

  predicate ReportedAt(c: Context, file: FilePath, i: nat) {
    i < |c.importsOf(file)| && !Skipped(c, c.importsOf(file)[i]) && c.isExternal(c.importsOf(file)[i])
  }

  /** The `i`-th import of `file` leads to the internal module `p`. */
  predicate LeadsTo(c: Context, file: FilePath, i: nat, p: FilePath) {
    && i < |c.importsOf(file)|
    && !Skipped(c, c.importsOf(file)[i])
    && !c.isExternal(c.importsOf(file)[i])
    && c.resolve(file, c.importsOf(file)[i]) == Some(p)
  }

  // ---------------------------------------------------------------------- the walk

  /** `visitor` on one import. */
  function Visit(c: Context, w: Walk, file: FilePath, original: nat, i: nat): (r: Walk)
    requires Finite(c) && i < |c.importsOf(file)|
    ensures w.traversed <= r.traversed
    decreases c.modules - w.traversed, 0, 0
  {
    var s := c.importsOf(file)[i];
    if Skipped(c, s) then w
    else if c.isExternal(s) then w.(reports := w.reports + [Report(original, file, i)])
    else if c.resolve(file, s).None? || c.resolve(file, s).value in w.traversed then w
    else
      var p := c.resolve(file, s).value;
      VisitFrom(c, w.(traversed := w.traversed + {p}), p, original, 0)
  }

  /** The imports of one module from index `i` on. */
  function VisitFrom(c: Context, w: Walk, file: FilePath, original: nat, i: nat): (r: Walk)
    requires Finite(c) && i <= |c.importsOf(file)|
    ensures w.traversed <= r.traversed
    decreases c.modules - w.traversed, 1, |c.importsOf(file)| - i
  {
    if i == |c.importsOf(file)| then w
    else VisitFrom(c, Visit(c, w, file, original, i), file, original, i + 1)
  }

  /** A lint of one file: each of its imports is the original node of what it leads to. */
  function LintFrom(c: Context, w: Walk, entry: FilePath, i: nat): (r: Walk)
    requires Finite(c) && i <= |c.importsOf(entry)|
    decreases |c.importsOf(entry)| - i
  {
    if i == |c.importsOf(entry)| then w
    else LintFrom(c, Visit(c, w, entry, i, i), entry, i + 1)
  }

  /** What the rule does with a file. */
  function Lint(c: Context, w: Walk, entry: FilePath): Walk
    requires Finite(c)
  {
    LintFrom(SeenFrom(c, entry), w, entry, 0)
  }

  /** What it would do if each import were resolved from the file it stands in. */
  function IdealLint(c: Context, w: Walk, entry: FilePath): Walk
    requires Finite(c)
  {
    LintFrom(c, w, entry, 0)
  }

  // ------------------------------------------------------------- what it must do

  /** `path` starts with an import of `file` in [lo, hi) and follows imports through modules outside `avoid`. */
  ghost predicate Chain(c: Context, avoid: set<FilePath>, file: FilePath, lo: nat, hi: nat, path: seq<FilePath>) {
    && path != []
    && (exists i :: lo <= i < hi && LeadsTo(c, file, i, path[0]))
    && (forall k :: 0 <= k < |path| ==> path[k] !in avoid)
    && (forall k :: 0 < k < |path| ==> Imports(c, path[k - 1], path[k]))
  }

  ghost predicate Imports(c: Context, file: FilePath, p: FilePath) {
    exists i :: 0 <= i < |c.importsOf(file)| && LeadsTo(c, file, i, p)
  }

  ghost predicate Reachable(c: Context, avoid: set<FilePath>, file: FilePath, lo: nat, hi: nat, p: FilePath) {
    exists path :: Chain(c, avoid, file, lo, hi, path) && path[|path| - 1] == p
  }

  function Count(reports: seq<Report>, file: FilePath, i: nat): nat {
    if reports == [] then 0
    else (if reports[0].file == file && reports[0].index == i then 1 else 0) + Count(reports[1..], file, i)
  }

  function One(b: bool): nat {
    if b then 1 else 0
  }

  /** How often an import is reported while imports [lo, hi) of `file` are visited and `added` is traversed. */
  function Expected(c: Context, file: FilePath, lo: nat, hi: nat, added: set<FilePath>, g: FilePath, i: nat): nat {
    One(g == file && lo <= i < hi && ReportedAt(c, g, i)) + One(g in added && ReportedAt(c, g, i))
  }

  /** Everything a walk over imports [lo, hi) of `file` has to achieve. */
  ghost predicate Explored(c: Context, w: Walk, r: Walk, file: FilePath, lo: nat, hi: nat) {
    var added := r.traversed - w.traversed;
    && w.traversed <= r.traversed
    && w.reports <= r.reports
    && (forall p :: p in added ==> Reachable(c, w.traversed, file, lo, hi, p))
    && (forall p, q :: p in added && Imports(c, p, q) ==> q in r.traversed)
    && (forall i, q :: lo <= i < hi && LeadsTo(c, file, i, q) ==> q in r.traversed)
    && (forall g, i :: Count(r.reports[|w.reports|..], g, i) == Expected(c, file, lo, hi, added, g, i))
  }

  // ----------------------------------------------------------------------- proofs

  lemma {:induction false} CountConcat(a: seq<Report>, b: seq<Report>, g: FilePath, i: nat)
    ensures Count(a + b, g, i) == Count(a, g, i) + Count(b, g, i)
  {
    if a == [] {
      assert a + b == b;
    } else {
      assert (a + b)[1..] == a[1..] + b;
      CountConcat(a[1..], b, g, i);
    }
  }

  lemma ReachableWeaken(c: Context, avoid: set<FilePath>, avoid': set<FilePath>, file: FilePath, lo: nat, hi: nat, lo': nat, hi': nat, p: FilePath)
    requires Reachable(c, avoid', file, lo', hi', p) && avoid <= avoid' && lo <= lo' && hi' <= hi
    ensures Reachable(c, avoid, file, lo, hi, p)
  {}

  /** Visiting two adjacent ranges of imports one after the other explores both. */
  lemma ExploredTransitively(c: Context, w: Walk, m: Walk, r: Walk, file: FilePath, lo: nat, mid: nat, hi: nat)
    requires lo <= mid <= hi
    requires Explored(c, w, m, file, lo, mid) && Explored(c, m, r, file, mid, hi)
    ensures Explored(c, w, r, file, lo, hi)
  {
    var added1, added2, added := m.traversed - w.traversed, r.traversed - m.traversed, r.traversed - w.traversed;
    forall p | p in added ensures Reachable(c, w.traversed, file, lo, hi, p) {
      if p in added1 {
        ReachableWeaken(c, w.traversed, w.traversed, file, lo, hi, lo, mid, p);
      } else {
        assert p in added2;
        ReachableWeaken(c, w.traversed, m.traversed, file, lo, hi, mid, hi, p);
      }
    }
    forall p, q | p in added && Imports(c, p, q) ensures q in r.traversed {
      assert p in added1 || p in added2;
    }
    CountsTransitively(c, w, m, r, file, lo, mid, hi);
  }

  lemma CountsTransitively(c: Context, w: Walk, m: Walk, r: Walk, file: FilePath, lo: nat, mid: nat, hi: nat)
    requires lo <= mid <= hi
    requires Explored(c, w, m, file, lo, mid) && Explored(c, m, r, file, mid, hi)
    ensures w.reports <= r.reports
    ensures forall g, i :: Count(r.reports[|w.reports|..], g, i)
                        == Expected(c, file, lo, hi, r.traversed - w.traversed, g, i)
  {
    var a, b := m.reports[|w.reports|..], r.reports[|m.reports|..];
    assert r.reports[|w.reports|..] == a + b;
    forall g, i
      ensures Count(r.reports[|w.reports|..], g, i) == Expected(c, file, lo, hi, r.traversed - w.traversed, g, i)
    {
      CountConcat(a, b, g, i);
      assert Count(a, g, i) == Expected(c, file, lo, mid, m.traversed - w.traversed, g, i);
      assert Count(b, g, i) == Expected(c, file, mid, hi, r.traversed - m.traversed, g, i);
    }
  }

  /** An import that leads nowhere new explores itself. */
  lemma ExploredNothing(c: Context, w: Walk, file: FilePath, lo: nat, hi: nat)
    requires forall i :: lo <= i < hi ==> !ReportedAt(c, file, i)
    requires forall i, q :: lo <= i < hi && LeadsTo(c, file, i, q) ==> q in w.traversed
    ensures Explored(c, w, w, file, lo, hi)
  {}

  lemma ExploredReport(c: Context, w: Walk, file: FilePath, original: nat, i: nat)
    requires ReportedAt(c, file, i)
    ensures Explored(c, w, w.(reports := w.reports + [Report(original, file, i)]), file, i, i + 1)
  {
    var r := w.(reports := w.reports + [Report(original, file, i)]);
    var only := [Report(original, file, i)];
    assert r.reports[|w.reports|..] == only && only[1..] == [];
    forall g, j ensures Count(only, g, j) == Expected(c, file, i, i + 1, {}, g, j) {
      assert Count(only, g, j) == One(file == g && i == j) + Count([], g, j);
    }
    assert r.traversed - w.traversed == {};
  }

  /** Entering a new module and exploring all its imports explores the import that led to it. */
  lemma ExploredEnter(c: Context, w: Walk, r: Walk, file: FilePath, i: nat, p: FilePath)
    requires LeadsTo(c, file, i, p) && p !in w.traversed
    requires Explored(c, w.(traversed := w.traversed + {p}), r, p, 0, |c.importsOf(p)|)
    ensures Explored(c, w, r, file, i, i + 1)
  {
    var entered := w.(traversed := w.traversed + {p});
    var added, inner := r.traversed - w.traversed, r.traversed - entered.traversed;
    forall q | q in added ensures Reachable(c, w.traversed, file, i, i + 1, q) {
      if q == p {
        assert LeadsTo(c, file, i, [p][0]);
        assert Chain(c, w.traversed, file, i, i + 1, [p]);
      } else {
        assert q in inner;
        ChainPrepend(c, w.traversed, file, i, p, q);
      }
    }
    forall q, q' | q in added && Imports(c, q, q') ensures q' in r.traversed {
      assert q == p || q in inner;
    }
  }

  lemma ChainPrepend(c: Context, avoid: set<FilePath>, file: FilePath, i: nat, p: FilePath, q: FilePath)
    requires LeadsTo(c, file, i, p) && p !in avoid
    requires Reachable(c, avoid + {p}, p, 0, |c.importsOf(p)|, q)
    ensures Reachable(c, avoid, file, i, i + 1, q)
  {
    var path :| Chain(c, avoid + {p}, p, 0, |c.importsOf(p)|, path) && path[|path| - 1] == q;
    var longer := [p] + path;
    forall k | 0 < k < |longer| ensures Imports(c, longer[k - 1], longer[k]) {
      if k > 1 { assert Imports(c, path[k - 2], path[k - 1]); }
    }
    assert LeadsTo(c, file, i, longer[0]);
    assert Chain(c, avoid, file, i, i + 1, longer);
  }

  lemma {:induction false} VisitExplores(c: Context, w: Walk, file: FilePath, original: nat, i: nat)
    requires Finite(c) && i < |c.importsOf(file)|
    ensures Explored(c, w, Visit(c, w, file, original, i), file, i, i + 1)
    decreases c.modules - w.traversed, 0, 0
  {
    var s := c.importsOf(file)[i];
    if Skipped(c, s) {
      ExploredNothing(c, w, file, i, i + 1);
    } else if c.isExternal(s) {
      ExploredReport(c, w, file, original, i);
    } else if c.resolve(file, s).None? || c.resolve(file, s).value in w.traversed {
      ExploredNothing(c, w, file, i, i + 1);
    } else {
      var p := c.resolve(file, s).value;
      var entered := w.(traversed := w.traversed + {p});
      VisitFromExplores(c, entered, p, original, 0);
      ExploredEnter(c, w, VisitFrom(c, entered, p, original, 0), file, i, p);
    }
  }

  lemma {:induction false} VisitFromExplores(c: Context, w: Walk, file: FilePath, original: nat, i: nat)
    requires Finite(c) && i <= |c.importsOf(file)|
    ensures Explored(c, w, VisitFrom(c, w, file, original, i), file, i, |c.importsOf(file)|)
    decreases c.modules - w.traversed, 1, |c.importsOf(file)| - i
  {
    var n := |c.importsOf(file)|;
    if i == n {
      ExploredNothing(c, w, file, n, n);
    } else {
      var m := Visit(c, w, file, original, i);
      VisitExplores(c, w, file, original, i);
      VisitFromExplores(c, m, file, original, i + 1);
      ExploredTransitively(c, w, m, VisitFrom(c, m, file, original, i + 1), file, i, i + 1, n);
    }
  }

  lemma {:induction false} LintExplores(c: Context, w: Walk, entry: FilePath, i: nat)
    requires Finite(c) && i <= |c.importsOf(entry)|
    ensures Explored(c, w, LintFrom(c, w, entry, i), entry, i, |c.importsOf(entry)|)
    decreases |c.importsOf(entry)| - i
  {
    var n := |c.importsOf(entry)|;
    if i == n {
      ExploredNothing(c, w, entry, n, n);
    } else {
      var m := Visit(c, w, entry, i, i);
      VisitExplores(c, w, entry, i, i);
      LintExplores(c, m, entry, i + 1);
      ExploredTransitively(c, w, m, LintFrom(c, m, entry, i + 1), entry, i, i + 1, n);
    }
  }

  /** A closed walk contains every chain that starts in it. */
  lemma {:induction false} ChainIsTraversed(c: Context, w: Walk, r: Walk, file: FilePath, lo: nat, hi: nat, path: seq<FilePath>, k: nat)
    requires Explored(c, w, r, file, lo, hi) && Chain(c, w.traversed, file, lo, hi, path) && k < |path|
    ensures path[k] in r.traversed
  {
    if k > 0 {
      ChainIsTraversed(c, w, r, file, lo, hi, path, k - 1);
      assert Imports(c, path[k - 1], path[k]);
    }
  }

  /** A walk traverses exactly what is reachable without going through modules traversed before. */
  lemma WalkIsExact(c: Context, w: Walk, entry: FilePath)
    requires Finite(c)
    ensures
      var r := LintFrom(c, w, entry, 0);
      var n := |c.importsOf(entry)|;
      && Explored(c, w, r, entry, 0, n)
      && (forall p :: p in r.traversed - w.traversed <==> Reachable(c, w.traversed, entry, 0, n, p))
  {
    LintExplores(c, w, entry, 0);
    var r := LintFrom(c, w, entry, 0);
    var n := |c.importsOf(entry)|;
    forall p | Reachable(c, w.traversed, entry, 0, n, p) ensures p in r.traversed - w.traversed {
      var path :| Chain(c, w.traversed, entry, 0, n, path) && path[|path| - 1] == p;
      ChainIsTraversed(c, w, r, entry, 0, n, path, |path| - 1);
    }
  }

  /** `p` is reached from the linted file by imports the rule follows, through modules not traversed before. */
  ghost predicate Reached(c: Context, w: Walk, entry: FilePath, p: FilePath) {
    Reachable(SeenFrom(c, entry), w.traversed, entry, 0, |c.importsOf(entry)|, p)
  }

  /**
   A lint of `entry` extends the traversed modules by exactly those it reaches, and
   reports an external import once if it stands in the linted file and once if it
   stands in a module it reaches; so twice if it reaches the linted file itself.
   */
  lemma LintIsExact(c: Context, w: Walk, entry: FilePath)
    requires Finite(c)
    ensures
      var r := Lint(c, w, entry);
      && w.traversed <= r.traversed && w.reports <= r.reports
      && (forall p :: p in r.traversed - w.traversed <==> Reached(c, w, entry, p))
      && (forall g, i :: Count(r.reports[|w.reports|..], g, i) ==
            if ReportedAt(c, g, i) then One(g == entry) + One(Reached(c, w, entry, g)) else 0)
  {
    WalkIsExact(SeenFrom(c, entry), w, entry);
    var r := Lint(c, w, entry);
    forall g, i
      ensures Count(r.reports[|w.reports|..], g, i) ==
        if ReportedAt(c, g, i) then One(g == entry) + One(Reached(c, w, entry, g)) else 0
    {
      assert Count(r.reports[|w.reports|..], g, i)
          == Expected(SeenFrom(c, entry), entry, 0, |c.importsOf(entry)|, r.traversed - w.traversed, g, i);
      assert ReportedAt(SeenFrom(c, entry), g, i) <==> ReportedAt(c, g, i);
      assert g in r.traversed - w.traversed <==> Reached(c, w, entry, g);
    }
  }

  // ------------------------------------------- resolving from the wrong file

  /** The `i`-th import of `f` is one the rule tries to follow. */
  predicate Internal(c: Context, f: FilePath, i: nat) {
    i < |c.importsOf(f)| && !Skipped(c, c.importsOf(f)[i]) && !c.isExternal(c.importsOf(f)[i])
  }

  /** All imports of `f` lead to the same modules in both. */
  ghost predicate SameAt(c: Context, d: Context, f: FilePath) {
    forall i :: 0 <= i < |c.importsOf(f)| && Internal(c, f, i) ==>
      c.resolve(f, c.importsOf(f)[i]) == d.resolve(f, c.importsOf(f)[i])
  }

  ghost predicate SameButResolve(c: Context, d: Context) {
    d == c.(resolve := d.resolve)
  }

  lemma {:induction false} VisitAgrees(c: Context, d: Context, w: Walk, file: FilePath, original: nat, i: nat)
    requires Finite(c) && Finite(d) && SameButResolve(c, d) && i < |c.importsOf(file)| && SameAt(c, d, file)
    requires forall f :: f in Visit(c, w, file, original, i).traversed - w.traversed ==> SameAt(c, d, f)
    ensures Visit(c, w, file, original, i) == Visit(d, w, file, original, i)
    decreases c.modules - w.traversed, 0, 0
  {
    var s := c.importsOf(file)[i];
    if Internal(c, file, i) && c.resolve(file, s).Some? && c.resolve(file, s).value !in w.traversed {
      var p := c.resolve(file, s).value;
      var entered := w.(traversed := w.traversed + {p});
      assert p in VisitFrom(c, entered, p, original, 0).traversed;
      VisitFromAgrees(c, d, entered, p, original, 0);
    }
  }

  lemma {:induction false} VisitFromAgrees(c: Context, d: Context, w: Walk, file: FilePath, original: nat, i: nat)
    requires Finite(c) && Finite(d) && SameButResolve(c, d) && i <= |c.importsOf(file)| && SameAt(c, d, file)
    requires forall f :: f in VisitFrom(c, w, file, original, i).traversed - w.traversed ==> SameAt(c, d, f)
    ensures VisitFrom(c, w, file, original, i) == VisitFrom(d, w, file, original, i)
    decreases c.modules - w.traversed, 1, |c.importsOf(file)| - i
  {
    if i < |c.importsOf(file)| {
      VisitAgrees(c, d, w, file, original, i);
      VisitFromAgrees(c, d, Visit(c, w, file, original, i), file, original, i + 1);
    }
  }

  lemma {:induction false} LintFromGrows(c: Context, w: Walk, entry: FilePath, i: nat)
    requires Finite(c) && i <= |c.importsOf(entry)|
    ensures w.traversed <= LintFrom(c, w, entry, i).traversed
    decreases |c.importsOf(entry)| - i
  {
    if i < |c.importsOf(entry)| {
      LintFromGrows(c, Visit(c, w, entry, i, i), entry, i + 1);
    }
  }

  lemma {:induction false} LintFromAgrees(c: Context, d: Context, w: Walk, entry: FilePath, i: nat)
    requires Finite(c) && Finite(d) && SameButResolve(c, d) && i <= |c.importsOf(entry)| && SameAt(c, d, entry)
    requires forall f :: f in LintFrom(c, w, entry, i).traversed - w.traversed ==> SameAt(c, d, f)
    ensures LintFrom(c, w, entry, i) == LintFrom(d, w, entry, i)
    decreases |c.importsOf(entry)| - i
  {
    if i < |c.importsOf(entry)| {
      LintFromGrows(c, Visit(c, w, entry, i, i), entry, i + 1);
      VisitAgrees(c, d, w, entry, i, i);
      LintFromAgrees(c, d, Visit(c, w, entry, i, i), entry, i + 1);
    }
  }

  /** The imports of `f` resolve from the linted file as they do from `f`. */
  ghost predicate ResolvesAlike(c: Context, entry: FilePath, f: FilePath) {
    forall i :: 0 <= i < |c.importsOf(f)| && Internal(c, f, i) ==>
      c.resolve(entry, c.importsOf(f)[i]) == c.resolve(f, c.importsOf(f)[i])
  }

  /** `p` would be reached if each import were resolved from the file it stands in. */
  ghost predicate IdeallyReached(c: Context, w: Walk, entry: FilePath, p: FilePath) {
    Reachable(c, w.traversed, entry, 0, |c.importsOf(entry)|, p)
  }

  /** The rule does what it should if the imports of every module it reaches resolve alike from both files. */
  lemma LintIsIdealIfAlike(c: Context, w: Walk, entry: FilePath)
    requires Finite(c)
    requires forall f :: Reached(c, w, entry, f) ==> ResolvesAlike(c, entry, f)
    ensures Lint(c, w, entry) == IdealLint(c, w, entry)
  {
    var d := SeenFrom(c, entry);
    LintIsExact(c, w, entry);
    forall f | f == entry || f in Lint(c, w, entry).traversed - w.traversed ensures SameAt(d, c, f) {
      assert ResolvesAlike(c, entry, f);
    }
    LintFromAgrees(d, c, w, entry, 0);
  }

  /** Every import is reported as often by the rule as it should be. */
  ghost predicate SameReports(c: Context, w: Walk, entry: FilePath)
    requires Finite(c)
  {
    var r, ideal := Lint(c, w, entry), IdealLint(c, w, entry);
    && w.reports <= r.reports && w.reports <= ideal.reports
    && forall g, i :: Count(r.reports[|w.reports|..], g, i) == Count(ideal.reports[|w.reports|..], g, i)
  }

  /** A module with a slow import is reached by the rule exactly if it should be. */
  ghost predicate SlowModulesReachedAlike(c: Context, w: Walk, entry: FilePath) {
    forall g, i :: ReportedAt(c, g, i) ==> (Reached(c, w, entry, g) <==> IdeallyReached(c, w, entry, g))
  }

  /** How often an import should be reported. */
  lemma IdealCount(c: Context, w: Walk, entry: FilePath, g: FilePath, i: nat)
    requires Finite(c)
    ensures
      var ideal := IdealLint(c, w, entry);
      && w.reports <= ideal.reports
      && Count(ideal.reports[|w.reports|..], g, i) ==
         if ReportedAt(c, g, i) then One(g == entry) + One(IdeallyReached(c, w, entry, g)) else 0
  {
    WalkIsExact(c, w, entry);
    var ideal := IdealLint(c, w, entry);
    assert Count(ideal.reports[|w.reports|..], g, i)
        == Expected(c, entry, 0, |c.importsOf(entry)|, ideal.traversed - w.traversed, g, i);
    assert g in ideal.traversed - w.traversed <==> IdeallyReached(c, w, entry, g);
  }

  /**
   Exactly when resolving from the linted file makes no difference: every import is
   reported as often as it should be iff the modules with slow imports that the rule
   reaches are those it should reach.
   */
  lemma SameReportsIff(c: Context, w: Walk, entry: FilePath)
    requires Finite(c)
    ensures SameReports(c, w, entry) <==> SlowModulesReachedAlike(c, w, entry)
  {
    LintIsExact(c, w, entry);
    var r, ideal := Lint(c, w, entry), IdealLint(c, w, entry);
    IdealCount(c, w, entry, entry, 0);
    forall g, i
      ensures Count(r.reports[|w.reports|..], g, i) == Count(ideal.reports[|w.reports|..], g, i) <==>
        (ReportedAt(c, g, i) ==> (Reached(c, w, entry, g) <==> IdeallyReached(c, w, entry, g)))
    {
      IdealCount(c, w, entry, g, i);
    }
  }

  /** What the rule reaches is closed under the real imports, and reached by them. */
  ghost predicate ReachedIsReal(c: Context, w: Walk, entry: FilePath) {
    && (forall f, q :: (f == entry || Reached(c, w, entry, f)) && Imports(c, f, q) ==>
          q in w.traversed || Reached(c, w, entry, q))
    && (forall p :: Reached(c, w, entry, p) ==> IdeallyReached(c, w, entry, p))
  }

  /** Both traverse the same modules exactly if what the rule reaches is real. */
  lemma SameModulesIff(c: Context, w: Walk, entry: FilePath)
    requires Finite(c)
    ensures Lint(c, w, entry).traversed == IdealLint(c, w, entry).traversed <==> ReachedIsReal(c, w, entry)
  {
    var r, ideal, n := Lint(c, w, entry), IdealLint(c, w, entry), |c.importsOf(entry)|;
    LintIsExact(c, w, entry);
    WalkIsExact(c, w, entry);
    if ReachedIsReal(c, w, entry) {
      forall p | p in ideal.traversed - w.traversed ensures p in r.traversed {
        var path :| Chain(c, w.traversed, entry, 0, n, path) && path[|path| - 1] == p;
        ChainStaysIn(c, w.traversed, r.traversed, entry, path, |path| - 1);
      }
      forall p | p in r.traversed - w.traversed ensures p in ideal.traversed {
        assert Reached(c, w, entry, p) && IdeallyReached(c, w, entry, p);
      }
      assert r.traversed == ideal.traversed;
    }
    if r.traversed == ideal.traversed {
      SameModulesAreReal(c, w, entry);
    }
  }

  lemma SameModulesAreReal(c: Context, w: Walk, entry: FilePath)
    requires Finite(c) && Lint(c, w, entry).traversed == IdealLint(c, w, entry).traversed
    ensures ReachedIsReal(c, w, entry)
  {
    var r := Lint(c, w, entry);
    LintIsExact(c, w, entry);
    WalkIsExact(c, w, entry);
    forall f, q | (f == entry || Reached(c, w, entry, f)) && Imports(c, f, q)
      ensures q in w.traversed || Reached(c, w, entry, q)
    {
      if f == entry {
        var i :| 0 <= i < |c.importsOf(entry)| && LeadsTo(c, f, i, q);
      } else {
        assert f in r.traversed - w.traversed;
      }
      assert q in r.traversed;
    }
    forall p | Reached(c, w, entry, p) ensures IdeallyReached(c, w, entry, p) {
      assert p in r.traversed - w.traversed;
    }
  }

  /** A set that is closed under imports from `file` and from its own new members contains every chain. */
  lemma {:induction false} ChainStaysIn(c: Context, avoid: set<FilePath>, all: set<FilePath>, file: FilePath, path: seq<FilePath>, k: nat)
    requires forall f, q :: (f == file || f in all - avoid) && Imports(c, f, q) ==> q in all
    requires Chain(c, avoid, file, 0, |c.importsOf(file)|, path) && k < |path|
    ensures path[k] in all
  {
    if k == 0 {
      var i :| 0 <= i < |c.importsOf(file)| && LeadsTo(c, file, i, path[0]);
      assert Imports(c, file, path[0]);
    } else {
      ChainStaysIn(c, avoid, all, file, path, k - 1);
      assert Imports(c, path[k - 1], path[k]);
    }
  }

  // ------------------------------------------------------- which import is blamed

  ghost predicate BlamedOn(w: Walk, r: Walk, original: nat) {
    w.reports <= r.reports && forall k :: |w.reports| <= k < |r.reports| ==> r.reports[k].original == original
  }

  lemma {:induction false} VisitBlames(c: Context, w: Walk, file: FilePath, original: nat, i: nat)
    requires Finite(c) && i < |c.importsOf(file)|
    ensures BlamedOn(w, Visit(c, w, file, original, i), original)
    decreases c.modules - w.traversed, 0, 0
  {
    var s := c.importsOf(file)[i];
    if !Skipped(c, s) && !c.isExternal(s) && c.resolve(file, s).Some? && c.resolve(file, s).value !in w.traversed {
      VisitFromBlames(c, w.(traversed := w.traversed + {c.resolve(file, s).value}), c.resolve(file, s).value, original, 0);
    }
  }

  lemma {:induction false} VisitFromBlames(c: Context, w: Walk, file: FilePath, original: nat, i: nat)
    requires Finite(c) && i <= |c.importsOf(file)|
    ensures BlamedOn(w, VisitFrom(c, w, file, original, i), original)
    decreases c.modules - w.traversed, 1, |c.importsOf(file)| - i
  {
    if i < |c.importsOf(file)| {
      VisitBlames(c, w, file, original, i);
      VisitFromBlames(c, Visit(c, w, file, original, i), file, original, i + 1);
    }
  }

  lemma {:induction false} CountHas(reports: seq<Report>, k: nat)
    requires k < |reports|
    ensures Count(reports, reports[k].file, reports[k].index) > 0
  {
    if k > 0 { CountHas(reports[1..], k - 1); }
  }

  /** The import a report is attached to is the reported one itself or leads to the file it stands in. */
  ghost predicate Justified(c: Context, entry: FilePath, report: Report) {
    || (report.file == entry && report.index == report.original)
    || Reachable(c, {}, entry, report.original, report.original + 1, report.file)
  }

  lemma {:induction false} WalkBlames(c: Context, w: Walk, entry: FilePath, i: nat, k: nat)
    requires Finite(c) && i <= |c.importsOf(entry)|
    requires |w.reports| <= k < |LintFrom(c, w, entry, i).reports|
    ensures Justified(c, entry, LintFrom(c, w, entry, i).reports[k])
    decreases |c.importsOf(entry)| - i
  {
    if i < |c.importsOf(entry)| {
      var m := Visit(c, w, entry, i, i);
      VisitBlames(c, w, entry, i, i);
      VisitExplores(c, w, entry, i, i);
      LintExplores(c, m, entry, i + 1);
      if k < |m.reports| {
        var report := m.reports[k];
        CountHas(m.reports[|w.reports|..], k - |w.reports|);
        assert Expected(c, entry, i, i + 1, m.traversed - w.traversed, report.file, report.index) > 0;
        if !(report.file == entry && report.index == i) {
          ReachableWeaken(c, {}, w.traversed, entry, i, i + 1, i, i + 1, report.file);
        }
      } else {
        WalkBlames(c, m, entry, i + 1, k);
      }
    }
  }

  /** Every report stands at an import of the linted file that is, or leads to, the reported one. */
  lemma LintBlamesTheRightImport(c: Context, w: Walk, entry: FilePath, k: nat)
    requires Finite(c) && |w.reports| <= k < |Lint(c, w, entry).reports|
    ensures Justified(SeenFrom(c, entry), entry, Lint(c, w, entry).reports[k])
  {
    WalkBlames(SeenFrom(c, entry), w, entry, 0, k);
  }

  // --------------------------------------------------------------------- examples

  /** Files 0, 1 and 2. File 0 imports 1, which imports 2 by a specifier that means nothing in file 0. */
  function Nested(): Context {
    Context({}, s => false, s => s == 7,
      (f: FilePath, s: Specifier) => if f == 0 && s == 5 then Some(1) else if f == 1 && s == 6 then Some(2) else None,
      f => if f == 0 then [5] else if f == 1 then [6] else if f == 2 then [7] else [],
      {1, 2})
  }

  /** The slow import in file 2 is not reported, though it should be. */
  lemma NestedImportIsMissed()
    ensures Finite(Nested())
    ensures Lint(Nested(), Walk({}, []), 0).reports == []
    ensures IdealLint(Nested(), Walk({}, []), 0).reports == [Report(0, 2, 0)]
  {
    var c, d, w := Nested(), SeenFrom(Nested(), 0), Walk({}, []);
    var w1, w2 := Walk({1}, []), Walk({1, 2}, []);
    assert d.importsOf(0) == [5] && d.importsOf(1) == [6] && c.importsOf(2) == [7];
    assert w.traversed + {1} == {1} && w1.traversed + {2} == {1, 2};
    assert Visit(d, w1, 1, 0, 0) == w1;
    assert VisitFrom(d, w1, 1, 0, 0) == VisitFrom(d, w1, 1, 0, 1) == w1;
    assert Visit(d, w, 0, 0, 0) == w1;
    var reported := Walk({1, 2}, [Report(0, 2, 0)]);
    assert Visit(c, w2, 2, 0, 0) == reported;
    assert VisitFrom(c, w2, 2, 0, 0) == VisitFrom(c, reported, 2, 0, 1) == reported;
    assert Visit(c, w1, 1, 0, 0) == reported;
    assert VisitFrom(c, w1, 1, 0, 0) == VisitFrom(c, reported, 1, 0, 1) == reported;
    assert Visit(c, w, 0, 0, 0) == reported;
    assert LintFrom(d, w, 0, 0) == LintFrom(d, w1, 0, 1) == w1;
    assert LintFrom(c, w, 0, 0) == LintFrom(c, reported, 0, 1) == reported;
  }

  /** File 0 imports file 1 and something external, and file 1 imports file 0. */
  function Cycle(): Context {
    Context({}, s => false, s => s == 7,
      (f: FilePath, s: Specifier) => if s == 5 then Some(1) else if s == 6 then Some(0) else None,
      f => if f == 0 then [5, 7] else if f == 1 then [6] else [],
      {0, 1})
  }

  /** On a cycle through the linted file its own external import is reported twice. */
  lemma CycleReportsTwice()
    ensures Finite(Cycle())
    ensures Count(Lint(Cycle(), Walk({}, []), 0).reports, 0, 1) == 2
  {
    var c, w := Cycle(), Walk({}, []);
    var d := SeenFrom(c, 0);
    assert c.importsOf(0) == [5, 7] && c.importsOf(1) == [6];
    LintIsExact(c, w, 0);
    var path := [1, 0];
    assert LeadsTo(d, 0, 0, path[0]) && LeadsTo(d, 1, 0, 0);
    assert Imports(d, path[0], path[1]);
    assert Chain(d, {}, 0, 0, 2, path);
    assert Reached(c, w, 0, 0);
    var r := Lint(c, w, 0);
    assert r.reports[0..] == r.reports && ReportedAt(c, 0, 1);
  }

  // ---------------------------------------------------- the rule as it is written

  class Rule {
    var traversed: set<FilePath>
    var reports: seq<Report>

    ghost function Now(): Walk
      reads this
    {
      Walk(traversed, reports)
    }

    constructor ()
      ensures Now() == Walk({}, [])
    {
      traversed, reports := {}, [];
    }

    method Visitor(c: Context, linted: FilePath, file: FilePath, original: nat, i: nat)
      requires Finite(c) && i < |c.importsOf(file)|
      modifies this
      ensures Now() == Visit(SeenFrom(c, linted), old(Now()), file, original, i)
      decreases c.modules - traversed, 0
    {
      var s := c.importsOf(file)[i];
      if Skipped(c, s) {
        return;
      }
      if !c.isExternal(s) {
        var path := c.resolve(linted, s);
        if path.None? || path.value in traversed {
          return;
        }
        traversed := traversed + {path.value};
        DetectTopLevelExternalDependency(c, linted, path.value, original);
      } else {
        reports := reports + [Report(original, file, i)];
      }
    }

    method DetectTopLevelExternalDependency(c: Context, linted: FilePath, path: FilePath, original: nat)
      requires Finite(c)
      modifies this
      ensures Now() == VisitFrom(SeenFrom(c, linted), old(Now()), path, original, 0)
      decreases c.modules - traversed, 1
    {
      var i := 0;
      while i < |c.importsOf(path)|
        invariant 0 <= i <= |c.importsOf(path)|
        invariant old(traversed) <= traversed
        invariant VisitFrom(SeenFrom(c, linted), Now(), path, original, i) == VisitFrom(SeenFrom(c, linted), old(Now()), path, original, 0)
      {
        Visitor(c, linted, path, original, i);
        i := i + 1;
      }
    }

    /** What ESLint does with the visitors of `create`. */
    method LintFile(c: Context, entry: FilePath)
      requires Finite(c)
      modifies this
      ensures Now() == Lint(c, old(Now()), entry)
    {
      var i := 0;
      while i < |c.importsOf(entry)|
        invariant 0 <= i <= |c.importsOf(entry)|
        invariant LintFrom(SeenFrom(c, entry), Now(), entry, i) == Lint(c, old(Now()), entry)
      {
        Visitor(c, entry, entry, i, i);
        i := i + 1;
      }
    }
  }
}
