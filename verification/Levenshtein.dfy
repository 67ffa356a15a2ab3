/**
 The textbook edit distance, and what makes it the right notion: it is the least
 number of single-unit edits that turn one string into the other, and a metric.
 Nothing here mentions how `findDistance` computes it.
 */
module Levenshtein {
  import opened JsStrings

  function Min3(x: nat, y: nat, z: nat): (m: nat)
    ensures m <= x && m <= y && m <= z && (m == x || m == y || m == z)
  {
    if x <= y && x <= z then x else if y <= z then y else z
  }

  function Max(x: nat, y: nat): nat {
    if x >= y then x else y
  }

  function Cost(x: CodeUnit, y: CodeUnit): nat {
    if x == y then 0 else 1
  }

  /** Distance of `a[..i]` and `b[..j]`: the cell (i, j) of the table. */
  function Cell(a: JsString, b: JsString, i: nat, j: nat): nat
    requires i <= |a| && j <= |b|
    decreases i + j
  {
    if i == 0 then j
    else if j == 0 then i
    else
      Min3(Cell(a, b, i - 1, j) + 1,
           Cell(a, b, i, j - 1) + 1,
           Cell(a, b, i - 1, j - 1) + Cost(a[i - 1], b[j - 1]))
  }

  function Distance(a: JsString, b: JsString): nat {
    Cell(a, b, |a|, |b|)
  }

  // ---------------------------------------------------------------- the table

  /** A cell lies between the difference of its coordinates and the larger one. */
  ghost predicate Bounded(a: JsString, b: JsString, i: nat, j: nat)
    requires i <= |a| && j <= |b|
  {
    i - j <= Cell(a, b, i, j) && j - i <= Cell(a, b, i, j) && Cell(a, b, i, j) <= Max(i, j)
  }

  lemma {:induction false} CellBounds(a: JsString, b: JsString, i: nat, j: nat)
    requires i <= |a| && j <= |b|
    ensures Bounded(a, b, i, j)
    decreases i + j
  {
    if i > 0 && j > 0 {
      CellBounds(a, b, i - 1, j);
      CellBounds(a, b, i, j - 1);
      CellBounds(a, b, i - 1, j - 1);
    }
  }

  /** Neighbouring cells differ by at most one. */
  lemma {:induction false} CellAdjacent(a: JsString, b: JsString, i: nat, j: nat)
    requires i <= |a| && j <= |b|
    ensures i > 0 ==> Cell(a, b, i - 1, j) <= Cell(a, b, i, j) + 1
    ensures j > 0 ==> Cell(a, b, i, j - 1) <= Cell(a, b, i, j) + 1
    decreases i + j
  {
    if i > 0 && j > 0 {
      CellAdjacent(a, b, i - 1, j);
      CellAdjacent(a, b, i, j - 1);
      CellAdjacent(a, b, i - 1, j - 1);
    }
  }

  ghost predicate SamePrefix(a: JsString, a': JsString, i: nat) {
    i <= |a| && i <= |a'| && forall k :: 0 <= k < i ==> a[k] == a'[k]
  }

  ghost predicate SameCell(a: JsString, b: JsString, a': JsString, b': JsString, i: nat, j: nat)
    requires i <= |a| && j <= |b| && i <= |a'| && j <= |b'|
  {
    Cell(a, b, i, j) == Cell(a', b', i, j)
  }

  /** A cell only looks at the prefixes it is about. */
  lemma {:induction false} CellPrefix(a: JsString, b: JsString, a': JsString, b': JsString, i: nat, j: nat)
    requires SamePrefix(a, a', i) && SamePrefix(b, b', j)
    ensures SameCell(a, b, a', b', i, j)
    decreases i + j
  {
    if i > 0 && j > 0 {
      CellPrefix(a, b, a', b', i - 1, j);
      CellPrefix(a, b, a', b', i, j - 1);
      CellPrefix(a, b, a', b', i - 1, j - 1);
    }
  }

  /** The distance of two prefixes is the cell they meet in. */
  lemma DistancePrefix(a: JsString, b: JsString, i: nat, j: nat)
    requires i <= |a| && j <= |b|
    ensures Distance(a[..i], b[..j]) == Cell(a, b, i, j)
  {
    CellPrefix(a[..i], b[..j], a, b, i, j);
  }

  /** The recursion on whole strings, peeling the last units. */
  lemma DistanceStep(a: JsString, b: JsString)
    requires |a| > 0 && |b| > 0
    ensures Distance(a, b) ==
      Min3(Distance(a[..|a| - 1], b) + 1,
           Distance(a, b[..|b| - 1]) + 1,
           Distance(a[..|a| - 1], b[..|b| - 1]) + Cost(a[|a| - 1], b[|b| - 1]))
  {
    CellPrefix(a[..|a| - 1], b, a, b, |a| - 1, |b|);
    CellPrefix(a, b[..|b| - 1], a, b, |a|, |b| - 1);
    DistancePrefix(a, b, |a| - 1, |b| - 1);
  }

  // --------------------------------------------------------- common ends drop

  /** The cell is the one before it on the diagonal. */
  ghost predicate AsBefore(a: JsString, b: JsString, i: nat, j: nat)
    requires 0 < i <= |a| && 0 < j <= |b|
  {
    Cell(a, b, i, j) == Cell(a, b, i - 1, j - 1)
  }

  lemma EqualUnitsCostNothing(a: JsString, b: JsString, i: nat, j: nat)
    requires 0 < i <= |a| && 0 < j <= |b| && a[i - 1] == b[j - 1]
    ensures AsBefore(a, b, i, j)
  {
    CellAdjacent(a, b, i - 1, j);
    CellAdjacent(a, b, i, j - 1);
  }

  lemma DropLast(a: JsString, b: JsString)
    requires |a| > 0 && |b| > 0 && a[|a| - 1] == b[|b| - 1]
    ensures Distance(a, b) == Distance(a[..|a| - 1], b[..|b| - 1])
  {
    EqualUnitsCostNothing(a, b, |a|, |b|);
    DistancePrefix(a, b, |a| - 1, |b| - 1);
  }

  /** Prepending one unit to both strings shifts the whole table. */
  ghost predicate Shifted(c: CodeUnit, a: JsString, b: JsString, i: nat, j: nat)
    requires i <= |a| && j <= |b|
  {
    Cell([c] + a, [c] + b, i + 1, j + 1) == Cell(a, b, i, j)
  }

  lemma {:induction false} CellShift(c: CodeUnit, a: JsString, b: JsString, i: nat, j: nat)
    requires i <= |a| && j <= |b|
    ensures Shifted(c, a, b, i, j)
    decreases i + j
  {
    if i == 0 || j == 0 {
      CellShiftEdge(c, a, b, i, j);
    } else {
      CellShift(c, a, b, i - 1, j);
      CellShift(c, a, b, i, j - 1);
      CellShift(c, a, b, i - 1, j - 1);
      assert ([c] + a)[i] == a[i - 1] && ([c] + b)[j] == b[j - 1];
    }
  }

  lemma {:induction false} CellShiftEdge(c: CodeUnit, a: JsString, b: JsString, i: nat, j: nat)
    requires i <= |a| && j <= |b| && (i == 0 || j == 0)
    ensures Shifted(c, a, b, i, j)
    decreases i + j
  {
    CellBounds([c] + a, [c] + b, i + 1, j + 1);
    if i > 0 {
      CellShiftEdge(c, a, b, i - 1, j);
    } else if j > 0 {
      CellShiftEdge(c, a, b, i, j - 1);
    }
  }

  lemma DropFirst(a: JsString, b: JsString)
    requires |a| > 0 && |b| > 0 && a[0] == b[0]
    ensures Distance(a, b) == Distance(a[1..], b[1..])
  {
    CellShift(a[0], a[1..], b[1..], |a| - 1, |b| - 1);
    assert [a[0]] + a[1..] == a && [b[0]] + b[1..] == b;
  }

  // ------------------------------------------------------------------- metric

  ghost predicate Mirrored(a: JsString, b: JsString, i: nat, j: nat)
    requires i <= |a| && j <= |b|
  {
    Cell(a, b, i, j) == Cell(b, a, j, i)
  }

  lemma {:induction false} CellSymmetric(a: JsString, b: JsString, i: nat, j: nat)
    requires i <= |a| && j <= |b|
    ensures Mirrored(a, b, i, j)
    decreases i + j
  {
    if i > 0 && j > 0 {
      CellSymmetric(a, b, i - 1, j);
      CellSymmetric(a, b, i, j - 1);
      CellSymmetric(a, b, i - 1, j - 1);
    }
  }

  lemma Symmetric(a: JsString, b: JsString)
    ensures Distance(a, b) == Distance(b, a)
  {
    CellSymmetric(a, b, |a|, |b|);
  }

  /** Zero exactly for equal strings. */
  lemma {:induction false} ZeroIffEqual(a: JsString, b: JsString)
    ensures Distance(a, b) == 0 <==> a == b
    decreases |a|
  {
    CellBounds(a, b, |a|, |b|);
    if |a| > 0 && |a| == |b| {
      var a', b' := a[..|a| - 1], b[..|b| - 1];
      DistanceStep(a, b);
      ZeroIffEqual(a', b');
      assert a == a' + [a[|a| - 1]] && b == b' + [b[|b| - 1]];
      if a == b { DropLast(a, b); }
    }
  }

  lemma Bounds(a: JsString, b: JsString)
    ensures Distance(a, b) <= Max(|a|, |b|)
    ensures |a| - |b| <= Distance(a, b) && |b| - |a| <= Distance(a, b)
  {
    CellBounds(a, b, |a|, |b|);
  }

  /** The cell is reached by deleting `a[i - 1]`. */
  ghost predicate Deletes(a: JsString, b: JsString, i: nat, j: nat)
    requires 0 < i <= |a| && j <= |b|
  {
    Cell(a, b, i, j) == Cell(a, b, i - 1, j) + 1
  }

  /** The cell is reached by inserting `b[j - 1]`. */
  ghost predicate Inserts(a: JsString, b: JsString, i: nat, j: nat)
    requires i <= |a| && 0 < j <= |b|
  {
    Cell(a, b, i, j) == Cell(a, b, i, j - 1) + 1
  }

  ghost predicate TriangleAt(a: JsString, b: JsString, c: JsString, i: nat, j: nat, k: nat)
    requires i <= |a| && j <= |b| && k <= |c|
  {
    Cell(a, c, i, k) <= Cell(a, b, i, j) + Cell(b, c, j, k)
  }

  /** The cell is reached by keeping or replacing the last units. */
  ghost predicate Matches(a: JsString, b: JsString, i: nat, j: nat)
    requires 0 < i <= |a| && 0 < j <= |b|
  {
    Cell(a, b, i, j) == Cell(a, b, i - 1, j - 1) + Cost(a[i - 1], b[j - 1])
  }

  /** Every cell is reached in one of the three ways. */
  lemma CellCases(a: JsString, b: JsString, i: nat, j: nat)
    requires 0 < i <= |a| && 0 < j <= |b|
    ensures Deletes(a, b, i, j) || Inserts(a, b, i, j) || Matches(a, b, i, j)
  {}

  lemma {:induction false} CellTriangle(a: JsString, b: JsString, c: JsString, i: nat, j: nat, k: nat)
    requires i <= |a| && j <= |b| && k <= |c|
    ensures TriangleAt(a, b, c, i, j, k)
    decreases i + j + k, 1
  {
    if i == 0 || j == 0 || k == 0 {
      CellTriangleEdge(a, b, c, i, j, k);
    } else if Deletes(a, b, i, j) || Inserts(b, c, j, k) {
      CellTriangle(a, b, c, i - 1, j, k);
      CellTriangle(a, b, c, i, j, k - 1);
      TriangleIfOuter(a, b, c, i, j, k);
    } else {
      CellTriangleInner(a, b, c, i, j, k);
    }
  }

  lemma {:induction false} CellTriangleInner(a: JsString, b: JsString, c: JsString, i: nat, j: nat, k: nat)
    requires 0 < i <= |a| && 0 < j <= |b| && 0 < k <= |c|
    requires !Deletes(a, b, i, j) && !Inserts(b, c, j, k)
    ensures TriangleAt(a, b, c, i, j, k)
    decreases i + j + k, 0
  {
    CellCases(a, b, i, j);
    CellCases(b, c, j, k);
    if Inserts(a, b, i, j) {
      CellTriangle(a, b, c, i, j - 1, k);
      CellTriangle(a, b, c, i, j - 1, k - 1);
      TriangleIfInserted(a, b, c, i, j, k);
    } else {
      CellTriangle(a, b, c, i - 1, j - 1, k);
      CellTriangle(a, b, c, i - 1, j - 1, k - 1);
      TriangleIfMatched(a, b, c, i, j, k);
    }
  }

  lemma TriangleIfOuter(a: JsString, b: JsString, c: JsString, i: nat, j: nat, k: nat)
    requires 0 < i <= |a| && 0 < j <= |b| && 0 < k <= |c|
    requires
      || (Deletes(a, b, i, j) && TriangleAt(a, b, c, i - 1, j, k))
      || (Inserts(b, c, j, k) && TriangleAt(a, b, c, i, j, k - 1))
    ensures TriangleAt(a, b, c, i, j, k)
  {}

  lemma TriangleIfInserted(a: JsString, b: JsString, c: JsString, i: nat, j: nat, k: nat)
    requires 0 < i <= |a| && 0 < j <= |b| && 0 < k <= |c| && Inserts(a, b, i, j)
    requires
      || (Deletes(b, c, j, k) && TriangleAt(a, b, c, i, j - 1, k))
      || (Matches(b, c, j, k) && TriangleAt(a, b, c, i, j - 1, k - 1))
    ensures TriangleAt(a, b, c, i, j, k)
  {}

  lemma TriangleIfMatched(a: JsString, b: JsString, c: JsString, i: nat, j: nat, k: nat)
    requires 0 < i <= |a| && 0 < j <= |b| && 0 < k <= |c| && Matches(a, b, i, j)
    requires
      || (Deletes(b, c, j, k) && TriangleAt(a, b, c, i - 1, j - 1, k))
      || (Matches(b, c, j, k) && TriangleAt(a, b, c, i - 1, j - 1, k - 1))
    ensures TriangleAt(a, b, c, i, j, k)
  {}

  lemma CellTriangleEdge(a: JsString, b: JsString, c: JsString, i: nat, j: nat, k: nat)
    requires i <= |a| && j <= |b| && k <= |c| && (i == 0 || j == 0 || k == 0)
    ensures TriangleAt(a, b, c, i, j, k)
  {
    CellBounds(a, b, i, j);
    CellBounds(b, c, j, k);
    CellBounds(a, c, i, k);
  }

  lemma Triangle(a: JsString, b: JsString, c: JsString)
    ensures Distance(a, c) <= Distance(a, b) + Distance(b, c)
  {
    CellTriangle(a, b, c, |a|, |b|, |c|);
  }

  // ------------------------------------------------- least number of edits

  datatype Edit =
    | Insert(at: nat, unit: CodeUnit)
    | Delete(at: nat)
    | Replace(at: nat, unit: CodeUnit)
  {
    predicate Applies(s: JsString) {
      if Insert? then at <= |s| else at < |s|
    }

    function Apply(s: JsString): JsString
      requires Applies(s)
    {
      match this
      case Insert(_, u) => s[..at] + [u] + s[at..]
      case Delete(_) => s[..at] + s[at + 1..]
      case Replace(_, u) => s[at := u]
    }
  }

  /** Running `edits` one after the other turns `a` into `b`. */
  ghost predicate Transforms(edits: seq<Edit>, a: JsString, b: JsString) {
    if edits == [] then a == b
    else edits[0].Applies(a) && Transforms(edits[1..], edits[0].Apply(a), b)
  }

  /** Dropping a common prefix or suffix never changes the distance. */
  lemma {:induction false} DropPrefix(p: JsString, a: JsString, b: JsString)
    ensures Distance(p + a, p + b) == Distance(a, b)
  {
    if p == [] {
      assert p + a == a && p + b == b;
    } else {
      DropFirst(p + a, p + b);
      assert (p + a)[1..] == p[1..] + a && (p + b)[1..] == p[1..] + b;
      DropPrefix(p[1..], a, b);
    }
  }

  lemma {:induction false} DropSuffix(s: JsString, a: JsString, b: JsString)
    ensures Distance(a + s, b + s) == Distance(a, b)
  {
    if s == [] {
      assert a + s == a && b + s == b;
    } else {
      var s' := s[..|s| - 1];
      DropLast(a + s, b + s);
      assert (a + s)[..|a + s| - 1] == a + s' && (b + s)[..|b + s| - 1] == b + s';
      DropSuffix(s', a, b);
    }
  }

  ghost predicate Near(s: JsString, t: JsString) {
    Distance(s, t) <= 1
  }

  /** Strings that differ only in a middle of at most one unit are at most one apart. */
  lemma MiddleMovesByOne(p: JsString, m: JsString, m': JsString, t: JsString)
    requires |m| <= 1 && |m'| <= 1
    ensures Near(p + (m + t), p + (m' + t))
  {
    DropPrefix(p, m + t, m' + t);
    DropSuffix(t, m, m');
    Bounds(m, m');
  }

  /** An edit replaces a middle of at most one unit by another. */
  lemma ApplyIsMiddle(e: Edit, s: JsString) returns (p: JsString, m: JsString, m': JsString, t: JsString)
    requires e.Applies(s)
    ensures |m| <= 1 && |m'| <= 1
    ensures s == p + (m + t) && e.Apply(s) == p + (m' + t)
  {
    match e
    case Insert(at, u) =>
      p, m, m', t := s[..at], [], [u], s[at..];
      InsertIsMiddle(s, at, u);
    case Delete(at) =>
      p, m, m', t := s[..at], [s[at]], [], s[at + 1..];
      DeleteIsMiddle(s, at);
    case Replace(at, u) =>
      p, m, m', t := s[..at], [s[at]], [u], s[at + 1..];
      DeleteIsMiddle(s, at);
      ReplaceIsMiddle(s, at, u);
  }

  lemma InsertIsMiddle(s: JsString, at: nat, u: CodeUnit)
    requires at <= |s|
    ensures s == s[..at] + ([] + s[at..]) && s[..at] + [u] + s[at..] == s[..at] + ([u] + s[at..])
  {
    assert [] + s[at..] == s[at..];
  }

  lemma DeleteIsMiddle(s: JsString, at: nat)
    requires at < |s|
    ensures s == s[..at] + ([s[at]] + s[at + 1..]) && s[..at] + s[at + 1..] == s[..at] + ([] + s[at + 1..])
  {
    assert [] + s[at + 1..] == s[at + 1..];
  }

  lemma ReplaceIsMiddle(s: JsString, at: nat, u: CodeUnit)
    requires at < |s|
    ensures s[at := u] == s[..at] + ([u] + s[at + 1..])
  {}

  /** One edit moves a string by at most one. */
  lemma EditMovesByOne(e: Edit, s: JsString)
    requires e.Applies(s)
    ensures Near(s, e.Apply(s))
  {
    var p, m, m', t := ApplyIsMiddle(e, s);
    MiddleMovesByOne(p, m, m', t);
  }

  /** No script is shorter than the distance. */
  lemma {:induction false} ScriptsAreLong(edits: seq<Edit>, a: JsString, b: JsString)
    requires Transforms(edits, a, b)
    ensures Distance(a, b) <= |edits|
  {
    if edits == [] {
      ZeroIffEqual(a, b);
    } else {
      var m := edits[0].Apply(a);
      EditMovesByOne(edits[0], a);
      ScriptsAreLong(edits[1..], m, b);
      Triangle(a, m, b);
    }
  }

  lemma ApplyWithTail(e: Edit, a: JsString, tail: JsString)
    requires e.Applies(a)
    ensures e.Applies(a + tail) && e.Apply(a + tail) == e.Apply(a) + tail
  {
    match e
    case Insert(at, u) =>
      SlicesWithTail(a, tail, at);
      Assoc(a[..at] + [u], a[at..], tail);
    case Delete(at) =>
      SlicesWithTail(a, tail, at);
      SlicesWithTail(a, tail, at + 1);
      Assoc(a[..at], a[at + 1..], tail);
    case Replace(at, u) =>
      assert (a + tail)[at := u] == a[at := u] + tail;
  }

  lemma SlicesWithTail(a: JsString, tail: JsString, k: nat)
    requires k <= |a|
    ensures (a + tail)[..k] == a[..k] && (a + tail)[k..] == a[k..] + tail
  {}

  /** Appending the same tail to both ends of a script keeps it a script. */
  lemma {:induction false} TransformsWithTail(edits: seq<Edit>, a: JsString, b: JsString, tail: JsString)
    requires Transforms(edits, a, b)
    ensures Transforms(edits, a + tail, b + tail)
  {
    if edits != [] {
      ApplyWithTail(edits[0], a, tail);
      TransformsWithTail(edits[1..], edits[0].Apply(a), b, tail);
    }
  }

  lemma {:induction false} TransformsThen(edits: seq<Edit>, a: JsString, b: JsString, e: Edit)
    requires Transforms(edits, a, b) && e.Applies(b)
    ensures Transforms(edits + [e], a, e.Apply(b))
  {
    if edits == [] {
      assert (edits + [e])[1..] == [];
    } else {
      TransformsThen(edits[1..], edits[0].Apply(a), b, e);
      assert (edits + [e])[1..] == edits[1..] + [e];
    }
  }

  /** How the last step of an optimal script is chosen, on whole strings. */
  lemma LastStep(a: JsString, b: JsString)
    ensures |a| == 0 && |b| > 0 ==> Distance(a, b) == Distance(a, b[..|b| - 1]) + 1
    ensures |b| == 0 && |a| > 0 ==> Distance(a, b) == Distance(a[..|a| - 1], b) + 1
    ensures |a| > 0 && |b| > 0 ==>
      || Distance(a, b) == Distance(a[..|a| - 1], b) + 1
      || Distance(a, b) == Distance(a, b[..|b| - 1]) + 1
      || Distance(a, b) == Distance(a[..|a| - 1], b[..|b| - 1]) + Cost(a[|a| - 1], b[|b| - 1])
  {
    if |a| > 0 && |b| > 0 { DistanceStep(a, b); }
  }

  /** A script of exactly the distance exists. */
  lemma {:induction false} ShortestScript(a: JsString, b: JsString) returns (edits: seq<Edit>)
    ensures Transforms(edits, a, b) && |edits| == Distance(a, b)
    decreases |a| + |b|
  {
    LastStep(a, b);
    if |a| == 0 && |b| == 0 {
      edits := [];
    } else if |b| > 0 && Distance(a, b) == Distance(a, b[..|b| - 1]) + 1 {
      edits := ShortestScript(a, b[..|b| - 1]);
      edits := ThenInsert(edits, a, b);
    } else if |a| > 0 && Distance(a, b) == Distance(a[..|a| - 1], b) + 1 {
      edits := ShortestScript(a[..|a| - 1], b);
      edits := DeleteThen(edits, a, b);
    } else {
      edits := ShortestScript(a[..|a| - 1], b[..|b| - 1]);
      edits := ReplaceLast(edits, a, b);
    }
  }

  lemma ThenInsert(edits: seq<Edit>, a: JsString, b: JsString) returns (r: seq<Edit>)
    requires |b| > 0 && Transforms(edits, a, b[..|b| - 1])
    ensures Transforms(r, a, b) && |r| == |edits| + 1
  {
    var b', insert := b[..|b| - 1], Insert(|b| - 1, b[|b| - 1]);
    TransformsThen(edits, a, b', insert);
    assert insert.Apply(b') == b' + [b[|b| - 1]] + [] == b;
    r := edits + [insert];
  }

  lemma DeleteThen(edits: seq<Edit>, a: JsString, b: JsString) returns (r: seq<Edit>)
    requires |a| > 0 && Transforms(edits, a[..|a| - 1], b)
    ensures Transforms(r, a, b) && |r| == |edits| + 1
  {
    r := [Delete(|a| - 1)] + edits;
    assert Delete(|a| - 1).Apply(a) == a[..|a| - 1] && r[1..] == edits;
  }

  /** The same script on the whole of `a` leaves the last unit of `a` at the end. */
  lemma KeepLast(edits: seq<Edit>, a: JsString, b': JsString)
    requires |a| > 0 && Transforms(edits, a[..|a| - 1], b')
    ensures Transforms(edits, a, b' + [a[|a| - 1]])
  {
    TransformsWithTail(edits, a[..|a| - 1], b', [a[|a| - 1]]);
    assert a[..|a| - 1] + [a[|a| - 1]] == a;
  }

  lemma ThenReplace(edits: seq<Edit>, a: JsString, b': JsString, x: CodeUnit, y: CodeUnit) returns (r: seq<Edit>)
    requires Transforms(edits, a, b' + [x])
    ensures Transforms(r, a, b' + [y]) && |r| == |edits| + 1
  {
    var replace := Replace(|b'|, y);
    TransformsThen(edits, a, b' + [x], replace);
    assert (b' + [x])[|b'| := y] == b' + [y];
    r := edits + [replace];
  }

  lemma ReplaceLast(edits: seq<Edit>, a: JsString, b: JsString) returns (r: seq<Edit>)
    requires |a| > 0 && |b| > 0 && Transforms(edits, a[..|a| - 1], b[..|b| - 1])
    ensures Transforms(r, a, b) && |r| == |edits| + Cost(a[|a| - 1], b[|b| - 1])
  {
    var b', x, y := b[..|b| - 1], a[|a| - 1], b[|b| - 1];
    assert b == b' + [y];
    KeepLast(edits, a, b');
    r := edits;
    if x != y {
      r := ThenReplace(edits, a, b', x, y);
    }
  }

  /** The distance is the least number of single-unit edits. */
  lemma DistanceIsLeastEdits(a: JsString, b: JsString, k: nat)
    ensures Distance(a, b) <= k <==> exists edits :: |edits| <= k && Transforms(edits, a, b)
  {
    if Distance(a, b) <= k {
      var edits := ShortestScript(a, b);
      assert |edits| <= k && Transforms(edits, a, b);
    }
    forall edits | |edits| <= k && Transforms(edits, a, b)
      ensures Distance(a, b) <= k
    {
      ScriptsAreLong(edits, a, b);
    }
  }
}
