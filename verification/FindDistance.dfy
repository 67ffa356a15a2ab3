/**
 `findDistance`: the hand-optimised edit distance behind the "did you mean"
 suggestions. It orders its arguments by length, drops common ends, answers
 short cases outright and otherwise sweeps the table four columns at a time with
 one vector that interleaves a column of the table with the units of `a`.
 */
module FindDistance {
  import opened JsStrings
  import opened Levenshtein

  /** `_min`: the next cell from its left (d0), diagonal (d1) and upper (d2) neighbours. */
  function PickMin(d0: nat, d1: nat, d2: nat, bx: CodeUnit, ay: CodeUnit): nat {
    if d0 < d1 || d2 < d1 then
      if d0 > d2 then d2 + 1 else d0 + 1
    else if bx == ay then d1
    else d1 + 1
  }

  /** For all distances the branching `_min`, which compares only some of them, is the least of the three. */
  lemma PickMinIsMinimum(left: nat, diagonal: nat, up: nat, bx: CodeUnit, ay: CodeUnit)
    ensures PickMin(left, diagonal, up, bx, ay) == Min3(up + 1, left + 1, diagonal + Cost(ay, bx))
  {}

  /** From three neighbours of the table `PickMin` gives the next cell. */
  lemma NextCell(a: JsString, b: JsString, i: nat, j: nat, left: nat, diagonal: nat, up: nat)
    requires i < |a| && j < |b|
    requires IsCell(a, b, i + 1, j, left) && IsCell(a, b, i, j, diagonal) && IsCell(a, b, i, j + 1, up)
    ensures IsCell(a, b, i + 1, j + 1, PickMin(left, diagonal, up, b[j], a[i]))
  {
    PickMinIsMinimum(left, diagonal, up, b[j], a[i]);
  }

  ghost predicate IsCell(a: JsString, b: JsString, i: nat, j: nat, d: int)
    requires i <= |a| && j <= |b|
  {
    d == Cell(a, b, i, j)
  }

  /**
   The vector interleaves distances and units. Its first `row` distances are those
   of column `done`, the others still those of column `x`.
   */
  ghost predicate Columns(v: seq<int>, a: JsString, b: JsString, row: nat, done: nat, x: nat)
    requires done <= |b| && x <= |b|
  {
    && |v| == 2 * |a|
    && (forall k: nat :: k < |a| ==> UnitAt(v, k) == a[k])
    && (forall k: nat :: k < |a| ==> IsCell(a, b, k + 1, if k < row then done else x, DistanceAt(v, k)))
  }

  function DistanceAt(v: seq<int>, k: nat): int
    requires 2 * k < |v|
  {
    v[2 * k]
  }

  function UnitAt(v: seq<int>, k: nat): int
    requires 2 * k + 1 < |v|
  {
    v[2 * k + 1]
  }

  lemma ColumnsStep(v: seq<int>, a: JsString, b: JsString, row: nat, done: nat, x: nat, d: int)
    requires done <= |b| && x <= |b| && row < |a|
    requires Columns(v, a, b, row, done, x) && IsCell(a, b, row + 1, done, d)
    ensures Columns(v[2 * row := d], a, b, row + 1, done, x)
  {
    var w := v[2 * row := d];
    forall k: nat | k < |a|
      ensures UnitAt(w, k) == a[k]
      ensures IsCell(a, b, k + 1, if k < row + 1 then done else x, DistanceAt(w, k))
    {
      assert UnitAt(v, k) == a[k];
      assert IsCell(a, b, k + 1, if k < row then done else x, DistanceAt(v, k));
    }
  }

  lemma ColumnsDone(v: seq<int>, a: JsString, b: JsString, done: nat, x: nat, x': nat)
    requires done <= |b| && x <= |b| && x' <= |b|
    requires Columns(v, a, b, |a|, done, x)
    ensures Columns(v, a, b, 0, x', done)
  {}

  /** Four distances of one row of the table, in columns x to x + 3. */
  ghost predicate InRow(a: JsString, b: JsString, row: nat, x: nat, d0: nat, d1: nat, d2: nat, d3: nat)
    requires row <= |a| && x + 3 <= |b|
  {
    && IsCell(a, b, row, x, d0) && IsCell(a, b, row, x + 1, d1)
    && IsCell(a, b, row, x + 2, d2) && IsCell(a, b, row, x + 3, d3)
  }

  /** The edge of the table. */
  lemma FirstRow(a: JsString, b: JsString, x: nat)
    requires x + 4 <= |b|
    ensures InRow(a, b, 0, x, x, x + 1, x + 2, x + 3) && IsCell(a, b, 0, x + 4, x + 4)
  {}

  lemma ColumnsStart(v: seq<int>, a: JsString, b: JsString, done: nat, x: nat)
    requires done <= |b| && x <= |b| && Columns(v, a, b, 0, x, x)
    ensures Columns(v, a, b, 0, done, x)
  {}

  /** What the vector holds for one row. */
  lemma RowAt(v: seq<int>, a: JsString, b: JsString, row: nat, done: nat, x: nat)
    requires done <= |b| && x <= |b| && row < |a| && Columns(v, a, b, row, done, x)
    ensures v[2 * row + 1] == a[row] && v[2 * row] >= 0 && IsCell(a, b, row + 1, x, v[2 * row])
  {
    assert UnitAt(v, row) == a[row];
    assert IsCell(a, b, row + 1, x, DistanceAt(v, row));
  }

  /** `vector[y] = dd` */
  method Store(vector: array<int>, a: JsString, b: JsString, row: nat, done: nat, x: nat, d: int)
    requires done <= |b| && x <= |b| && row < |a|
    requires Columns(vector[..], a, b, row, done, x) && IsCell(a, b, row + 1, done, d)
    modifies vector
    ensures Columns(vector[..], a, b, row + 1, done, x)
  {
    ColumnsStep(vector[..], a, b, row, done, x, d);
    ghost var before := vector[..];
    vector[2 * row] := d;
    assert vector[..] == before[2 * row := d];
  }

  /** The four steps of the unrolled body go from one row to the next. */
  method NextRow(a: JsString, b: JsString, row: nat, x: nat, dy: nat, d0: nat, d1: nat, d2: nat, d3: nat, d4: nat, ay: CodeUnit)
    returns (e1: nat, e2: nat, e3: nat, e4: nat)
    requires row < |a| && x + 4 <= |b| && ay == a[row]
    requires InRow(a, b, row, x, d0, d1, d2, d3) && IsCell(a, b, row, x + 4, d4) && IsCell(a, b, row + 1, x, dy)
    ensures InRow(a, b, row + 1, x, dy, e1, e2, e3) && IsCell(a, b, row + 1, x + 4, e4)
  {
    e1 := PickMin(dy, d0, d1, b[x], ay);
    NextCell(a, b, row, x, dy, d0, d1);
    e2 := PickMin(e1, d1, d2, b[x + 1], ay);
    NextCell(a, b, row, x + 1, e1, d1, d2);
    e3 := PickMin(e2, d2, d3, b[x + 2], ay);
    NextCell(a, b, row, x + 2, e2, d2, d3);
    e4 := PickMin(e3, d3, d4, b[x + 3], ay);
    NextCell(a, b, row, x + 3, e3, d3, d4);
  }

  /** Between two rows of the unrolled loop: the vector, and the five distances at hand. */
  ghost predicate AtRow(v: seq<int>, a: JsString, b: JsString, row: nat, x: nat, d0: nat, d1: nat, d2: nat, d3: nat, dd: nat)
    requires row <= |a| && x + 4 <= |b|
  {
    Columns(v, a, b, row, x + 4, x) && InRow(a, b, row, x, d0, d1, d2, d3) && IsCell(a, b, row, x + 4, dd)
  }

  /** One turn of the inner loop. */
  method RowStep(vector: array<int>, a: JsString, b: JsString, row: nat, x: nat, d0: nat, d1: nat, d2: nat, d3: nat, dd: nat)
    returns (e0: nat, e1: nat, e2: nat, e3: nat, e4: nat)
    requires row < |a| && x + 4 <= |b| && AtRow(vector[..], a, b, row, x, d0, d1, d2, d3, dd)
    modifies vector
    ensures AtRow(vector[..], a, b, row + 1, x, e0, e1, e2, e3, e4)
  {
    RowAt(vector[..], a, b, row, x + 4, x);
    e0 := vector[2 * row];
    e1, e2, e3, e4 := NextRow(a, b, row, x, e0, d0, d1, d2, d3, dd, vector[2 * row + 1]);
    Store(vector, a, b, row, x + 4, x, e4);
  }

  /** The body of the unrolled loop: columns x + 1 to x + 4 in one pass over the vector. */
  method FourColumns(vector: array<int>, a: JsString, b: JsString, x: nat) returns (dd: nat)
    requires x + 4 <= |b| && |a| > 0
    requires Columns(vector[..], a, b, 0, x, x)
    modifies vector
    ensures Columns(vector[..], a, b, 0, x + 4, x + 4)
    ensures IsCell(a, b, |a|, x + 4, dd)
  {
    var d0: nat, d1: nat, d2: nat, d3: nat := x, x + 1, x + 2, x + 3;
    dd := x + 4;
    var row: nat := 0;
    FirstRow(a, b, x);
    ColumnsStart(vector[..], a, b, x + 4, x);
    while 2 * row < vector.Length - 1
      invariant row <= |a| && vector.Length == 2 * |a|
      invariant AtRow(vector[..], a, b, row, x, d0, d1, d2, d3, dd)
    {
      d0, d1, d2, d3, dd := RowStep(vector, a, b, row, x, d0, d1, d2, d3, dd);
      row := row + 1;
    }
    ColumnsDone(vector[..], a, b, x + 4, x, x + 4);
  }

  /** The body of the remainder loop: one column. */
  method OneColumn(vector: array<int>, a: JsString, b: JsString, x: nat) returns (dd: nat)
    requires x + 1 <= |b| && |a| > 0
    requires Columns(vector[..], a, b, 0, x, x)
    modifies vector
    ensures Columns(vector[..], a, b, 0, x + 1, x + 1)
    ensures IsCell(a, b, |a|, x + 1, dd)
  {
    var d0: nat := x;
    dd := x + 1;
    var row: nat := 0;
    ColumnsStart(vector[..], a, b, x + 1, x);
    while 2 * row < vector.Length - 1
      invariant row <= |a| && vector.Length == 2 * |a|
      invariant BetweenRows(vector[..], a, b, row, x, d0, dd)
    {
      d0, dd := OneStep(vector, a, b, row, x, d0, dd);
      row := row + 1;
    }
    ColumnsDone(vector[..], a, b, x + 1, x, x + 1);
  }

  /** Between two rows of the remainder loop. */
  ghost predicate BetweenRows(v: seq<int>, a: JsString, b: JsString, row: nat, x: nat, d0: nat, dd: nat)
    requires row <= |a| && x + 1 <= |b|
  {
    Columns(v, a, b, row, x + 1, x) && IsCell(a, b, row, x, d0) && IsCell(a, b, row, x + 1, dd)
  }

  method OneStep(vector: array<int>, a: JsString, b: JsString, row: nat, x: nat, d0: nat, dd: nat) returns (dy: nat, e: nat)
    requires row < |a| && x + 1 <= |b| && BetweenRows(vector[..], a, b, row, x, d0, dd)
    modifies vector
    ensures BetweenRows(vector[..], a, b, row + 1, x, dy, e)
  {
    RowAt(vector[..], a, b, row, x + 1, x);
    dy := vector[2 * row];
    NextCell(a, b, row, x, dy, d0, dd);
    e := PickMin(dy, d0, dd, b[x], vector[2 * row + 1]);
    Store(vector, a, b, row, x + 1, x, e);
  }

  /** The sweep over all columns, four at a time and then one at a time. */
  method Sweep(a: JsString, b: JsString) returns (dd: nat)
    requires |a| > 0 && |b| > 0
    ensures dd == Distance(a, b)
  {
    var vector := new int[2 * |a|];
    for y := 0 to |a|
      invariant forall k: nat :: k < y ==> UnitAt(vector[..], k) == a[k] && DistanceAt(vector[..], k) == k + 1
    {
      ghost var before := vector[..];
      vector[2 * y] := y + 1;
      vector[2 * y + 1] := a[y];
      assert vector[..] == before[2 * y := y + 1][2 * y + 1 := a[y]];
      assert forall k: nat :: k < y ==> UnitAt(before, k) == a[k] && DistanceAt(before, k) == k + 1;
    }
    assert Columns(vector[..], a, b, 0, 0, 0);
    dd := 0;
    var x: nat := 0;
    while x < |b| - 3
      invariant x <= |b| && Columns(vector[..], a, b, 0, x, x)
      invariant x > 0 ==> IsCell(a, b, |a|, x, dd)
    {
      dd := FourColumns(vector, a, b, x);
      x := x + 4;
    }
    while x < |b|
      invariant x <= |b| && Columns(vector[..], a, b, 0, x, x)
      invariant x > 0 ==> IsCell(a, b, |a|, x, dd)
    {
      dd := OneColumn(vector, a, b, x);
      x := x + 1;
    }
  }

  /** Stripped strings of at most two units need as many edits as the longer one has units. */
  lemma ShortcutIsExact(a: JsString, b: JsString)
    requires |a| <= |b|
    requires |a| > 0 ==> a[0] != b[0] && a[|a| - 1] != b[|b| - 1]
    requires |a| == 0 || |b| < 3
    ensures Distance(a, b) == |b|
  {
    if |a| == 1 && |b| == 2 {
      assert Cell(a, b, 1, 1) == 1;
    } else if |a| == 2 {
      assert Cell(a, b, 1, 1) == 1;
      CellAdjacent(a, b, 1, 2);
      CellBounds(a, b, 1, 2);
      CellBounds(a, b, 2, 1);
    }
  }

  /** The loop that drops the common end. */
  method TrimEnd(a: JsString, b: JsString) returns (la: nat, lb: nat)
    requires |a| <= |b|
    ensures la <= lb && la <= |a| && lb <= |b|
    ensures Distance(a[..la], b[..lb]) == Distance(a, b)
    ensures la > 0 ==> a[la - 1] != b[lb - 1]
  {
    la, lb := |a|, |b|;
    assert a[..la] == a && b[..lb] == b;
    while la > 0 && a[la - 1] == b[lb - 1]
      invariant la <= lb <= |b| && la <= |a|
      invariant Distance(a[..la], b[..lb]) == Distance(a, b)
      decreases la
    {
      DropLast(a[..la], b[..lb]);
      assert a[..la][..la - 1] == a[..la - 1] && b[..lb][..lb - 1] == b[..lb - 1];
      la, lb := la - 1, lb - 1;
    }
  }

  /** The loop that skips the common start. */
  method TrimStart(a: JsString, b: JsString) returns (offset: nat)
    requires |a| <= |b|
    ensures offset <= |a|
    ensures Distance(a[offset..], b[offset..]) == Distance(a, b)
    ensures offset < |a| ==> a[offset] != b[offset]
  {
    offset := 0;
    while offset < |a| && a[offset] == b[offset]
      invariant offset <= |a|
      invariant Distance(a[offset..], b[offset..]) == Distance(a, b)
    {
      DropFirst(a[offset..], b[offset..]);
      assert a[offset..][1..] == a[offset + 1..] && b[offset..][1..] == b[offset + 1..];
      offset := offset + 1;
    }
  }

  /** The whole of `findDistance`. */
  method FindDistance(s: JsString, t: JsString) returns (d: nat)
    ensures d == Distance(s, t)
  {
    ZeroIffEqual(s, t);
    if s == t {
      return 0;
    }
    var a, b := s, t;
    if |a| > |b| {
      a, b := b, a;
    }
    Symmetric(s, t);
    var la, lb := TrimEnd(a, b);
    a, b := a[..la], b[..lb];
    var offset := TrimStart(a, b);
    a, b := a[offset..], b[offset..];
    la, lb := la - offset, lb - offset;
    if la == 0 || lb < 3 {
      ShortcutIsExact(a, b);
      return lb;
    }
    d := Sweep(a, b);
  }
}
