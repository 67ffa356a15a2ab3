/**
 JavaScript strings as the program sees them: sequences of UTF-16 code units.
 `length`, `charCodeAt`, `===`, `split` and `join` all work on code units, so a
 character outside the basic plane counts as two elements.
 */
module JsStrings {

  type CodeUnit = c: int | 0 <= c < 0x1_0000

  type JsString = seq<CodeUnit>

  const COLON: CodeUnit := 58
  const SLASH: CodeUnit := 47

  /** `s.split(sep)` for a one-unit separator: never empty. */
  function Split(s: JsString, sep: CodeUnit): (parts: seq<JsString>)
    ensures |parts| > 0
  {
    if s == [] then [[]]
    else
      var rest := Split(s[1..], sep);
      if s[0] == sep then [[]] + rest
      else [[s[0]] + rest[0]] + rest[1..]
  }

  /** `parts.join(sep)` */
  function Join(parts: seq<JsString>, sep: CodeUnit): (s: JsString)
  {
    if parts == [] then []
    else if |parts| == 1 then parts[0]
    else parts[0] + [sep] + Join(parts[1..], sep)
  }

  ghost predicate Free(s: JsString, sep: CodeUnit) {
    sep !in s
  }

  ghost predicate AllFree(parts: seq<JsString>, sep: CodeUnit) {
    forall i :: 0 <= i < |parts| ==> Free(parts[i], sep)
  }

  /** Joining the pieces of a split gives the string back. */
  lemma {:induction false} JoinSplit(s: JsString, sep: CodeUnit)
    ensures Join(Split(s, sep), sep) == s
    ensures AllFree(Split(s, sep), sep)
  {
    if s != [] {
      JoinSplit(s[1..], sep);
      var rest := Split(s[1..], sep);
      if s[0] == sep {
        assert ([[]] + rest)[1..] == rest;
        assert s == [] + [sep] + s[1..];
      } else {
        JoinPrepend(s[0], rest, sep);
        assert s == [s[0]] + s[1..];
      }
    }
  }

  /** A unit put before the first piece ends up before the join. */
  lemma JoinPrepend(c: CodeUnit, parts: seq<JsString>, sep: CodeUnit)
    requires |parts| > 0
    ensures Join([[c] + parts[0]] + parts[1..], sep) == [c] + Join(parts, sep)
  {
    var all := [[c] + parts[0]] + parts[1..];
    assert all[0] == [c] + parts[0] && all[1..] == parts[1..];
    if |parts| > 1 {
      Assoc([c], parts[0], [sep]);
      Assoc([c], parts[0] + [sep], Join(parts[1..], sep));
    }
  }

  lemma Assoc(a: JsString, b: JsString, c: JsString)
    ensures (a + b) + c == a + (b + c)
  {}

  /** Splitting a separator-free head off: the one step every split lemma needs. */
  lemma {:induction false} SplitPrepend(head: JsString, rest: JsString, sep: CodeUnit)
    requires Free(head, sep)
    ensures Split(head + [sep] + rest, sep) == [head] + Split(rest, sep)
  {
    var s := head + [sep] + rest;
    if head == [] {
      assert s[1..] == rest;
    } else {
      assert s[1..] == head[1..] + [sep] + rest;
      SplitPrepend(head[1..], rest, sep);
      assert [s[0]] + head[1..] == head;
    }
  }

  lemma {:induction false} SplitFree(s: JsString, sep: CodeUnit)
    requires Free(s, sep)
    ensures Split(s, sep) == [s]
  {
    if s != [] {
      SplitFree(s[1..], sep);
      assert [s[0]] + s[1..] == s;
    }
  }

  /** Splitting a join gives the pieces back when no piece contains the separator. */
  lemma {:induction false} SplitJoin(parts: seq<JsString>, sep: CodeUnit)
    requires |parts| > 0 && AllFree(parts, sep)
    ensures Split(Join(parts, sep), sep) == parts
  {
    if |parts| == 1 {
      SplitFree(parts[0], sep);
    } else {
      SplitJoin(parts[1..], sep);
      SplitPrepend(parts[0], Join(parts[1..], sep), sep);
      assert [parts[0]] + parts[1..] == parts;
    }
  }

  /** The separator occurs in a join of separator-free pieces exactly when there are two or more. */
  lemma {:induction false} SplitSingleton(s: JsString, sep: CodeUnit)
    ensures |Split(s, sep)| == 1 <==> Free(s, sep)
  {
    if s != [] {
      SplitSingleton(s[1..], sep);
    }
  }

  lemma {:induction false} JoinConcat(init: seq<JsString>, last: JsString, sep: CodeUnit)
    requires |init| > 0
    ensures Join(init + [last], sep) == Join(init, sep) + [sep] + last
  {
    var all := init + [last];
    if |init| == 1 {
      assert all[1..] == [last];
    } else {
      assert all[1..] == init[1..] + [last];
      JoinConcat(init[1..], last, sep);
    }
  }

  /** A separator-free tail is the last piece of the split. */
  lemma SplitAppend(a: JsString, last: JsString, sep: CodeUnit)
    requires Free(last, sep)
    ensures Split(a + [sep] + last, sep) == Split(a, sep) + [last]
  {
    JoinSplit(a, sep);
    JoinConcat(Split(a, sep), last, sep);
    SplitJoin(Split(a, sep) + [last], sep);
  }
}
