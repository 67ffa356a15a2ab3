/**
 What a reader can get back from the text of a value: two values have the same
 text exactly when they differ only in what `JSON.stringify` leaves out. A saved
 build info is therefore determined by its file.
 */
module JsonReading {
  import opened JsStrings
  import opened Wrappers
  import opened BuildInfoJson

  /** What string literals owe to escaping: no escape starts with the quote, and none begins another. */
  ghost predicate PrefixCode(e: Escape) {
    && (forall c: CodeUnit :: e(c) != [] && e(c)[0] != QUOTE)
    && (forall c: CodeUnit, d: CodeUnit :: e(c) <= e(d) ==> c == d)
  }

  predicate Structural(c: CodeUnit) {
    c in {OPEN, CLOSE, OPEN_LIST, CLOSE_LIST, COMMA, QUOTE}
  }

  predicate Plain(text: JsString) {
    text != [] && forall i :: 0 <= i < |text| ==> !Structural(text[i])
  }

  /** Atoms are written without structural units. */
  predicate Sound(j: Json) {
    match j
    case Undefined => true
    case Atom(text) => Plain(text)
    case Text(s) => true
    case List(items) => forall i :: 0 <= i < |items| ==> Sound(items[i])
    case Object(fields) => SoundFields(fields)
  }

  predicate SoundFields(fields: seq<Field>) {
    forall i :: 0 <= i < |fields| ==> Sound(fields[i].value)
  }

  /** Nothing undefined anywhere inside. */
  predicate Full(j: Json) {
    match j
    case Undefined => false
    case Atom(text) => true
    case Text(s) => true
    case List(items) => forall i :: 0 <= i < |items| ==> Full(items[i])
    case Object(fields) => FullFields(fields)
  }

  predicate FullFields(fields: seq<Field>) {
    forall i :: 0 <= i < |fields| ==> Full(fields[i].value)
  }

  // ------------------------------------------------------------ values without gaps

  /** The parts of a joined text after the first one, with the closing unit and what follows. */
  function After(parts: seq<JsString>, close: CodeUnit, r: JsString): (text: JsString)
    ensures text != [] && text[0] == if parts == [] then close else COMMA
  {
    if parts == [] then [close] + r else [COMMA] + (parts[0] + After(parts[1..], close, r))
  }

  lemma {:induction false} JoinAfter(parts: seq<JsString>, close: CodeUnit, r: JsString)
    requires parts != []
    ensures Join(parts, COMMA) + [close] + r == parts[0] + After(parts[1..], close, r)
  {
    if |parts| == 1 {
      Assoc(parts[0], [close], r);
    } else {
      JoinAfter(parts[1..], close, r);
      var rest := Join(parts[1..], COMMA);
      assert parts[0] + [COMMA] + rest + [close] + r == parts[0] + ([COMMA] + (rest + [close] + r));
    }
  }

  /** What may follow a value. */
  ghost predicate Ends(r: JsString) {
    r == [] || r[0] in {COMMA, CLOSE, CLOSE_LIST}
  }

  lemma Tails(c: CodeUnit, a: JsString, b: JsString)
    requires [c] + a == [c] + b
    ensures a == b
  {
    assert a == ([c] + a)[1..];
    assert b == ([c] + b)[1..];
  }

  /** Equal texts that begin with equally long parts have equal parts. */
  lemma Halves(a: JsString, r: JsString, b: JsString, q: JsString)
    requires a + r == b + q && |a| == |b|
    ensures a == b && r == q
  {
    assert a == (a + r)[..|a|];
    assert b == (b + q)[..|b|];
    assert r == (a + r)[|a|..];
    assert q == (b + q)[|b|..];
  }

  lemma PrefixesCompare(a: JsString, r: JsString, b: JsString, q: JsString)
    requires a + r == b + q && |a| <= |b|
    ensures a <= b
  {
    assert a == (a + r)[..|a|];
    assert b[..|a|] == (b + q)[..|a|];
  }

  lemma EscapeDetermines(e: Escape, c: CodeUnit, r: JsString, d: CodeUnit, q: JsString)
    requires PrefixCode(e) && e(c) + r == e(d) + q
    ensures c == d && r == q
  {
    if |e(c)| <= |e(d)| {
      PrefixesCompare(e(c), r, e(d), q);
    } else {
      PrefixesCompare(e(d), q, e(c), r);
    }
    Halves(e(c), r, e(d), q);
  }

  /** A string literal, and where it ends, can be read off a text that starts inside it. */
  lemma {:induction false} QuotedDetermines(e: Escape, s: JsString, r: JsString, t: JsString, q: JsString)
    requires PrefixCode(e)
    requires EscapeAll(e, s) + ([QUOTE] + r) == EscapeAll(e, t) + ([QUOTE] + q)
    ensures s == t && r == q
  {
    if s == [] || t == [] {
      StartsWithQuote(e, s, r);
      StartsWithQuote(e, t, q);
      Tails(QUOTE, r, q);
    } else {
      var more, other := EscapeAll(e, s[1..]), EscapeAll(e, t[1..]);
      Assoc(e(s[0]), more, [QUOTE] + r);
      Assoc(e(t[0]), other, [QUOTE] + q);
      EscapeDetermines(e, s[0], more + ([QUOTE] + r), t[0], other + ([QUOTE] + q));
      QuotedDetermines(e, s[1..], r, t[1..], q);
      assert s == [s[0]] + s[1..] && t == [t[0]] + t[1..];
    }
  }

  lemma StartsWithQuote(e: Escape, s: JsString, r: JsString)
    requires PrefixCode(e)
    ensures (EscapeAll(e, s) + ([QUOTE] + r))[0] == QUOTE <==> s == []
    ensures s == [] ==> EscapeAll(e, s) + ([QUOTE] + r) == [QUOTE] + r
  {}

  lemma NotShorter(a: JsString, r: JsString, b: JsString, q: JsString)
    requires Plain(b) && Ends(r) && a + r == b + q
    ensures |a| >= |b|
  {
    assert r != [] ==> (a + r)[|a|] == r[0] && (b + q)[|a|] == r[0];
  }

  /** An atom ends at the first structural unit. */
  lemma {:induction false} AtomDetermines(a: JsString, r: JsString, b: JsString, q: JsString)
    requires Plain(a) && Plain(b) && Ends(r) && Ends(q) && a + r == b + q
    ensures a == b && r == q
  {
    NotShorter(a, r, b, q);
    NotShorter(b, q, a, r);
    Halves(a, r, b, q);
  }

  /** The first unit tells the kinds of values apart. */
  ghost predicate OpensAs(j: Json, c: CodeUnit) {
    match j
    case Undefined => false
    case Atom(text) => !Structural(c)
    case Text(s) => c == QUOTE
    case List(items) => c == OPEN_LIST
    case Object(fields) => c == OPEN
  }

  lemma Opening(e: Escape, j: Json)
    requires Sound(j) && !j.Undefined?
    ensures Stringify(e, j) != [] && OpensAs(j, Stringify(e, j)[0])
  {}

  /** A value, and where it ends, can be read off a text that starts with it. */
  lemma {:induction false} TextDetermines(e: Escape, a: Json, r: JsString, b: Json, q: JsString)
    requires PrefixCode(e) && Sound(a) && Full(a) && Sound(b) && Full(b) && Ends(r) && Ends(q)
    requires Stringify(e, a) + r == Stringify(e, b) + q
    ensures a == b && r == q
    decreases a, 0
  {
    Opening(e, a);
    Opening(e, b);
    assert (Stringify(e, a) + r)[0] == Stringify(e, a)[0];
    assert (Stringify(e, b) + q)[0] == Stringify(e, b)[0];
    match a
    case Atom(text) =>
      AtomDetermines(text, r, b.text, q);
    case Text(s) =>
      Literal(e, s, r);
      Literal(e, b.s, q);
      Tails(QUOTE, EscapeAll(e, s) + ([QUOTE] + r), EscapeAll(e, b.s) + ([QUOTE] + q));
      QuotedDetermines(e, s, r, b.s, q);
    case List(items) =>
      ListDetermines(e, items, r, b.items, q);
    case Object(fields) =>
      ObjectDetermines(e, fields, r, b.fields, q);
  }

  lemma {:induction false} ListDetermines(e: Escape, a: seq<Json>, r: JsString, b: seq<Json>, q: JsString)
    requires PrefixCode(e) && Sound(List(a)) && Full(List(a)) && Sound(List(b)) && Full(List(b))
    requires Stringify(e, List(a)) + r == Stringify(e, List(b)) + q
    ensures a == b && r == q
    decreases a, 1
  {
    var ours, theirs := ItemTexts(e, a), ItemTexts(e, b);
    Bracketed(OPEN_LIST, ours, CLOSE_LIST, r, theirs, q);
    if a == [] || b == [] {
      FirstInside(e, a, r);
      FirstInside(e, b, q);
      Tails(CLOSE_LIST, r, q);
    } else {
      JoinedAfter(ours, CLOSE_LIST, r, theirs, q);
      ItemsDetermine(e, a, r, b, q);
    }
  }

  lemma {:induction false} ObjectDetermines(e: Escape, a: seq<Field>, r: JsString, b: seq<Field>, q: JsString)
    requires PrefixCode(e) && SoundFields(a) && FullFields(a) && SoundFields(b) && FullFields(b)
    requires Stringify(e, Object(a)) + r == Stringify(e, Object(b)) + q
    ensures a == b && r == q
    decreases a, 1
  {
    var ours, theirs := Members(e, a), Members(e, b);
    Bracketed(OPEN, ours, CLOSE, r, theirs, q);
    if a == [] || b == [] {
      FirstInObject(e, a, r);
      FirstInObject(e, b, q);
      Tails(CLOSE, r, q);
    } else {
      assert !a[0].value.Undefined? && !b[0].value.Undefined?;
      JoinedAfter(ours, CLOSE, r, theirs, q);
      FieldsDetermine(e, a, r, b, q);
    }
  }

  /** A text from the unit after an opening bracket on. */
  function Inside(parts: seq<JsString>, close: CodeUnit, r: JsString): JsString {
    Join(parts, COMMA) + [close] + r
  }

  lemma Literal(e: Escape, s: JsString, r: JsString)
    ensures Quoted(e, s) + r == [QUOTE] + (EscapeAll(e, s) + ([QUOTE] + r))
  {
    var inner := EscapeAll(e, s);
    assert [QUOTE] + inner + [QUOTE] + r == [QUOTE] + (inner + ([QUOTE] + r));
  }

  lemma Bracketed(open: CodeUnit, ours: seq<JsString>, close: CodeUnit, r: JsString, theirs: seq<JsString>, q: JsString)
    requires [open] + Join(ours, COMMA) + [close] + r == [open] + Join(theirs, COMMA) + [close] + q
    ensures Inside(ours, close, r) == Inside(theirs, close, q)
  {
    var a, b := Join(ours, COMMA), Join(theirs, COMMA);
    assert [open] + a + [close] + r == [open] + (a + [close] + r);
    assert [open] + b + [close] + q == [open] + (b + [close] + q);
    Tails(open, a + [close] + r, b + [close] + q);
  }

  lemma JoinedAfter(ours: seq<JsString>, close: CodeUnit, r: JsString, theirs: seq<JsString>, q: JsString)
    requires ours != [] && theirs != [] && Inside(ours, close, r) == Inside(theirs, close, q)
    ensures After(ours, close, r) == After(theirs, close, q)
  {
    JoinAfter(ours, close, r);
    JoinAfter(theirs, close, q);
  }

  lemma FirstInside(e: Escape, items: seq<Json>, r: JsString)
    requires forall i :: 0 <= i < |items| ==> Sound(items[i]) && Full(items[i])
    ensures items == [] ==> Inside(ItemTexts(e, items), CLOSE_LIST, r) == [CLOSE_LIST] + r
    ensures items != [] ==> Inside(ItemTexts(e, items), CLOSE_LIST, r)[0] != CLOSE_LIST
  {
    if items != [] {
      Opening(e, items[0]);
      JoinAfter(ItemTexts(e, items), CLOSE_LIST, r);
    }
  }

  lemma FirstInObject(e: Escape, fields: seq<Field>, r: JsString)
    requires FullFields(fields)
    ensures fields == [] ==> Inside(Members(e, fields), CLOSE, r) == [CLOSE] + r
    ensures fields != [] ==> Inside(Members(e, fields), CLOSE, r)[0] != CLOSE
  {
    if fields != [] {
      JoinAfter(Members(e, fields), CLOSE, r);
      assert Member(e, fields[0])[0] == QUOTE;
    }
  }

  lemma {:induction false} ItemsDetermine(e: Escape, a: seq<Json>, r: JsString, b: seq<Json>, q: JsString)
    requires PrefixCode(e)
    requires forall i :: 0 <= i < |a| ==> Sound(a[i]) && Full(a[i])
    requires forall i :: 0 <= i < |b| ==> Sound(b[i]) && Full(b[i])
    requires After(ItemTexts(e, a), CLOSE_LIST, r) == After(ItemTexts(e, b), CLOSE_LIST, q)
    ensures a == b && r == q
    decreases a, 0
  {
    if a == [] || b == [] {
      Tails(CLOSE_LIST, r, q);
    } else {
      var ours, theirs := After(ItemTexts(e, a[1..]), CLOSE_LIST, r), After(ItemTexts(e, b[1..]), CLOSE_LIST, q);
      Tails(COMMA, Stringify(e, a[0]) + ours, Stringify(e, b[0]) + theirs);
      TextDetermines(e, a[0], ours, b[0], theirs);
      ItemsDetermine(e, a[1..], r, b[1..], q);
      assert a == [a[0]] + a[1..] && b == [b[0]] + b[1..];
    }
  }

  lemma {:induction false} FieldsDetermine(e: Escape, a: seq<Field>, r: JsString, b: seq<Field>, q: JsString)
    requires PrefixCode(e) && SoundFields(a) && FullFields(a) && SoundFields(b) && FullFields(b)
    requires After(Members(e, a), CLOSE, r) == After(Members(e, b), CLOSE, q)
    ensures a == b && r == q
    decreases a, 0
  {
    if a == [] || b == [] {
      Tails(CLOSE, r, q);
    } else {
      var ours, theirs := After(Members(e, a[1..]), CLOSE, r), After(Members(e, b[1..]), CLOSE, q);
      Tails(COMMA, Member(e, a[0]) + ours, Member(e, b[0]) + theirs);
      MemberDetermines(e, a[0], ours, b[0], theirs);
      TextDetermines(e, a[0].value, ours, b[0].value, theirs);
      FieldsDetermine(e, a[1..], r, b[1..], q);
      assert a == [a[0]] + a[1..] && b == [b[0]] + b[1..];
    }
  }

  /** The name of a member can be read off, and the text of its value remains. */
  lemma MemberDetermines(e: Escape, a: Field, r: JsString, b: Field, q: JsString)
    requires PrefixCode(e) && Member(e, a) + r == Member(e, b) + q
    ensures a.name == b.name && Stringify(e, a.value) + r == Stringify(e, b.value) + q
  {
    var ours, theirs := Stringify(e, a.value) + r, Stringify(e, b.value) + q;
    assert Member(e, a) + r == Quoted(e, a.name) + ([COLON] + ours);
    assert Member(e, b) + q == Quoted(e, b.name) + ([COLON] + theirs);
    Literal(e, a.name, [COLON] + ours);
    Literal(e, b.name, [COLON] + theirs);
    Tails(QUOTE, EscapeAll(e, a.name) + ([QUOTE] + ([COLON] + ours)), EscapeAll(e, b.name) + ([QUOTE] + ([COLON] + theirs)));
    QuotedDetermines(e, a.name, [COLON] + ours, b.name, [COLON] + theirs);
    Tails(COLON, ours, theirs);
  }

  // ---------------------------------------------------------------- every value

  /** A value with what `JSON.stringify` leaves out left out. */
  function Clean(j: Json): Json
    decreases j, 0
  {
    match j
    case Undefined => Undefined
    case Atom(text) => j
    case Text(s) => j
    case List(items) => List(CleanItems(items))
    case Object(fields) => Object(CleanFields(fields))
  }

  function CleanItems(items: seq<Json>): seq<Json>
    decreases items, 0
  {
    if items == [] then []
    else [if items[0].Undefined? then Atom(NULL) else Clean(items[0])] + CleanItems(items[1..])
  }

  function CleanFields(fields: seq<Field>): seq<Field>
    decreases fields, 0
  {
    if fields == [] then []
    else
      var f := fields[0];
      (if f.value.Undefined? then [] else [Field(f.name, Clean(f.value))]) + CleanFields(fields[1..])
  }

  lemma {:induction false} CleanValue(e: Escape, j: Json)
    ensures Stringify(e, Clean(j)) == Stringify(e, j)
    ensures Clean(j).Undefined? <==> j.Undefined?
    ensures Sound(j) ==> Sound(Clean(j))
    ensures !j.Undefined? ==> Full(Clean(j))
    decreases j, 0
  {
    match j
    case List(items) => CleanedItems(e, items);
    case Object(fields) => CleanedFields(e, fields);
    case _ =>
  }

  lemma {:induction false} CleanedItems(e: Escape, items: seq<Json>)
    ensures ItemTexts(e, CleanItems(items)) == ItemTexts(e, items)
    ensures Sound(List(items)) ==> Sound(List(CleanItems(items)))
    ensures Full(List(CleanItems(items)))
    decreases items, 0
  {
    if items != [] {
      CleanValue(e, items[0]);
      CleanedItems(e, items[1..]);
      assert Sound(List(items)) ==> Sound(items[0]) && Sound(List(items[1..]));
    }
  }

  lemma MembersCons(e: Escape, f: Field, rest: seq<Field>)
    requires !f.value.Undefined?
    ensures Members(e, [f] + rest) == [Member(e, f)] + Members(e, rest)
  {}

  lemma {:induction false} CleanedFields(e: Escape, fields: seq<Field>)
    ensures Members(e, CleanFields(fields)) == Members(e, fields)
    ensures SoundFields(fields) ==> SoundFields(CleanFields(fields))
    ensures FullFields(CleanFields(fields))
    decreases fields, 0
  {
    if fields != [] {
      CleanValue(e, fields[0].value);
      CleanedFields(e, fields[1..]);
      assert SoundFields(fields) ==> SoundFields(fields[1..]);
      var f, rest := fields[0], CleanFields(fields[1..]);
      if f.value.Undefined? {
        assert CleanFields(fields) == rest && Members(e, fields) == Members(e, fields[1..]);
      } else {
        MembersCons(e, Field(f.name, Clean(f.value)), rest);
        assert Member(e, Field(f.name, Clean(f.value))) == Member(e, f);
      }
    }
  }

  /** Two values have the same text exactly when they differ only in what is left out. */
  lemma SameTextIff(e: Escape, a: Json, b: Json)
    requires PrefixCode(e) && Sound(a) && Sound(b)
    ensures Stringify(e, a) == Stringify(e, b) <==> Clean(a) == Clean(b)
  {
    CleanValue(e, a);
    CleanValue(e, b);
    if a.Undefined? || b.Undefined? {
      if !a.Undefined? { Opening(e, a); }
      if !b.Undefined? { Opening(e, b); }
    } else if Stringify(e, a) == Stringify(e, b) {
      TextDetermines(e, Clean(a), [], Clean(b), []);
    }
  }

  // --------------------------------------------------------------- build infos

  /** What a reader of an object finds under a name: the last field of that name. */
  function Lookup(fields: seq<Field>, name: JsString): Option<Json> {
    if fields == [] then None
    else
      var last := fields[|fields| - 1];
      if last.name == name then Some(last.value) else Lookup(fields[..|fields| - 1], name)
  }

  lemma LookupSnoc(fields: seq<Field>, f: Field, name: JsString)
    ensures Lookup(fields + [f], name) == if f.name == name then Some(f.value) else Lookup(fields, name)
  {
    assert (fields + [f])[..|fields|] == fields;
  }

  /** What is found is the last of its name. */
  lemma {:induction false} LookupAt(fields: seq<Field>, k: nat)
    requires k < |fields| && forall i :: k < i < |fields| ==> fields[i].name != fields[k].name
    ensures Lookup(fields, fields[k].name) == Some(fields[k].value)
  {
    if k < |fields| - 1 {
      LookupAt(fields[..|fields| - 1], k);
    }
  }

  /** Each part of a build info is found under its own name. */
  lemma BuildInfoFields(b: BuildInfo)
    ensures AsJson(b).Object?
    ensures var fields := AsJson(b).fields;
      && Lookup(fields, ID) == Some(Text(b.id))
      && Lookup(fields, FORMAT) == Some(Text(b.format))
      && Lookup(fields, SOLC_VERSION) == Some(Text(b.solcVersion))
      && Lookup(fields, SOLC_LONG_VERSION) == Some(Text(b.solcLongVersion))
      && Lookup(fields, INPUT) == Some(b.input)
      && Lookup(fields, OUTPUT) == Some(OutputJson(b.output))
  {
    var fields := AsJson(b).fields;
    LookupAt(fields, 0);
    LookupAt(fields, 1);
    LookupAt(fields, 2);
    LookupAt(fields, 3);
    LookupAt(fields, 4);
    LookupAt(fields, 5);
  }

  /** The same inside the output: sources and contracts under their names, everything else as it was. */
  lemma OutputFields(o: Output, name: JsString)
    ensures OutputJson(o).Object?
    ensures Lookup(OutputJson(o).fields, name) ==
      if name == SOURCES then Some(Object(o.sources))
      else if name == CONTRACTS then Some(Object(o.contracts))
      else Lookup(o.others, name)
  {
    var sources, contracts := Field(SOURCES, Object(o.sources)), Field(CONTRACTS, Object(o.contracts));
    assert OutputJson(o).fields == (o.others + [sources]) + [contracts];
    LookupSnoc(o.others + [sources], contracts, name);
    LookupSnoc(o.others, sources, name);
  }

  ghost predicate SoundInfo(b: BuildInfo) {
    Sound(b.input) && SoundFields(b.output.others) && SoundFields(b.output.sources) && SoundFields(b.output.contracts)
  }

  /** Equal up to what is left out. */
  ghost predicate Same(a: BuildInfo, b: BuildInfo) {
    && a.id == b.id && a.format == b.format
    && a.solcVersion == b.solcVersion && a.solcLongVersion == b.solcLongVersion
    && Clean(a.input) == Clean(b.input)
    && CleanFields(a.output.others) == CleanFields(b.output.others)
    && CleanFields(a.output.sources) == CleanFields(b.output.sources)
    && CleanFields(a.output.contracts) == CleanFields(b.output.contracts)
  }

  lemma {:induction false} CleanConcat(a: seq<Field>, b: seq<Field>)
    ensures CleanFields(a + b) == CleanFields(a) + CleanFields(b)
  {
    if a == [] {
      assert a + b == b;
    } else {
      assert (a + b)[1..] == a[1..] + b;
      CleanConcat(a[1..], b);
    }
  }

  lemma CleanOne(f: Field)
    ensures CleanFields([f]) == if f.value.Undefined? then [] else [Field(f.name, Clean(f.value))]
  {}

  lemma CleanSnoc(fields: seq<Field>, f: Field)
    requires !f.value.Undefined?
    ensures CleanFields(fields + [f]) == CleanFields(fields) + [Field(f.name, Clean(f.value))]
  {
    CleanConcat(fields, [f]);
    CleanOne(f);
  }

  lemma CleanOutput(o: Output)
    ensures Clean(OutputJson(o)) == Object(CleanFields(o.others)
      + [Field(SOURCES, Object(CleanFields(o.sources))), Field(CONTRACTS, Object(CleanFields(o.contracts)))])
  {
    var sources, contracts := Field(SOURCES, Object(o.sources)), Field(CONTRACTS, Object(o.contracts));
    assert OutputJson(o).fields == (o.others + [sources]) + [contracts];
    CleanSnoc(o.others, sources);
    CleanSnoc(o.others + [sources], contracts);
  }

  function Texts(b: BuildInfo): seq<Field> {
    [ Field(ID, Text(b.id)), Field(FORMAT, Text(b.format)), Field(SOLC_VERSION, Text(b.solcVersion)),
      Field(SOLC_LONG_VERSION, Text(b.solcLongVersion)) ]
  }

  lemma {:induction false} CleanTexts(b: BuildInfo, k: nat)
    requires k <= 4
    ensures CleanFields(Texts(b)[..k]) == Texts(b)[..k]
  {
    if k > 0 {
      CleanTexts(b, k - 1);
      assert Texts(b)[..k] == Texts(b)[..k - 1] + [Texts(b)[k - 1]];
      CleanSnoc(Texts(b)[..k - 1], Texts(b)[k - 1]);
    }
  }

  lemma CleanInfo(b: BuildInfo)
    ensures Clean(AsJson(b)) ==
      Object(Texts(b) + CleanFields([Field(INPUT, b.input)]) + [Field(OUTPUT, Clean(OutputJson(b.output)))])
  {
    var input, output := Field(INPUT, b.input), Field(OUTPUT, OutputJson(b.output));
    CleanSnoc(Head(b), output);
    assert Head(b) == Texts(b) + [input];
    CleanConcat(Texts(b), [input]);
    CleanTexts(b, 4);
    assert Texts(b)[..4] == Texts(b);
  }

  /** A sequence that ends in two known fields gives back what stands before them, and the two. */
  lemma SameEnds<T>(a: seq<T>, x: T, y: T, b: seq<T>, v: T, w: T)
    requires a + [x, y] == b + [v, w]
    ensures a == b && x == v && y == w
  {
    var all := a + [x, y];
    assert a == all[..|all| - 2] && b == (b + [v, w])[..|all| - 2];
    assert all[|all| - 2] == x && all[|all| - 1] == y;
    assert (b + [v, w])[|b|] == v && (b + [v, w])[|b| + 1] == w;
  }

  lemma SameOutputIff(a: Output, b: Output)
    ensures Clean(OutputJson(a)) == Clean(OutputJson(b)) <==>
      && CleanFields(a.others) == CleanFields(b.others)
      && CleanFields(a.sources) == CleanFields(b.sources)
      && CleanFields(a.contracts) == CleanFields(b.contracts)
  {
    CleanOutput(a);
    CleanOutput(b);
    if Clean(OutputJson(a)) == Clean(OutputJson(b)) {
      SameEnds(CleanFields(a.others), Field(SOURCES, Object(CleanFields(a.sources))),
        Field(CONTRACTS, Object(CleanFields(a.contracts))),
        CleanFields(b.others), Field(SOURCES, Object(CleanFields(b.sources))),
        Field(CONTRACTS, Object(CleanFields(b.contracts))));
    }
  }

  lemma SameInfoIff(a: BuildInfo, b: BuildInfo)
    ensures Clean(AsJson(a)) == Clean(AsJson(b)) <==> Same(a, b)
  {
    CleanInfo(a);
    CleanInfo(b);
    CleanOne(Field(INPUT, a.input));
    CleanOne(Field(INPUT, b.input));
    SameOutputIff(a.output, b.output);
    CleanKeepsUndefined(a.input);
    CleanKeepsUndefined(b.input);
    if Clean(AsJson(a)) == Clean(AsJson(b)) {
      SameParts(a, b, Clean(AsJson(a)).fields);
    }
  }

  lemma CleanKeepsUndefined(j: Json)
    ensures Clean(j).Undefined? <==> j.Undefined?
  {}

  lemma SameParts(a: BuildInfo, b: BuildInfo, fields: seq<Field>)
    requires fields == Texts(a) + CleanFields([Field(INPUT, a.input)]) + [Field(OUTPUT, Clean(OutputJson(a.output)))]
    requires fields == Texts(b) + CleanFields([Field(INPUT, b.input)]) + [Field(OUTPUT, Clean(OutputJson(b.output)))]
    ensures Texts(a) == Texts(b) && Clean(OutputJson(a.output)) == Clean(OutputJson(b.output))
    ensures CleanFields([Field(INPUT, a.input)]) == CleanFields([Field(INPUT, b.input)])
    ensures a.id == b.id && a.format == b.format
    ensures a.solcVersion == b.solcVersion && a.solcLongVersion == b.solcLongVersion
  {
    var last := |fields| - 1;
    assert fields[last] == Field(OUTPUT, Clean(OutputJson(a.output)));
    assert fields[last] == Field(OUTPUT, Clean(OutputJson(b.output)));
    assert fields[..4] == Texts(a) && fields[..4] == Texts(b);
    assert Texts(a)[0] == Texts(b)[0] && Texts(a)[1] == Texts(b)[1];
    assert Texts(a)[2] == Texts(b)[2] && Texts(a)[3] == Texts(b)[3];
    assert fields[4..last] == CleanFields([Field(INPUT, a.input)]);
    assert fields[4..last] == CleanFields([Field(INPUT, b.input)]);
  }

  lemma SoundJson(b: BuildInfo)
    requires SoundInfo(b)
    ensures Sound(AsJson(b))
  {
    assert forall f <- LastFields(b.output) :: Sound(f.value);
    assert Sound(OutputJson(b.output));
    assert SoundFields(Head(b));
  }

  /** The text of a saved build info determines the build info, and is determined by it. */
  lemma SavedTextSays(e: Escape, a: BuildInfo, b: BuildInfo)
    requires PrefixCode(e) && SoundInfo(a) && SoundInfo(b)
    ensures Stringify(e, AsJson(a)) == Stringify(e, AsJson(b)) <==> Same(a, b)
  {
    SoundJson(a);
    SoundJson(b);
    SameTextIff(e, AsJson(a), AsJson(b));
    SameInfoIff(a, b);
  }
}
