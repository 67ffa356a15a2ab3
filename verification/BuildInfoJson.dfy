/**
 `saveBuildInfo` writes a build info piece by piece instead of serialising it at
 once. The pieces must add up to the one-shot serialisation.
 */
module BuildInfoJson {
  import opened JsStrings

  /** A value as `JSON.stringify` sees it. Numbers, booleans and null are atoms, given by their text. */
  datatype Json = Undefined | Atom(text: JsString) | Text(s: JsString) | List(items: seq<Json>) | Object(fields: seq<Field>)

  datatype Field = Field(name: JsString, value: Json)

  const OPEN: CodeUnit := 123
  const CLOSE: CodeUnit := 125
  const OPEN_LIST: CodeUnit := 91
  const CLOSE_LIST: CodeUnit := 93
  const COMMA: CodeUnit := 44
  const QUOTE: CodeUnit := 34

  /** How a unit is written inside a string literal. */
  type Escape = CodeUnit -> JsString

  ghost predicate LettersAreLiteral(e: Escape) {
    forall c: CodeUnit :: 97 <= c <= 122 ==> e(c) == [c]
  }

  function EscapeAll(e: Escape, s: JsString): JsString {
    if s == [] then [] else e(s[0]) + EscapeAll(e, s[1..])
  }

  function Quoted(e: Escape, s: JsString): JsString {
    [QUOTE] + EscapeAll(e, s) + [QUOTE]
  }

  const NULL: JsString := [110, 117, 108, 108]

  /** `JSON.stringify`: undefined fields are left out, and an undefined item becomes null. */
  function Stringify(e: Escape, j: Json): JsString
    decreases j, 0
  {
    match j
    case Undefined => []
    case Atom(text) => text
    case Text(s) => Quoted(e, s)
    case List(items) => [OPEN_LIST] + Join(ItemTexts(e, items), COMMA) + [CLOSE_LIST]
    case Object(fields) => [OPEN] + Join(Members(e, fields), COMMA) + [CLOSE]
  }

  function ItemTexts(e: Escape, items: seq<Json>): seq<JsString>
    decreases items, 0
  {
    if items == [] then []
    else [if items[0].Undefined? then NULL else Stringify(e, items[0])] + ItemTexts(e, items[1..])
  }

  function Member(e: Escape, f: Field): JsString
    decreases f, 1
  {
    Quoted(e, f.name) + [COLON] + Stringify(e, f.value)
  }

  function Members(e: Escape, fields: seq<Field>): seq<JsString>
    decreases fields, 0
  {
    if fields == [] then []
    else (if fields[0].value.Undefined? then [] else [Member(e, fields[0])]) + Members(e, fields[1..])
  }

  // -------------------------------------------------------------------- build infos

  const ID: JsString := [105, 100]
  const FORMAT: JsString := [95, 102, 111, 114, 109, 97, 116]
  const SOLC_VERSION: JsString := [115, 111, 108, 99, 86, 101, 114, 115, 105, 111, 110]
  const SOLC_LONG_VERSION: JsString := [115, 111, 108, 99, 76, 111, 110, 103, 86, 101, 114, 115, 105, 111, 110]
  const INPUT: JsString := [105, 110, 112, 117, 116]
  const OUTPUT: JsString := [111, 117, 116, 112, 117, 116]
  const SOURCES: JsString := [115, 111, 117, 114, 99, 101, 115]
  const CONTRACTS: JsString := [99, 111, 110, 116, 114, 97, 99, 116, 115]

  /** The compiler output: `sources` and `contracts` may be missing, the others are in order. */
  datatype Output = Output(others: seq<Field>, sources: seq<Field>, contracts: seq<Field>)

  datatype BuildInfo = BuildInfo(
    id: JsString, format: JsString, solcVersion: JsString, solcLongVersion: JsString, input: Json, output: Output)

  function Head(b: BuildInfo): seq<Field> {
    [ Field(ID, Text(b.id)), Field(FORMAT, Text(b.format)), Field(SOLC_VERSION, Text(b.solcVersion)),
      Field(SOLC_LONG_VERSION, Text(b.solcLongVersion)), Field(INPUT, b.input) ]
  }

  /** The build info as one value, with `output` last and `sources` and `contracts` last inside it. */
  function AsJson(b: BuildInfo): Json {
    Object(Head(b) + [Field(OUTPUT, OutputJson(b.output))])
  }

  function OutputJson(o: Output): Json {
    Object(o.others + LastFields(o))
  }

  function LastFields(o: Output): seq<Field> {
    [Field(SOURCES, Object(o.sources)), Field(CONTRACTS, Object(o.contracts))]
  }

  // --------------------------------------------------------------------- lemmas

  lemma {:induction false} EscapeLetters(e: Escape, s: JsString)
    requires LettersAreLiteral(e) && Letters(s)
    ensures EscapeAll(e, s) == s
  {
    if s != [] {
      EscapeLetters(e, s[1..]);
      assert [s[0]] + s[1..] == s;
    }
  }

  lemma {:induction false} MembersConcat(e: Escape, a: seq<Field>, b: seq<Field>)
    ensures Members(e, a + b) == Members(e, a) + Members(e, b)
  {
    if a == [] {
      assert a + b == b;
    } else {
      assert (a + b)[1..] == a[1..] + b;
      MembersConcat(e, a[1..], b);
    }
  }

  lemma {:induction false} JoinTwo(a: seq<JsString>, b: seq<JsString>)
    requires a != [] && b != []
    ensures Join(a + b, COMMA) == Join(a, COMMA) + [COMMA] + Join(b, COMMA)
  {
    if |a| == 1 {
      assert (a + b)[1..] == b;
    } else {
      assert (a + b)[1..] == a[1..] + b;
      JoinTwo(a[1..], b);
    }
  }

  /** The test the writer uses: an object has a member iff its text is longer than "{}". */
  lemma LongerThanBraces(e: Escape, fields: seq<Field>)
    ensures |Stringify(e, Object(fields))| > 2 <==> Members(e, fields) != []
  {}

  // ------------------------------------------------------------- texts of the parts

  /** `"name":` for a name that needs no escaping. */
  function KeyText(name: JsString): JsString {
    [QUOTE] + name + [QUOTE] + [COLON]
  }

  lemma MemberText(e: Escape, f: Field)
    requires LettersAreLiteral(e) && Letters(f.name)
    ensures Member(e, f) == KeyText(f.name) + Stringify(e, f.value)
  {
    EscapeLetters(e, f.name);
  }

  lemma {:induction false} MembersOfOne(e: Escape, f: Field)
    ensures Members(e, [f]) == if f.value.Undefined? then [] else [Member(e, f)]
  {}

  lemma MembersSnoc(e: Escape, fields: seq<Field>, f: Field)
    requires !f.value.Undefined?
    ensures Members(e, fields + [f]) == Members(e, fields) + [Member(e, f)]
  {
    MembersConcat(e, fields, [f]);
    MembersOfOne(e, f);
  }

  /** An object up to its closing brace. */
  function Opened(e: Escape, fields: seq<Field>): JsString {
    [OPEN] + Join(Members(e, fields), COMMA)
  }

  lemma OpenedIsAllButBrace(e: Escape, fields: seq<Field>)
    ensures var text := Stringify(e, Object(fields)); text[..|text| - 1] == Opened(e, fields)
  {}

  /** A comma if something precedes. */
  function Separator(e: Escape, fields: seq<Field>): JsString {
    if Members(e, fields) == [] then [] else [COMMA]
  }

  /** Adding members to an object: the opened text, a comma if needed, and the joined new members. */
  lemma OpenedConcat(e: Escape, fields: seq<Field>, more: seq<Field>)
    requires Members(e, more) != []
    ensures Opened(e, fields + more) == Opened(e, fields) + Separator(e, fields) + Join(Members(e, more), COMMA)
  {
    MembersConcat(e, fields, more);
    OpenedText(Members(e, fields), Members(e, more));
  }

  lemma OpenedText(a: seq<JsString>, b: seq<JsString>)
    requires b != []
    ensures [OPEN] + Join(a + b, COMMA)
         == [OPEN] + Join(a, COMMA) + (if a == [] then [] else [COMMA]) + Join(b, COMMA)
  {
    if a == [] {
      assert a + b == b;
      assert Join(a, COMMA) == [];
    } else {
      JoinTwo(a, b);
      Regroup([OPEN], Join(a, COMMA), [COMMA], Join(b, COMMA));
    }
  }

  lemma Regroup(a: JsString, b: JsString, c: JsString, d: JsString)
    ensures a + (b + c + d) == (a + b) + c + d
  {}

  /** `"sources":{...},"contracts":{...}` */
  function SourcesAndContracts(e: Escape, o: Output): JsString {
    KeyText(SOURCES) + Stringify(e, Object(o.sources)) + [COMMA]
    + (KeyText(CONTRACTS) + Stringify(e, Object(o.contracts)))
  }

  lemma LastMembers(e: Escape, o: Output)
    requires LettersAreLiteral(e)
    ensures Members(e, LastFields(o)) != [] && Join(Members(e, LastFields(o)), COMMA) == SourcesAndContracts(e, o)
  {
    TwoMembers(e, Field(SOURCES, Object(o.sources)), Field(CONTRACTS, Object(o.contracts)));
  }

  ghost predicate Letters(s: JsString) {
    forall i :: 0 <= i < |s| ==> 97 <= s[i] <= 122
  }

  lemma TwoMembers(e: Escape, s: Field, c: Field)
    requires LettersAreLiteral(e) && Letters(s.name) && Letters(c.name)
    requires !s.value.Undefined? && !c.value.Undefined?
    ensures Members(e, [s, c]) != []
    ensures Join(Members(e, [s, c]), COMMA)
         == KeyText(s.name) + Stringify(e, s.value) + [COMMA] + (KeyText(c.name) + Stringify(e, c.value))
  {
    MembersOfOne(e, s);
    MembersSnoc(e, [s], c);
    assert [s] + [c] == [s, c];
    MemberText(e, s);
    MemberText(e, c);
    JoinTwo([Member(e, s)], [Member(e, c)]);
  }

  /** The whole output object. */
  lemma OutputText(e: Escape, o: Output)
    requires LettersAreLiteral(e)
    ensures Stringify(e, Object(o.others + LastFields(o)))
         == Opened(e, o.others) + Separator(e, o.others) + SourcesAndContracts(e, o) + [CLOSE]
  {
    LastMembers(e, o);
    OpenedConcat(e, o.others, LastFields(o));
  }

  lemma HeadHasMembers(e: Escape, b: BuildInfo)
    ensures Members(e, Head(b)) != []
  {}

  /** The whole build info. */
  lemma WholeText(e: Escape, b: BuildInfo)
    requires LettersAreLiteral(e)
    ensures Stringify(e, AsJson(b)) ==
      Opened(e, Head(b)) + [COMMA]
      + (KeyText(OUTPUT) + Stringify(e, Object(b.output.others + LastFields(b.output)))) + [CLOSE]
  {
    var output := Field(OUTPUT, Object(b.output.others + LastFields(b.output)));
    MembersOfOne(e, output);
    MemberText(e, output);
    HeadHasMembers(e, b);
    OpenedConcat(e, Head(b), [output]);
  }

  // ---------------------------------------------------------------- the writer

  ghost predicate Defined(fields: seq<Field>) {
    forall i :: 0 <= i < |fields| ==> !fields[i].value.Undefined?
  }

  /** The `isFirst` loop over the entries of `sources` or `contracts`. */
  method WriteEntries(e: Escape, fields: seq<Field>) returns (written: JsString)
    requires Defined(fields)
    ensures written == Join(Members(e, fields), COMMA)
  {
    written := [];
    var isFirst := true;
    for i := 0 to |fields|
      invariant isFirst == (i == 0)
      invariant written == Join(Members(e, fields[..i]), COMMA)
      invariant |Members(e, fields[..i])| == i
    {
      var entry := Member(e, fields[i]);
      assert fields[..i + 1] == fields[..i] + [fields[i]];
      MembersSnoc(e, fields[..i], fields[i]);
      if isFirst {
        isFirst := false;
        assert Members(e, fields[..i]) + [entry] == [entry];
      } else {
        JoinTwo(Members(e, fields[..i]), [entry]);
        written := written + [COMMA];
      }
      written := written + entry;
    }
    assert fields[..|fields|] == fields;
  }

  /** The part of the output that is written whole: everything but sources and contracts. */
  method WriteOtherOutput(e: Escape, o: Output) returns (written: JsString)
    ensures written == Opened(e, o.others) + Separator(e, o.others)
  {
    var others := Stringify(e, Object(o.others));
    OpenedIsAllButBrace(e, o.others);
    written := others[..|others| - 1];
    LongerThanBraces(e, o.others);
    if |others| > 2 {
      written := written + [COMMA];
    }
  }

  method WriteSourcesAndContracts(e: Escape, o: Output) returns (written: JsString)
    requires Defined(o.sources) && Defined(o.contracts)
    ensures written == SourcesAndContracts(e, o)
  {
    written := KeyText(SOURCES) + [OPEN];
    var entries := WriteEntries(e, o.sources);
    written := written + entries + [CLOSE];
    Regroup(KeyText(SOURCES), [OPEN], entries, [CLOSE]);
    ghost var first := written;
    written := written + ([COMMA] + KeyText(CONTRACTS) + [OPEN]);
    entries := WriteEntries(e, o.contracts);
    written := written + entries + [CLOSE];
    Regroup(KeyText(CONTRACTS), [OPEN], entries, [CLOSE]);
    Chain(first, [COMMA], KeyText(CONTRACTS), [OPEN], entries, [CLOSE]);
  }

  lemma Chain(a: JsString, b: JsString, c: JsString, d: JsString, f: JsString, g: JsString)
    ensures a + (b + c + d) + f + g == a + b + ((c + d) + f + g)
  {}

  /** `saveBuildInfo`: every `file.write` appends. */
  method SaveBuildInfo(e: Escape, b: BuildInfo) returns (written: JsString)
    requires LettersAreLiteral(e)
    requires Defined(b.output.sources) && Defined(b.output.contracts)
    ensures written == Stringify(e, AsJson(b))
  {
    var withoutOutput := Stringify(e, Object(Head(b) + [Field(OUTPUT, Undefined)]));
    WithoutOutput(e, b);
    written := withoutOutput[..|withoutOutput| - 1];
    ghost var head := written;
    written := written + ([COMMA] + KeyText(OUTPUT));
    var others := WriteOtherOutput(e, b.output);
    written := written + others;
    var rest := WriteSourcesAndContracts(e, b.output);
    written := written + rest;
    written := written + [CLOSE];
    written := written + [CLOSE];
    OutputText(e, b.output);
    WholeText(e, b);
    Nest(head, [COMMA], KeyText(OUTPUT), others, rest, [CLOSE]);
  }

  lemma WithoutOutput(e: Escape, b: BuildInfo)
    ensures
      var text := Stringify(e, Object(Head(b) + [Field(OUTPUT, Undefined)]));
      text[..|text| - 1] == Opened(e, Head(b))
  {
    MembersConcat(e, Head(b), [Field(OUTPUT, Undefined)]);
    MembersOfOne(e, Field(OUTPUT, Undefined));
    assert Members(e, Head(b)) + [] == Members(e, Head(b));
    OpenedIsAllButBrace(e, Head(b) + [Field(OUTPUT, Undefined)]);
  }

  lemma Nest(a: JsString, b: JsString, c: JsString, d: JsString, f: JsString, g: JsString)
    ensures a + (b + c) + d + f + g + g == a + b + (c + (d + f + g)) + g
  {}
}
