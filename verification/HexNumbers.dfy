/**
 Hexadecimal texts of numbers: the `hexEqual` matcher and the RPC quantities of the
 network helpers.
 */
module HexNumbers {
  import opened Wrappers
  import opened JsStrings

  const ZERO: CodeUnit := 48
  const X: CodeUnit := 120
  const MINUS: CodeUnit := 45
  /** "0x" */
  const PREFIX: JsString := [48, 120]

  predicate IsHexDigit(c: CodeUnit) {
    48 <= c <= 57 || 97 <= c <= 102 || 65 <= c <= 70
  }

  function DigitValue(c: CodeUnit): (v: nat)
    requires IsHexDigit(c)
    ensures v < 16
  {
    if c <= 57 then c - 48 else if c <= 70 then c - 55 else c - 87
  }

  /** The lower-case digit of a value below 16. */
  function Digit(v: nat): (c: CodeUnit)
    requires v < 16
    ensures IsHexDigit(c) && DigitValue(c) == v && Lower(c) == c
  {
    if v < 10 then 48 + v else 87 + v
  }

  function Lower(c: CodeUnit): CodeUnit {
    if 65 <= c <= 90 then c + 32 else c
  }

  function LowerAll(s: JsString): (r: JsString)
    ensures |r| == |s| && forall i :: 0 <= i < |s| ==> r[i] == Lower(s[i])
  {
    seq(|s|, i requires 0 <= i < |s| => Lower(s[i]))
  }

  predicate HexDigits(s: JsString) {
    forall i :: 0 <= i < |s| ==> IsHexDigit(s[i])
  }

  /** /^0x[0-9a-fA-F]*$/ */
  predicate IsHex(s: JsString) {
    PREFIX <= s && HexDigits(s[2..])
  }

  /** The number the digits denote in base 16. */
  function Value(digits: JsString): nat
    requires HexDigits(digits)
  {
    if digits == [] then 0 else 16 * Value(digits[..|digits| - 1]) + DigitValue(digits[|digits| - 1])
  }

  /** The digits without leading zeros. */
  function StripZeros(s: JsString): JsString {
    if s != [] && s[0] == ZERO then StripZeros(s[1..]) else s
  }

  // ---------------------------------------------------------- uniqueness of base 16

  ghost predicate Canonical(s: JsString) {
    HexDigits(s) && (forall i :: 0 <= i < |s| ==> Lower(s[i]) == s[i]) && (s != [] ==> s[0] != ZERO)
  }

  lemma {:induction false} LeadingZero(s: JsString)
    requires HexDigits(s) && s != [] && s[0] == ZERO
    ensures Value(s) == Value(s[1..])
  {
    if |s| == 1 {
      assert s[..0] == [] && s[1..] == [];
    } else {
      var init := s[..|s| - 1];
      LeadingZero(init);
      assert s[1..][..|s| - 2] == init[1..];
    }
  }

  lemma {:induction false} StripKeepsValue(s: JsString)
    requires HexDigits(s)
    ensures HexDigits(StripZeros(s)) && Value(StripZeros(s)) == Value(s)
    ensures StripZeros(s) != [] ==> StripZeros(s)[0] != ZERO
    ensures |StripZeros(s)| <= |s|
    ensures forall i :: 0 <= i < |StripZeros(s)| ==> StripZeros(s)[i] in s
  {
    if s != [] && s[0] == ZERO {
      StripKeepsValue(s[1..]);
      LeadingZero(s);
    }
  }

  lemma {:induction false} LowerKeepsValue(s: JsString)
    requires HexDigits(s)
    ensures HexDigits(LowerAll(s)) && Value(LowerAll(s)) == Value(s)
  {
    if s != [] {
      LowerKeepsValue(s[..|s| - 1]);
      assert LowerAll(s)[..|s| - 1] == LowerAll(s[..|s| - 1]);
    }
  }

  function Pow16(k: nat): nat {
    if k == 0 then 1 else 16 * Pow16(k - 1)
  }

  /** Without leading zeros, the number of digits gives the size of the number. */
  lemma {:induction false} ValueBounds(s: JsString)
    requires HexDigits(s)
    ensures Value(s) < Pow16(|s|)
    ensures s != [] && s[0] != ZERO ==> Pow16(|s| - 1) <= Value(s)
  {
    if s != [] {
      ValueBounds(s[..|s| - 1]);
    }
  }

  lemma {:induction false} Pow16Monotone(j: nat, k: nat)
    requires j <= k
    ensures Pow16(j) <= Pow16(k)
  {
    if j < k { Pow16Monotone(j, k - 1); }
  }

  lemma PositiveValue(s: JsString)
    requires HexDigits(s) && s != [] && s[0] != ZERO
    ensures Value(s) > 0
  {}

  lemma SameQuotientAndRemainder(p: nat, q: nat, d: nat, e: nat)
    requires d < 16 && e < 16 && 16 * p + d == 16 * q + e
    ensures p == q && d == e
  {}

  lemma DigitUnique(x: CodeUnit, y: CodeUnit)
    requires IsHexDigit(x) && IsHexDigit(y) && Lower(x) == x && Lower(y) == y && DigitValue(x) == DigitValue(y)
    ensures x == y
  {}

  /** Equal numbers have equal canonical digits. */
  lemma {:induction false} CanonicalUnique(a: JsString, b: JsString)
    requires Canonical(a) && Canonical(b) && Value(a) == Value(b)
    ensures a == b
  {
    if a == [] {
      if b != [] { PositiveValue(b); }
    } else if b == [] {
      PositiveValue(a);
    } else {
      var a', b' := a[..|a| - 1], b[..|b| - 1];
      var x, y := a[|a| - 1], b[|b| - 1];
      SameQuotientAndRemainder(Value(a'), Value(b'), DigitValue(x), DigitValue(y));
      DigitUnique(x, y);
      CanonicalUnique(a', b');
      assert a == a' + [x] && b == b' + [y];
    }
  }

  // ------------------------------------------------------------------------ hexEqual

  // `extractNumeric`: everything after the prefix and its zeros.
  function ExtractNumeric(s: JsString): JsString {
    if PREFIX <= s then StripZeros(s[2..]) else s
  }

  /** What chai's `assert` makes of a condition. */
  predicate Holds(condition: bool, negated: bool) {
    if negated then !condition else condition
  }

  /** Whether the assertion passes: on a text that is not hex it asserts its own negation flag. */
  predicate HexEqualPasses(subject: JsString, other: JsString, negated: bool) {
    if !IsHex(subject) || !IsHex(other) then Holds(negated, negated)
    else Holds(ExtractNumeric(LowerAll(subject)) == ExtractNumeric(LowerAll(other)), negated)
  }

  lemma NumericIsCanonical(s: JsString)
    requires IsHex(s)
    ensures Canonical(ExtractNumeric(LowerAll(s))) && Value(ExtractNumeric(LowerAll(s))) == Value(s[2..])
  {
    var lower := LowerAll(s);
    assert lower[0] == ZERO && lower[1] == X && PREFIX <= lower;
    assert lower[2..] == LowerAll(s[2..]);
    LowerKeepsValue(s[2..]);
    StripKeepsValue(lower[2..]);
  }

  /** It passes on two hex texts of the same number, negated on two of different numbers, and on nothing else. */
  lemma HexEqualComparesNumbers(subject: JsString, other: JsString, negated: bool)
    ensures HexEqualPasses(subject, other, negated) <==>
      IsHex(subject) && IsHex(other) && (Value(subject[2..]) == Value(other[2..]) <==> !negated)
  {
    if IsHex(subject) && IsHex(other) {
      NumericIsCanonical(subject);
      NumericIsCanonical(other);
      if Value(subject[2..]) == Value(other[2..]) {
        CanonicalUnique(ExtractNumeric(LowerAll(subject)), ExtractNumeric(LowerAll(other)));
      }
    }
  }

  // ------------------------------------------------------------------- RPC quantities

  /** The numbers and number-like objects a helper accepts. */
  datatype NumberLike =
    | Number(n: int)         // a number or bigint
    | Text(text: JsString)
    | HexObject(hex: JsString)  // an object with toHexString
    | RadixObject(n: int)    // an object with toString(16)

  function ToHex(n: nat): (r: JsString)
    ensures r != [] && HexDigits(r) && Value(r) == n
    ensures n > 0 ==> r[0] != ZERO
    ensures n == 0 ==> r == [ZERO]
  {
    if n < 16 then
      assert [Digit(n)][..0] == [];
      [Digit(n)]
    else
      var init := ToHex(n / 16);
      assert (init + [Digit(n % 16)])[..|init|] == init;
      init + [Digit(n % 16)]
  }

  /** `n.toString(16)` */
  function ToString16(n: int): JsString {
    if n < 0 then [MINUS] + ToHex(-n) else ToHex(n)
  }

  /** "0x0" is a prefix. */
  predicate StartsWithZero(s: JsString) {
    |s| >= 3 && s[0] == ZERO && s[1] == X && s[2] == ZERO
  }

  /** `hex.replace(/0x0+/, "0x")`: at the first place where "0x0" occurs. */
  function DropZeros(s: JsString): JsString {
    if StartsWithZero(s) then PREFIX + StripZeros(s[2..])
    else if s == [] then []
    else [s[0]] + DropZeros(s[1..])
  }

  /** `toRpcQuantity`; None stands for the error on texts without "0x". */
  function ToRpcQuantity(x: NumberLike): Option<JsString> {
    if x.Text? && !(PREFIX <= x.text) then None
    else
      var hex := match x
        case Number(n) => PREFIX + ToString16(n)
        case Text(text) => text
        case HexObject(text) => text
        case RadixObject(n) => ToString16(n);
      if hex == PREFIX + [ZERO] then Some(hex)
      else if PREFIX <= hex then Some(DropZeros(hex))
      else Some(PREFIX + hex)
  }

  /** `BigInt(s)` on a text that starts with "0x"; None stands for a syntax error. */
  function ParseHex(s: JsString): Option<nat> {
    if IsHex(s) && |s| > 2 then Some(Value(s[2..])) else None
  }

  /** `toBigInt` */
  function ToBigInt(x: NumberLike): Option<nat> {
    match ToRpcQuantity(x)
    case None => None
    case Some(q) => ParseHex(q)
  }

  /** The Quantity encoding of EIP-1474: no leading zero, except for zero itself. */
  ghost predicate IsQuantity(s: JsString) {
    IsHex(s) && |s| > 2 && (s[2] != ZERO || s == PREFIX + [ZERO])
  }

  ghost predicate NothingDropped(s: JsString) {
    DropZeros(s) == s
  }

  lemma NothingDroppedCons(c: CodeUnit, s: JsString)
    requires NothingDropped(s) && !StartsWithZero([c] + s)
    ensures NothingDropped([c] + s)
  {}

  lemma {:induction false} NothingDroppedWithoutX(s: JsString)
    requires X !in s
    ensures NothingDropped(s)
  {
    if s != [] {
      NothingDroppedWithoutX(s[1..]);
      assert [s[0]] + s[1..] == s;
      NothingDroppedCons(s[0], s[1..]);
    }
  }

  lemma NothingDroppedAfterPrefix(rest: JsString)
    requires X !in rest && (rest == [] || rest[0] != ZERO)
    ensures NothingDropped(PREFIX + rest)
  {
    NothingDroppedWithoutX(rest);
    NothingDroppedCons(X, rest);
    assert PREFIX + rest == [ZERO] + ([X] + rest);
    NothingDroppedCons(ZERO, [X] + rest);
  }

  lemma DropZerosIs(s: JsString)
    requires IsHex(s)
    ensures DropZeros(s) == PREFIX + StripZeros(s[2..])
  {
    var digits := s[2..];
    assert s == PREFIX + digits;
    if digits == [] || digits[0] != ZERO {
      assert X !in digits;
      NothingDroppedAfterPrefix(digits);
    } else {
      assert StartsWithZero(s);
    }
  }

  ghost predicate HasNonZeroDigit(s: JsString) {
    exists i :: 2 <= i < |s| && s[i] != ZERO
  }

  lemma {:induction false} StripNonZero(s: JsString)
    ensures StripZeros(s) != [] <==> exists i :: 0 <= i < |s| && s[i] != ZERO
  {
    if s != [] && s[0] == ZERO {
      StripNonZero(s[1..]);
      if i :| 0 <= i < |s[1..]| && s[1..][i] != ZERO {
        assert s[i + 1] != ZERO;
      }
      if i :| 0 <= i < |s| && s[i] != ZERO {
        assert s[1..][i - 1] != ZERO;
      }
    }
  }

  /** Texts: the result is a quantity of the same value exactly for "0x0" and texts with a non-zero digit. */
  lemma TextQuantity(s: JsString)
    requires IsHex(s)
    ensures
      var q := ToRpcQuantity(Text(s));
      && q.Some?
      && (IsQuantity(q.value) <==> s == PREFIX + [ZERO] || HasNonZeroDigit(s))
      && (IsQuantity(q.value) ==> ToBigInt(Text(s)) == Some(Value(s[2..])))
      && (!IsQuantity(q.value) ==> ToBigInt(Text(s)) == None)
  {
    var digits := s[2..];
    DropZerosIs(s);
    StripKeepsValue(digits);
    StripNonZero(digits);
    assert HasNonZeroDigit(s) <==> exists i :: 0 <= i < |digits| && digits[i] != ZERO by {
      if i :| 2 <= i < |s| && s[i] != ZERO { assert digits[i - 2] != ZERO; }
      if i :| 0 <= i < |digits| && digits[i] != ZERO { assert s[i + 2] != ZERO; }
    }
    var q := ToRpcQuantity(Text(s)).value;
    if s != PREFIX + [ZERO] {
      assert q == PREFIX + StripZeros(digits) && q[2..] == StripZeros(digits);
    }
  }

  lemma NonNegativeQuantity(n: nat)
    ensures ToRpcQuantity(Number(n)) == Some(PREFIX + ToHex(n))
    ensures IsQuantity(PREFIX + ToHex(n)) && ParseHex(PREFIX + ToHex(n)) == Some(n)
  {
    var hex := PREFIX + ToHex(n);
    assert hex[2..] == ToHex(n) && IsHex(hex);
    DropZerosIs(hex);
    if n > 0 {
      assert StripZeros(ToHex(n)) == ToHex(n);
    }
  }

  lemma NegativeIsNoQuantity(n: int)
    requires n < 0
    ensures ToRpcQuantity(Number(n)) == Some(PREFIX + ([MINUS] + ToHex(-n)))
    ensures !IsHex(PREFIX + ([MINUS] + ToHex(-n)))
  {
    var rest := [MINUS] + ToHex(-n);
    var hex := PREFIX + rest;
    assert X !in rest;
    NothingDroppedAfterPrefix(rest);
    assert hex[2] == MINUS && hex[2..] == rest && !IsHexDigit(rest[0]);
  }

  /** Numbers: a quantity of the same value exactly for the non-negative ones. */
  lemma NumberQuantity(n: int)
    ensures
      var q := ToRpcQuantity(Number(n));
      && q.Some?
      && (IsQuantity(q.value) <==> n >= 0)
      && ToBigInt(Number(n)) == if n >= 0 then Some(n) else None
  {
    if n >= 0 {
      NonNegativeQuantity(n);
    } else {
      NegativeIsNoQuantity(n);
    }
  }

  /** Objects with `toString(16)` give the same quantity as the number they stand for, if any. */
  lemma RadixObjectQuantity(n: int)
    ensures ToRpcQuantity(RadixObject(n)) == ToRpcQuantity(Number(n))
    ensures ToBigInt(RadixObject(n)) == ToBigInt(Number(n))
  {
    var hex := ToString16(n);
    if n >= 0 {
      NonNegativeQuantity(n);
      assert X !in hex;
    } else {
      NegativeIsNoQuantity(n);
      assert hex[0] == MINUS;
    }
    assert !(PREFIX <= hex);
  }

  /** A text without "0x" is an error, and only that. */
  lemma TextNeedsPrefix(s: JsString)
    ensures ToRpcQuantity(Text(s)).None? <==> !(PREFIX <= s)
  {}

  /**
   An object with `toHexString` behaves as the text it gives if that starts with "0x", and
   otherwise as the same text with "0x" before it; so hex digits alone keep their value.
   */
  lemma HexObjectQuantity(s: JsString)
    ensures PREFIX <= s ==> ToRpcQuantity(HexObject(s)) == ToRpcQuantity(Text(s)) && ToBigInt(HexObject(s)) == ToBigInt(Text(s))
    ensures HexDigits(s) && s != [] ==> ToBigInt(HexObject(s)) == Some(Value(s))
    ensures HexDigits(s) && s != [] && (s[0] != ZERO || s == [ZERO]) ==>
      ToRpcQuantity(HexObject(s)).Some? && IsQuantity(ToRpcQuantity(HexObject(s)).value)
  {
    if HexDigits(s) && s != [] {
      assert |s| >= 2 ==> s[1] != X;
      assert !(PREFIX <= s);
      var q := PREFIX + s;
      assert q[2..] == s && IsHex(q);
    }
  }

  /** No hex text of the same number is shorter than its quantity. */
  lemma QuantityIsShortest(q: JsString, s: JsString)
    requires IsQuantity(q) && IsHex(s) && |s| > 2 && Value(s[2..]) == Value(q[2..])
    ensures |q| <= |s|
  {
    var d, e := q[2..], StripZeros(s[2..]);
    StripKeepsValue(s[2..]);
    if q != PREFIX + [ZERO] {
      ValueBounds(d);
      ValueBounds(e);
      if |e| < |d| {
        Pow16Monotone(|e|, |d| - 1);
      }
    }
  }

  // -------------------------------------------------------------- padded quantities

  function Zeros(k: nat): JsString {
    seq(k, i => ZERO)
  }

  /** `s.padStart(length, "0")` */
  function PadStart(s: JsString, length: nat): JsString {
    if |s| < length then Zeros(length - |s|) + s else s
  }

  /** `toPaddedRpcQuantity` */
  function ToPaddedRpcQuantity(x: NumberLike, bytes: nat): Option<JsString> {
    match ToRpcQuantity(x)
    case None => None
    case Some(q) =>
      if |q| >= 2 && |q| < 2 + 2 * bytes then Some(PREFIX + PadStart(q[2..], 2 * bytes)) else Some(q)
  }

  lemma {:induction false} PaddingKeepsValue(k: nat, s: JsString)
    requires HexDigits(s)
    ensures HexDigits(Zeros(k) + s) && Value(Zeros(k) + s) == Value(s)
  {
    if k == 0 {
      assert Zeros(0) + s == s;
    } else {
      PaddingKeepsValue(k - 1, s);
      var padded := Zeros(k) + s;
      assert padded[1..] == Zeros(k - 1) + s;
      LeadingZero(padded);
    }
  }

  /**
   Whenever the quantity is a hex text, "0x" for an all-zero text included: padding keeps
   the value, and the result has the asked length exactly when the number fits and there
   is at least one byte to fill, or nothing to pad at all.
   */
  lemma PaddedQuantity(x: NumberLike, bytes: nat)
    requires ToRpcQuantity(x).Some? && IsHex(ToRpcQuantity(x).value)
    requires IsQuantity(ToRpcQuantity(x).value) || ToRpcQuantity(x).value == PREFIX
    ensures
      var q := ToRpcQuantity(x).value;
      var v := Value(q[2..]);
      var p := ToPaddedRpcQuantity(x, bytes);
      && p.Some? && IsHex(p.value) && Value(p.value[2..]) == v
      && (|p.value| == 2 + 2 * bytes <==> v < Pow16(2 * bytes) && (bytes > 0 || q == PREFIX))
  {
    var q := ToRpcQuantity(x).value;
    var p := ToPaddedRpcQuantity(x, bytes).value;
    PaddedText(q, bytes);
    FitsIff(q[2..], bytes);
    assert q == PREFIX <==> q[2..] == [];
    assert q == PREFIX + [ZERO] <==> q[2..] == [ZERO];
  }

  /** The padded text has the same value, and the asked length unless the digits are too many. */
  lemma PaddedText(q: JsString, bytes: nat)
    requires IsHex(q)
    ensures
      var p := if |q| < 2 + 2 * bytes then PREFIX + PadStart(q[2..], 2 * bytes) else q;
      && IsHex(p) && Value(p[2..]) == Value(q[2..])
      && (|p| == 2 + 2 * bytes <==> |q[2..]| <= 2 * bytes)
  {
    var digits := q[2..];
    if |q| < 2 + 2 * bytes {
      PaddingKeepsValue(2 * bytes - |digits|, digits);
      var p := PREFIX + (Zeros(2 * bytes - |digits|) + digits);
      assert p[2..] == Zeros(2 * bytes - |digits|) + digits;
    }
  }

  /** Digits without leading zeros fit into as many places exactly if their value does. */
  lemma FitsIff(digits: JsString, bytes: nat)
    requires HexDigits(digits) && (digits == [] || digits == [ZERO] || digits[0] != ZERO)
    ensures |digits| <= 2 * bytes <==> Value(digits) < Pow16(2 * bytes) && (bytes > 0 || digits == [])
  {
    ValueBounds(digits);
    if |digits| <= 2 * bytes {
      Pow16Monotone(|digits|, 2 * bytes);
    } else if digits != [ZERO] {
      Pow16Monotone(2 * bytes, |digits| - 1);
    }
  }

  /** Every hex text can be padded. */
  lemma HexTextsCanBePadded(s: JsString)
    requires IsHex(s)
    ensures
      var q := ToRpcQuantity(Text(s));
      && q.Some? && IsHex(q.value) && (IsQuantity(q.value) || q.value == PREFIX)
      && Value(q.value[2..]) == Value(s[2..])
  {
    DropZerosIs(s);
    StripKeepsValue(s[2..]);
    var q := ToRpcQuantity(Text(s)).value;
    if s != PREFIX + [ZERO] {
      assert q == PREFIX + StripZeros(s[2..]) && q[2..] == StripZeros(s[2..]);
    }
  }

  function Pow256(k: nat): nat {
    if k == 0 then 1 else 256 * Pow256(k - 1)
  }

  lemma {:induction false} TwoDigitsPerByte(bytes: nat)
    ensures Pow16(2 * bytes) == Pow256(bytes)
  {
    if bytes > 0 {
      TwoDigitsPerByte(bytes - 1);
      assert Pow16(2 * bytes) == 16 * Pow16(2 * bytes - 1);
      assert Pow16(2 * bytes - 1) == 16 * Pow16(2 * bytes - 2);
    }
  }
}
