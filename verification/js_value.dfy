/** The JavaScript values a form field can be assigned, and the one question
    the validators ask of them besides their type: does `Number(value)` give
    NaN?  `Number` on a string follows the StringNumericLiteral grammar of
    ECMA-262 (ToNumber applied to the String type): a string that does not
    match the grammar converts to NaN, and every string that matches converts
    to some number (possibly an infinity), so "not NaN" is exactly "matches
    the grammar" and no floating point is needed to decide it. */
module JsValues {

  /** A JavaScript number, reduced to what the validators can observe. */
  datatype NumberValue = NaN | Infinite(negative: bool) | Finite(value: real)

  /** The primitive JavaScript values a field can hold. */
  datatype JsValue =
    | Undefined
    | Null
    | Bool(b: bool)
    | Str(s: string)
    | Num(n: NumberValue)

  /** `typeof value === 'string'` */
  predicate IsString(v: JsValue) {
    v.Str?
  }

  /** `Number(value)` is not NaN.  `undefined` converts to NaN and `null` to
      +0; a string converts as its text without surrounding white space
      does. */
  predicate IsNumeric(v: JsValue)
    ensures v == Undefined ==> !IsNumeric(v)
    ensures v == Null ==> IsNumeric(v)
    ensures v.Str? ==> (IsNumeric(v) <==> IsNumericString(TrimEnd(TrimStart(v.s))))
  {
    match v
    case Undefined => false
    case Null => true             // Number(null) is +0
    case Bool(_) => true          // Number(false) is +0, Number(true) is 1
    case Str(s) => TrimTwice(s); IsNumericString(s)
    case Num(n) => !n.NaN?
  }

  // ---------------------------------------------------------------------
  // The StringNumericLiteral grammar
  // ---------------------------------------------------------------------

  /** WhiteSpace and LineTerminator code points (StrWhiteSpaceChar). */
  predicate IsWhiteSpace(c: char) {
    || c == '\t' || c == '\n' || c == '\U{000B}' || c == '\U{000C}' || c == '\r'
    || c == ' ' || c == '\U{00A0}' || c == '\U{1680}'
    || ('\U{2000}' <= c <= '\U{200A}')
    || c == '\U{2028}' || c == '\U{2029}' || c == '\U{202F}' || c == '\U{205F}'
    || c == '\U{3000}' || c == '\U{FEFF}'
  }

  predicate IsDecimalDigit(c: char) {
    '0' <= c <= '9'
  }

  predicate IsHexDigit(c: char) {
    IsDecimalDigit(c) || 'a' <= c <= 'f' || 'A' <= c <= 'F'
  }

  predicate IsOctalDigit(c: char) {
    '0' <= c <= '7'
  }

  predicate IsBinaryDigit(c: char) {
    c == '0' || c == '1'
  }

  /** Drops leading white space. */
  function TrimStart(s: string): (t: string)
    ensures |t| <= |s| && t == s[|s| - |t|..]
    ensures |t| > 0 ==> !IsWhiteSpace(t[0])
    ensures forall i :: 0 <= i < |s| - |t| ==> IsWhiteSpace(s[i])
  {
    if |s| > 0 && IsWhiteSpace(s[0]) then TrimStart(s[1..]) else s
  }

  /** Drops trailing white space. */
  function TrimEnd(s: string): (t: string)
    ensures |t| <= |s| && t == s[..|t|]
    ensures |t| > 0 ==> !IsWhiteSpace(t[|t| - 1])
    ensures forall i :: |t| <= i < |s| ==> IsWhiteSpace(s[i])
  {
    if |s| > 0 && IsWhiteSpace(s[|s| - 1]) then TrimEnd(s[..|s| - 1]) else s
  }

  /** The index just past the longest run of decimal digits starting at `i`. */
  function SkipDigits(s: string, i: nat): (j: nat)
    requires i <= |s|
    ensures i <= j <= |s|
    ensures forall k :: i <= k < j ==> IsDecimalDigit(s[k])
    ensures j < |s| ==> !IsDecimalDigit(s[j])
    decreases |s| - i
  {
    if i < |s| && IsDecimalDigit(s[i]) then SkipDigits(s, i + 1) else i
  }

  /** `s[i..]` is a SignedInteger: an optional sign and at least one digit. */
  predicate SignedIntegerFrom(s: string, i: nat)
    requires i <= |s|
  {
    var m := if i < |s| && (s[i] == '+' || s[i] == '-') then i + 1 else i;
    m < |s| && SkipDigits(s, m) == |s|
  }

  /** `s[i..]` is an optional ExponentPart and nothing else. */
  predicate ExponentOptFrom(s: string, i: nat)
    requires i <= |s|
  {
    i == |s| || ((s[i] == 'e' || s[i] == 'E') && SignedIntegerFrom(s, i + 1))
  }

  /** `s[i..]` is a StrUnsignedDecimalLiteral: `Infinity`, or digits with an
      optional fraction and exponent, where at least one digit appears before
      or after the point. */
  predicate UnsignedDecimalFrom(s: string, i: nat)
    requires i <= |s|
  {
    || s[i..] == "Infinity"
    || var j := SkipDigits(s, i);
       if j < |s| && s[j] == '.' then
         var k := SkipDigits(s, j + 1);
         (j > i || k > j + 1) && ExponentOptFrom(s, k)
       else
         j > i && ExponentOptFrom(s, j)
  }

  /** StrDecimalLiteral: an optional sign and an unsigned decimal literal. */
  predicate IsDecimalLiteral(t: string) {
    if |t| > 0 && (t[0] == '+' || t[0] == '-') then UnsignedDecimalFrom(t, 1)
    else UnsignedDecimalFrom(t, 0)
  }

  /** NonDecimalIntegerLiteral: `0x`, `0o` or `0b` and at least one digit of
      that base (no sign, no separators). */
  predicate IsNonDecimalLiteral(t: string) {
    && |t| > 2 && t[0] == '0'
    && ((t[1] == 'x' || t[1] == 'X') ==> forall i :: 2 <= i < |t| ==> IsHexDigit(t[i]))
    && ((t[1] == 'o' || t[1] == 'O') ==> forall i :: 2 <= i < |t| ==> IsOctalDigit(t[i]))
    && ((t[1] == 'b' || t[1] == 'B') ==> forall i :: 2 <= i < |t| ==> IsBinaryDigit(t[i]))
    && (t[1] in "xXoObB")
  }

  /** StringNumericLiteral: white space only, or a numeric literal surrounded
      by optional white space. */
  predicate IsNumericString(s: string) {
    var t := TrimEnd(TrimStart(s));
    t == [] || IsDecimalLiteral(t) || IsNonDecimalLiteral(t)
  }

  /** Trimming a trimmed string changes nothing. */
  lemma TrimTwice(s: string)
    ensures var t := TrimEnd(TrimStart(s)); TrimEnd(TrimStart(t)) == t
  {
    var u := TrimStart(s);
    var t := TrimEnd(u);
    if |t| > 0 {
      assert t[0] == u[0];
      assert TrimStart(t) == t;
    }
  }

  // ---------------------------------------------------------------------
  // Facts about the conversion
  // ---------------------------------------------------------------------

  predicate AllDigits(s: string) {
    forall i :: 0 <= i < |s| ==> IsDecimalDigit(s[i])
  }

  /** A run of decimal digits is read to its end. */
  lemma {:induction false} SkipAllDigits(s: string, i: nat)
    requires i <= |s|
    requires forall k :: i <= k < |s| ==> IsDecimalDigit(s[k])
    ensures SkipDigits(s, i) == |s|
    decreases |s| - i
  {
    if i < |s| {
      SkipAllDigits(s, i + 1);
    }
  }

  /** Every non-empty string of decimal digits converts to a number. */
  lemma DigitsAreNumeric(s: string)
    requires |s| > 0 && AllDigits(s)
    ensures IsNumeric(Str(s))
  {
    assert !IsWhiteSpace(s[0]) && !IsWhiteSpace(s[|s| - 1]);
    TrimNothing(s);
    SkipAllDigits(s, 0);
    assert ExponentOptFrom(s, |s|);
    assert UnsignedDecimalFrom(s, 0);
    assert s[0] != '+' && s[0] != '-';
    assert IsDecimalLiteral(s);
  }

  /** A string that neither starts nor ends with white space is its own trim. */
  lemma TrimNothing(s: string)
    requires |s| > 0 && !IsWhiteSpace(s[0]) && !IsWhiteSpace(s[|s| - 1])
    ensures TrimEnd(TrimStart(s)) == s
  {
    assert TrimStart(s) == s;
  }

  /** A string made only of white space converts to 0, not NaN. */
  lemma BlankIsNumeric(s: string)
    requires forall i :: 0 <= i < |s| ==> IsWhiteSpace(s[i])
    ensures IsNumeric(Str(s))
  {
    assert TrimStart(s) == [];
  }

  /** Trimming leaves a string that starts with a non-blank character
      starting with that character. */
  lemma TrimKeepsFirst(s: string)
    requires |s| > 0 && !IsWhiteSpace(s[0])
    ensures var t := TrimEnd(TrimStart(s)); |t| > 0 && t[0] == s[0]
  {
    assert TrimStart(s) == s;
    var t := TrimEnd(s);
    assert |t| > 0;
  }

  /** No literal of the grammar starts with a lower-case letter. */
  lemma LetterIsNoLiteral(t: string)
    requires |t| > 0 && 'a' <= t[0] <= 'z'
    ensures !IsDecimalLiteral(t) && !IsNonDecimalLiteral(t)
  {
    assert t[0..] != "Infinity" by {
      assert t[0..][0] == t[0];
      assert "Infinity"[0] == 'I';
    }
    assert SkipDigits(t, 0) == 0;
  }

  /** A string that starts with a lower-case letter converts to NaN. */
  lemma LetterIsNotNumeric(s: string)
    requires |s| > 0 && 'a' <= s[0] <= 'z'
    ensures !IsNumeric(Str(s))
  {
    TrimKeepsFirst(s);
    LetterIsNoLiteral(TrimEnd(TrimStart(s)));
  }
}
