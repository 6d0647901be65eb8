/**
 * The character-level string functions of the .NET runtime that the library
 * relies on: `char.IsWhiteSpace` (behind `string.IsNullOrWhiteSpace`),
 * `ToLower(CultureInfo.InvariantCulture)` and the decimal rendering of
 * unsigned integers used by string interpolation.
 */
module Text {
  import opened Results

  /** `char.IsWhiteSpace`: the Unicode space, line and paragraph separators and U+0009..U+000D, U+0085. */
  predicate IsWhiteSpace(c: char)
  {
    ('\t' <= c <= '\r') || c == ' ' || c == '\U{85}' || c == '\U{A0}' || c == '\U{1680}'
    || ('\U{2000}' <= c <= '\U{200A}') || c == '\U{2028}' || c == '\U{2029}'
    || c == '\U{202F}' || c == '\U{205F}' || c == '\U{3000}'
  }

  /** Every character of s is white space (true of the empty string). */
  predicate AllWhiteSpace(s: string)
  {
    |s| == 0 || (IsWhiteSpace(s[0]) && AllWhiteSpace(s[1..]))
  }

  /** `string.IsNullOrWhiteSpace`: null, or made of white space only (the empty string included). */
  predicate IsNullOrWhiteSpace(s: Nullable<string>)
    ensures IsNullOrWhiteSpace(s) <==> s.Null? || forall i | 0 <= i < |s.target| :: IsWhiteSpace(s.target[i])
  {
    match s
    case Null => true
    case NonNull(v) => AllWhiteSpaceMeaning(v); AllWhiteSpace(v)
  }

  lemma {:induction false} AllWhiteSpaceMeaning(s: string)
    ensures AllWhiteSpace(s) <==> forall i | 0 <= i < |s| :: IsWhiteSpace(s[i])
  {
    if |s| > 0 {
      AllWhiteSpaceMeaning(s[1..]);
      assert forall i | 1 <= i < |s| :: s[i] == s[1..][i - 1];
    }
  }

  /** The invariant-culture lower case of a character (the letters A..Z). */
  function LowerChar(c: char): char
  {
    if 'A' <= c <= 'Z' then (c as int + 32) as char else c
  }

  predicate IsUpper(c: char)
  {
    'A' <= c <= 'Z'
  }

  /** `ToLower(CultureInfo.InvariantCulture)`, character by character. */
  function ToLower(s: string): (r: string)
    ensures |r| == |s|
    ensures forall i | 0 <= i < |s| :: r[i] == LowerChar(s[i])
  {
    if |s| == 0 then "" else [LowerChar(s[0])] + ToLower(s[1..])
  }

  /** Lower-casing leaves no upper-case letter and changes nothing twice. */
  lemma ToLowerIdempotent(s: string)
    ensures forall i | 0 <= i < |s| :: !IsUpper(ToLower(s)[i])
    ensures ToLower(ToLower(s)) == ToLower(s)
  {
  }

  /** Lower-casing keeps white space and non-white space apart. */
  lemma ToLowerKeepsBlankness(s: string)
    ensures AllWhiteSpace(ToLower(s)) == AllWhiteSpace(s)
  {
    AllWhiteSpaceMeaning(s);
    AllWhiteSpaceMeaning(ToLower(s));
  }

  // ---------------------------------------------------------------------
  // Decimal rendering of natural numbers
  // ---------------------------------------------------------------------

  predicate IsDigit(c: char)
  {
    '0' <= c <= '9'
  }

  function DigitChar(d: nat): char
    requires d < 10
  {
    ('0' as int + d) as char
  }

  function DigitValue(c: char): nat
    requires IsDigit(c)
  {
    c as int - '0' as int
  }

  /** The decimal digits of n, most significant first, without leading zeros. */
  function Decimal(n: nat): (s: string)
    ensures |s| >= 1
    ensures forall i | 0 <= i < |s| :: IsDigit(s[i])
  {
    if n < 10 then [DigitChar(n)] else Decimal(n / 10) + [DigitChar(n % 10)]
  }

  /** The number a string of decimal digits denotes. */
  function ParseDecimal(s: string): nat
    requires forall i | 0 <= i < |s| :: IsDigit(s[i])
  {
    if |s| == 0 then 0 else 10 * ParseDecimal(s[..|s| - 1]) + DigitValue(s[|s| - 1])
  }

  lemma {:induction false} DecimalRoundTrip(n: nat)
    ensures ParseDecimal(Decimal(n)) == n
  {
    if n >= 10 {
      DecimalRoundTrip(n / 10);
      var s := Decimal(n);
      assert s[..|s| - 1] == Decimal(n / 10);
    }
  }

  /** Distinct numbers render differently. */
  lemma DecimalInjective(a: nat, b: nat)
    ensures Decimal(a) == Decimal(b) <==> a == b
  {
    DecimalRoundTrip(a);
    DecimalRoundTrip(b);
  }
}
