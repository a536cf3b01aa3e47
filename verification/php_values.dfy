/**
 * The parts of PHP's value semantics that the middleware and the logout hook
 * rely on: `(bool)` of a string, numeric strings, the `(int)` cast and the
 * loose comparison `==` / `!=` between two strings (PHP 8 rules, 64-bit).
 */
module PhpValues {
  import opened Basics

  const IntMax: int := 0x7FFF_FFFF_FFFF_FFFF
  const IntMin: int := -0x8000_0000_0000_0000

  /** `(bool)$s`, `if ($s)` and `!empty($s)` for a string: only "" and "0" are false. */
  predicate Truthy(s: string)
    ensures Truthy(s) ==> |s| >= 1
    ensures |s| >= 2 ==> Truthy(s)
    ensures |s| == 1 ==> (Truthy(s) <==> s[0] != '0')
  {
    s != "" && s != "0"
  }

  /** The whitespace PHP skips in front of (and, since PHP 8, behind) a numeric string. */
  predicate IsWhitespace(c: char) {
    c == ' ' || c == '\t' || c == '\n' || c == '\r' || c == '\U{0B}' || c == '\U{0C}'
  }

  predicate IsDigit(c: char) {
    '0' <= c <= '9'
  }

  predicate AllDigits(s: string) {
    forall k :: 0 <= k < |s| ==> IsDigit(s[k])
  }

  /** First index at or after `i` that is not whitespace. */
  function SkipWhitespace(s: string, i: nat): (j: nat)
    requires i <= |s|
    ensures i <= j <= |s|
    ensures forall k :: i <= k < j ==> IsWhitespace(s[k])
    ensures j == |s| || !IsWhitespace(s[j])
    decreases |s| - i
  {
    if i < |s| && IsWhitespace(s[i]) then SkipWhitespace(s, i + 1) else i
  }

  /** First index at or after `i` that is not a decimal digit. */
  function SkipDigits(s: string, i: nat): (j: nat)
    requires i <= |s|
    ensures i <= j <= |s|
    ensures AllDigits(s[i..j])
    ensures j == |s| || !IsDigit(s[j])
    decreases |s| - i
  {
    if i < |s| && IsDigit(s[i]) then
      var j := SkipDigits(s, i + 1);
      assert s[i..j] == [s[i]] + s[i + 1..j];
      j
    else i
  }

  function DigitValue(c: char): nat
    requires IsDigit(c)
  {
    c as int - '0' as int
  }

  function DigitChar(d: nat): (c: char)
    requires d < 10
    ensures IsDigit(c) && DigitValue(c) == d
  {
    ('0' as int + d) as char
  }

  /** The number a string of decimal digits denotes (most significant digit first). */
  function DigitsValue(ds: string): nat
    requires AllDigits(ds)
  {
    if |ds| == 0 then 0 else DigitsValue(ds[..|ds| - 1]) * 10 + DigitValue(ds[|ds| - 1])
  }

  function Pow10(k: nat): (p: nat)
    ensures p >= 1
  {
    if k == 0 then 1 else 10 * Pow10(k - 1)
  }

  /** 10 raised to an integer power, as an exact real. */
  function Scale10(k: int): (r: real)
    ensures r > 0.0
  {
    if k >= 0 then Pow10(k) as real else 1.0 / (Pow10(-k) as real)
  }

  /**
   * A numeral recognised at the start of a string: the value is
   * `(-1 if negative) * digits * 10^scale`, and `end` is where it stops.
   */
  datatype Numeral = Numeral(negative: bool, digits: nat, scale: int, end: nat)

  datatype Exponent = Exponent(power: int, end: nat)

  /** An exponent part `e[+-]digits` starting at `i`, if there is one. */
  function ScanExponent(s: string, i: nat): (r: Option<Exponent>)
    requires i <= |s|
    ensures r.Some? ==> i < r.value.end <= |s|
  {
    if i < |s| && (s[i] == 'e' || s[i] == 'E') then
      var signed := i + 1 < |s| && (s[i + 1] == '+' || s[i + 1] == '-');
      var p := if signed then i + 2 else i + 1;
      var q := SkipDigits(s, p);
      if q == p then None
      else
        var magnitude := DigitsValue(s[p..q]);
        Some(Exponent(if signed && s[i + 1] == '-' then -(magnitude as int) else magnitude, q))
    else None
  }

  /**
   * The longest leading numeral of `s` in PHP's grammar:
   * whitespace, an optional sign, then `LNUM`, `DNUM` or `EXPONENT_DNUM`.
   */
  function ScanNumeral(s: string): (r: Option<Numeral>)
    ensures r.Some? ==> r.value.end <= |s|
  {
    var a := SkipWhitespace(s, 0);
    var b := if a < |s| && (s[a] == '+' || s[a] == '-') then a + 1 else a;
    var c := SkipDigits(s, b);
    var hasPoint := c < |s| && s[c] == '.';
    var d := if hasPoint then c + 1 else c;
    var e := if hasPoint then SkipDigits(s, d) else c;
    if b == c && d == e then None
    else
      var mantissa := DigitsValue(s[b..c]) * Pow10(e - d) + DigitsValue(s[d..e]);
      var fraction := e - d;
      match ScanExponent(s, e)
      case None => Some(Numeral(b > a && s[a] == '-', mantissa, -fraction, e))
      case Some(x) => Some(Numeral(b > a && s[a] == '-', mantissa, x.power - fraction, x.end))
  }

  function NumeralValue(n: Numeral): real {
    (if n.negative then -1.0 else 1.0) * (n.digits as real) * Scale10(n.scale)
  }

  /** A numeric string: a numeral followed by nothing but whitespace. */
  predicate IsNumeric(s: string) {
    var n := ScanNumeral(s);
    n.Some? && SkipWhitespace(s, n.value.end) == |s|
  }

  function TruncateTowardZero(x: real): int {
    if x >= 0.0 then x.Floor else -((-x).Floor)
  }

  function Clamp(x: int): int {
    if x > IntMax then IntMax else if x < IntMin then IntMin else x
  }

  /**
   * `(int)$s`: the leading numeral, truncated toward zero and saturated to the
   * 64-bit range; 0 when `s` does not start with a numeral.
   */
  function IntCast(s: string): (r: int)
    ensures IntMin <= r <= IntMax
    ensures ScanNumeral(s).None? ==> r == 0
  {
    match ScanNumeral(s)
    case None => 0
    case Some(n) => Clamp(TruncateTowardZero(NumeralValue(n)))
  }

  /** `$a == $b` for two strings: numerically when both are numeric strings, else byte for byte. */
  predicate LooseEquals(a: string, b: string)
    ensures a == b ==> LooseEquals(a, b)
    ensures LooseEquals(a, b) && a != b ==> IsNumeric(a) && IsNumeric(b)
    ensures !IsNumeric(a) ==> (LooseEquals(a, b) <==> a == b)
  {
    if IsNumeric(a) && IsNumeric(b) then
      NumeralValue(ScanNumeral(a).value) == NumeralValue(ScanNumeral(b).value)
    else a == b
  }

  /** The loose comparison does not depend on the order of its operands. */
  lemma LooseEqualsSymmetric(a: string, b: string)
    ensures LooseEquals(a, b) == LooseEquals(b, a)
  {
  }

  /** The canonical decimal rendering of a natural number. */
  function Decimal(n: nat): (s: string)
    ensures |s| >= 1 && AllDigits(s)
  {
    if n < 10 then [DigitChar(n)] else Decimal(n / 10) + [DigitChar(n % 10)]
  }

  lemma {:induction false} DecimalValue(n: nat)
    ensures DigitsValue(Decimal(n)) == n
  {
    if n >= 10 {
      var s := Decimal(n);
      assert s[..|s| - 1] == Decimal(n / 10);
      DecimalValue(n / 10);
    }
  }

  /** Reading a digit run followed by a character that cannot continue a numeral. */
  lemma ScanDigitRun(s: string, k: nat)
    requires 1 <= k <= |s| && AllDigits(s[..k])
    requires k == |s| || (!IsDigit(s[k]) && s[k] != '.' && s[k] != 'e' && s[k] != 'E')
    ensures ScanNumeral(s) == Some(Numeral(false, DigitsValue(s[..k]), 0, k))
  {
    assert IsDigit(s[..k][0]);
    assert SkipWhitespace(s, 0) == 0;
    assert SkipDigits(s, 0) == k;
    assert s[0..k] == s[..k];
    assert s[k..k] == [];
  }

  /** `(int)` of a canonical decimal is the number itself, whatever follows the digits. */
  lemma IntCastOfDecimal(n: nat, rest: string)
    requires n <= IntMax
    requires rest == [] || (!IsDigit(rest[0]) && rest[0] != '.' && rest[0] != 'e' && rest[0] != 'E')
    ensures IntCast(Decimal(n) + rest) == n
  {
    var s := Decimal(n) + rest;
    var k := |Decimal(n)|;
    assert s[..k] == Decimal(n);
    ScanDigitRun(s, k);
    DecimalValue(n);
    assert NumeralValue(ScanNumeral(s).value) == n as real;
  }

  /** A leading minus sign negates the cast; a non-positive value selects PHP's "not set" branch. */
  lemma IntCastOfNegativeDecimal(n: nat)
    requires n <= IntMax
    ensures IntCast("-" + Decimal(n)) == -(n as int)
  {
    var s := "-" + Decimal(n);
    assert s[1..] == Decimal(n);
    ScanNegativeDigits(s);
    DecimalValue(n);
    assert NumeralValue(ScanNumeral(s).value) == -(n as real);
  }

  /** A minus sign followed by digits only reads as the negated digit run. */
  lemma ScanNegativeDigits(s: string)
    requires |s| >= 2 && s[0] == '-' && AllDigits(s[1..])
    ensures ScanNumeral(s) == Some(Numeral(true, DigitsValue(s[1..]), 0, |s|))
  {
    assert SkipWhitespace(s, 0) == 0;
    var c := SkipDigits(s, 1);
    assert forall k :: 1 <= k < |s| ==> s[k] == s[1..][k - 1];
    assert c == |s|;
    assert s[1..c] == s[1..];
    assert s[c..c] == [];
    assert ScanExponent(s, c).None?;
  }

  /** Equal strings are always loosely equal: `!=` never separates identical session ids. */
  lemma LooseEqualsReflexive(a: string, b: string)
    requires a == b
    ensures LooseEquals(a, b)
  {
  }

  /** Two different strings are loosely equal only if both are numeric strings. */
  lemma LooseEqualsNeedsNumeric(a: string, b: string)
    requires a != b && LooseEquals(a, b)
    ensures IsNumeric(a) && IsNumeric(b)
  {
  }

  /** "0e1" and "0e2" differ as strings but both denote zero, so PHP finds them equal. */
  lemma ZeroExponentStringsLooselyEqual()
    ensures "0e1" != "0e2"
    ensures LooseEquals("0e1", "0e2")
  {
    ScanZeroExponent("0e1", '1');
    ScanZeroExponent("0e2", '2');
  }

  lemma ScanZeroExponent(s: string, d: char)
    requires IsDigit(d) && s == ['0', 'e', d]
    ensures IsNumeric(s)
    ensures NumeralValue(ScanNumeral(s).value) == 0.0
  {
    assert SkipWhitespace(s, 0) == 0;
    assert SkipDigits(s, 1) == 1;
    assert SkipDigits(s, 0) == 1;
    assert SkipDigits(s, 3) == 3;
    assert SkipDigits(s, 2) == 3;
    assert s[0..1] == "0";
    assert DigitsValue("0") == 0;
    assert DigitsValue(s[1..1]) == 0;
    assert ScanExponent(s, 1).Some?;
    assert ScanNumeral(s).value.digits == 0;
    assert ScanNumeral(s).value.end == 3;
    assert SkipWhitespace(s, 3) == 3;
  }
}
