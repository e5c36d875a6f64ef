/**
 * The three JavaScript number operations the journal relies on, on exact values:
 * `parseFloat` (text to number, `None` standing for NaN), `Number.prototype.toString`
 * on integers, and `Math.round`.
 */
module Numbers {
  import opened Wrappers

  predicate IsDigit(c: char) { '0' <= c <= '9' }

  predicate AllDigits(s: string) { forall i :: 0 <= i < |s| ==> IsDigit(s[i]) }

  function DigitValue(c: char): nat
    requires IsDigit(c)
  {
    c as int - '0' as int
  }

  function DigitChar(d: nat): (c: char)
    requires d < 10
    ensures IsDigit(c) && DigitValue(c) == d
  {
    ('0' as int + d) as char
  }

  /** The value of a run of decimal digits, most significant first ("042" is 42). */
  function DigitsValue(s: string): nat
    requires AllDigits(s)
  {
    if s == [] then 0 else DigitsValue(s[..|s| - 1]) * 10 + DigitValue(s[|s| - 1])
  }

  /** The value of the digits written after a decimal point ("25" is 0.25). */
  function FractionValue(s: string): real
    requires AllDigits(s)
  {
    if s == [] then 0.0 else (DigitValue(s[0]) as real + FractionValue(s[1..])) / 10.0
  }

  /** The length of the longest run of digits at the head of `s`. */
  function DigitRun(s: string): (n: nat)
    ensures n <= |s| && AllDigits(s[..n])
    ensures n < |s| ==> !IsDigit(s[n])
  {
    if s != [] && IsDigit(s[0]) then
      var k := DigitRun(s[1..]);
      assert s[..1 + k] == [s[0]] + s[1..][..k];
      1 + k
    else 0
  }

  /** The characters ECMAScript counts as WhiteSpace or LineTerminator. */
  predicate IsJsSpace(c: char)
  {
    c == '\t' || c == '\n' || c == '\U{B}' || c == '\U{C}' || c == '\r' || c == ' ' ||
    c == '\U{A0}' || c == '\U{1680}' || ('\U{2000}' <= c <= '\U{200A}') ||
    c == '\U{2028}' || c == '\U{2029}' || c == '\U{202F}' || c == '\U{205F}' ||
    c == '\U{3000}' || c == '\U{FEFF}'
  }

  /** `s` without its leading white space, as `parseFloat` first trims it. */
  function TrimStart(s: string): (t: string)
    ensures |t| <= |s| && t == s[|s| - |t|..]
    ensures forall i :: 0 <= i < |s| - |t| ==> IsJsSpace(s[i])
    ensures t == [] || !IsJsSpace(t[0])
  {
    if s != [] && IsJsSpace(s[0]) then TrimStart(s[1..]) else s
  }

  function Pow10(n: nat): (p: nat)
    ensures p >= 1
  {
    if n == 0 then 1 else 10 * Pow10(n - 1)
  }

  /** `m` times ten to the power `e`. */
  function Scaled(m: real, e: int): real
  {
    if e >= 0 then m * Pow10(e) as real else m / Pow10(-e) as real
  }

  /**
   * The exponent part (`e7`, `E+12`, `e-3`) at the head of `s`, or 0 when `s` does not
   * start with one (a bare `e` or `e+` is not an exponent and is left unread).
   */
  function ExponentOf(s: string): int
  {
    if |s| >= 2 && (s[0] == 'e' || s[0] == 'E') then
      var v := s[1..];
      var w := if v[0] == '-' || v[0] == '+' then v[1..] else v;
      var n := DigitRun(w);
      if n == 0 then 0
      else if v[0] == '-' then -(DigitsValue(w[..n]) as int)
      else DigitsValue(w[..n])
    else 0
  }

  /**
   * The longest `digits [. digits]` prefix of `u`, as its integer digits, its fraction
   * digits and the text that follows it.
   */
  function SplitMantissa(u: string): (r: (string, string, string))
    ensures AllDigits(r.0) && AllDigits(r.1)
  {
    var k := DigitRun(u);
    var afterInt := u[k..];
    if |afterInt| > 0 && afterInt[0] == '.' then
      var f := DigitRun(afterInt[1..]);
      (u[..k], afterInt[1..][..f], afterInt[1..][f..])
    else (u[..k], "", afterInt)
  }

  /** `parseFloat` on text with neither leading white space nor a sign. */
  function ParseUnsigned(u: string): Option<real>
  {
    var parts := SplitMantissa(u);
    if parts.0 == [] && parts.1 == [] then None
    else Some(Scaled(DigitsValue(parts.0) as real + FractionValue(parts.1), ExponentOf(parts.2)))
  }

  function Negated(v: Option<real>): Option<real>
  {
    match v
    case Some(x) => Some(-x)
    case None => None
  }

  /**
   * `parseFloat`: after leading white space and an optional sign, reads the longest
   * prefix of the form `digits [. digits] [exponent]` or `. digits [exponent]` and ignores
   * whatever follows; `None` (NaN) when there is no such prefix.
   */
  function ParseFloat(s: string): Option<real>
  {
    var t := TrimStart(s);
    if |t| > 0 && t[0] == '-' then Negated(ParseUnsigned(t[1..]))
    else if |t| > 0 && t[0] == '+' then ParseUnsigned(t[1..])
    else ParseUnsigned(t)
  }

  /** `parseFloat(s) || 0`: the number `s` starts with, NaN (and zero) counting as 0. */
  function NumberOrZero(s: string): real
  {
    match ParseFloat(s)
    case Some(v) => v
    case None => 0.0
  }

  /** The decimal numeral of a natural number, without leading zeros. */
  function NatToString(n: nat): (s: string)
    ensures |s| > 0 && AllDigits(s) && DigitsValue(s) == n
    ensures s[0] == '0' ==> n == 0
  {
    if n < 10 then [DigitChar(n)]
    else
      var high := NatToString(n / 10);
      var s := high + [DigitChar(n % 10)];
      assert s[..|s| - 1] == high;
      s
  }

  /** `Number.prototype.toString` on an integer (below 10^21 in magnitude). */
  function IntToString(n: int): (s: string)
    ensures |s| > 0
    ensures n >= 0 ==> AllDigits(s)
  {
    if n < 0 then "-" + NatToString(-n) else NatToString(n)
  }

  /** `Math.round`: the nearest integer, halves rounded up (towards +infinity). */
  function RoundHalfUp(x: real): (r: int)
    ensures x - 0.5 < r as real <= x + 0.5
  {
    (x + 0.5).Floor
  }

  /** Rounding is monotone. */
  lemma RoundHalfUpMonotone(x: real, y: real)
    requires x <= y
    ensures RoundHalfUp(x) <= RoundHalfUp(y)
  {
  }

  /** Rounding an integer gives it back. */
  lemma RoundHalfUpOfInteger(n: int)
    ensures RoundHalfUp(n as real) == n
  {
  }

  /** A run of digits is read to its end. */
  lemma DigitRunOfDigits(s: string)
    requires AllDigits(s)
    ensures DigitRun(s) == |s|
  {
  }

  /** Text that starts with a non-space character is not trimmed. */
  lemma TrimStartNoSpace(s: string)
    requires s != [] && !IsJsSpace(s[0])
    ensures TrimStart(s) == s
  {
  }

  /** A run of digits is all mantissa, with nothing after it. */
  lemma SplitMantissaOfDigits(d: string)
    requires AllDigits(d)
    ensures SplitMantissa(d) == (d, "", "")
  {
    DigitRunOfDigits(d);
    assert d[..|d|] == d;
  }

  /** Scaling by ten to the power 0 changes nothing. */
  lemma ScaledByOne(m: real)
    ensures Scaled(m, 0) == m
  {
    assert Pow10(0) == 1;
  }

  /** `parseFloat` reads back a non-empty run of digits. */
  lemma ParseUnsignedDigits(d: string)
    requires |d| > 0 && AllDigits(d)
    ensures ParseUnsigned(d) == Some(DigitsValue(d) as real)
  {
    SplitMantissaOfDigits(d);
    var parts := SplitMantissa(d);
    assert parts.0 == d && parts.1 == "" && parts.2 == "";
    assert FractionValue(parts.1) == 0.0 && ExponentOf(parts.2) == 0;
    ScaledByOne(DigitsValue(d) as real);
  }

  /**
   * Round trip: the text `toString` gives an integer parses back to that integer,
   * so an amount stored as text keeps its value through `parseFloat`.
   */
  lemma ParseIntToString(n: int)
    ensures ParseFloat(IntToString(n)) == Some(n as real)
  {
    var s := IntToString(n);
    TrimStartNoSpace(s);
    if n >= 0 {
      ParseUnsignedDigits(s);
    } else {
      assert s[1..] == NatToString(-n);
      ParseUnsignedDigits(s[1..]);
    }
  }

  /** `toString` is injective on integers: different amounts never print alike. */
  lemma IntToStringInjective(a: int, b: int)
    requires IntToString(a) == IntToString(b)
    ensures a == b
  {
    ParseIntToString(a);
    ParseIntToString(b);
  }

  /** An integer's numeral counts with its own value in `parseFloat(x) || 0`. */
  lemma NumberOrZeroOfInt(n: int)
    ensures NumberOrZero(IntToString(n)) == n as real
  {
    ParseIntToString(n);
  }

  /** Text with no digit before its first non-numeric character is NaN, hence 0. */
  lemma NumberOrZeroOfWord(s: string)
    requires s != [] && !IsJsSpace(s[0]) && !IsDigit(s[0])
    requires s[0] != '-' && s[0] != '+' && s[0] != '.'
    ensures ParseFloat(s) == None && NumberOrZero(s) == 0.0
  {
    TrimStartNoSpace(s);
  }
}
