/** JavaScript's `parseInt(string)` with no radix, as the older note
    controller applies it to the `:id` route parameter, and the decimal
    rendering of a natural number that it reads back.

    The steps follow the global `parseInt` function of the ECMAScript
    standard: skip leading white space, take an optional sign, read a
    "0x"/"0X" prefix as hexadecimal, then the longest run of digits of the
    radix; no digits at all is `NaN` (None here).  Results beyond 2^53 lose
    precision in JavaScript; here they are exact.
 */
module ParseInt {
  import opened Outcomes
  import Text

  /** The digit value of a character in radices up to 36, or 36 for a
      character that is no digit. */
  function DigitValue(c: char): (d: nat)
    ensures d <= 36
  {
    if '0' <= c <= '9' then c as int - '0' as int
    else if 'a' <= c <= 'z' then c as int - 'a' as int + 10
    else if 'A' <= c <= 'Z' then c as int - 'A' as int + 10
    else 36
  }

  /** Length of the longest prefix made of digits of `radix`. */
  function DigitRun(s: string, radix: nat): (k: nat)
    ensures k <= |s|
    ensures forall i :: 0 <= i < k ==> DigitValue(s[i]) < radix
    ensures k == |s| || DigitValue(s[k]) >= radix
    decreases |s|
  {
    if |s| == 0 || DigitValue(s[0]) >= radix then 0
    else 1 + DigitRun(s[1..], radix)
  }

  /** The number a run of digits denotes, most significant first. */
  function Value(z: string, radix: nat): nat
    decreases |z|
  {
    if |z| == 0 then 0
    else Value(z[..|z| - 1], radix) * radix + (if DigitValue(z[|z| - 1]) < radix then DigitValue(z[|z| - 1]) else 0)
  }

  /** The digits after the sign: hexadecimal after "0x" or "0X", decimal
      otherwise; None when the run of digits is empty. */
  function ParseUnsigned(u: string): (r: Option<nat>)
  {
    var hex := |u| >= 2 && u[0] == '0' && (u[1] == 'x' || u[1] == 'X');
    var radix := if hex then 16 else 10;
    var digits := if hex then u[2..] else u;
    var k := DigitRun(digits, radix);
    if k == 0 then None else Some(Value(digits[..k], radix))
  }

  /** What follows the leading white space: an optional sign, then digits. */
  function ParseSigned(t: string): (r: Option<int>)
  {
    if |t| > 0 && t[0] == '-' then
      match ParseUnsigned(t[1..])
      case None => None
      case Some(v) => Some(0 - v as int)
    else if |t| > 0 && t[0] == '+' then
      match ParseUnsigned(t[1..])
      case None => None
      case Some(v) => Some(v)
    else
      match ParseUnsigned(t)
      case None => None
      case Some(v) => Some(v)
  }

  /** `parseInt(s)`, None standing for `NaN`.  A number is read only when the
      first character after the leading white space is a sign or a digit, so
      an empty or blank text is `NaN`. */
  function ParseInt(s: string): (r: Option<int>)
    ensures r.Some? ==>
      var t := s[Text.LeadingSpace(s)..];
      |t| > 0 && (t[0] == '-' || t[0] == '+' || '0' <= t[0] <= '9')
    ensures Text.AllSpace(s) ==> r.None?
  {
    ParseSigned(s[Text.LeadingSpace(s)..])
  }

  /** The decimal digit for a value below 10. */
  function DecimalDigit(d: nat): (c: char)
    requires d < 10
    ensures DigitValue(c) == d && '0' <= c <= '9'
  {
    ('0' as int + d) as char
  }

  /** `String(n)` for a natural number. */
  function DecimalString(n: nat): (s: string)
    ensures |s| > 0
    ensures forall i :: 0 <= i < |s| ==> '0' <= s[i] <= '9'
    decreases n
  {
    if n < 10 then [DecimalDigit(n)] else DecimalString(n / 10) + [DecimalDigit(n % 10)]
  }

  /** Only zero is written with a leading '0'. */
  lemma {:induction false} LeadingZeroOnlyForZero(n: nat)
    ensures DecimalString(n)[0] == '0' ==> n == 0
    decreases n
  {
    if n >= 10 {
      LeadingZeroOnlyForZero(n / 10);
      assert DecimalString(n)[0] == DecimalString(n / 10)[0];
    }
  }

  lemma {:induction false} ValueOfDecimal(n: nat)
    ensures Value(DecimalString(n), 10) == n
    decreases n
  {
    var s := DecimalString(n);
    if n >= 10 {
      ValueOfDecimal(n / 10);
      assert s[..|s| - 1] == DecimalString(n / 10);
    }
  }

  lemma {:induction false} DigitRunOfDigits(s: string)
    requires forall i :: 0 <= i < |s| ==> '0' <= s[i] <= '9'
    ensures DigitRun(s, 10) == |s|
    decreases |s|
  {
    if |s| > 0 {
      DigitRunOfDigits(s[1..]);
    }
  }

  /** Reading back the decimal rendering of a natural number gives the number. */
  lemma ParseDecimal(n: nat)
    ensures ParseInt(DecimalString(n)) == Some(n)
  {
    var s := DecimalString(n);
    assert !Text.IsSpace(s[0]);
    assert Text.LeadingSpace(s) == 0;
    assert s[0..] == s;
    ParseUnsignedDecimal(n);
    assert ParseSigned(s) == Some(n);
  }

  lemma ParseUnsignedDecimal(n: nat)
    ensures ParseUnsigned(DecimalString(n)) == Some(n)
  {
    var s := DecimalString(n);
    LeadingZeroOnlyForZero(n);
    DigitRunOfDigits(s);
    ValueOfDecimal(n);
    assert s[..|s|] == s;
  }

  /** A minus sign negates what follows it. */
  lemma ParseNegative(n: nat)
    ensures ParseInt("-" + DecimalString(n)) == Some(0 - n)
  {
    ParseUnsignedDecimal(n);
    MinusNegates(DecimalString(n), n);
  }

  lemma MinusNegates(d: string, v: nat)
    requires ParseUnsigned(d) == Some(v)
    ensures ParseInt("-" + d) == Some(0 - v)
  {
    var s := "-" + d;
    assert Text.LeadingSpace(s) == 0;
    assert s[0..] == s && s[0] == '-' && s[1..] == d;
  }

  /** White space before the number is skipped. */
  lemma LeadingSpaceIgnored(c: char, s: string)
    requires Text.IsSpace(c)
    ensures ParseInt([c] + s) == ParseInt(s)
  {
    var cs := [c] + s;
    assert cs[1..] == s;
    assert cs[Text.LeadingSpace(cs)..] == s[Text.LeadingSpace(s)..];
  }

  /** A parameter whose first character is a letter or punctuation other than
      a sign (no leading white space) is `NaN`. */
  lemma NonNumericIsNaN(s: string)
    requires |s| > 0 && !Text.IsSpace(s[0]) && s[0] != '-' && s[0] != '+' && !('0' <= s[0] <= '9')
    ensures ParseInt(s).None?
  {
    assert Text.LeadingSpace(s) == 0;
    assert s[0..] == s;
  }
}
