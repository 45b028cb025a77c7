/** JavaScript's `parseInt(s, 10)` and the decimal rendering of an integer (`${n}`), over unbounded integers. */
module JsNumber {

  /** A number `parseInt` can return: `NaN`, or an integer. */
  datatype Parsed = NaN | Int(value: int)

  /** `StrWhiteSpaceChar`: the white space and line terminators `parseInt` skips at the start. */
  predicate IsWhiteSpace(c: char)
  {
    c == '\t' || c == '\n' || c == '\U{000B}' || c == '\U{000C}' || c == '\r' || c == ' '
    || c == '\U{00A0}' || c == '\U{1680}' || ('\U{2000}' <= c <= '\U{200A}')
    || c == '\U{2028}' || c == '\U{2029}' || c == '\U{202F}' || c == '\U{205F}'
    || c == '\U{3000}' || c == '\U{FEFF}'
  }

  predicate IsDigit(c: char)
  {
    '0' <= c <= '9'
  }

  predicate AllDigits(s: string)
  {
    forall i :: 0 <= i < |s| ==> IsDigit(s[i])
  }

  /** `s` without its leading white space. */
  function TrimStart(s: string): (t: string)
    ensures |t| <= |s| && t == s[|s| - |t|..]
    ensures |t| > 0 ==> !IsWhiteSpace(t[0])
    ensures forall i :: 0 <= i < |s| - |t| ==> IsWhiteSpace(s[i])
  {
    if |s| > 0 && IsWhiteSpace(s[0]) then TrimStart(s[1..]) else s
  }

  /** The longest prefix of `s` made of decimal digits. */
  function DigitPrefix(s: string): (d: string)
    ensures d <= s && AllDigits(d)
    ensures |d| < |s| ==> !IsDigit(s[|d|])
  {
    if |s| > 0 && IsDigit(s[0]) then [s[0]] + DigitPrefix(s[1..]) else ""
  }

  function DigitValue(c: char): nat
    requires IsDigit(c)
  {
    (c as int) - ('0' as int)
  }

  /** The value of a string of decimal digits, most significant first. */
  function DigitsValue(d: string): nat
    requires AllDigits(d)
  {
    if |d| == 0 then 0 else 10 * DigitsValue(d[..|d| - 1]) + DigitValue(d[|d| - 1])
  }

  /** `parseInt(s, 10)`: skip leading white space, take an optional sign, then the longest run of
    * decimal digits; no digits gives `NaN`. With radix 10 a `0x` prefix is not recognised. */
  function ParseInt(s: string): (r: Parsed)
    ensures r.Int? ==> exists i :: 0 <= i < |s| && IsDigit(s[i])
    ensures r.Int? && r.value < 0 ==> '-' in s
  {
    ParseSigned(TrimStart(s))
  }

  /** The part of `parseInt` after the white space: an optional sign, then the digit run. */
  function ParseSigned(t: string): (r: Parsed)
    ensures r.Int? ==> exists i :: 0 <= i < |t| && IsDigit(t[i])
    ensures r.Int? && r.value < 0 ==> t[0] == '-'
    ensures r.Int? && !(|t| > 0 && t[0] == '-') ==> r.value >= 0
    ensures r.NaN? <==> DigitPrefix(if |t| > 0 && (t[0] == '-' || t[0] == '+') then t[1..] else t) == ""
  {
    var unsigned := if |t| > 0 && (t[0] == '-' || t[0] == '+') then t[1..] else t;
    var d := DigitPrefix(unsigned);
    if |d| == 0 then NaN
    else if |t| > 0 && t[0] == '-' then Int(-(DigitsValue(d) as int))
    else Int(DigitsValue(d))
  }

  function DigitChar(n: nat): (c: char)
    requires n < 10
    ensures IsDigit(c) && DigitValue(c) == n
  {
    ('0' as int + n) as char
  }

  /** The shortest decimal rendering of a natural number. */
  function NatToString(n: nat): (s: string)
    ensures |s| > 0 && AllDigits(s)
  {
    if n < 10 then [DigitChar(n)] else NatToString(n / 10) + [DigitChar(n % 10)]
  }

  /** How a template literal renders an integer-valued number: a `-` for negatives, then the digits. */
  function IntToString(i: int): (s: string)
    ensures i >= 0 ==> |s| > 0 && AllDigits(s)
    ensures i < 0 ==> |s| > 1 && s[0] == '-' && AllDigits(s[1..])
  {
    if i < 0 then "-" + NatToString(-i) else NatToString(i)
  }

  /** Reading back the digits of a rendering gives the number. */
  lemma {:induction false} NatToStringValue(n: nat)
    ensures DigitsValue(NatToString(n)) == n
  {
    if n >= 10 {
      var s := NatToString(n);
      NatToStringValue(n / 10);
      assert s[..|s| - 1] == NatToString(n / 10);
    }
  }

  /** `parseInt` takes the whole of an all-digit string. */
  lemma {:induction false} DigitPrefixOfDigits(s: string)
    requires AllDigits(s)
    ensures DigitPrefix(s) == s
  {
    if |s| > 0 {
      DigitPrefixOfDigits(s[1..]);
    }
  }

  /** Digits stop where the first non-digit begins. */
  lemma {:induction false} DigitPrefixStops(d: string, rest: string)
    requires AllDigits(d)
    requires |rest| == 0 || !IsDigit(rest[0])
    ensures DigitPrefix(d + rest) == d
  {
    if |d| > 0 {
      assert (d + rest)[1..] == d[1..] + rest;
      DigitPrefixStops(d[1..], rest);
    }
  }

  /** Text that does not start with white space is parsed as it stands. */
  lemma TrimStartNoWhiteSpace(s: string)
    requires |s| == 0 || !IsWhiteSpace(s[0])
    ensures TrimStart(s) == s
  {
  }

  /** `parseInt` inverts the decimal rendering of every integer. */
  lemma ParseIntOfIntToString(i: int)
    ensures ParseInt(IntToString(i)) == Int(i)
  {
    var n: nat := if i < 0 then -i else i;
    var digits := NatToString(n);
    NatToStringValue(n);
    DigitPrefixOfDigits(digits);
    var s := IntToString(i);
    TrimStartNoWhiteSpace(s);
    if i < 0 {
      assert s == "-" + digits;
      assert s[1..] == digits;
      assert ParseSigned(s) == Int(i);
    } else {
      assert s == digits;
      assert ParseSigned(s) == Int(n);
    }
  }

  /** Text that starts with a digit has no white space to skip. */
  lemma TrimStartOfDigit(s: string)
    requires |s| > 0 && IsDigit(s[0])
    ensures TrimStart(s) == s
  {
    assert !IsWhiteSpace(s[0]);
  }

  /** Text that starts with a digit has no sign. */
  lemma ParseSignedOfDigit(s: string)
    requires |s| > 0 && IsDigit(s[0])
    ensures ParseSigned(s) == Int(DigitsValue(DigitPrefix(s)))
  {
  }

  /** Text that starts with a digit parses to the value of its leading digit run. */
  lemma ParseIntOfLeadingDigit(s: string)
    requires |s| > 0 && IsDigit(s[0])
    ensures ParseInt(s) == Int(DigitsValue(DigitPrefix(s)))
  {
    TrimStartOfDigit(s);
    ParseSignedOfDigit(s);
  }

  /** A digit run followed by anything that is not a digit parses to the run's value: `"12abc"` is 12. */
  lemma ParseIntOfDigitsThenRest(d: string, rest: string)
    requires |d| > 0 && AllDigits(d)
    requires |rest| == 0 || !IsDigit(rest[0])
    ensures ParseInt(d + rest) == Int(DigitsValue(d))
  {
    assert (d + rest)[0] == d[0];
    ParseIntOfLeadingDigit(d + rest);
    DigitPrefixStops(d, rest);
  }

  /** A sign, a digit run, then anything that is not a digit: the run's value with that sign, so
    * `"-12abc"` is -12, `"+7"` is 7 and `"-007"` is -7. */
  lemma ParseIntOfSignedDigits(sign: char, d: string, rest: string)
    requires sign == '-' || sign == '+'
    requires |d| > 0 && AllDigits(d)
    requires |rest| == 0 || !IsDigit(rest[0])
    ensures ParseInt([sign] + d + rest) == Int(if sign == '-' then -(DigitsValue(d) as int) else DigitsValue(d) as int)
  {
    var s := [sign] + (d + rest);
    assert [sign] + d + rest == s;
    SignIsNotWhiteSpace(sign);
    TrimStartNoWhiteSpace(s);
    assert s[1..] == d + rest;
    ParseSignedOfSign(s, d, rest);
  }

  lemma SignIsNotWhiteSpace(c: char)
    requires c == '-' || c == '+'
    ensures !IsWhiteSpace(c)
  {
  }

  /** After a sign, the digit run up to the first non-digit gives the value. */
  lemma ParseSignedOfSign(t: string, d: string, rest: string)
    requires |t| > 0 && (t[0] == '-' || t[0] == '+') && t[1..] == d + rest
    requires |d| > 0 && AllDigits(d)
    requires |rest| == 0 || !IsDigit(rest[0])
    ensures ParseSigned(t) == Int(if t[0] == '-' then -(DigitsValue(d) as int) else DigitsValue(d) as int)
  {
    DigitPrefixStops(d, rest);
  }

  /** Leading white space does not change the result. */
  lemma ParseIntSkipsWhiteSpace(c: char, s: string)
    requires IsWhiteSpace(c)
    ensures ParseInt([c] + s) == ParseInt(s)
  {
    assert ([c] + s)[1..] == s;
  }

  /** Text that starts with something other than white space, a sign or a digit is `NaN`, and so is `""`. */
  lemma ParseIntNaN(s: string)
    requires |s| == 0 || !(IsWhiteSpace(s[0]) || IsDigit(s[0]) || s[0] == '-' || s[0] == '+')
    ensures ParseInt(s) == NaN
  {
  }
}
