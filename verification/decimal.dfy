/**
 * Decimal integers as the bot reads and writes them: `Number.prototype.toString()`
 * on integers and `parseInt(text, 10)` (section 19.2.5 of ECMA-262).
 */
module Decimal {
  import opened Wrappers

  predicate IsDigit(c: char) {
    '0' <= c <= '9'
  }

  predicate AllDigits(s: string) {
    forall i :: 0 <= i < |s| ==> IsDigit(s[i])
  }

  function DigitValue(c: char): (d: nat)
    requires IsDigit(c)
    ensures d < 10
  {
    c as int - '0' as int
  }

  function DigitChar(d: nat): (c: char)
    requires d < 10
    ensures IsDigit(c) && DigitValue(c) == d
  {
    ('0' as int + d) as char
  }

  /** The decimal digits of `n`, most significant first, without leading zeros. */
  function NatToDigits(n: nat): (s: string)
    ensures |s| >= 1 && AllDigits(s)
    ensures s[0] == '0' <==> n == 0
  {
    if n < 10 then [DigitChar(n)] else NatToDigits(n / 10) + [DigitChar(n % 10)]
  }

  /** The number a run of decimal digits denotes. */
  function DigitsValue(s: string): nat
    requires AllDigits(s)
  {
    if s == [] then 0 else DigitsValue(s[..|s| - 1]) * 10 + DigitValue(s[|s| - 1])
  }

  /** Reading back the digits of `n` gives `n`. */
  lemma {:induction false} DigitsRoundTrip(n: nat)
    ensures DigitsValue(NatToDigits(n)) == n
  {
    if n >= 10 {
      var s := NatToDigits(n);
      DigitsRoundTrip(n / 10);
      assert s[..|s| - 1] == NatToDigits(n / 10);
    }
  }

  /** Digit strings without a leading zero are exactly the images of `NatToDigits`. */
  lemma {:induction false} DigitsCanonical(s: string)
    requires |s| >= 1 && AllDigits(s) && (s[0] == '0' ==> |s| == 1)
    ensures NatToDigits(DigitsValue(s)) == s
  {
    if |s| > 1 {
      var p := s[..|s| - 1];
      DigitsCanonical(p);
      DigitsPositive(p);
      assert DigitsValue(s) / 10 == DigitsValue(p);
      assert s == p + [s[|s| - 1]];
    }
  }

  lemma {:induction false} DigitsPositive(s: string)
    requires |s| >= 1 && AllDigits(s) && s[0] != '0'
    ensures DigitsValue(s) >= 1
  {
    if |s| > 1 {
      DigitsPositive(s[..|s| - 1]);
    }
  }

  /** `n.toString()` for an integer `n`. */
  function IntToString(n: int): (s: string)
    ensures |s| >= 1
    ensures n < 0 <==> s[0] == '-'
    ensures n >= 0 ==> AllDigits(s)
    ensures n < 0 ==> |s| >= 2 && AllDigits(s[1..])
  {
    if n < 0 then "-" + NatToDigits(-n) else NatToDigits(n)
  }

  /**
   * StrWhiteSpaceChar: the white space and line terminators `parseInt` skips
   * (section 12.2 and 12.3 of ECMA-262; every space separator of Unicode).
   */
  predicate IsStrWhiteSpace(c: char) {
    || c == '\t' || c == '\n' || c == '\U{000B}' || c == '\U{000C}' || c == '\r'
    || c == ' ' || c == '\U{00A0}' || c == '\U{1680}'
    || ('\U{2000}' <= c <= '\U{200A}')
    || c == '\U{2028}' || c == '\U{2029}' || c == '\U{202F}' || c == '\U{205F}'
    || c == '\U{3000}' || c == '\U{FEFF}'
  }

  /** The text with its leading white space removed. */
  function TrimStart(s: string): (r: string)
    ensures |r| <= |s| && r == s[|s| - |r|..]
    ensures r == [] || !IsStrWhiteSpace(r[0])
  {
    if s != [] && IsStrWhiteSpace(s[0]) then TrimStart(s[1..]) else s
  }

  /** The longest run of digits at the front of `s`. */
  function LeadingDigits(s: string): (r: string)
    ensures |r| <= |s| && r == s[..|r|] && AllDigits(r)
    ensures |r| < |s| ==> !IsDigit(s[|r|])
  {
    if s != [] && IsDigit(s[0]) then [s[0]] + LeadingDigits(s[1..]) else []
  }

  /** The value of the digits at the front of `u`; `None` when there are none. */
  function ParseDigits(u: string): (r: Option<int>)
    ensures r.Some? <==> u != [] && IsDigit(u[0])
    ensures r.Some? ==> r.value >= 0
  {
    var digits := LeadingDigits(u);
    if digits == [] then None else Some(DigitsValue(digits))
  }

  function Negate(r: Option<int>): Option<int> {
    match r
    case Some(v) => Some(-v)
    case None => None
  }

  /**
   * `parseInt(s, 10)`: skip white space, read an optional sign, then the longest
   * run of decimal digits; `None` stands for `NaN` (no digit after the sign).
   */
  function ParseInt(s: string): (r: Option<int>)
  {
    var t := TrimStart(s);
    if t != [] && t[0] == '-' then Negate(ParseDigits(t[1..]))
    else if t != [] && t[0] == '+' then ParseDigits(t[1..])
    else ParseDigits(t)
  }

  /** `parseInt` succeeds exactly when a digit follows the white space and sign. */
  lemma ParseIntDefined(s: string)
    ensures ParseInt(s).Some? <==>
      var t := TrimStart(s);
      (t != [] && IsDigit(t[0])) ||
      (|t| >= 2 && (t[0] == '-' || t[0] == '+') && IsDigit(t[1]))
  {
  }

  /** Digits followed by a non-digit: the number stops at the first non-digit. */
  lemma {:induction false} LeadingDigitsPrefix(ds: string, rest: string)
    requires AllDigits(ds)
    requires rest == [] || !IsDigit(rest[0])
    ensures LeadingDigits(ds + rest) == ds
  {
    if ds != [] {
      assert (ds + rest)[1..] == ds[1..] + rest;
      LeadingDigitsPrefix(ds[1..], rest);
    } else {
      assert ds + rest == rest;
    }
  }

  /** A string starting with a digit or a sign is not trimmed. */
  lemma TrimStartNoSpace(s: string)
    requires s != [] && (IsDigit(s[0]) || s[0] == '-')
    ensures TrimStart(s) == s
  {
  }

  /** Text starting with a digit is read as an unsigned number. */
  lemma ParseIntUnsigned(u: string)
    requires u != [] && IsDigit(u[0])
    ensures ParseInt(u) == ParseDigits(u)
  {
    TrimStartNoSpace(u);
  }

  /** A leading minus sign negates whatever the digits after it denote. */
  lemma ParseIntMinus(u: string)
    ensures ParseInt(['-'] + u) == Negate(ParseDigits(u))
  {
    var s := ['-'] + u;
    assert s[1..] == u;
    TrimStartNoSpace(s);
  }

  /** The digits at the front of `ds + rest` are exactly `ds` when `rest` starts with no digit. */
  lemma ParseDigitsPrefix(ds: string, rest: string)
    requires ds != [] && AllDigits(ds)
    requires rest == [] || !IsDigit(rest[0])
    ensures ParseDigits(ds + rest) == Some(DigitsValue(ds) as int)
  {
    LeadingDigitsPrefix(ds, rest);
  }

  /** Zero is written `0`, and `0` reads back as zero. */
  lemma ZeroText()
    ensures IntToString(0) == "0" && ParseInt("0") == Some(0)
  {
    assert DigitChar(0) == '0';
    assert IntToString(0) + [] == IntToString(0);
    ParseIntToString(0, []);
  }

  /** A minus sign, the digits of `m` and a non-digit read as `-m`. */
  lemma ParseIntMinusDigits(m: nat, rest: string)
    requires rest == [] || !IsDigit(rest[0])
    ensures ParseInt(['-'] + (NatToDigits(m) + rest)) == Some(-(m as int))
  {
    var ds := NatToDigits(m);
    ParseIntMinus(ds + rest);
    ParseDigitsPrefix(ds, rest);
    DigitsRoundTrip(m);
  }

  /** `parseInt` reads back a negative number written by `toString`. */
  lemma ParseIntToStringNegative(n: int, rest: string)
    requires n < 0
    requires rest == [] || !IsDigit(rest[0])
    ensures ParseInt(IntToString(n) + rest) == Some(n)
  {
    var m: nat := -n;
    var ds := NatToDigits(m);
    assert IntToString(n) == ['-'] + ds;
    assert IntToString(n) + rest == ['-'] + (ds + rest);
    ParseIntMinusDigits(m, rest);
  }

  /** `parseInt` reads back a non-negative number written by `toString`. */
  lemma ParseIntToStringNonNegative(n: int, rest: string)
    requires n >= 0
    requires rest == [] || !IsDigit(rest[0])
    ensures ParseInt(IntToString(n) + rest) == Some(n)
  {
    var ds := NatToDigits(n);
    var u := ds + rest;
    assert ParseInt(u) == Some(n) by {
      ParseIntUnsigned(u);
      ParseDigitsPrefix(ds, rest);
      DigitsRoundTrip(n);
    }
    assert IntToString(n) + rest == u;
  }

  /** `parseInt(n.toString() + rest)` is `n` whenever `rest` does not continue the number. */
  lemma ParseIntToString(n: int, rest: string)
    requires rest == [] || !IsDigit(rest[0])
    ensures ParseInt(IntToString(n) + rest) == Some(n)
  {
    if n < 0 {
      ParseIntToStringNegative(n, rest);
    } else {
      ParseIntToStringNonNegative(n, rest);
    }
  }

  /** A string holding a whole `toString` result parses back to the same integer. */
  lemma ParseIntRoundTrip(n: int)
    ensures ParseInt(IntToString(n)) == Some(n)
  {
    ParseIntToString(n, []);
    assert IntToString(n) + [] == IntToString(n);
  }

  /** Digits as `toString` writes them: no leading zero unless the number is zero. */
  predicate CanonicalDigits(s: string) {
    |s| >= 1 && AllDigits(s) && (s[0] == '0' ==> |s| == 1)
  }

  /** Text `toString` can produce for an integer: canonical digits, negated when not zero. */
  predicate IsIntText(s: string) {
    CanonicalDigits(s) || (|s| >= 2 && s[0] == '-' && s[1] != '0' && CanonicalDigits(s[1..]))
  }

  /** Integer text as `toString` writes it parses, and writing the number gives the same text. */
  lemma IntTextRoundTrip(s: string)
    requires IsIntText(s)
    ensures ParseInt(s).Some? && IntToString(ParseInt(s).value) == s
  {
    if s[0] == '-' {
      NegativeTextRoundTrip(s[1..]);
      assert s == ['-'] + s[1..];
    } else {
      DigitsTextRoundTrip(s);
    }
  }

  /** Canonical digits parse to their value, and that value is written as the same digits. */
  lemma DigitsTextRoundTrip(s: string)
    requires CanonicalDigits(s)
    ensures ParseInt(s) == Some(DigitsValue(s) as int) && IntToString(DigitsValue(s)) == s
  {
    assert s + [] == s;
    ParseIntUnsigned(s);
    ParseDigitsPrefix(s, []);
    DigitsCanonical(s);
  }

  /** A minus sign and canonical digits other than `0` parse to a negative number written the same way. */
  lemma NegativeTextRoundTrip(u: string)
    requires CanonicalDigits(u) && u[0] != '0'
    ensures ParseInt(['-'] + u) == Some(-(DigitsValue(u) as int))
    ensures DigitsValue(u) >= 1 && IntToString(-(DigitsValue(u) as int)) == ['-'] + u
  {
    assert u + [] == u;
    ParseIntMinus(u);
    ParseDigitsPrefix(u, []);
    DigitsCanonical(u);
    DigitsPositive(u);
  }

  /** `parseInt('')` is `NaN`. */
  lemma ParseIntEmpty()
    ensures ParseInt("") == None
  {
  }
}
