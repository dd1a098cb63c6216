/** Hexadecimal digits, as JSON `\u` escapes and URI percent-escapes write them. */
module Hex {

  predicate IsHexDigit(c: char) {
    ('0' <= c <= '9') || ('a' <= c <= 'f') || ('A' <= c <= 'F')
  }

  /** A digit as `encodeURIComponent` writes it: a decimal digit or `A` to `F`. */
  predicate IsUpperHexDigit(c: char) {
    ('0' <= c <= '9') || ('A' <= c <= 'F')
  }

  /** The value of a hexadecimal digit of either case. */
  function HexValue(c: char): (d: nat)
    requires IsHexDigit(c)
    ensures d < 16
  {
    if '0' <= c <= '9' then c as int - '0' as int
    else if 'a' <= c <= 'f' then c as int - 'a' as int + 10
    else c as int - 'A' as int + 10
  }

  /** The upper-case digit for `d`, as `encodeURIComponent` writes it. */
  function UpperDigit(d: nat): (c: char)
    requires d < 16
    ensures IsUpperHexDigit(c) && IsHexDigit(c) && HexValue(c) == d
  {
    if d < 10 then ('0' as int + d) as char else ('A' as int + d - 10) as char
  }

  /** The lower-case digit for `d`, as `JSON.stringify` writes it. */
  function LowerDigit(d: nat): (c: char)
    requires d < 16
    ensures IsHexDigit(c) && HexValue(c) == d
  {
    if d < 10 then ('0' as int + d) as char else ('a' as int + d - 10) as char
  }

  /** The value of two hexadecimal digits. */
  function ByteValue(hi: char, lo: char): (b: nat)
    requires IsHexDigit(hi) && IsHexDigit(lo)
    ensures b < 256
  {
    HexValue(hi) * 16 + HexValue(lo)
  }

  /** Two digits written for `b` read back as `b`. */
  lemma ByteRoundTrip(b: nat)
    requires b < 256
    ensures ByteValue(UpperDigit(b / 16), UpperDigit(b % 16)) == b
    ensures ByteValue(LowerDigit(b / 16), LowerDigit(b % 16)) == b
  {
  }
}
