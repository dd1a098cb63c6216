/**
 * `encodeURIComponent` and `decodeURIComponent` (sections 19.2.6.4 and 19.2.6.5 of
 * ECMA-262): percent-encoding of the UTF-8 bytes of a string (section 2.1 of RFC 3986,
 * section 3 of RFC 3629).
 */
module Uri {
  import opened Wrappers
  import opened Hex

  /** The characters `encodeURIComponent` leaves as they are. */
  predicate IsUnreserved(c: char) {
    || ('a' <= c <= 'z') || ('A' <= c <= 'Z') || ('0' <= c <= '9')
    || c == '-' || c == '_' || c == '.' || c == '!' || c == '~'
    || c == '*' || c == '\'' || c == '(' || c == ')'
  }

  /** A character that can appear in the output of `encodeURIComponent`. */
  predicate IsEncodedChar(c: char) {
    IsUnreserved(c) || c == '%'
  }

  predicate AllEncoded(s: string) {
    forall i :: 0 <= i < |s| ==> IsEncodedChar(s[i])
  }

  /** Every `%` starts an escape: two upper-case hexadecimal digits follow it. */
  predicate WellEscaped(s: string) {
    forall i :: 0 <= i < |s| && s[i] == '%' ==>
      i + 2 < |s| && IsUpperHexDigit(s[i + 1]) && IsUpperHexDigit(s[i + 2])
  }

  predicate IsByte(b: nat) {
    b < 256
  }

  /** The UTF-8 bytes of one Unicode scalar value. */
  function Utf8(c: char): (bs: seq<nat>)
    ensures 1 <= |bs| <= 4
    ensures forall i :: 0 <= i < |bs| ==> IsByte(bs[i])
  {
    var cp := c as int;
    if cp < 0x80 then [cp]
    else if cp < 0x800 then [0xC0 + cp / 64, 0x80 + cp % 64]
    else if cp < 0x10000 then [0xE0 + cp / 4096, 0x80 + (cp / 64) % 64, 0x80 + cp % 64]
    else [0xF0 + cp / 262144, 0x80 + (cp / 4096) % 64, 0x80 + (cp / 64) % 64, 0x80 + cp % 64]
  }

  /** `%XY` for one byte, with upper-case hexadecimal digits. */
  function EscapeByte(b: nat): (r: string)
    requires IsByte(b)
    ensures |r| == 3 && r[0] == '%' && IsUpperHexDigit(r[1]) && IsUpperHexDigit(r[2])
  {
    ['%', UpperDigit(b / 16), UpperDigit(b % 16)]
  }

  function EscapeBytes(bs: seq<nat>): (r: string)
    requires forall i :: 0 <= i < |bs| ==> IsByte(bs[i])
    ensures |r| == 3 * |bs|
  {
    if bs == [] then [] else EscapeByte(bs[0]) + EscapeBytes(bs[1..])
  }

  /** Escapes hold only `%` and hexadecimal digits, two after each `%`. */
  lemma {:induction false} EscapeBytesEncoded(bs: seq<nat>)
    requires forall i :: 0 <= i < |bs| ==> IsByte(bs[i])
    ensures AllEncoded(EscapeBytes(bs)) && WellEscaped(EscapeBytes(bs))
  {
    if bs != [] {
      var head := EscapeByte(bs[0]);
      var tail := EscapeBytes(bs[1..]);
      EscapeBytesEncoded(bs[1..]);
      assert IsEncodedChar(head[0]) && IsEncodedChar(head[1]) && IsEncodedChar(head[2]);
      AppendEncoded(head, tail);
    }
  }

  lemma AppendEncoded(a: string, b: string)
    requires AllEncoded(a) && AllEncoded(b)
    requires WellEscaped(a) && WellEscaped(b)
    ensures AllEncoded(a + b) && WellEscaped(a + b)
  {
    var s := a + b;
    forall i | 0 <= i < |s|
      ensures IsEncodedChar(s[i])
      ensures s[i] == '%' ==> i + 2 < |s| && IsUpperHexDigit(s[i + 1]) && IsUpperHexDigit(s[i + 2])
    {
      if i >= |a| {
        assert s[i] == b[i - |a|];
        if s[i] == '%' {
          assert s[i + 1] == b[i - |a| + 1] && s[i + 2] == b[i - |a| + 2];
        }
      } else if s[i] == '%' {
        assert s[i + 1] == a[i + 1] && s[i + 2] == a[i + 2];
      }
    }
  }

  /** One character as `encodeURIComponent` writes it. */
  function EncodeChar(c: char): (r: string)
    ensures 1 <= |r|
  {
    if IsUnreserved(c) then [c] else EscapeBytes(Utf8(c))
  }

  lemma EncodeCharEncoded(c: char)
    ensures AllEncoded(EncodeChar(c)) && WellEscaped(EncodeChar(c))
  {
    if !IsUnreserved(c) {
      EscapeBytesEncoded(Utf8(c));
    }
  }

  /** `encodeURIComponent(s)`. */
  function EncodeURIComponent(s: string): (r: string)
    ensures |r| >= |s|
    ensures AllEncoded(r) && WellEscaped(r)
  {
    if s == [] then []
    else
      var head := EncodeChar(s[0]);
      var tail := EncodeURIComponent(s[1..]);
      EncodeCharEncoded(s[0]);
      AppendEncoded(head, tail);
      head + tail
  }

  /** The byte written as `%XY` at the front of `s`, either case of hexadecimal digit. */
  function EscapedByte(s: string): (r: Option<nat>)
    ensures r.Some? ==> |s| >= 3 && IsByte(r.value)
  {
    if |s| >= 3 && s[0] == '%' && IsHexDigit(s[1]) && IsHexDigit(s[2]) then Some(ByteValue(s[1], s[2]))
    else None
  }

  /** The number of leading one bits of a byte: the length of the UTF-8 sequence it starts. */
  function LeadingOnes(b: nat): (n: nat)
    requires IsByte(b)
    ensures n <= 8
  {
    if b < 0x80 then 0
    else if b < 0xC0 then 1
    else if b < 0xE0 then 2
    else if b < 0xF0 then 3
    else if b < 0xF8 then 4
    else if b < 0xFC then 5
    else if b < 0xFE then 6
    else if b < 0xFF then 7
    else 8
  }

  /** The value bits a lead byte of an `n`-byte sequence carries. */
  function LeadBits(b: nat, n: nat): int
    requires 2 <= n <= 4
  {
    if n == 2 then b - 0xC0 else if n == 3 then b - 0xE0 else b - 0xF0
  }

  /**
   * Reads `count` escaped continuation bytes (`10xxxxxx`) from the front of `s`,
   * appending their six value bits each to `acc`.
   */
  function Continuations(s: string, count: nat, acc: int): (r: Option<int>)
    ensures r.Some? ==> |s| >= 3 * count
    decreases count
  {
    if count == 0 then Some(acc)
    else
      match EscapedByte(s)
      case None => None
      case Some(b) =>
        if 0x80 <= b < 0xC0 then Continuations(s[3..], count - 1, acc * 64 + (b - 0x80))
        else None
  }

  /** A scalar value written in its shortest UTF-8 form of `n` bytes (RFC 3629 section 4). */
  predicate IsShortestScalar(n: nat, v: int) {
    || (n == 2 && 0x80 <= v < 0x800)
    || (n == 3 && 0x800 <= v < 0x10000 && !(0xD800 <= v < 0xE000))
    || (n == 4 && 0x10000 <= v < 0x110000)
  }

  function Prepend(c: char, r: Option<string>): Option<string> {
    match r
    case None => None
    case Some(s) => Some([c] + s)
  }

  /**
   * `decodeURIComponent(s)`; `None` where it throws `URIError`: a `%` without two
   * hexadecimal digits, a stray continuation byte, a lead byte of more than four
   * bytes, a missing or malformed continuation, an overlong form, a surrogate, or a
   * value above U+10FFFF.
   */
  function DecodeURIComponent(s: string): (r: Option<string>)
    ensures r.Some? ==> |r.value| <= |s|
    decreases |s|
  {
    if s == [] then Some([])
    else if s[0] != '%' then Prepend(s[0], DecodeURIComponent(s[1..]))
    else
      match EscapedByte(s)
      case None => None
      case Some(b) =>
        if b < 0x80 then Prepend(b as char, DecodeURIComponent(s[3..]))
        else
          var n := LeadingOnes(b);
          if n == 1 || n > 4 then None
          else
            match Continuations(s[3..], n - 1, LeadBits(b, n))
            case None => None
            case Some(v) =>
              if IsShortestScalar(n, v) then Prepend(v as char, DecodeURIComponent(s[3 * n..]))
              else None
  }
}
