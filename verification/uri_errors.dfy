/**
 * Where `decodeURIComponent` throws `URIError` (section 19.2.6.5 of ECMA-262): a `%`
 * anywhere without two hexadecimal digits after it, and a byte that never starts a UTF-8
 * sequence (section 3 of RFC 3629) after text that decodes.
 */
module UriErrors {
  import opened Wrappers
  import opened Hex
  import opened Uri
  import UriRoundTrip

  /** Every `%` of `s` is followed by two hexadecimal digits. */
  predicate EscapesComplete(s: string) {
    forall i :: 0 <= i < |s| && s[i] == '%' ==> EscapedByte(s[i..]).Some?
  }

  /** The escapes of the continuation bytes read are complete. */
  lemma {:induction false} ContinuationsComplete(s: string, count: nat, acc: int)
    requires Continuations(s, count, acc).Some?
    ensures forall i :: 0 <= i < 3 * count && s[i] == '%' ==> EscapedByte(s[i..]).Some?
    decreases count
  {
    if count > 0 {
      var b := EscapedByte(s).value;
      ContinuationsComplete(s[3..], count - 1, acc * 64 + (b - 0x80));
      forall i | 3 <= i < 3 * count && s[i] == '%'
        ensures EscapedByte(s[i..]).Some?
      {
        assert s[i..] == s[3..][i - 3..];
      }
    }
  }

  /** Text that decodes has no incomplete escape. */
  lemma {:induction false} DecodedEscapesComplete(s: string)
    ensures DecodeURIComponent(s).Some? ==> EscapesComplete(s)
    decreases |s|
  {
    if s != [] && DecodeURIComponent(s).Some? {
      if s[0] != '%' {
        DecodedEscapesComplete(s[1..]);
        forall i | 1 <= i < |s| && s[i] == '%'
          ensures EscapedByte(s[i..]).Some?
        {
          assert s[i..] == s[1..][i - 1..];
        }
      } else {
        var b := EscapedByte(s).value;
        var n := if b < 0x80 then 1 else LeadingOnes(b);
        if b >= 0x80 {
          ContinuationsComplete(s[3..], n - 1, LeadBits(b, n));
          forall i | 3 <= i < 3 * n && s[i] == '%'
            ensures EscapedByte(s[i..]).Some?
          {
            assert s[i..] == s[3..][i - 3..];
          }
        }
        DecodedEscapesComplete(s[3 * n..]);
        forall i | 3 * n <= i < |s| && s[i] == '%'
          ensures EscapedByte(s[i..]).Some?
        {
          assert s[i..] == s[3 * n..][i - 3 * n..];
        }
      }
    }
  }

  /** A `%` anywhere without two hexadecimal digits after it makes decoding throw. */
  lemma DecodeTruncatedEscape(s: string, i: nat)
    requires i < |s| && s[i] == '%' && EscapedByte(s[i..]).None?
    ensures DecodeURIComponent(s) == None
  {
    DecodedEscapesComplete(s);
  }

  /** Reading continuation bytes looks at nothing after the bytes it reads. */
  lemma {:induction false} ContinuationsAppend(s: string, x: string, count: nat, acc: int)
    requires Continuations(s, count, acc).Some?
    ensures Continuations(s + x, count, acc) == Continuations(s, count, acc)
    decreases count
  {
    if count > 0 {
      var b := EscapedByte(s).value;
      assert (s + x)[..3] == s[..3];
      assert EscapedByte(s + x) == Some(b);
      assert (s + x)[3..] == s[3..] + x;
      ContinuationsAppend(s[3..], x, count - 1, acc * 64 + (b - 0x80));
    }
  }

  /** The decoding of `p`, in front of the decoding of the text after it. */
  function Concat(p: string, r: Option<string>): (c: Option<string>)
    ensures c.Some? <==> r.Some?
    ensures c.Some? ==> c.value == p + r.value
  {
    match r
    case None => None
    case Some(t) => Some(p + t)
  }

  /** Text that decodes decodes the same way in front of more text; the rest is decoded on its own. */
  lemma {:induction false} DecodeAppend(p: string, s: string)
    requires DecodeURIComponent(p).Some?
    ensures DecodeURIComponent(p + s) == Concat(DecodeURIComponent(p).value, DecodeURIComponent(s))
    decreases |p|
  {
    if p == [] {
      assert p + s == s;
      var r := DecodeURIComponent(s);
      if r.Some? {
        assert p + r.value == r.value;
      }
    } else if p[0] != '%' {
      AppendPlain(p, s);
      DecodeAppend(p[1..], s);
      PrependConcat(p[0], DecodeURIComponent(p[1..]).value, DecodeURIComponent(s));
    } else {
      var b := EscapedByte(p).value;
      if b < 0x80 {
        AppendByte(p, s, b);
        DecodeAppend(p[3..], s);
        PrependConcat(b as char, DecodeURIComponent(p[3..]).value, DecodeURIComponent(s));
      } else {
        var n := LeadingOnes(b);
        var v := AppendSequence(p, s, b);
        DecodeAppend(p[3 * n..], s);
        PrependConcat(v as char, DecodeURIComponent(p[3 * n..]).value, DecodeURIComponent(s));
      }
    }
  }

  /** A character other than `%` decodes as itself, whatever follows. */
  lemma AppendPlain(p: string, s: string)
    requires p != [] && p[0] != '%'
    ensures DecodeURIComponent(p) == Prepend(p[0], DecodeURIComponent(p[1..]))
    ensures DecodeURIComponent(p + s) == Prepend(p[0], DecodeURIComponent(p[1..] + s))
  {
    assert (p + s)[1..] == p[1..] + s;
  }

  /** An escaped ASCII byte decodes as its character, whatever follows. */
  lemma AppendByte(p: string, s: string, b: nat)
    requires EscapedByte(p) == Some(b) && b < 0x80
    ensures DecodeURIComponent(p) == Prepend(b as char, DecodeURIComponent(p[3..]))
    ensures DecodeURIComponent(p + s) == Prepend(b as char, DecodeURIComponent(p[3..] + s))
  {
    assert (p + s)[..3] == p[..3];
    assert (p + s)[3..] == p[3..] + s;
  }

  /** A multi-byte sequence that decodes decodes the same way whatever follows; `v` is its value. */
  lemma AppendSequence(p: string, s: string, b: nat) returns (v: int)
    requires EscapedByte(p) == Some(b) && b >= 0x80 && DecodeURIComponent(p).Some?
    ensures 2 <= LeadingOnes(b) <= 4 && 3 * LeadingOnes(b) <= |p|
    ensures 0 <= v < 0x110000 && !(0xD800 <= v < 0xE000)
    ensures DecodeURIComponent(p) == Prepend(v as char, DecodeURIComponent(p[3 * LeadingOnes(b)..]))
    ensures DecodeURIComponent(p + s) == Prepend(v as char, DecodeURIComponent(p[3 * LeadingOnes(b)..] + s))
  {
    var n := LeadingOnes(b);
    v := Continuations(p[3..], n - 1, LeadBits(b, n)).value;
    assert (p + s)[..3] == p[..3];
    assert (p + s)[3..] == p[3..] + s;
    ContinuationsAppend(p[3..], s, n - 1, LeadBits(b, n));
    assert (p + s)[3 * n..] == p[3 * n..] + s;
  }

  lemma PrependConcat(c: char, t: string, r: Option<string>)
    ensures Prepend(c, Concat(t, r)) == Concat([c] + t, r)
  {
    if r.Some? {
      assert [c] + (t + r.value) == ([c] + t) + r.value;
    }
  }

  function Pow64(n: nat): nat {
    if n == 0 then 1 else 64 * Pow64(n - 1)
  }

  /** `count` continuation bytes append `6 * count` bits to `acc`. */
  lemma {:induction false} ContinuationsBound(s: string, count: nat, acc: nat)
    requires Continuations(s, count, acc).Some?
    ensures acc * Pow64(count) <= Continuations(s, count, acc).value < (acc + 1) * Pow64(count)
    decreases count
  {
    if count > 0 {
      var b := EscapedByte(s).value;
      var d := b - 0x80;
      assert Continuations(s, count, acc) == Continuations(s[3..], count - 1, acc * 64 + d);
      ContinuationsBound(s[3..], count - 1, acc * 64 + d);
      ShiftBounds(acc, d, Pow64(count - 1), Continuations(s, count, acc).value);
    }
  }

  /** Six more bits keep the value within the range its leading bits allow. */
  lemma ShiftBounds(acc: nat, d: nat, p: nat, v: int)
    requires d < 64
    requires (acc * 64 + d) * p <= v < (acc * 64 + d + 1) * p
    ensures acc * (64 * p) <= v < (acc + 1) * (64 * p)
  {
    assert acc * (64 * p) == (acc * 64) * p <= (acc * 64 + d) * p;
    assert (acc * 64 + d + 1) * p <= (acc * 64 + 64) * p == (acc + 1) * (64 * p);
  }

  /** The bytes that never start a UTF-8 sequence: continuations, the overlong `C0` and `C1`, and `F5` to `FF`. */
  predicate NeverLeads(b: nat) {
    (0x80 <= b < 0xC2) || 0xF5 <= b
  }

  /** An escape at the front of the text of a byte that never starts a sequence throws. */
  lemma NeverLeadingByte(s: string, b: nat)
    requires EscapedByte(s) == Some(b) && NeverLeads(b)
    ensures DecodeURIComponent(s) == None
  {
    var n := LeadingOnes(b);
    if n == 2 {
      var r := Continuations(s[3..], 1, b - 0xC0);
      if r.Some? {
        ContinuationsBound(s[3..], 1, b - 0xC0);
      }
    } else if n == 4 {
      var r := Continuations(s[3..], 3, b - 0xF0);
      if r.Some? {
        ContinuationsBound(s[3..], 3, b - 0xF0);
        assert Pow64(3) == 262144;
      }
    }
  }

  /** A byte that never starts a UTF-8 sequence, escaped after text that decodes, makes decoding throw. */
  lemma DecodeMalformedUtf8(p: string, s: string, b: nat)
    requires DecodeURIComponent(p).Some?
    requires EscapedByte(s) == Some(b) && NeverLeads(b)
    ensures DecodeURIComponent(p + s) == None
  {
    DecodeAppend(p, s);
    NeverLeadingByte(s, b);
  }

  /** An encoded character cut inside its escapes throws: a `%` lacks its digits or a continuation is missing. */
  lemma EncodeCharPrefix(c: char, k: nat)
    requires 0 < k < |EncodeChar(c)|
    ensures DecodeURIComponent(EncodeChar(c)[..k]) == None
  {
    var bs := Utf8(c);
    var e := EscapeBytes(bs);
    var t := e[..k];
    UriRoundTrip.EscapeBytesCons(bs, []);
    assert e == EscapeByte(bs[0]) + EscapeBytes(bs[1..]);
    if k >= 3 {
      UriRoundTrip.Utf8Decodes(c);
      var rest := t[3..];
      assert t == EscapeByte(bs[0]) + rest;
      UriRoundTrip.EscapedByteRoundTrip(bs[0], rest);
      assert |rest| < 3 * (|bs| - 1);
    } else {
      assert t[0] == '%';
    }
  }

  /** Decoding threw, or gave a proper prefix of `t`. */
  predicate NoneOrProperPrefix(r: Option<string>, t: string) {
    r.Some? ==> |r.value| < |t| && r.value == t[..|r.value|]
  }

  /**
   * `encodeURIComponent(s)` cut anywhere before its end throws on decoding, or decodes to a
   * proper prefix of `s`.
   */
  lemma {:induction false} DecodeTruncated(s: string, k: nat)
    requires k < |EncodeURIComponent(s)|
    ensures NoneOrProperPrefix(DecodeURIComponent(EncodeURIComponent(s)[..k]), s)
    decreases |s|
  {
    var enc := EncodeURIComponent(s);
    var e := EncodeChar(s[0]);
    var x := EncodeURIComponent(s[1..]);
    assert enc == e + x;
    if 0 < k < |e| {
      assert enc[..k] == e[..k];
      EncodeCharPrefix(s[0], k);
    } else if k >= |e| {
      assert enc[..k] == e + x[..k - |e|];
      DecodeTruncated(s[1..], k - |e|);
      PrependPrefix(s[0], s[1..], x[..k - |e|]);
      assert [s[0]] + s[1..] == s;
    }
  }

  /** A character decoded in front of a proper prefix of `t` gives a proper prefix of `[c] + t`. */
  lemma PrependPrefix(c: char, t: string, cut: string)
    requires NoneOrProperPrefix(DecodeURIComponent(cut), t)
    ensures NoneOrProperPrefix(DecodeURIComponent(EncodeChar(c) + cut), [c] + t)
  {
    UriRoundTrip.DecodeStep(c, cut);
  }
}
