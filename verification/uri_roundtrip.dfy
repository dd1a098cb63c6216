/** `decodeURIComponent(encodeURIComponent(s))` gives `s` back for every string. */
module UriRoundTrip {
  import opened Wrappers
  import opened Hex
  import opened Uri
  import opened Sequences

  predicate IsContinuation(b: nat) {
    0x80 <= b < 0xC0
  }

  /** The value continuation bytes add, six bits each, to the bits read so far. */
  function Accumulate(acc: int, bs: seq<nat>): int
    decreases |bs|
  {
    if bs == [] then acc else Accumulate(acc * 64 + (bs[0] as int - 0x80), bs[1..])
  }

  /** A written byte reads back, and the text after its escape is left over. */
  lemma EscapedByteRoundTrip(b: nat, x: string)
    requires IsByte(b)
    ensures EscapedByte(EscapeByte(b) + x) == Some(b)
    ensures (EscapeByte(b) + x)[3..] == x
  {
    ByteRoundTrip(b);
  }

  /** Escaped continuation bytes read back as their accumulated value. */
  lemma {:induction false} ContinuationsRoundTrip(bs: seq<nat>, x: string, acc: int)
    requires forall i :: 0 <= i < |bs| ==> IsByte(bs[i]) && IsContinuation(bs[i])
    ensures Continuations(EscapeBytes(bs) + x, |bs|, acc) == Some(Accumulate(acc, bs))
    ensures (EscapeBytes(bs) + x)[3 * |bs|..] == x
  {
    if bs != [] {
      var s := EscapeBytes(bs) + x;
      var tail := EscapeBytes(bs[1..]) + x;
      var acc' := acc * 64 + (bs[0] as int - 0x80);
      EscapeBytesCons(bs, x);
      EscapedByteRoundTrip(bs[0], tail);
      assert s[3..] == tail;
      ContinuationsRoundTrip(bs[1..], x, acc');
      assert Continuations(s, |bs|, acc) == Continuations(tail, |bs| - 1, acc');
      assert s[3 * |bs|..] == tail[3 * (|bs| - 1)..];
    }
  }

  /** Escaped bytes, split after the first escape. */
  lemma EscapeBytesCons(bs: seq<nat>, x: string)
    requires bs != [] && forall i :: 0 <= i < |bs| ==> IsByte(bs[i])
    ensures EscapeBytes(bs) + x == EscapeByte(bs[0]) + (EscapeBytes(bs[1..]) + x)
  {
    var head := EscapeByte(bs[0]);
    var rest := EscapeBytes(bs[1..]);
    assert EscapeBytes(bs) == head + rest;
    Associative(head, rest, x);
  }

  /** The UTF-8 bytes of a character start with the right lead byte and rebuild its value. */
  lemma Utf8Decodes(c: char)
    ensures var bs := Utf8(c);
      && (|bs| == 1 ==> bs[0] == c as int && bs[0] < 0x80)
      && (|bs| >= 2 ==>
            && bs[0] >= 0x80 && LeadingOnes(bs[0]) == |bs|
            && (forall i :: 1 <= i < |bs| ==> IsContinuation(bs[i]))
            && Accumulate(LeadBits(bs[0], |bs|), bs[1..]) == c as int
            && IsShortestScalar(|bs|, c as int))
  {
    var cp := c as int;
    var bs := Utf8(c);
    if 0x80 <= cp < 0x800 {
      assert bs[1..] == [0x80 + cp % 64];
      assert Accumulate(cp / 64, bs[1..]) == (cp / 64) * 64 + cp % 64;
    } else if 0x800 <= cp < 0x10000 {
      var rest := [0x80 + (cp / 64) % 64, 0x80 + cp % 64];
      assert bs[1..] == rest;
      assert (cp / 4096) * 64 + (cp / 64) % 64 == cp / 64;
      assert Accumulate(cp / 64, rest[1..]) == cp;
    } else if cp >= 0x10000 {
      var rest := [0x80 + (cp / 4096) % 64, 0x80 + (cp / 64) % 64, 0x80 + cp % 64];
      assert bs[1..] == rest;
      assert (cp / 262144) * 64 + (cp / 4096) % 64 == cp / 4096;
      assert (cp / 4096) * 64 + (cp / 64) % 64 == cp / 64;
      assert Accumulate(cp / 64, rest[2..]) == cp;
      assert Accumulate(cp / 4096, rest[1..]) == cp;
    }
  }

  /** Escaped bytes of a well-formed multi-byte sequence read back as the value they carry. */
  lemma DecodeSequence(bs: seq<nat>, x: string)
    requires 2 <= |bs| <= 4
    requires forall i :: 0 <= i < |bs| ==> IsByte(bs[i])
    requires bs[0] >= 0x80 && LeadingOnes(bs[0]) == |bs|
    requires forall i :: 1 <= i < |bs| ==> IsContinuation(bs[i])
    requires IsShortestScalar(|bs|, Accumulate(LeadBits(bs[0], |bs|), bs[1..]))
    ensures var v := Accumulate(LeadBits(bs[0], |bs|), bs[1..]);
      DecodeURIComponent(EscapeBytes(bs) + x) == Prepend(v as char, DecodeURIComponent(x))
  {
    var s := EscapeBytes(bs) + x;
    var tail := EscapeBytes(bs[1..]) + x;
    assert s == EscapeByte(bs[0]) + tail;
    EscapedByteRoundTrip(bs[0], tail);
    ContinuationsRoundTrip(bs[1..], x, LeadBits(bs[0], |bs|));
    assert s[3..] == tail;
    assert s[3 * |bs|..] == tail[3 * (|bs| - 1)..];
  }

  /** One encoded character reads back before the rest of the text. */
  lemma DecodeStep(c: char, x: string)
    ensures DecodeURIComponent(EncodeChar(c) + x) == Prepend(c, DecodeURIComponent(x))
  {
    var s := EncodeChar(c) + x;
    if IsUnreserved(c) {
      assert s[0] == c && s[1..] == x;
    } else {
      var bs := Utf8(c);
      Utf8Decodes(c);
      if |bs| == 1 {
        var tail := EscapeBytes(bs[1..]) + x;
        assert tail == x;
        assert s == EscapeByte(bs[0]) + x;
        EscapedByteRoundTrip(bs[0], x);
      } else {
        DecodeSequence(bs, x);
      }
    }
  }

  /** `decodeURIComponent(encodeURIComponent(s))` is `s`. */
  lemma {:induction false} DecodeEncode(s: string)
    ensures DecodeURIComponent(EncodeURIComponent(s)) == Some(s)
  {
    if s != [] {
      DecodeStep(s[0], EncodeURIComponent(s[1..]));
      DecodeEncode(s[1..]);
      assert [s[0]] + s[1..] == s;
    }
  }

  /** Neither `:` nor `/` survives `encodeURIComponent`. */
  lemma EncodedHasNoSeparators(s: string)
    ensures forall i :: 0 <= i < |EncodeURIComponent(s)| ==>
      EncodeURIComponent(s)[i] != ':' && EncodeURIComponent(s)[i] != '/'
  {
  }
}
