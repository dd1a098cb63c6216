/**
 * The hidden payload of `src/bot/utils.ts`: a JSON object that rides along with a
 * message as the URL of a `text_link` entity over a leading zero-width space, and is
 * read back from the message a user replies to.
 */
module HiddenPayload {
  import opened Wrappers
  import opened Json
  import opened Uri
  import opened Telegram
  import JsonRoundTrip
  import UriRoundTrip
  import UriErrors
  import JsonPrefix

  const ZeroWidthSpace: char := '\U{200B}'

  /** The address the payload entity's URL starts with; `.invalid` never resolves. */
  const PayloadUrlPrefix: string := "http://x-bot-payload.invalid/"

  /** `withHiddenPayload(text)`: the text behind one zero-width space for the entity to cover. */
  function WithHiddenPayload(text: string): (r: string)
    ensures |r| == |text| + 1
    ensures r[0] == ZeroWidthSpace && r[1..] == text
  {
    [ZeroWidthSpace] + text
  }

  /** The URL `hiddenPayload` gives the entity: the prefix, then the percent-encoded JSON. */
  function PayloadUrl(payload: Json): (url: string)
    ensures StartsWith(url, PayloadUrlPrefix)
    ensures url[|PayloadUrlPrefix|..] == EncodeURIComponent(Stringify(payload))
  {
    var url := PayloadUrlPrefix + EncodeURIComponent(Stringify(payload));
    assert url[..|PayloadUrlPrefix|] == PayloadUrlPrefix;
    url
  }

  /** `hiddenPayload(payload).entities`: one `text_link` over the first character. */
  function HiddenPayloadEntities(payload: Json): (es: seq<Entity>)
    ensures |es| == 1
    ensures es[0].kind == "text_link" && es[0].offset == 0 && es[0].length == 1
    ensures es[0].url.Some? && StartsWith(es[0].url.value, PayloadUrlPrefix)
    ensures DecodeURIComponent(es[0].url.value[|PayloadUrlPrefix|..]) == Some(Stringify(payload))
  {
    var url := PayloadUrl(payload);
    UriRoundTrip.DecodeEncode(Stringify(payload));
    [Entity("text_link", 0, 1, Some(url))]
  }

  predicate IsPayloadEntity(e: Entity) {
    e.url.Some? && StartsWith(e.url.value, PayloadUrlPrefix)
  }

  /** `entities.find(p => p.url?.startsWith(prefix))`. */
  function FindPayloadEntity(es: seq<Entity>): (r: Option<Entity>)
    ensures r.None? <==> forall i :: 0 <= i < |es| ==> !IsPayloadEntity(es[i])
    ensures r.Some? ==> exists i :: (0 <= i < |es| && es[i] == r.value && IsPayloadEntity(es[i])
      && forall j :: 0 <= j < i ==> !IsPayloadEntity(es[j]))
  {
    if es == [] then None
    else if IsPayloadEntity(es[0]) then Some(es[0])
    else
      var r := FindPayloadEntity(es[1..]);
      assert forall i :: 0 <= i < |es| - 1 ==> es[1..][i] == es[i + 1];
      if r.Some? then
        var i :| 0 <= i < |es[1..]| && es[1..][i] == r.value
          && IsPayloadEntity(es[1..][i]) && forall j :: 0 <= j < i ==> !IsPayloadEntity(es[1..][j]);
        assert es[i + 1] == r.value && forall j :: 0 <= j < i + 1 ==> !IsPayloadEntity(es[j]);
        r
      else r
  }

  /** The text of `s` up to the first place `sep` starts, all of `s` when it never does. */
  function TakeUntil(s: string, sep: string): (r: string)
    ensures |r| <= |s| && r == s[..|r|]
    ensures |r| < |s| ==> StartsWith(s[|r|..], sep)
    ensures forall k :: 0 <= k < |r| ==> !StartsWith(s[k..], sep)
  {
    if s == [] || StartsWith(s, sep) then []
    else
      var tail := TakeUntil(s[1..], sep);
      assert forall k :: 1 <= k <= |s| ==> s[k..] == s[1..][k - 1..];
      [s[0]] + tail
  }

  /**
   * The second piece of `url.split(prefix)` for a URL that starts with the prefix:
   * what follows the prefix, up to the next occurrence of the prefix.
   */
  function PayloadSegment(url: string): (r: string)
    requires StartsWith(url, PayloadUrlPrefix)
    ensures |r| <= |url| - |PayloadUrlPrefix| && r == url[|PayloadUrlPrefix|..][..|r|]
    ensures |r| < |url| - |PayloadUrlPrefix| ==> StartsWith(url[|PayloadUrlPrefix|..][|r|..], PayloadUrlPrefix)
    ensures forall k :: 0 <= k < |r| ==> !StartsWith(url[|PayloadUrlPrefix|..][k..], PayloadUrlPrefix)
  {
    TakeUntil(url[|PayloadUrlPrefix|..], PayloadUrlPrefix)
  }

  /** `JSON.parse(text)` as the caller sees it: a thrown error and a parsed `null` are both `null`. */
  function ParseNonNull(text: string): (r: Option<Json>)
    ensures r.Some? ==> Parse(text) == r && r.value != JNull
    ensures r.None? ==> Parse(text) == None || Parse(text) == Some(JNull)
  {
    match Parse(text)
    case Some(v) => if v == JNull then None else Some(v)
    case None => None
  }

  /**
   * `getHiddenPayload(message)`: the payload of the first entity whose URL starts with the
   * prefix; `None` (`null`) when there are no entities, none has the prefix, the segment after
   * the prefix is empty, or the segment does not percent-decode or parse.
   */
  function GetHiddenPayload(m: Message): (r: Option<Json>)
    ensures m.entities.None? ==> r.None?
    ensures r.Some? ==> r.value != JNull
  {
    match m.entities
    case None => None
    case Some(es) =>
      match FindPayloadEntity(es)
      case None => None
      case Some(e) =>
        var segment := PayloadSegment(e.url.value);
        if segment == [] then None
        else
          match DecodeURIComponent(segment)
          case None => None
          case Some(text) => ParseNonNull(text)
  }

  /** A message that carries `hiddenPayload(payload)`, whatever else it holds. */
  function WithPayload(m: Message, payload: Json): (r: Message)
    ensures r.entities == Some(HiddenPayloadEntities(payload))
  {
    m.(entities := Some(HiddenPayloadEntities(payload)))
  }

  /** A text with no character of `sep` at some position `k` holds no occurrence of `sep`. */
  lemma {:induction false} TakeUntilMissing(s: string, sep: string, k: nat)
    requires k < |sep|
    requires forall i :: 0 <= i < |s| ==> s[i] != sep[k]
    ensures TakeUntil(s, sep) == s
  {
    if s != [] {
      assert !StartsWith(s, sep) by {
        if |s| >= |sep| {
          assert s[..|sep|][k] == s[k];
        }
      }
      TakeUntilMissing(s[1..], sep, k);
      assert [s[0]] + s[1..] == s;
    }
  }

  /** The percent-encoded JSON is exactly what the split at the prefix yields. */
  lemma SegmentOfPayloadUrl(payload: Json)
    ensures PayloadSegment(PayloadUrl(payload)) == EncodeURIComponent(Stringify(payload))
  {
    var encoded := EncodeURIComponent(Stringify(payload));
    UriRoundTrip.EncodedHasNoSeparators(Stringify(payload));
    assert PayloadUrlPrefix[4] == ':';
    TakeUntilMissing(encoded, PayloadUrlPrefix, 4);
  }

  /** Round trip: the payload a message was sent with is the payload read back from it. */
  lemma HiddenPayloadRoundTrip(m: Message, payload: Json)
    requires WellFormed(payload) && payload != JNull
    ensures GetHiddenPayload(WithPayload(m, payload)) == Some(payload)
  {
    var es := HiddenPayloadEntities(payload);
    assert FindPayloadEntity(es) == Some(es[0]);
    SegmentOfPayloadUrl(payload);
    JsonRoundTrip.ParseStringify(payload);
    var encoded := EncodeURIComponent(Stringify(payload));
    JsonRoundTrip.StringifyStart(payload);
    assert encoded != [];
  }

  /** Every `PayloadObject` survives the round trip. */
  lemma PayloadObjectRoundTrip(m: Message, payload: Json)
    requires IsPayload(payload)
    ensures GetHiddenPayload(WithPayload(m, payload)) == Some(payload)
  {
    PayloadValueWellFormed(payload);
    HiddenPayloadRoundTrip(m, payload);
  }

  /** With several payload entities, the first one in list order is read. */
  lemma FirstEntityWins(m: Message, first: Json, second: Json)
    requires WellFormed(first) && first != JNull
    ensures var es := HiddenPayloadEntities(first) + HiddenPayloadEntities(second);
      GetHiddenPayload(m.(entities := Some(es))) == Some(first)
  {
    var es := HiddenPayloadEntities(first) + HiddenPayloadEntities(second);
    assert FindPayloadEntity(es) == Some(es[0]);
    assert es[0] == HiddenPayloadEntities(first)[0];
    HiddenPayloadRoundTrip(m, first);
  }

  /** A message without a payload entity reads as `null`. */
  lemma NoPayloadEntity(m: Message)
    requires m.entities.Some?
    requires forall i :: 0 <= i < |m.entities.value| ==> !IsPayloadEntity(m.entities.value[i])
    ensures GetHiddenPayload(m) == None
  {
  }

  /** A payload entity with nothing between the prefix and its next occurrence reads as `null`. */
  lemma EmptySegment(m: Message, e: Entity)
    requires m.entities.Some? && FindPayloadEntity(m.entities.value) == Some(e)
    requires PayloadSegment(e.url.value) == []
    ensures GetHiddenPayload(m) == None
  {
  }

  /** A segment that does not percent-decode reads as `null`. */
  lemma UndecodableSegment(m: Message, e: Entity)
    requires m.entities.Some? && FindPayloadEntity(m.entities.value) == Some(e)
    requires DecodeURIComponent(PayloadSegment(e.url.value)) == None
    ensures GetHiddenPayload(m) == None
  {
  }

  /** A segment that decodes to text that is not JSON, or is the JSON `null`, reads as `null`. */
  lemma UnparsableSegment(m: Message, e: Entity, text: string)
    requires m.entities.Some? && FindPayloadEntity(m.entities.value) == Some(e)
    requires DecodeURIComponent(PayloadSegment(e.url.value)) == Some(text)
    requires Parse(text) == None || Parse(text) == Some(JNull)
    ensures GetHiddenPayload(m) == None
  {
  }

  /** A segment that decodes to the JSON of a value other than `null` reads as that value. */
  lemma ParsedSegment(m: Message, e: Entity, text: string, v: Json)
    requires m.entities.Some? && FindPayloadEntity(m.entities.value) == Some(e)
    requires DecodeURIComponent(PayloadSegment(e.url.value)) == Some(text)
    requires Parse(text) == Some(v) && v != JNull
    ensures GetHiddenPayload(m) == Some(v)
  {
    assert PayloadSegment(e.url.value) != [];
  }

  /**
   * A payload URL cut short anywhere reads as `null`: the prefix is gone, nothing follows it,
   * the escapes are broken, or the text is a proper prefix of the JSON, which does not parse.
   */
  lemma TruncatedPayloadUrl(m: Message, e: Entity, payload: Json, n: nat)
    requires WellFormed(payload) && !payload.JNum?
    requires n < |PayloadUrl(payload)|
    requires m.entities == Some([e]) && e.url == Some(PayloadUrl(payload)[..n])
    ensures GetHiddenPayload(m) == None
  {
    if n < |PayloadUrlPrefix| {
      assert !IsPayloadEntity(e);
      NoPayloadEntity(m);
    } else {
      TruncatedAfterPrefix(m, e, payload, n);
    }
  }

  /** A payload URL cut after its prefix reads as `null`. */
  lemma TruncatedAfterPrefix(m: Message, e: Entity, payload: Json, n: nat)
    requires WellFormed(payload) && !payload.JNum?
    requires |PayloadUrlPrefix| <= n < |PayloadUrl(payload)|
    requires m.entities == Some([e]) && e.url == Some(PayloadUrl(payload)[..n])
    ensures GetHiddenPayload(m) == None
  {
    TruncatedSegmentReadsNull(payload, n);
    assert FindPayloadEntity([e]) == Some(e);
    SegmentReadsNull(m, e);
  }

  /** The segment of a payload URL cut after its prefix is empty, does not decode, or does not parse. */
  lemma TruncatedSegmentReadsNull(payload: Json, n: nat)
    requires WellFormed(payload) && !payload.JNum?
    requires |PayloadUrlPrefix| <= n < |PayloadUrl(payload)|
    ensures var url := PayloadUrl(payload)[..n];
      && StartsWith(url, PayloadUrlPrefix)
      && var segment := PayloadSegment(url);
         segment == [] || DecodeURIComponent(segment).None? || Parse(DecodeURIComponent(segment).value) == None
  {
    TruncatedSegment(payload, n);
    TruncatedJsonReadsNull(payload, n - |PayloadUrlPrefix|);
  }

  /** A segment that is empty, does not decode, or decodes to text that does not parse reads as `null`. */
  lemma SegmentReadsNull(m: Message, e: Entity)
    requires m.entities.Some? && FindPayloadEntity(m.entities.value) == Some(e)
    requires var segment := PayloadSegment(e.url.value);
      segment == [] || DecodeURIComponent(segment).None? || Parse(DecodeURIComponent(segment).value) == None
    ensures GetHiddenPayload(m) == None
  {
    var segment := PayloadSegment(e.url.value);
    if segment == [] {
      EmptySegment(m, e);
    } else if DecodeURIComponent(segment).None? {
      UndecodableSegment(m, e);
    } else {
      UnparsableSegment(m, e, DecodeURIComponent(segment).value);
    }
  }

  /** Cut after the prefix, the payload URL still has it, and its segment is the encoding cut short. */
  lemma TruncatedSegment(payload: Json, n: nat)
    requires |PayloadUrlPrefix| <= n < |PayloadUrl(payload)|
    ensures var url := PayloadUrl(payload)[..n];
      && StartsWith(url, PayloadUrlPrefix)
      && PayloadSegment(url) == EncodeURIComponent(Stringify(payload))[..n - |PayloadUrlPrefix|]
  {
    var url := PayloadUrl(payload)[..n];
    var encoded := EncodeURIComponent(Stringify(payload));
    var k := n - |PayloadUrlPrefix|;
    assert url[..|PayloadUrlPrefix|] == PayloadUrlPrefix;
    assert url[|PayloadUrlPrefix|..] == encoded[..k];
    UriRoundTrip.EncodedHasNoSeparators(Stringify(payload));
    assert PayloadUrlPrefix[4] == ':';
    TakeUntilMissing(encoded[..k], PayloadUrlPrefix, 4);
  }

  /** The encoded JSON of a value other than a number, cut short, is empty, does not decode, or does not parse. */
  lemma TruncatedJsonReadsNull(payload: Json, k: nat)
    requires WellFormed(payload) && !payload.JNum?
    requires k < |EncodeURIComponent(Stringify(payload))|
    ensures var segment := EncodeURIComponent(Stringify(payload))[..k];
      segment == [] || DecodeURIComponent(segment).None? || Parse(DecodeURIComponent(segment).value) == None
  {
    var segment := EncodeURIComponent(Stringify(payload))[..k];
    UriErrors.DecodeTruncated(Stringify(payload), k);
    var decoded := DecodeURIComponent(segment);
    if decoded.Some? {
      JsonPrefix.ParsePrefix(payload, |decoded.value|);
    }
  }
}
