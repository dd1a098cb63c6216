/**
 * JSON values as `JSON.stringify` writes them and `JSON.parse` reads them
 * (RFC 8259; sections 25.5.1 and 25.5.2 of ECMA-262), restricted to integer numbers.
 */
module Json {
  import opened Wrappers
  import opened Decimal
  import opened Hex

  /** A JSON value; an object keeps its members in property order. */
  datatype Json =
    | JNull
    | JBool(bit: bool)
    | JNum(num: int)
    | JStr(str: string)
    | JArr(items: seq<Json>)
    | JObj(members: seq<Member>)

  datatype Member = Member(key: string, value: Json)

  predicate DistinctKeys(ms: seq<Member>) {
    forall i, j :: 0 <= i < j < |ms| ==> ms[i].key != ms[j].key
  }

  predicate HasKey(ms: seq<Member>, key: string) {
    exists i :: 0 <= i < |ms| && ms[i].key == key
  }

  /** Every object, at every depth, names each property once, as a JavaScript object does. */
  predicate WellFormed(v: Json)
    decreases v
  {
    match v
    case JArr(items) => forall i :: 0 <= i < |items| ==> WellFormed(items[i])
    case JObj(ms) => DistinctKeys(ms) && forall i :: 0 <= i < |ms| ==> WellFormed(ms[i].value)
    case _ => true
  }

  /** A value a `PayloadObject` may hold: a number, string, boolean or nested object, no arrays. */
  predicate IsPayloadValue(v: Json)
    decreases v
  {
    match v
    case JNum(_) => true
    case JStr(_) => true
    case JBool(_) => true
    case JObj(ms) => DistinctKeys(ms) && forall i :: 0 <= i < |ms| ==> IsPayloadValue(ms[i].value)
    case _ => false
  }

  /** The `PayloadObject` type of the bot utilities: an object of payload values. */
  predicate IsPayload(v: Json) {
    v.JObj? && IsPayloadValue(v)
  }

  lemma {:induction false} PayloadValueWellFormed(v: Json)
    requires IsPayloadValue(v)
    ensures WellFormed(v)
    decreases v
  {
    if v.JObj? {
      forall i | 0 <= i < |v.members|
        ensures WellFormed(v.members[i].value)
      {
        PayloadValueWellFormed(v.members[i].value);
      }
    }
  }

  /** The value of the first member called `key`, `None` for `undefined`. */
  function Lookup(ms: seq<Member>, key: string): (r: Option<Json>)
    ensures r.Some? <==> HasKey(ms, key)
    ensures r.Some? ==> exists i :: 0 <= i < |ms| && ms[i] == Member(key, r.value)
  {
    if ms == [] then None
    else if ms[0].key == key then Some(ms[0].value)
    else
      var r := Lookup(ms[1..], key);
      assert forall i :: 0 <= i < |ms| - 1 ==> ms[1..][i] == ms[i + 1];
      r
  }

  /**
   * `v?.[key]` on a parsed value: a property of an object; `undefined` for a
   * missing value, a missing property, or any value that is not an object.
   */
  function Get(v: Option<Json>, key: string): (r: Option<Json>)
    ensures r.Some? <==> v.Some? && v.value.JObj? && HasKey(v.value.members, key)
  {
    if v.Some? && v.value.JObj? then Lookup(v.value.members, key) else None
  }

  /** `v?.[key] === s` for a string `s`. */
  predicate StrictEqualsString(v: Option<Json>, key: string, s: string) {
    Get(v, key) == Some(JStr(s))
  }

  // ---------------------------------------------------------------- stringify

  /** One character inside a JSON string literal, escaped as `JSON.stringify` escapes it. */
  function EscapeChar(c: char): (r: string)
    ensures |r| >= 1 && r[0] != '\"'
    ensures r[0] == '\\' <==> (c == '\"' || c == '\\' || c < ' ')
  {
    if c == '\"' then "\\\""
    else if c == '\\' then "\\\\"
    else if c == '\U{0008}' then "\\b"
    else if c == '\U{000C}' then "\\f"
    else if c == '\n' then "\\n"
    else if c == '\r' then "\\r"
    else if c == '\t' then "\\t"
    else if c < ' ' then "\\u00" + [LowerDigit(c as int / 16), LowerDigit(c as int % 16)]
    else [c]
  }

  function Escape(s: string): string {
    if s == [] then [] else EscapeChar(s[0]) + Escape(s[1..])
  }

  /** A JSON string literal for `s`. */
  function Quote(s: string): string {
    "\"" + Escape(s) + "\""
  }

  /** `JSON.stringify(v)`: the compact text, without any white space. */
  function Stringify(v: Json): (r: string)
    decreases v, 1
  {
    match v
    case JNull => "null"
    case JBool(b) => if b then "true" else "false"
    case JNum(n) => IntToString(n)
    case JStr(s) => Quote(s)
    case JArr(items) => "[" + StringifyItems(items) + "]"
    case JObj(ms) => "{" + StringifyMembers(ms) + "}"
  }

  /** The elements of an array, separated by commas. */
  function StringifyItems(items: seq<Json>): string
    decreases items, 0
  {
    if items == [] then ""
    else if |items| == 1 then Stringify(items[0])
    else Stringify(items[0]) + "," + StringifyItems(items[1..])
  }

  function StringifyMember(m: Member): string
    decreases m, 0
  {
    Quote(m.key) + ":" + Stringify(m.value)
  }

  /** The members of an object as `"key":value`, separated by commas. */
  function StringifyMembers(ms: seq<Member>): string
    decreases ms, 0
  {
    if ms == [] then ""
    else if |ms| == 1 then StringifyMember(ms[0])
    else StringifyMember(ms[0]) + "," + StringifyMembers(ms[1..])
  }

  // -------------------------------------------------------------------- parse

  predicate IsJsonWhiteSpace(c: char) {
    c == ' ' || c == '\t' || c == '\n' || c == '\r'
  }

  /** The text after its leading JSON white space. */
  function SkipWs(s: string): (r: string)
    ensures |r| <= |s|
    ensures r == [] || !IsJsonWhiteSpace(r[0])
  {
    if s != [] && IsJsonWhiteSpace(s[0]) then SkipWs(s[1..]) else s
  }

  predicate StartsWith(s: string, prefix: string) {
    |prefix| <= |s| && s[..|prefix|] == prefix
  }

  /** A surrogate half, which a Unicode scalar value can never be. */
  predicate IsSurrogate(code: nat) {
    0xD800 <= code < 0xE000
  }

  /** The character a one-letter escape `\e` stands for. */
  function ShortEscape(e: char): Option<char> {
    if e == '\"' then Some('\"')
    else if e == '\\' then Some('\\')
    else if e == '/' then Some('/')
    else if e == 'b' then Some('\U{0008}')
    else if e == 'f' then Some('\U{000C}')
    else if e == 'n' then Some('\n')
    else if e == 'r' then Some('\r')
    else if e == 't' then Some('\t')
    else None
  }

  /** The code unit of a `\uXXXX` escape whose four digits start `s`. */
  function CodeUnit(s: string): (code: nat)
    requires |s| >= 4 && IsHexDigit(s[0]) && IsHexDigit(s[1]) && IsHexDigit(s[2]) && IsHexDigit(s[3])
    ensures code < 0x10000
  {
    ByteValue(s[0], s[1]) * 256 + ByteValue(s[2], s[3])
  }

  /** The escape sequence (after its backslash) at the front of `s`: its character and length. */
  function ParseEscape(s: string): (r: Option<(char, nat)>)
    ensures r.Some? ==> 1 <= r.value.1 <= |s|
  {
    if s == [] then None
    else if s[0] == 'u' then
      if |s| >= 5 && IsHexDigit(s[1]) && IsHexDigit(s[2]) && IsHexDigit(s[3]) && IsHexDigit(s[4]) then
        var code := CodeUnit(s[1..5]);
        if IsSurrogate(code) then None else Some((code as char, 5))
      else None
    else
      match ShortEscape(s[0])
      case Some(c) => Some((c, 1))
      case None => None
  }

  /** The body of a string literal after its opening quote, and the text after the closing one. */
  function ParseString(s: string): (r: Option<(string, string)>)
    ensures r.Some? ==> |r.value.1| < |s|
  {
    if s == [] then None
    else if s[0] == '\"' then Some(([], s[1..]))
    else if s[0] == '\\' then
      match ParseEscape(s[1..])
      case None => None
      case Some((c, n)) =>
        match ParseString(s[1 + n..])
        case None => None
        case Some((body, rest)) => Some(([c] + body, rest))
    else if s[0] < ' ' then None
    else
      match ParseString(s[1..])
      case None => None
      case Some((body, rest)) => Some(([s[0]] + body, rest))
  }

  /**
   * The digits of a number without its sign: `0` or a digit run without a leading
   * zero. A fraction or an exponent after them is refused (integers only).
   */
  function ParseUnsigned(u: string): (r: Option<(nat, string)>)
    ensures r.Some? ==> |r.value.1| < |u|
  {
    if u == [] || !IsDigit(u[0]) then None
    else
      var digits := if u[0] == '0' then u[..1] else LeadingDigits(u);
      var rest := u[|digits|..];
      if rest != [] && (rest[0] == '.' || rest[0] == 'e' || rest[0] == 'E') then None
      else Some((DigitsValue(digits), rest))
  }

  /** A number at the front of `t`: an optional minus sign and its digits. */
  function ParseNumber(t: string): (r: Option<(Json, string)>)
    ensures r.Some? ==> |r.value.1| < |t|
  {
    if t != [] && t[0] == '-' then
      match ParseUnsigned(t[1..])
      case None => None
      case Some((m, rest)) => Some((JNum(-(m as int)), rest))
    else
      match ParseUnsigned(t)
      case None => None
      case Some((m, rest)) => Some((JNum(m), rest))
  }

  /** The first position holding `key`, `None` when no member has it. */
  function KeyIndex(ms: seq<Member>, key: string): (r: Option<nat>)
    ensures r.None? <==> !HasKey(ms, key)
    ensures r.Some? ==> r.value < |ms| && ms[r.value].key == key
  {
    if ms == [] then None
    else if ms[0].key == key then Some(0)
    else
      match KeyIndex(ms[1..], key)
      case None =>
        assert forall i :: 1 <= i < |ms| ==> ms[i] == ms[1..][i - 1];
        None
      case Some(k) => Some(k + 1)
  }

  /** Sets property `key` as `JSON.parse` does: a repeated key keeps its place and takes the new value. */
  function Assign(ms: seq<Member>, key: string, value: Json): (r: seq<Member>)
    ensures HasKey(ms, key) ==> |r| == |ms|
    ensures !HasKey(ms, key) ==> r == ms + [Member(key, value)]
    ensures forall i :: 0 <= i < |r| ==> r[i] == Member(key, value) || (i < |ms| && r[i] == ms[i])
    ensures HasKey(r, key)
  {
    match KeyIndex(ms, key)
    case None =>
      var r := ms + [Member(key, value)];
      assert r[|ms|].key == key;
      r
    case Some(k) =>
      var r := ms[k := Member(key, value)];
      assert r[k].key == key;
      r
  }

  /** The object `JSON.parse` builds from the members in the order written. */
  function BuildObject(ms: seq<Member>): (r: seq<Member>)
    ensures DistinctKeys(r)
  {
    if ms == [] then []
    else
      var init := BuildObject(ms[..|ms| - 1]);
      AssignDistinct(init, ms[|ms| - 1].key, ms[|ms| - 1].value);
      Assign(init, ms[|ms| - 1].key, ms[|ms| - 1].value)
  }

  /** Setting a property of an object whose keys are distinct keeps them distinct. */
  lemma AssignDistinct(ms: seq<Member>, key: string, value: Json)
    requires DistinctKeys(ms)
    ensures DistinctKeys(Assign(ms, key, value))
  {
    var r := Assign(ms, key, value);
    match KeyIndex(ms, key)
    case None =>
      forall i, j | 0 <= i < j < |r|
        ensures r[i].key != r[j].key
      {
        if j == |ms| {
          assert r[i] == ms[i];
        }
      }
    case Some(k) =>
      assert r == ms[k := Member(key, value)];
  }

  /** A value at the front of `s` (after white space), and the text after it. */
  function ParseValue(s: string): (r: Option<(Json, string)>)
    decreases |s|, 0
    ensures r.Some? ==> |r.value.1| < |s|
  {
    var t := SkipWs(s);
    if t == [] then None
    else if t[0] == '{' then ParseObject(t[1..])
    else if t[0] == '[' then ParseArray(t[1..])
    else if t[0] == '\"' then
      match ParseString(t[1..])
      case None => None
      case Some((body, rest)) => Some((JStr(body), rest))
    else if StartsWith(t, "true") then Some((JBool(true), t[4..]))
    else if StartsWith(t, "false") then Some((JBool(false), t[5..]))
    else if StartsWith(t, "null") then Some((JNull, t[4..]))
    else ParseNumber(t)
  }

  /** The elements of a non-empty array after `[`, up to and including `]`. */
  function ParseElements(s: string): (r: Option<(seq<Json>, string)>)
    decreases |s|, 1
    ensures r.Some? ==> |r.value.1| < |s|
  {
    match ParseValue(s)
    case None => None
    case Some((v, rest)) =>
      var t := SkipWs(rest);
      if t == [] then None
      else if t[0] == ']' then Some(([v], t[1..]))
      else if t[0] == ',' then
        match ParseElements(t[1..])
        case None => None
        case Some((vs, rest')) => Some(([v] + vs, rest'))
      else None
  }

  /** An array after its `[`. */
  function ParseArray(s: string): (r: Option<(Json, string)>)
    decreases |s|, 2
    ensures r.Some? ==> |r.value.1| < |s|
  {
    var t := SkipWs(s);
    if t != [] && t[0] == ']' then Some((JArr([]), t[1..]))
    else
      match ParseElements(s)
      case None => None
      case Some((vs, rest)) => Some((JArr(vs), rest))
  }

  /** One `"key": value` member at the front of `s` (after white space). */
  function ParseMember(s: string): (r: Option<(Member, string)>)
    decreases |s|, 0
    ensures r.Some? ==> |r.value.1| < |s|
  {
    var t := SkipWs(s);
    if t == [] || t[0] != '\"' then None
    else
      match ParseString(t[1..])
      case None => None
      case Some((key, rest)) =>
        var t' := SkipWs(rest);
        if t' == [] || t'[0] != ':' then None
        else
          match ParseValue(t'[1..])
          case None => None
          case Some((v, rest')) => Some((Member(key, v), rest'))
  }

  /** The members of a non-empty object after `{`, up to and including `}`, in the order written. */
  function ParseMembers(s: string): (r: Option<(seq<Member>, string)>)
    decreases |s|, 1
    ensures r.Some? ==> |r.value.1| < |s|
  {
    match ParseMember(s)
    case None => None
    case Some((m, rest)) =>
      var t := SkipWs(rest);
      if t == [] then None
      else if t[0] == '}' then Some(([m], t[1..]))
      else if t[0] == ',' then
        match ParseMembers(t[1..])
        case None => None
        case Some((ms, rest')) => Some(([m] + ms, rest'))
      else None
  }

  /** An object after its `{`. */
  function ParseObject(s: string): (r: Option<(Json, string)>)
    decreases |s|, 2
    ensures r.Some? ==> |r.value.1| < |s|
  {
    var t := SkipWs(s);
    if t != [] && t[0] == '}' then Some((JObj([]), t[1..]))
    else
      match ParseMembers(s)
      case None => None
      case Some((ms, rest)) => Some((JObj(BuildObject(ms)), rest))
  }

  /** `JSON.parse(s)`: one value surrounded by optional white space; `None` where it throws. */
  function Parse(s: string): Option<Json> {
    match ParseValue(s)
    case None => None
    case Some((v, rest)) => if SkipWs(rest) == [] then Some(v) else None
  }
}
