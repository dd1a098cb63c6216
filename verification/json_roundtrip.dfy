/**
 * `JSON.parse(JSON.stringify(v))` gives `v` back for every value whose objects
 * name each property once, and `JSON.parse` refuses the empty text.
 */
module JsonRoundTrip {
  import opened Wrappers
  import opened Decimal
  import opened Hex
  import opened Json

  /** Text that may follow a value without being read as part of it. */
  predicate Delimited(rest: string) {
    rest == [] || rest[0] == ',' || rest[0] == ']' || rest[0] == '}'
  }

  lemma SkipWsNone(s: string)
    requires s == [] || !IsJsonWhiteSpace(s[0])
    ensures SkipWs(s) == s
  {
  }

  /** Prepends `c` to a parsed string body. */
  function Cons(c: char, r: Option<(string, string)>): Option<(string, string)> {
    match r
    case None => None
    case Some((body, rest)) => Some(([c] + body, rest))
  }

  /** Escapes written for the control characters below U+0020 read back as the character. */
  lemma UnicodeEscapeRoundTrip(c: char, x: string)
    requires c < ' '
    ensures ParseEscape(['u', '0', '0', LowerDigit(c as int / 16), LowerDigit(c as int % 16)] + x) == Some((c, 5))
  {
    var e := ['u', '0', '0', LowerDigit(c as int / 16), LowerDigit(c as int % 16)] + x;
    var digits := e[1..5];
    assert digits == ['0', '0', LowerDigit(c as int / 16), LowerDigit(c as int % 16)];
    ByteRoundTrip(c as int);
    assert CodeUnit(digits) == c as int;
  }

  /** One escaped character is read back before the rest of the literal. */
  lemma ParseStringStep(c: char, x: string)
    ensures ParseString(EscapeChar(c) + x) == Cons(c, ParseString(x))
  {
    var s := EscapeChar(c) + x;
    if c == '\"' || c == '\\' || c == '\U{0008}' || c == '\U{000C}' || c == '\n' || c == '\r' || c == '\t' {
      assert |EscapeChar(c)| == 2;
      assert s[1..] == [EscapeChar(c)[1]] + x;
      assert s[2..] == x;
    } else if c < ' ' {
      var d := [LowerDigit(c as int / 16), LowerDigit(c as int % 16)];
      assert EscapeChar(c) == "\\u00" + d;
      assert s[1..] == ['u', '0', '0', d[0], d[1]] + x;
      UnicodeEscapeRoundTrip(c, x);
      assert s[6..] == x;
    } else {
      assert EscapeChar(c) == [c];
      assert s[1..] == x;
    }
  }

  /** The body of a string literal reads back as the string. */
  lemma {:induction false} ParseStringRoundTrip(s: string, rest: string)
    ensures ParseString(Escape(s) + "\"" + rest) == Some((s, rest))
  {
    if s == [] {
      assert Escape(s) + "\"" + rest == "\"" + rest;
    } else {
      var tail := Escape(s[1..]) + "\"" + rest;
      assert Escape(s) + "\"" + rest == EscapeChar(s[0]) + tail;
      ParseStringStep(s[0], tail);
      ParseStringRoundTrip(s[1..], rest);
      assert [s[0]] + s[1..] == s;
    }
  }

  /** The digits of a natural number read back as the number. */
  lemma ParseUnsignedRoundTrip(m: nat, rest: string)
    requires Delimited(rest)
    ensures ParseUnsigned(NatToDigits(m) + rest) == Some((m, rest))
  {
    var ds := NatToDigits(m);
    var u := ds + rest;
    assert u[0] == ds[0];
    if ds[0] == '0' {
      assert ds == "0";
      assert u[..1] == ds;
      assert u[1..] == rest;
    } else {
      LeadingDigitsPrefix(ds, rest);
      assert u[|ds|..] == rest;
    }
    DigitsRoundTrip(m);
  }

  /** A negative integer reads back as itself. */
  lemma ParseNegativeRoundTrip(n: int, rest: string)
    requires n < 0
    requires Delimited(rest)
    ensures ParseNumber(IntToString(n) + rest) == Some((JNum(n), rest))
  {
    var m: nat := -n;
    var ds := NatToDigits(m);
    var u := ds + rest;
    assert IntToString(n) == ['-'] + ds;
    var t := IntToString(n) + rest;
    assert t == ['-'] + u;
    assert t[1..] == u;
    ParseUnsignedRoundTrip(m, rest);
  }

  /** A non-negative integer reads back as itself. */
  lemma ParseNonNegativeRoundTrip(n: int, rest: string)
    requires n >= 0
    requires Delimited(rest)
    ensures ParseNumber(IntToString(n) + rest) == Some((JNum(n), rest))
  {
    var ds := NatToDigits(n);
    assert IntToString(n) == ds;
    ParseUnsignedRoundTrip(n, rest);
  }

  /** An integer reads back as itself when the text after it does not continue it. */
  lemma ParseNumberRoundTrip(n: int, rest: string)
    requires Delimited(rest)
    ensures ParseNumber(IntToString(n) + rest) == Some((JNum(n), rest))
  {
    if n < 0 {
      ParseNegativeRoundTrip(n, rest);
    } else {
      ParseNonNegativeRoundTrip(n, rest);
    }
  }

  /** The first character of any written value: never white space, a comma or a closing bracket. */
  lemma StringifyStart(v: Json)
    ensures |Stringify(v)| >= 1
    ensures var c := Stringify(v)[0];
      !IsJsonWhiteSpace(c) && c != ',' && c != ']' && c != '}'
    ensures v.JNum? ==> Stringify(v)[0] == '-' || IsDigit(Stringify(v)[0])
    ensures v.JStr? ==> Stringify(v)[0] == '\"'
    ensures v.JArr? ==> Stringify(v)[0] == '['
    ensures v.JObj? ==> Stringify(v)[0] == '{'
    ensures v.JNull? || v.JBool? ==> IsLowerLetter(Stringify(v)[0])
  {
  }

  predicate IsLowerLetter(c: char) {
    'a' <= c <= 'z'
  }

  /** `null` is recognised by its first letter. */
  lemma ParseNullRoundTrip(rest: string)
    ensures ParseValue(Stringify(JNull) + rest) == Some((JNull, rest))
  {
    var t := Stringify(JNull) + rest;
    assert t[0] == 'n';
    SkipWsNone(t);
    assert t[..4] == "null" && t[4..] == rest;
  }

  /** `true` and `false` are recognised by their first letter. */
  lemma ParseBoolRoundTrip(b: bool, rest: string)
    ensures ParseValue(Stringify(JBool(b)) + rest) == Some((JBool(b), rest))
  {
    var t := Stringify(JBool(b)) + rest;
    if b {
      assert t[0] == 't';
      SkipWsNone(t);
      assert t[..4] == "true" && t[4..] == rest;
    } else {
      assert t[0] == 'f';
      SkipWsNone(t);
      assert t[..5] == "false" && t[5..] == rest;
    }
  }

  /** A number starts with a minus sign or a digit, so it reaches the number reader. */
  lemma ParseNumValueRoundTrip(n: int, rest: string)
    requires Delimited(rest)
    ensures ParseValue(Stringify(JNum(n)) + rest) == Some((JNum(n), rest))
  {
    var t := IntToString(n) + rest;
    StringifyStart(JNum(n));
    assert t[0] == Stringify(JNum(n))[0];
    ParseValueNumber(t);
    ParseNumberRoundTrip(n, rest);
  }

  /** Text starting with a minus sign or a digit goes to the number reader. */
  lemma ParseValueNumber(t: string)
    requires t != [] && (t[0] == '-' || IsDigit(t[0]))
    ensures ParseValue(t) == ParseNumber(t)
  {
    SkipWsNone(t);
    FirstCharDiffers(t, "true");
    FirstCharDiffers(t, "false");
    FirstCharDiffers(t, "null");
  }

  lemma FirstCharDiffers(t: string, prefix: string)
    requires t != [] && prefix != [] && t[0] != prefix[0]
    ensures !StartsWith(t, prefix)
  {
    if |prefix| <= |t| {
      assert t[..|prefix|][0] == t[0];
    }
  }

  /** A string value reads back as itself. */
  lemma ParseStrRoundTrip(s: string, rest: string)
    ensures ParseValue(Stringify(JStr(s)) + rest) == Some((JStr(s), rest))
  {
    var t := Stringify(JStr(s)) + rest;
    assert t == "\"" + (Escape(s) + "\"" + rest);
    SkipWsNone(t);
    assert t[1..] == Escape(s) + "\"" + rest;
    ParseStringRoundTrip(s, rest);
  }

  /** A well-formed value is read back whole, and the text after it is left over. */
  lemma {:induction false} ValueRoundTrip(v: Json, rest: string)
    requires WellFormed(v)
    requires Delimited(rest)
    ensures ParseValue(Stringify(v) + rest) == Some((v, rest))
    decreases v, 2
  {
    match v
    case JNull => ParseNullRoundTrip(rest);
    case JBool(b) => ParseBoolRoundTrip(b, rest);
    case JNum(n) => ParseNumValueRoundTrip(n, rest);
    case JStr(s) => ParseStrRoundTrip(s, rest);
    case JArr(items) => ArrayRoundTrip(items, rest);
    case JObj(ms) => ObjectRoundTrip(ms, rest);
  }

  /** An array of well-formed values reads back as itself. */
  lemma {:induction false} ArrayRoundTrip(items: seq<Json>, rest: string)
    requires forall i :: 0 <= i < |items| ==> WellFormed(items[i])
    ensures ParseValue(Stringify(JArr(items)) + rest) == Some((JArr(items), rest))
    decreases items, 1
  {
    var body := StringifyItems(items) + "]" + rest;
    var t := Stringify(JArr(items)) + rest;
    assert t == "[" + body;
    SkipWsNone(t);
    assert t[1..] == body;
    if items == [] {
      assert body == "]" + rest;
      SkipWsNone(body);
    } else {
      ItemsStart(items);
      assert body[0] == Stringify(items[0])[0];
      SkipWsNone(body);
      ItemsRoundTrip(items, rest);
    }
  }

  /** An object whose keys are distinct and whose values are well formed reads back as itself. */
  lemma {:induction false} ObjectRoundTrip(ms: seq<Member>, rest: string)
    requires DistinctKeys(ms)
    requires forall i :: 0 <= i < |ms| ==> WellFormed(ms[i].value)
    ensures ParseValue(Stringify(JObj(ms)) + rest) == Some((JObj(ms), rest))
    decreases ms, 1
  {
    var body := StringifyMembers(ms) + "}" + rest;
    var t := Stringify(JObj(ms)) + rest;
    assert t == "{" + body;
    SkipWsNone(t);
    assert t[1..] == body;
    if ms == [] {
      assert body == "}" + rest;
      SkipWsNone(body);
    } else {
      MembersStart(ms);
      SkipWsNone(body);
      MembersRoundTrip(ms, rest);
      BuildObjectDistinct(ms);
    }
  }

  lemma ItemsStart(items: seq<Json>)
    requires items != []
    ensures |StringifyItems(items)| >= 1 && StringifyItems(items)[0] == Stringify(items[0])[0]
  {
    StringifyStart(items[0]);
  }

  lemma MembersStart(ms: seq<Member>)
    requires ms != []
    ensures |StringifyMembers(ms)| >= 1 && StringifyMembers(ms)[0] == '\"'
  {
  }

  /** The elements of a non-empty array read back up to the closing bracket. */
  lemma {:induction false} ItemsRoundTrip(items: seq<Json>, rest: string)
    requires items != []
    requires forall i :: 0 <= i < |items| ==> WellFormed(items[i])
    ensures ParseElements(StringifyItems(items) + "]" + rest) == Some((items, rest))
    decreases items, 0
  {
    if |items| == 1 {
      LastItemRoundTrip(items[0], rest);
      assert [items[0]] == items;
    } else {
      ItemsRoundTrip(items[1..], rest);
      NextItemRoundTrip(items[0], items[1..], rest);
      assert [items[0]] + items[1..] == items;
    }
  }

  /** The last element reads back up to the closing bracket. */
  lemma {:induction false} LastItemRoundTrip(v: Json, rest: string)
    requires WellFormed(v)
    ensures ParseElements(StringifyItems([v]) + "]" + rest) == Some(([v], rest))
    decreases v, 3
  {
    var sep := "]" + rest;
    assert StringifyItems([v]) + "]" + rest == Stringify(v) + sep;
    ValueRoundTrip(v, sep);
    SkipWsNone(sep);
    assert sep[1..] == rest;
  }

  /** An element followed by a comma reads back, then the elements after it. */
  lemma {:induction false} NextItemRoundTrip(v: Json, tail: seq<Json>, rest: string)
    requires WellFormed(v) && tail != []
    requires ParseElements(StringifyItems(tail) + "]" + rest) == Some((tail, rest))
    ensures ParseElements(StringifyItems([v] + tail) + "]" + rest) == Some(([v] + tail, rest))
    decreases v, 3
  {
    var after := StringifyItems(tail) + "]" + rest;
    var sep := "," + after;
    ConsItemsText(v, tail, rest);
    ValueRoundTrip(v, sep);
    assert sep[1..] == after;
    ParseNextElement(StringifyItems([v] + tail) + "]" + rest, v, sep, tail, rest);
  }

  /** The text of an element list, split after its first element. */
  lemma ConsItemsText(v: Json, tail: seq<Json>, rest: string)
    requires tail != []
    ensures StringifyItems([v] + tail) + "]" + rest
      == Stringify(v) + ("," + (StringifyItems(tail) + "]" + rest))
  {
    var items := [v] + tail;
    assert items[0] == v && items[1..] == tail;
  }

  /** How `ParseElements` goes on after a comma. */
  lemma ParseNextElement(s: string, v: Json, sep: string, vs: seq<Json>, rest: string)
    requires sep != [] && sep[0] == ','
    requires ParseValue(s) == Some((v, sep))
    requires ParseElements(sep[1..]) == Some((vs, rest))
    ensures ParseElements(s) == Some(([v] + vs, rest))
  {
    SkipWsNone(sep);
  }

  /** One member reads back as itself, and the text after its value is left over. */
  lemma {:induction false} MemberRoundTrip(m: Member, rest: string)
    requires WellFormed(m.value)
    requires Delimited(rest)
    ensures ParseMember(StringifyMember(m) + rest) == Some((m, rest))
    decreases m, 0
  {
    var valueText := Stringify(m.value) + rest;
    var afterKey := ":" + valueText;
    var s := StringifyMember(m) + rest;
    MemberText(m.key, Stringify(m.value), rest);
    ParseStringRoundTrip(m.key, afterKey);
    ValueRoundTrip(m.value, rest);
    ParseMemberOf(s, m.key, afterKey, m.value, rest);
  }

  /** The text of a member, split at the key's quotes and the colon. */
  lemma MemberText(key: string, value: string, rest: string)
    ensures Quote(key) + ":" + value + rest == "\"" + (Escape(key) + "\"" + (":" + (value + rest)))
  {
  }

  /** How `ParseMember` reads a quoted key, a colon and a value. */
  lemma ParseMemberOf(s: string, key: string, afterKey: string, v: Json, rest: string)
    requires s != [] && s[0] == '\"'
    requires ParseString(s[1..]) == Some((key, afterKey))
    requires afterKey != [] && afterKey[0] == ':'
    requires ParseValue(afterKey[1..]) == Some((v, rest))
    ensures ParseMember(s) == Some((Member(key, v), rest))
  {
    SkipWsNone(s);
    SkipWsNone(afterKey);
  }

  /** The members of a non-empty object read back, in order, up to the closing brace. */
  lemma {:induction false} MembersRoundTrip(ms: seq<Member>, rest: string)
    requires ms != []
    requires forall i :: 0 <= i < |ms| ==> WellFormed(ms[i].value)
    ensures ParseMembers(StringifyMembers(ms) + "}" + rest) == Some((ms, rest))
    decreases ms, 0
  {
    if |ms| == 1 {
      LastMemberRoundTrip(ms[0], rest);
      assert [ms[0]] == ms;
    } else {
      MembersRoundTrip(ms[1..], rest);
      NextMemberRoundTrip(ms[0], ms[1..], rest);
      assert [ms[0]] + ms[1..] == ms;
    }
  }

  /** The last member reads back up to the closing brace. */
  lemma {:induction false} LastMemberRoundTrip(m: Member, rest: string)
    requires WellFormed(m.value)
    ensures ParseMembers(StringifyMembers([m]) + "}" + rest) == Some(([m], rest))
    decreases m, 1
  {
    var s := StringifyMembers([m]) + "}" + rest;
    var sep := "}" + rest;
    assert s == StringifyMember(m) + sep;
    MemberRoundTrip(m, sep);
    ParseLastMember(s, m, sep);
    assert sep[1..] == rest;
  }

  /** A member followed by a comma reads back, then the members after it. */
  lemma {:induction false} NextMemberRoundTrip(m: Member, tail: seq<Member>, rest: string)
    requires WellFormed(m.value) && tail != []
    requires ParseMembers(StringifyMembers(tail) + "}" + rest) == Some((tail, rest))
    ensures ParseMembers(StringifyMembers([m] + tail) + "}" + rest) == Some(([m] + tail, rest))
    decreases m, 1
  {
    var after := StringifyMembers(tail) + "}" + rest;
    var sep := "," + after;
    var s := StringifyMembers([m] + tail) + "}" + rest;
    ConsMembersText(m, tail, rest);
    MemberRoundTrip(m, sep);
    assert sep[1..] == after;
    ParseNextMember(s, m, sep, tail, rest);
  }

  /** The text of a member list, split after its first member. */
  lemma ConsMembersText(m: Member, tail: seq<Member>, rest: string)
    requires tail != []
    ensures StringifyMembers([m] + tail) + "}" + rest
      == StringifyMember(m) + ("," + (StringifyMembers(tail) + "}" + rest))
  {
    var ms := [m] + tail;
    assert ms[0] == m && ms[1..] == tail;
  }

  /** How `ParseMembers` ends at a closing brace. */
  lemma ParseLastMember(s: string, m: Member, sep: string)
    requires sep != [] && sep[0] == '}'
    requires ParseMember(s) == Some((m, sep))
    ensures ParseMembers(s) == Some(([m], sep[1..]))
  {
    SkipWsNone(sep);
  }

  /** How `ParseMembers` goes on after a comma. */
  lemma ParseNextMember(s: string, m: Member, sep: string, ms: seq<Member>, rest: string)
    requires sep != [] && sep[0] == ','
    requires ParseMember(s) == Some((m, sep))
    requires ParseMembers(sep[1..]) == Some((ms, rest))
    ensures ParseMembers(s) == Some(([m] + ms, rest))
  {
    SkipWsNone(sep);
  }

  /** Building an object from members with distinct keys keeps them as they are. */
  lemma {:induction false} BuildObjectDistinct(ms: seq<Member>)
    requires DistinctKeys(ms)
    ensures BuildObject(ms) == ms
  {
    if ms != [] {
      var init := ms[..|ms| - 1];
      var last := ms[|ms| - 1];
      BuildObjectDistinct(init);
      assert !HasKey(init, last.key) by {
        forall i | 0 <= i < |init|
          ensures init[i].key != last.key
        {
          assert init[i] == ms[i];
        }
      }
      assert init + [last] == ms;
    }
  }

  /** `JSON.parse(JSON.stringify(v))` is `v` for every well-formed value. */
  lemma ParseStringify(v: Json)
    requires WellFormed(v)
    ensures Parse(Stringify(v)) == Some(v)
  {
    ValueRoundTrip(v, []);
    assert Stringify(v) + [] == Stringify(v);
  }

  /** `JSON.parse('')` throws. */
  lemma ParseEmpty()
    ensures Parse("") == None
  {
  }
}
