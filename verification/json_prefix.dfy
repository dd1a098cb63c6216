/**
 * `JSON.parse` on a text cut short: a proper prefix of what `JSON.stringify` writes
 * never parses, except a number cut after some of its digits, which reads as a
 * shorter number with nothing after it.
 */
module JsonPrefix {
  import opened Wrappers
  import opened Decimal
  import opened Json
  import opened JsonRoundTrip
  import opened Sequences

  /** A cut escape sequence is refused. */
  lemma EscapeCharPrefix(c: char, k: nat)
    requires 0 < k < |EscapeChar(c)|
    ensures ParseString(EscapeChar(c)[..k]) == None
  {
    var e := EscapeChar(c);
    var t := e[..k];
    assert t[0] == '\\' && t[1..] == e[1..k];
  }

  /** A string literal's body and closing quote, cut anywhere, never closes. */
  lemma {:induction false} StringPrefix(s: string, k: nat)
    requires k < |Escape(s) + "\""|
    ensures ParseString((Escape(s) + "\"")[..k]) == None
    decreases |s|
  {
    var text := Escape(s) + "\"";
    if k > 0 {
      var e := EscapeChar(s[0]);
      var x := Escape(s[1..]) + "\"";
      assert text == e + x;
      if k < |e| {
        assert text[..k] == e[..k];
        EscapeCharPrefix(s[0], k);
      } else {
        var cut := x[..k - |e|];
        assert text[..k] == e + cut;
        ParseStringStep(s[0], cut);
        StringPrefix(s[1..], k - |e|);
      }
    }
  }

  /** Digits without a leading zero are read up to the end of the text. */
  lemma DigitsToEnd(ds: string)
    requires ds != [] && AllDigits(ds) && ds[0] != '0'
    ensures ParseUnsigned(ds) == Some((DigitsValue(ds), []))
  {
    assert ds + [] == ds;
    LeadingDigitsPrefix(ds, []);
  }

  /** A number cut after some of its characters reads, if at all, to the end of the cut. */
  lemma NumberPrefix(n: int, k: nat)
    requires k < |IntToString(n)|
    ensures var r := ParseValue(IntToString(n)[..k]);
      r.Some? ==> r.value.1 == []
  {
    var t := IntToString(n)[..k];
    if k > 0 {
      ParseValueNumber(t);
      if n < 0 {
        var ds := NatToDigits(-n)[..k - 1];
        assert t == ['-'] + ds && t[1..] == ds;
        if ds != [] {
          DigitsToEnd(ds);
        }
      } else {
        DigitsToEnd(t);
      }
    }
  }

  /** `null`, `true` or `false`, cut short, is refused. */
  lemma WordPrefix(w: string, k: nat)
    requires w == "null" || w == "true" || w == "false"
    requires k < |w|
    ensures ParseValue(w[..k]) == None
  {
    var t := w[..k];
    if k > 0 {
      assert t[0] == w[0];
      SkipWsNone(t);
      if w != "true" {
        FirstCharDiffers(t, "true");
      }
      if w != "false" {
        FirstCharDiffers(t, "false");
      }
      if w != "null" {
        FirstCharDiffers(t, "null");
      }
    }
  }

  /**
   * A proper prefix of the text of `v` fails to parse, or parses as a number with
   * no text left over; only numbers can be cut and still parse.
   */
  lemma {:induction false} ValuePrefix(v: Json, k: nat)
    requires WellFormed(v) && k < |Stringify(v)|
    ensures var r := ParseValue(Stringify(v)[..k]);
      r.Some? ==> v.JNum? && r.value.1 == []
    decreases v, 1
  {
    match v
    case JNull => WordPrefix("null", k);
    case JBool(b) => WordPrefix(if b then "true" else "false", k);
    case JNum(n) => NumberPrefix(n, k);
    case JStr(s) => StringValuePrefix(s, k);
    case JArr(items) => ArrayPrefix(items, k);
    case JObj(ms) => ObjectPrefix(ms, k);
  }

  /** A string literal cut short is refused. */
  lemma StringValuePrefix(s: string, k: nat)
    requires k < |Stringify(JStr(s))|
    ensures ParseValue(Stringify(JStr(s))[..k]) == None
  {
    if k > 0 {
      var t := Stringify(JStr(s))[..k];
      assert Stringify(JStr(s)) == "\"" + (Escape(s) + "\"");
      assert t[0] == '\"' && t[1..] == (Escape(s) + "\"")[..k - 1];
      StringPrefix(s, k - 1);
    }
  }

  /** An array cut short is refused. */
  lemma {:induction false} ArrayPrefix(items: seq<Json>, k: nat)
    requires forall i :: 0 <= i < |items| ==> WellFormed(items[i])
    requires k < |Stringify(JArr(items))|
    ensures ParseValue(Stringify(JArr(items))[..k]) == None
    decreases items, 3
  {
    if k > 0 {
      var t := Stringify(JArr(items))[..k];
      var y := StringifyItems(items) + "]";
      assert Stringify(JArr(items)) == "[" + y;
      assert t[0] == '[' && t[1..] == y[..k - 1];
      ArrayBodyPrefix(items, k - 1);
    }
  }

  /** An object cut short is refused. */
  lemma {:induction false} ObjectPrefix(ms: seq<Member>, k: nat)
    requires forall i :: 0 <= i < |ms| ==> WellFormed(ms[i].value)
    requires k < |Stringify(JObj(ms))|
    ensures ParseValue(Stringify(JObj(ms))[..k]) == None
    decreases ms, 3
  {
    if k > 0 {
      var t := Stringify(JObj(ms))[..k];
      var y := StringifyMembers(ms) + "}";
      assert Stringify(JObj(ms)) == "{" + y;
      assert t[0] == '{' && t[1..] == y[..k - 1];
      ObjectBodyPrefix(ms, k - 1);
    }
  }

  /** An array after its `[`, cut before its `]`, is refused. */
  lemma {:induction false} ArrayBodyPrefix(items: seq<Json>, j: nat)
    requires forall i :: 0 <= i < |items| ==> WellFormed(items[i])
    requires j < |StringifyItems(items) + "]"|
    ensures ParseArray((StringifyItems(items) + "]")[..j]) == None
    decreases items, 2
  {
    var y := StringifyItems(items) + "]";
    if j > 0 {
      ItemsStart(items);
      StringifyStart(items[0]);
      assert y[..j][0] == Stringify(items[0])[0];
      SkipWsNone(y[..j]);
      ItemsPrefix(items, j);
    }
  }

  /** The text of an element list and its `]`, split after the first element. */
  lemma ItemsText(items: seq<Json>)
    requires |items| > 1
    ensures StringifyItems(items) + "]" == Stringify(items[0]) + ("," + (StringifyItems(items[1..]) + "]"))
  {
    var head := Stringify(items[0]);
    var tail := StringifyItems(items[1..]);
    assert StringifyItems(items) == head + "," + tail;
    Associative(head + ",", tail, "]");
    Associative(head, ",", tail + "]");
  }

  /** Elements after `[`, cut before the closing `]`, are refused. */
  lemma {:induction false} ItemsPrefix(items: seq<Json>, k: nat)
    requires items != [] && forall i :: 0 <= i < |items| ==> WellFormed(items[i])
    requires k < |StringifyItems(items) + "]"|
    ensures ParseElements((StringifyItems(items) + "]")[..k]) == None
    decreases items, 1
  {
    var e := Stringify(items[0]);
    var y := StringifyItems(items) + "]";
    if |items| == 1 {
      assert y == e + "]";
    } else {
      ItemsText(items);
    }
    if k < |e| {
      assert y[..k] == e[..k];
      ValuePrefix(items[0], k);
      ElementsRunOut(y[..k]);
    } else if k == |e| {
      assert y[..k] == e + [];
      ValueRoundTrip(items[0], []);
      ElementsRunOut(y[..k]);
    } else {
      LaterItemsPrefix(items, k);
    }
  }

  /** Elements cut after the first element and its comma fail where the later elements do. */
  lemma {:induction false} LaterItemsPrefix(items: seq<Json>, k: nat)
    requires items != [] && forall i :: 0 <= i < |items| ==> WellFormed(items[i])
    requires |Stringify(items[0])| < k < |StringifyItems(items) + "]"|
    ensures ParseElements((StringifyItems(items) + "]")[..k]) == None
    decreases items, 0
  {
    var e := Stringify(items[0]);
    var z := StringifyItems(items[1..]) + "]";
    var j := k - |e| - 1;
    ItemsText(items);
    CutAfterHead(e, z, k);
    ValueRoundTrip(items[0], "," + z[..j]);
    assert forall i :: 0 <= i < |items[1..]| ==> WellFormed(items[1..][i]);
    ItemsPrefix(items[1..], j);
    ElementsAfterComma(e + ("," + z[..j]), items[0], "," + z[..j]);
  }

  /** One member cut short fails to parse, or its value is a number read to the end of the cut. */
  lemma {:induction false} MemberPrefix(m: Member, k: nat)
    requires WellFormed(m.value) && k < |StringifyMember(m)|
    ensures var r := ParseMember(StringifyMember(m)[..k]);
      r.Some? ==> r.value.1 == []
    decreases m, 1
  {
    MemberLayout(m);
    if k > |Escape(m.key)| + 2 {
      MemberValuePrefix(m, k);
    } else if k > 0 {
      MemberKeyPrefix(m, k);
    }
  }

  /** A member's text: the quoted key, a colon, and the value. */
  lemma MemberLayout(m: Member)
    ensures StringifyMember(m) == "\"" + ((Escape(m.key) + "\"") + (":" + Stringify(m.value)))
  {
    var e := Escape(m.key);
    var sv := Stringify(m.value);
    assert StringifyMember(m) == ("\"" + e + "\"") + ":" + sv;
    Associative("\"" + e + "\"", ":", sv);
    Associative("\"" + e, "\"", ":" + sv);
    Associative("\"", e, "\"" + (":" + sv));
    Associative(e, "\"", ":" + sv);
  }

  /** A cut that ends inside the quoted key, or right after it. */
  lemma CutInKey(q: string, after: string, k: nat)
    requires 0 < k <= |q| + 1
    ensures var t := ("\"" + (q + after))[..k];
      t[0] == '\"' && t[1..] == q[..k - 1]
  {
  }

  /** A cut that ends after the key's colon, inside the value. */
  lemma CutAfterColon(q: string, sv: string, k: nat)
    requires |q| + 1 < k <= |q| + 2 + |sv|
    ensures var t := ("\"" + (q + (":" + sv)))[..k];
      t[0] == '\"' && t[1..] == q + (":" + sv[..k - |q| - 2])
  {
    var t := ("\"" + (q + (":" + sv)))[..k];
    assert t[1..] == (q + (":" + sv))[..k - 1];
  }

  /** A member cut in its key, or right after it, is refused. */
  lemma MemberKeyPrefix(m: Member, k: nat)
    requires 0 < k <= |Escape(m.key)| + 2 && k < |StringifyMember(m)|
    ensures ParseMember(StringifyMember(m)[..k]) == None
  {
    var q := Escape(m.key) + "\"";
    MemberLayout(m);
    CutInKey(q, ":" + Stringify(m.value), k);
    var t := StringifyMember(m)[..k];
    if k <= |q| {
      StringPrefix(m.key, k - 1);
    } else {
      assert q[..k - 1] == q + [];
      ParseStringRoundTrip(m.key, []);
    }
    KeyCut(t);
  }

  /** A member cut in its value reads as far as the cut value does. */
  lemma {:induction false} MemberValuePrefix(m: Member, k: nat)
    requires WellFormed(m.value) && |Escape(m.key)| + 2 < k < |StringifyMember(m)|
    ensures var r := ParseMember(StringifyMember(m)[..k]);
      r.Some? ==> r.value.1 == []
    decreases m, 0
  {
    var q := Escape(m.key) + "\"";
    var sv := Stringify(m.value);
    var j := k - |q| - 2;
    MemberLayout(m);
    CutAfterColon(q, sv, k);
    ParseStringRoundTrip(m.key, ":" + sv[..j]);
    ValuePrefix(m.value, j);
    ValueAfterColon(StringifyMember(m)[..k], m.key, sv[..j]);
  }

  /** A member whose key does not close, or closes at the end of the text, is refused. */
  lemma KeyCut(s: string)
    requires s != [] && s[0] == '\"'
    requires ParseString(s[1..]).None? || ParseString(s[1..]).value.1 == []
    ensures ParseMember(s) == None
  {
    SkipWsNone(s);
  }

  /** After a key and its colon, the member reads as far as its value does. */
  lemma ValueAfterColon(s: string, key: string, cut: string)
    requires s != [] && s[0] == '\"'
    requires ParseString(s[1..]) == Some((key, ":" + cut))
    requires ParseValue(cut).Some? ==> ParseValue(cut).value.1 == []
    ensures ParseMember(s).Some? ==> ParseMember(s).value.1 == []
  {
    SkipWsNone(s);
    assert (":" + cut)[0] == ':' && (":" + cut)[1..] == cut;
    SkipWsNone(":" + cut);
  }

  /** An object after its `{`, cut before its `}`, is refused. */
  lemma {:induction false} ObjectBodyPrefix(ms: seq<Member>, j: nat)
    requires forall i :: 0 <= i < |ms| ==> WellFormed(ms[i].value)
    requires j < |StringifyMembers(ms) + "}"|
    ensures ParseObject((StringifyMembers(ms) + "}")[..j]) == None
    decreases ms, 2
  {
    var y := StringifyMembers(ms) + "}";
    if j > 0 {
      MembersStart(ms);
      assert y[..j][0] == '\"';
      SkipWsNone(y[..j]);
      MembersPrefix(ms, j);
    }
  }

  /** The text of a member list and its `}`, split after the first member. */
  lemma MembersText(ms: seq<Member>)
    requires |ms| > 1
    ensures StringifyMembers(ms) + "}" == StringifyMember(ms[0]) + ("," + (StringifyMembers(ms[1..]) + "}"))
  {
    var head := StringifyMember(ms[0]);
    var tail := StringifyMembers(ms[1..]);
    assert StringifyMembers(ms) == head + "," + tail;
    Associative(head + ",", tail, "}");
    Associative(head, ",", tail + "}");
  }

  /** Members after `{`, cut before the closing `}`, are refused. */
  lemma {:induction false} MembersPrefix(ms: seq<Member>, k: nat)
    requires ms != [] && forall i :: 0 <= i < |ms| ==> WellFormed(ms[i].value)
    requires k < |StringifyMembers(ms) + "}"|
    ensures ParseMembers((StringifyMembers(ms) + "}")[..k]) == None
    decreases ms, 1
  {
    var e := StringifyMember(ms[0]);
    var y := StringifyMembers(ms) + "}";
    if |ms| == 1 {
      assert y == e + "}";
    } else {
      MembersText(ms);
    }
    if k < |e| {
      assert y[..k] == e[..k];
      MemberPrefix(ms[0], k);
      MembersRunOut(y[..k]);
    } else if k == |e| {
      assert y[..k] == e + [];
      MemberRoundTrip(ms[0], []);
      MembersRunOut(y[..k]);
    } else {
      LaterMembersPrefix(ms, k);
    }
  }

  /** Members cut after the first member and its comma fail where the later members do. */
  lemma {:induction false} LaterMembersPrefix(ms: seq<Member>, k: nat)
    requires ms != [] && forall i :: 0 <= i < |ms| ==> WellFormed(ms[i].value)
    requires |StringifyMember(ms[0])| < k < |StringifyMembers(ms) + "}"|
    ensures ParseMembers((StringifyMembers(ms) + "}")[..k]) == None
    decreases ms, 0
  {
    var e := StringifyMember(ms[0]);
    var z := StringifyMembers(ms[1..]) + "}";
    var j := k - |e| - 1;
    MembersText(ms);
    CutAfterHead(e, z, k);
    MemberRoundTrip(ms[0], "," + z[..j]);
    assert forall i :: 0 <= i < |ms[1..]| ==> WellFormed(ms[1..][i].value);
    MembersPrefix(ms[1..], j);
    MembersAfterComma(e + ("," + z[..j]), ms[0], "," + z[..j]);
  }

  /** A cut past the first entry and its comma keeps them whole. */
  lemma CutAfterHead(e: string, z: string, k: nat)
    requires |e| < k <= |e| + 1 + |z|
    ensures (e + ("," + z))[..k] == e + ("," + z[..k - |e| - 1])
  {
  }

  /** An element that uses up the text leaves no `,` or `]` to go on with. */
  lemma ElementsRunOut(s: string)
    requires ParseValue(s).Some? ==> ParseValue(s).value.1 == []
    ensures ParseElements(s) == None
  {
  }

  /** After an element and a comma, the list fails when what follows the comma fails. */
  lemma ElementsAfterComma(s: string, v: Json, cut: string)
    requires ParseValue(s) == Some((v, cut)) && cut != [] && cut[0] == ','
    requires ParseElements(cut[1..]) == None
    ensures ParseElements(s) == None
  {
    SkipWsNone(cut);
  }

  /** A member that uses up the text leaves no `,` or `}` to go on with. */
  lemma MembersRunOut(s: string)
    requires ParseMember(s).Some? ==> ParseMember(s).value.1 == []
    ensures ParseMembers(s) == None
  {
  }

  /** After a member and a comma, the list fails when what follows the comma fails. */
  lemma MembersAfterComma(s: string, m: Member, cut: string)
    requires ParseMember(s) == Some((m, cut)) && cut != [] && cut[0] == ','
    requires ParseMembers(cut[1..]) == None
    ensures ParseMembers(s) == None
  {
    SkipWsNone(cut);
  }

  /** `JSON.parse` refuses every proper prefix of the text of a value other than a number. */
  lemma ParsePrefix(v: Json, k: nat)
    requires WellFormed(v) && !v.JNum? && k < |Stringify(v)|
    ensures Parse(Stringify(v)[..k]) == None
  {
    ValuePrefix(v, k);
  }
}
