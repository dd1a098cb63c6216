/** The counter of `src/bot/counter.ts`: a number in a message, stepped or set by the user. */
module Counter {
  import opened Wrappers
  import opened Decimal
  import opened Json
  import opened Telegram
  import opened CallbackQueries
  import opened HiddenPayload

  const CounterType := "counter"
  const Plus := "\U{2795}"
  const Minus := "\U{2796}"
  const SetAction := "set"
  const SetPrompt := "What number do you want to set to?"
  const InvalidNumber := "Invalid number"

  const CounterKeyboard := InlineKeyboard([[
    Button(Minus, ButtonData(CounterType, Minus)),
    Button("Set", ButtonData(CounterType, SetAction)),
    Button(Plus, ButtonData(CounterType, Plus))]])

  /** The hidden payload of the "set" prompt: which counter message to change. */
  function SetPromptPayload(m: Message): (p: Json)
    ensures IsPayload(p)
    ensures Get(Some(p), "type") == Some(JStr(CounterType)) && Get(Some(p), "action") == Some(JStr(SetAction))
    ensures Get(Some(p), "message_id") == Some(JNum(m.messageId)) && Get(Some(p), "chat_id") == Some(JNum(m.chatId))
  {
    var ms := [
      Member("type", JStr(CounterType)),
      Member("action", JStr(SetAction)),
      Member("message_id", JNum(m.messageId)),
      Member("chat_id", JNum(m.chatId))];
    assert ms[1..][1..][1..] == [ms[3]];
    assert ms[1..][1..] == [ms[2], ms[3]];
    assert ms[1..] == [ms[1], ms[2], ms[3]];
    assert DistinctKeys(ms) by {
      forall i, j | 0 <= i < j < |ms|
        ensures ms[i].key != ms[j].key
      {
        assert ms[i].key[0] != ms[j].key[0];
      }
    }
    assert forall i :: 0 <= i < |ms| ==> IsPayloadValue(ms[i].value);
    JObj(ms)
  }

  /** The prompt sent when "Set" is pressed: a forced reply carrying the hidden payload. */
  function SetPromptReply(m: Message): (e: Effect)
    ensures e.Reply? && e.text == WithHiddenPayload(SetPrompt)
    ensures e.options.entities == HiddenPayloadEntities(SetPromptPayload(m))
    ensures e.options.markup == ForceReply && e.options.replyTo == Some(JNum(m.messageId))
  {
    Reply(WithHiddenPayload(SetPrompt),
      ReplyOptions(Some(JNum(m.messageId)), false, HiddenPayloadEntities(SetPromptPayload(m)), ForceReply, false))
  }

  /**
   * The new counter value: the number the text starts with, one up for ➕, one down for ➖;
   * a text that is not a number (`NaN`, which stepping keeps) gives 0 whatever was pressed.
   */
  function Step(text: string, payload: Option<Json>): (n: int)
    ensures ParseInt(text).None? ==> n == 0
    ensures ParseInt(text).Some? && payload == Some(JStr(Plus)) ==> n == ParseInt(text).value + 1
    ensures ParseInt(text).Some? && payload == Some(JStr(Minus)) ==> n == ParseInt(text).value - 1
    ensures ParseInt(text).Some? && payload != Some(JStr(Plus)) && payload != Some(JStr(Minus)) ==>
      n == ParseInt(text).value
  {
    match ParseInt(text)
    case None => 0
    case Some(v) =>
      if payload == Some(JStr(Plus)) then v + 1
      else if payload == Some(JStr(Minus)) then v - 1
      else v
  }

  /**
   * The `callback_query` handler: other features' queries are left alone, a stale message
   * is answered by the validity check, "Set" sends the prompt (and answers nothing), and
   * any other button shows the stepped value.
   */
  function OnCallbackQuery(q: CallbackQuery): (effects: seq<Effect>)
    ensures !StrictEqualsString(CbQueryJsonData(q), "type", CounterType) ==> effects == []
    ensures StrictEqualsString(CbQueryJsonData(q), "type", CounterType) && AssertMessageValidity(q, DefaultInvalidMessage).Invalid? ==>
      effects == AssertMessageValidity(q, DefaultInvalidMessage).effects
  {
    var data := CbQueryJsonData(q);
    if !StrictEqualsString(data, "type", CounterType) then []
    else
      match AssertMessageValidity(q, DefaultInvalidMessage)
      case Invalid(answered) => answered
      case Valid(m, text) =>
        if StrictEqualsString(data, "payload", SetAction) then [SetPromptReply(m)]
        else
          [ EditText(Some(JNum(m.chatId)), Some(JNum(m.messageId)), IntToString(Step(text, Get(data, "payload"))), CounterKeyboard),
            Answer(q.id, None) ]
  }

  /**
   * The `message` handler: a reply to a message whose hidden payload is a counter "set"
   * sets that counter to the number the reply starts with.
   */
  function OnMessage(m: Message): (effects: seq<Effect>)
    ensures m.replyTo.None? ==> effects == []
    ensures m.replyTo.Some? && GetHiddenPayload(m.replyTo.value).None? ==> effects == []
    ensures (m.replyTo.Some? && GetHiddenPayload(m.replyTo.value).Some?
      && !StrictEqualsString(GetHiddenPayload(m.replyTo.value), "type", CounterType)) ==> effects == []
    ensures (m.replyTo.Some? && GetHiddenPayload(m.replyTo.value).Some?
      && !StrictEqualsString(GetHiddenPayload(m.replyTo.value), "action", SetAction)) ==> effects == []
  {
    match m.replyTo
    case None => []
    case Some(target) =>
      match GetHiddenPayload(target)
      case None => []
      case Some(p) =>
        if !StrictEqualsString(Some(p), "type", CounterType) || !StrictEqualsString(Some(p), "action", SetAction) then []
        else
          match ParseInt(m.text.GetOr(""))
          case None => [Reply(InvalidNumber, NoOptions)]
          case Some(n) =>
            var messageId := Get(Some(p), "message_id");
            [ EditText(Get(Some(p), "chat_id"), messageId, IntToString(n), CounterKeyboard),
              Reply("Counter has been set to " + IntToString(n), ReplyOptions(messageId, false, [], NoMarkup, false)) ]
  }

  /** `/counter`: a new counter at 0. */
  function Command(): (effects: seq<Effect>)
    ensures |effects| == 1 && effects[0].Reply? && effects[0].options.markup == CounterKeyboard
  {
    [Reply("0", ReplyOptions(None, false, [], CounterKeyboard, false))]
  }

  /** The new counter shows the number 0, which the buttons then step. */
  lemma CommandShowsZero()
    ensures ParseInt(Command()[0].text) == Some(0)
    ensures Step(Command()[0].text, Some(JStr(Plus))) == 1
  {
    ZeroText();
    StepShownNumber(0);
  }

  // ------------------------------------------------------------ lemmas

  /** A query carrying the data of the counter button with `payload`. */
  predicate Pressed(q: CallbackQuery, payload: string) {
    q.data == Some(ButtonData(CounterType, payload))
  }

  /** ➕ and ➖ on a message showing `k` show `k + 1` and `k - 1`. */
  lemma StepShownNumber(k: int)
    ensures Step(IntToString(k), Some(JStr(Plus))) == k + 1
    ensures Step(IntToString(k), Some(JStr(Minus))) == k - 1
  {
    ParseIntRoundTrip(k);
  }

  /** Pressing ➕ on a counter message showing `k` edits it to show `k + 1` and answers. */
  lemma PressPlus(q: CallbackQuery, k: int)
    requires Pressed(q, Plus)
    requires q.message.Some? && q.message.value.text == Some(IntToString(k))
    ensures var m := q.message.value;
      OnCallbackQuery(q) == [
        EditText(Some(JNum(m.chatId)), Some(JNum(m.messageId)), IntToString(k + 1), CounterKeyboard),
        Answer(q.id, None)]
  {
    PressedData(q, Plus);
    var m := q.message.value;
    var data := CbQueryJsonData(q);
    assert Get(data, "payload") == Some(JStr(Plus));
    assert !StrictEqualsString(data, "payload", SetAction);
    StepShownNumber(k);
    assert Step(m.text.value, Get(data, "payload")) == k + 1;
    assert AssertMessageValidity(q, DefaultInvalidMessage) == Valid(m, IntToString(k));
  }

  /** The data of a pressed counter button reads back as its type and payload. */
  lemma PressedData(q: CallbackQuery, payload: string)
    requires Pressed(q, payload)
    ensures StrictEqualsString(CbQueryJsonData(q), "type", CounterType)
    ensures Get(CbQueryJsonData(q), "payload") == Some(JStr(payload))
  {
    ButtonFields(JStr(CounterType), JStr(payload));
  }

  /** Pressing a button on a message that shows no number shows 0. */
  lemma PressOnGarbage(q: CallbackQuery, payload: string)
    requires Pressed(q, payload) && payload != SetAction
    requires q.message.Some? && HasText(q.message.value) && ParseInt(q.message.value.text.value).None?
    ensures var m := q.message.value;
      OnCallbackQuery(q) == [
        EditText(Some(JNum(m.chatId)), Some(JNum(m.messageId)), "0", CounterKeyboard),
        Answer(q.id, None)]
  {
    PressedData(q, payload);
    var m := q.message.value;
    assert Step(m.text.value, Some(JStr(payload))) == 0;
    ZeroText();
  }

  /** "Set" only sends the prompt: no edit and no answer. */
  lemma PressSet(q: CallbackQuery)
    requires Pressed(q, SetAction)
    requires q.message.Some? && HasText(q.message.value)
    ensures OnCallbackQuery(q) == [SetPromptReply(q.message.value)]
  {
  }

  /**
   * The whole "set" conversation: the user replies `n` to the prompt sent for counter
   * message `m`, and `m` is edited to show `n` and the change confirmed.
   */
  lemma SetConversation(m: Message, prompt: Message, reply: Message, n: int)
    requires prompt.entities == Some(SetPromptReply(m).options.entities)
    requires reply.replyTo == Some(prompt) && reply.text == Some(IntToString(n))
    ensures OnMessage(reply) == [
      EditText(Some(JNum(m.chatId)), Some(JNum(m.messageId)), IntToString(n), CounterKeyboard),
      Reply("Counter has been set to " + IntToString(n), ReplyOptions(Some(JNum(m.messageId)), false, [], NoMarkup, false))]
  {
    var p := SetPromptPayload(m);
    assert prompt == WithPayload(prompt, p);
    PayloadObjectRoundTrip(prompt, p);
    ParseIntRoundTrip(n);
    ReplyToSetPrompt(reply, p, n);
  }

  /** A number replied to a message whose hidden payload asks for a counter "set". */
  lemma ReplyToSetPrompt(reply: Message, p: Json, n: int)
    requires reply.replyTo.Some? && GetHiddenPayload(reply.replyTo.value) == Some(p)
    requires StrictEqualsString(Some(p), "type", CounterType) && StrictEqualsString(Some(p), "action", SetAction)
    requires ParseInt(reply.text.GetOr("")) == Some(n)
    ensures OnMessage(reply) == [
      EditText(Get(Some(p), "chat_id"), Get(Some(p), "message_id"), IntToString(n), CounterKeyboard),
      Reply("Counter has been set to " + IntToString(n), ReplyOptions(Get(Some(p), "message_id"), false, [], NoMarkup, false))]
  {
  }

  /** A reply to the prompt that is not a number gets "Invalid number" and changes nothing. */
  lemma SetNotANumber(m: Message, prompt: Message, reply: Message)
    requires prompt.entities == Some(SetPromptReply(m).options.entities)
    requires reply.replyTo == Some(prompt) && ParseInt(reply.text.GetOr("")).None?
    ensures OnMessage(reply) == [Reply(InvalidNumber, NoOptions)]
  {
    var p := SetPromptPayload(m);
    assert prompt == WithPayload(prompt, p);
    PayloadObjectRoundTrip(prompt, p);
    NotANumberToSetPrompt(reply, p);
  }

  /** Text that is not a number replied to a message whose hidden payload asks for a counter "set". */
  lemma NotANumberToSetPrompt(reply: Message, p: Json)
    requires reply.replyTo.Some? && GetHiddenPayload(reply.replyTo.value) == Some(p)
    requires StrictEqualsString(Some(p), "type", CounterType) && StrictEqualsString(Some(p), "action", SetAction)
    requires ParseInt(reply.text.GetOr("")).None?
    ensures OnMessage(reply) == [Reply(InvalidNumber, NoOptions)]
  {
  }
}
