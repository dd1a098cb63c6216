/** The callback-query helpers of `src/bot/utils.ts`. */
module CallbackQueries {
  import opened Wrappers
  import opened Json
  import opened Telegram
  import JsonRoundTrip

  /**
   * `getCbQueryJsonData(ctx)`: `JSON.parse(data || '')`, `None` (`undefined`) where the
   * parse throws. Missing data parses the empty text, which always throws.
   */
  function CbQueryJsonData(q: CallbackQuery): (r: Option<Json>)
    ensures q.data.None? ==> r.None?
    ensures q.data.Some? ==> r == Parse(q.data.value)
  {
    JsonRoundTrip.ParseEmpty();
    Parse(q.data.GetOr(""))
  }

  /** A button whose data is the JSON of a well-formed value hands that value back. */
  lemma CbQueryJsonDataOfStringify(q: CallbackQuery, v: Json)
    requires WellFormed(v)
    requires q.data == Some(Stringify(v))
    ensures CbQueryJsonData(q) == Some(v)
  {
    JsonRoundTrip.ParseStringify(v);
  }

  const DefaultInvalidMessage := "Actions to this message is no longer valid"

  /**
   * The outcome of `assertCbQueryMessageValidity`: the message with its text, or the calls
   * made before `CbQueryMessageInvalidError` is thrown.
   */
  datatype Validity =
    | Valid(message: Message, text: string)
    | Invalid(effects: seq<Effect>)

  predicate HasText(m: Message) {
    m.text.Some? && m.text.value != ""
  }

  /**
   * `assertCbQueryMessageValidity(ctx, errorMessage)`: valid exactly when the query's message
   * is present with non-empty text; otherwise answer the query with `errorMessage` and, when
   * there is a message, clear its inline keyboard.
   */
  function AssertMessageValidity(q: CallbackQuery, errorMessage: string): (r: Validity)
    ensures r.Valid? <==> q.message.Some? && HasText(q.message.value)
    ensures r.Valid? ==> Some(r.message) == q.message && Some(r.text) == r.message.text && r.text != ""
    ensures r.Invalid? ==> |r.effects| >= 1 && r.effects[0] == Answer(q.id, Some(errorMessage))
    ensures r.Invalid? ==> (|r.effects| == 2 <==> q.message.Some?) && |r.effects| <= 2
    ensures r.Invalid? && q.message.Some? ==>
      r.effects[1] == ClearKeyboard(q.message.value.chatId, q.message.value.messageId)
  {
    match q.message
    case None => Invalid([Answer(q.id, Some(errorMessage))])
    case Some(m) =>
      if HasText(m) then Valid(m, m.text.value)
      else Invalid([Answer(q.id, Some(errorMessage)), ClearKeyboard(m.chatId, m.messageId)])
  }
}
