/**
 * The parts of Telegram's messages and callback queries the bot reads, and the calls it
 * makes to Telegram and to the Realtime Database, written down as effect records.
 */
module Telegram {
  import opened Wrappers
  import opened Json
  import JsonRoundTrip

  /** A message entity; `url` is present on `text_link` entities. */
  datatype Entity = Entity(kind: string, offset: int, length: int, url: Option<string>)

  /** An incoming message: `text` and `entities` are absent on stickers, photos and the like. */
  datatype Message = Message(
    messageId: int,
    chatId: int,
    text: Option<string>,
    entities: Option<seq<Entity>>,
    replyTo: Option<Message>)

  /** A press of an inline keyboard button. */
  datatype CallbackQuery = CallbackQuery(id: string, data: Option<string>, message: Option<Message>)

  datatype Button = Button(text: string, callbackData: string)

  datatype Markup =
    | NoMarkup
    | InlineKeyboard(rows: seq<seq<Button>>)
    | ForceReply

  /**
   * The extra options of a sent message: `reply_to_message_id` (whatever value the bot
   * passes), `allow_sending_without_reply`, the entities, the reply markup, and whether
   * `parse_mode` is `MarkdownV2`.
   */
  datatype ReplyOptions = ReplyOptions(
    replyTo: Option<Json>,
    allowWithoutReply: bool,
    entities: seq<Entity>,
    markup: Markup,
    markdownV2: bool)

  const NoOptions := ReplyOptions(None, false, [], NoMarkup, false)

  const MarkdownV2 := ReplyOptions(None, false, [], NoMarkup, true)

  /** One call the bot makes, in the order it makes them. */
  datatype Effect =
    | Reply(text: string, options: ReplyOptions)
    | EditText(chat: Option<Json>, messageId: Option<Json>, text: string, markup: Markup)
    | ClearKeyboard(clearChat: int, clearMessageId: int)
    | Answer(queryId: string, answerText: Option<string>)
    | DbWrite(path: string, value: Json)
    | DbReadReply(path: string, asJson: bool)

  /** The JSON text `{"type":<kind>,"payload":<payload>}` a button carries as its data. */
  function ButtonData(kind: string, payload: string): (r: string)
    ensures Parse(r) == Some(JObj([Member("type", JStr(kind)), Member("payload", JStr(payload))]))
  {
    var v := JObj([Member("type", JStr(kind)), Member("payload", JStr(payload))]);
    assert WellFormed(v) by {
      assert DistinctKeys(v.members);
    }
    JsonRoundTrip.ParseStringify(v);
    Stringify(v)
  }

  /** The object a button's data stands for hands back its type and payload. */
  lemma ButtonFields(kind: Json, payload: Json)
    ensures var data := Some(JObj([Member("type", kind), Member("payload", payload)]));
      Get(data, "type") == Some(kind) && Get(data, "payload") == Some(payload)
  {
    var ms := [Member("type", kind), Member("payload", payload)];
    assert ms[1..] == [ms[1]];
  }
}
