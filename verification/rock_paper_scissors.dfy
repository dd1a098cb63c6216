/** The rock-paper-scissors game of `src/bot/rock-paper-scissors.ts`. */
module RockPaperScissors {
  import opened Wrappers
  import opened Json
  import opened Lines
  import opened Telegram
  import opened CallbackQueries
  import JsonRoundTrip

  const GameType := "rock_paper_scissors"
  const Again := "again"
  const Rock := "\U{270A}"
  const Paper := "\U{270B}"
  const Scissors := "\U{270C}"

  /** The choices in the order their indices stand for: rock 0, paper 1, scissors 2. */
  const Options: seq<string> := [Rock, Paper, Scissors]

  const StaleMessage := "Game no longer valids"
  const ErrorAnswer := "Error"

  /** `options.indexOf(s)`: the first index holding `s`, -1 when none does. */
  function IndexOf(opts: seq<string>, s: string): (r: int)
    ensures -1 <= r < |opts|
    ensures r == -1 <==> s !in opts
    ensures r >= 0 ==> opts[r] == s && s !in opts[..r]
  {
    if opts == [] then -1
    else if opts[0] == s then 0
    else
      var r := IndexOf(opts[1..], s);
      assert opts == [opts[0]] + opts[1..];
      if r == -1 then -1
      else
        assert opts[..r + 1] == [opts[0]] + opts[1..][..r];
        r + 1
  }

  datatype Outcome = Even | YouWon | IWon

  /** The player's index after the adjustment that puts it at or above the bot's. */
  function Adjusted(my: nat, your: int): (y: int)
    requires my < 3 && -1 <= your < 3
    ensures 0 <= y - my <= 2
    ensures y % 3 == (if your < 0 then 2 else your)
  {
    if my > your then your + 3 else your
  }

  /**
   * The result for the bot's choice `my` and the player's `your` (-1 when the player's
   * payload is none of the options): even on equal choices, the player wins when theirs is
   * one step after the bot's modulo 3; an unknown choice counts as scissors.
   */
  function Score(my: nat, your: int): (r: Outcome)
    requires my < 3 && -1 <= your < 3
    ensures var y := if your < 0 then 2 else your;
      && (r == Even <==> y == my)
      && (r == YouWon <==> y == (my + 1) % 3)
      && (r == IWon <==> y == (my + 2) % 3)
  {
    var y := Adjusted(my, your);
    if my == y then Even
    else if y - my == 1 then YouWon
    else IWon
  }

  /** The game's rule: paper covers rock, scissors cut paper, rock breaks scissors. */
  predicate Beats(a: nat, b: nat) {
    || (a == 1 && b == 0)
    || (a == 2 && b == 1)
    || (a == 0 && b == 2)
  }

  /** The score agrees with the rule, and exactly one outcome holds. */
  lemma ScoreFollowsRules(my: nat, your: nat)
    requires my < 3 && your < 3
    ensures Score(my, your) == Even <==> my == your
    ensures Score(my, your) == YouWon <==> Beats(your, my)
    ensures Score(my, your) == IWon <==> Beats(my, your)
  {
  }

  /** A payload that is none of the options scores as scissors. */
  lemma UnknownChoiceIsScissors(my: nat, yours: string)
    requires my < 3 && yours !in Options
    ensures Score(my, IndexOf(Options, yours)) == Score(my, 2)
  {
  }

  function OutcomeText(o: Outcome): string {
    match o
    case Even => "Even"
    case YouWon => "You won"
    case IWon => "I won"
  }

  /** A keyboard button that plays `option`. */
  function OptionButton(option: string): Button {
    Button(option, ButtonData(GameType, option))
  }

  const GameKeyboard := InlineKeyboard([[OptionButton(Rock), OptionButton(Paper), OptionButton(Scissors)]])

  const PendingKeyboard := InlineKeyboard([[Button("...", Stringify(JObj([Member("type", JStr("...")) ])))]])

  const PlayAgainKeyboard := InlineKeyboard([[Button("Play again", ButtonData(GameType, Again))]])

  /** `rockPaperScissors(ctx)`: the opening message with the three choices. */
  function NewGame(replyTo: Option<int>): (e: Effect)
    ensures e.Reply? && e.options.allowWithoutReply && e.options.markup == GameKeyboard
    ensures Split(e.text) == ["Rock, paper, scissors...", "Me \U{2192} " + Rock + " " + Rock + " \U{2190} You"]
  {
    var ls := ["Rock, paper, scissors...", "Me \U{2192} " + Rock + " " + Rock + " \U{2190} You"];
    assert NoNewLine(ls[0]) && NoNewLine(ls[1]);
    SplitJoin(ls);
    Reply(Join(ls), ReplyOptions(
      if replyTo.Some? then Some(JNum(replyTo.value)) else None,
      true, [], GameKeyboard, false))
  }

  /** The `/rock_paper_scissors` command: a new game in reply to the command message. */
  function Command(m: Message): (effects: seq<Effect>)
    ensures |effects| == 1 && effects[0].Reply? && effects[0].options.markup == GameKeyboard
    ensures effects[0].options.replyTo == Some(JNum(m.messageId)) && effects[0].options.allowWithoutReply
  {
    [NewGame(Some(m.messageId))]
  }

  /** The second line of the played message. */
  function PlayedLine(mine: string, yours: string): string {
    "Me \U{2192} " + mine + " " + yours + " \U{2190} You"
  }

  /** The calls of one round on a valid message, in the order they are made. */
  function Play(q: CallbackQuery, m: Message, text: string, myOption: nat, yours: string): (effects: seq<Effect>)
    requires myOption < 3
    ensures |effects| == 4 && effects[3] == Answer(q.id, None)
    ensures effects[2] == ClearKeyboard(m.chatId, m.messageId)
  {
    var mine := Options[myOption];
    var result := Score(myOption, IndexOf(Options, yours));
    [ EditText(Some(JNum(m.chatId)), Some(JNum(m.messageId)), Join([FirstLine(text), PlayedLine(mine, yours)]), PendingKeyboard),
      Reply(OutcomeText(result) + "!", ReplyOptions(Some(JNum(m.messageId)), true, [], PlayAgainKeyboard, false)),
      ClearKeyboard(m.chatId, m.messageId),
      Answer(q.id, None) ]
  }

  /**
   * The `callback_query` handler, with `myOption` the bot's random choice. Queries of
   * other features are left alone; `again` starts a new game without checking the message,
   * in the chat of the query's message (with no message, `ctx.reply` finds no chat and
   * throws, and the `catch` answers `Error`); a stale message ends the handler once it is
   * answered; a payload that is not a string is answered with `Error`.
   */
  function OnCallbackQuery(q: CallbackQuery, myOption: nat): (effects: seq<Effect>)
    requires myOption < 3
    ensures !StrictEqualsString(CbQueryJsonData(q), "type", GameType) ==> effects == []
    ensures (StrictEqualsString(CbQueryJsonData(q), "type", GameType)
      && StrictEqualsString(CbQueryJsonData(q), "payload", Again)) ==>
        effects == (if q.message.Some? then [Answer(q.id, None), NewGame(None)]
                    else [Answer(q.id, None), Answer(q.id, Some(ErrorAnswer))])
  {
    var data := CbQueryJsonData(q);
    if !StrictEqualsString(data, "type", GameType) then []
    else if StrictEqualsString(data, "payload", Again) then
      if q.message.Some? then [Answer(q.id, None), NewGame(None)]
      else [Answer(q.id, None), Answer(q.id, Some(ErrorAnswer))]
    else
      match AssertMessageValidity(q, StaleMessage)
      case Invalid(answered) => answered
      case Valid(m, text) =>
        match Get(data, "payload")
        case Some(JStr(yours)) => Play(q, m, text, myOption, yours)
        case _ => [Answer(q.id, Some(ErrorAnswer))]
  }

  /** A query carrying the data of a button with `payload`. */
  predicate Pressed(q: CallbackQuery, payload: string) {
    q.data == Some(ButtonData(GameType, payload))
  }

  /** Pressing a choice on a valid message plays it against the bot's choice. */
  lemma PressOption(q: CallbackQuery, myOption: nat, your: nat)
    requires myOption < 3 && your < 3
    requires Pressed(q, Options[your])
    requires q.message.Some? && HasText(q.message.value)
    ensures var m := q.message.value;
      OnCallbackQuery(q, myOption) == Play(q, m, m.text.value, myOption, Options[your])
  {
    ButtonFields(JStr(GameType), JStr(Options[your]));
    assert Options[your] != Again;
    assert AssertMessageValidity(q, StaleMessage) == Valid(q.message.value, q.message.value.text.value);
  }

  /** The played message keeps the first line of the original text and names both choices. */
  lemma PlayedText(q: CallbackQuery, m: Message, text: string, myOption: nat, your: nat)
    requires myOption < 3 && your < 3
    ensures var e := Play(q, m, text, myOption, Options[your])[0];
      && e.EditText?
      && Split(e.text) == [FirstLine(text), PlayedLine(Options[myOption], Options[your])]
  {
    FirstLineIsPrefix(text);
    var played := PlayedLine(Options[myOption], Options[your]);
    assert NoNewLine(played);
    SplitJoin([FirstLine(text), played]);
  }

  /** The reply names the outcome the rule gives. */
  lemma PlayedResult(q: CallbackQuery, m: Message, text: string, myOption: nat, your: nat)
    requires myOption < 3 && your < 3
    ensures var e := Play(q, m, text, myOption, Options[your])[1];
      && e.Reply?
      && (e.text == "Even!" <==> myOption == your)
      && (e.text == "You won!" <==> Beats(your, myOption))
      && (e.text == "I won!" <==> Beats(myOption, your))
  {
    ScoreFollowsRules(myOption, your);
  }

  /**
   * Pressing "Play again" answers the query and starts a new game in the chat of the
   * query's message; without a message there is no chat to reply in, so the query is
   * answered a second time, with `Error`.
   */
  lemma PressAgain(q: CallbackQuery, myOption: nat)
    requires myOption < 3 && Pressed(q, Again)
    ensures q.message.Some? ==> OnCallbackQuery(q, myOption) == [Answer(q.id, None), NewGame(None)]
    ensures q.message.None? ==> OnCallbackQuery(q, myOption) == [Answer(q.id, None), Answer(q.id, Some(ErrorAnswer))]
  {
    ButtonFields(JStr(GameType), JStr(Again));
  }

  /** On a stale message the handler makes only the calls the validity check makes. */
  lemma StaleMessageAnswered(q: CallbackQuery, myOption: nat, payload: string)
    requires myOption < 3 && Pressed(q, payload) && payload != Again
    requires q.message.None? || !HasText(q.message.value)
    ensures OnCallbackQuery(q, myOption) == AssertMessageValidity(q, StaleMessage).effects
    ensures OnCallbackQuery(q, myOption)[0] == Answer(q.id, Some(StaleMessage))
  {
    ButtonFields(JStr(GameType), JStr(payload));
    assert AssertMessageValidity(q, StaleMessage).Invalid?;
  }

  /** A query whose payload is not a string is answered with `Error` and nothing else. */
  lemma NonStringPayload(q: CallbackQuery, myOption: nat, v: Json)
    requires myOption < 3 && !v.JStr? && WellFormed(v)
    requires q.data == Some(Stringify(JObj([Member("type", JStr(GameType)), Member("payload", v)])))
    requires q.message.Some? && HasText(q.message.value)
    ensures OnCallbackQuery(q, myOption) == [Answer(q.id, Some(ErrorAnswer))]
  {
    var data := JObj([Member("type", JStr(GameType)), Member("payload", v)]);
    assert WellFormed(data) by {
      assert DistinctKeys(data.members);
      assert forall i :: 0 <= i < |data.members| ==> WellFormed(data.members[i].value);
    }
    CbQueryJsonDataOfStringify(q, data);
    ButtonFields(JStr(GameType), v);
    assert !StrictEqualsString(Some(data), "payload", Again);
    assert AssertMessageValidity(q, StaleMessage).Valid?;
  }
}
