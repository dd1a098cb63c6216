# Telegram bot features and utilities, modelled in Dafny

This project models the core of a Telegram bot that runs as a Firebase cloud function:

- **Bot utilities** (`src/bot/utils.ts`):
  - `lines` joins text lines.
  - `getCbQueryJsonData` reads a button's JSON data.
  - `assertCbQueryMessageValidity` checks that a callback query still has a usable message.
  - The *hidden payload* is a JSON object sent along with a message. It is percent-encoded into the URL of a `text_link` entity that covers a leading zero-width space. `getHiddenPayload` reads it back from the message a user replies to.
  - `patchBotToSupportMutipleEventHandlers` lets several features register handlers for the same update type. It defers the `'message'` listener until every other listener is attached.
- **Rock-paper-scissors game** (`src/bot/rock-paper-scissors.ts`): the opening message, the buttons, the scoring and the calls of one round.
- **Counter** (`src/bot/counter.ts`): a number in a message that the ➕ and ➖ buttons step. A "Set" conversation also sets it, through a forced reply that carries a hidden payload.
- **`/firebase_*` commands** (`src/bot/firebase.ts`): these parse their arguments with regular expressions and read and write under `data/`.
- **Configuration** (`src/config.ts`): the settings read from the environment, with required variables and the derived trigger URL.

The modelling choices:

- **Handler results.** Every handler is a pure function from the incoming update to the list of Telegram and database calls it makes, in order. These calls are the `Effect` records of module `Telegram`.
- **Failures.** `undefined`, `null` and thrown errors become `Option`/`Result` values.
- **Randomness.** The random choice of the game is a parameter.
- **Standard library.** `JSON.parse`/`JSON.stringify`, `encodeURIComponent`/`decodeURIComponent` (UTF-8 included) and `parseInt` are modelled concretely. The project proves the round trips the bot relies on.

Modules, one per file:

| Module | Role |
|---|---|
| `Wrappers`, `Sequences` | Generic helpers |
| `Lines` | `lines` and `split('\n')` |
| `Decimal` | `parseInt` and number-to-text |
| `Hex` | Hex digits |
| `Json`, `JsonRoundTrip`, `JsonPrefix` | JSON, its round trip, and parsing text cut short |
| `Uri`, `UriRoundTrip`, `UriErrors` | Percent-encoding, its round trip, and where decoding throws |
| `Telegram` | Messages, queries and effects |
| `CallbackQueries` | Callback-query helpers |
| `HiddenPayload` | The hidden payload |
| `Registry` | The multiple-handler patch |
| `RockPaperScissors` | The game |
| `Counter` | The counter |
| `FirebaseCommands` | The `/firebase_*` commands |
| `Config` | Configuration |

## Model

| member | source | states |
|---|---|---|
| Lines.Join | src/bot/utils.ts:20-22 | `lines(a, …)` has the parts' total length plus one separator between each pair; it is the first part, then (with two or more parts) a line break and `lines` of the rest |
| Lines.SplitJoin | src/bot/utils.ts:20-22 | splitting `lines(...)` at line breaks gives back the parts, when no part holds a line break |
| Lines.FirstLineOfJoin | src/bot/utils.ts:20-22 | the first line of `lines(a, …)` is `a` whenever `a` holds no line break, whatever the later parts hold |
| Lines.FirstLineIsPrefix | src/bot/rock-paper-scissors.ts:56 | `text.split('\n')[0]` is a prefix of the text, holds no line break, and ends where the first line break is |
| CallbackQueries.CbQueryJsonData | src/bot/utils.ts:47-55 | missing data gives `undefined`; present data gives `JSON.parse` of it, `undefined` when the parse throws |
| CallbackQueries.CbQueryJsonDataOfStringify | src/bot/utils.ts:47-55 | a query whose data is the JSON text of a value gives back that value |
| CallbackQueries.AssertMessageValidity | src/bot/utils.ts:62-100 | valid exactly when the message is present with non-empty text, in which case it returns that message and text. Otherwise it answers the query with the error message first, then clears the inline keyboard if and only if there is a message |
| HiddenPayload.WithHiddenPayload | src/bot/utils.ts:121-123 | the text with one zero-width space in front of it |
| HiddenPayload.PayloadUrl | src/bot/utils.ts:149-151 | the payload URL starts with `http://x-bot-payload.invalid/` and continues with the percent-encoded JSON |
| HiddenPayload.HiddenPayloadEntities | src/bot/utils.ts:140-155 | one `text_link` entity over the first character, whose URL after the prefix decodes to the payload's JSON |
| HiddenPayload.FindPayloadEntity | src/bot/utils.ts:181-185 | `None` exactly when no entity's URL has the prefix; otherwise the first entity whose URL has it |
| HiddenPayload.TakeUntil | src/bot/utils.ts:191 | a prefix of the text at which the separator starts (unless it is the whole text), and at no earlier position of which the separator starts: the text before the first occurrence, or all of it |
| HiddenPayload.PayloadSegment | src/bot/utils.ts:191 | the second piece of `url.split(prefix)`: what follows the leading prefix, up to the first later occurrence of the prefix or the end |
| HiddenPayload.ParseNonNull | src/bot/utils.ts:195-201 | a parsed value other than `null` is returned; a thrown parse and a parsed `null` both read as `null` |
| HiddenPayload.GetHiddenPayload | src/bot/utils.ts:173-202 | a message without entities has no payload, and a payload read back is never `null` |
| HiddenPayload.SegmentOfPayloadUrl | src/bot/utils.ts:187-195 | splitting the payload URL at the prefix yields exactly the percent-encoded JSON, because the encoding never contains `:` |
| HiddenPayload.HiddenPayloadRoundTrip | src/bot/utils.ts:140-202 | a message carrying `hiddenPayload(p)` reads back `p`, for every well-formed non-null `p` |
| HiddenPayload.PayloadObjectRoundTrip | src/bot/utils.ts:9-11 | every `PayloadObject` survives the hidden-payload round trip |
| HiddenPayload.FirstEntityWins | src/bot/utils.ts:181-183 | with two payload entities, the first in list order is read |
| HiddenPayload.NoPayloadEntity | src/bot/utils.ts:179-185 | entities without a prefixed URL give `null` |
| HiddenPayload.EmptySegment | src/bot/utils.ts:181-193 | for any message, when the first prefixed entity's segment is empty, the payload is `null` |
| HiddenPayload.UndecodableSegment | src/bot/utils.ts:181-201 | for any message, when the first prefixed entity's segment does not percent-decode, the payload is `null` |
| HiddenPayload.UnparsableSegment | src/bot/utils.ts:181-201 | for any message, when the segment decodes to text that is not JSON, or is the JSON `null`, the payload is `null` |
| HiddenPayload.ParsedSegment | src/bot/utils.ts:181-201 | for any message, when the segment decodes to the JSON of a value other than `null`, the payload is that value |
| HiddenPayload.TruncatedPayloadUrl | src/bot/utils.ts:173-202 | a message whose only entity carries the URL `hiddenPayload` writes, cut short at any length, has the payload `null`, for every payload that is not a bare number: no cut yields a different payload |
| Uri.EncodeURIComponent | src/bot/utils.ts:149-151 | the encoding is at least as long as the text; every character is unreserved, `%` or a hexadecimal digit, and every `%` is followed by two upper-case hexadecimal digits |
| UriRoundTrip.DecodeEncode | src/bot/utils.ts:195 | `decodeURIComponent(encodeURIComponent(s)) == s` for every string |
| UriRoundTrip.EncodedHasNoSeparators | src/bot/utils.ts:191 | no encoded text holds `:` or `/`, so it cannot contain the payload URL prefix |
| UriErrors.DecodeTruncatedEscape | src/bot/utils.ts:195 | a `%` anywhere in the text without two hexadecimal digits after it makes decoding throw |
| UriErrors.DecodeAppend | src/bot/utils.ts:195 | text that decodes decodes the same way in front of any other text; the whole decodes exactly when the rest does, to the two decodings joined |
| UriErrors.DecodeMalformedUtf8 | src/bot/utils.ts:195 | after any text that decodes, an escaped byte that never starts a UTF-8 sequence (a continuation byte, `C0`, `C1`, `F5` to `FF`) makes decoding throw |
| UriErrors.DecodeTruncated | src/bot/utils.ts:195 | `encodeURIComponent(s)` cut anywhere before its end throws on decoding or decodes to a proper prefix of `s` |
| JsonPrefix.ValuePrefix | src/bot/utils.ts:195 | a proper prefix of the JSON of a value fails to parse, or parses as a number with no text left over |
| JsonPrefix.ParsePrefix | src/bot/utils.ts:195 | `JSON.parse` refuses every proper prefix of the JSON of a value other than a number |
| Decimal.ParseIntRoundTrip | src/bot/counter.ts:71-86 | `parseInt(String(n))` is `n` for every integer, so the number shown is the number read back |
| Decimal.ParseIntDefined | src/bot/counter.ts:71-79 | `parseInt` gives a number, and not `NaN`, exactly when the text after leading white space starts with a digit, or with `-` or `+` and then a digit |
| Decimal.ParseIntEmpty | src/bot/counter.ts:111-116 | `parseInt('')` is `NaN` |
| Decimal.IntTextRoundTrip | src/bot/counter.ts:71-86 | text written the way `toString` writes an integer (no leading zero, no `-0`) parses to a number whose `toString` is that same text |
| Json.AssignDistinct | src/bot/utils.ts:51 | assigning a property while parsing keeps every key unique |
| JsonRoundTrip.ParseStringify | src/bot/utils.ts:195 | `JSON.parse(JSON.stringify(v))` is `v` for every well-formed value |
| JsonRoundTrip.ParseEmpty | src/bot/utils.ts:51 | `JSON.parse('')` throws |
| Telegram.ButtonData | src/bot/rock-paper-scissors.ts:111-114 | button data `JSON.stringify({ type, payload })` parses back to that object |
| Registry.RegisterOne | src/bot/utils.ts:226-249 | one type's handlers are appended to its list, and every other list is unchanged. Only the type's first registration creates its list and attaches its listener, or defers it when the type is `'message'` |
| Registry.Route | src/bot/utils.ts:232-235 | an update reaches the first attached listener, in attachment order, whose type the update has, and none when no attached type matches |
| Registry.OnAppends | src/bot/utils.ts:221-252 | `bot.on(types, ...fns)` appends `fns` to the list of each listed type once per listing, and changes no other list |
| Registry.RegisterCollects | src/bot/utils.ts:221-252 | after registration, each type's list is the handlers of every call naming it, in call order |
| Registry.BootstrapDispatch | src/bot/utils.ts:221-252 | after bootstrap, the handlers a type dispatches are the registered ones in registration order |
| Registry.RegisterFirstPhase | src/bot/utils.ts:227-244 | during registration no listener is attached twice and `'message'` is not attached, and the types with a list are the types some call names |
| Registry.BootstrapAttachesOnce | src/bot/utils.ts:227-244 | after bootstrap every registered type has exactly one listener, and `'message'` is attached last |
| Registry.MessageRoutedLast | src/bot/utils.ts:238-243 | an update that has `'message'` and another registered type reaches the other type's listener, never `'message'` |
| RockPaperScissors.IndexOf | src/bot/rock-paper-scissors.ts:39 | `indexOf` is -1 exactly when the choice is absent; otherwise it is the first index holding it |
| RockPaperScissors.Adjusted | src/bot/rock-paper-scissors.ts:42 | the adjusted index is at most two above the bot's, and the same choice modulo 3, with -1 counting as 2 |
| RockPaperScissors.Score | src/bot/rock-paper-scissors.ts:39-50 | even on equal choices; the player wins when their choice is one step after the bot's modulo 3, and loses when it is two steps after |
| RockPaperScissors.ScoreFollowsRules | src/bot/rock-paper-scissors.ts:42-50 | the score agrees with paper-covers-rock, scissors-cut-paper and rock-breaks-scissors |
| RockPaperScissors.UnknownChoiceIsScissors | src/bot/rock-paper-scissors.ts:39-42 | a payload that is none of the options scores like scissors |
| RockPaperScissors.NewGame | src/bot/rock-paper-scissors.ts:103-133 | the opening message has two lines, the prompt and the ✊ ✊ line, and carries the three-choice keyboard |
| RockPaperScissors.Command | src/bot/rock-paper-scissors.ts:135 | `/rock_paper_scissors` replies to the command message with one new game |
| RockPaperScissors.Play | src/bot/rock-paper-scissors.ts:52-94 | a round makes four calls: edit, reply, clear the keyboard, and answer the query last |
| RockPaperScissors.OnCallbackQuery | src/bot/rock-paper-scissors.ts:20-101 | queries of other features make no call; "Play again" answers and starts a new game without checking the message, and when the query carries no message the reply has no chat, throws, and the query is also answered `Error` |
| RockPaperScissors.PressAgain | src/bot/rock-paper-scissors.ts:21-99 | pressing the "Play again" button answers the query, then starts a new game when the query has a message, or answers `Error` when it has none |
| RockPaperScissors.PressOption | src/bot/rock-paper-scissors.ts:31-94 | pressing a choice on a message with text plays that choice |
| RockPaperScissors.PlayedText | src/bot/rock-paper-scissors.ts:52-58 | the edited message keeps the original first line and names both choices on the second |
| RockPaperScissors.PlayedResult | src/bot/rock-paper-scissors.ts:42-72 | the reply says "Even!", "You won!" or "I won!" exactly as the rules decide |
| RockPaperScissors.StaleMessageAnswered | src/bot/rock-paper-scissors.ts:31 | on a message without text, only the validity check's calls are made, beginning with the "no longer valid" answer |
| RockPaperScissors.NonStringPayload | src/bot/rock-paper-scissors.ts:37-100 | a payload that is not a string is answered with `Error` and nothing else |
| Counter.SetPromptPayload | src/bot/counter.ts:60-65 | the "set" payload is a `PayloadObject` naming the counter type, the `set` action, and the message and chat ids |
| Counter.SetPromptReply | src/bot/counter.ts:57-69 | the prompt is a forced reply to the counter message whose hidden payload is that object |
| Counter.Step | src/bot/counter.ts:71-79 | the new value is one more for ➕, one less for ➖, unchanged otherwise, and 0 when the text is not a number |
| Counter.OnCallbackQuery | src/bot/counter.ts:49-97 | queries of other features make no call, and a stale message makes only the validity check's calls |
| Counter.OnMessage | src/bot/counter.ts:99-136 | a message that replies to nothing, to a message without a hidden payload, or to one whose payload has a `type` other than `'counter'` or an `action` other than `'set'`, makes no call |
| Counter.Command | src/bot/counter.ts:138 | `/counter` sends one message with the counter keyboard |
| Counter.CommandShowsZero | src/bot/counter.ts:138 | the new counter reads as 0, and ➕ takes it to 1 |
| Counter.StepShownNumber | src/bot/counter.ts:71-77 | on a message showing `k`, ➕ gives `k + 1` and ➖ gives `k - 1` |
| Counter.PressPlus | src/bot/counter.ts:71-90 | pressing ➕ on a message showing `k` edits it to `k + 1` and then answers the query |
| Counter.PressedData | src/bot/counter.ts:22-46 | a counter button's data reads back as the counter type and the button's payload |
| Counter.PressOnGarbage | src/bot/counter.ts:71-79 | a button pressed on a message that shows no number resets it to 0 |
| Counter.PressSet | src/bot/counter.ts:57-69 | "Set" sends only the prompt, with no edit and no answer |
| Counter.SetConversation | src/bot/counter.ts:99-131 | replying `n` to the prompt for counter message `m` edits `m` to show `n` and confirms with "Counter has been set to n" |
| Counter.SetNotANumber | src/bot/counter.ts:111-116 | a reply to the prompt that is not a number gets "Invalid number" and changes nothing |
| FirebaseCommands.StoragePath | src/bot/firebase.ts:40 | every path is stored under `data/` |
| FirebaseCommands.PathRun | src/bot/firebase.ts:29-32 | the greedy `[^ \r\n]+` takes the longest run without a separator |
| FirebaseCommands.MatchPathValue | src/bot/firebase.ts:29-32 | a match splits the text into command prefix, non-empty path, one separator, and value |
| FirebaseCommands.MatchPathValueComplete | src/bot/firebase.ts:29-32 | every text of that shape matches, with exactly that path and value |
| FirebaseCommands.MatchPath | src/bot/firebase.ts:56 | `^\/<command> ([^ ]+)$` matches exactly a command prefix followed by a non-empty space-free rest, which is the path |
| FirebaseCommands.SetData | src/bot/firebase.ts:27-51 | only the usage is sent exactly when the text does not match, and nothing outside `data/` is touched |
| FirebaseCommands.GetData | src/bot/firebase.ts:53-70 | only the usage is sent exactly when the text does not match, and reads stay under `data/` |
| FirebaseCommands.SetDataJson | src/bot/firebase.ts:72-113 | a text that does not match gets only the usage, and writes stay under `data/` |
| FirebaseCommands.GetDataJson | src/bot/firebase.ts:115-137 | only the usage is sent exactly when the text does not match, and reads stay under `data/` |
| FirebaseCommands.SetDataWrites | src/bot/firebase.ts:40-47 | a well-shaped command writes the value as a string at `data/<path>` and confirms |
| FirebaseCommands.SetDataJsonWrites | src/bot/firebase.ts:74-109 | for every text `JSON.parse` accepts, the value it denotes is written at `data/<path>`, followed by the one confirmation naming `/firebase_get_data_json <path>`, and nothing else happens |
| FirebaseCommands.SetDataJsonStoresValue | src/bot/firebase.ts:79-102 | given the JSON text of a value, that value itself is what is written at `data/<path>` |
| FirebaseCommands.SetDataJsonInvalid | src/bot/firebase.ts:79-100 | text that is not JSON is named in a reply, followed by the usage, and nothing is written |
| FirebaseCommands.SetDataJsonEmpty | src/bot/firebase.ts:79-100 | an empty JSON text gets only the usage |
| FirebaseCommands.GetDataReads | src/bot/firebase.ts:53-137 | both get commands read `data/<path>` for every non-empty space-free path |
| Config.Required | src/config.ts:6-14 | a set, non-empty value is returned; otherwise the error names the variable |
| Config.TriggerUrl | src/config.ts:58-63 | when name, region and project are all set, the URL is `https://<region>-<project>.cloudfunctions.net/<name>`; otherwise it is the fallback variable as it is |
| Config.Load | src/config.ts:17-63 | loading succeeds exactly when the three required variables are set and the credential is JSON. It fails on the first missing variable in reading order, and with CredentialNotJson when all three are set but the credential does not parse. On success it keeps the three values it read and the four optional variables unchanged, and the trigger URL is TriggerUrl of name, region, project and `X_FUNCTION_TRIGGER_URL` |
| Config.LoadedTriggerUrl | src/config.ts:44-63 | after a successful load, the trigger URL is the cloudfunctions.net address when name, region and project are all set, and `X_FUNCTION_TRIGGER_URL` unchanged otherwise |

## Left out

- **Numbers.** JavaScript number semantics are not modelled: floating point, and `parseInt` or `String(n)` beyond the safe-integer range. JSON numbers are integers only, so the model's parser refuses fractions and exponents that `JSON.parse` accepts.
- **Object key order.** JavaScript objects put integer-like keys first; model objects keep plain insertion order. A repeated key keeps its first position and takes its last value, as in JavaScript.
- **Surrogates.** JSON `\uXXXX` escapes that denote surrogate halves, and lone UTF-16 surrogates in strings, are not modelled. The model's strings are sequences of Unicode scalar values.
- **Telegram client.** Its internals are not modelled:
  - which chat `ctx.reply` answers in (the model does keep its refusal when there is no chat at all, as for a "Play again" query without a message);
  - how `bot.command` matches a command, including `@botname` suffixes;
  - `next()`.

  A listener is assumed to stop at its own handlers, so an update reaches one listener.
- **Async and error paths.**
  - The promise-based order in which asynchronous calls finish is not modelled.
  - Failures of network calls are not modelled, including the `catch` that answers `Error` when an API call rejects.
  - Console logging is not modelled.

  A handler's effects are the calls in the order they are made. `Promise.all` groups are listed in source order.
- **Timers.** `delay` and `setTimeout` are not modelled as time. The one-second pause of the game is an ordering. The deferred `'message'` listener is the second registration phase, `Flush`.
- **Database reads.** The value a read returns and the pretty-printed JSON of `/firebase_get_data_json` are not modelled; a read is a `DbReadReply` effect naming the path.
- **Randomness.** `Math.random` becomes the bot's choice, an index below 3 passed in.
- **Accessors.** `getCbQueryData`, `getMessageText` and `getReplyToMessage` are plain record fields.
- **Command lists.** The `COMMANDS` lists are static data that no operation reads.
- **Other files.** `src/firebase.ts`, `src/bot/index.ts` and `src/index.ts` are not part of this model: they hold the Firebase SDK setup, the bot wiring and the HTTP entry point.
- Counter.Command: states the keyboard and the single reply. That the text reads as 0 is stated separately, by Counter.CommandShowsZero.
- Counter.OnCallbackQuery: the contract covers the filtering and stale-message cases; the stepping and "Set" cases are stated by Counter.PressPlus, Counter.PressOnGarbage and Counter.PressSet.
- Counter.OnMessage: the contract covers every case that makes no call; the "set" cases are stated by Counter.SetConversation and Counter.SetNotANumber.
- RockPaperScissors.OnCallbackQuery: the contract covers the filtering and "Play again" cases (with and without a message); the play, stale and error cases are stated by RockPaperScissors.PressOption, RockPaperScissors.StaleMessageAnswered and RockPaperScissors.NonStringPayload.
- FirebaseCommands.SetDataJson: the contract covers the non-matching case; writing and invalid JSON are stated by FirebaseCommands.SetDataJsonWrites, FirebaseCommands.SetDataJsonInvalid and FirebaseCommands.SetDataJsonEmpty.
- FirebaseCommands.SetDataJson: since the model's JSON has integers only, `/firebase_set_data_json p 1.5` (or `1e3`) is answered as not valid JSON, followed by the usage, and nothing is written; the bot writes the number.
- HiddenPayload.GetHiddenPayload: the contract covers only the missing-entities case and non-null results. The other outcomes are stated for every message by HiddenPayload.NoPayloadEntity, EmptySegment, UndecodableSegment, UnparsableSegment and ParsedSegment, which together cover every path through the function.
