/**
 * The `/firebase_*` commands of `src/bot/firebase.ts`: the arguments are cut out of the
 * message text by regular expressions, and data lives under `data/` in the database.
 */
module FirebaseCommands {
  import opened Wrappers
  import opened Json
  import opened Lines
  import opened Telegram
  import JsonRoundTrip

  const SetDataCommand := "firebase_set_data"
  const GetDataCommand := "firebase_get_data"
  const SetDataJsonCommand := "firebase_set_data_json"
  const GetDataJsonCommand := "firebase_get_data_json"

  const SetDataUsage := "*Usage:* `/firebase_set_data <path> <value>`"
  const GetDataUsage := "*Usage:* `/firebase_get_data <path>`"
  const SetDataJsonUsage := "*Usage:* `/firebase_set_data_json <path> <json>`"
  const GetDataJsonUsage := "*Usage:* `/firebase_get_data_json <path>`"

  /** The characters `[ \r\n]` matches: what ends a path. */
  predicate IsSeparator(c: char) {
    c == ' ' || c == '\r' || c == '\n'
  }

  predicate NoSeparator(s: string) {
    forall i :: 0 <= i < |s| ==> !IsSeparator(s[i])
  }

  /** Where every command reads and writes. */
  function StoragePath(path: string): (r: string)
    ensures |r| == |path| + 5 && StartsWith(r, "data/") && r[5..] == path
  {
    "data/" + path
  }

  /** `/<command> ` at the front of every match. */
  function CommandPrefix(command: string): (r: string)
    ensures |r| == |command| + 2 && r[0] == '/' && r[|r| - 1] == ' '
  {
    "/" + command + " "
  }

  /** The longest separator-free run at the front of `s`: what the greedy `[^ \r\n]+` takes. */
  function PathRun(s: string): (r: string)
    ensures |r| <= |s| && r == s[..|r|] && NoSeparator(r)
    ensures |r| < |s| ==> IsSeparator(s[|r|])
  {
    if s != [] && !IsSeparator(s[0]) then [s[0]] + PathRun(s[1..]) else []
  }

  /**
   * `text` has the shape `^\/<command> ([^ \r\n]+)[ \r\n]([\s\S]*)$` with `path` and
   * `value` as its groups and `sep` as the separator.
   */
  predicate PathValueShape(text: string, command: string, path: string, sep: char, value: string) {
    && path != [] && NoSeparator(path) && IsSeparator(sep)
    && text == CommandPrefix(command) + path + [sep] + value
  }

  /** The two groups of `^\/<command> ([^ \r\n]+)[ \r\n]([\s\S]*)$`, `None` when it does not match. */
  function MatchPathValue(text: string, command: string): (r: Option<(string, string)>)
    ensures r.Some? ==> exists sep :: PathValueShape(text, command, r.value.0, sep, r.value.1)
  {
    var prefix := CommandPrefix(command);
    if |text| < |prefix| || text[..|prefix|] != prefix then None
    else
      var rest := text[|prefix|..];
      var path := PathRun(rest);
      if path == [] || |path| == |rest| then None
      else
        var value := rest[|path| + 1..];
        assert text == prefix + rest;
        assert rest == path + [rest[|path|]] + value;
        assert PathValueShape(text, command, path, rest[|path|], value);
        Some((path, value))
  }

  /** The pattern has one way to match: any split of the text in its shape is the one found. */
  lemma MatchPathValueComplete(text: string, command: string, path: string, sep: char, value: string)
    requires PathValueShape(text, command, path, sep, value)
    ensures MatchPathValue(text, command) == Some((path, value))
  {
    var prefix := CommandPrefix(command);
    var rest := text[|prefix|..];
    assert text[..|prefix|] == prefix;
    assert rest == path + [sep] + value;
    PathRunOf(path, sep, value);
    assert rest[|path| + 1..] == value;
  }

  lemma {:induction false} PathRunOf(path: string, sep: char, value: string)
    requires NoSeparator(path) && IsSeparator(sep)
    ensures PathRun(path + [sep] + value) == path
  {
    if path != [] {
      assert (path + [sep] + value)[1..] == path[1..] + [sep] + value;
      PathRunOf(path[1..], sep, value);
      assert [path[0]] + path[1..] == path;
    } else {
      assert (path + [sep] + value)[0] == sep;
    }
  }

  /** The group of `^\/<command> ([^ ]+)$`: the whole rest of the text, one or more non-spaces. */
  function MatchPath(text: string, command: string): (r: Option<string>)
    ensures r.Some? <==> (|text| > |CommandPrefix(command)| && text[..|CommandPrefix(command)|] == CommandPrefix(command)
      && ' ' !in text[|CommandPrefix(command)|..])
    ensures r.Some? ==> text == CommandPrefix(command) + r.value
  {
    var prefix := CommandPrefix(command);
    if |text| < |prefix| || text[..|prefix|] != prefix then None
    else
      var rest := text[|prefix|..];
      assert text == prefix + rest;
      if rest == [] || ' ' in rest then None else Some(rest)
  }

  /** `/firebase_set_data <path> <value>`: store the value as a string. */
  function SetData(text: string): (effects: seq<Effect>)
    ensures UnderData(effects)
    ensures MatchPathValue(text, SetDataCommand).None? <==> effects == [Reply(SetDataUsage, MarkdownV2)]
  {
    match MatchPathValue(text, SetDataCommand)
    case None => [Reply(SetDataUsage, MarkdownV2)]
    case Some((path, value)) =>
      [ DbWrite(StoragePath(path), JStr(value)),
        Reply("Data has been set, you can now use `/firebase_get_data " + path + "` to retrieve it", MarkdownV2) ]
  }

  /** `/firebase_get_data <path>`: reply with the stored value. */
  function GetData(text: string): (effects: seq<Effect>)
    ensures UnderData(effects)
    ensures MatchPath(text, GetDataCommand).None? <==> effects == [Reply(GetDataUsage, MarkdownV2)]
  {
    match MatchPath(text, GetDataCommand)
    case None => [Reply(GetDataUsage, MarkdownV2)]
    case Some(path) => [DbReadReply(StoragePath(path), false)]
  }

  /** The reply naming text that is not JSON. */
  function NotJsonReply(json: string): Effect {
    Reply(Join(["```json", json, "```", "is not valid JSON"]), MarkdownV2)
  }

  /**
   * `/firebase_set_data_json <path> <json>`: store the parsed value. Text that is not JSON
   * is named first when it is not empty; every failure ends with the usage.
   */
  function SetDataJson(text: string): (effects: seq<Effect>)
    ensures UnderData(effects)
    ensures |effects| >= 1
    ensures MatchPathValue(text, SetDataJsonCommand).None? ==> effects == [Reply(SetDataJsonUsage, MarkdownV2)]
  {
    match MatchPathValue(text, SetDataJsonCommand)
    case None => [Reply(SetDataJsonUsage, MarkdownV2)]
    case Some((path, json)) =>
      match Parse(json)
      case Some(v) =>
        [ DbWrite(StoragePath(path), v),
          Reply("Data has been set, you can now use `/firebase_get_data_json " + path + "` to retrieve it", MarkdownV2) ]
      case None =>
        (if json != "" then [NotJsonReply(json)] else []) + [Reply(SetDataJsonUsage, MarkdownV2)]
  }

  /** `/firebase_get_data_json <path>`: reply with the stored value as JSON. */
  function GetDataJson(text: string): (effects: seq<Effect>)
    ensures UnderData(effects)
    ensures MatchPath(text, GetDataJsonCommand).None? <==> effects == [Reply(GetDataJsonUsage, MarkdownV2)]
  {
    match MatchPath(text, GetDataJsonCommand)
    case None => [Reply(GetDataJsonUsage, MarkdownV2)]
    case Some(path) => [DbReadReply(StoragePath(path), true)]
  }

  // ------------------------------------------------------------ lemmas

  /** Every read and write lands under `data/`. */
  predicate UnderData(effects: seq<Effect>) {
    forall i :: 0 <= i < |effects| ==>
      (effects[i].DbWrite? ==> StartsWith(effects[i].path, "data/"))
      && (effects[i].DbReadReply? ==> StartsWith(effects[i].path, "data/"))
  }

  /** A well-shaped `/firebase_set_data` writes the value as a string at `data/<path>` and confirms. */
  lemma SetDataWrites(path: string, sep: char, value: string)
    requires path != [] && NoSeparator(path) && IsSeparator(sep)
    ensures SetData(CommandPrefix(SetDataCommand) + path + [sep] + value) == [
      DbWrite("data/" + path, JStr(value)),
      Reply("Data has been set, you can now use `/firebase_get_data " + path + "` to retrieve it", MarkdownV2)]
  {
    MatchPathValueComplete(CommandPrefix(SetDataCommand) + path + [sep] + value, SetDataCommand, path, sep, value);
  }

  /** Valid JSON is written as the value it denotes at `data/<path>`, then confirmed. */
  lemma SetDataJsonWrites(path: string, sep: char, json: string, v: Json)
    requires path != [] && NoSeparator(path) && IsSeparator(sep) && Parse(json) == Some(v)
    ensures SetDataJson(CommandPrefix(SetDataJsonCommand) + path + [sep] + json) == [
      DbWrite("data/" + path, v),
      Reply("Data has been set, you can now use `/firebase_get_data_json " + path + "` to retrieve it", MarkdownV2)]
  {
    MatchPathValueComplete(CommandPrefix(SetDataJsonCommand) + path + [sep] + json, SetDataJsonCommand, path, sep, json);
  }

  /** `/firebase_set_data_json` given the JSON of a value stores exactly that value. */
  lemma SetDataJsonStoresValue(path: string, sep: char, v: Json)
    requires path != [] && NoSeparator(path) && IsSeparator(sep) && WellFormed(v)
    ensures SetDataJson(CommandPrefix(SetDataJsonCommand) + path + [sep] + Stringify(v))[0] == DbWrite("data/" + path, v)
  {
    JsonRoundTrip.ParseStringify(v);
    SetDataJsonWrites(path, sep, Stringify(v), v);
  }

  /** Text that is not JSON is named, then the usage follows, and nothing is written. */
  lemma SetDataJsonInvalid(path: string, sep: char, json: string)
    requires path != [] && NoSeparator(path) && IsSeparator(sep)
    requires json != "" && Parse(json).None?
    ensures SetDataJson(CommandPrefix(SetDataJsonCommand) + path + [sep] + json)
      == [NotJsonReply(json), Reply(SetDataJsonUsage, MarkdownV2)]
  {
    MatchPathValueComplete(CommandPrefix(SetDataJsonCommand) + path + [sep] + json, SetDataJsonCommand, path, sep, json);
  }

  /** An empty JSON text gets only the usage. */
  lemma SetDataJsonEmpty(path: string, sep: char)
    requires path != [] && NoSeparator(path) && IsSeparator(sep)
    ensures SetDataJson(CommandPrefix(SetDataJsonCommand) + path + [sep]) == [Reply(SetDataJsonUsage, MarkdownV2)]
  {
    var text := CommandPrefix(SetDataJsonCommand) + path + [sep];
    assert text == text + [];
    MatchPathValueComplete(text, SetDataJsonCommand, path, sep, []);
    JsonRoundTrip.ParseEmpty();
  }

  /** `/firebase_get_data <path>` reads `data/<path>` for any non-empty space-free path. */
  lemma GetDataReads(path: string)
    requires path != [] && ' ' !in path
    ensures GetData(CommandPrefix(GetDataCommand) + path) == [DbReadReply("data/" + path, false)]
    ensures GetDataJson(CommandPrefix(GetDataJsonCommand) + path) == [DbReadReply("data/" + path, true)]
  {
    var text := CommandPrefix(GetDataCommand) + path;
    assert text[..|CommandPrefix(GetDataCommand)|] == CommandPrefix(GetDataCommand);
    assert text[|CommandPrefix(GetDataCommand)|..] == path;
    var textJson := CommandPrefix(GetDataJsonCommand) + path;
    assert textJson[..|CommandPrefix(GetDataJsonCommand)|] == CommandPrefix(GetDataJsonCommand);
    assert textJson[|CommandPrefix(GetDataJsonCommand)|..] == path;
  }
}
