/**
 * `src/config.ts`: the settings read from the environment when the program loads. An
 * unset variable is `None`; `undefined` and `null` are not told apart.
 */
module Config {
  import opened Wrappers
  import opened Json

  /** `required(value, name)`: the value when it is a non-empty string, else a `ConfigError`. */
  function Required(value: Option<string>, name: string): (r: Result<string, string>)
    ensures r.Success? <==> value.Some? && value.value != ""
    ensures r.Success? ==> r.value == value.value
    ensures r.Failure? ==> r.error == "The required " + name + " is not set."
  {
    if value.None? || value.value == "" then Failure("The required " + name + " is not set.")
    else Success(value.value)
  }

  /** The environment variables the program reads. */
  datatype Env = Env(
    telegramBotToken: Option<string>,
    firebaseDatabaseUrl: Option<string>,
    firebaseServiceAccountCredential: Option<string>,
    serverToken: Option<string>,
    functionName: Option<string>,
    functionRegion: Option<string>,
    functionProjectId: Option<string>,
    functionTriggerUrl: Option<string>)

  datatype Settings = Settings(
    botToken: string,
    databaseUrl: string,
    credential: Json,
    serverToken: Option<string>,
    functionName: Option<string>,
    functionRegion: Option<string>,
    functionProjectId: Option<string>,
    triggerUrl: Option<string>)

  /** Why loading stops: a missing required variable, or a credential that is not JSON. */
  datatype ConfigError =
    | Missing(message: string)
    | CredentialNotJson

  function IsSet(v: Option<string>): bool {
    v.Some? && v.value != ""
  }

  /**
   * `CLOUD_FUNCTION_TRIGGER_URL`: the address Google Cloud Functions gives the function
   * when name, region and project are all set, otherwise `X_FUNCTION_TRIGGER_URL` as it is.
   */
  function TriggerUrl(name: Option<string>, region: Option<string>, project: Option<string>, fallback: Option<string>): (r: Option<string>)
    ensures IsSet(name) && IsSet(region) && IsSet(project) ==>
      r == Some("https://" + region.value + "-" + project.value + ".cloudfunctions.net/" + name.value)
    ensures !(IsSet(name) && IsSet(region) && IsSet(project)) ==> r == fallback
  {
    if IsSet(name) && IsSet(region) && IsSet(project) then
      Some("https://" + region.value + "-" + project.value + ".cloudfunctions.net/" + name.value)
    else fallback
  }

  const BotTokenName := "environment variable \"TELEGRAM_BOT_TOKEN\""
  const DatabaseUrlName := "environment variable \"FIREBASE_DATABASE_URL\""
  const CredentialName := "environment variable \"FIREBASE_SERVICE_ACCOUNT_CREDENTIAL\""

  /**
   * Loading the module: the three required variables in the order they are read, the
   * credential parsed as JSON, then the optional settings.
   */
  function Load(env: Env): (r: Result<Settings, ConfigError>)
    ensures r.Success? <==> (IsSet(env.telegramBotToken) && IsSet(env.firebaseDatabaseUrl)
      && IsSet(env.firebaseServiceAccountCredential) && Parse(env.firebaseServiceAccountCredential.value).Some?)
    ensures !IsSet(env.telegramBotToken) ==> r == Failure(Missing("The required " + BotTokenName + " is not set."))
    ensures IsSet(env.telegramBotToken) && !IsSet(env.firebaseDatabaseUrl) ==>
      r == Failure(Missing("The required " + DatabaseUrlName + " is not set."))
    ensures IsSet(env.telegramBotToken) && IsSet(env.firebaseDatabaseUrl) && !IsSet(env.firebaseServiceAccountCredential) ==>
      r == Failure(Missing("The required " + CredentialName + " is not set."))
    ensures r.Success? ==> (r.value.botToken == env.telegramBotToken.value
      && r.value.databaseUrl == env.firebaseDatabaseUrl.value
      && Some(r.value.credential) == Parse(env.firebaseServiceAccountCredential.value))
    ensures (IsSet(env.telegramBotToken) && IsSet(env.firebaseDatabaseUrl) && IsSet(env.firebaseServiceAccountCredential)
      && Parse(env.firebaseServiceAccountCredential.value).None?) ==> r == Failure(CredentialNotJson)
    ensures r.Success? ==> (r.value.serverToken == env.serverToken
      && r.value.functionName == env.functionName
      && r.value.functionRegion == env.functionRegion
      && r.value.functionProjectId == env.functionProjectId
      && r.value.triggerUrl == TriggerUrl(env.functionName, env.functionRegion, env.functionProjectId, env.functionTriggerUrl))
  {
    match Required(env.telegramBotToken, BotTokenName)
    case Failure(m) => Failure(Missing(m))
    case Success(token) =>
      match Required(env.firebaseDatabaseUrl, DatabaseUrlName)
      case Failure(m) => Failure(Missing(m))
      case Success(url) =>
        match Required(env.firebaseServiceAccountCredential, CredentialName)
        case Failure(m) => Failure(Missing(m))
        case Success(text) =>
          match Parse(text)
          case None => Failure(CredentialNotJson)
          case Some(credential) =>
            Success(Settings(token, url, credential, env.serverToken,
              env.functionName, env.functionRegion, env.functionProjectId,
              TriggerUrl(env.functionName, env.functionRegion, env.functionProjectId, env.functionTriggerUrl)))
  }

  /**
   * Running on Google Cloud Functions: once loading succeeds with name, region and project
   * all set, the trigger URL is the address built from them, whatever `X_FUNCTION_TRIGGER_URL`
   * says; otherwise it is that variable unchanged.
   */
  lemma LoadedTriggerUrl(env: Env)
    requires Load(env).Success?
    ensures IsSet(env.functionName) && IsSet(env.functionRegion) && IsSet(env.functionProjectId) ==>
      Load(env).value.triggerUrl == Some("https://" + env.functionRegion.value + "-"
        + env.functionProjectId.value + ".cloudfunctions.net/" + env.functionName.value)
    ensures !(IsSet(env.functionName) && IsSet(env.functionRegion) && IsSet(env.functionProjectId)) ==>
      Load(env).value.triggerUrl == env.functionTriggerUrl
  {
  }
}
