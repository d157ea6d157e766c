/** The typed readers of environment variables and the configuration record
    load_config builds from them (config/config.py). The process environment
    is a map from names to values; loading the .env file into it is not
    modelled. */
module Settings {
  import opened Wrappers
  import opened Text

  type Env = map<string, string>

  /** os.getenv(name): None when the variable is unset. */
  function GetEnv(env: Env, name: string): (r: Option<string>)
    ensures r.Some? <==> name in env
    ensures r.Some? ==> r.value == env[name]
  {
    if name in env then Some(env[name]) else None
  }

  /** os.getenv(name, ""). */
  function GetEnvOr(env: Env, name: string): (r: string)
    ensures name in env ==> r == env[name]
    ensures name !in env ==> r == ""
  {
    if name in env then env[name] else ""
  }

  /** _get_int_env: the default when the variable is unset, empty or not an
      integer as int() reads one; otherwise the integer. */
  function GetIntEnv(env: Env, name: string, default: int): (r: int)
    ensures r == default || (name in env && ParseInt(env[name]) == Some(r))
    ensures name in env && ParseInt(env[name]).Some? ==> r == ParseInt(env[name]).value
    ensures name !in env || AllSpace(env[name]) ==> r == default
  {
    match GetEnv(env, name)
    case None => default
    case Some(raw) =>
      if raw == "" then default
      else
        match ParseInt(raw)
        case None => default
        case Some(v) => v
  }

  /** The words _get_bool_env reads as true, after strip() and lower(). */
  const TrueWords: set<string> := {"1", "true", "yes", "y", "on"}

  /** _get_bool_env: the default only when the variable is unset; a set
      variable is true exactly when its trimmed, lower-cased value is one of
      the true words (so a set but empty variable is false). */
  function GetBoolEnv(env: Env, name: string, default: bool): (r: bool)
    ensures name !in env ==> r == default
    ensures name in env ==> (r <==> LowerAscii(Strip(env[name])) in TrueWords)
  {
    match GetEnv(env, name)
    case None => default
    case Some(raw) => LowerAscii(Strip(raw)) in TrueWords
  }

  /** _get_str_env: the value when it is non-empty, else the default. */
  function GetStrEnv(env: Env, name: string, default: string): (r: string)
    ensures r == default || (name in env && r == env[name])
    ensures name in env && env[name] != "" ==> r == env[name]
    ensures default != "" ==> r != ""
  {
    match GetEnv(env, name)
    case Some(v) => if v != "" then v else default
    case None => default
  }

  /** The dict load_config returns. */
  datatype Config = Config(
    accountToken: string,
    lang: string,
    runTime: string,
    timeoutSeconds: int,
    baseUrl: string,
    telegramEnabled: bool,
    telegramBotToken: string,
    telegramChatId: string,
    telegramPollSeconds: int,
    telegramPollTime: string,
    tokenFetchUrl: string,
    tokenFetchTimeoutSeconds: int)

  const TokenMissing := "TOKEN environment variable is not set"

  /** load_config after the .env file has been loaded into env: a failure
      exactly when a token is required and TOKEN is unset or empty. */
  function LoadConfig(env: Env, requireToken: bool): (r: Result<Config, string>)
    ensures r.Failure? <==> requireToken && GetEnvOr(env, "TOKEN") == ""
    ensures r.Failure? ==> r.error == TokenMissing
    ensures r.Success? ==> r.value.accountToken == GetEnvOr(env, "TOKEN")
    ensures r.Success? && requireToken ==> r.value.accountToken != ""
  {
    var token := GetEnvOr(env, "TOKEN");
    if requireToken && token == "" then
      Failure(TokenMissing)
    else
      Success(Config(
        token,
        GetStrEnv(env, "LANG", "zh_CN"),
        GetStrEnv(env, "RUN_TIME", "04:00"),
        GetIntEnv(env, "TIMEOUT_SECONDS", 5),
        GetStrEnv(env, "BASE_URL", "https://webapi.leigod.com"),
        GetBoolEnv(env, "TELEGRAM_ENABLED", false),
        GetEnvOr(env, "TELEGRAM_BOT_TOKEN"),
        GetEnvOr(env, "TELEGRAM_CHAT_ID"),
        GetIntEnv(env, "TELEGRAM_POLL_SECONDS", 0),
        GetStrEnv(env, "TELEGRAM_POLL_TIME", "00:00"),
        GetStrEnv(env, "TOKEN_FETCH_URL", "https://www.leigod.com/login"),
        GetIntEnv(env, "TOKEN_FETCH_TIMEOUT_SECONDS", 180)))
  }

  /** An integer written as str(n) reads back as n, within the digit limit
      of str() and int(). */
  lemma GetIntEnvReadsBack(env: Env, name: string, n: int, default: int)
    requires DecimalDigits(n) <= MaxStrDigits
    ensures GetIntEnv(env[name := IntToString(n)], name, default) == n
  {
    ParseIntRoundTrip(n);
  }

  /** A numeral behind one of the ASCII separators U+001C to U+001F makes
      int() fail, so the default comes back although strip() would have
      removed the separator. */
  lemma GetIntEnvRejectsSeparator(env: Env, name: string, c: char, n: int, default: int)
    requires 0x1C <= c as int <= 0x1F
    ensures GetIntEnv(env[name := [c] + IntToString(n)], name, default) == default
  {
    ParseIntRejectsSeparator(c, n);
  }

  /** The default of _get_bool_env decides the result exactly when the
      variable is unset. */
  lemma BoolDefaultOnlyWhenUnset(env: Env, name: string)
    ensures GetBoolEnv(env, name, true) != GetBoolEnv(env, name, false) <==> name !in env
  {
  }

  /** Each true word, in any ASCII capitalisation the lower-casing undoes and
      with any surrounding whitespace, reads as true. */
  lemma BoolEnvAcceptsPadded(env: Env, name: string, default: bool, pre: string, word: string, post: string)
    requires AllSpace(pre) && AllSpace(post)
    requires LowerAscii(word) in TrueWords
    ensures GetBoolEnv(env[name := pre + word + post], name, default)
  {
    assert IsStripped(word) by {
      var lw := LowerAscii(word);
      assert |lw| > 0 && !IsSpace(lw[0]) && !IsSpace(lw[|lw| - 1]);
    }
    StripPadded(pre, word, post);
  }

  /** Every word outside the true words, however padded, reads as false. */
  lemma BoolEnvRejectsOthers(env: Env, name: string, default: bool, raw: string)
    requires LowerAscii(Strip(raw)) !in TrueWords
    ensures !GetBoolEnv(env[name := raw], name, default)
  {
  }

  /** With an empty environment and no token required, every setting takes
      its documented default. */
  lemma LoadConfigDefaults()
    ensures LoadConfig(map[], false) == Success(Config(
      "", "zh_CN", "04:00", 5, "https://webapi.leigod.com", false, "", "",
      0, "00:00", "https://www.leigod.com/login", 180))
  {
  }

  /** Whether a token is required changes only whether loading can fail,
      never the configuration loaded. */
  lemma LoadConfigTokenFlag(env: Env)
    requires GetEnvOr(env, "TOKEN") != ""
    ensures LoadConfig(env, true) == LoadConfig(env, false)
  {
  }
}
