/**
 * The settings module config.py: environment lookups with defaults, the four validations
 * run at import time in a fixed order, and the tolerant integer reader `_as_int`.
 * The environment (after `.env` is loaded) is a map from variable name to value.
 */
module Config {
  import opened Wrappers
  import opened Text
  import opened Numerals

  type Env = map<string, string>

  const AllowedChatModels: set<string> := {"gpt-4o-mini", "gpt-4.1-mini", "gpt-4.1-nano"}
  const DefaultChatModel: string := "gpt-4o-mini"
  const TtsModes: set<string> := {"openai", "offline", "off"}
  const DefaultTtsMode: string := "openai"
  const TtsFormats: set<string> := {"mp3", "wav"}
  const DefaultTtsFormat: string := "mp3"
  const DefaultTtsVoice: string := "alloy"
  const DefaultTtsRate: int := 170

  /** The settings the module exports once every check passed. */
  datatype Settings = Settings(
    chatModel: string,
    apiKey: string,
    debug: bool,
    ttsMode: string,
    ttsVoice: string,
    ttsFormat: string,
    ttsRate: int)

  /** The `ValueError` raised at import, by the check that failed. */
  datatype ConfigError = ChatModelNotAllowed(model: string) | MissingApiKey | BadTtsMode | BadTtsFormat

  /** `os.getenv(name, default)`: a set variable wins even when it is empty. */
  function GetEnv(env: Env, name: string, default: string): (v: string)
    ensures name in env ==> v == env[name]
    ensures name !in env ==> v == default
  {
    if name in env then env[name] else default
  }

  // ------------------------------------------------------------------ int()

  /** The digits of an integer literal: ASCII digits, single underscores only between digits. */
  predicate DigitGroups(b: string) {
    && b != [] && IsDigit(b[0]) && IsDigit(b[|b| - 1])
    && (forall i :: 0 <= i < |b| ==> IsDigit(b[i]) || b[i] == '_')
    && (forall i :: 0 <= i < |b| - 1 ==> !(b[i] == '_' && b[i + 1] == '_'))
  }

  /** `b` with its underscores removed. */
  function DropUnderscores(b: string): (d: string)
    requires forall i :: 0 <= i < |b| ==> IsDigit(b[i]) || b[i] == '_'
    ensures AllDigits(d)
    ensures AllDigits(b) ==> d == b
  {
    if b == [] then []
    else if b[0] == '_' then DropUnderscores(b[1..])
    else [b[0]] + DropUnderscores(b[1..])
  }

  /** `int(s)`: surrounding whitespace, an optional sign, then digit groups; None where
      Python raises `ValueError`. */
  function ParseInt(s: string): (r: Option<int>)
    ensures r.Some? <==> DigitGroups(Unsigned(Strip(s)))
  {
    var t := Strip(s);
    var b := Unsigned(t);
    if DigitGroups(b) then
      var n := Value(DropUnderscores(b)) as int;
      Some(if t[0] == '-' then -n else n)
    else None
  }

  /** `t` without a leading sign. */
  function Unsigned(t: string): (b: string)
    ensures |b| <= |t|
  {
    if t != [] && (t[0] == '+' || t[0] == '-') then t[1..] else t
  }

  /** `str(n)`. */
  function ShowInt(n: int): (s: string)
    ensures s != []
  {
    if n < 0 then "-" + Show(-n) else Show(n)
  }

  /** `int(str(n)) == n`: the numeral of an integer reads back as that integer. */
  lemma ParseShowInt(n: int)
    ensures ParseInt(ShowInt(n)) == Some(n)
  {
    var s := ShowInt(n);
    var d := Show(if n < 0 then -n else n);
    assert !IsSpace(s[0]) && !IsSpace(s[|s| - 1]);
    assert Strip(s) == s;
    assert Unsigned(s) == d;
    assert DigitGroups(d);
    ValueShow(if n < 0 then -n else n);
  }

  /** `_as_int(env_name, default)`: the variable read as an integer, the default when it is
      unset or does not parse. */
  function AsInt(env: Env, name: string, default: int): (n: int)
    ensures name in env && ParseInt(env[name]).Some? ==> n == ParseInt(env[name]).value
    ensures name in env && ParseInt(env[name]).None? ==> n == default
  {
    ParseInt(GetEnv(env, name, ShowInt(default))).GetOr(default)
  }

  /** An unset variable reads as the default, through its own numeral. */
  lemma AsIntUnset(env: Env, name: string, default: int)
    requires name !in env
    ensures AsInt(env, name, default) == default
  {
    ParseShowInt(default);
  }

  // ------------------------------------------------------------------ import-time checks

  /** The module body of config.py: each setting read, the four checks in source order. */
  function Load(env: Env): Result<Settings, ConfigError> {
    var chatModel := GetEnv(env, "CHAT_MODEL", DefaultChatModel);
    if chatModel !in AllowedChatModels then Failure(ChatModelNotAllowed(chatModel))
    else if "OPENAI_API_KEY" !in env || env["OPENAI_API_KEY"] == "" then Failure(MissingApiKey)
    else
      var ttsMode := Lower(GetEnv(env, "TTS_MODE", DefaultTtsMode));
      if ttsMode !in TtsModes then Failure(BadTtsMode)
      else
        var ttsFormat := Lower(GetEnv(env, "TTS_FORMAT", DefaultTtsFormat));
        if ttsFormat !in TtsFormats then Failure(BadTtsFormat)
        else Success(Settings(
          chatModel,
          env["OPENAI_API_KEY"],
          GetEnv(env, "DEBUG", "0") == "1",
          ttsMode,
          GetEnv(env, "TTS_VOICE", DefaultTtsVoice),
          ttsFormat,
          AsInt(env, "TTS_RATE", DefaultTtsRate)))
  }

  /** The four checks, each on its own. */
  predicate ChatModelOk(env: Env) {
    GetEnv(env, "CHAT_MODEL", DefaultChatModel) in AllowedChatModels
  }

  predicate ApiKeyOk(env: Env) {
    "OPENAI_API_KEY" in env && env["OPENAI_API_KEY"] != ""
  }

  predicate TtsModeOk(env: Env) {
    Lower(GetEnv(env, "TTS_MODE", DefaultTtsMode)) in TtsModes
  }

  predicate TtsFormatOk(env: Env) {
    Lower(GetEnv(env, "TTS_FORMAT", DefaultTtsFormat)) in TtsFormats
  }

  /** Loading succeeds exactly when all four checks pass, and the error reported is the one
      of the first check that fails, in the order chat model, API key, TTS mode, TTS format. */
  lemma FirstFailureReported(env: Env)
    ensures Load(env).Success? <==> ChatModelOk(env) && ApiKeyOk(env) && TtsModeOk(env) && TtsFormatOk(env)
    ensures !ChatModelOk(env) ==> Load(env) == Failure(ChatModelNotAllowed(GetEnv(env, "CHAT_MODEL", DefaultChatModel)))
    ensures ChatModelOk(env) && !ApiKeyOk(env) ==> Load(env) == Failure(MissingApiKey)
    ensures ChatModelOk(env) && ApiKeyOk(env) && !TtsModeOk(env) ==> Load(env) == Failure(BadTtsMode)
    ensures ChatModelOk(env) && ApiKeyOk(env) && TtsModeOk(env) && !TtsFormatOk(env) ==> Load(env) == Failure(BadTtsFormat)
  {
  }

  /** Whatever loads satisfies every check: an allowed model, a non-empty key, a lower-case
      mode and format from their allowed sets. */
  lemma LoadedSettingsValid(env: Env)
    requires Load(env).Success?
    ensures var s := Load(env).value;
      && s.chatModel in AllowedChatModels
      && s.apiKey != ""
      && s.ttsMode in TtsModes && AllLower(s.ttsMode)
      && s.ttsFormat in TtsFormats && AllLower(s.ttsFormat)
  {
  }

  /** With only the API key set, every other setting takes its default. */
  lemma Defaults(key: string)
    requires key != ""
    ensures Load(map["OPENAI_API_KEY" := key])
         == Success(Settings(DefaultChatModel, key, false, DefaultTtsMode, DefaultTtsVoice, DefaultTtsFormat, DefaultTtsRate))
  {
    var env := map["OPENAI_API_KEY" := key];
    assert env.Keys == {"OPENAI_API_KEY"};
    assert GetEnv(env, "CHAT_MODEL", DefaultChatModel) == DefaultChatModel;
    assert Lower(DefaultTtsMode) == DefaultTtsMode;
    assert Lower(GetEnv(env, "TTS_MODE", DefaultTtsMode)) == DefaultTtsMode;
    assert Lower(DefaultTtsFormat) == DefaultTtsFormat;
    assert Lower(GetEnv(env, "TTS_FORMAT", DefaultTtsFormat)) == DefaultTtsFormat;
    assert GetEnv(env, "DEBUG", "0") == "0";
    assert GetEnv(env, "TTS_VOICE", DefaultTtsVoice) == DefaultTtsVoice;
    AsIntUnset(env, "TTS_RATE", DefaultTtsRate);
  }

  /** The model check is case-sensitive while the TTS checks lower-case first: "GPT-4o-mini"
      is rejected, "OpenAI" and "MP3" are accepted. */
  lemma CaseRules(key: string)
    requires key != ""
    ensures Load(map["CHAT_MODEL" := "GPT-4o-mini", "OPENAI_API_KEY" := key]) == Failure(ChatModelNotAllowed("GPT-4o-mini"))
    ensures Load(map["OPENAI_API_KEY" := key, "TTS_MODE" := "OpenAI", "TTS_FORMAT" := "MP3"]).Success?
  {
    assert "GPT-4o-mini" != "gpt-4o-mini";
    assert Lower("OpenAI") == "openai";
    assert Lower("MP3") == "mp3";
  }
}
