/**
 Process configuration: `AppConfig` and its `_get_required_env` of app.py.
 The environment is a map from variable names to values; a name outside
 the map is one `os.getenv` answers with None.
 */
module Config {
  import opened Outcomes
  import opened Strings

  /** The shortest stripped secret accepted (app.py:118). */
  const MinSecretLength := 10

  const OpenAIKeyVar := "OPENAI_API_KEY"
  const SpeechKeyVar := "AZURE_SPEECH_KEY"
  const SpeechRegionVar := "AZURE_SPEECH_REGION"

  /** The three secrets, stripped. The OpenAI client the original builds
      from the first one is represented by the completion function the
      generation client takes. */
  datatype AppConfig = AppConfig(openAIKey: string, speechKey: string, speechRegion: string)

  /** A value the configuration accepts for a secret. */
  predicate PlausibleSecret(value: string) {
    |Strip(value)| >= MinSecretLength
  }

  /** `AppConfig._get_required_env(key)`. */
  function GetRequiredEnv(env: map<string, string>, key: string): (r: Result<string>)
    ensures r.Err? ==> r.error.kind == ConfigurationError
    ensures r.Ok? <==> key in env && PlausibleSecret(env[key])
    ensures r.Ok? ==> r.value == Strip(env[key]) && |r.value| >= MinSecretLength
    ensures (key !in env || env[key] == []) ==>
              r == Fail(ConfigurationError, "Missing required environment variable: " + key)
    ensures key in env && env[key] != [] && !PlausibleSecret(env[key]) ==>
              r == Fail(ConfigurationError, "Invalid " + key + ": too short")
  {
    if key !in env || env[key] == [] then
      Fail(ConfigurationError, "Missing required environment variable: " + key)
    else if |Strip(env[key])| < MinSecretLength then
      Fail(ConfigurationError, "Invalid " + key + ": too short")
    else
      Ok(Strip(env[key]))
  }

  /** Reading back a value that was accepted, once stored stripped, gives
      the same value: the accepted form is a fixed point. */
  lemma GetRequiredEnvStable(env: map<string, string>, key: string)
    requires GetRequiredEnv(env, key).Ok?
    ensures GetRequiredEnv(env[key := GetRequiredEnv(env, key).value], key) == GetRequiredEnv(env, key)
  {
    var v := GetRequiredEnv(env, key).value;
    StripFixed(v);
  }

  /** A value of only whitespace is refused as too short, not as missing. */
  lemma BlankSecretTooShort(env: map<string, string>, key: string)
    requires key in env && env[key] != [] && AllSpace(env[key])
    ensures GetRequiredEnv(env, key) == Fail(ConfigurationError, "Invalid " + key + ": too short")
  {
  }

  /** `AppConfig()`: the three secrets in order, the first failure reported;
      `clientFailure` is the message of an exception raised while building
      the OpenAI client, if one is. */
  function LoadConfig(env: map<string, string>, clientFailure: Option<string>): (r: Result<AppConfig>)
    ensures r.Err? ==> r.error.kind == ConfigurationError
    ensures r.Ok? <==>
              && OpenAIKeyVar in env && PlausibleSecret(env[OpenAIKeyVar])
              && SpeechKeyVar in env && PlausibleSecret(env[SpeechKeyVar])
              && SpeechRegionVar in env && PlausibleSecret(env[SpeechRegionVar])
              && clientFailure.None?
    ensures r.Ok? ==> r.value == AppConfig(Strip(env[OpenAIKeyVar]), Strip(env[SpeechKeyVar]), Strip(env[SpeechRegionVar]))
    ensures GetRequiredEnv(env, OpenAIKeyVar).Err? ==> r.Err? && r.error == GetRequiredEnv(env, OpenAIKeyVar).error
    ensures GetRequiredEnv(env, OpenAIKeyVar).Ok? && GetRequiredEnv(env, SpeechKeyVar).Err? ==>
              r.Err? && r.error == GetRequiredEnv(env, SpeechKeyVar).error
    ensures GetRequiredEnv(env, OpenAIKeyVar).Ok? && GetRequiredEnv(env, SpeechKeyVar).Ok? &&
            GetRequiredEnv(env, SpeechRegionVar).Err? ==>
              r.Err? && r.error == GetRequiredEnv(env, SpeechRegionVar).error
    ensures GetRequiredEnv(env, OpenAIKeyVar).Ok? && GetRequiredEnv(env, SpeechKeyVar).Ok? &&
            GetRequiredEnv(env, SpeechRegionVar).Ok? && clientFailure.Some? ==>
              r == Fail(ConfigurationError, "OpenAI client initialization failed: " + clientFailure.value)
  {
    var openAIKey :- GetRequiredEnv(env, OpenAIKeyVar);
    var speechKey :- GetRequiredEnv(env, SpeechKeyVar);
    var speechRegion :- GetRequiredEnv(env, SpeechRegionVar);
    match clientFailure
    case Some(m) => Fail(ConfigurationError, "OpenAI client initialization failed: " + m)
    case None => Ok(AppConfig(openAIKey, speechKey, speechRegion))
  }
}
