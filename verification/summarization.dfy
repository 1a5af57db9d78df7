/** Where `TranscriptionSummarizer` (audio_transcriber/summarization.py) finds
    its settings: the environment first, then the `DEFAULT` section of the
    configuration file with one level of `${NAME}` indirection, then a
    default; and the refusal to start without an API key. The environment and
    the parsed `DEFAULT` section are parameters; a missing configuration file
    is an empty section. */
module Summarization {
  import opened Results
  import opened Text

  const ApiKeyOption := "openai_api_key"
  const ApiKeyVariable := "OPENAI_API_KEY"
  const ModelOption := "openai_model"
  const ModelVariable := "OPENAI_MODEL"
  const DefaultModel := "gpt-4o"

  type Environment = map<string, string>
  type ConfigSection = map<string, string>

  datatype Settings = Settings(apiKey: string, model: string)

  datatype ConfigError = MissingApiKey  // the ValueError raised by the constructor

  /** `os.getenv(name)`: `None` when the variable is unset. */
  function Getenv(env: Environment, name: string): (r: Option<string>)
    ensures r.Some? <==> name in env
    ensures r.Some? ==> r.value == env[name]
  {
    if name in env then Some(env[name]) else None
  }

  /** Python's truth test on `str | None`: `None` and `""` are both false. */
  predicate Present(v: Option<string>) {
    v.Some? && v.value != ""
  }

  /** A configuration value of the form `${NAME}`. */
  predicate IsReference(value: string) {
    StartsWith(value, "${") && EndsWith(value, "}")
  }

  /** The `NAME` of `${NAME}`: the text between the two delimiters. */
  function ReferenceName(value: string): (name: string)
    requires IsReference(value)
    ensures "${" + name + "}" == value
  {
    assert value[1] == '{' && value[|value| - 1] == '}';
    var name := value[2..|value| - 1];
    assert value == value[..2] + name + value[|value| - 1..];
    name
  }

  /** A configuration value after indirection: a reference is replaced by
      the named variable, or by `""` when it is unset; anything else is
      kept as written. The replacement is not looked at again. */
  function Resolve(env: Environment, value: string): (r: string)
    ensures !IsReference(value) ==> r == value
    ensures IsReference(value) ==>
              (ReferenceName(value) in env ==> r == env[ReferenceName(value)])
              && (ReferenceName(value) !in env ==> r == "")
  {
    if IsReference(value) then
      var name := ReferenceName(value);
      if name in env then env[name] else ""
    else value
  }

  /** `_get_config_value(config_key, env_var, default)`. */
  function GetConfigValue(env: Environment, config: ConfigSection, configKey: string, envVar: string,
                          default: Option<string>): (r: Option<string>)
    ensures Present(r) || r == default
    ensures Present(Getenv(env, envVar)) ==> r == Some(env[envVar])
    ensures !Present(Getenv(env, envVar)) && configKey !in config ==> r == default
  {
    var fromEnv := Getenv(env, envVar);
    var value := if !Present(fromEnv) && configKey in config then Some(Resolve(env, config[configKey])) else fromEnv;
    if !Present(value) then default else value
  }

  /** The precedence as a list: the first candidate that is present wins,
      and the default applies when none is. */
  function FirstPresent(candidates: seq<Option<string>>, default: Option<string>): Option<string>
    decreases |candidates|
  {
    if |candidates| == 0 then default
    else if Present(candidates[0]) then candidates[0]
    else FirstPresent(candidates[1..], default)
  }

  /** What the configuration file contributes: its value after indirection,
      or nothing when the option is absent. */
  function FromConfig(env: Environment, config: ConfigSection, configKey: string): Option<string> {
    if configKey in config then Some(Resolve(env, config[configKey])) else None
  }

  /** The lookup is exactly "environment, then configuration file, then
      default", with empty values skipped at every step. */
  lemma GetConfigValueIsPrecedence(env: Environment, config: ConfigSection, configKey: string, envVar: string,
                                   default: Option<string>)
    ensures GetConfigValue(env, config, configKey, envVar, default)
            == FirstPresent([Getenv(env, envVar), FromConfig(env, config, configKey)], default)
  {
    var c := [Getenv(env, envVar), FromConfig(env, config, configKey)];
    assert c[1..] == [c[1]] && c[1..][1..] == [];
    assert FirstPresent([c[1]], default) == if Present(c[1]) then c[1] else FirstPresent([], default);
  }

  /** A non-empty value in the configuration file is used when the
      environment variable is unset or empty. */
  lemma ConfigFileUsed(env: Environment, config: ConfigSection, configKey: string, envVar: string,
                       default: Option<string>)
    requires !Present(Getenv(env, envVar))
    requires configKey in config && !IsReference(config[configKey]) && config[configKey] != ""
    ensures GetConfigValue(env, config, configKey, envVar, default) == Some(config[configKey])
  {
  }

  /** `${NAME}` in the configuration file reads the variable `NAME`, once:
      if `NAME` holds another reference, that text is returned as it is. */
  lemma ReferenceFollowedOnce(env: Environment, config: ConfigSection, configKey: string, envVar: string,
                              default: Option<string>, name: string)
    requires !Present(Getenv(env, envVar))
    requires configKey in config && config[configKey] == "${" + name + "}"
    requires name in env && env[name] != ""
    ensures GetConfigValue(env, config, configKey, envVar, default) == Some(env[name])
  {
    var value := config[configKey];
    assert IsReference(value) by {
      assert value[..2] == "${";
      assert value[|value| - 1..] == "}";
    }
    assert ReferenceName(value) == name by {
      var n := ReferenceName(value);
      assert "${" + n + "}" == "${" + name + "}";
      assert n == ("${" + n + "}")[2..|value| - 1];
      assert name == ("${" + name + "}")[2..|value| - 1];
    }
  }

  /** A reference to a variable that is unset or empty does not leave the
      literal `${NAME}` behind: the default is returned. */
  lemma UnresolvedReferenceGivesDefault(env: Environment, config: ConfigSection, configKey: string, envVar: string,
                                        default: Option<string>)
    requires !Present(Getenv(env, envVar))
    requires configKey in config && IsReference(config[configKey])
    requires !Present(Getenv(env, ReferenceName(config[configKey])))
    ensures GetConfigValue(env, config, configKey, envVar, default) == default
  {
  }

  /** The constructor's settings: the API key has no default and must come
      out non-empty, the model falls back to `gpt-4o`. */
  function Init(env: Environment, config: ConfigSection): (r: Result<Settings, ConfigError>)
    ensures var key := GetConfigValue(env, config, ApiKeyOption, ApiKeyVariable, None);
            && (r.Ok? <==> Present(key))
            && (r.Ok? ==> r.value.apiKey == key.value && r.value.apiKey != "")
    ensures r.Ok? ==> r.value.model != ""
  {
    var apiKey := GetConfigValue(env, config, ApiKeyOption, ApiKeyVariable, None);
    var model := GetConfigValue(env, config, ModelOption, ModelVariable, Some(DefaultModel));
    if !Present(apiKey) then Err(MissingApiKey)
    else Ok(Settings(apiKey.value, model.value))
  }

  /** With no API key in the environment and none in the configuration file,
      construction fails, whatever else is configured. */
  lemma NoKeyNoSummarizer(env: Environment, config: ConfigSection)
    requires !Present(Getenv(env, ApiKeyVariable))
    requires ApiKeyOption !in config
    ensures Init(env, config) == Err(MissingApiKey)
  {
  }

  /** The model is `gpt-4o` unless the environment or the configuration file
      names another one. */
  lemma ModelDefault(env: Environment, config: ConfigSection)
    requires Init(env, config).Ok?
    requires !Present(Getenv(env, ModelVariable))
    requires !Present(FromConfig(env, config, ModelOption))
    ensures Init(env, config).value.model == DefaultModel
  {
  }

  /** A model named in the environment overrides the configuration file. */
  lemma ModelFromEnvironment(env: Environment, config: ConfigSection)
    requires Init(env, config).Ok?
    requires Present(Getenv(env, ModelVariable))
    ensures Init(env, config).value.model == env[ModelVariable]
  {
  }
}
