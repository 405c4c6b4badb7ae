/** The environment service: it reads the upstream API key, which must be
    set, and the hosting environment name, which may be missing, from the
    process environment when it is constructed. */
module EnvConfig {
  import opened Common
  import opened Exceptions

  /** The process environment; a key that is absent reads as null. */
  type EnvironmentVariables = map<string, string>

  const ApiKeyVariable := "TMDB_API_KEY"
  const EnvironmentVariable := "ASPNETCORE_ENVIRONMENT"
  /** The `??` fallback for the environment name. */
  const FallbackEnvironment := "Production"
  /** What the debug log shows in place of a secret value. */
  const MaskedValue := "********"

  /** `Environment.GetEnvironmentVariable`. */
  function Lookup(env: EnvironmentVariables, key: string): Option<string>
  {
    if key in env then Some(env[key]) else None
  }

  /** The exception for a required variable that is missing. */
  function MissingVariable(key: string): (e: Exception)
    ensures e.InvalidOperation? && exists i :: OccursAt(e.message, key, i)
  {
    var message := "Environment variable '" + key + "' is required but not set.";
    assert OccursAt(message, key, 22);
    InvalidOperation(message)
  }

  /** `GetVariable`: a missing, empty or whitespace-only value throws when
      the variable is required and reads as the empty string otherwise; any
      other value is returned exactly as set. */
  function GetVariable(env: EnvironmentVariables, key: string, required: bool): (r: Result<string, Exception>)
    ensures r.Failure? <==> required && IsNullOrWhiteSpace(Lookup(env, key))
    ensures r.Failure? ==> r.error == MissingVariable(key)
    ensures r.Success? && IsNullOrWhiteSpace(Lookup(env, key)) ==> r.value == ""
    ensures !IsNullOrWhiteSpace(Lookup(env, key)) ==> r == Success(env[key])
  {
    var value := Lookup(env, key);
    if IsNullOrWhiteSpace(value) then
      if required then Failure(MissingVariable(key)) else Success("")
    else
      Success(value.value)
  }

  /** The keys whose values the debug log masks. */
  predicate IsSecretKey(key: string)
    ensures IsSecretKey(key) <==> exists i :: OccursAt(key, "KEY", i) || OccursAt(key, "SECRET", i)
  {
    Contains(key, "KEY") || Contains(key, "SECRET")
  }

  /** The value as the debug log line shows it. */
  function LoggedValue(key: string, value: string): (shown: string)
    ensures shown == MaskedValue <==> IsSecretKey(key) || value == MaskedValue
    ensures !IsSecretKey(key) ==> shown == value
  {
    if IsSecretKey(key) then MaskedValue else value
  }

  /** The API key's value is never written to the log. */
  lemma ApiKeyIsMasked(value: string)
    ensures IsSecretKey(ApiKeyVariable)
    ensures LoggedValue(ApiKeyVariable, value) == MaskedValue
  {
    assert OccursAt(ApiKeyVariable, "KEY", 9);
  }

  /** C#'s `??` on a string: it substitutes only for null. */
  function Coalesce(value: Option<string>, fallback: string): (r: string)
    ensures value.Some? ==> r == value.value
    ensures value.None? ==> r == fallback
  {
    if value.Some? then value.value else fallback
  }

  /** The configuration the service ends up with. */
  datatype Configuration = Configuration(tmdbApiKey: string, environment: string)

  /** What `LoadConfiguration` computes: the key first, whose absence aborts
      everything, then the environment name through the `??` fallback. */
  function LoadedConfiguration(env: EnvironmentVariables): (r: Result<Configuration, Exception>)
    ensures r.Failure? <==> IsNullOrWhiteSpace(Lookup(env, ApiKeyVariable))
    ensures r.Failure? ==> r.error == MissingVariable(ApiKeyVariable)
    ensures r.Success? ==> r.value.tmdbApiKey == env[ApiKeyVariable]
  {
    match GetVariable(env, ApiKeyVariable, true)
    case Failure(e) => Failure(e)
    case Success(key) =>
      var name := GetVariable(env, EnvironmentVariable, false);
      Success(Configuration(key, Coalesce(Some(name.value), FallbackEnvironment)))
  }

  /** The environment name is the variable's value when it is set and not
      blank, and otherwise empty: `GetVariable` never returns null, so the
      "Production" fallback can never be chosen. */
  lemma ProductionFallbackNeverChosen(env: EnvironmentVariables)
    requires LoadedConfiguration(env).Success?
    ensures IsNullOrWhiteSpace(Lookup(env, EnvironmentVariable)) ==> LoadedConfiguration(env).value.environment == ""
    ensures !IsNullOrWhiteSpace(Lookup(env, EnvironmentVariable)) ==>
      LoadedConfiguration(env).value.environment == env[EnvironmentVariable]
    ensures LoadedConfiguration(env).value.environment == FallbackEnvironment ==>
      Lookup(env, EnvironmentVariable) == Some(FallbackEnvironment)
  {
  }

  /** `EnvService`: two properties, empty until the configuration is loaded. */
  class EnvService {
    var tmdbApiKey: string
    var environment: string

    /** The property initializers. */
    constructor ()
      ensures tmdbApiKey == "" && environment == ""
    {
      tmdbApiKey := "";
      environment := "";
    }

    /** `LoadConfiguration`: assigns the key, then the environment name; a
        missing key throws before either property is assigned. */
    method LoadConfiguration(env: EnvironmentVariables) returns (outcome: Result<(), Exception>)
      modifies this
      ensures outcome.Success? <==> LoadedConfiguration(env).Success?
      ensures outcome.Failure? ==> outcome.error == LoadedConfiguration(env).error && unchanged(this)
      ensures outcome.Success? ==>
        Configuration(tmdbApiKey, environment) == LoadedConfiguration(env).value
    {
      var key := GetVariable(env, ApiKeyVariable, true);
      if key.Failure? {
        return Failure(key.error);
      }
      tmdbApiKey := key.value;
      var name := GetVariable(env, EnvironmentVariable, false);
      environment := Coalesce(Some(name.value), FallbackEnvironment);
      outcome := Success(());
    }
  }

  /** Construction: the constructor loads the configuration and rethrows, so
      a missing key leaves no service at all. */
  method NewEnvService(env: EnvironmentVariables) returns (r: Result<EnvService, Exception>)
    ensures r.Failure? <==> IsNullOrWhiteSpace(Lookup(env, ApiKeyVariable))
    ensures r.Failure? ==> r.error == MissingVariable(ApiKeyVariable)
    ensures r.Success? ==>
      && fresh(r.value)
      && Configuration(r.value.tmdbApiKey, r.value.environment) == LoadedConfiguration(env).value
  {
    var service := new EnvService();
    var outcome := service.LoadConfiguration(env);
    if outcome.Failure? {
      return Failure(outcome.error);
    }
    r := Success(service);
  }
}
