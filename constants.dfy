/** Choice of the JWT signing secret from the ENV and JWT_SECRET variables. */
module JwtConstants {
  import opened Wrappers
  import opened ReadFile

  /** The secret used outside production when none is configured. */
  const DevelopmentSecret := "thisSecretMustNotBeUsedInProd"

  /** The record getJwtConstants returns; a secret of `None` is `undefined`. */
  datatype Constants = Constants(secret: Option<string>)

  /** The two errors getJwtConstants throws. */
  datatype ConstantsError =
    | ProductionSecretMissing   // 'A secret must be set for the production environment'
    | WrongEnvironment          // 'Wrong value for environment'

  /** `process.env[name]`. */
  function Lookup(env: Env, name: string): (r: Option<string>)
    ensures r.Some? <==> name in env
    ensures r.Some? ==> r.value == env[name]
  {
    if name in env then Some(env[name]) else None
  }

  /** Development mode: ENV is DEV or unset. */
  predicate IsDevelopment(env: Env) {
    Lookup(env, EnvironmentEnv) == Some(EnvironmentDevValue) || Lookup(env, EnvironmentEnv).None?
  }

  /** getJwtConstants, reading the environment it is given. */
  function GetJwtConstants(env: Env): (r: Result<Constants, ConstantsError>)
    // development: the configured secret when it is set and non-empty, else the fixed one
    ensures IsDevelopment(env) && JwtSecretEnv in env && env[JwtSecretEnv] != ""
      ==> r == Ok(Constants(Some(env[JwtSecretEnv])))
    ensures IsDevelopment(env) && (JwtSecretEnv !in env || env[JwtSecretEnv] == "")
      ==> r == Ok(Constants(Some(DevelopmentSecret)))
    // production: an empty secret throws; anything else, unset included, is used verbatim
    ensures Lookup(env, EnvironmentEnv) == Some(EnvironmentProdValue)
      ==> r == if Lookup(env, JwtSecretEnv) == Some("") then Err(ProductionSecretMissing)
               else Ok(Constants(Lookup(env, JwtSecretEnv)))
    // any other value of ENV throws
    ensures !IsDevelopment(env) && Lookup(env, EnvironmentEnv) != Some(EnvironmentProdValue)
      ==> r == Err(WrongEnvironment)
  {
    var environment := Lookup(env, EnvironmentEnv);
    var secret := Lookup(env, JwtSecretEnv);
    if environment == Some(EnvironmentDevValue) || environment.None? then
      if secret.Some? && secret.value != "" then Ok(Constants(secret))
      else Ok(Constants(Some(DevelopmentSecret)))
    else if environment == Some(EnvironmentProdValue) then
      if secret == Some("") then Err(ProductionSecretMissing)
      else Ok(Constants(secret))
    else Err(WrongEnvironment)
  }

  /** The result depends on ENV and JWT_SECRET only. */
  lemma DependsOnTwoVariables(env1: Env, env2: Env)
    requires Lookup(env1, EnvironmentEnv) == Lookup(env2, EnvironmentEnv)
    requires Lookup(env1, JwtSecretEnv) == Lookup(env2, JwtSecretEnv)
    ensures GetJwtConstants(env1) == GetJwtConstants(env2)
  {
  }

  /** The secret is `undefined` exactly in production with JWT_SECRET unset,
      and the development fallback is never chosen in production unless
      JWT_SECRET holds that very string. */
  lemma UndefinedSecretOnlyInProduction(env: Env)
    requires GetJwtConstants(env).Ok?
    ensures GetJwtConstants(env).value.secret.None?
      <==> Lookup(env, EnvironmentEnv) == Some(EnvironmentProdValue) && JwtSecretEnv !in env
    ensures Lookup(env, EnvironmentEnv) == Some(EnvironmentProdValue)
      && GetJwtConstants(env).value.secret == Some(DevelopmentSecret)
      ==> Lookup(env, JwtSecretEnv) == Some(DevelopmentSecret)
  {
  }

  /** A configuration file that says `environment=PROD` and gives no
      `secret`, read into an environment where none of the three variables
      is set, makes getJwtConstants throw. */
  lemma ProductionFileWithoutSecretThrows(env: Env, data: string)
    requires AccessPasswordEnv !in env && EnvironmentEnv !in env && JwtSecretEnv !in env
    requires ParsedConfiguration(data).Ok?
    requires ValueAt(ParsedConfiguration(data).value, "general", "environment") == Some(EnvironmentProdValue)
    requires ValueAt(ParsedConfiguration(data).value, "general", "secret").None?
    ensures ConfigurationUpdate(env, Some(data)).error.None?
    ensures GetJwtConstants(ConfigurationUpdate(env, Some(data)).env) == Err(ProductionSecretMissing)
  {
    var u := ConfigurationUpdate(env, Some(data));
    assert Lookup(u.env, EnvironmentEnv) == Some(EnvironmentProdValue);
    assert Lookup(u.env, JwtSecretEnv) == Some("");
  }

  /** The same file with `environment=DEV` falls back to the fixed secret. */
  lemma DevelopmentFileWithoutSecretUsesFallback(env: Env, data: string)
    requires AccessPasswordEnv !in env && EnvironmentEnv !in env && JwtSecretEnv !in env
    requires ParsedConfiguration(data).Ok?
    requires ValueAt(ParsedConfiguration(data).value, "general", "environment") == Some(EnvironmentDevValue)
    requires ValueAt(ParsedConfiguration(data).value, "general", "secret").None?
    ensures GetJwtConstants(ConfigurationUpdate(env, Some(data)).env) == Ok(Constants(Some(DevelopmentSecret)))
  {
    var u := ConfigurationUpdate(env, Some(data));
    assert Lookup(u.env, EnvironmentEnv) == Some(EnvironmentDevValue);
    assert Lookup(u.env, JwtSecretEnv) == Some("");
  }
}
