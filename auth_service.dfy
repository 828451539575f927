/** The sign-in gate: a password is checked against the SHA-256 digest held
    in ACCESS_PASSWORD and, when accepted, a JWT for the single user is
    issued. The digest, the signer and the clock are parameters of the
    model. */
module AuthService {
  import opened Wrappers
  import opened ReadFile

  /** The JWT payload `{ sub: 'user' }`. */
  datatype Payload = Payload(sub: string)

  const UserPayload := Payload("user")

  /** Seconds a token stays valid after it is issued: the signer is
      registered with `expiresIn: '60s'`. */
  const TokenLifetime := 60

  /** The record `{ access_token }` signIn returns. */
  datatype SignInResult = SignInResult(accessToken: string)

  datatype SignInError =
    | Unauthorized      // UnauthorizedException
    | PasswordUnset     // TypeError: reading `.length` of an unset ACCESS_PASSWORD

  /** signIn: `hash` is the hex SHA-256 digest; `sign(payload, now)` is the
      JWT signer, which stamps the token with the time `now` (in seconds) it
      is issued at and makes it expire TokenLifetime seconds later. */
  function SignIn(env: Env, pass: string, hash: string -> string, sign: (Payload, int) -> string, now: int)
    : (r: Result<SignInResult, SignInError>)
    ensures AccessPasswordEnv !in env ==> r == Err(PasswordUnset)
    // accepted exactly when the stored value is empty or is the digest of the pass
    ensures AccessPasswordEnv in env ==>
      (r.Ok? <==> env[AccessPasswordEnv] == "" || env[AccessPasswordEnv] == hash(pass))
    ensures r.Err? && AccessPasswordEnv in env ==> r.error == Unauthorized
    // the token signs the fixed payload at the time of the call, whatever the pass
    ensures r.Ok? ==> r.value == SignInResult(sign(UserPayload, now))
  {
    if AccessPasswordEnv !in env then Err(PasswordUnset)
    else if |env[AccessPasswordEnv]| > 0 && env[AccessPasswordEnv] != hash(pass) then Err(Unauthorized)
    else Ok(SignInResult(sign(Payload("user"), now)))
  }

  /** With no password configured, every pass is accepted, the empty one too. */
  lemma EmptyPasswordAcceptsAll(env: Env, pass: string, hash: string -> string,
                                sign: (Payload, int) -> string, now: int)
    requires AccessPasswordEnv in env && env[AccessPasswordEnv] == ""
    ensures SignIn(env, pass, hash, sign, now) == Ok(SignInResult(sign(UserPayload, now)))
  {
  }

  /** Storing the clear text rather than its digest locks the user out: a
      64-character hex digest never equals the 8-character 'password'. */
  lemma ClearTextPasswordRejected(env: Env, hash: string -> string, sign: (Payload, int) -> string, now: int)
    requires forall s :: |hash(s)| == 64
    ensures SignIn(env[AccessPasswordEnv := "password"], "password", hash, sign, now) == Err(Unauthorized)
  {
    assert |hash("password")| == 64;
  }

  /** Storing the digest of the pass lets that pass in. */
  lemma DigestAccepted(env: Env, pass: string, hash: string -> string, sign: (Payload, int) -> string, now: int)
    ensures SignIn(env[AccessPasswordEnv := hash(pass)], pass, hash, sign, now)
         == Ok(SignInResult(sign(UserPayload, now)))
  {
  }
}
