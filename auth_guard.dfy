/** The request guard: a request passes when no password is configured, or
    when it carries a Bearer token that verifies against the JWT secret. */
module AuthGuard {
  import opened Wrappers
  import opened Strings
  import opened ReadFile
  import opened JwtConstants
  import opened AuthService

  /** extractTokenFromHeader: the second space-separated field of the
      Authorization header when the first is exactly `Bearer`. */
  function ExtractTokenFromHeader(authorization: Option<string>): (token: Option<string>)
    ensures token.Some? <==>
      && authorization.Some?
      && |Split(authorization.value, ' ')| >= 2
      && Split(authorization.value, ' ')[0] == "Bearer"
    ensures token.Some? ==> token.value == Split(authorization.value, ' ')[1]
  {
    match authorization
    case None => None
    case Some(header) =>
      var fields := Split(header, ' ');
      if fields[0] == "Bearer" && |fields| >= 2 then Some(fields[1]) else None
  }

  /** The header `Bearer <token>` yields the token back, for any token
      without a space (RFC 6750, section 2.1). */
  lemma BearerRoundTrip(token: string)
    requires ' ' !in token
    ensures ExtractTokenFromHeader(Some("Bearer " + token)) == Some(token)
  {
    var header := "Bearer " + token;
    assert header[..6] == "Bearer" && header[6] == ' ';
    assert ' ' !in header[..6];
    SplitHead(header, ' ', 6);
    assert header[7..] == token;
    SplitJoin([token], ' ');
  }

  /** Any first field other than `Bearer`, `bearer` among them, yields no
      token: the scheme is compared case-sensitively. */
  lemma OtherSchemeRejected(scheme: string, rest: string)
    requires ' ' !in scheme && scheme != "Bearer"
    ensures ExtractTokenFromHeader(Some(scheme + " " + rest)) == None
  {
    var header := scheme + " " + rest;
    assert header[..|scheme|] == scheme && header[|scheme|] == ' ';
    SplitHead(header, ' ', |scheme|);
  }

  /** A missing header and the bare header `Bearer` yield no token. */
  lemma NoTokenWithoutSecondField()
    ensures ExtractTokenFromHeader(None) == None
    ensures ExtractTokenFromHeader(Some("Bearer")) == None
  {
    SplitJoin(["Bearer"], ' ');
  }

  /** The HTTP request as the guard sees it: its Authorization header and
      the `user` slot the guard fills in. */
  class Request {
    const authorization: Option<string>
    var user: Option<Payload>

    constructor (authorization: Option<string>)
      ensures this.authorization == authorization && user == None
    {
      this.authorization := authorization;
      user := None;
    }
  }

  datatype GuardError = GuardUnauthorized

  /** What canActivate decides. */
  datatype Admission =
    | Open                      // no password configured: allowed, nothing inspected
    | Admitted(payload: Payload) // token verified: allowed, payload stored
    | Rejected                  // UnauthorizedException

  /** The decision of canActivate. `verify(token, secret, now)` is JWT
      verification at the time `now`: the payload, or `None` when the
      signature does not check or the token has expired. A throw of
      getJwtConstants happens inside the `try` and also rejects. */
  function Decide(env: Env, authorization: Option<string>,
                  verify: (string, Option<string>, int) -> Option<Payload>, now: int): (d: Admission)
    ensures d == Open <==> Lookup(env, AccessPasswordEnv) == Some("")
    ensures d.Admitted? ==>
      var token := ExtractTokenFromHeader(authorization);
      && token.Some? && token.value != ""
      && GetJwtConstants(env).Ok?
      && verify(token.value, GetJwtConstants(env).value.secret, now) == Some(d.payload)
    // a password is configured and a non-empty token verifies: admitted with its payload
    ensures var token := ExtractTokenFromHeader(authorization);
      && Lookup(env, AccessPasswordEnv) != Some("")
      && token.Some? && token.value != ""
      && GetJwtConstants(env).Ok?
      && verify(token.value, GetJwtConstants(env).value.secret, now).Some?
      ==> d == Admitted(verify(token.value, GetJwtConstants(env).value.secret, now).value)
  {
    var token := ExtractTokenFromHeader(authorization);
    if Lookup(env, AccessPasswordEnv) == Some("") then Open
    else if token.None? || token.value == "" then Rejected
    else match GetJwtConstants(env)
      case Err(_) => Rejected
      case Ok(constants) =>
        match verify(token.value, constants.secret, now)
        case None => Rejected
        case Some(payload) => Admitted(payload)
  }

  /** canActivate at the time `now`: returns true or throws; never returns
      false. */
  method CanActivate(request: Request, env: Env, verify: (string, Option<string>, int) -> Option<Payload>, now: int)
    returns (r: Result<bool, GuardError>)
    modifies request
    ensures r.Ok? ==> r.value
    ensures var d := Decide(env, request.authorization, verify, now);
      && (r.Ok? <==> !d.Rejected?)
      && (if d.Admitted? then request.user == Some(d.payload) else request.user == old(request.user))
  {
    var token := ExtractTokenFromHeader(request.authorization);
    if Lookup(env, AccessPasswordEnv) == Some("") {
      return Ok(true);
    }
    if token.None? || token.value == "" {
      return Err(GuardUnauthorized);
    }
    match GetJwtConstants(env) {
      case Err(_) =>
        return Err(GuardUnauthorized);
      case Ok(constants) =>
        var payload := verify(token.value, constants.secret, now);
        if payload.None? {
          return Err(GuardUnauthorized);
        }
        request.user := payload;
    }
    r := Ok(true);
  }

  /** Without a configured password (ACCESS_PASSWORD unset or non-empty), a
      request whose header holds no usable token is rejected. */
  lemma MissingTokenRejected(env: Env, authorization: Option<string>,
                             verify: (string, Option<string>, int) -> Option<Payload>, now: int)
    requires Lookup(env, AccessPasswordEnv) != Some("")
    requires ExtractTokenFromHeader(authorization) in {None, Some("")}
    ensures Decide(env, authorization, verify, now) == Rejected
  {
  }

  /** Signing in and presenting the token within its lifetime passes the
      guard: when the stored digest matches the pass, the JWT configuration
      is valid, tokens hold no space and verification accepts a token
      signed with the same secret until it expires, the request is admitted
      as `{sub: 'user'}`. The one `env` stands for `process.env` both when
      the auth module loads, which fixes the signer's secret, and at the
      request, where the guard reads the secret again; nothing in the
      service changes `process.env` after start-up. */
  lemma SignInThenGuardAdmits(env: Env, pass: string, hash: string -> string,
                              sign: (Payload, int) -> string,
                              verify: (string, Option<string>, int) -> Option<Payload>,
                              issued: int, now: int)
    requires AccessPasswordEnv in env && env[AccessPasswordEnv] == hash(pass) != ""
    requires GetJwtConstants(env).Ok?
    requires forall p, t :: ' ' !in sign(p, t) && sign(p, t) != ""
    requires forall p, t, n :: t <= n < t + TokenLifetime ==>
      verify(sign(p, t), GetJwtConstants(env).value.secret, n) == Some(p)
    requires issued <= now < issued + TokenLifetime
    ensures SignIn(env, pass, hash, sign, issued).Ok?
    ensures Decide(env, Some("Bearer " + SignIn(env, pass, hash, sign, issued).value.accessToken), verify, now)
         == Admitted(UserPayload)
  {
    var token := sign(UserPayload, issued);
    assert ' ' !in token && token != "";
    BearerRoundTrip(token);
    assert verify(token, GetJwtConstants(env).value.secret, now) == Some(UserPayload);
  }

  /** The same token presented TokenLifetime seconds or more after the
      sign-in is rejected. */
  lemma ExpiredTokenRejected(env: Env, pass: string, hash: string -> string,
                             sign: (Payload, int) -> string,
                             verify: (string, Option<string>, int) -> Option<Payload>,
                             issued: int, now: int)
    requires AccessPasswordEnv in env && env[AccessPasswordEnv] == hash(pass) != ""
    requires forall p, t :: ' ' !in sign(p, t)
    requires forall p, t, n, secret :: n >= t + TokenLifetime ==> verify(sign(p, t), secret, n) == None
    requires now >= issued + TokenLifetime
    ensures SignIn(env, pass, hash, sign, issued).Ok?
    ensures Decide(env, Some("Bearer " + SignIn(env, pass, hash, sign, issued).value.accessToken), verify, now)
         == Rejected
  {
    var token := sign(UserPayload, issued);
    BearerRoundTrip(token);
    assert forall secret :: verify(token, secret, now) == None;
  }
}
