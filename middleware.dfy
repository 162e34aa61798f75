/**
  The authorization gate run before every protected route: it reads the
  `access_token` cookie, validates it with the access secret, and either
  aborts the request with 401 or publishes `userId` and `role` in the request
  context and lets the request continue. It never looks at the role's value.
 */
module Middleware {
  import opened Wrappers
  import opened Jwt
  import opened Models
  import opened TokenUtil

  /** The gate's verdict: reject with this message, or proceed as this user with this role. */
  datatype Decision = Reject(message: string) | Proceed(userId: string, role: string)

  /** The decision sequence of the gate, as a function of the request's cookies. */
  function Authenticate(cookies: map<string, TokenString>, secrets: Secrets, now: nat): (d: Decision)
    ensures d.Proceed? <==> AccessCookie in cookies && ValidateToken(cookies[AccessCookie], secrets, now).Success?
    ensures d.Proceed? ==>
      var claims := ValidateToken(cookies[AccessCookie], secrets, now).value;
      d.userId == claims.userId && d.role == claims.role
    ensures AccessCookie !in cookies ==>
      d == Reject("Error al obtener token: " + NoAccessCookieText)
    ensures AccessCookie in cookies && cookies[AccessCookie] == Blank ==> d == Reject("No se proporcionó token")
    ensures AccessCookie in cookies && cookies[AccessCookie] != Blank
            && ValidateToken(cookies[AccessCookie], secrets, now).Failure? ==>
      d == Reject("Token inválido: " + ValidateToken(cookies[AccessCookie], secrets, now).error.Message())
  {
    match GetAccessToken(cookies)
    case Failure(e) => Reject("Error al obtener token: " + e)
    case Success(token) =>
      if token == Blank then Reject("No se proporcionó token")
      else match ValidateToken(token, secrets, now)
        case Failure(e) => Reject("Token inválido: " + e.Message())
        case Success(claims) => Proceed(claims.userId, claims.role)
  }

  /**
    The gate is role-agnostic: two access tokens that differ only in their
    role claim are both admitted or both refused, and an admitted role is
    published as it is.
   */
  lemma GateIgnoresRole(cookies: map<string, TokenString>, c: Claims, alg: Alg, key: string,
                        otherRole: string, secrets: Secrets, now: nat)
    ensures var d1 := Authenticate(cookies[AccessCookie := Signed(c, alg, key)], secrets, now);
      var d2 := Authenticate(cookies[AccessCookie := Signed(c.(role := otherRole), alg, key)], secrets, now);
      && d1.Proceed? == d2.Proceed?
      && (d2.Proceed? ==> d2 == Proceed(c.userId, otherRole) && d1 == Proceed(c.userId, c.role))
  {
  }

  /**
    A freshly issued access token presented as `access_token` admits its user
    with the role it was issued for, until its expiry; the refresh token of
    the same pair is refused when the two secrets differ.
   */
  lemma GateAdmitsIssuedAccessTokenOnly(u: User, issuedNow: nat, secrets: Secrets, signing: Signing, now: nat)
    requires signing.accessOk && signing.refreshOk
    requires secrets.secretKey != secrets.secretRefreshKey
    ensures var g := GenerateAllTokens(u.email, u.firstName, u.lastName, u.role, u.userId, issuedNow, secrets, signing);
      && (now <= (issuedNow / Second + AccessLifetime) * Second ==>
            Authenticate(map[AccessCookie := g.token], secrets, now) == Proceed(u.userId, u.role))
      && (now > (issuedNow / Second + AccessLifetime) * Second ==>
            Authenticate(map[AccessCookie := g.token], secrets, now).Reject?)
      && Authenticate(map[AccessCookie := g.refreshToken], secrets, now).Reject?
  {
    var g := GenerateAllTokens(u.email, u.firstName, u.lastName, u.role, u.userId, issuedNow, secrets, signing);
    IssuedPairValidates(u.email, u.firstName, u.lastName, u.role, u.userId, issuedNow, secrets, signing, now);
    TokensAreNotInterchangeable(u.email, u.firstName, u.lastName, u.role, u.userId, issuedNow, secrets, signing, now);
  }

  /**
    A gin request context: the request's cookies, the key-value bag handlers
    read, whether the chain was aborted or continued with `Next`, and the reply
    written so far.
   */
  class Context {
    const cookies: map<string, TokenString>
    var keys: map<string, Value>
    var aborted: bool
    var proceeded: bool
    var response: Response

    constructor (cookies: map<string, TokenString>)
      ensures this.cookies == cookies && keys == map[]
      ensures !aborted && !proceeded && response == Reply(StatusOK, NoBody)
    {
      this.cookies := cookies;
      keys := map[];
      aborted := false;
      proceeded := false;
      response := Reply(StatusOK, NoBody);
    }

    /**
      `AuthMiddleWare`: exactly one of two outcomes. Either the request is
      aborted with 401 and the gate's message, the context keys untouched and
      no handler run; or `userId` and `role` are set from the token's claims
      and only then does the chain continue, the reply left as it was.
     */
    method AuthMiddleWare(secrets: Secrets, now: nat)
      requires !aborted && !proceeded
      modifies this
      ensures aborted != proceeded
      ensures Authenticate(cookies, secrets, now).Reject? ==>
        && aborted
        && keys == old(keys)
        && response == old(response).(status := StatusUnauthorized,
                                       body := Error(Authenticate(cookies, secrets, now).message))
      ensures Authenticate(cookies, secrets, now).Proceed? ==>
        && proceeded
        && keys == old(keys)[UserIdKey := Str(Authenticate(cookies, secrets, now).userId)]
                            [RoleKey := Str(Authenticate(cookies, secrets, now).role)]
        && response == old(response)
    {
      var got := GetAccessToken(cookies);
      if got.Failure? {
        Abort("Error al obtener token: " + got.error);
        return;
      }
      var token := got.value;
      if token == Blank {
        Abort("No se proporcionó token");
        return;
      }
      var checked := ValidateToken(token, secrets, now);
      if checked.Failure? {
        Abort("Token inválido: " + checked.error.Message());
        return;
      }
      var claims := checked.value;
      keys := keys[UserIdKey := Str(claims.userId)];
      keys := keys[RoleKey := Str(claims.role)];
      proceeded := true;
    }

    /** `c.JSON(401, {"error": message})` followed by `c.Abort()`. */
    method Abort(message: string)
      modifies this`response, this`aborted
      ensures aborted
      ensures response == old(response).(status := StatusUnauthorized, body := Error(message))
    {
      response := response.(status := StatusUnauthorized, body := Error(message));
      aborted := true;
    }
  }
}
