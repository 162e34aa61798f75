/**
  Issuing, validating and persisting the access/refresh token pair, and
  reading the token and the published identity back out of a request.
  The two signing secrets and the current instant are parameters; instants
  are Unix time in nanoseconds, token times are whole seconds.
 */
module TokenUtil {
  import opened Wrappers
  import opened Jwt
  import opened Models
  import opened Database

  const Second: nat := 1_000_000_000
  const Issuer := "PeliculApp"
  /** 24 hours, in seconds. */
  const AccessLifetime: nat := 24 * 60 * 60
  /** 7 days, in seconds. */
  const RefreshLifetime: nat := 24 * 7 * 60 * 60

  /** `SECRET_KEY` signs access tokens, `SECRET_REFRESH_KEY` refresh tokens. */
  datatype Secrets = Secrets(secretKey: string, secretRefreshKey: string)

  /** Whether the library's `SignedString` succeeds for the access and for the refresh token. */
  datatype Signing = Signing(accessOk: bool, refreshOk: bool)

  /** The triple `GenerateAllTokens` returns: access token, refresh token, error. */
  datatype Issued = Issued(token: TokenString, refreshToken: TokenString, err: Option<string>)

  /** A claim set for the given identity, issued now and valid for `lifetime` seconds. */
  function Details(email: string, firstName: string, lastName: string, role: string, userId: string,
                   now: nat, lifetime: nat): (c: Claims)
  {
    Claims(email, firstName, lastName, role, userId, Issuer, now / Second, now / Second + lifetime)
  }

  /** The claims carry exactly the given identity and the server's issuer label. */
  predicate Carries(c: Claims, email: string, firstName: string, lastName: string, role: string, userId: string) {
    && c.email == email && c.firstName == firstName && c.lastName == lastName
    && c.role == role && c.userId == userId && c.issuer == Issuer
  }

  /**
    Builds both claim sets from the same identity and signs each with HS256
    and its own secret. If either signing step fails, both strings are ""
    and the error is returned.
   */
  function GenerateAllTokens(email: string, firstName: string, lastName: string, role: string, userId: string,
                             now: nat, secrets: Secrets, signing: Signing): (g: Issued)
    ensures g.err.Some? <==> !(signing.accessOk && signing.refreshOk)
    ensures g.err.Some? ==> g.token == Blank && g.refreshToken == Blank
    ensures g.err.None? ==>
      && g.token.Signed? && g.refreshToken.Signed?
      && g.token.alg == HS256 && g.refreshToken.alg == HS256
      && g.token.key == secrets.secretKey && g.refreshToken.key == secrets.secretRefreshKey
      && Carries(g.token.claims, email, firstName, lastName, role, userId)
      && Carries(g.refreshToken.claims, email, firstName, lastName, role, userId)
      && g.token.claims.issuedAt == now / Second == g.refreshToken.claims.issuedAt
      && g.token.claims.expiresAt == g.token.claims.issuedAt + AccessLifetime
      && g.refreshToken.claims.expiresAt == g.refreshToken.claims.issuedAt + RefreshLifetime
  {
    var access := SignedString(Details(email, firstName, lastName, role, userId, now, AccessLifetime),
                               HS256, secrets.secretKey, signing.accessOk);
    if access.Failure? then Issued(Blank, Blank, Some(access.error))
    else
      var refresh := SignedString(Details(email, firstName, lastName, role, userId, now, RefreshLifetime),
                                  HS256, secrets.secretRefreshKey, signing.refreshOk);
      if refresh.Failure? then Issued(Blank, Blank, Some(refresh.error))
      else Issued(access.value, refresh.value, None)
  }

  /** Which of the two validators: access tokens or refresh tokens. */
  datatype Kind = Access | Refresh

  function KeyOf(kind: Kind, secrets: Secrets): (key: string) {
    match kind
    case Access => secrets.secretKey
    case Refresh => secrets.secretRefreshKey
  }

  /** Why a token string was refused. */
  datatype TokenError = ParseFailed(detail: string) | InvalidMethod | Expired(kind: Kind) {
    function Message(): (text: string) {
      match this
      case ParseFailed(detail) => detail
      case InvalidMethod => "método de firma inválido"
      case Expired(Access) => "el token ha expirado"
      case Expired(Refresh) => "el refresh token ha expirado"
    }
  }

  /** The expiry instant lies strictly before `now`. */
  predicate ExpiredAt(c: Claims, now: nat) {
    c.expiresAt * Second < now
  }

  /**
    `ValidateToken` / `ValidateRefreshToken`: parse with the kind's secret,
    then require an HMAC method, then require that the expiry is not strictly
    before now. A token is accepted exactly when it was signed with that
    secret, names an HMAC method (any of them) and has not expired; its claims
    are then returned unchanged. Each failure is reported by the first check
    that fails.
   */
  function Validate(t: TokenString, kind: Kind, secrets: Secrets, now: nat): (r: Result<Claims, TokenError>)
    ensures r.Success? <==>
      t.Signed? && t.key == KeyOf(kind, secrets) && IsHmac(t.alg) && !ExpiredAt(t.claims, now)
    ensures r.Success? ==> r.value == t.claims
    ensures !(t.Signed? && t.key == KeyOf(kind, secrets)) ==> r.Failure? && r.error.ParseFailed?
    ensures t.Signed? && t.key == KeyOf(kind, secrets) && !IsHmac(t.alg) ==> r == Failure(InvalidMethod)
    ensures t.Signed? && t.key == KeyOf(kind, secrets) && IsHmac(t.alg) && ExpiredAt(t.claims, now) ==>
      r == Failure(Expired(kind))
  {
    match ParseWithClaims(t, KeyOf(kind, secrets))
    case Failure(detail) => Failure(ParseFailed(detail))
    case Success(parsed) =>
      if !IsHmac(parsed.alg) then Failure(InvalidMethod)
      else if ExpiredAt(parsed.claims, now) then Failure(Expired(kind))
      else Success(parsed.claims)
  }

  function ValidateToken(t: TokenString, secrets: Secrets, now: nat): (r: Result<Claims, TokenError>) {
    Validate(t, Access, secrets, now)
  }

  function ValidateRefreshToken(t: TokenString, secrets: Secrets, now: nat): (r: Result<Claims, TokenError>) {
    Validate(t, Refresh, secrets, now)
  }

  /** A freshly issued pair validates, each token under its own validator, until its own expiry second has passed. */
  lemma IssuedPairValidates(email: string, firstName: string, lastName: string, role: string, userId: string,
                            issuedNow: nat, secrets: Secrets, signing: Signing, now: nat)
    requires signing.accessOk && signing.refreshOk
    ensures var g := GenerateAllTokens(email, firstName, lastName, role, userId, issuedNow, secrets, signing);
      && (ValidateToken(g.token, secrets, now).Success?
          <==> now <= (issuedNow / Second + AccessLifetime) * Second)
      && (ValidateRefreshToken(g.refreshToken, secrets, now).Success?
          <==> now <= (issuedNow / Second + RefreshLifetime) * Second)
      && (ValidateToken(g.token, secrets, now).Success? ==>
          Carries(ValidateToken(g.token, secrets, now).value, email, firstName, lastName, role, userId))
  {
  }

  /**
    With distinct secrets the access validator refuses an issued refresh
    token and the refresh validator refuses an issued access token.
   */
  lemma TokensAreNotInterchangeable(email: string, firstName: string, lastName: string, role: string, userId: string,
                                    issuedNow: nat, secrets: Secrets, signing: Signing, now: nat)
    requires secrets.secretKey != secrets.secretRefreshKey
    ensures var g := GenerateAllTokens(email, firstName, lastName, role, userId, issuedNow, secrets, signing);
      && ValidateToken(g.refreshToken, secrets, now).Failure?
      && ValidateRefreshToken(g.token, secrets, now).Failure?
  {
  }

  /**
    The explicit expiry check of `ValidateToken`/`ValidateRefreshToken` is
    strict: a token whose expiry second is exactly now passes it. This is a
    property of that check alone; the JWT library's own expiry validation
    inside `ParseWithClaims` is not part of this model.
   */
  lemma ExpiryIsStrict(c: Claims, alg: Alg, kind: Kind, secrets: Secrets)
    requires IsHmac(alg) && c.expiresAt >= 0
    ensures Validate(Signed(c, alg, KeyOf(kind, secrets)), kind, secrets, c.expiresAt * Second) == Success(c)
    ensures Validate(Signed(c, alg, KeyOf(kind, secrets)), kind, secrets, c.expiresAt * Second + 1)
      == Failure(Expired(kind))
  {
  }

  /** Any HMAC method passes the method check, not only the HS256 the server signs with. */
  lemma AnyHmacIsAccepted(c: Claims, alg: Alg, kind: Kind, secrets: Secrets, now: nat)
    requires IsHmac(alg) && !ExpiredAt(c, now)
    ensures Validate(Signed(c, alg, KeyOf(kind, secrets)), kind, secrets, now) == Success(c)
  {
  }

  /** The two documents differ at most in `token`, `refresh_token` and `update_at`. */
  predicate SameExceptTokens(a: User, b: User) {
    a == b.(token := a.token, refreshToken := a.refreshToken, updateAt := a.updateAt)
  }

  /**
    The `$set` of `UpdateAllTokens` applied to the collection: the first
    document whose `user_id` matches gets the new `token`, `refresh_token`
    and `update_at`; nothing else changes, and no match changes nothing.
   */
  function SetTokens(docs: seq<User>, userId: string, token: TokenString, refreshToken: TokenString,
                     stamp: nat): (r: seq<User>)
    ensures |r| == |docs|
    ensures forall j :: 0 <= j < |docs| ==> SameExceptTokens(docs[j], r[j])
    ensures FirstMatch(docs, UserIdOf, userId).None? ==> r == docs
    ensures FirstMatch(docs, UserIdOf, userId).Some? ==>
      var i := FirstMatch(docs, UserIdOf, userId).value;
      && r[i].token == token && r[i].refreshToken == refreshToken && r[i].updateAt == stamp
      && forall j :: 0 <= j < |docs| && j != i ==> r[j] == docs[j]
  {
    match FirstMatch(docs, UserIdOf, userId)
    case None => docs
    case Some(i) => docs[i := docs[i].(token := token, refreshToken := refreshToken, updateAt := stamp)]
  }

  /** Updating tokens keeps every e-mail and user id, so the collection stays consistent. */
  lemma SetTokensKeepsConsistency(docs: seq<User>, userId: string, token: TokenString,
                                  refreshToken: TokenString, stamp: nat)
    requires Consistent(docs)
    ensures Consistent(SetTokens(docs, userId, token, refreshToken, stamp))
  {
    var r := SetTokens(docs, userId, token, refreshToken, stamp);
    forall i, j | 0 <= i < j < |r|
      ensures r[i].email != r[j].email && r[i].userId != r[j].userId
    {
      assert SameExceptTokens(docs[i], r[i]) && SameExceptTokens(docs[j], r[j]);
    }
  }

  /**
    `UpdateAllTokens`: one `UpdateOne` with the `$set` above. Only a store
    failure is an error; a `user_id` that matches nothing is not.
   */
  method UpdateAllTokens(users: UserCollection, userId: string, token: TokenString, refreshToken: TokenString,
                         now: nat, writeFails: bool) returns (failed: bool)
    modifies users
    ensures failed == writeFails
    ensures users.docs == if failed then old(users.docs)
                          else SetTokens(old(users.docs), userId, token, refreshToken, now / Second)
  {
    if writeFails {
      return true;
    }
    users.docs := SetTokens(users.docs, userId, token, refreshToken, now / Second);
    return false;
  }

  const NoAccessCookieText := "no se pudo obtener access_token de la cookie"

  /** `GetAccessToken`: the `access_token` cookie, or an error when the request has none. */
  function GetAccessToken(cookies: map<string, TokenString>): (r: Result<TokenString, string>)
    ensures r.Success? <==> AccessCookie in cookies
    ensures r.Success? ==> r.value == cookies[AccessCookie]
    ensures r.Failure? ==> r.error == NoAccessCookieText
  {
    if AccessCookie in cookies then Success(cookies[AccessCookie])
    else Failure(NoAccessCookieText)
  }

  const UserIdKey := "userId"
  const RoleKey := "role"

  /**
    `GetUserIdFromContext` / `GetRoleFromContext`: the string stored under
    `name`; an error when the key is absent or its value is not a string.
   */
  function GetFromContext(keys: map<string, Value>, name: string): (r: Result<string, string>)
    ensures r.Success? <==> name in keys && keys[name].Str?
    ensures r.Success? ==> r.value == keys[name].s
    ensures name !in keys ==> r == Failure(name + " no existe en este contexto")
  {
    if name !in keys then Failure(name + " no existe en este contexto")
    else match keys[name]
      case Str(s) => Success(s)
      case NonString => Failure("no se puede obtener " + name)
  }

  function GetUserIdFromContext(keys: map<string, Value>): (r: Result<string, string>) {
    GetFromContext(keys, UserIdKey)
  }

  function GetRoleFromContext(keys: map<string, Value>): (r: Result<string, string>) {
    GetFromContext(keys, RoleKey)
  }

  /** Publishing a user id and role under their keys makes both readers return them. */
  lemma PublishedIdentityReadsBack(keys: map<string, Value>, userId: string, role: string)
    ensures var k := keys[UserIdKey := Str(userId)][RoleKey := Str(role)];
      GetUserIdFromContext(k) == Success(userId) && GetRoleFromContext(k) == Success(role)
  {
  }
}
