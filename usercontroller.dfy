/**
  The account and session handlers: register, login, logout and refresh, as
  transitions of the `users` collection that each produce one reply. The
  bcrypt salt source, the new user id, the signing outcomes, store failures
  and the current instant are parameters.
 */
module UserController {
  import opened Wrappers
  import opened Jwt
  import opened Models
  import opened Database
  import opened TokenUtil
  import opened GoStrings

  /** The number of key bytes bcrypt's Blowfish key schedule reads. */
  const BlowfishKeyBytes := 72

  /** The first `n` bytes of `key` repeated without end. */
  function Cycle(key: seq<Byte>, n: nat): (r: seq<Byte>)
    requires key != []
    ensures |r| == n
    ensures n <= |key| ==> r == key[..n]
    ensures n > |key| ==> r[..|key|] == key
    ensures forall i :: |key| <= i < n ==> r[i] == r[i - |key|]
    decreases n
  {
    if n <= |key| then key[..n]
    else
      var rest := Cycle(key, n - |key|);
      assert forall j :: 0 <= j < |rest| && j < |key| ==> rest[j] == key[j];
      key + rest
  }

  /**
    The key Blowfish's key schedule reads from the bytes `bytes`: they and a
    terminating NUL, repeated cyclically and cut at 72 bytes.
   */
  function BlowfishKey(bytes: seq<Byte>): (k: seq<Byte>)
    ensures |k| == BlowfishKeyBytes
    ensures |bytes| >= BlowfishKeyBytes ==> k == bytes[..BlowfishKeyBytes]
    ensures |bytes| < BlowfishKeyBytes ==> k[..|bytes|] == bytes && k[|bytes|] == 0
    ensures |bytes| < BlowfishKeyBytes ==> forall i :: |bytes| < i < BlowfishKeyBytes ==> k[i] == k[i - (|bytes| + 1)]
  {
    var k := Cycle(bytes + [0], BlowfishKeyBytes);
    assert |bytes| >= BlowfishKeyBytes ==> (bytes + [0])[..BlowfishKeyBytes] == bytes[..BlowfishKeyBytes];
    assert |bytes| < BlowfishKeyBytes ==> k[..|bytes| + 1] == bytes + [0];
    assert |bytes| < BlowfishKeyBytes ==> k[..|bytes|] == (bytes + [0])[..|bytes|];
    k
  }

  /**
    The key bcrypt's Blowfish setup sees for `password`: its UTF-8 bytes with a
    terminating NUL, repeated cyclically and cut at 72 bytes. Bytes past the
    72nd never reach the cipher, and a short password's bytes and NUL repeat
    to fill the key (so "a" and "a\0a" share one).
   */
  function BcryptKey(password: string): (k: seq<Byte>)
    ensures |k| == BlowfishKeyBytes
    ensures Utf8Length(password) >= BlowfishKeyBytes ==> k == Utf8Encode(password)[..BlowfishKeyBytes]
    ensures Utf8Length(password) < BlowfishKeyBytes ==>
      k[..Utf8Length(password)] == Utf8Encode(password) && k[Utf8Length(password)] == 0
    ensures Utf8Length(password) < BlowfishKeyBytes ==>
      forall i :: Utf8Length(password) < i < BlowfishKeyBytes ==> k[i] == k[i - (Utf8Length(password) + 1)]
  {
    BlowfishKey(Utf8Encode(password))
  }

  /** `bcrypt.CompareHashAndPassword(digest, password) == nil`: the two Blowfish keys coincide. */
  predicate CompareHashAndPassword(digest: Digest, password: string) {
    BcryptKey(password) == BcryptKey(digest.secret)
  }

  /** The longest password, in bytes, that `bcrypt.GenerateFromPassword` accepts. */
  const MaxPasswordBytes := 72

  /**
    `HashPassword`: bcrypt with a salt drawn from the random source; `entropy`
    is that draw, `None` when it fails. bcrypt refuses a password longer than
    72 bytes before it draws the salt. A digest accepts its own password and
    exactly the passwords whose Blowfish key is the same.
   */
  function HashPassword(password: string, entropy: Option<nat>): (r: Result<Digest, string>)
    ensures r.Success? <==> Utf8Length(password) <= MaxPasswordBytes && entropy.Some?
    ensures Utf8Length(password) > MaxPasswordBytes ==> r == Failure(PasswordTooLongText)
    ensures r.Success? ==> CompareHashAndPassword(r.value, password)
    ensures r.Success? ==>
      forall attempt :: CompareHashAndPassword(r.value, attempt) <==> BcryptKey(attempt) == BcryptKey(password)
  {
    if Utf8Length(password) > MaxPasswordBytes then Failure(PasswordTooLongText)
    else
      match entropy
      case None => Failure("crypto/bcrypt: no entropy")
      case Some(salt) => Success(Digest(salt, password))
  }

  const PasswordTooLongText := "bcrypt: password length exceeds 72 bytes"

  /** `HashPassword` succeeds on this password and salt draw. */
  predicate Hashable(password: string, entropy: Option<nat>) {
    Utf8Length(password) <= MaxPasswordBytes && entropy.Some?
  }

  /** The fields of `models.User` a registration request supplies. */
  datatype Registration = Registration(
    email: string,
    password: string,
    firstName: string,
    lastName: string,
    role: string,
    favouriteGenres: seq<string>)

  /** The e-mail address is already registered (`CountDocuments({email}) > 0`). */
  predicate EmailTaken(docs: seq<User>, email: string) {
    FirstMatch(docs, EmailOf, email).Some?
  }

  /**
    `RegisterUser`. Bind and validation failures give 400, a hashing failure
    (a password over 72 bytes or a failed salt draw) 500, a failed count 500, an e-mail already present 409 and a failed insert
    500, each leaving the collection as it was. Otherwise exactly one document
    is appended: the request's profile with the fresh user id, the instant as
    creation and update time, and the password replaced by a digest of it.
   */
  method RegisterUser(users: UserCollection, body: Bound<Registration>, entropy: Option<nat>,
                      newId: string, now: nat, faults: Faults) returns (resp: Response)
    requires Consistent(users.docs)
    requires forall i :: 0 <= i < |users.docs| ==> users.docs[i].userId != newId
    modifies users
    ensures Consistent(users.docs)
    ensures body.Malformed? ==>
      resp == Reply(StatusBadRequest, Error("Datos de entrada inválidos")) && users.docs == old(users.docs)
    ensures body.Invalid? ==>
      resp == Reply(StatusBadRequest, Error("Validación fallida")) && users.docs == old(users.docs)
    ensures body.Bound? && !Hashable(body.value.password, entropy) ==>
      resp == Reply(StatusInternalServerError, Error("No se pudo encriptar la contraseña"))
      && users.docs == old(users.docs)
    ensures body.Bound? && Hashable(body.value.password, entropy) && faults.readFails ==>
      resp == Reply(StatusInternalServerError, Error("Error al verificar usuario existente"))
      && users.docs == old(users.docs)
    ensures body.Bound? && Hashable(body.value.password, entropy) && !faults.readFails
            && EmailTaken(old(users.docs), body.value.email) ==>
      resp == Reply(StatusConflict, Error("El usuario ya existe")) && users.docs == old(users.docs)
    ensures body.Bound? && Hashable(body.value.password, entropy) && !faults.readFails
            && !EmailTaken(old(users.docs), body.value.email)
            && faults.writeFails ==>
      resp == Reply(StatusInternalServerError, Error("Error al crear el usuario")) && users.docs == old(users.docs)
    ensures resp.status == StatusCreated <==>
      body.Bound? && Hashable(body.value.password, entropy) && !faults.readFails && !faults.writeFails
      && !EmailTaken(old(users.docs), body.value.email)
    ensures resp.status == StatusCreated ==>
      && resp == Reply(StatusCreated, InsertResult)
      && |users.docs| == |old(users.docs)| + 1
      && users.docs[..|old(users.docs)|] == old(users.docs)
      && var u := users.docs[|old(users.docs)|];
         && u.userId == newId && u.email == body.value.email
         && u.firstName == body.value.firstName && u.lastName == body.value.lastName
         && u.role == body.value.role && u.favouriteGenres == body.value.favouriteGenres
         && u.createdAt == now && u.updatedAt == now
         && (forall attempt :: CompareHashAndPassword(u.password, attempt)
               <==> BcryptKey(attempt) == BcryptKey(body.value.password))
  {
    if body.Malformed? {
      return Reply(StatusBadRequest, Error("Datos de entrada inválidos"));
    }
    if body.Invalid? {
      return Reply(StatusBadRequest, Error("Validación fallida"));
    }
    var form := body.value;
    var hashed := HashPassword(form.password, entropy);
    if hashed.Failure? {
      return Reply(StatusInternalServerError, Error("No se pudo encriptar la contraseña"));
    }
    if faults.readFails {
      return Reply(StatusInternalServerError, Error("Error al verificar usuario existente"));
    }
    if EmailTaken(users.docs, form.email) {
      return Reply(StatusConflict, Error("El usuario ya existe"));
    }
    var user := User(newId, form.email, hashed.value, form.firstName, form.lastName, form.role,
                     form.favouriteGenres, now, now, Blank, Blank, 0);
    if faults.writeFails {
      return Reply(StatusInternalServerError, Error("Error al crear el usuario"));
    }
    var before := users.docs;
    users.docs := users.docs + [user];
    forall j | 0 <= j < |before| ensures before[j].email != user.email {
      assert EmailOf(before[j]) != form.email;
    }
    return Reply(StatusCreated, InsertResult);
  }

  /** The fields of `models.UserLogin`. */
  datatype Credentials = Credentials(email: string, password: string)

  /** The one reply for an unknown e-mail, a wrong password and a failed lookup alike. */
  const InvalidCredentials := Reply(StatusUnauthorized, Error("Correo o contraseña inválidos"))

  /** The lookup by e-mail succeeds and the stored digest accepts the password. */
  predicate CredentialsMatch(docs: seq<User>, login: Credentials, readFails: bool) {
    && !readFails
    && FirstMatch(docs, EmailOf, login.email).Some?
    && CompareHashAndPassword(docs[FirstMatch(docs, EmailOf, login.email).value].password, login.password)
  }

  /**
    bcrypt reads no password byte past the 72nd: once a password has 72 bytes,
    anything appended to it yields the same key.
   */
  lemma BytesPast72AreIgnored(p: string, q: string)
    requires Utf8Length(p) >= BlowfishKeyBytes
    ensures BcryptKey(p + q) == BcryptKey(p)
  {
    Utf8EncodeAppend(p, q);
    var e, f := Utf8Encode(p), Utf8Encode(q);
    assert |e| >= BlowfishKeyBytes;
    assert BcryptKey(p + q) == BlowfishKey(e + f) == (e + f)[..BlowfishKeyBytes];
    assert (e + f)[..BlowfishKeyBytes] == e[..BlowfishKeyBytes];
    assert BcryptKey(p) == BlowfishKey(e) == e[..BlowfishKeyBytes];
  }

  /**
    Passwords without NUL that are shorter than 72 bytes are told apart
    exactly: equal keys mean equal passwords. The NUL that ends each one in
    the key marks where its bytes stop, and UTF-8 encoding loses nothing.
   */
  lemma ShortPasswordsAreDistinguished(p: string, q: string)
    requires Utf8Length(p) < BlowfishKeyBytes && Utf8Length(q) < BlowfishKeyBytes
    requires forall i :: 0 <= i < |p| ==> p[i] != '\0'
    requires forall i :: 0 <= i < |q| ==> q[i] != '\0'
    ensures BcryptKey(p) == BcryptKey(q) <==> p == q
  {
    if BcryptKey(p) == BcryptKey(q) {
      Utf8EncodeHasNoZero(p);
      Utf8EncodeHasNoZero(q);
      assert Utf8Length(p) == Utf8Length(q);
      assert Utf8Encode(p) == Utf8Encode(q);
      Utf8EncodeInjective(p, q);
    }
  }

  /**
    A login succeeds with any extension of a registered password of 72 bytes
    or more: the comparison at login never sees the appended bytes.
   */
  lemma LongerPasswordLogsIn(docs: seq<User>, email: string, p: string, q: string, readFails: bool)
    requires CredentialsMatch(docs, Credentials(email, p), readFails)
    requires Utf8Length(p) >= BlowfishKeyBytes
    ensures CredentialsMatch(docs, Credentials(email, p + q), readFails)
  {
    BytesPast72AreIgnored(p, q);
  }

  /** The pair minted from a stored user's own fields. */
  function MintFor(u: User, now: nat, secrets: Secrets, signing: Signing): (g: Issued) {
    GenerateAllTokens(u.email, u.firstName, u.lastName, u.role, u.userId, now, secrets, signing)
  }

  /**
    `LoginUser`. A bad body gives 400; an unknown e-mail, a wrong password or a
    failed lookup all give the identical 401. Otherwise the pair is minted from
    the stored record (500 if minting fails), persisted for that user (500 if
    the write fails), and delivered in the `access_token` (max-age 86400) and
    `refresh_token` (max-age 604800) cookies with a profile that has no
    password in it.
   */
  method LoginUser(users: UserCollection, body: Bound<Credentials>, secrets: Secrets, signing: Signing,
                   now: nat, faults: Faults) returns (resp: Response)
    requires Consistent(users.docs)
    modifies users
    ensures Consistent(users.docs)
    ensures !body.Bound? ==>
      resp == Reply(StatusBadRequest, Error("Datos de entrada inválidos")) && users.docs == old(users.docs)
    ensures body.Bound? && !CredentialsMatch(old(users.docs), body.value, faults.readFails) ==>
      resp == InvalidCredentials && users.docs == old(users.docs)
    ensures body.Bound? && CredentialsMatch(old(users.docs), body.value, faults.readFails) ==>
      var i := FirstMatch(old(users.docs), EmailOf, body.value.email).value;
      var u := old(users.docs)[i];
      var g := MintFor(u, now, secrets, signing);
      && (g.err.Some? ==>
            resp == Reply(StatusInternalServerError, Error("Error al generar tokens"))
            && users.docs == old(users.docs))
      && (g.err.None? && faults.writeFails ==>
            resp == Reply(StatusInternalServerError, Error("Error al actualizar tokens"))
            && users.docs == old(users.docs))
      && (g.err.None? && !faults.writeFails ==>
            && users.docs == SetTokens(old(users.docs), u.userId, g.token, g.refreshToken, now / Second)
            && users.docs[i].token == g.token && users.docs[i].refreshToken == g.refreshToken
            && resp == Response(StatusOK,
                                [Cookie(AccessCookie, g.token, 86400), Cookie(RefreshCookie, g.refreshToken, 604800)],
                                Profile(u.userId, u.firstName, u.lastName, u.email, u.role, u.favouriteGenres)))
  {
    if !body.Bound? {
      return Reply(StatusBadRequest, Error("Datos de entrada inválidos"));
    }
    var login := body.value;
    if faults.readFails {
      return InvalidCredentials;
    }
    var found := FirstMatch(users.docs, EmailOf, login.email);
    if found.None? {
      return InvalidCredentials;
    }
    var i := found.value;
    var u := users.docs[i];
    if !CompareHashAndPassword(u.password, login.password) {
      return InvalidCredentials;
    }
    var g := MintFor(u, now, secrets, signing);
    if g.err.Some? {
      return Reply(StatusInternalServerError, Error("Error al generar tokens"));
    }
    IdFindsItsDocument(users.docs, i);
    SetTokensKeepsConsistency(users.docs, u.userId, g.token, g.refreshToken, now / Second);
    var failed := UpdateAllTokens(users, u.userId, g.token, g.refreshToken, now, faults.writeFails);
    if failed {
      return Reply(StatusInternalServerError, Error("Error al actualizar tokens"));
    }
    return Response(StatusOK,
                    [Cookie(AccessCookie, g.token, 86400), Cookie(RefreshCookie, g.refreshToken, 604800)],
                    Profile(u.userId, u.firstName, u.lastName, u.email, u.role, u.favouriteGenres));
  }

  /**
    `LogoutHandler`: no authentication. A bad body gives 400 and a failed write
    500, changing nothing; otherwise the stored pair of the given `user_id`
    (if any document has it) becomes "" and both cookies are expired.
   */
  method LogoutHandler(users: UserCollection, body: Bound<string>, now: nat, faults: Faults)
    returns (resp: Response)
    requires Consistent(users.docs)
    modifies users
    ensures Consistent(users.docs)
    ensures !body.Bound? ==>
      resp == Reply(StatusBadRequest, Error("Datos inválidos")) && users.docs == old(users.docs)
    ensures body.Bound? && faults.writeFails ==>
      resp == Reply(StatusInternalServerError, Error("Error al cerrar sesión")) && users.docs == old(users.docs)
    ensures body.Bound? && !faults.writeFails ==>
      && users.docs == SetTokens(old(users.docs), body.value, Blank, Blank, now / Second)
      && (forall j :: 0 <= j < |users.docs| && users.docs[j].userId == body.value ==>
            users.docs[j].token == Blank && users.docs[j].refreshToken == Blank)
      && resp == Response(StatusOK, [Cookie(AccessCookie, Blank, -1), Cookie(RefreshCookie, Blank, -1)],
                          Message("Sesión cerrada correctamente"))
  {
    if !body.Bound? {
      return Reply(StatusBadRequest, Error("Datos inválidos"));
    }
    SetTokensKeepsConsistency(users.docs, body.value, Blank, Blank, now / Second);
    ghost var before := users.docs;
    var failed := UpdateAllTokens(users, body.value, Blank, Blank, now, faults.writeFails);
    if failed {
      return Reply(StatusInternalServerError, Error("Error al cerrar sesión"));
    }
    forall j | 0 <= j < |users.docs| && users.docs[j].userId == body.value
      ensures users.docs[j].token == Blank && users.docs[j].refreshToken == Blank
    {
      assert SameExceptTokens(before[j], users.docs[j]);
      IdFindsItsDocument(before, j);
    }
    return Response(StatusOK, [Cookie(AccessCookie, Blank, -1), Cookie(RefreshCookie, Blank, -1)],
                    Message("Sesión cerrada correctamente"));
  }

  /**
    `RefreshTokenHandler`. No `refresh_token` cookie, a refresh token that does
    not validate with the refresh secret, or a user id that finds no user
    (or a failed lookup) each give 401 and change nothing. Otherwise a new pair
    is minted from the user's CURRENT stored record, not from the old claims,
    and overwrites the stored pair (500 if the write fails). A minting error is
    ignored: the empty strings it yields are stored and sent with 200.
   */
  method RefreshTokenHandler(users: UserCollection, cookies: map<string, TokenString>, secrets: Secrets,
                             signing: Signing, now: nat, faults: Faults) returns (resp: Response)
    requires Consistent(users.docs)
    modifies users
    ensures Consistent(users.docs)
    ensures RefreshCookie !in cookies ==>
      resp == Reply(StatusUnauthorized, Error("No se pudo obtener el token de actualización"))
      && users.docs == old(users.docs)
    ensures RefreshCookie in cookies && ValidateRefreshToken(cookies[RefreshCookie], secrets, now).Failure? ==>
      resp == Reply(StatusUnauthorized, Error("Token de actualización inválido o expirado"))
      && users.docs == old(users.docs)
    ensures RefreshCookie in cookies && ValidateRefreshToken(cookies[RefreshCookie], secrets, now).Success? ==>
      var claims := ValidateRefreshToken(cookies[RefreshCookie], secrets, now).value;
      var found := FirstMatch(old(users.docs), UserIdOf, claims.userId);
      && (faults.readFails || found.None? ==>
            resp == Reply(StatusUnauthorized, Error("Usuario no encontrado")) && users.docs == old(users.docs))
      && (!faults.readFails && found.Some? ==>
            var u := old(users.docs)[found.value];
            var g := MintFor(u, now, secrets, signing);
            && (faults.writeFails ==>
                  resp == Reply(StatusInternalServerError, Error("Error al actualizar tokens"))
                  && users.docs == old(users.docs))
            && (!faults.writeFails ==>
                  && users.docs == SetTokens(old(users.docs), u.userId, g.token, g.refreshToken, now / Second)
                  && users.docs[found.value].token == g.token
                  && users.docs[found.value].refreshToken == g.refreshToken
                  && (g.err.None? ==> g.token.claims.role == u.role && g.refreshToken.claims.role == u.role)
                  && (g.err.Some? ==> g.token == Blank && g.refreshToken == Blank)
                  && resp == Response(StatusOK,
                                      [Cookie(AccessCookie, g.token, 86400), Cookie(RefreshCookie, g.refreshToken, 604800)],
                                      Message("Tokens actualizados correctamente"))))
  {
    if RefreshCookie !in cookies {
      return Reply(StatusUnauthorized, Error("No se pudo obtener el token de actualización"));
    }
    var checked := ValidateRefreshToken(cookies[RefreshCookie], secrets, now);
    if checked.Failure? {
      return Reply(StatusUnauthorized, Error("Token de actualización inválido o expirado"));
    }
    var claims := checked.value;
    if faults.readFails {
      return Reply(StatusUnauthorized, Error("Usuario no encontrado"));
    }
    var found := FirstMatch(users.docs, UserIdOf, claims.userId);
    if found.None? {
      return Reply(StatusUnauthorized, Error("Usuario no encontrado"));
    }
    var u := users.docs[found.value];
    var g := MintFor(u, now, secrets, signing);
    IdFindsItsDocument(users.docs, found.value);
    SetTokensKeepsConsistency(users.docs, u.userId, g.token, g.refreshToken, now / Second);
    var failed := UpdateAllTokens(users, u.userId, g.token, g.refreshToken, now, faults.writeFails);
    if failed {
      return Reply(StatusInternalServerError, Error("Error al actualizar tokens"));
    }
    return Response(StatusOK,
                    [Cookie(AccessCookie, g.token, 86400), Cookie(RefreshCookie, g.refreshToken, 604800)],
                    Message("Tokens actualizados correctamente"));
  }
}
