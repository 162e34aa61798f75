# PeliculApp backend: session and authorization core

A Dafny model of the decision logic of the PeliculApp movie server (Go, gin,
MongoDB): how it issues, validates, persists, rotates and clears the
access/refresh JSON Web Token pair, the authorization gate in front of the
protected routes, the account handlers (register, login, logout, refresh),
the movie handlers that make decisions (search filter, get, add, admin
review), and the two settings `main` derives from its environment.

Layout, one module per source component:

- `jwt.dfy` (`Jwt`): the JWT library, symbolically. A token string is `Blank`
  (""), `Signed(claims, alg, key)` or other text. Parsing under a key succeeds
  exactly when the token was signed with that key.
- `tokenutil.dfy` (`TokenUtil`): `GenerateAllTokens`, `ValidateToken`/`ValidateRefreshToken`
  (one `Validate` with a `Kind`), `UpdateAllTokens`, `GetAccessToken`, and the context getters.
- `middleware.dfy` (`Middleware`): the gate as a pure decision (`Authenticate`)
  and as a method on a request-context class (`Context.AuthMiddleWare`).
- `usercontroller.dfy` (`UserController`): bcrypt as a symbolic digest, and the
  four account handlers as methods on the `users` collection.
- `moviecontroller.dfy` (`MovieController`): the search filter, `GetMovie`,
  `AddMovie`, `AdminReview`.
- `routes.dfy` (`Routes`): the two protected routes, gate then handler.
- `serverconfig.dfy` (`ServerConfig`): allowed CORS origins and the listen address.
- `database.dfy`, `models.dfy`, `gostrings.dfy`, `wrappers.dfy`: the collections
  as document sequences, the document and reply types, Go's `strings.TrimSpace`,
  `strings.Split` and the UTF-8 length of a string, and `Option`/`Result`.

Modelling choices:

- Every collection is a sequence of documents in natural order. `FindOne` and
  `UpdateOne` with an equality filter act on the first matching document
  (`Database.FirstMatch`). The users collection is kept `Consistent`: no two
  users share an e-mail or a user id. Every user handler preserves this.
- Everything the server gets from outside is a parameter:
  - the two secrets (`Secrets`);
  - the current instant (`now`, Unix nanoseconds; token times are whole seconds
    as the JWT library truncates them);
  - whether `SignedString` succeeds (`Signing`);
  - the bcrypt salt draw (`entropy`, `None` when it fails);
  - the new ObjectID (`newId`);
  - whether this request's store reads or writes fail (`Faults`);
  - the outcome of body binding and struct validation (`Bound`);
  - the store's answer to a search filter (`find`).
- Handlers return their reply as a `Response` value: status, cookies (name,
  value, max-age) and JSON body, with the source's own error texts.
- Any HMAC method passes the method check, HS384 and HS512 included, not only
  the HS256 the server signs with (`TokenUtil.AnyHmacIsAccepted`).
- A role is a free string taken from the registration body. Only
  `AdminReview` compares it, with "ADMIN".
- A user not found on refresh and a failed login lookup both answer 401,
  while a failed count at registration answers 500.
- A password longer than 72 bytes in UTF-8 is refused by bcrypt, so its
  registration answers 500 (`UserController.HashPassword`, `UserController.RegisterUser`).
- bcrypt's key schedule reads only the first 72 bytes of a password
  (`UserController.BcryptKey`). A user registered with a 72-byte password
  can therefore log in with that password followed by anything
  (`UserController.LongerPasswordLogsIn`).
- Access and refresh tokens are told apart only by their secrets.
  `SECRET_KEY` and `SECRET_REFRESH_KEY` are read while the `utils` package
  initialises (utils/tokenUtil.go:25-26), before `main` loads `.env`
  (main.go:18-22). If both are set only in `.env`, both are "" and either
  token passes for the other. The lemmas that separate the two kinds
  (`TokenUtil.TokensAreNotInterchangeable`,
  `Middleware.GateAdmitsIssuedAccessTokenOnly`) therefore take distinct
  secrets as a hypothesis. That is a deployment condition the program does
  not check.
- Validation never consults the store, so a logged-out or superseded token
  still validates until it expires. `Validate` and `Authenticate` take no
  store argument, which makes this visible in their signatures.
- `LogoutHandler` needs no authentication: any caller can clear any user's
  stored pair by naming its `user_id`.
- `RefreshTokenHandler` ignores a minting error. The two "" strings are then
  stored and sent with 200 (stated in its contract).

## Model

| member | source | states |
|---|---|---|
| `Jwt.SignedString` | utils/tokenUtil.go:41-42 | signing fails exactly when the library fails; a signed token parses back to its claims and method under its own secret and under no other |
| `TokenUtil.GenerateAllTokens` | utils/tokenUtil.go:28-66 | both tokens carry the caller's email, names, role and user id and the issuer "PeliculApp", are HS256, issued now; access token: secret key and expiry iat + 24h; refresh token: refresh key and expiry iat + 168h; if either signing fails both strings are "" with an error |
| `TokenUtil.Validate` | utils/tokenUtil.go:97-136 | accepted iff signed with the kind's secret, HMAC method and expiry not strictly before now, returning the claims unchanged; otherwise the first failing check's error: parse, then method, then expiry |
| `TokenUtil.IssuedPairValidates` | utils/tokenUtil.go:37-56 | an issued access token validates exactly until its 24h expiry second, the refresh token until its 168h expiry second, and the validated claims are the issued identity |
| `TokenUtil.TokensAreNotInterchangeable` | utils/tokenUtil.go:97-122 | with distinct secrets, `ValidateToken` rejects an issued refresh token and `ValidateRefreshToken` an issued access token |
| `TokenUtil.ExpiryIsStrict` | utils/tokenUtil.go:110-112 | the explicit expiry check at line 110 alone: a token whose expiry equals now passes it, and one nanosecond later it is rejected as expired |
| `TokenUtil.AnyHmacIsAccepted` | utils/tokenUtil.go:106-108 | every HMAC method passes the method check, not only HS256 |
| `TokenUtil.SetTokens` | utils/tokenUtil.go:73-84 | the first document with the user id gets the new token, refresh token and update time; no other field and no other document changes; no match changes nothing |
| `TokenUtil.SetTokensKeepsConsistency` | utils/tokenUtil.go:74-80 | the token update keeps e-mails and user ids unique |
| `TokenUtil.UpdateAllTokens` | utils/tokenUtil.go:69-85 | error only on a store failure (then nothing changes); otherwise the collection becomes `SetTokens` of it, and a missing match is no error |
| `TokenUtil.GetAccessToken` | utils/tokenUtil.go:88-94 | the `access_token` cookie's value, or the fixed error when the cookie is absent |
| `TokenUtil.GetFromContext` | utils/tokenUtil.go:139-162 | the string under the key; an error when the key is absent or holds a non-string |
| `TokenUtil.PublishedIdentityReadsBack` | middleware/authMiddleware.go:42-43 | after the gate sets `userId` and `role`, both getters return exactly those strings |
| `Middleware.Authenticate` | middleware/authMiddleware.go:14-45 | proceeds iff the `access_token` cookie exists and validates with the access secret, publishing the claims' user id and role; fixed rejections for a missing cookie and for "", and "Token inválido: " followed by the validation error otherwise |
| `Middleware.GateIgnoresRole` | middleware/authMiddleware.go:31-43 | tokens differing only in role are admitted or refused alike, and the role is passed on unread |
| `Middleware.GateAdmitsIssuedAccessTokenOnly` | middleware/authMiddleware.go:31-37 | an issued access token admits its user and role until expiry and is refused after it; the refresh token of the same pair is refused when the secrets differ |
| `Middleware.Context.AuthMiddleWare` | middleware/authMiddleware.go:11-47 | exactly one outcome: abort with 401, keys unchanged; or set `userId` and `role` and continue, reply untouched |
| `Database.FirstMatch` | controllers/userController.go:88 | the index of the first document whose field equals the value, or none when no document has it |
| `UserController.HashPassword` | controllers/userController.go:17-23 | succeeds iff the password is at most 72 bytes in UTF-8 and the salt draw works, failing with bcrypt's length error for a longer one; the digest accepts the hashed password, and exactly the passwords with the same Blowfish key |
| `UserController.BlowfishKey` | controllers/userController.go:94 | the key schedule's view of a byte string: its first 72 bytes, or, when shorter, the bytes and a NUL repeated cyclically to 72 |
| `UserController.BcryptKey` | controllers/userController.go:94 | the 72 key bytes bcrypt compares: the first 72 bytes of a long password; for a shorter one, its bytes followed by a NUL, repeated cyclically to fill the 72 bytes |
| `UserController.BytesPast72AreIgnored` | controllers/userController.go:94 | once a password has 72 bytes, appending anything leaves its key unchanged |
| `UserController.ShortPasswordsAreDistinguished` | controllers/userController.go:94 | two NUL-free passwords under 72 bytes have the same key iff they are equal |
| `UserController.LongerPasswordLogsIn` | controllers/userController.go:88-99 | if a password of 72 bytes or more matches the stored digest at login, so does that password followed by any text |
| `GoStrings.Utf8Length` | controllers/userController.go:18 | the byte length of the password bcrypt measures: between `|s|` and `4·|s|`, exactly `|s|` for ASCII text |
| `GoStrings.Utf8Encode` | controllers/userController.go:18 | `[]byte(password)`: the UTF-8 bytes, as many as `Utf8Length` counts |
| `GoStrings.Utf8EncodeInjective` | controllers/userController.go:94 | strings with the same UTF-8 bytes are equal |
| `GoStrings.Utf8EncodeAppend` | controllers/userController.go:18 | the bytes and byte length of a concatenation are those of its parts, concatenated and added |
| `UserController.RegisterUser` | controllers/userController.go:25-72 | 400 on bind or validation failure, 500 on hash (password over 72 bytes or failed salt draw), count or insert failure, 409 on a taken e-mail, all with no change; 201 appends one user: fresh id, timestamps now, password as a digest accepting exactly the passwords with its Blowfish key; uniqueness kept |
| `UserController.LoginUser` | controllers/userController.go:74-141 | unknown e-mail, wrong password and failed lookup give the same 401; on success the pair minted from the stored record is persisted for that user and sent in cookies of max-age 86400 and 604800 with a password-free profile |
| `UserController.LogoutHandler` | controllers/userController.go:143-180 | no authentication; the user's stored pair becomes "" and both cookies get max-age -1; 400 on a bad body, 500 on a failed write, with no change |
| `UserController.RefreshTokenHandler` | controllers/userController.go:182-219 | missing cookie, invalid or expired refresh token, or unknown user give 401 with no change; otherwise the pair is minted from the current stored record (its role), overwrites the stored pair and is sent; a minting error is ignored |
| `MovieController.SearchText` | controllers/movieController.go:77-80 | the trimmed `title`, or the trimmed `query` when that is empty; never padded with white space |
| `MovieController.SearchFilter` | controllers/movieController.go:82-100 | a case-insensitive title regex iff the search text is non-empty, a genre-name regex iff the trimmed genre is non-empty, and nothing else |
| `MovieController.TitleShadowsQuery` | controllers/movieController.go:77-80 | with a non-blank `title`, the `query` parameter does not affect the filter |
| `MovieController.SearchMovies` | controllers/movieController.go:108-121 | always 200: the movies found for the filter, or an empty list on a store error |
| `MovieController.GetMovie` | controllers/movieController.go:47-69 | 400 for an empty id; 200 iff the lookup works and some movie has the id, replying with such a movie; 404 otherwise |
| `MovieController.AddMovie` | controllers/movieController.go:126-151 | 400 on bind or validation failure and 500 on insert failure, inserting nothing; otherwise the movie is appended with 201 |
| `MovieController.SetReview` | controllers/movieController.go:180-191 | only `admin_review` of the first movie with the id changes; no match changes nothing |
| `MovieController.AdminReview` | controllers/movieController.go:153-204 | missing role 400 and non-ADMIN role 401 before any other check or store access; empty id or bad body 400; failed update 500; otherwise the review is set, with 404 when no movie matched and 200 echoing the review when one did |
| `Routes.UpdateReviewRoute` | routes/protectedRoutes.go:13-15 | a request the gate rejects gets 401 and changes no movie; a non-ADMIN authenticated role gets 401 and changes nothing; an ADMIN's valid request sets the review |
| `Routes.AddMovieRoute` | routes/protectedRoutes.go:13-14 | a request the gate rejects inserts nothing; any authenticated role can add a movie |
| `GoStrings.TrimSpace` | main.go:36 | `strings.TrimSpace`: the result has no white space at either end |
| `GoStrings.TrimSpaceIsSlice` | main.go:36 | trimming removes white space at the two ends and nothing else |
| `GoStrings.Split` | main.go:34 | one piece per comma plus one, empty pieces included, none containing a comma |
| `GoStrings.JoinSplit` | main.go:34 | joining the pieces with commas gives back the original text |
| `GoStrings.SplitJoin` | main.go:34 | comma-free pieces joined and split again are the same pieces |
| `ServerConfig.AllowedOrigins` | main.go:31-41 | empty gives exactly "http://localhost:5173"; otherwise one entry per piece (commas + 1), in order, each the trimmed piece, none with a comma or outer white space |
| `ServerConfig.ListenAddress` | main.go:71-76 | ":" then `PORT`, or ":8080" when `PORT` is empty |

## Left out

- Cryptography. HMAC-SHA-256, base64url encoding and bcrypt's hash are symbolic.
  A digest keeps its password's Blowfish key, so it is compared exactly. Hash
  collisions, the cost factor and the salt's effect on the hash text are not modelled.
- The JWT library's own checks inside `ParseWithClaims` are not modelled. These are
  its rejection of non-HMAC methods when the key is a byte slice, and its own
  `exp`/`nbf`/`iat` validation. The model keeps only the explicit checks at
  utils/tokenUtil.go:102-112, so the method check there is what refuses
  non-HMAC tokens. The library's validation refuses a token once its expiry
  is reached, so in the program the explicit check at utils/tokenUtil.go:110
  rarely decides. `TokenUtil.ExpiryIsStrict` is about that explicit check only.
- Parse error texts are approximated ("token is malformed", "token signature is invalid").
- `TokenUtil.Validate`: a correctly signed token without an `exp` claim is not
  modelled. Every claim set here carries an expiry. The source would dereference
  a nil `ExpiresAt` at utils/tokenUtil.go:110 for such a token.
- `TokenUtil.GenerateAllTokens`: the source reads the clock four times. The model
  reads it once, so its expiries are exactly iat + 24h and iat + 168h. In the
  source they can exceed that by one second when a second boundary falls
  between the readings.
- The `models` package is not part of this model. Three things follow:
  - Struct validation tags and binding rules are the `Bound` parameter.
  - Documents carry only the fields the handlers touch.
  - `updatedAt` (set at registration) and `update_at` (set by token updates) are
    kept as two fields. Whether they are one document field depends on a bson
    tag not in view.
- `UserController.RegisterUser`: only the profile fields listed in
  `Registration` are taken from the body. Token fields a client might send are
  stored as "".
- The registration count is modelled as "some document has this e-mail". A
  store that already holds duplicate e-mails is outside `Consistent` and not modelled.
- Mongo's regex matching and Spanish collation: the search returns whatever the
  `find` parameter gives for the built filter.
- `GetMovies` and `GetGenres` list a whole collection with no decision in them.
- The database connection, environment loading, context timeouts, logging
  (including the token logged at middleware/authMiddleware.go:15), the CORS
  settings other than the origins, and route registration beyond the two
  protected routes.
- Cookie attributes other than name, value and max-age: path, domain, HttpOnly,
  SameSite, Secure.
- Concurrency. Concurrent logins or refreshes are last-writer-wins on the store;
  each handler is modelled as one sequential transition.
