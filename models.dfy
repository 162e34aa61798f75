/**
  The documents, request inputs and responses the handlers work with: the
  `users` and `movies` documents, the values gin keeps in a request context,
  cookies, and the JSON replies with their status codes.
 */
module Models {
  import opened Jwt

  /** A bcrypt digest, symbolically: the salt drawn when hashing and the password it protects. */
  datatype Digest = Digest(salt: nat, secret: string)

  /**
    A `users` document. `createdAt`/`updatedAt` are the instants written at
    registration (nanoseconds); `updateAt` is the `update_at` field written by
    every token update (seconds, the resolution of its RFC 3339 text).
   */
  datatype User = User(
    userId: string,
    email: string,
    password: Digest,
    firstName: string,
    lastName: string,
    role: string,
    favouriteGenres: seq<string>,
    createdAt: nat,
    updatedAt: nat,
    token: TokenString,
    refreshToken: TokenString,
    updateAt: nat)

  /** A `movies` document: its IMDb id, title, genre names and the administrator's review. */
  datatype Movie = Movie(imdbId: string, title: string, genreNames: seq<string>, adminReview: string)

  /** A value stored under a key of a gin request context: a string or anything else. */
  datatype Value = Str(s: string) | NonString

  /** A `Set-Cookie` as far as the server's logic goes: name, value and max-age. */
  datatype Cookie = Cookie(name: string, value: TokenString, maxAge: int)

  /** The JSON body of a reply. */
  datatype Body =
    | NoBody
    | Error(message: string)
    | InsertResult
    | Profile(userId: string, firstName: string, lastName: string, email: string,
              role: string, favouriteGenres: seq<string>)
    | Message(text: string)
    | Review(adminReview: string)
    | OneMovie(movie: Movie)
    | MovieList(movies: seq<Movie>)

  /** A reply: HTTP status, cookies set, JSON body. */
  datatype Response = Response(status: int, cookies: seq<Cookie>, body: Body)

  /**
    The outcome of reading a JSON request body: `ShouldBindJSON` failed
    (`Malformed`), struct validation failed (`Invalid`), or the value.
   */
  datatype Bound<T> = Malformed | Invalid | Bound(value: T)

  /** Whether this request's reads (find, count) and writes (insert, update) to the store fail. */
  datatype Faults = Faults(readFails: bool, writeFails: bool)

  const StatusOK := 200
  const StatusCreated := 201
  const StatusBadRequest := 400
  const StatusUnauthorized := 401
  const StatusNotFound := 404
  const StatusConflict := 409
  const StatusInternalServerError := 500

  const AccessCookie := "access_token"
  const RefreshCookie := "refresh_token"

  /** A reply without cookies. */
  function Reply(status: int, body: Body): (r: Response) {
    Response(status, [], body)
  }
}
