/**
  The two protected routes: `POST /addmovie` and `PATCH /updatereview/:imdb_id`
  run their handler only when the authorization gate let the request through;
  a rejected request leaves the `movies` collection as it was.
 */
module Routes {
  import opened Models
  import opened Database
  import opened TokenUtil
  import opened Middleware
  import opened MovieController

  /** `PATCH /updatereview/:imdb_id`: the gate, then `AdminReview` with the context the gate filled in. */
  method UpdateReviewRoute(c: Context, movies: MovieCollection, secrets: Secrets, now: nat, imdbId: string,
                           body: Bound<string>, writeFails: bool)
    requires !c.aborted && !c.proceeded
    modifies c, movies
    ensures var d := Authenticate(c.cookies, secrets, now);
      && (d.Reject? ==>
            c.aborted && c.response.status == StatusUnauthorized && movies.docs == old(movies.docs))
      && (d.Proceed? && d.role != AdminRole ==>
            c.response == Reply(StatusUnauthorized, Error("El usuario debe ser ADMIN"))
            && movies.docs == old(movies.docs))
      && (d.Proceed? && d.role == AdminRole && imdbId != "" && body.Bound? && !writeFails ==>
            movies.docs == SetReview(old(movies.docs), imdbId, body.value))
  {
    c.AuthMiddleWare(secrets, now);
    if c.proceeded {
      PublishedIdentityReadsBack(old(c.keys), Authenticate(c.cookies, secrets, now).userId,
                                 Authenticate(c.cookies, secrets, now).role);
      var resp := AdminReview(movies, c.keys, imdbId, body, writeFails);
      c.response := resp;
    }
  }

  /** `POST /addmovie`: the gate, then `AddMovie`; any authenticated role may add. */
  method AddMovieRoute(c: Context, movies: MovieCollection, secrets: Secrets, now: nat,
                       body: Bound<Movie>, writeFails: bool)
    requires !c.aborted && !c.proceeded
    modifies c, movies
    ensures var d := Authenticate(c.cookies, secrets, now);
      && (d.Reject? ==>
            c.aborted && c.response.status == StatusUnauthorized && movies.docs == old(movies.docs))
      && (d.Proceed? && body.Bound? && !writeFails ==>
            c.response == Reply(StatusCreated, InsertResult) && movies.docs == old(movies.docs) + [body.value])
  {
    c.AuthMiddleWare(secrets, now);
    if c.proceeded {
      var resp := AddMovie(movies, body, writeFails);
      c.response := resp;
    }
  }
}
