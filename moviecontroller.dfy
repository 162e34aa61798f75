/**
  The movie handlers that make decisions: building the search filter,
  fetching one movie, adding a movie, and the administrator's review update.
  How the store evaluates a filter is a parameter of the search.
 */
module MovieController {
  import opened Wrappers
  import opened GoStrings
  import opened Models
  import opened Database
  import opened TokenUtil

  /** `c.Query(name)`: the parameter's value, "" when it is absent. */
  function QueryParam(params: map<string, string>, name: string): (v: string) {
    if name in params then params[name] else ""
  }

  /**
    The search text: the trimmed `title` parameter, or the trimmed `query`
    parameter when that is empty. It never has white space at either end.
   */
  function SearchText(params: map<string, string>): (q: string)
    ensures IsTrimmed(q)
    ensures TrimSpace(QueryParam(params, "title")) != "" ==> q == TrimSpace(QueryParam(params, "title"))
    ensures TrimSpace(QueryParam(params, "title")) == "" ==> q == TrimSpace(QueryParam(params, "query"))
  {
    var title := TrimSpace(QueryParam(params, "title"));
    if title == "" then TrimSpace(QueryParam(params, "query")) else title
  }

  /** One filter condition: `{"$regex": pattern, "$options": options}`. */
  datatype Condition = Regex(pattern: string, options: string)

  const TitleField := "title"
  const GenreField := "genre.genre_name"

  /**
    The filter `SearchMovies` hands to `Find`: a case-insensitive regex on
    `title` exactly when the search text is non-empty, one on
    `genre.genre_name` exactly when the trimmed `genre` is non-empty, and
    nothing else; so an empty search is the empty filter.
   */
  function SearchFilter(params: map<string, string>): (f: map<string, Condition>)
    ensures f.Keys <= {TitleField, GenreField}
    ensures TitleField in f <==> SearchText(params) != ""
    ensures GenreField in f <==> TrimSpace(QueryParam(params, "genre")) != ""
    ensures TitleField in f ==> f[TitleField] == Regex(SearchText(params), "i")
    ensures GenreField in f ==> f[GenreField] == Regex(TrimSpace(QueryParam(params, "genre")), "i")
    ensures forall k :: k in f ==> f[k].options == "i" && f[k].pattern != "" && IsTrimmed(f[k].pattern)
  {
    var query := SearchText(params);
    var genre := TrimSpace(QueryParam(params, "genre"));
    var withTitle: map<string, Condition> := if query != "" then map[TitleField := Regex(query, "i")] else map[];
    if genre != "" then withTitle[GenreField := Regex(genre, "i")] else withTitle
  }

  /** A non-blank `title` makes the `query` parameter irrelevant. */
  lemma TitleShadowsQuery(params: map<string, string>, otherQuery: string)
    requires TrimSpace(QueryParam(params, "title")) != ""
    ensures SearchFilter(params["query" := otherQuery]) == SearchFilter(params)
  {
    assert QueryParam(params["query" := otherQuery], "title") == QueryParam(params, "title");
    assert QueryParam(params["query" := otherQuery], "genre") == QueryParam(params, "genre");
  }

  /**
    `SearchMovies`. `find` is the store's answer to a filter (`None` when
    `Find` or decoding fails). The reply is always 200: the movies found, or
    an empty list on any store error.
   */
  function SearchMovies(params: map<string, string>, find: map<string, Condition> -> Option<seq<Movie>>)
    : (resp: Response)
    ensures resp.status == StatusOK && resp.cookies == [] && resp.body.MovieList?
    ensures var found := find(SearchFilter(params));
      resp.body.movies == if found.Some? then found.value else []
  {
    var found := find(SearchFilter(params));
    if found.Some? then Reply(StatusOK, MovieList(found.value)) else Reply(StatusOK, MovieList([]))
  }

  /**
    `GetMovie`: 400 for an empty id; 404 when the lookup fails or finds
    nothing; otherwise 200 with the first movie carrying that id.
   */
  function GetMovie(movies: seq<Movie>, imdbId: string, readFails: bool): (resp: Response)
    ensures imdbId == "" ==> resp == Reply(StatusBadRequest, Error("Se requiere el ID de la película"))
    ensures resp.status == StatusOK <==>
      imdbId != "" && !readFails && exists j :: 0 <= j < |movies| && movies[j].imdbId == imdbId
    ensures imdbId != "" && resp.status != StatusOK ==> resp == Reply(StatusNotFound, Error("Película no encontrada"))
    ensures resp.status == StatusOK ==>
      resp.body.OneMovie? && resp.body.movie in movies && resp.body.movie.imdbId == imdbId
  {
    if imdbId == "" then Reply(StatusBadRequest, Error("Se requiere el ID de la película"))
    else if readFails then Reply(StatusNotFound, Error("Película no encontrada"))
    else match FirstMatch(movies, ImdbIdOf, imdbId)
      case None => Reply(StatusNotFound, Error("Película no encontrada"))
      case Some(i) => Reply(StatusOK, OneMovie(movies[i]))
  }

  /**
    `AddMovie`: bind and validation failures give 400 and a failed insert 500,
    inserting nothing; otherwise the movie is appended and 201 returned.
   */
  method AddMovie(movies: MovieCollection, body: Bound<Movie>, writeFails: bool) returns (resp: Response)
    modifies movies
    ensures body.Malformed? ==>
      resp == Reply(StatusBadRequest, Error("Datos de entrada inválidos")) && movies.docs == old(movies.docs)
    ensures body.Invalid? ==>
      resp == Reply(StatusBadRequest, Error("Validación fallida")) && movies.docs == old(movies.docs)
    ensures body.Bound? && writeFails ==>
      resp == Reply(StatusInternalServerError, Error("No se pudo agregar la película"))
      && movies.docs == old(movies.docs)
    ensures body.Bound? && !writeFails ==>
      resp == Reply(StatusCreated, InsertResult) && movies.docs == old(movies.docs) + [body.value]
  {
    if body.Malformed? {
      return Reply(StatusBadRequest, Error("Datos de entrada inválidos"));
    }
    if body.Invalid? {
      return Reply(StatusBadRequest, Error("Validación fallida"));
    }
    if writeFails {
      return Reply(StatusInternalServerError, Error("No se pudo agregar la película"));
    }
    movies.docs := movies.docs + [body.value];
    return Reply(StatusCreated, InsertResult);
  }

  /**
    The `$set` of `AdminReview`: the first movie with the id gets the review
    as `admin_review`; every other field and every other movie is unchanged,
    and no match changes nothing.
   */
  function SetReview(movies: seq<Movie>, imdbId: string, review: string): (r: seq<Movie>)
    ensures |r| == |movies|
    ensures forall j :: 0 <= j < |movies| ==> r[j] == movies[j].(adminReview := r[j].adminReview)
    ensures FirstMatch(movies, ImdbIdOf, imdbId).None? ==> r == movies
    ensures FirstMatch(movies, ImdbIdOf, imdbId).Some? ==>
      var i := FirstMatch(movies, ImdbIdOf, imdbId).value;
      r[i].adminReview == review && forall j :: 0 <= j < |movies| && j != i ==> r[j] == movies[j]
  {
    match FirstMatch(movies, ImdbIdOf, imdbId)
    case None => movies
    case Some(i) => movies[i := movies[i].(adminReview := review)]
  }

  const AdminRole := "ADMIN"

  /**
    `AdminReview`. The role checks come first and touch nothing: no role in
    the context gives 400, a role other than "ADMIN" 401. Then an empty id or a
    bad body gives 400 and a failed update 500. A matching movie gets the
    review and the reply echoes it; no matching movie gives 404.
   */
  method AdminReview(movies: MovieCollection, keys: map<string, Value>, imdbId: string, body: Bound<string>,
                     writeFails: bool) returns (resp: Response)
    modifies movies
    ensures GetRoleFromContext(keys).Failure? ==>
      resp == Reply(StatusBadRequest, Error("No se encontró el rol en el contexto"))
      && movies.docs == old(movies.docs)
    ensures GetRoleFromContext(keys).Success? && GetRoleFromContext(keys).value != AdminRole ==>
      resp == Reply(StatusUnauthorized, Error("El usuario debe ser ADMIN")) && movies.docs == old(movies.docs)
    ensures GetRoleFromContext(keys) == Success(AdminRole) ==>
      && (imdbId == "" ==>
            resp == Reply(StatusBadRequest, Error("Se requiere el ID de la película"))
            && movies.docs == old(movies.docs))
      && (imdbId != "" && !body.Bound? ==>
            resp == Reply(StatusBadRequest, Error("Cuerpo de solicitud inválido"))
            && movies.docs == old(movies.docs))
      && (imdbId != "" && body.Bound? && writeFails ==>
            resp == Reply(StatusInternalServerError, Error("Error al actualizar la película"))
            && movies.docs == old(movies.docs))
      && (imdbId != "" && body.Bound? && !writeFails ==>
            && movies.docs == SetReview(old(movies.docs), imdbId, body.value)
            && (FirstMatch(old(movies.docs), ImdbIdOf, imdbId).None? ==>
                  resp == Reply(StatusNotFound, Error("Película no encontrada")))
            && (FirstMatch(old(movies.docs), ImdbIdOf, imdbId).Some? ==>
                  resp == Reply(StatusOK, Review(body.value))))
  {
    var role := GetRoleFromContext(keys);
    if role.Failure? {
      return Reply(StatusBadRequest, Error("No se encontró el rol en el contexto"));
    }
    if role.value != AdminRole {
      return Reply(StatusUnauthorized, Error("El usuario debe ser ADMIN"));
    }
    if imdbId == "" {
      return Reply(StatusBadRequest, Error("Se requiere el ID de la película"));
    }
    if !body.Bound? {
      return Reply(StatusBadRequest, Error("Cuerpo de solicitud inválido"));
    }
    if writeFails {
      return Reply(StatusInternalServerError, Error("Error al actualizar la película"));
    }
    var matched := FirstMatch(movies.docs, ImdbIdOf, imdbId);
    movies.docs := SetReview(movies.docs, imdbId, body.value);
    if matched.None? {
      return Reply(StatusNotFound, Error("Película no encontrada"));
    }
    return Reply(StatusOK, Review(body.value));
  }
}
