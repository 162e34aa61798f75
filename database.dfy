/**
  The MongoDB collections as sequences of documents in natural order. A
  single-document find or update by an equality filter acts on the FIRST
  document whose field equals the value.
 */
module Database {
  import opened Wrappers
  import opened Models

  /** Index of the first document whose `field` equals `k` (`FindOne`/`UpdateOne` with `{field: k}`). */
  function FirstMatch<T>(docs: seq<T>, field: T -> string, k: string): (r: Option<nat>)
    ensures r.Some? ==> r.value < |docs| && field(docs[r.value]) == k
    ensures r.Some? ==> forall j :: 0 <= j < r.value ==> field(docs[j]) != k
    ensures r.None? ==> forall j :: 0 <= j < |docs| ==> field(docs[j]) != k
  {
    if docs == [] then None
    else if field(docs[0]) == k then Some(0)
    else match FirstMatch(docs[1..], field, k)
      case None => None
      case Some(i) => Some(i + 1)
  }

  function UserIdOf(u: User): (id: string) { u.userId }
  function EmailOf(u: User): (email: string) { u.email }
  function ImdbIdOf(m: Movie): (id: string) { m.imdbId }

  /** No two users share an e-mail address or a user id. */
  ghost predicate Consistent(docs: seq<User>) {
    forall i, j :: 0 <= i < j < |docs| ==>
      docs[i].email != docs[j].email && docs[i].userId != docs[j].userId
  }

  /** In a consistent collection a user's id finds that user's document. */
  lemma IdFindsItsDocument(docs: seq<User>, i: nat)
    requires Consistent(docs) && i < |docs|
    ensures FirstMatch(docs, UserIdOf, docs[i].userId) == Some(i)
  {
    var r := FirstMatch(docs, UserIdOf, docs[i].userId);
    assert UserIdOf(docs[i]) == docs[i].userId;
  }

  /** The `users` collection. */
  class UserCollection {
    var docs: seq<User>

    constructor (docs: seq<User>)
      ensures this.docs == docs
    {
      this.docs := docs;
    }
  }

  /** The `movies` collection. */
  class MovieCollection {
    var docs: seq<Movie>

    constructor (docs: seq<Movie>)
      ensures this.docs == docs
    {
      this.docs := docs;
    }
  }
}
