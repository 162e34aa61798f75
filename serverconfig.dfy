/**
  The two decisions `main` takes from its environment: the CORS allowed
  origins from `ALLOWED_ORIGINS` and the listening address from `PORT`.
 */
module ServerConfig {
  import opened GoStrings

  const DefaultOrigin := "http://localhost:5173"
  const DefaultPort := "8080"

  /** Trimming cannot bring in a character the text did not have. */
  lemma TrimSpaceAddsNothing(s: string, c: char)
    requires c !in s
    ensures c !in TrimSpace(s)
  {
    var r := TrimSpace(s);
    var a := LeadingSpaces(s);
    TrimSpaceIsSlice(s);
    forall k | 0 <= k < |r| ensures r[k] != c {
      assert r[k] == s[a + k];
    }
  }

  /**
    The allowed origins. Unset or empty gives exactly the default origin.
    Otherwise one entry per comma-separated piece, in order, empty pieces
    included, each trimmed in place; so there is one more entry than there are
    commas, and no entry has a comma or white space at either end.
   */
  method AllowedOrigins(env: string) returns (origins: seq<string>)
    ensures env == "" ==> origins == [DefaultOrigin]
    ensures env != "" ==>
      && |origins| == Count(env, ',') + 1
      && (forall i :: 0 <= i < |origins| ==> origins[i] == TrimSpace(Split(env, ',')[i]))
      && (forall i :: 0 <= i < |origins| ==> IsTrimmed(origins[i]) && ',' !in origins[i])
  {
    if env == "" {
      return [DefaultOrigin];
    }
    var pieces := Split(env, ',');
    var a := new string[|pieces|](i requires 0 <= i < |pieces| => pieces[i]);
    for i := 0 to a.Length
      invariant forall k :: 0 <= k < i ==> a[k] == TrimSpace(pieces[k])
      invariant forall k :: i <= k < a.Length ==> a[k] == pieces[k]
    {
      a[i] := TrimSpace(a[i]);
    }
    origins := a[..];
    TrimmedPiecesAreClean(pieces, origins);
  }

  /** Trimmed pieces of a split on commas have no comma and no white space at either end. */
  lemma TrimmedPiecesAreClean(pieces: seq<string>, origins: seq<string>)
    requires |origins| == |pieces|
    requires forall i :: 0 <= i < |pieces| ==> ',' !in pieces[i]
    requires forall i :: 0 <= i < |origins| ==> origins[i] == TrimSpace(pieces[i])
    ensures forall i :: 0 <= i < |origins| ==> IsTrimmed(origins[i]) && ',' !in origins[i]
  {
    forall i | 0 <= i < |origins| ensures IsTrimmed(origins[i]) && ',' !in origins[i] {
      TrimSpaceAddsNothing(pieces[i], ',');
    }
  }

  /** The address `router.Run` listens on: ":" and `PORT`, or ":8080" when `PORT` is empty. */
  function ListenAddress(portEnv: string): (addr: string)
    ensures |addr| > 1 && addr[0] == ':'
    ensures portEnv == "" ==> addr[1..] == DefaultPort
    ensures portEnv != "" ==> addr[1..] == portEnv
  {
    var port := if portEnv == "" then DefaultPort else portEnv;
    ":" + port
  }
}
