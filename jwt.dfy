/**
  A symbolic model of the JSON Web Token library (RFC 7519) as the server
  uses it. A token string is either empty, a signed token (its claims, the
  algorithm named in its header and the secret it was signed with), or any
  other non-empty text. HMAC signing and base64 encoding are not modelled:
  a signed token parses under a key exactly when that key is the one it was
  signed with.
 */
module Jwt {
  import opened Wrappers

  /** The `alg` values a token header can carry. */
  datatype Alg = HS256 | HS384 | HS512 | RS256 | ES256 | NoneAlg

  /** The HMAC family, `*jwt.SigningMethodHMAC` (section 3.2 of RFC 7518). */
  predicate IsHmac(alg: Alg) {
    alg == HS256 || alg == HS384 || alg == HS512
  }

  /**
    `SignedDetails`: the server's identity claims plus the registered claims
    `iss`, `iat` and `exp` (section 4.1 of RFC 7519), times in whole seconds.
   */
  datatype Claims = Claims(
    email: string,
    firstName: string,
    lastName: string,
    role: string,
    userId: string,
    issuer: string,
    issuedAt: int,
    expiresAt: int)

  type NonEmptyText = s: string | s != "" witness "x"

  /** A token string: "" (`Blank`), a signed token, or other text. */
  datatype TokenString =
    | Blank
    | Signed(claims: Claims, alg: Alg, key: string)
    | Garbled(text: NonEmptyText)

  /** What `jwt.ParseWithClaims` hands back on success: the decoded claims and the header's method. */
  datatype Parsed = Parsed(claims: Claims, alg: Alg)

  const MalformedText := "token is malformed"
  const SignatureInvalidText := "token signature is invalid"
  const InvalidKeyText := "key is invalid"

  /** `jwt.ParseWithClaims` with a key function that always returns `key`. */
  function ParseWithClaims(t: TokenString, key: string): (r: Result<Parsed, string>) {
    match t
    case Signed(claims, alg, k) =>
      if k == key then Success(Parsed(claims, alg)) else Failure(SignatureInvalidText)
    case _ => Failure(MalformedText)
  }

  /**
    `token.SignedString(key)` for a token built with `jwt.NewWithClaims(alg, claims)`.
    Whether the library succeeds is the parameter `libraryOk`. A signed token
    parses back to the claims and method it was built from, under its own key
    and under no other.
   */
  function SignedString(claims: Claims, alg: Alg, key: string, libraryOk: bool): (r: Result<TokenString, string>)
    ensures r.Success? <==> libraryOk
    ensures r.Success? ==> ParseWithClaims(r.value, key) == Success(Parsed(claims, alg))
    ensures r.Success? ==> forall other :: other != key ==> ParseWithClaims(r.value, other).Failure?
  {
    if libraryOk then Success(Signed(claims, alg, key)) else Failure(InvalidKeyText)
  }
}
