/** The claim set a token carries (section 4.1 of RFC 7519), as the token
    library exposes it: a map from claim name to JSON value, with typed
    accessors for the registered claims the service reads and writes. */
module JwtClaims {
  import opened Wrappers

  /** A claim value. Dates are Java `Date`s, i.e. milliseconds since the epoch;
      any other JSON value is kept as its text. */
  datatype ClaimValue = Text(text: string) | Instant(millis: int) | Other(json: string)

  type Claims = map<string, ClaimValue>

  /** Registered claim names: section 4.1.2 (`sub`), 4.1.4 (`exp`) and
      4.1.6 (`iat`) of RFC 7519. */
  const SubjectClaim: string := "sub"
  const ExpirationClaim: string := "exp"
  const IssuedAtClaim: string := "iat"

  /** `Claims::getSubject`: the `sub` claim, or `null` when it is absent or
      not a string. */
  function Subject(c: Claims): (s: Option<string>)
  {
    if SubjectClaim in c && c[SubjectClaim].Text? then Some(c[SubjectClaim].text) else None
  }

  /** `Claims::getExpiration`: the `exp` claim as a date, or `null`. */
  function Expiration(c: Claims): (e: Option<int>)
  {
    if ExpirationClaim in c && c[ExpirationClaim].Instant? then Some(c[ExpirationClaim].millis) else None
  }

  /** `Claims::getIssuedAt`: the `iat` claim as a date, or `null`. */
  function IssuedAt(c: Claims): (t: Option<int>)
  {
    if IssuedAtClaim in c && c[IssuedAtClaim].Instant? then Some(c[IssuedAtClaim].millis) else None
  }

  /** A date stored in a token as a NumericDate (section 2 of RFC 7519):
      Java's `getTime() / 1000`, which truncates toward zero, read back as
      `seconds * 1000`. */
  function WholeSeconds(millis: int): (r: int)
    ensures r % 1000 == 0
    ensures millis >= 0 ==> 0 <= r <= millis < r + 1000
    ensures millis <= 0 ==> r - 1000 < millis <= r <= 0
  {
    if millis >= 0 then millis / 1000 * 1000 else -((-millis) / 1000 * 1000)
  }

  /** The claims as they come back out of a token: the issued-at and
      expiration dates at whole-second precision, every other claim as it
      went in. */
  function AtSecondPrecision(c: Claims): (d: Claims)
    ensures d.Keys == c.Keys
    ensures forall k :: k in c && k != IssuedAtClaim && k != ExpirationClaim ==> d[k] == c[k]
    ensures Subject(d) == Subject(c)
    ensures IssuedAt(d).Some? <==> IssuedAt(c).Some?
    ensures IssuedAt(c).Some? ==> IssuedAt(d).value == WholeSeconds(IssuedAt(c).value)
    ensures Expiration(d).Some? <==> Expiration(c).Some?
    ensures Expiration(c).Some? ==> Expiration(d).value == WholeSeconds(Expiration(c).value)
  {
    map k | k in c :: if (k == IssuedAtClaim || k == ExpirationClaim) && c[k].Instant? then Instant(WholeSeconds(c[k].millis)) else c[k]
  }
}
