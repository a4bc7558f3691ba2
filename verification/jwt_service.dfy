/** `JwtService`: issuing a signed token for a subject, reading its subject
    back, and the validity rule (subject matches, expiration strictly in the
    future). The compact JWS encoding, HMAC-SHA-256 signing (section 3.2 of
    RFC 7518) and key derivation belong to the token library and are left
    uninterpreted: they enter the model as the function values of a `Codec`. */
module JwtService {
  import opened Wrappers
  import opened JwtClaims

  /** Java `long`. */
  const LongModulus: int := 0x1_0000_0000_0000_0000
  type Long = x: int | -0x8000_0000_0000_0000 <= x < 0x8000_0000_0000_0000

  /** Two's-complement wrap-around of Java `long` addition. */
  function WrapLong(x: int): (r: Long)
    ensures -0x8000_0000_0000_0000 <= x < 0x8000_0000_0000_0000 ==> r == x
    ensures (x - r) % LongModulus == 0
  {
    var m := x % LongModulus;
    if m < 0x8000_0000_0000_0000 then m else m - LongModulus
  }

  type Key = seq<bv8>

  /** The exceptions `parseClaimsJws` throws. */
  datatype ParseError =
    | Malformed          // not three dot-separated base64url segments of JSON
    | SignatureMismatch  // the MAC does not verify under the key
    | ExpiredToken       // the library's own `exp` check at parse time
    | Unsupported        // an unsigned token or one of another kind
    | EmptyToken         // `IllegalArgumentException` on an empty string

  /** The token library. `deriveKey` is `Keys.hmacShaKeyFor` of the base64
      decoded secret; `sign` is the builder's `signWith(key, HS256).compact()`;
      `parse` is `parserBuilder().setSigningKey(key).build().parseClaimsJws`,
      given the instant at which it runs. */
  datatype Codec = Codec(
    deriveKey: string -> Key,
    sign: (Claims, Key) -> string,
    parse: (string, Key, int) -> Result<Claims, ParseError>)

  /** The service as configured: `jwt.secret`, `jwt.expiration` and the library. */
  datatype Service = Service(secret: string, expirationMs: Long, codec: Codec)

  /** What `isTokenValid` can throw. */
  datatype Failure =
    | TokenRejected(cause: ParseError)  // the parse inside it throws
    | MissingExpiration                 // `getExpiration()` is null, so `.after` throws

  /** `getKey`: the one key derivation used for signing and for parsing. */
  function GetKey(svc: Service): Key
  {
    svc.codec.deriveKey(svc.secret)
  }

  /** The library's parser built with `getKey`, run at instant `now`. */
  function Decode(svc: Service, token: string, now: int): Result<Claims, ParseError>
  {
    svc.codec.parse(token, GetKey(svc), now)
  }

  /** The claim set `generateToken` signs: the caller's claims, then subject,
      issued-at and expiration written over them. The two dates come from two
      separate clock reads, `issuedClock` first and `expiryClock` second. */
  function TokenClaims(svc: Service, subject: string, claims: Claims, issuedClock: Long, expiryClock: Long): (c: Claims)
    ensures Subject(c) == Some(subject)
    ensures IssuedAt(c) == Some(issuedClock)
    ensures Expiration(c) == Some(WrapLong(expiryClock + svc.expirationMs))
    ensures c.Keys == claims.Keys + {SubjectClaim, IssuedAtClaim, ExpirationClaim}
    ensures forall k :: k in claims && k != SubjectClaim && k != IssuedAtClaim && k != ExpirationClaim ==> c[k] == claims[k]
  {
    claims[SubjectClaim := Text(subject)]
          [IssuedAtClaim := Instant(issuedClock)]
          [ExpirationClaim := Instant(WrapLong(expiryClock + svc.expirationMs))]
  }

  /** `generateToken(subject, claims)`: the issued claim set signed under
      `getKey`. Whenever the same service's parser accepts the token, it
      yields exactly that claim set at whole-second precision. */
  function GenerateToken(svc: Service, subject: string, claims: Claims, issuedClock: Long, expiryClock: Long): (token: string)
    ensures forall now :: Faithful(svc.codec, GetKey(svc), now) && Decode(svc, token, now).Ok? ==>
              Decode(svc, token, now).value == AtSecondPrecision(TokenClaims(svc, subject, claims, issuedClock, expiryClock))
  {
    svc.codec.sign(TokenClaims(svc, subject, claims, issuedClock, expiryClock), GetKey(svc))
  }

  /** `extract(token, fn)`: parse with `getKey`, then apply `fn` to the claims.
      A parse failure propagates. */
  function Extract<T>(svc: Service, token: string, now: int, project: Claims -> T): (r: Result<T, ParseError>)
    ensures r.Err? <==> Decode(svc, token, now).Err?
    ensures r.Err? ==> r.error == Decode(svc, token, now).error
    ensures r.Ok? ==> r.value == project(Decode(svc, token, now).value)
  {
    match Decode(svc, token, now)
    case Err(e) => Err(e)
    case Ok(c) => Ok(project(c))
  }

  /** `extractUsername(token)`: the decoded subject, possibly `null`. */
  function ExtractUsername(svc: Service, token: string, now: int): (r: Result<Option<string>, ParseError>)
    ensures r.Err? <==> Decode(svc, token, now).Err?
    ensures r.Ok? ==> r.value == Subject(Decode(svc, token, now).value)
  {
    Extract<Option<string>>(svc, token, now, Subject)
  }

  /** `isTokenValid(token, username)`: `username.equals(extractUsername(token))`
      and then, only when that holds, `getExpiration().after(now)`. Parse
      failures are not caught. */
  function IsTokenValid(svc: Service, token: string, username: string, now: int): (r: Result<bool, Failure>)
    ensures Decode(svc, token, now).Err? ==> r == Err(TokenRejected(Decode(svc, token, now).error))
    ensures r == Ok(true) <==>
              && Decode(svc, token, now).Ok?
              && Subject(Decode(svc, token, now).value) == Some(username)
              && Expiration(Decode(svc, token, now).value).Some?
              && Expiration(Decode(svc, token, now).value).value > now
    ensures Decode(svc, token, now).Ok? && Subject(Decode(svc, token, now).value) != Some(username) ==> r == Ok(false)
    ensures Decode(svc, token, now).Ok? && Subject(Decode(svc, token, now).value) == Some(username) ==>
              r == (if Expiration(Decode(svc, token, now).value).None? then Err(MissingExpiration)
                    else Ok(Expiration(Decode(svc, token, now).value).value > now))
  {
    match ExtractUsername(svc, token, now)
    case Err(e) => Err(TokenRejected(e))
    case Ok(subject) =>
      if subject != Some(username) then Ok(false)
      else
        match Extract<Option<int>>(svc, token, now, Expiration)
        case Err(e) => Err(TokenRejected(e))
        case Ok(None) => Err(MissingExpiration)
        case Ok(Some(expiration)) => Ok(expiration > now)
  }

  /** The codec gives back, whenever it accepts a token it signed under `key`,
      the claims that were signed, with the issued-at and expiration dates
      at whole-second precision. */
  ghost predicate Faithful(codec: Codec, key: Key, now: int)
  {
    forall c: Claims :: codec.parse(codec.sign(c, key), key, now).Ok? ==>
      codec.parse(codec.sign(c, key), key, now).value == AtSecondPrecision(c)
  }

  /** What an issued token says when a faithful codec reads it back: the
      `subject` argument as subject even if the caller's claims held `sub`,
      both dates truncated to whole seconds, and every other caller claim
      unchanged. */
  lemma IssuedClaims(svc: Service, subject: string, claims: Claims, issuedClock: Long, expiryClock: Long, now: int)
    requires Faithful(svc.codec, GetKey(svc), now)
    requires Decode(svc, GenerateToken(svc, subject, claims, issuedClock, expiryClock), now).Ok?
    ensures var d := Decode(svc, GenerateToken(svc, subject, claims, issuedClock, expiryClock), now).value;
            && Subject(d) == Some(subject)
            && IssuedAt(d) == Some(WholeSeconds(issuedClock))
            && Expiration(d) == Some(WholeSeconds(WrapLong(expiryClock + svc.expirationMs)))
            && forall k :: k in claims && k != SubjectClaim && k != IssuedAtClaim && k != ExpirationClaim ==> k in d && d[k] == claims[k]
  {
  }

  /** An issued token's subject is the `subject` argument, even when the
      caller's claims held a `sub` entry of their own. */
  lemma IssuedSubject(svc: Service, subject: string, claims: Claims, issuedClock: Long, expiryClock: Long, now: int)
    requires Faithful(svc.codec, GetKey(svc), now)
    ensures ExtractUsername(svc, GenerateToken(svc, subject, claims, issuedClock, expiryClock), now).Ok? ==>
            ExtractUsername(svc, GenerateToken(svc, subject, claims, issuedClock, expiryClock), now).value == Some(subject)
  {
  }

  /** An accepted issued token is valid for its subject exactly until its
      expiration truncated to whole seconds, and never valid for any other
      name. */
  lemma IssuedTokenValidity(svc: Service, subject: string, claims: Claims, issuedClock: Long, expiryClock: Long, now: int, other: string)
    requires Faithful(svc.codec, GetKey(svc), now)
    requires Decode(svc, GenerateToken(svc, subject, claims, issuedClock, expiryClock), now).Ok?
    ensures IsTokenValid(svc, GenerateToken(svc, subject, claims, issuedClock, expiryClock), subject, now)
            == Ok(WholeSeconds(WrapLong(expiryClock + svc.expirationMs)) > now)
    ensures other != subject ==>
            IsTokenValid(svc, GenerateToken(svc, subject, claims, issuedClock, expiryClock), other, now) == Ok(false)
  {
  }

  /** Two services with the same secret and library derive the same key, so
      a token one issues is read back by the other exactly as by itself. */
  lemma SharedSecretSharesTokens(svc: Service, peer: Service, subject: string, claims: Claims, issuedClock: Long, expiryClock: Long, now: int)
    requires peer.secret == svc.secret && peer.codec == svc.codec
    ensures GetKey(peer) == GetKey(svc)
    ensures Decode(peer, GenerateToken(svc, subject, claims, issuedClock, expiryClock), now)
            == Decode(svc, GenerateToken(svc, subject, claims, issuedClock, expiryClock), now)
  {
  }

  /** In the claim set as signed, issued-at and expiration are
      `expirationMs` apart plus the time that passed between the two clock
      reads; with a positive lifetime and no `long` overflow the expiration
      is strictly after issued-at. */
  lemma IssuedLifetime(svc: Service, subject: string, claims: Claims, issuedClock: Long, expiryClock: Long)
    requires issuedClock <= expiryClock
    requires -0x8000_0000_0000_0000 <= expiryClock + svc.expirationMs < 0x8000_0000_0000_0000
    ensures
      var c := TokenClaims(svc, subject, claims, issuedClock, expiryClock);
      && Expiration(c).value - IssuedAt(c).value == svc.expirationMs + (expiryClock - issuedClock)
      && (svc.expirationMs > 0 ==> Expiration(c).value > IssuedAt(c).value)
  {
  }

  /** In the token itself both dates are whole seconds, so their distance is
      within a second of the signed one; the token expires strictly after it
      was issued once the lifetime is at least a second. */
  lemma IssuedTokenLifetime(svc: Service, subject: string, claims: Claims, issuedClock: Long, expiryClock: Long)
    requires 0 <= issuedClock <= expiryClock && 0 <= svc.expirationMs
    requires expiryClock + svc.expirationMs < 0x8000_0000_0000_0000
    ensures
      var d := AtSecondPrecision(TokenClaims(svc, subject, claims, issuedClock, expiryClock));
      var gap := svc.expirationMs + (expiryClock - issuedClock);
      && gap - 1000 < Expiration(d).value - IssuedAt(d).value < gap + 1000
      && (svc.expirationMs >= 1000 ==> Expiration(d).value > IssuedAt(d).value)
  {
  }

  /** A lifetime under a second can give a token whose expiration equals its
      issued-at: both clock reads in the same second truncate to the same
      date. */
  lemma SubSecondLifetime(svc: Service, subject: string, claims: Claims)
    requires 0 < svc.expirationMs < 1000
    ensures var d := AtSecondPrecision(TokenClaims(svc, subject, claims, 0, 0));
            Expiration(d) == IssuedAt(d) == Some(0)
  {
  }
}
