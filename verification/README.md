# Stateless bearer-token authentication of the sports-information backend

This project models, in Dafny, the authentication core of a small Spring
REST backend: the JWT service that issues tokens and decides whether a token
is valid, the per-request filter that turns an `Authorization: Bearer …`
header into an authentication in the security context, and the
authorization rule table that decides which requests need that
authentication. Everything is a pure function over immutable data:

- `Wrappers` — `Option` (a Java `null`) and `Result` (a call that may throw).
- `JwtClaims` — the claim set as a map from claim name to value, with the
  `sub`, `exp` and `iat` accessors (sections 4.1.2, 4.1.4 and 4.1.6 of
  RFC 7519).
- `JwtService` — `generateToken`, `extract`/`extractUsername`,
  `isTokenValid`, `getKey`. The token library (key derivation, HS256 signing
  per section 3.2 of RFC 7518, compact JWS parsing per RFC 7515) is a
  `Codec` value of three uninterpreted functions; the parser also receives
  the current instant, so a library that rejects expired tokens while
  parsing and one that does not are both covered. The one thing assumed of
  the library is that a token it accepts gives back the claims that were
  signed, with issued-at and expiration truncated to whole seconds (dates
  are NumericDates, section 2 of RFC 7519).
- `JwtFilter` — `doFilterInternal` as a function from (service, user
  lookup, header, incoming context, now) to the outgoing context, the list
  of calls the pass made (parse, lookup, validity check, chain call) and
  the exception that escaped, if any.
- `SecurityConfig` — the `authorizeHttpRequests` table as an ordered list of
  rules with first-match semantics, and its meaning stated directly.
- `RequestPipeline` — the filter placed before authorization, and the
  session policy threaded through a stream of requests: under the
  configured stateless policy every request starts from an empty context
  and the session store is never read or written; a session-backed policy
  is modelled alongside for contrast.

The clock, the user store (`UserDetailsService`) and the token library are
parameters. The thread-local `SecurityContextHolder` is an explicit
`Option<Authentication>` input and output.

Two behaviours of the code are worth stating plainly because a fail-closed
reading would expect otherwise: `isTokenValid` does not catch parse
failures (a token that cannot be parsed makes it throw, it does not return
`false`), and the `UsernameNotFoundException` of the user lookup escapes
the filter instead of being turned into "proceed unauthenticated".

## Model

| member | source | states |
|---|---|---|
| JwtService.WrapLong | JwtService.java:4 | `currentTimeMillis() + expirationMs` is Java `long` addition: equal to the true sum when it fits, otherwise congruent to it modulo 2^64 |
| JwtClaims.WholeSeconds | JwtService.java:4 | a date stored in a token is a multiple of 1000 ms, truncated toward zero and less than a second from the original |
| JwtClaims.AtSecondPrecision | JwtService.java:4 | reading back a claim set changes only the issued-at and expiration dates, each truncated to whole seconds; subject and every other claim are unchanged |
| JwtService.TokenClaims | JwtService.java:4 | the issued claim set has subject = the `subject` argument even if the caller's map held `sub`, issued-at = first clock read, expiration = second clock read + `expirationMs` (wrapped), and every other caller claim unchanged |
| JwtService.GenerateToken | JwtService.java:4 | the token is the issued claim set signed under `getKey`: whenever the same service parses it successfully, it yields exactly that claim set with dates at whole-second precision |
| JwtService.IssuedLifetime | JwtService.java:4 | in the claim set as signed, expiration − issued-at = `expirationMs` + time between the two clock reads; with a positive lifetime and no overflow, expiration > issued-at |
| JwtService.IssuedTokenLifetime | JwtService.java:4 | in the token, the distance between expiration and issued-at is within one second of the signed one, and a lifetime of at least one second makes the token expire strictly after issue |
| JwtService.SubSecondLifetime | JwtService.java:4 | with a lifetime under one second, two clock reads in the same second give a token whose expiration equals its issued-at |
| JwtService.Extract | JwtService.java:5 | `extract` fails exactly when parsing with `getKey` fails, with that failure, and otherwise yields the projection of the parsed claims |
| JwtService.ExtractUsername | JwtService.java:5 | `extractUsername` fails exactly when the parse fails and otherwise yields the parsed `sub` (possibly absent) |
| JwtService.IsTokenValid | JwtService.java:5 | parse failures propagate as errors; the result is `true` iff subject equals the name exactly and expiration is strictly after now; `false` on any subject mismatch; a missing expiration throws |
| JwtService.IssuedClaims | JwtService.java:4-6 | read back through the same `getKey`, an issued token has subject = the `subject` argument even if the caller sent `sub`, issued-at and expiration = the two clock reads (the second plus `expirationMs`) truncated to whole seconds, and every other caller claim unchanged |
| JwtService.IssuedSubject | JwtService.java:4-5 | the subject read back from an issued token is the `subject` argument |
| JwtService.IssuedTokenValidity | JwtService.java:4-5 | an accepted issued token is valid for its subject iff its expiration, truncated to whole seconds, is after now, and never valid for another name |
| JwtService.SharedSecretSharesTokens | JwtService.java:6 | `getKey` depends only on the secret, so a service with the same secret reads an issued token exactly as the issuer does |
| JwtFilter.BearerToken | JwtAuthenticationFilter.java:6-7 | a token is taken iff the header is present and starts with `"Bearer "` (case-sensitive), and the header is exactly `"Bearer "` + token, so the 7-character strip removes exactly the prefix |
| JwtFilter.BearerTokenStrip | JwtAuthenticationFilter.java:7 | stripping is the inverse of prefixing: `"Bearer " + t` yields `t` |
| JwtFilter.DoFilterInternal | JwtAuthenticationFilter.java:5-9 | on every non-exceptional path the chain is invoked exactly once; when an exception escapes it is not invoked and the context is unchanged; the context only ever goes from empty to set |
| JwtFilter.NoBearerPassesThrough | JwtAuthenticationFilter.java:6 | an absent or non-bearer header: context unchanged, no parse, no lookup, one chain call |
| JwtFilter.TokenHandedOver | JwtAuthenticationFilter.java:7 | for `"Bearer " + t` the first call parses `t`, and every parse and validity check is about `t` |
| JwtFilter.UnreadableTokenPassesThrough | JwtAuthenticationFilter.java:7 | a token that fails to parse is swallowed: context unchanged, no lookup, one chain call |
| JwtFilter.NoLookupWithoutSubjectOrWhenAuthenticated | JwtAuthenticationFilter.java:8 | with a null subject or an already-authenticated context there is no lookup and the context is unchanged |
| JwtFilter.SecondPassIsNoOp | JwtAuthenticationFilter.java:8 | running the filter again on the context the first pass produced leaves it unchanged |
| JwtFilter.InstalledOnlyWhenValid | JwtAuthenticationFilter.java:8 | the context changes only from empty, only when `isTokenValid(token, user.username)` holds for the looked-up user, and then to exactly that user with its authorities; when it holds from an empty context, that authentication is installed |
| JwtFilter.RenamedUserNotInstalled | JwtAuthenticationFilter.java:8 | a lookup returning a user whose name differs from the token subject installs nothing |
| JwtFilter.UnknownUserPropagates | JwtAuthenticationFilter.java:8 | a failed lookup escapes as `UsernameNotFound`, the chain is not invoked, the context stays empty |
| JwtFilter.InstallsIffValidBearer | JwtAuthenticationFilter.java:6-8 | from an empty context an authentication is installed iff the header is `"Bearer " + t`, `t` parses to subject `s`, the lookup of `s` gives a user named `s`, and expiration > now |
| SecurityConfig.Decide | SecurityConfig.java:9-12 | granted iff some rule is the first to match the request and it is `permitAll`, or it is `authenticated` and the context is authenticated |
| SecurityConfig.WildcardPattern | SecurityConfig.java:10-11 | a pattern ending in the wildcard matches its base path and everything below it |
| SecurityConfig.PublicPatternsMeaning | SecurityConfig.java:10 | the five public patterns match exactly `/api/auth`, `/v3/api-docs` and `/swagger-ui` with everything below them, `/swagger-ui.html` and `/actuator/health` |
| SecurityConfig.RuleTableMeaning | SecurityConfig.java:9-12 | the table grants iff the path is public (any method), or it is a `GET` under `/api`, or the context is authenticated |
| SecurityConfig.EveryRequestMatched | SecurityConfig.java:12 | `anyRequest()` closes the table: every request has a first matching rule |
| SecurityConfig.NonGetFallsThrough | SecurityConfig.java:11-12 | a non-`GET` request under `/api` outside the public paths is decided by the last rule, i.e. granted iff authenticated |
| RequestPipeline.Authorize | SecurityConfig.java:9-13 | authorization runs after the JWT filter and admits with exactly the context the filter produced; the request fails iff the filter threw |
| RequestPipeline.AdmittedIffAuthenticated | SecurityConfig.java:9-13 | a request outside the open rules is admitted iff the incoming context was authenticated or the header is a valid bearer header; an open request is admitted unless the filter throws |
| RequestPipeline.StatelessAdmission | SecurityConfig.java:8-13 | starting from an empty context, a protected request is admitted iff it carries a valid bearer header |
| RequestPipeline.Serve | SecurityConfig.java:8 | under the stateless policy a request's outcome is the one it gets from an empty context and the session store is left unchanged |
| RequestPipeline.SessionBackedCarriesOver | SecurityConfig.java:8 | under a session-backed policy an authenticated session admits a protected request with no token, which the stateless policy denies |
| RequestPipeline.ServeAll | SecurityConfig.java:8 | serving a stream of requests with a session store: under the stateless policy each outcome is the one the request gets alone, whatever the store held and whatever came before, and the store is unchanged at the end |

## Left out

- The token library: HMAC-SHA-256 signing, base64url and JSON encoding and the compact serialization. `Codec.sign` and `Codec.parse` are uninterpreted; the round-trip lemmas assume only that the codec gives back what it signed with issued-at and expiration at whole-second precision. Other date-valued claims a caller passes in are assumed to come back unchanged.
- `getKey` failures: `Decoders.BASE64.decode` on a malformed secret and `Keys.hmacShaKeyFor` on a key shorter than 256 bits throw; `deriveKey` is modelled as total.
- The clock: `isTokenValid` and the filter read the clock (and parse the token) more than once; the model uses one instant `now` per filter pass, so the two parses inside `isTokenValid` agree with the one in `extractUsername`, and a parse failure inside `isTokenValid` after a successful `extractUsername` (a token expiring between the reads) cannot arise.
- The session-backed policy is a contrast, not Spring's session repository in detail: it loads the context stored under the request's session identifier and saves a non-empty context after a request that did not throw; session creation and expiry are not modelled.
- JwtClaims.Subject: a `sub` claim that is not a JSON string is read as absent; the library's coercion of other values to strings is not modelled.
- Spring's path matcher: a pattern ending in the wildcard is taken to match its base and everything below `base/`; other patterns match only themselves. Trailing slashes, path normalisation and servlet-path handling are not modelled.
- `OncePerRequestFilter`'s own "already filtered" request attribute and dispatch-type handling; the idempotence of a second pass is stated on the filter body instead.
- Request details (`WebAuthenticationDetailsSource`), CSRF being disabled, the password encoder, the authentication manager and method security: framework and crypto configuration with no decision logic here.
- The HTTP status sent for a denied request or an escaped exception (entry point and error handling belong to the framework).
- The thread-local context holder and concurrency: the context is passed explicitly.
- The sports controllers (static sample data) and the OpenAPI metadata bean.
