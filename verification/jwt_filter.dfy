/** `JwtAuthenticationFilter.doFilterInternal`: one pass of the per-request
    filter. The thread-local security context is an explicit input and output,
    the user store is a partial lookup, and the pass records what it did as a
    list of events so that "no lookup happened" and "the chain was invoked
    once" can be stated. */
module JwtFilter {
  import opened Wrappers
  import opened JwtClaims
  import opened JwtService

  /** The bearer scheme prefix of section 2.1 of RFC 6750, matched case-sensitively. */
  const BearerPrefix: string := "Bearer "

  /** `UserDetails`: the looked-up user and its granted authorities. */
  datatype User = User(username: string, authorities: seq<string>)

  /** `UsernamePasswordAuthenticationToken(principal, null, authorities)`. */
  datatype Authentication = Authentication(principal: User, authorities: seq<string>)

  /** `UserDetailsService.loadUserByUsername`: `None` is the
      `UsernameNotFoundException` it throws for an unknown name. */
  type UserLookup = string -> Option<User>

  /** What can propagate out of the filter. */
  datatype FilterError =
    | UsernameNotFound(username: string)  // thrown by the lookup, not caught
    | ValidityError(failure: Failure)     // thrown inside `isTokenValid`, not caught

  /** The calls one pass makes, in order. */
  datatype Event =
    | Parsed(token: string)                     // `extractUsername(token)`
    | LookedUp(username: string)                // `loadUserByUsername(username)`
    | Validated(token: string, username: string) // `isTokenValid(token, username)`
    | Forwarded                                 // `chain.doFilter(req, res)`

  /** The effect of one pass: the context afterwards, the calls made, and the
      exception that escaped, if any. */
  datatype FilterRun = FilterRun(context: Option<Authentication>, events: seq<Event>, thrown: Option<FilterError>)

  /** Number of times the pass invoked the rest of the chain. */
  function ChainCalls(events: seq<Event>): nat
  {
    multiset(events)[Forwarded]
  }

  /** Whether the pass called the user lookup at all. */
  predicate LookedUpAny(events: seq<Event>)
  {
    exists i :: 0 <= i < |events| && events[i].LookedUp?
  }

  /** Whether the pass called the token service at all. */
  predicate ParsedAny(events: seq<Event>)
  {
    exists i :: 0 <= i < |events| && events[i].Parsed?
  }

  /** The token carried by an `Authorization` header: the header must start
      with `"Bearer "`, and the token is everything after the first seven
      characters. */
  function BearerToken(header: Option<string>): (token: Option<string>)
    ensures token.Some? <==> header.Some? && BearerPrefix <= header.value
    ensures token.Some? ==> header.value == BearerPrefix + token.value
  {
    if header.Some? && BearerPrefix <= header.value then Some(header.value[7..]) else None
  }

  /** The authentication installed for a looked-up user. */
  function AuthenticationOf(user: User): Authentication
  {
    Authentication(user, user.authorities)
  }

  /** One pass of `doFilterInternal` over the `Authorization` header, starting
      from the current context, at instant `now`. */
  function DoFilterInternal(svc: Service, users: UserLookup, header: Option<string>, context: Option<Authentication>, now: int): (run: FilterRun)
    ensures run.thrown.None? ==> ChainCalls(run.events) == 1
    ensures run.thrown.Some? ==> ChainCalls(run.events) == 0 && run.context == context
    ensures run.context == context || (context.None? && run.context.Some?)
  {
    match BearerToken(header)
    case None => FilterRun(context, [Forwarded], None)
    case Some(token) =>
      match ExtractUsername(svc, token, now)
      case Err(_) => FilterRun(context, [Parsed(token), Forwarded], None)
      case Ok(username) =>
        if username.None? || context.Some? then FilterRun(context, [Parsed(token), Forwarded], None)
        else
          var name := username.value;
          match users(name)
          case None => FilterRun(context, [Parsed(token), LookedUp(name)], Some(UsernameNotFound(name)))
          case Some(user) =>
            var calls := [Parsed(token), LookedUp(name), Validated(token, user.username)];
            match IsTokenValid(svc, token, user.username, now)
            case Err(f) => FilterRun(context, calls, Some(ValidityError(f)))
            case Ok(valid) =>
              FilterRun(if valid then Some(AuthenticationOf(user)) else context, calls + [Forwarded], None)
  }

  /** The header that authenticates a fresh request: `"Bearer " + t` where
      `t` decodes, its subject `s` names a user whose username is `s`, and its
      expiration is strictly after `now`. */
  predicate ValidBearer(svc: Service, users: UserLookup, header: Option<string>, now: int)
  {
    && header.Some? && BearerPrefix <= header.value
    && var claims := Decode(svc, header.value[|BearerPrefix|..], now);
    && claims.Ok? && Subject(claims.value).Some?
    && var user := users(Subject(claims.value).value);
    && user.Some? && user.value.username == Subject(claims.value).value
    && Expiration(claims.value).Some? && Expiration(claims.value).value > now
  }

  /** Prefixing a token with `"Bearer "` and stripping it gives the token back. */
  lemma BearerTokenStrip(token: string)
    ensures BearerToken(Some(BearerPrefix + token)) == Some(token)
  {
  }

  /** A missing header, or one not starting with `"Bearer "`, leaves the
      context alone: no parse, no lookup, one chain call. */
  lemma NoBearerPassesThrough(svc: Service, users: UserLookup, header: Option<string>, context: Option<Authentication>, now: int)
    requires header.None? || !(BearerPrefix <= header.value)
    ensures var run := DoFilterInternal(svc, users, header, context, now);
            && run.context == context && run.thrown.None?
            && !ParsedAny(run.events) && !LookedUpAny(run.events)
            && ChainCalls(run.events) == 1
  {
  }

  /** For `"Bearer " + t`, every call the pass makes to the token service is
      about exactly `t`, and the first thing it does is parse `t`. */
  lemma TokenHandedOver(svc: Service, users: UserLookup, token: string, context: Option<Authentication>, now: int)
    ensures var run := DoFilterInternal(svc, users, Some(BearerPrefix + token), context, now);
            && |run.events| > 0 && run.events[0] == Parsed(token)
            && (forall i :: 0 <= i < |run.events| && run.events[i].Parsed? ==> run.events[i].token == token)
            && (forall i :: 0 <= i < |run.events| && run.events[i].Validated? ==> run.events[i].token == token)
  {
  }

  /** A token whose subject cannot be extracted leaves the context alone, with
      no lookup and one chain call. */
  lemma UnreadableTokenPassesThrough(svc: Service, users: UserLookup, token: string, context: Option<Authentication>, now: int)
    requires Decode(svc, token, now).Err?
    ensures var run := DoFilterInternal(svc, users, Some(BearerPrefix + token), context, now);
            && run.context == context && run.thrown.None?
            && !LookedUpAny(run.events) && ChainCalls(run.events) == 1
  {
  }

  /** With no subject in the token, or a context that already holds an
      authentication, nobody is looked up and the context is unchanged. */
  lemma NoLookupWithoutSubjectOrWhenAuthenticated(svc: Service, users: UserLookup, header: Option<string>, context: Option<Authentication>, now: int)
    requires context.Some? || (BearerToken(header).Some? && ExtractUsername(svc, BearerToken(header).value, now) == Ok(None))
    ensures var run := DoFilterInternal(svc, users, header, context, now);
            && run.context == context && run.thrown.None?
            && !LookedUpAny(run.events) && ChainCalls(run.events) == 1
  {
  }

  /** Running the filter a second time on the context the first pass left
      changes nothing. */
  lemma SecondPassIsNoOp(svc: Service, users: UserLookup, header: Option<string>, context: Option<Authentication>, now: int)
    requires DoFilterInternal(svc, users, header, context, now).thrown.None?
    ensures var first := DoFilterInternal(svc, users, header, context, now);
            DoFilterInternal(svc, users, header, first.context, now).context == first.context
  {
  }

  /** The context changes only from empty to exactly the looked-up user's
      authentication, and only when `isTokenValid(token, user.username)`
      holds; when it holds, that authentication is installed. */
  lemma InstalledOnlyWhenValid(svc: Service, users: UserLookup, token: string, context: Option<Authentication>, now: int)
    ensures var run := DoFilterInternal(svc, users, Some(BearerPrefix + token), context, now);
            run.context != context ==>
              && context.None?
              && ExtractUsername(svc, token, now).Ok?
              && ExtractUsername(svc, token, now).value.Some?
              && var user := users(ExtractUsername(svc, token, now).value.value);
              && user.Some?
              && IsTokenValid(svc, token, user.value.username, now) == Ok(true)
              && run.context == Some(AuthenticationOf(user.value))
    ensures var run := DoFilterInternal(svc, users, Some(BearerPrefix + token), context, now);
            context.None? && ExtractUsername(svc, token, now).Ok? && ExtractUsername(svc, token, now).value.Some? ==>
              var user := users(ExtractUsername(svc, token, now).value.value);
              user.Some? && IsTokenValid(svc, token, user.value.username, now) == Ok(true) ==>
                run.context == Some(AuthenticationOf(user.value))
  {
  }

  /** Validity is checked against the looked-up user's name: a lookup that
      returns a user with another name installs nothing. */
  lemma RenamedUserNotInstalled(svc: Service, users: UserLookup, token: string, context: Option<Authentication>, now: int, subject: string)
    requires ExtractUsername(svc, token, now) == Ok(Some(subject))
    requires users(subject).Some? && users(subject).value.username != subject
    ensures DoFilterInternal(svc, users, Some(BearerPrefix + token), context, now).context == context
  {
  }

  /** An unknown subject escapes the filter as `UsernameNotFound`: the chain is
      not invoked and the context is unchanged. */
  lemma UnknownUserPropagates(svc: Service, users: UserLookup, token: string, now: int, subject: string)
    requires ExtractUsername(svc, token, now) == Ok(Some(subject))
    requires users(subject).None?
    ensures var run := DoFilterInternal(svc, users, Some(BearerPrefix + token), None, now);
            && run.thrown == Some(UsernameNotFound(subject))
            && run.context.None? && ChainCalls(run.events) == 0
  {
  }

  /** From an empty context, the pass installs an authentication if and only
      if the header is a valid bearer header. */
  lemma InstallsIffValidBearer(svc: Service, users: UserLookup, header: Option<string>, now: int)
    ensures DoFilterInternal(svc, users, header, None, now).context.Some? <==> ValidBearer(svc, users, header, now)
  {
  }
}
