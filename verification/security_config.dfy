/** `SecurityConfig.filterChain`: the request-authorization rule table. Rules
    are tried in order and the first whose matcher fits the request decides.
    Spring's path matcher is approximated: a pattern `P` followed by the
    `/`-double-star wildcard matches `P` itself and every path below `P/`;
    any other pattern matches only itself. */
module SecurityConfig {

  datatype HttpMethod = GET | HEAD | POST | PUT | PATCH | DELETE | OPTIONS | TRACE

  /** `requestMatchers(patterns...)`, `requestMatchers(method, patterns...)`
      and `anyRequest()`. */
  datatype Matcher =
    | Paths(patterns: seq<string>)
    | MethodPaths(verb: HttpMethod, patterns: seq<string>)
    | AnyRequest

  /** `permitAll()` and `authenticated()`. */
  datatype Access = PermitAll | Authenticated

  datatype Rule = Rule(matcher: Matcher, access: Access)

  /** The paths open to every method. */
  const PublicPatterns: seq<string> :=
    ["/api/auth/**", "/v3/api-docs/**", "/swagger-ui.html", "/swagger-ui/**", "/actuator/health"]

  /** The rule table of `authorizeHttpRequests`, in order. */
  const Rules: seq<Rule> := [
    Rule(Paths(PublicPatterns), PermitAll),
    Rule(MethodPaths(GET, ["/api/**"]), PermitAll),
    Rule(AnyRequest, Authenticated)
  ]

  const Wildcard: string := "/**"

  /** Whether `path` is `base` itself or lies below `base + "/"`. */
  predicate Under(base: string, path: string)
  {
    path == base || base + "/" <= path
  }

  /** The approximated path-pattern match. */
  predicate PatternMatches(pattern: string, path: string)
  {
    if |pattern| >= |Wildcard| && pattern[|pattern| - |Wildcard|..] == Wildcard
    then Under(pattern[..|pattern| - |Wildcard|], path)
    else path == pattern
  }

  predicate AnyPatternMatches(patterns: seq<string>, path: string)
  {
    exists i :: 0 <= i < |patterns| && PatternMatches(patterns[i], path)
  }

  predicate Matches(m: Matcher, verb: HttpMethod, path: string)
  {
    match m
    case Paths(patterns) => AnyPatternMatches(patterns, path)
    case MethodPaths(only, patterns) => verb == only && AnyPatternMatches(patterns, path)
    case AnyRequest => true
  }

  /** Whether `rules[i]` is the first rule that fits the request. */
  predicate FirstMatch(rules: seq<Rule>, i: int, verb: HttpMethod, path: string)
  {
    && 0 <= i < |rules|
    && Matches(rules[i].matcher, verb, path)
    && forall j :: 0 <= j < i ==> !Matches(rules[j].matcher, verb, path)
  }

  /** The authorization decision: the first matching rule decides, `permitAll`
      grants and `authenticated` grants only an authenticated context; a
      request no rule fits is denied. */
  function Decide(rules: seq<Rule>, verb: HttpMethod, path: string, authenticated: bool): (granted: bool)
    ensures granted <==> exists i :: FirstMatch(rules, i, verb, path) && (rules[i].access == PermitAll || authenticated)
  {
    if |rules| == 0 then false
    else if Matches(rules[0].matcher, verb, path) then rules[0].access == PermitAll || authenticated
    else
      var rest := Decide(rules[1..], verb, path, authenticated);
      assert forall i :: FirstMatch(rules[1..], i, verb, path) <==> FirstMatch(rules, i + 1, verb, path);
      rest
  }

  /** The paths open to every method, stated directly. */
  predicate PublicPath(path: string)
  {
    || Under("/api/auth", path)
    || Under("/v3/api-docs", path)
    || path == "/swagger-ui.html"
    || Under("/swagger-ui", path)
    || path == "/actuator/health"
  }

  /** Requests the table lets through without authentication. */
  predicate OpenRequest(verb: HttpMethod, path: string)
  {
    PublicPath(path) || (verb == GET && Under("/api", path))
  }

  /** A pattern ending in the wildcard matches its base and everything below it. */
  lemma WildcardPattern(pattern: string, base: string, path: string)
    requires |pattern| >= |Wildcard| && pattern[|pattern| - |Wildcard|..] == Wildcard
    requires base == pattern[..|pattern| - |Wildcard|]
    ensures PatternMatches(pattern, path) <==> Under(base, path)
  {
  }

  /** The public patterns match exactly the public paths. */
  lemma PublicPatternsMeaning(path: string)
    ensures AnyPatternMatches(PublicPatterns, path) <==> PublicPath(path)
  {
    WildcardPattern(PublicPatterns[0], "/api/auth", path);
    WildcardPattern(PublicPatterns[1], "/v3/api-docs", path);
    WildcardPattern(PublicPatterns[3], "/swagger-ui", path);
    assert PatternMatches(PublicPatterns[2], path) <==> path == "/swagger-ui.html" by {
      assert PublicPatterns[2][|PublicPatterns[2]| - 3..] != Wildcard;
    }
    assert PatternMatches(PublicPatterns[4], path) <==> path == "/actuator/health" by {
      assert PublicPatterns[4][|PublicPatterns[4]| - 3..] != Wildcard;
    }
    assert AnyPatternMatches(PublicPatterns, path) <==>
      exists i :: i in {0, 1, 2, 3, 4} && PatternMatches(PublicPatterns[i], path);
  }

  /** The table means: public paths for any method, `GET` below `/api`, and
      everything else only when authenticated. */
  lemma RuleTableMeaning(verb: HttpMethod, path: string, authenticated: bool)
    ensures Decide(Rules, verb, path, authenticated) <==> OpenRequest(verb, path) || authenticated
  {
    PublicPatternsMeaning(path);
    var api := Rules[1].matcher.patterns;
    WildcardPattern(api[0], "/api", path);
    assert AnyPatternMatches(api, path) <==> Under("/api", path) by {
      assert |api| == 1;
    }
    if AnyPatternMatches(PublicPatterns, path) {
      assert FirstMatch(Rules, 0, verb, path);
    } else if verb == GET && Under("/api", path) {
      assert FirstMatch(Rules, 1, verb, path);
    } else {
      assert FirstMatch(Rules, 2, verb, path);
    }
  }

  /** The last rule fits every request, so no request falls off the table. */
  lemma EveryRequestMatched(verb: HttpMethod, path: string)
    ensures exists i :: FirstMatch(Rules, i, verb, path)
  {
    if Matches(Rules[0].matcher, verb, path) {
      assert FirstMatch(Rules, 0, verb, path);
    } else if Matches(Rules[1].matcher, verb, path) {
      assert FirstMatch(Rules, 1, verb, path);
    } else {
      assert FirstMatch(Rules, 2, verb, path);
    }
  }

  /** A write to a sports endpoint is not caught by the `GET` rule: it falls
      through to the last rule and needs an authenticated context. */
  lemma NonGetFallsThrough(verb: HttpMethod, path: string, authenticated: bool)
    requires verb != GET && Under("/api", path) && !PublicPath(path)
    ensures FirstMatch(Rules, 2, verb, path)
    ensures Decide(Rules, verb, path, authenticated) == authenticated
  {
    PublicPatternsMeaning(path);
    RuleTableMeaning(verb, path, authenticated);
  }
}
