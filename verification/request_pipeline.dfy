/** The security filter chain of `SecurityConfig.filterChain` around one
    request: the JWT filter runs before authorization, so the decision sees the
    context the filter produced. The session policy decides where a request's
    context comes from: under the configured stateless policy nothing is
    loaded from or saved to a session, while a session-backed policy (shown
    for contrast) loads the context stored for the request's session and
    saves the one the filter produced. */
module RequestPipeline {
  import opened Wrappers
  import opened JwtClaims
  import opened JwtService
  import opened JwtFilter
  import opened SecurityConfig

  /** The parts of an HTTP request the chain reads: method, path, the
      `Authorization` header and the session identifier cookie, if any. */
  datatype Request = Request(verb: HttpMethod, path: string, authorization: Option<string>, session: Option<string>)

  /** `SessionCreationPolicy.STATELESS`, and a policy that keeps the
      security context in the HTTP session. */
  datatype SessionPolicy = Stateless | SessionBacked

  /** Security contexts kept per session identifier. */
  type SessionStore = map<string, Authentication>

  /** What the chain does with a request: hand it to the controller with the
      given context, refuse it, or fail with an exception from the filter. */
  datatype Outcome = Admitted(context: Option<Authentication>) | Denied | Failed(error: FilterError)

  /** The JWT filter, then the authorization decision on the context it left. */
  function Authorize(svc: Service, users: UserLookup, req: Request, context: Option<Authentication>, now: int): (out: Outcome)
    ensures out.Admitted? ==> out.context == DoFilterInternal(svc, users, req.authorization, context, now).context
    ensures out.Failed? <==> DoFilterInternal(svc, users, req.authorization, context, now).thrown.Some?
  {
    var run := DoFilterInternal(svc, users, req.authorization, context, now);
    if run.thrown.Some? then Failed(run.thrown.value)
    else if Decide(Rules, req.verb, req.path, run.context.Some?) then Admitted(run.context)
    else Denied
  }

  /** One request under the stateless session policy: no context is carried
      in from anywhere, the request starts with an empty one. */
  function Handle(svc: Service, users: UserLookup, req: Request, now: int): Outcome
  {
    Authorize(svc, users, req, None, now)
  }

  /** Requests outside the open rules are admitted exactly when the context
      was already authenticated or the header is a valid bearer header (and
      nothing was thrown). Open requests are admitted unless the filter throws. */
  lemma AdmittedIffAuthenticated(svc: Service, users: UserLookup, req: Request, context: Option<Authentication>, now: int)
    ensures !OpenRequest(req.verb, req.path) ==>
              (Authorize(svc, users, req, context, now).Admitted? <==>
                 context.Some? || ValidBearer(svc, users, req.authorization, now))
    ensures OpenRequest(req.verb, req.path) ==>
              (Authorize(svc, users, req, context, now).Admitted? <==>
                 DoFilterInternal(svc, users, req.authorization, context, now).thrown.None?)
  {
    var run := DoFilterInternal(svc, users, req.authorization, context, now);
    RuleTableMeaning(req.verb, req.path, run.context.Some?);
    if context.Some? {
      NoLookupWithoutSubjectOrWhenAuthenticated(svc, users, req.authorization, context, now);
    } else {
      InstallsIffValidBearer(svc, users, req.authorization, now);
    }
  }

  /** The end-to-end guarantee of a stateless request: outside the open rules
      it is admitted if and only if it carries `"Bearer " + t` where `t`
      decodes to subject `s`, the lookup of `s` yields a user named `s`, and
      the expiration is strictly after `now`. */
  lemma StatelessAdmission(svc: Service, users: UserLookup, req: Request, now: int)
    requires !OpenRequest(req.verb, req.path)
    ensures Handle(svc, users, req, now).Admitted? <==> ValidBearer(svc, users, req.authorization, now)
  {
    AdmittedIffAuthenticated(svc, users, req, None, now);
  }

  /** The context a request starts with under `policy`. */
  function LoadContext(policy: SessionPolicy, store: SessionStore, req: Request): Option<Authentication>
  {
    if policy.SessionBacked? && req.session.Some? && req.session.value in store
    then Some(store[req.session.value]) else None
  }

  /** The store after a request that left `context` behind. */
  function SaveContext(policy: SessionPolicy, store: SessionStore, req: Request, context: Option<Authentication>): SessionStore
  {
    if policy.SessionBacked? && req.session.Some? && context.Some?
    then store[req.session.value := context.value] else store
  }

  /** One request served under `policy`: its outcome and the session store
      afterwards. */
  datatype Served = Served(outcome: Outcome, store: SessionStore)

  function Serve(svc: Service, users: UserLookup, policy: SessionPolicy, store: SessionStore, req: Request, now: int): (s: Served)
    ensures policy.Stateless? ==> s.outcome == Handle(svc, users, req, now) && s.store == store
  {
    var context := LoadContext(policy, store, req);
    var run := DoFilterInternal(svc, users, req.authorization, context, now);
    Served(Authorize(svc, users, req, context, now),
           if run.thrown.Some? then store else SaveContext(policy, store, req, run.context))
  }

  /** With a session-backed policy an authenticated session admits a
      protected request that carries no token at all; the stateless policy
      denies the same request. */
  lemma SessionBackedCarriesOver(svc: Service, users: UserLookup, store: SessionStore, req: Request, now: int)
    requires req.session.Some? && req.session.value in store
    requires req.authorization.None? && !OpenRequest(req.verb, req.path)
    ensures Serve(svc, users, SessionBacked, store, req, now).outcome == Admitted(Some(store[req.session.value]))
    ensures Serve(svc, users, Stateless, store, req, now).outcome == Denied
  {
    RuleTableMeaning(req.verb, req.path, true);
    RuleTableMeaning(req.verb, req.path, false);
  }

  /** Serving a stream of requests one after another, each at its own
      instant, threading the session store. Under the stateless policy every
      outcome is the one the request would get alone, whatever the store
      held and whatever requests came before, and the store is untouched. */
  method ServeAll(svc: Service, users: UserLookup, policy: SessionPolicy, store0: SessionStore, reqs: seq<Request>, clock: seq<int>)
    returns (outs: seq<Outcome>, store: SessionStore)
    requires |clock| == |reqs|
    ensures |outs| == |reqs|
    ensures policy.Stateless? ==> forall i :: 0 <= i < |reqs| ==> outs[i] == Handle(svc, users, reqs[i], clock[i])
    ensures policy.Stateless? ==> store == store0
  {
    outs := [];
    store := store0;
    var i := 0;
    while i < |reqs|
      invariant 0 <= i <= |reqs|
      invariant |outs| == i
      invariant policy.Stateless? ==> store == store0
      invariant policy.Stateless? ==> forall j :: 0 <= j < i ==> outs[j] == Handle(svc, users, reqs[j], clock[j])
    {
      var served := Serve(svc, users, policy, store, reqs[i], clock[i]);
      outs := outs + [served.outcome];
      store := served.store;
      i := i + 1;
    }
  }
}
