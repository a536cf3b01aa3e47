/**
 * `BackendUserSimulator::process`: the middleware that gives a logged-in
 * frontend user a backend session. The request passes a fixed chain of
 * guards; only when all of them let it through is a backend session created
 * under the frontend session id, the backend authenticator run a second time,
 * and the simulation and backend cookies set.
 *
 * Everything the middleware asks the framework for is an input: the next
 * handler, the second authenticator pass, session creation, the `be_users`
 * rows, the cookie settings, the server environment and the regex engine.
 */
module BackendUserSimulator {
  import opened Basics
  import opened PhpValues
  import opened Http
  import opened CookieHeader
  import opened BackendUserLookup

  /** The extension settings the middleware reads. */
  datatype ExtensionConfiguration = ExtensionConfiguration(
    cookieName: string,        // name of the simulation cookie
    linkParameterName: string, // query parameter that asks for a backend session
    onLinkParameter: bool,     // simulate only when that parameter is present
    fakeTimeout: int)          // seconds added to the new session's timestamp

  /** The `Context` aspects and the frontend user the middleware sees. */
  datatype RequestContext = RequestContext(
    frontendLoggedIn: bool,
    backendLoggedIn: bool,
    frontendUser: map<string, string>, // the `fe_users` row of the logged-in user
    frontendSessionId: string)

  /** A session row as `createUserSession` returns it: `ses_tstamp` and the other columns. */
  datatype SessionRecord = SessionRecord(tstamp: int, fields: map<string, string>)

  /** The framework services and global settings the middleware calls on. */
  datatype Framework = Framework(
    handle: HttpRequest -> HttpResponse,               // the next request handler
    authenticateBackend: HttpRequest -> HttpResponse,  // BackendUserAuthenticator, which then calls the handler
    createUserSession: (string, BackendUser) -> SessionRecord,
    backendUsers: seq<BackendUser>,                    // `be_users`, in database order
    backendCookieName: string,
    settings: CookieSettings,
    env: Environment,
    preg: (string, string) -> PatternMatch)

  /** How the request was passed on. */
  datatype Call =
    | Handled(request: HttpRequest)                  // `$handler->handle($request)`
    | AuthenticatedAndHandled(request: HttpRequest)  // `$backendUserAuthenticator->process($request, $handler)`

  /** Writes to the session store. */
  datatype Effect =
    | SessionCreated(sessionId: string, user: BackendUser)
    | SessionStored(sessionId: string, record: SessionRecord)

  /** The guard that let the request through untouched. */
  datatype SkipReason = NoFrontendUser | LinkParameterMissing | BackendUserLoggedIn | AlreadySimulated | NoMapping

  datatype Outcome =
    | PassThrough(reason: SkipReason)
    | ClearAndPassThrough                        // no frontend user, simulation cookie expired
    | Elevate(sessionId: string, redirect: bool) // backend session created
    | Error(code: int)                           // exception thrown by `withSessionCookie`

  /**
   * One run of the middleware: its outcome, the Set-Cookie values it added (in
   * order), how it passed the request on, its session writes, and the response
   * it returns (None when it throws).
   */
  datatype Processed = Processed(
    outcome: Outcome,
    setCookies: seq<string>,
    calls: seq<Call>,
    effects: seq<Effect>,
    response: Option<HttpResponse>)

  const BackendEntryPoint: string := "/typo3"
  const TemporaryRedirect: int := 307

  /** `(bool)$request->getQueryParams()[<link parameter>]`; a missing parameter is null. */
  predicate HasLinkParameter(config: ExtensionConfiguration, request: HttpRequest)
    ensures HasLinkParameter(config, request) ==>
      config.linkParameterName in request.query && |request.query[config.linkParameterName]| >= 1
    ensures config.linkParameterName in request.query && |request.query[config.linkParameterName]| >= 2 ==>
      HasLinkParameter(config, request)
    ensures config.linkParameterName in request.query && |request.query[config.linkParameterName]| == 1 ==>
      (HasLinkParameter(config, request) <==> request.query[config.linkParameterName][0] != '0')
  {
    config.linkParameterName in request.query && Truthy(request.query[config.linkParameterName])
  }

  /** `$cookieParams[<simulation cookie>]` is truthy: an empty or "0" value does not count. */
  predicate AlreadySimulatedCookie(config: ExtensionConfiguration, request: HttpRequest)
    ensures AlreadySimulatedCookie(config, request) ==>
      config.cookieName in request.cookies && |request.cookies[config.cookieName]| >= 1
    ensures config.cookieName in request.cookies && |request.cookies[config.cookieName]| >= 2 ==>
      AlreadySimulatedCookie(config, request)
    ensures config.cookieName in request.cookies && |request.cookies[config.cookieName]| == 1 ==>
      (AlreadySimulatedCookie(config, request) <==> request.cookies[config.cookieName][0] != '0')
  {
    config.cookieName in request.cookies && Truthy(request.cookies[config.cookieName])
  }

  /** `withSessionCookie` always runs with the default login type. */
  function SessionCookie(fw: Framework, name: string, value: string): (r: Result<string>)
    ensures r.Raised? <==> SecureViolation(fw.settings, fw.env)
  {
    SessionCookieHeader(name, value, "", fw.settings, fw.env, fw.preg)
  }

  /** Adds each value as one more Set-Cookie header line, in order. */
  function AddSetCookies(response: HttpResponse, values: seq<string>): (r: HttpResponse)
    ensures r.status == response.status && r.body == response.body
    decreases |values|
  {
    if |values| == 0 then response
    else AddSetCookies(WithAddedHeader(response, SetCookie, values[0]), values[1..])
  }

  /** The Set-Cookie lines grow by exactly `values`; no other header changes. */
  lemma {:induction false} AddSetCookiesAppends(response: HttpResponse, values: seq<string>)
    ensures HeaderValues(AddSetCookies(response, values), SetCookie) == HeaderValues(response, SetCookie) + values
    ensures forall other :: other != SetCookie ==> HeaderValues(AddSetCookies(response, values), other) == HeaderValues(response, other)
    decreases |values|
  {
    if |values| > 0 {
      var next := WithAddedHeader(response, SetCookie, values[0]);
      AddSetCookiesAppends(next, values[1..]);
      assert [values[0]] + values[1..] == values;
    }
  }

  /** The first guard of `process` that lets the request through, if any. */
  function FirstGuard(fw: Framework, config: ExtensionConfiguration, ctx: RequestContext, request: HttpRequest): Option<SkipReason> {
    if !ctx.frontendLoggedIn then Some(NoFrontendUser)
    else if config.onLinkParameter && !HasLinkParameter(config, request) then Some(LinkParameterMissing)
    else if ctx.backendLoggedIn then Some(BackendUserLoggedIn)
    else if AlreadySimulatedCookie(config, request) then Some(AlreadySimulated)
    else if FindBackendUser(fw.backendUsers, ctx.frontendUser).None? then Some(NoMapping)
    else None
  }

  /** No frontend user: hand on, then expire the simulation cookie if the request carried it. */
  function WithoutFrontendUser(fw: Framework, config: ExtensionConfiguration, request: HttpRequest): (p: Processed)
    ensures p.calls == [Handled(request)] && p.effects == []
  {
    var response := fw.handle(request);
    if config.cookieName in request.cookies then
      match SessionCookie(fw, config.cookieName, "")
      case Raised(code) => Processed(Error(code), [], [Handled(request)], [], None)
      case Ok(h) => Processed(ClearAndPassThrough, [h], [Handled(request)], [], Some(WithAddedHeader(response, SetCookie, h)))
    else Processed(PassThrough(NoFrontendUser), [], [Handled(request)], [], Some(response))
  }

  /** The request handed to the second authenticator pass: the backend cookie carries the session id. */
  function ElevatedRequest(fw: Framework, request: HttpRequest, sessionId: string): HttpRequest {
    request.(cookies := request.cookies[fw.backendCookieName := sessionId])
  }

  /** The session writes of the elevation path. */
  function SessionEffects(fw: Framework, config: ExtensionConfiguration, sessionId: string, user: BackendUser): seq<Effect> {
    var record := fw.createUserSession(sessionId, user);
    [SessionCreated(sessionId, user)]
    + if config.fakeTimeout > 0 then [SessionStored(sessionId, record.(tstamp := record.tstamp + config.fakeTimeout))] else []
  }

  /** Every guard passed: create the session, authenticate, set both cookies, maybe redirect. */
  function Elevation(fw: Framework, config: ExtensionConfiguration, ctx: RequestContext, request: HttpRequest, user: BackendUser): (p: Processed)
  {
    var sessionId := ctx.frontendSessionId;
    var effects := SessionEffects(fw, config, sessionId, user);
    var elevated := ElevatedRequest(fw, request, sessionId);
    var response := fw.authenticateBackend(elevated);
    match SessionCookie(fw, config.cookieName, sessionId)
    case Raised(code) => Processed(Error(code), [], [AuthenticatedAndHandled(elevated)], effects, None)
    case Ok(simulation) =>
      var backend := SessionCookie(fw, fw.backendCookieName, sessionId).value;
      var withCookies := WithAddedHeader(WithAddedHeader(response, SetCookie, simulation), SetCookie, backend);
      var redirect := config.onLinkParameter && HasLinkParameter(config, request);
      Processed(
        Elevate(sessionId, redirect),
        [simulation, backend],
        [AuthenticatedAndHandled(elevated)],
        effects,
        Some(if redirect then RedirectResponse(BackendEntryPoint, TemporaryRedirect, withCookies.headers) else withCookies))
  }

  /** `process($request, $handler)`. */
  function Process(fw: Framework, config: ExtensionConfiguration, ctx: RequestContext, request: HttpRequest): (p: Processed)
    ensures |p.calls| == 1
    ensures p.response.None? <==> p.outcome.Error?
    ensures p.outcome.PassThrough? ==>
      && p.response == Some(fw.handle(request))
      && p.calls == [Handled(request)] && p.setCookies == [] && p.effects == []
    ensures p.outcome.ClearAndPassThrough? ==> |p.setCookies| == 1 && p.effects == []
    ensures p.outcome.Elevate? ==> |p.setCookies| == 2 && |p.effects| >= 1
    ensures p.outcome.Error? ==> p.setCookies == []
  {
    match FirstGuard(fw, config, ctx, request)
    case Some(NoFrontendUser) => WithoutFrontendUser(fw, config, request)
    case Some(reason) => Processed(PassThrough(reason), [], [Handled(request)], [], Some(fw.handle(request)))
    case None => Elevation(fw, config, ctx, request, FindBackendUser(fw.backendUsers, ctx.frontendUser).value)
  }

  // ---------------------------------------------------------------------------
  // Properties of one run.
  // ---------------------------------------------------------------------------

  /**
   * The independent statement of when a backend user is simulated: a frontend
   * user is logged in, the link parameter is given if it is required, no
   * backend user is logged in, no truthy simulation cookie is present, and the
   * lookup finds a row.
   */
  predicate Eligible(fw: Framework, config: ExtensionConfiguration, ctx: RequestContext, request: HttpRequest) {
    && ctx.frontendLoggedIn
    && (config.onLinkParameter ==> HasLinkParameter(config, request))
    && !ctx.backendLoggedIn
    && !AlreadySimulatedCookie(config, request)
    && FindBackendUser(fw.backendUsers, ctx.frontendUser).Some?
  }

  /**
   * A session is created exactly for eligible requests; the middleware elevates
   * exactly when the request is eligible and cookies may be set, and throws
   * exactly when a cookie must be written while HTTPS is forced over HTTP.
   */
  lemma ElevationCharacterised(fw: Framework, config: ExtensionConfiguration, ctx: RequestContext, request: HttpRequest)
    ensures var p := Process(fw, config, ctx, request);
      && (p.effects != [] <==> Eligible(fw, config, ctx, request))
      && (p.outcome.Elevate? <==> Eligible(fw, config, ctx, request) && !SecureViolation(fw.settings, fw.env))
      && (p.outcome.Error? <==>
            SecureViolation(fw.settings, fw.env)
            && (Eligible(fw, config, ctx, request) || (!ctx.frontendLoggedIn && config.cookieName in request.cookies)))
      && (p.outcome.Error? ==> p.outcome.code == InsecureCookieError)
  {
    var p := Process(fw, config, ctx, request);
    match FirstGuard(fw, config, ctx, request)
    case Some(NoFrontendUser) =>
      assert !Eligible(fw, config, ctx, request);
    case Some(reason) =>
      assert !Eligible(fw, config, ctx, request);
    case None =>
      assert Eligible(fw, config, ctx, request);
  }

  /**
   * Without a frontend user the handler runs once on the unchanged request, and
   * the only header added is one Set-Cookie for the simulation cookie, present
   * exactly when the request carries that cookie, whatever its value.
   */
  lemma NoFrontendUserPassesOn(fw: Framework, config: ExtensionConfiguration, ctx: RequestContext, request: HttpRequest)
    requires !ctx.frontendLoggedIn
    ensures var p := Process(fw, config, ctx, request);
      && p.calls == [Handled(request)] && p.effects == []
      && (p.outcome.Error? <==> config.cookieName in request.cookies && SecureViolation(fw.settings, fw.env))
      && (!p.outcome.Error? ==>
            && (p.setCookies != [] <==> config.cookieName in request.cookies)
            && |p.setCookies| <= 1
            && p.response == Some(AddSetCookies(fw.handle(request), p.setCookies)))
  {
    var p := Process(fw, config, ctx, request);
    if p.setCookies != [] {
      assert AddSetCookies(fw.handle(request), p.setCookies)
          == AddSetCookies(WithAddedHeader(fw.handle(request), SetCookie, p.setCookies[0]), []);
    }
  }

  /** The header written when no frontend user is left makes a user agent delete the simulation cookie. */
  lemma ClearedCookieIsDeleted(fw: Framework, config: ExtensionConfiguration, ctx: RequestContext, request: HttpRequest)
    requires !ctx.frontendLoggedIn && config.cookieName in request.cookies && !SecureViolation(fw.settings, fw.env)
    requires CleanName(config.cookieName) && Clean(fw.env.sitePath)
    requires Clean(CookieDomain(fw.settings, "", fw.env, fw.preg).domain)
    ensures var p := Process(fw, config, ctx, request);
      && p.outcome == ClearAndPassThrough
      && var c := ParseSetCookie(p.setCookies[0]);
         c.Some? && c.value.name == config.cookieName && c.value.value == "" && DeletedOnReceipt(c.value)
  {
    SessionCookieReceived(config.cookieName, "", "", fw.settings, fw.env, fw.preg);
  }

  /**
   * A logged-in frontend user who is not eligible gets the handler's response
   * unchanged, with no session written and no cookie set; the reason names the
   * first guard that failed, in the order the middleware checks them.
   */
  lemma IneligibleRequestUntouched(fw: Framework, config: ExtensionConfiguration, ctx: RequestContext, request: HttpRequest)
    requires ctx.frontendLoggedIn && !Eligible(fw, config, ctx, request)
    ensures var p := Process(fw, config, ctx, request);
      && p.response == Some(fw.handle(request))
      && p.calls == [Handled(request)] && p.effects == [] && p.setCookies == []
      && p.outcome ==
           if config.onLinkParameter && !HasLinkParameter(config, request) then PassThrough(LinkParameterMissing)
           else if ctx.backendLoggedIn then PassThrough(BackendUserLoggedIn)
           else if AlreadySimulatedCookie(config, request) then PassThrough(AlreadySimulated)
           else PassThrough(NoMapping)
  {
  }

  /**
   * On elevation the backend session id is the frontend session id, and the
   * second authenticator pass gets the request with that id under the backend
   * cookie name and nothing else changed.
   */
  lemma ElevationReusesFrontendSession(fw: Framework, config: ExtensionConfiguration, ctx: RequestContext, request: HttpRequest)
    requires Eligible(fw, config, ctx, request)
    ensures var p := Process(fw, config, ctx, request);
      && p.effects[0] == SessionCreated(ctx.frontendSessionId, FindBackendUser(fw.backendUsers, ctx.frontendUser).value)
      && |p.calls| == 1 && p.calls[0].AuthenticatedAndHandled?
      && (p.outcome.Elevate? ==> p.outcome.sessionId == ctx.frontendSessionId)
      && var sent := p.calls[0].request;
         && sent.query == request.query
         && fw.backendCookieName in sent.cookies && sent.cookies[fw.backendCookieName] == ctx.frontendSessionId
         && (forall k :: k != fw.backendCookieName ==> (k in sent.cookies <==> k in request.cookies))
         && (forall k :: k != fw.backendCookieName && k in request.cookies ==> sent.cookies[k] == request.cookies[k])
  {
  }

  /**
   * `ses_tstamp` moves forward by exactly the fake timeout, and the record is
   * written back only when that timeout is positive.
   */
  lemma FakeTimeoutApplied(fw: Framework, config: ExtensionConfiguration, ctx: RequestContext, request: HttpRequest)
    requires Eligible(fw, config, ctx, request)
    ensures var p := Process(fw, config, ctx, request);
      var id := ctx.frontendSessionId;
      var created := fw.createUserSession(id, FindBackendUser(fw.backendUsers, ctx.frontendUser).value);
      && (|p.effects| == 2 <==> config.fakeTimeout > 0)
      && |p.effects| <= 2
      && (config.fakeTimeout > 0 ==>
            && p.effects[1].SessionStored? && p.effects[1].sessionId == id
            && p.effects[1].record.tstamp - created.tstamp == config.fakeTimeout
            && p.effects[1].record.fields == created.fields)
  {
  }

  /**
   * Both cookies set on elevation carry the session id, the simulation cookie
   * first; a user agent keeps them for the browser session only.
   */
  lemma ElevationCookiesCarrySessionId(fw: Framework, config: ExtensionConfiguration, ctx: RequestContext, request: HttpRequest)
    requires Eligible(fw, config, ctx, request) && !SecureViolation(fw.settings, fw.env)
    requires CleanName(config.cookieName) && CleanName(fw.backendCookieName)
    requires Clean(ctx.frontendSessionId) && ctx.frontendSessionId != ""
    requires Clean(fw.env.sitePath) && Clean(CookieDomain(fw.settings, "", fw.env, fw.preg).domain)
    ensures var p := Process(fw, config, ctx, request);
      && |p.setCookies| == 2
      && var simulation := ParseSetCookie(p.setCookies[0]);
         var backend := ParseSetCookie(p.setCookies[1]);
         && simulation.Some? && simulation.value.name == config.cookieName
         && simulation.value.value == ctx.frontendSessionId && SessionOnly(simulation.value)
         && backend.Some? && backend.value.name == fw.backendCookieName
         && backend.value.value == ctx.frontendSessionId && SessionOnly(backend.value)
  {
    SessionCookieReceived(config.cookieName, ctx.frontendSessionId, "", fw.settings, fw.env, fw.preg);
    SessionCookieReceived(fw.backendCookieName, ctx.frontendSessionId, "", fw.settings, fw.env, fw.preg);
  }

  /**
   * The elevated response redirects (307 to the backend, keeping every header
   * collected so far) exactly when the link parameter mode is on; otherwise it
   * is the authenticator's response with the two cookies added.
   */
  lemma RedirectOnlyInLinkParameterMode(fw: Framework, config: ExtensionConfiguration, ctx: RequestContext, request: HttpRequest)
    requires Eligible(fw, config, ctx, request) && !SecureViolation(fw.settings, fw.env)
    ensures var p := Process(fw, config, ctx, request);
      var authenticated := fw.authenticateBackend(p.calls[0].request);
      var r := p.response.value;
      && (p.outcome.redirect <==> config.onLinkParameter)
      && (p.outcome.redirect ==>
            && r.status == TemporaryRedirect && r.body == ""
            && HeaderValues(r, "location") == [BackendEntryPoint]
            && HeaderValues(r, SetCookie) == HeaderValues(authenticated, SetCookie) + p.setCookies
            && forall h :: h != "location" ==> HeaderValues(r, h) == HeaderValues(AddSetCookies(authenticated, p.setCookies), h))
      && (!p.outcome.redirect ==> r == AddSetCookies(authenticated, p.setCookies))
  {
    ElevationCharacterised(fw, config, ctx, request);
    var p := Process(fw, config, ctx, request);
    var authenticated := fw.authenticateBackend(p.calls[0].request);
    var once := WithAddedHeader(authenticated, SetCookie, p.setCookies[0]);
    assert p.setCookies[1..] == [p.setCookies[1]];
    assert AddSetCookies(authenticated, p.setCookies) == AddSetCookies(once, [p.setCookies[1]]);
    assert [p.setCookies[1]][1..] == [];
    assert AddSetCookies(once, [p.setCookies[1]]) == WithAddedHeader(once, SetCookie, p.setCookies[1]);
    assert FirstGuard(fw, config, ctx, request).None?;
    assert p == Elevation(fw, config, ctx, request, FindBackendUser(fw.backendUsers, ctx.frontendUser).value);
  }

  /** A request that carries a truthy simulation cookie never elevates, whatever else it looks like. */
  lemma NoSecondElevation(fw: Framework, config: ExtensionConfiguration, ctx: RequestContext, request: HttpRequest)
    requires config.cookieName in request.cookies && Truthy(request.cookies[config.cookieName])
    ensures Process(fw, config, ctx, request).effects == []
    ensures !Process(fw, config, ctx, request).outcome.Elevate?
  {
    ElevationCharacterised(fw, config, ctx, request);
  }

  /**
   * The simulation cookie an elevation sets carries the session id, so it is
   * the value a later request sends back. When that id is PHP-truthy (TYPO3's
   * hex ids always are), such a request creates no second session.
   */
  lemma SimulationCookieBlocksSecondElevation(fw: Framework, config: ExtensionConfiguration, ctx: RequestContext,
                                              request: HttpRequest, nextCtx: RequestContext, next: HttpRequest)
    requires Eligible(fw, config, ctx, request) && !SecureViolation(fw.settings, fw.env)
    requires CleanName(config.cookieName) && CleanName(fw.backendCookieName)
    requires Clean(ctx.frontendSessionId) && Truthy(ctx.frontendSessionId)
    requires Clean(fw.env.sitePath) && Clean(CookieDomain(fw.settings, "", fw.env, fw.preg).domain)
    requires config.cookieName in next.cookies && next.cookies[config.cookieName] == ctx.frontendSessionId
    ensures var p := Process(fw, config, ctx, request);
      && |p.setCookies| == 2
      && var c := ParseSetCookie(p.setCookies[0]);
         c.Some? && c.value.name == config.cookieName && c.value.value == next.cookies[config.cookieName]
    ensures Process(fw, config, nextCtx, next).effects == []
    ensures !Process(fw, config, nextCtx, next).outcome.Elevate?
  {
    ElevationCookiesCarrySessionId(fw, config, ctx, request);
    NoSecondElevation(fw, config, nextCtx, next);
  }
}
