/**
 * `LogoutHandler::logout`: the hook TYPO3 calls whenever a backend or a
 * frontend user logs out. It returns at once unless this is a frontend logout
 * while a backend user is logged in; then it logs that backend user off if the
 * two session ids compare equal. As written, the comparison is PHP's loose one,
 * so ids that merely read as the same number also match.
 *
 * The hook writes no cookie; the simulation cookie is expired by the
 * middleware on the next request without a frontend user.
 */
module LogoutHandler {
  import opened Basics
  import opened PhpValues
  import opened Http
  import opened CookieHeader
  import opened BackendUserSimulator

  /** Which authentication object is logging out. */
  datatype AuthenticationKind = FrontendAuthentication | BackendAuthentication

  /** The only thing the hook can do: `$GLOBALS['BE_USER']->logoff()`. */
  datatype LogoutAction = LogOffBackendUser(sessionId: string)

  /** The guards of the hook, with the session ids compared by `sameSession`. */
  function LogoutWith(sameSession: (string, string) -> bool, kind: AuthenticationKind, backendLoggedIn: bool,
                      frontendSessionId: string, backendSessionId: string): seq<LogoutAction>
  {
    if kind != FrontendAuthentication then []
    else if !backendLoggedIn then []
    else if !sameSession(frontendSessionId, backendSessionId) then []
    else [LogOffBackendUser(backendSessionId)]
  }

  /** The hook as written: `$auth->id != $GLOBALS['BE_USER']->id` is PHP's loose comparison. */
  function LogoutAsWritten(kind: AuthenticationKind, backendLoggedIn: bool,
                           frontendSessionId: string, backendSessionId: string): (r: seq<LogoutAction>)
    ensures r != [] <==> kind == FrontendAuthentication && backendLoggedIn && LooseEquals(frontendSessionId, backendSessionId)
    ensures r != [] ==> r == [LogOffBackendUser(backendSessionId)]
  {
    LogoutWith(LooseEquals, kind, backendLoggedIn, frontendSessionId, backendSessionId)
  }

  /** The hook as intended: only the backend session with the very same id is ended. */
  function Logout(kind: AuthenticationKind, backendLoggedIn: bool,
                  frontendSessionId: string, backendSessionId: string): (r: seq<LogoutAction>)
    ensures |r| <= 1
    ensures r != [] ==> r == [LogOffBackendUser(frontendSessionId)]
  {
    LogoutWith((a: string, b: string) => a == b, kind, backendLoggedIn, frontendSessionId, backendSessionId)
  }

  /** The backend user is logged off exactly for a frontend logout of the session it was simulated for. */
  lemma LogsOffExactly(kind: AuthenticationKind, backendLoggedIn: bool, frontendSessionId: string, backendSessionId: string)
    ensures Logout(kind, backendLoggedIn, frontendSessionId, backendSessionId) != []
        <==> kind == FrontendAuthentication && backendLoggedIn && frontendSessionId == backendSessionId
    ensures kind == BackendAuthentication ==> Logout(kind, backendLoggedIn, frontendSessionId, backendSessionId) == []
    ensures !backendLoggedIn ==> Logout(kind, backendLoggedIn, frontendSessionId, backendSessionId) == []
  {
  }

  /** Identical ids always log off, in both versions. */
  lemma SameIdLogsOff(backendLoggedIn: bool, id: string)
    requires backendLoggedIn
    ensures LogoutAsWritten(FrontendAuthentication, backendLoggedIn, id, id) == [LogOffBackendUser(id)]
    ensures Logout(FrontendAuthentication, backendLoggedIn, id, id) == [LogOffBackendUser(id)]
  {
    LooseEqualsReflexive(id, id);
  }

  /** The two versions differ only when both session ids are numeric strings. */
  lemma VersionsAgreeOnNonNumericIds(kind: AuthenticationKind, backendLoggedIn: bool,
                                     frontendSessionId: string, backendSessionId: string)
    requires !IsNumeric(frontendSessionId) || !IsNumeric(backendSessionId)
    ensures LogoutAsWritten(kind, backendLoggedIn, frontendSessionId, backendSessionId)
         == Logout(kind, backendLoggedIn, frontendSessionId, backendSessionId)
  {
    if LooseEquals(frontendSessionId, backendSessionId) && frontendSessionId != backendSessionId {
      LooseEqualsNeedsNumeric(frontendSessionId, backendSessionId);
    }
  }

  /**
   * Logging out the frontend session "0e1" ends the backend session "0e2": both
   * read as the number zero, so the loose comparison finds them equal.
   */
  lemma LooseComparisonEndsForeignSession()
    ensures LogoutAsWritten(FrontendAuthentication, true, "0e1", "0e2") == [LogOffBackendUser("0e2")]
    ensures Logout(FrontendAuthentication, true, "0e1", "0e2") == []
  {
    ZeroExponentStringsLooselyEqual();
  }

  /**
   * The whole logout of a simulated session, with the hook as written. After an
   * elevation the backend session carries the frontend session id, so the
   * frontend logout ends it. The middleware runs after the frontend
   * authenticator, so in that same request it sees no frontend user; if the
   * request carries the simulation cookie, the middleware expires it, and a user
   * agent deletes it. The hook itself sets no cookie.
   */
  lemma SimulationCookieClearedAfterLogout(fw: Framework, config: ExtensionConfiguration, ctx: RequestContext,
                                           elevating: HttpRequest, request: HttpRequest)
    requires Process(fw, config, ctx, elevating).outcome.Elevate?
    requires config.cookieName in request.cookies
    requires CleanName(config.cookieName) && Clean(fw.env.sitePath)
    requires Clean(CookieDomain(fw.settings, "", fw.env, fw.preg).domain)
    ensures var backendSessionId := Process(fw, config, ctx, elevating).outcome.sessionId;
      LogoutAsWritten(FrontendAuthentication, true, ctx.frontendSessionId, backendSessionId)
        == [LogOffBackendUser(backendSessionId)]
    ensures var p := Process(fw, config, ctx.(frontendLoggedIn := false), request);
      && p.outcome == ClearAndPassThrough && p.effects == []
      && var c := ParseSetCookie(p.setCookies[0]);
         c.Some? && c.value.name == config.cookieName && DeletedOnReceipt(c.value)
  {
    ElevationCharacterised(fw, config, ctx, elevating);
    ElevationReusesFrontendSession(fw, config, ctx, elevating);
    SameIdLogsOff(true, ctx.frontendSessionId);
    ClearedCookieIsDeleted(fw, config, ctx.(frontendLoggedIn := false), request);
  }
}
