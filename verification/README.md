# simulatebe, modelled in Dafny

The TYPO3 extension simulatebe lets a logged-in frontend user act as a backend
user without a second login. It has two parts.

- The PSR-15 middleware `BackendUserSimulator` runs after the frontend and
  backend authenticators. It checks a fixed chain of guards on every request:
  1. a frontend user is logged in;
  2. the link parameter is given, when the configuration requires one;
  3. no backend user is logged in yet;
  4. no truthy simulation cookie is present;
  5. a backend user is mapped to the frontend user.

  When all five pass, it creates a backend session under the frontend session
  id and runs the backend authenticator a second time. It then sets two
  cookies, the simulation cookie and the backend session cookie. With the link
  parameter switched on, it also redirects to `/typo3`.
  When there is no frontend user, it expires a leftover simulation cookie.
- The logout hook `LogoutHandler` is called on every logout, backend or
  frontend. It returns at once unless this is a frontend logout while a
  backend user is logged in. Then it logs that backend user off when the two
  session ids compare equal under PHP's loose `!=`.

The model is a set of pure functions over immutable records. It has one module
per file:

| module | file | what it holds |
|---|---|---|
| `Basics` | basics.dfy | `Option`, and `Result` with an exception code |
| `PhpValues` | php_values.dfy | the PHP 8 semantics the code relies on: `(bool)` of a string, numeric strings, the `(int)` cast (64-bit, saturating), loose `==` |
| `Http` | http.dfy | requests (cookie and query maps), responses, `withAddedHeader`, `RedirectResponse` |
| `CookieHeader` | cookie_header.dfy | `getCookieDomain` and `withSessionCookie`, and the receiving side: the Set-Cookie parsing algorithm of section 5.2 of RFC 6265, which yields the cookie-avs as split, the Max-Age rule of its section 5.2.2 and the Domain rule of its section 5.2.3 |
| `BackendUserLookup` | backend_user_lookup.dfy | `getSimulatedBackendUser` over a sequence of `be_users` rows |
| `BackendUserSimulator` | simulator.dfy | `process`, and what one run does |
| `LogoutHandler` | logout_handler.dfy | `logout`, as written and as intended |

The framework's collaborators are inputs to `Process`, gathered in the
`Framework` record:
- the next handler;
- the second `BackendUserAuthenticator` pass;
- `createUserSession`;
- the `be_users` rows in database order;
- the backend cookie name;
- `TYPO3_CONF_VARS`;
- the `getIndpEnv` values;
- `preg_match`, which answers no match, a first match, or a malformed pattern.

A run returns:
- an `Outcome`: `PassThrough(reason)`, `ClearAndPassThrough`,
  `Elevate(sessionId, redirect)` or `Error(code)`;
- the Set-Cookie values it added;
- how it passed the request on;
- its session writes;
- the response, which is absent when it throws.

Details of the code the model keeps:
- **Cookies in the second authenticator pass.** Only the backend cookie is
  added to the request handed to that pass; the simulation cookie is not
  (Classes/Middleware/BackendUserSimulator.php:124-125).
- **Which cookie value blocks elevation.** A simulation cookie blocks it only
  when the value is PHP-truthy, so `"0"` does not block, just as `""` does not
  (:97).
- **Path.** `Path` is `/` exactly when the resolved domain is PHP-truthy, so a
  domain `"0"` also gets the site path (:209).
- **Login type.** `withSessionCookie` is always called with the empty login
  type.

## Model

| member | source | states |
|---|---|---|
| `PhpValues.Truthy` | Classes/Middleware/BackendUserSimulator.php:209 | a string is truthy exactly when it is neither empty nor `"0"`: every string of two or more characters is truthy, and a one-character string is truthy unless it is `"0"` |
| `PhpValues.LooseEquals` | Classes/Handler/LogoutHandler.php:38 | equal strings always compare equal. Two different strings compare equal only when both are numeric strings, so a non-numeric id equals only itself |
| `PhpValues.LooseEqualsSymmetric` | Classes/Handler/LogoutHandler.php:38 | swapping the two session ids does not change the loose comparison |
| `PhpValues.IntCast` | Classes/Middleware/BackendUserSimulator.php:173 | `(int)` of a field value stays in the 64-bit range, and a value that does not start with a numeral casts to 0 |
| `PhpValues.IntCastOfDecimal` | Classes/Middleware/BackendUserSimulator.php:173 | `(int)` of a decimal uid string is that uid, whatever non-numeral text follows the digits |
| `PhpValues.IntCastOfNegativeDecimal` | Classes/Middleware/BackendUserSimulator.php:173-174 | `(int)` of `-n` is `-n`, so a negative explicit id is not "> 0" |
| `PhpValues.LooseEqualsReflexive` | Classes/Handler/LogoutHandler.php:38 | identical session ids are never separated by `!=` |
| `PhpValues.LooseEqualsNeedsNumeric` | Classes/Handler/LogoutHandler.php:38 | two different strings compare loosely equal only if both are numeric strings |
| `PhpValues.ZeroExponentStringsLooselyEqual` | Classes/Handler/LogoutHandler.php:38 | `"0e1"` and `"0e2"` differ, yet PHP's `==` finds them equal |
| `Http.WithAddedHeader` | Classes/Middleware/BackendUserSimulator.php:229 | adding a header appends one value to that header and changes no other header, the status or the body |
| `Http.RedirectResponse` | Classes/Middleware/BackendUserSimulator.php:146-150 | the redirect has the given status, an empty body, `location` set to the target, and every other header carried over |
| `CookieHeader.CookieDomain` | Classes/Middleware/BackendUserSimulator.php:241-264 | an empty setting gives `''`. A setting starting with `/` gives the first regex match, or `''` on no match or a malformed pattern, and only the malformed case is logged. Any other setting is returned literally |
| `CookieHeader.LoginTypeDomainOverrides` | Classes/Middleware/BackendUserSimulator.php:244-249 | a non-empty per-login-type domain makes SYS.cookieDomain irrelevant |
| `CookieHeader.EmptyLoginTypeDomainIgnored` | Classes/Middleware/BackendUserSimulator.php:247 | an empty or `"0"` per-login-type domain acts as if none were configured |
| `CookieHeader.SessionCookieHeader` | Classes/Middleware/BackendUserSimulator.php:206-218 | the header fails exactly when cookieSecure is set and the request is not HTTPS, and the error code is 1254325546 |
| `CookieHeader.BuildHeader` | Classes/Middleware/BackendUserSimulator.php:220-227 | the header starts with `name=value; Path=path`. It ends with the epoch expiry, `Max-Age=0` and a stray `;` when the value is empty, and with `; Domain=domain` otherwise |
| `CookieHeader.BuildHeaderRoundTrip` | Classes/Middleware/BackendUserSimulator.php:220-227 | an RFC 6265 parser reads the header back as the same name and value, followed by attributes in this order: Path, then Secure and HttpOnly when set, then Domain, then the epoch expiry, Max-Age=0 and the trailing empty attribute when the value is empty |
| `CookieHeader.ReceivedCookie` | Classes/Middleware/BackendUserSimulator.php:220-227 | a user agent deletes the cookie on arrival exactly when the value is empty, and otherwise keeps it as a session cookie. In the cookie-avs as split, Secure and HttpOnly appear exactly when they were asked for, and the last Path and Domain values are the given ones. The stored Domain is the given domain without a leading `.` and in lower case, and the cookie is host-only exactly when the domain is `""` or `"."` |
| `CookieHeader.DomainReceived` | Classes/Middleware/BackendUserSimulator.php:224 | under section 5.2.3 of RFC 6265, the `; Domain=` attribute is ignored when the domain is empty. Otherwise a user agent stores the domain without a leading `.` and in lower case. The cookie is host-only exactly when the domain is `""` or `"."` |
| `CookieHeader.LeadingDotDropped` | Classes/Middleware/BackendUserSimulator.php:224 | a Domain attribute `.Ab`, the leading-dot form of a cookie domain, is stored as `ab` |
| `CookieHeader.EmptyCookieDomain` | Classes/Middleware/BackendUserSimulator.php:224 | the stored domain is empty exactly when the attribute value is `""` or `"."` |
| `CookieHeader.SessionCookieReceived` | Classes/Middleware/BackendUserSimulator.php:206-229 | `withSessionCookie` either throws, or sends a cookie whose cookie-avs as split carry Secure only over HTTPS, HttpOnly as configured, the resolved domain as the Domain value (stored without a leading `.` in lower case; a host-only cookie when that domain is `""` or `"."`), and Path `/` when that domain is truthy and the site path otherwise |
| `BackendUserLookup.CriterionFor` | Classes/Middleware/BackendUserSimulator.php:173-183 | a positive `(int)` of `tx_simulatebe_beuser` selects by uid. Anything else selects by the username, or by SQL NULL when the username is missing |
| `BackendUserLookup.FirstSelected` | Classes/Middleware/BackendUserSimulator.php:166-171 | the result is the position of the first row the query selects, or none exactly when no row is selected |
| `BackendUserLookup.FindBackendUser` | Classes/Middleware/BackendUserSimulator.php:163-186 | a row found is in the table, at the root level and satisfies the condition. Null is returned exactly when no row does |
| `BackendUserLookup.OnlyRootLevelCounts` | Classes/Middleware/BackendUserSimulator.php:170 | removing every row outside the root level does not change the result |
| `BackendUserLookup.ExplicitIdWins` | Classes/Middleware/BackendUserSimulator.php:174-177 | with a positive explicit id the username has no influence, and the row found has that uid |
| `BackendUserLookup.UserNameFallback` | Classes/Middleware/BackendUserSimulator.php:178-183 | without a positive explicit id, the row found is mapped to the frontend username. A user without a username gets none |
| `BackendUserLookup.DecimalIdSelectsUid` | Classes/Middleware/BackendUserSimulator.php:173-177 | a field holding the decimal `n` selects the first row, in table order, that is at the root level and has uid `n`. It selects none exactly when no such row exists |
| `BackendUserLookup.NonPositiveIdFallsBack` | Classes/Middleware/BackendUserSimulator.php:174-178 | a field holding `-n`, for any n >= 0, falls back to the username |
| `BackendUserSimulator.HasLinkParameter` | Classes/Middleware/BackendUserSimulator.php:82 | the link parameter counts only when it is present and neither empty nor `"0"`. A missing parameter counts as absent |
| `BackendUserSimulator.AlreadySimulatedCookie` | Classes/Middleware/BackendUserSimulator.php:97 | the simulation cookie blocks elevation only when it is present and neither empty nor `"0"` |
| `BackendUserSimulator.SessionCookie` | Classes/Middleware/BackendUserSimulator.php:206 | with the default login type, the cookie fails exactly on an HTTPS-forced plain-HTTP request |
| `BackendUserSimulator.AddSetCookiesAppends` | Classes/Middleware/BackendUserSimulator.php:229 | adding cookies one at a time appends exactly those Set-Cookie lines and leaves every other header alone |
| `BackendUserSimulator.Process` | Classes/Middleware/BackendUserSimulator.php:57-154 | the request is passed on exactly once. The middleware throws exactly when it returns no response. A pass-through returns the handler's response untouched, with no cookie and no session. Clearing sets one cookie, elevation two |
| `BackendUserSimulator.ElevationCharacterised` | Classes/Middleware/BackendUserSimulator.php:67-142 | a session is created exactly for eligible requests. The middleware elevates exactly when a request is eligible and cookies may be set, and throws exactly when it must write a cookie under forced HTTPS without SSL |
| `BackendUserSimulator.NoFrontendUserPassesOn` | Classes/Middleware/BackendUserSimulator.php:67-78 | with no frontend user, the handler runs once on the request as received and no session is written. One Set-Cookie is added exactly when the simulation cookie key is present, whatever its value |
| `BackendUserSimulator.ClearedCookieIsDeleted` | Classes/Middleware/BackendUserSimulator.php:71-76 | the cookie written when the frontend user is gone makes a user agent delete the simulation cookie |
| `BackendUserSimulator.IneligibleRequestUntouched` | Classes/Middleware/BackendUserSimulator.php:82-109 | an ineligible request gets the handler's response unchanged, with no session and no cookie. The reason names the first failing guard, in the code's order |
| `BackendUserSimulator.ElevationReusesFrontendSession` | Classes/Middleware/BackendUserSimulator.php:115-125 | the backend session is created for the mapped user under the frontend session id. The second authenticator pass gets the request with that id under the backend cookie name, and nothing else changed |
| `BackendUserSimulator.FakeTimeoutApplied` | Classes/Middleware/BackendUserSimulator.php:118-122 | `ses_tstamp` moves forward by exactly fakeTimeout, other columns are kept, and the record is written back only when fakeTimeout > 0 |
| `BackendUserSimulator.ElevationCookiesCarrySessionId` | Classes/Middleware/BackendUserSimulator.php:132-142 | exactly two cookies go out, first the simulation cookie and then the backend cookie. Both carry the session id and both are session cookies |
| `BackendUserSimulator.RedirectOnlyInLinkParameterMode` | Classes/Middleware/BackendUserSimulator.php:144-153 | an elevation redirects exactly when link-parameter mode is on. The redirect is a 307 to `/typo3` with an empty body. It keeps every header of the authenticated response with the two cookies added, `location` aside. Otherwise the authenticator's response is returned with the two cookies added |
| `BackendUserSimulator.NoSecondElevation` | Classes/Middleware/BackendUserSimulator.php:94-100 | a request carrying a truthy simulation cookie creates no session and is not elevated, whatever the rest of the request |
| `BackendUserSimulator.SimulationCookieBlocksSecondElevation` | Classes/Middleware/BackendUserSimulator.php:94-100 | the simulation cookie an elevation sets carries the session id. When that id is PHP-truthy, a later request that sends the cookie back creates no second session and is not elevated |
| `LogoutHandler.LogoutAsWritten` | Classes/Handler/LogoutHandler.php:29-44 | the hook as written logs off exactly for a frontend logout, while a backend user is logged in, whose session id compares loosely equal to the backend session id. It then ends that backend session |
| `LogoutHandler.Logout` | Classes/Handler/LogoutHandler.php:29-44 | the corrected hook logs off at most once, and only the session whose id is the frontend session id |
| `LogoutHandler.LogsOffExactly` | Classes/Handler/LogoutHandler.php:31-44 | the corrected hook: the backend user is logged off exactly for a frontend logout while a backend user is logged in with the same session id. A backend logout, or no backend user, does nothing |
| `LogoutHandler.SameIdLogsOff` | Classes/Handler/LogoutHandler.php:38-44 | identical ids log the backend user off in both versions |
| `LogoutHandler.VersionsAgreeOnNonNumericIds` | Classes/Handler/LogoutHandler.php:38 | the loose and the strict comparison differ only when both ids are numeric strings |
| `LogoutHandler.LooseComparisonEndsForeignSession` | Classes/Handler/LogoutHandler.php:38-44 | as written, logging out frontend session `"0e1"` ends backend session `"0e2"`. The corrected hook does not |
| `LogoutHandler.SimulationCookieClearedAfterLogout` | Classes/Handler/LogoutHandler.php:38-46 | after an elevation the backend session carries the frontend session id, so the hook as written ends it on the frontend logout. The hook sets no cookie. In the logout request the middleware sees no frontend user and expires the simulation cookie, and a user agent deletes it |

## Left out

- Database access: the query builder, its default restrictions (deleted, hidden, start and end time) and SQL collation. Username matching is modelled as exact string equality. "The first row" is the first row in sequence order.
- The internals of the TYPO3 session manager, `createUserSession` and the second `BackendUserAuthenticator` pass. They are function inputs, and the handler run inside that pass is not observed separately. The model takes the session id to be unchanged by `createUserSession`.
- The regex engine behind `preg_match`. It is an input that answers no match, a first match, or a malformed pattern.
- Logging: the debug messages, and the critical message on a malformed domain pattern. The latter is only recorded as a flag.
- The `$_COOKIE` superglobal write at BackendUserSimulator.php:124. It affects only code outside the middleware.
- The `Context` aspects, `getIndpEnv` and `TYPO3_CONF_VARS`. They are explicit inputs.
- `Configuration::fromGlobals`. The Configuration class is not part of this model, so the configuration is an input record.
- Two concurrent requests racing through elevation. The code does not guard against it.
- The packaging metadata in ext_emconf.php and the middleware ordering in Configuration/RequestMiddlewares.php. They contain no logic.
- PSR-7 header names are compared exactly; PSR-7 compares them ignoring case. Query parameters are strings, never arrays.
- PHP numeric strings are read with exact decimal values. Double rounding, INF and NaN are not modelled. Trailing whitespace is accepted, as in PHP 8, even though PHP 7.4 rejects it.
- Reading an undefined array key is modelled as null. PHP also emits a warning, which is not modelled.
- `CookieHeader.ReceivedCookie`: the `LastValue` facts are about the cookie-avs as split, not the cookie-attribute-list of section 5.2 of RFC 6265. Of the per-attribute rules of sections 5.2.1 to 5.2.6, only Max-Age (`MaxAge`) and Domain (`DomainAttribute`) are modelled. Expires date parsing and the default-path rule for Path are not modelled. Neither are the checks of section 5.3 against the request host and the public suffix list, nor lower-casing beyond ASCII. The same holds for `CookieHeader.SessionCookieReceived`.
- `CookieHeader.CookieDomain`: the critical log message is modelled as a flag, not as a message text.
- `BackendUserSimulator.SimulationCookieBlocksSecondElevation`: stated for a PHP-truthy session id. A session id `"0"` would be sent back as a cookie that does not block a second elevation; TYPO3's hex session ids are never `"0"`.
- `BackendUserSimulator.ElevationCookiesCarrySessionId`: the parse facts are stated for a non-empty session id, and for a cookie name and session id without `;`, `=` in the name, or surrounding blanks. TYPO3's hex session ids and configured cookie names meet this. With an empty session id the code would send two deletion cookies instead, which the lemma does not describe.

## Findings

| source | as written | input that shows it | evidently intended | confidence | as-written member | corrected member |
|---|---|---|---|---|---|---|
| Classes/Handler/LogoutHandler.php:38 | the frontend and backend session ids are compared with PHP's loose `!=`, which compares two numeric strings as numbers | frontend session id `"0e1"` and backend session id `"0e2"`: both read as zero, so the hook logs off a backend session that was not simulated for this frontend session (`LogoutHandler.LooseComparisonEndsForeignSession`) | only the backend session with the identical id is ended (`!==`), which `LogoutHandler.LogsOffExactly` proves of the corrected hook | not executed; low, since random hex session ids of the form `0e` plus digits are rare | `LogoutHandler.LogoutAsWritten` | `LogoutHandler.Logout` |
