/**
 * Set-Cookie headers written by the middleware (`withSessionCookie` and
 * `getCookieDomain`), and the receiving side: the set-cookie-string
 * parsing algorithm of section 5.2 of RFC 6265 together with
 * the Max-Age rule of section 5.2.2, which decides whether a received cookie
 * is deleted on arrival.
 */
module CookieHeader {
  import opened Basics
  import opened PhpValues

  /** What `preg_match($pattern, $subject, $match)` reports: 0, 1 with `$match[0]`, or `false`. */
  datatype PatternMatch = NoMatch | FirstMatch(text: string) | Malformed

  /** The `$GLOBALS['TYPO3_CONF_VARS']` entries the cookie helpers read. */
  datatype CookieSettings = CookieSettings(
    cookieSecure: int,                     // SYS.cookieSecure, read for truthiness
    cookieHttpOnly: int,                   // SYS.cookieHttpOnly, read for truthiness
    cookieDomain: string,                  // SYS.cookieDomain
    loginTypeDomains: map<string, string>) // <loginType>.cookieDomain, where configured

  /** The `GeneralUtility::getIndpEnv` values the cookie helpers read. */
  datatype Environment = Environment(ssl: bool, sitePath: string, hostOnly: string)

  /** The domain to put on a cookie, and whether a broken domain pattern was logged. */
  datatype ResolvedDomain = ResolvedDomain(domain: string, patternErrorLogged: bool)

  /** Code of the exception raised when HTTPS is forced but the request is plain HTTP. */
  const InsecureCookieError: int := 1254325546

  /** Appended when the value is empty: expires at the epoch and `Max-Age=0`, then a stray ';'. */
  const ExpiredSuffix: string := (";" + ExpiryDate) + (";" + MaxAgeZero) + ";"
  const ExpiryDate: string := " " + "expires" + "=" + EpochDate
  const MaxAgeZero: string := " " + "Max-Age" + "=" + "0"
  /** The earliest date the header names: one second past the epoch. */
  const EpochDate: string := "Thu, 01-Jan-1970 00:00:01 GMT"

  /** The cookie-domain setting in force: a non-empty per-login-type value wins over SYS.cookieDomain. */
  function DomainSetting(settings: CookieSettings, loginType: string): string {
    if loginType in settings.loginTypeDomains && Truthy(settings.loginTypeDomains[loginType])
    then settings.loginTypeDomains[loginType]
    else settings.cookieDomain
  }

  /** A setting that starts with a slash is a regular expression matched against the host. */
  predicate IsPattern(setting: string) {
    Truthy(setting) && setting[0] == '/'
  }

  /** `getCookieDomain($loginType)`. */
  function CookieDomain(settings: CookieSettings, loginType: string, env: Environment,
                        preg: (string, string) -> PatternMatch): (r: ResolvedDomain)
    ensures var setting := DomainSetting(settings, loginType);
      && (r.patternErrorLogged <==> IsPattern(setting) && preg(setting, env.hostOnly) == Malformed)
      && (!Truthy(setting) ==> r.domain == "")
      && (Truthy(setting) && !IsPattern(setting) ==> r.domain == setting)
      && (IsPattern(setting) ==>
            if preg(setting, env.hostOnly).FirstMatch? then r.domain == preg(setting, env.hostOnly).text
            else r.domain == "")
  {
    var setting := DomainSetting(settings, loginType);
    if !Truthy(setting) then ResolvedDomain("", false)
    else if setting[0] == '/' then
      match preg(setting, env.hostOnly)
      case Malformed => ResolvedDomain("", true)
      case NoMatch => ResolvedDomain("", false)
      case FirstMatch(m) => ResolvedDomain(m, false)
    else ResolvedDomain(setting, false)
  }

  /** With a non-empty per-login-type domain configured, SYS.cookieDomain has no influence. */
  lemma LoginTypeDomainOverrides(settings: CookieSettings, global: string, loginType: string,
                                 env: Environment, preg: (string, string) -> PatternMatch)
    requires loginType in settings.loginTypeDomains && Truthy(settings.loginTypeDomains[loginType])
    ensures CookieDomain(settings, loginType, env, preg) == CookieDomain(settings.(cookieDomain := global), loginType, env, preg)
  {
  }

  /** An empty or "0" per-login-type domain is the same as none at all. */
  lemma EmptyLoginTypeDomainIgnored(settings: CookieSettings, loginType: string,
                                    env: Environment, preg: (string, string) -> PatternMatch)
    requires loginType in settings.loginTypeDomains && !Truthy(settings.loginTypeDomains[loginType])
    ensures CookieDomain(settings, loginType, env, preg)
         == CookieDomain(settings.(loginTypeDomains := settings.loginTypeDomains - {loginType}), loginType, env, preg)
  {
  }

  /** HTTPS is forced (cookieSecure is truthy) but the request is plain HTTP. */
  predicate SecureViolation(settings: CookieSettings, env: Environment) {
    settings.cookieSecure != 0 && !env.ssl
  }

  /** The header text, attribute by attribute, exactly as `withSessionCookie` concatenates it. */
  function BuildHeader(name: string, value: string, path: string, secure: bool, httpOnly: bool, domain: string): (r: string)
    ensures var start := name + "=" + value + "; Path=" + path;
      |start| <= |r| && r[..|start|] == start
    ensures value == "" ==> |ExpiredSuffix| <= |r| && r[|r| - |ExpiredSuffix|..] == ExpiredSuffix
    ensures value != "" ==> var tail := "; Domain=" + domain;
      |tail| <= |r| && r[|r| - |tail|..] == tail
  {
    var h := HeaderUpToDomain(name, value, path, secure, httpOnly, domain);
    HeaderStartsAndEnds(name, value, path, secure, httpOnly, domain);
    if value == "" then h + ExpiredSuffix else h
  }

  lemma HeaderStartsAndEnds(name: string, value: string, path: string, secure: bool, httpOnly: bool, domain: string)
    ensures var h := HeaderUpToDomain(name, value, path, secure, httpOnly, domain);
      var start := name + "=" + value + "; Path=" + path;
      var tail := "; Domain=" + domain;
      && |start| + |tail| <= |h| && h[..|start|] == start && h[|h| - |tail|..] == tail
  {
    var start := name + "=" + value + "; Path=" + path;
    var flags := (if secure then "; Secure" else "") + (if httpOnly then "; HttpOnly" else "");
    var tail := "; Domain=" + domain;
    var h := HeaderUpToDomain(name, value, path, secure, httpOnly, domain);
    assert h == start + flags + tail;
    assert (start + flags + tail)[..|start|] == start;
  }

  /** The Path attribute: `/` when a domain is set (PHP truthiness), else the site path. */
  function CookiePath(domain: string, env: Environment): string {
    if Truthy(domain) then "/" else env.sitePath
  }

  /** `withSessionCookie($response, $name, $value, $loginType)`, minus the header append. */
  function SessionCookieHeader(name: string, value: string, loginType: string, settings: CookieSettings,
                               env: Environment, preg: (string, string) -> PatternMatch): (r: Result<string>)
    ensures r.Raised? <==> SecureViolation(settings, env)
    ensures r.Raised? ==> r.code == InsecureCookieError
  {
    var domain := CookieDomain(settings, loginType, env, preg).domain;
    var path := CookiePath(domain, env);
    var secure := settings.cookieSecure != 0 && env.ssl;
    var httpOnly := settings.cookieHttpOnly != 0;
    if settings.cookieSecure != 0 && !env.ssl then Raised(InsecureCookieError)
    else Ok(BuildHeader(name, value, path, secure, httpOnly, domain))
  }

  // ---------------------------------------------------------------------------
  // The receiving side: section 5.2 of RFC 6265.
  // ---------------------------------------------------------------------------

  /** WSP of RFC 5234: space and horizontal tab. */
  predicate IsWsp(c: char) {
    c == ' ' || c == '\t'
  }

  function TrimLeft(s: string): string {
    if |s| > 0 && IsWsp(s[0]) then TrimLeft(s[1..]) else s
  }

  function TrimRight(s: string): string {
    if |s| > 0 && IsWsp(s[|s| - 1]) then TrimRight(s[..|s| - 1]) else s
  }

  function Trim(s: string): string {
    TrimRight(TrimLeft(s))
  }

  lemma {:induction false} FirstOccurrence(s: string, c: char)
    requires c in s
    ensures exists i :: 0 <= i < |s| && s[i] == c && c !in s[..i]
  {
    if s[0] != c {
      var t := s[1..];
      assert s == [s[0]] + t;
      assert c in t;
      FirstOccurrence(t, c);
      var i :| 0 <= i < |t| && t[i] == c && c !in t[..i];
      assert s[i + 1] == c;
      assert s[..i + 1] == [s[0]] + t[..i];
    } else {
      assert c !in s[..0];
    }
  }

  /** Position of the first `c` in `s`. */
  ghost function IndexOf(s: string, c: char): (r: Option<nat>)
    ensures r.None? <==> c !in s
    ensures r.Some? ==> r.value < |s| && s[r.value] == c && c !in s[..r.value]
  {
    if c in s then
      FirstOccurrence(s, c);
      var i :| 0 <= i < |s| && s[i] == c && c !in s[..i];
      Some(i)
    else None
  }

  /** The pieces of `s` between occurrences of `sep`. */
  ghost function SplitOn(s: string, sep: char): (parts: seq<string>)
    ensures |parts| >= 1
    decreases |s|
  {
    match IndexOf(s, sep)
    case None => [s]
    case Some(i) => [s[..i]] + SplitOn(s[i + 1..], sep)
  }

  function JoinWith(parts: seq<string>, sep: char): string
    requires |parts| >= 1
  {
    if |parts| == 1 then parts[0] else parts[0] + [sep] + JoinWith(parts[1..], sep)
  }

  datatype CookieAttribute = CookieAttribute(name: string, value: string)

  /**
   * A set-cookie-string the user agent accepted: its name, its value, and the
   * cookie-avs as split (name and value of each, in order, empty ones included).
   * The per-attribute rules of sections 5.2.1 to 5.2.6 are applied only where a
   * function below says so: the Max-Age rule in `MaxAge`, the Domain rule in
   * `DomainAttribute`.
   */
  datatype ParsedCookie = ParsedCookie(name: string, value: string, attributes: seq<CookieAttribute>)

  /** One cookie-av: split at the first '=', both halves trimmed of WSP. */
  ghost function ParseAttribute(av: string): CookieAttribute {
    match IndexOf(av, '=')
    case None => CookieAttribute(Trim(av), "")
    case Some(i) => CookieAttribute(Trim(av[..i]), Trim(av[i + 1..]))
  }

  ghost function ParseAttributes(avs: seq<string>): seq<CookieAttribute> {
    if |avs| == 0 then [] else [ParseAttribute(avs[0])] + ParseAttributes(avs[1..])
  }

  /** Section 5.2 of RFC 6265; `None` when the user agent ignores the header entirely. */
  ghost function ParseSetCookie(header: string): Option<ParsedCookie> {
    var parts := SplitOn(header, ';');
    match IndexOf(parts[0], '=')
    case None => None
    case Some(i) =>
      var name := Trim(parts[0][..i]);
      if name == "" then None
      else Some(ParsedCookie(name, Trim(parts[0][i + 1..]), ParseAttributes(parts[1..])))
  }

  function LowerChar(c: char): char {
    if 'A' <= c <= 'Z' then (c as int + 32) as char else c
  }

  /** ASCII case-insensitive equality, as attribute names are compared. */
  predicate SameIgnoringCase(a: string, b: string) {
    |a| == |b| && forall k :: 0 <= k < |a| ==> LowerChar(a[k]) == LowerChar(b[k])
  }

  /** Value of the last attribute called `name` (ignoring case). */
  function LastValue(attributes: seq<CookieAttribute>, name: string): Option<string> {
    if |attributes| == 0 then None
    else if SameIgnoringCase(attributes[|attributes| - 1].name, name) then Some(attributes[|attributes| - 1].value)
    else LastValue(attributes[..|attributes| - 1], name)
  }

  /** A Max-Age value section 5.2.2 does not ignore: a digit or '-', then digits only. */
  predicate DeltaSeconds(v: string) {
    |v| >= 1 && (IsDigit(v[0]) || (v[0] == '-' && |v| >= 2)) && AllDigits(v[1..])
  }

  /** The delta-seconds value is zero or negative. */
  predicate NonPositive(v: string)
    requires DeltaSeconds(v)
  {
    v[0] == '-' || forall k :: 0 <= k < |v| ==> v[k] == '0'
  }

  /** Value of the last Max-Age attribute the user agent does not ignore. */
  function MaxAge(attributes: seq<CookieAttribute>): Option<string> {
    if |attributes| == 0 then None
    else
      var a := attributes[|attributes| - 1];
      if SameIgnoringCase(a.name, "Max-Age") && DeltaSeconds(a.value) then Some(a.value)
      else MaxAge(attributes[..|attributes| - 1])
  }

  /** ASCII lower-casing of a whole string. */
  function LowerString(s: string): (r: string)
    ensures |r| == |s| && forall k :: 0 <= k < |s| ==> r[k] == LowerChar(s[k])
  {
    if |s| == 0 then [] else [LowerChar(s[0])] + LowerString(s[1..])
  }

  /** Section 5.2.3: a leading '.' is dropped, then the value is lower-cased. */
  function CookieDomainOf(v: string): string {
    LowerString(if |v| > 0 && v[0] == '.' then v[1..] else v)
  }

  /**
   * The Domain attribute a user agent stores (section 5.2.3, and step 4 of
   * section 5.3): the last Domain cookie-av with a non-empty value, as
   * `CookieDomainOf` rewrites it. An empty cookie-av is ignored.
   */
  function DomainAttribute(attributes: seq<CookieAttribute>): Option<string> {
    if |attributes| == 0 then None
    else
      var a := attributes[|attributes| - 1];
      if SameIgnoringCase(a.name, "Domain") && a.value != "" then Some(CookieDomainOf(a.value))
      else DomainAttribute(attributes[..|attributes| - 1])
  }

  /** No Domain attribute, or an empty one: a host-only cookie (section 5.3, step 6). */
  predicate HostOnly(c: ParsedCookie) {
    var d := DomainAttribute(c.attributes);
    d.None? || d.value == ""
  }

  /**
   * The cookie's expiry-time is the earliest representable date (sections 5.2.2
   * and 5.3 of RFC 6265): the user agent stores nothing, and a cookie it already
   * holds with the same name, domain and path is removed (section 5.3, step 11).
   */
  predicate DeletedOnReceipt(c: ParsedCookie) {
    var m := MaxAge(c.attributes);
    m.Some? && DeltaSeconds(m.value) && NonPositive(m.value)
  }

  /** Neither Max-Age nor Expires: a session cookie (persistent-flag false in section 5.3). */
  predicate SessionOnly(c: ParsedCookie) {
    LastValue(c.attributes, "Max-Age").None? && LastValue(c.attributes, "Expires").None?
  }

  // ---------------------------------------------------------------------------
  // Round trip: what the middleware writes is what a user agent reads.
  // ---------------------------------------------------------------------------

  /** A header fragment that survives the parser: no ';' and no WSP at either end. */
  predicate Clean(s: string) {
    ';' !in s && (|s| == 0 || (!IsWsp(s[0]) && !IsWsp(s[|s| - 1])))
  }

  /** A cookie name the parser gives back unchanged. */
  predicate CleanName(s: string) {
    Clean(s) && s != "" && '=' !in s
  }

  function HeaderParts(name: string, value: string, path: string, secure: bool, httpOnly: bool, domain: string): seq<string> {
    PartsUpToDomain(name, value, path, secure, httpOnly, domain) + ExpiryParts(value)
  }

  /** The cookie-avs the header carries, in order, as the parser returns them. */
  function ExpectedAttributes(value: string, path: string, secure: bool, httpOnly: bool, domain: string): seq<CookieAttribute> {
    FrontAttributes(path, secure, httpOnly, domain) + (if value == "" then ExpiryAttributeList else [])
  }

  lemma {:induction false} JoinSnoc(parts: seq<string>, x: string, sep: char)
    requires |parts| >= 1
    ensures JoinWith(parts + [x], sep) == JoinWith(parts, sep) + [sep] + x
  {
    if |parts| > 1 {
      assert (parts + [x])[1..] == parts[1..] + [x];
      JoinSnoc(parts[1..], x, sep);
    }
  }

  lemma {:induction false} SplitJoin(parts: seq<string>, sep: char)
    requires |parts| >= 1
    requires forall k :: 0 <= k < |parts| ==> sep !in parts[k]
    ensures SplitOn(JoinWith(parts, sep), sep) == parts
  {
    if |parts| > 1 {
      var rest := parts[1..];
      assert forall k :: 0 <= k < |rest| ==> sep !in rest[k] by {
        forall k | 0 <= k < |rest| ensures sep !in rest[k] {
          assert rest[k] == parts[k + 1];
        }
      }
      SplitJoin(rest, sep);
      SplitStep(parts[0], JoinWith(rest, sep), sep);
      assert parts == [parts[0]] + rest;
    } else {
      assert sep !in parts[0];
      assert IndexOf(parts[0], sep).None?;
    }
  }

  /** Splitting at a separator whose left side holds none. */
  lemma SplitStep(a: string, b: string, sep: char)
    requires sep !in a
    ensures SplitOn(a + [sep] + b, sep) == [a] + SplitOn(b, sep)
  {
    var s := a + [sep] + b;
    FirstSplit(a, b, sep);
    assert s[..|a|] == a;
    assert s[|a| + 1..] == b;
  }

  lemma {:induction false} ParseAttributesAppend(a: seq<string>, b: seq<string>)
    ensures ParseAttributes(a + b) == ParseAttributes(a) + ParseAttributes(b)
  {
    if |a| > 0 {
      assert (a + b)[1..] == a[1..] + b;
      ParseAttributesAppend(a[1..], b);
    } else {
      assert a + b == b;
    }
  }

  /** Splitting at the first `c` when the part before it has none. */
  lemma FirstSplit(a: string, b: string, c: char)
    requires c !in a
    ensures IndexOf(a + [c] + b, c) == Some(|a|)
  {
    var s := a + [c] + b;
    assert s[|a|] == c;
  }

  lemma TrimClean(w: string)
    requires |w| == 0 || (!IsWsp(w[0]) && !IsWsp(w[|w| - 1]))
    ensures Trim(w) == w
    ensures Trim([' '] + w) == w
  {
    assert ([' '] + w)[1..] == w;
  }

  lemma ParseNamedAttribute(key: string, v: string)
    requires Clean(key) && key != "" && '=' !in key && Clean(v)
    ensures ParseAttribute([' '] + key + "=" + v) == CookieAttribute(key, v)
  {
    var av := [' '] + key + "=" + v;
    assert av == ([' '] + key) + ['='] + v;
    FirstSplit([' '] + key, v, '=');
    assert av[..|key| + 1] == [' '] + key;
    assert av[|key| + 2..] == v;
    TrimClean(key);
    TrimClean(v);
  }

  lemma ParseFlagAttribute(key: string)
    requires Clean(key) && key != "" && '=' !in key
    ensures ParseAttribute([' '] + key) == CookieAttribute(key, "")
  {
    TrimClean(key);
  }

  /** Appending "; " + piece to a joined header appends one more part. */
  lemma {:induction false} JoinStep(parts: seq<string>, h: string, x: string)
    requires |parts| >= 1 && JoinWith(parts, ';') == h
    ensures JoinWith(parts + [x], ';') == h + ([';'] + x)
  {
    JoinSnoc(parts, x, ';');
  }

  /** The header up to and including the Domain attribute. */
  function HeaderUpToDomain(name: string, value: string, path: string, secure: bool, httpOnly: bool, domain: string): string {
    var h := name + "=" + value;
    var h := h + ("; Path=" + path);
    var h := h + (if secure then "; Secure" else "");
    var h := h + (if httpOnly then "; HttpOnly" else "");
    h + ("; Domain=" + domain)
  }

  /** The attribute pieces up to Domain, each without its leading ';'. */
  function AttributeParts(path: string, secure: bool, httpOnly: bool, domain: string): seq<string> {
    [" Path=" + path]
    + (if secure then [" Secure"] else [])
    + (if httpOnly then [" HttpOnly"] else [])
    + [" Domain=" + domain]
  }

  function ExpiryParts(value: string): seq<string> {
    if value == "" then [ExpiryDate, MaxAgeZero, ""] else []
  }

  function PartsUpToDomain(name: string, value: string, path: string, secure: bool, httpOnly: bool, domain: string): seq<string> {
    [name + "=" + value] + AttributeParts(path, secure, httpOnly, domain)
  }

  lemma FlagPrefix(flag: string)
    ensures "; " + flag == [';'] + ([' '] + flag)
  {
    assert "; " == [';'] + [' '];
  }

  lemma FlagStep(parts: seq<string>, h: string, on: bool, flag: string)
    requires |parts| >= 1 && JoinWith(parts, ';') == h
    ensures JoinWith(parts + (if on then [[' '] + flag] else []), ';') == h + (if on then "; " + flag else "")
  {
    if on {
      JoinStep(parts, h, [' '] + flag);
      FlagPrefix(flag);
    } else {
      assert parts + [] == parts;
    }
  }

  lemma HeaderUpToDomainIsJoin(name: string, value: string, path: string, secure: bool, httpOnly: bool, domain: string)
    ensures HeaderUpToDomain(name, value, path, secure, httpOnly, domain) == JoinWith(PartsUpToDomain(name, value, path, secure, httpOnly, domain), ';')
  {
    var h0 := name + "=" + value;
    var p0 := [h0];
    var h1 := h0 + ("; Path=" + path);
    var p1 := p0 + [" Path=" + path];
    SemicolonSegments(path, domain);
    JoinStep(p0, h0, " Path=" + path);
    var h2 := h1 + (if secure then "; Secure" else "");
    var p2 := p1 + (if secure then [" Secure"] else []);
    FlagStep(p1, h1, secure, "Secure");
    var h3 := h2 + (if httpOnly then "; HttpOnly" else "");
    var p3 := p2 + (if httpOnly then [" HttpOnly"] else []);
    FlagStep(p2, h2, httpOnly, "HttpOnly");
    JoinStep(p3, h3, " Domain=" + domain);
    PartsShape(h0, path, secure, httpOnly, domain);
  }

  /** Each literal segment of the header is ';' followed by the piece the parser sees. */
  lemma SemicolonSegments(path: string, domain: string)
    ensures "; Path=" + path == [';'] + (" Path=" + path)
    ensures "; Domain=" + domain == [';'] + (" Domain=" + domain)
    ensures " Secure" == [' '] + "Secure" && "; Secure" == "; " + "Secure"
    ensures " HttpOnly" == [' '] + "HttpOnly" && "; HttpOnly" == "; " + "HttpOnly"
  {
    assert "; Path=" == [';'] + " Path=";
    assert "; Domain=" == [';'] + " Domain=";
  }

  lemma PartsShape(h0: string, path: string, secure: bool, httpOnly: bool, domain: string)
    ensures [h0] + [" Path=" + path] + (if secure then [" Secure"] else []) + (if httpOnly then [" HttpOnly"] else [])
              + [" Domain=" + domain]
         == [h0] + AttributeParts(path, secure, httpOnly, domain)
  {
  }

  lemma HeaderIsJoin(name: string, value: string, path: string, secure: bool, httpOnly: bool, domain: string)
    ensures BuildHeader(name, value, path, secure, httpOnly, domain) == JoinWith(HeaderParts(name, value, path, secure, httpOnly, domain), ';')
  {
    var h4 := HeaderUpToDomain(name, value, path, secure, httpOnly, domain);
    var p4 := PartsUpToDomain(name, value, path, secure, httpOnly, domain);
    HeaderUpToDomainIsJoin(name, value, path, secure, httpOnly, domain);
    assert BuildHeader(name, value, path, secure, httpOnly, domain) == if value == "" then h4 + ExpiredSuffix else h4;
    assert HeaderParts(name, value, path, secure, httpOnly, domain) == p4 + ExpiryParts(value);
    if value == "" {
      ExpiryIsJoin(p4, h4);
    } else {
      assert p4 + [] == p4;
    }
  }

  /** Appending the expiry suffix to a joined header appends the three expiry parts. */
  lemma ExpiryIsJoin(parts: seq<string>, h: string)
    requires |parts| >= 1 && JoinWith(parts, ';') == h
    ensures JoinWith(parts + ExpiryParts(""), ';') == h + ExpiredSuffix
  {
    JoinThree(parts, h, ExpiryDate, MaxAgeZero, "");
    assert [';'] + "" == ";";
    ConcatAssoc(h, [';'] + ExpiryDate, [';'] + MaxAgeZero, ";");
  }

  lemma ConcatAssoc(h: string, x: string, y: string, z: string)
    ensures h + x + y + z == h + (x + y + z)
  {
  }

  lemma JoinThree(parts: seq<string>, h: string, a: string, b: string, c: string)
    requires |parts| >= 1 && JoinWith(parts, ';') == h
    ensures JoinWith(parts + [a, b, c], ';') == h + ([';'] + a) + ([';'] + b) + ([';'] + c)
  {
    JoinStep(parts, h, a);
    JoinStep(parts + [a], h + ([';'] + a), b);
    JoinStep(parts + [a] + [b], h + ([';'] + a) + ([';'] + b), c);
    SnocThree(parts, a, b, c);
  }

  lemma SnocThree(parts: seq<string>, a: string, b: string, c: string)
    ensures parts + [a] + [b] + [c] == parts + [a, b, c]
  {
    assert [a] + [b] + [c] == [a, b, c];
  }

  /** The parser reads the name-value pair in front of the first ';' and one attribute per further piece. */
  lemma ParseJoinedHeader(name: string, value: string, parts: seq<string>)
    requires CleanName(name) && Clean(value)
    requires |parts| >= 1 && parts[0] == name + "=" + value
    requires forall k :: 0 <= k < |parts| ==> ';' !in parts[k]
    ensures ParseSetCookie(JoinWith(parts, ';')) == Some(ParsedCookie(name, value, ParseAttributes(parts[1..])))
  {
    SplitJoin(parts, ';');
    FirstSplit(name, value, '=');
    assert parts[0] == name + ['='] + value;
    assert parts[0][..|name|] == name;
    assert parts[0][|name| + 1..] == value;
    TrimClean(name);
    TrimClean(value);
  }

  lemma ParseFlagPart(on: bool, flag: string)
    requires Clean(flag) && flag != "" && '=' !in flag
    ensures ParseAttributes(if on then [[' '] + flag] else []) == (if on then [CookieAttribute(flag, "")] else [])
  {
    if on {
      ParseFlagAttribute(flag);
    }
  }

  lemma ParseNamedPart(key: string, v: string)
    requires Clean(key) && key != "" && '=' !in key && Clean(v)
    ensures ParseAttributes([[' '] + key + "=" + v]) == [CookieAttribute(key, v)]
  {
    ParseNamedAttribute(key, v);
  }

  // The literal pieces of the header, each in its own small proof context.

  lemma PathPiece(path: string)
    ensures " Path=" + path == [' '] + "Path" + "=" + path
    ensures Clean("Path") && '=' !in "Path"
  {
  }

  lemma DomainPiece(domain: string)
    ensures " Domain=" + domain == [' '] + "Domain" + "=" + domain
    ensures Clean("Domain") && '=' !in "Domain"
  {
  }

  lemma FlagPieces()
    ensures " Secure" == [' '] + "Secure" && Clean("Secure") && '=' !in "Secure"
    ensures " HttpOnly" == [' '] + "HttpOnly" && Clean("HttpOnly") && '=' !in "HttpOnly"
  {
  }

  lemma ExpiryDatePiece()
    ensures ExpiryDate == [' '] + "expires" + "=" + EpochDate
  {
  }

  lemma ExpiryDateClean()
    ensures Clean("expires") && '=' !in "expires" && Clean(EpochDate)
  {
  }

  lemma MaxAgePiece()
    ensures MaxAgeZero == [' '] + "Max-Age" + "=" + "0"
    ensures Clean("Max-Age") && '=' !in "Max-Age" && Clean("0")
  {
  }

  lemma ParsePathPart(path: string)
    requires Clean(path)
    ensures ParseAttributes([" Path=" + path]) == [CookieAttribute("Path", path)]
  {
    PathPiece(path);
    ParseNamedPart("Path", path);
  }

  lemma ParseDomainPart(domain: string)
    requires Clean(domain)
    ensures ParseAttributes([" Domain=" + domain]) == [CookieAttribute("Domain", domain)]
  {
    DomainPiece(domain);
    ParseNamedPart("Domain", domain);
  }

  lemma ParseFlagParts(secure: bool, httpOnly: bool)
    ensures ParseAttributes(if secure then [" Secure"] else []) == (if secure then [CookieAttribute("Secure", "")] else [])
    ensures ParseAttributes(if httpOnly then [" HttpOnly"] else []) == (if httpOnly then [CookieAttribute("HttpOnly", "")] else [])
  {
    FlagPieces();
    ParseFlagPart(secure, "Secure");
    ParseFlagPart(httpOnly, "HttpOnly");
  }

  lemma AttributesUpToDomain(path: string, secure: bool, httpOnly: bool, domain: string)
    requires Clean(path) && Clean(domain)
    ensures ParseAttributes(AttributeParts(path, secure, httpOnly, domain))
         == [CookieAttribute("Path", path)]
            + (if secure then [CookieAttribute("Secure", "")] else [])
            + (if httpOnly then [CookieAttribute("HttpOnly", "")] else [])
            + [CookieAttribute("Domain", domain)]
  {
    var pathPart := [" Path=" + path];
    var securePart := if secure then [" Secure"] else [];
    var httpOnlyPart := if httpOnly then [" HttpOnly"] else [];
    var domainPart := [" Domain=" + domain];
    assert AttributeParts(path, secure, httpOnly, domain) == pathPart + securePart + httpOnlyPart + domainPart;
    ParseAttributesAppend(pathPart + securePart + httpOnlyPart, domainPart);
    ParseAttributesAppend(pathPart + securePart, httpOnlyPart);
    ParseAttributesAppend(pathPart, securePart);
    ParsePathPart(path);
    ParseDomainPart(domain);
    ParseFlagParts(secure, httpOnly);
  }

  lemma ExpiryAttributes()
    ensures ParseAttributes([ExpiryDate, MaxAgeZero, ""])
         == [CookieAttribute("expires", EpochDate), CookieAttribute("Max-Age", "0"), CookieAttribute("", "")]
  {
    ExpiryDateAttribute();
    MaxAgeAttribute();
    ParseAttributesAppend([ExpiryDate], [MaxAgeZero, ""]);
    ParseAttributesAppend([MaxAgeZero], [""]);
  }

  lemma ExpiryDateAttribute()
    ensures ParseAttribute(ExpiryDate) == CookieAttribute("expires", EpochDate)
  {
    ExpiryDatePiece();
    ExpiryDateClean();
    ParseNamedAttribute("expires", EpochDate);
  }

  lemma MaxAgeAttribute()
    ensures ParseAttribute(MaxAgeZero) == CookieAttribute("Max-Age", "0")
  {
    MaxAgePiece();
    ParseNamedAttribute("Max-Age", "0");
  }

  lemma HeaderAttributes(value: string, path: string, secure: bool, httpOnly: bool, domain: string)
    requires Clean(path) && Clean(domain)
    ensures ParseAttributes(AttributeParts(path, secure, httpOnly, domain) + ExpiryParts(value))
         == ExpectedAttributes(value, path, secure, httpOnly, domain)
  {
    ParseAttributesAppend(AttributeParts(path, secure, httpOnly, domain), ExpiryParts(value));
    AttributesUpToDomain(path, secure, httpOnly, domain);
    if value == "" {
      ExpiryAttributes();
    }
  }

  lemma PartsHaveNoSemicolon(name: string, value: string, path: string, secure: bool, httpOnly: bool, domain: string)
    requires CleanName(name) && Clean(value) && Clean(path) && Clean(domain)
    ensures forall k :: 0 <= k < |HeaderParts(name, value, path, secure, httpOnly, domain)| ==>
              ';' !in HeaderParts(name, value, path, secure, httpOnly, domain)[k]
  {
    var first := name + "=" + value;
    assert ';' !in first;
    var attrs := AttributeParts(path, secure, httpOnly, domain);
    assert forall k :: 0 <= k < |attrs| ==> ';' !in attrs[k] by {
      SemicolonFreePieces(path, domain);
    }
    var expiry := ExpiryParts(value);
    assert forall k :: 0 <= k < |expiry| ==> ';' !in expiry[k] by {
      SemicolonFreeExpiry();
    }
    assert HeaderParts(name, value, path, secure, httpOnly, domain) == [first] + attrs + expiry;
  }

  lemma SemicolonFreePieces(path: string, domain: string)
    requires ';' !in path && ';' !in domain
    ensures ';' !in " Path=" + path && ';' !in " Domain=" + domain
    ensures ';' !in " Secure" && ';' !in " HttpOnly"
  {
  }

  lemma SemicolonFreeExpiry()
    ensures ';' !in ExpiryDate && ';' !in MaxAgeZero
  {
  }

  /** Parsing the header `BuildHeader` writes gives back its name, value and attributes. */
  lemma BuildHeaderRoundTrip(name: string, value: string, path: string, secure: bool, httpOnly: bool, domain: string)
    requires CleanName(name) && Clean(value) && Clean(path) && Clean(domain)
    ensures ParseSetCookie(BuildHeader(name, value, path, secure, httpOnly, domain))
         == Some(ParsedCookie(name, value, ExpectedAttributes(value, path, secure, httpOnly, domain)))
  {
    HeaderIsJoin(name, value, path, secure, httpOnly, domain);
    JoinedPartsRoundTrip(name, value, path, secure, httpOnly, domain);
  }

  lemma TailOfCons(x: string, a: seq<string>, b: seq<string>)
    ensures ([x] + a + b)[0] == x && ([x] + a + b)[1..] == a + b
  {
  }

  /** The round trip on the joined attribute list, without the header string itself. */
  lemma JoinedPartsRoundTrip(name: string, value: string, path: string, secure: bool, httpOnly: bool, domain: string)
    requires CleanName(name) && Clean(value) && Clean(path) && Clean(domain)
    ensures ParseSetCookie(JoinWith(HeaderParts(name, value, path, secure, httpOnly, domain), ';'))
         == Some(ParsedCookie(name, value, ExpectedAttributes(value, path, secure, httpOnly, domain)))
  {
    var parts := HeaderParts(name, value, path, secure, httpOnly, domain);
    var attrs := AttributeParts(path, secure, httpOnly, domain);
    PartsHaveNoSemicolon(name, value, path, secure, httpOnly, domain);
    TailOfCons(name + "=" + value, attrs, ExpiryParts(value));
    ParseJoinedHeader(name, value, parts);
    HeaderAttributes(value, path, secure, httpOnly, domain);
  }

  // ---------------------------------------------------------------------------
  // What a user agent makes of the header.
  // ---------------------------------------------------------------------------

  lemma {:induction false} LastValueAppend(a: seq<CookieAttribute>, b: seq<CookieAttribute>, name: string)
    ensures LastValue(a + b, name) == if LastValue(b, name).Some? then LastValue(b, name) else LastValue(a, name)
  {
    if |b| > 0 {
      assert (a + b)[..|a + b| - 1] == a + b[..|b| - 1];
      LastValueAppend(a, b[..|b| - 1], name);
    } else {
      assert a + b == a;
    }
  }

  lemma {:induction false} MaxAgeAppend(a: seq<CookieAttribute>, b: seq<CookieAttribute>)
    ensures MaxAge(a + b) == if MaxAge(b).Some? then MaxAge(b) else MaxAge(a)
  {
    if |b| > 0 {
      assert (a + b)[..|a + b| - 1] == a + b[..|b| - 1];
      MaxAgeAppend(a, b[..|b| - 1]);
    } else {
      assert a + b == a;
    }
  }

  lemma LastValueSingle(on: bool, key: string, v: string, name: string)
    ensures LastValue(if on then [CookieAttribute(key, v)] else [], name)
         == if on && SameIgnoringCase(key, name) then Some(v) else None
  {
    if on {
      assert [CookieAttribute(key, v)][..0] == [];
    }
  }

  lemma MaxAgeSingle(on: bool, key: string, v: string)
    ensures MaxAge(if on then [CookieAttribute(key, v)] else [])
         == if on && SameIgnoringCase(key, "Max-Age") && DeltaSeconds(v) then Some(v) else None
  {
    if on {
      assert [CookieAttribute(key, v)][..0] == [];
    }
  }

  /** The attributes in front of the expiry ones, as the parser returns them. */
  function FrontAttributes(path: string, secure: bool, httpOnly: bool, domain: string): seq<CookieAttribute> {
    [CookieAttribute("Path", path)]
    + (if secure then [CookieAttribute("Secure", "")] else [])
    + (if httpOnly then [CookieAttribute("HttpOnly", "")] else [])
    + [CookieAttribute("Domain", domain)]
  }

  const ExpiryAttributeList: seq<CookieAttribute> :=
    [CookieAttribute("expires", EpochDate), CookieAttribute("Max-Age", "0"), CookieAttribute("", "")]

  lemma FrontLastValue(path: string, secure: bool, httpOnly: bool, domain: string, name: string)
    ensures LastValue(FrontAttributes(path, secure, httpOnly, domain), name)
         == if SameIgnoringCase("Domain", name) then Some(domain)
            else if httpOnly && SameIgnoringCase("HttpOnly", name) then Some("")
            else if secure && SameIgnoringCase("Secure", name) then Some("")
            else if SameIgnoringCase("Path", name) then Some(path)
            else None
  {
    var p := [CookieAttribute("Path", path)];
    var sf := if secure then [CookieAttribute("Secure", "")] else [];
    var hf := if httpOnly then [CookieAttribute("HttpOnly", "")] else [];
    var d := [CookieAttribute("Domain", domain)];
    LastValueAppend(p + sf + hf, d, name);
    LastValueAppend(p + sf, hf, name);
    LastValueAppend(p, sf, name);
    LastValueSingle(true, "Path", path, name);
    LastValueSingle(secure, "Secure", "", name);
    LastValueSingle(httpOnly, "HttpOnly", "", name);
    LastValueSingle(true, "Domain", domain, name);
  }

  lemma FrontMaxAge(path: string, secure: bool, httpOnly: bool, domain: string)
    ensures MaxAge(FrontAttributes(path, secure, httpOnly, domain)).None?
  {
    var p := [CookieAttribute("Path", path)];
    var sf := if secure then [CookieAttribute("Secure", "")] else [];
    var hf := if httpOnly then [CookieAttribute("HttpOnly", "")] else [];
    var d := [CookieAttribute("Domain", domain)];
    MaxAgeAppend(p + sf + hf, d);
    MaxAgeAppend(p + sf, hf);
    MaxAgeAppend(p, sf);
    MaxAgeSingle(true, "Path", path);
    MaxAgeSingle(secure, "Secure", "");
    MaxAgeSingle(httpOnly, "HttpOnly", "");
    MaxAgeSingle(true, "Domain", domain);
  }

  lemma ExpiryLastValue(name: string)
    ensures LastValue(ExpiryAttributeList, name)
         == if SameIgnoringCase("", name) then Some("")
            else if SameIgnoringCase("Max-Age", name) then Some("0")
            else if SameIgnoringCase("expires", name) then Some(EpochDate)
            else None
  {
    var e := [CookieAttribute("expires", EpochDate)];
    var m := [CookieAttribute("Max-Age", "0")];
    var z := [CookieAttribute("", "")];
    assert ExpiryAttributeList == e + m + z;
    LastValueAppend(e + m, z, name);
    LastValueAppend(e, m, name);
    LastValueSingle(true, "expires", EpochDate, name);
    LastValueSingle(true, "Max-Age", "0", name);
    LastValueSingle(true, "", "", name);
  }

  lemma ExpiryMaxAge()
    ensures MaxAge(ExpiryAttributeList) == Some("0")
  {
    var e := [CookieAttribute("expires", EpochDate)];
    var m := [CookieAttribute("Max-Age", "0")];
    var z := [CookieAttribute("", "")];
    assert ExpiryAttributeList == e + m + z;
    MaxAgeAppend(e + m, z);
    MaxAgeSingle(true, "Max-Age", "0");
    MaxAgeSingle(true, "", "");
    assert SameIgnoringCase("Max-Age", "Max-Age") && DeltaSeconds("0");
  }

  /** How the attribute names of the header compare with the ones a user agent looks for. */
  lemma NameFacts()
    ensures !SameIgnoringCase("Domain", "Secure") && !SameIgnoringCase("HttpOnly", "Secure")
    ensures !SameIgnoringCase("Domain", "HttpOnly")
    ensures !SameIgnoringCase("Domain", "Path") && !SameIgnoringCase("HttpOnly", "Path") && !SameIgnoringCase("Secure", "Path")
    ensures !SameIgnoringCase("Domain", "Max-Age") && !SameIgnoringCase("HttpOnly", "Max-Age")
    ensures !SameIgnoringCase("Secure", "Max-Age") && !SameIgnoringCase("Path", "Max-Age")
    ensures !SameIgnoringCase("Domain", "Expires") && !SameIgnoringCase("HttpOnly", "Expires")
    ensures !SameIgnoringCase("Secure", "Expires") && !SameIgnoringCase("Path", "Expires")
    ensures !SameIgnoringCase("", "Secure") && !SameIgnoringCase("Max-Age", "Secure") && !SameIgnoringCase("expires", "Secure")
    ensures !SameIgnoringCase("", "HttpOnly") && !SameIgnoringCase("Max-Age", "HttpOnly") && !SameIgnoringCase("expires", "HttpOnly")
    ensures !SameIgnoringCase("", "Path") && !SameIgnoringCase("Max-Age", "Path") && !SameIgnoringCase("expires", "Path")
    ensures !SameIgnoringCase("", "Domain") && !SameIgnoringCase("Max-Age", "Domain") && !SameIgnoringCase("expires", "Domain")
  {
    assert LowerChar("Domain"[0]) != LowerChar("Secure"[0]);
  }

  /**
   * The attributes a user agent finds in a header built by `BuildHeader`: an
   * empty value deletes the cookie on arrival, any other value makes a session
   * cookie; Secure, HttpOnly, Path and Domain are the ones written, and the
   * cookie is host-only exactly when the domain is empty.
   */
  lemma ReceivedCookie(name: string, value: string, path: string, secure: bool, httpOnly: bool, domain: string)
    requires CleanName(name) && Clean(value) && Clean(path) && Clean(domain)
    ensures var c := ParseSetCookie(BuildHeader(name, value, path, secure, httpOnly, domain));
      && c.Some? && c.value.name == name && c.value.value == value
      && (DeletedOnReceipt(c.value) <==> value == "")
      && (value != "" ==> SessionOnly(c.value))
      && (LastValue(c.value.attributes, "Secure").Some? <==> secure)
      && (LastValue(c.value.attributes, "HttpOnly").Some? <==> httpOnly)
      && LastValue(c.value.attributes, "Path") == Some(path)
      && LastValue(c.value.attributes, "Domain") == Some(domain)
      && DomainAttribute(c.value.attributes) == (if domain == "" then None else Some(CookieDomainOf(domain)))
      && (HostOnly(c.value) <==> domain == "" || domain == ".")
  {
    BuildHeaderRoundTrip(name, value, path, secure, httpOnly, domain);
    AttributesReceived(name, value, path, secure, httpOnly, domain);
    DomainReceived(name, value, path, secure, httpOnly, domain);
  }

  /** What a user agent reads from the attribute list the header parses to. */
  lemma AttributesReceived(name: string, value: string, path: string, secure: bool, httpOnly: bool, domain: string)
    ensures var c := ParsedCookie(name, value, ExpectedAttributes(value, path, secure, httpOnly, domain));
      && (DeletedOnReceipt(c) <==> value == "")
      && (value != "" ==> SessionOnly(c))
      && (LastValue(c.attributes, "Secure").Some? <==> secure)
      && (LastValue(c.attributes, "HttpOnly").Some? <==> httpOnly)
      && LastValue(c.attributes, "Path") == Some(path)
      && LastValue(c.attributes, "Domain") == Some(domain)
  {
    var front := FrontAttributes(path, secure, httpOnly, domain);
    var attrs := ExpectedAttributes(value, path, secure, httpOnly, domain);
    NameFacts();
    FrontLastValue(path, secure, httpOnly, domain, "Secure");
    FrontLastValue(path, secure, httpOnly, domain, "HttpOnly");
    FrontLastValue(path, secure, httpOnly, domain, "Path");
    FrontLastValue(path, secure, httpOnly, domain, "Domain");
    FrontMaxAge(path, secure, httpOnly, domain);
    if value == "" {
      assert attrs == front + ExpiryAttributeList;
      ExpiryMaxAge();
      MaxAgeAppend(front, ExpiryAttributeList);
      assert NonPositive("0");
      ExpiryLastValue("Secure");
      ExpiryLastValue("HttpOnly");
      ExpiryLastValue("Path");
      ExpiryLastValue("Domain");
      LastValueAppend(front, ExpiryAttributeList, "Secure");
      LastValueAppend(front, ExpiryAttributeList, "HttpOnly");
      LastValueAppend(front, ExpiryAttributeList, "Path");
      LastValueAppend(front, ExpiryAttributeList, "Domain");
    } else {
      assert attrs == front;
      FrontLastValue(path, secure, httpOnly, domain, "Max-Age");
      FrontLastValue(path, secure, httpOnly, domain, "Expires");
    }
  }

  lemma {:induction false} DomainAttributeAppend(a: seq<CookieAttribute>, b: seq<CookieAttribute>)
    ensures DomainAttribute(a + b) == if DomainAttribute(b).Some? then DomainAttribute(b) else DomainAttribute(a)
  {
    if |b| > 0 {
      assert (a + b)[..|a + b| - 1] == a + b[..|b| - 1];
      DomainAttributeAppend(a, b[..|b| - 1]);
    } else {
      assert a + b == a;
    }
  }

  lemma DomainAttributeSingle(on: bool, key: string, v: string)
    ensures DomainAttribute(if on then [CookieAttribute(key, v)] else [])
         == if on && SameIgnoringCase(key, "Domain") && v != "" then Some(CookieDomainOf(v)) else None
  {
    if on {
      assert [CookieAttribute(key, v)][..0] == [];
    }
  }

  lemma FrontDomainAttribute(path: string, secure: bool, httpOnly: bool, domain: string)
    ensures DomainAttribute(FrontAttributes(path, secure, httpOnly, domain)) == if domain == "" then None else Some(CookieDomainOf(domain))
  {
    var p := [CookieAttribute("Path", path)];
    var sf := if secure then [CookieAttribute("Secure", "")] else [];
    var hf := if httpOnly then [CookieAttribute("HttpOnly", "")] else [];
    var d := [CookieAttribute("Domain", domain)];
    NameFacts();
    DomainAttributeAppend(p + sf + hf, d);
    DomainAttributeAppend(p + sf, hf);
    DomainAttributeAppend(p, sf);
    DomainAttributeSingle(true, "Path", path);
    DomainAttributeSingle(secure, "Secure", "");
    DomainAttributeSingle(httpOnly, "HttpOnly", "");
    DomainAttributeSingle(true, "Domain", domain);
    assert SameIgnoringCase("Domain", "Domain");
  }

  lemma ExpiryDomainAttribute()
    ensures DomainAttribute(ExpiryAttributeList).None?
  {
    var e := [CookieAttribute("expires", EpochDate)];
    var m := [CookieAttribute("Max-Age", "0")];
    var z := [CookieAttribute("", "")];
    assert ExpiryAttributeList == e + m + z;
    NameFacts();
    DomainAttributeAppend(e + m, z);
    DomainAttributeAppend(e, m);
    DomainAttributeSingle(true, "expires", EpochDate);
    DomainAttributeSingle(true, "Max-Age", "0");
    DomainAttributeSingle(true, "", "");
  }

  /**
   * The Domain a user agent stores for a cookie built by `BuildHeader`: the
   * given one without a leading '.' and in lower case, or none when it is
   * empty. The cookie is host-only exactly when the domain is "" or ".".
   */
  lemma DomainReceived(name: string, value: string, path: string, secure: bool, httpOnly: bool, domain: string)
    ensures DomainAttribute(ExpectedAttributes(value, path, secure, httpOnly, domain))
         == if domain == "" then None else Some(CookieDomainOf(domain))
    ensures HostOnly(ParsedCookie(name, value, ExpectedAttributes(value, path, secure, httpOnly, domain)))
        <==> domain == "" || domain == "."
  {
    EmptyCookieDomain(domain);
    var front := FrontAttributes(path, secure, httpOnly, domain);
    FrontDomainAttribute(path, secure, httpOnly, domain);
    if value == "" {
      assert ExpectedAttributes(value, path, secure, httpOnly, domain) == front + ExpiryAttributeList;
      ExpiryDomainAttribute();
      DomainAttributeAppend(front, ExpiryAttributeList);
    } else {
      assert ExpectedAttributes(value, path, secure, httpOnly, domain) == front;
    }
  }

  /** A leading-dot domain in mixed case is stored without the dot, in lower case. */
  lemma LeadingDotDropped()
    ensures DomainAttribute([CookieAttribute("Domain", ".Ab")]) == Some("ab")
  {
    var a := [CookieAttribute("Domain", ".Ab")];
    assert a[..0] == [];
    assert SameIgnoringCase("Domain", "Domain");
    assert ".Ab"[1..] == "Ab";
    assert LowerString("Ab") == "ab" by {
      assert LowerString("b") == "b";
    }
  }

  /** Only "" and "." leave nothing once the leading '.' is dropped. */
  lemma EmptyCookieDomain(v: string)
    ensures CookieDomainOf(v) == "" <==> v == "" || v == "."
  {
    if |v| > 0 && v[0] == '.' && |v| == 1 {
      assert v == ".";
    }
  }

  /**
   * `withSessionCookie` either raises (HTTPS forced over plain HTTP, so no
   * Secure cookie ever goes out in clear) or writes a header that a user agent
   * reads back as the intended cookie.
   */
  lemma SessionCookieReceived(name: string, value: string, loginType: string, settings: CookieSettings,
                              env: Environment, preg: (string, string) -> PatternMatch)
    requires CleanName(name) && Clean(value)
    requires Clean(CookieDomain(settings, loginType, env, preg).domain) && Clean(env.sitePath)
    ensures var r := SessionCookieHeader(name, value, loginType, settings, env, preg);
      var domain := CookieDomain(settings, loginType, env, preg).domain;
      r.Ok? ==>
        var c := ParseSetCookie(r.value);
        && c.Some? && c.value.name == name && c.value.value == value
        && (DeletedOnReceipt(c.value) <==> value == "")
        && (value != "" ==> SessionOnly(c.value))
        && (LastValue(c.value.attributes, "Secure").Some? <==> settings.cookieSecure != 0 && env.ssl)
        && (LastValue(c.value.attributes, "Secure").Some? ==> env.ssl)
        && (LastValue(c.value.attributes, "HttpOnly").Some? <==> settings.cookieHttpOnly != 0)
        && LastValue(c.value.attributes, "Domain") == Some(domain)
        && DomainAttribute(c.value.attributes) == (if domain == "" then None else Some(CookieDomainOf(domain)))
        && (HostOnly(c.value) <==> domain == "" || domain == ".")
        && LastValue(c.value.attributes, "Path") == Some(if Truthy(domain) then "/" else env.sitePath)
  {
    var domain := CookieDomain(settings, loginType, env, preg).domain;
    var path := CookiePath(domain, env);
    CookiePathClean(domain, env);
    SessionCookieIsBuilt(name, value, loginType, settings, env, preg);
    ReceivedCookie(name, value, path, settings.cookieSecure != 0 && env.ssl, settings.cookieHttpOnly != 0, domain);
  }

  lemma CookiePathClean(domain: string, env: Environment)
    requires Clean(env.sitePath)
    ensures Clean(CookiePath(domain, env))
  {
    if Truthy(domain) {
      assert CookiePath(domain, env) == "/";
    }
  }

  /** A header that is written is `BuildHeader` applied to the resolved settings. */
  lemma SessionCookieIsBuilt(name: string, value: string, loginType: string, settings: CookieSettings,
                             env: Environment, preg: (string, string) -> PatternMatch)
    ensures var r := SessionCookieHeader(name, value, loginType, settings, env, preg);
      var domain := CookieDomain(settings, loginType, env, preg).domain;
      r.Ok? ==> r.value == BuildHeader(name, value, CookiePath(domain, env), settings.cookieSecure != 0 && env.ssl,
                                       settings.cookieHttpOnly != 0, domain)
  {
  }
}
