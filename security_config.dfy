/**
 * SecurityConfig: the open-redirect guard isUrlSafe and the
 * authentication-success handler that ends an OIDC login by redirecting to
 * the frontend's /auth-callback, carrying the post-login target only when
 * the guard accepts it.
 */
module SecurityConfig {
  import opened Wrappers
  import opened JavaText
  import opened WebContext
  import UrlCodec
  import JavaUri
  import FrontendUrlUtils
  import AuthController

  /** The origin isUrlSafe compares: scheme, "://" and the decoded authority, null parts spelt "null". */
  function OriginOf(u: JavaUri.Uri): string {
    Str(u.scheme) + "://" + Str(u.DecodedAuthority())
  }

  /**
   * The fallback when CORS_ALLOWED_ORIGINS is blank: the host must be the
   * default frontend URL's host, or localhost; an unparsable default
   * refuses everything.
   */
  predicate FallbackAdmits(host: string, cfg: FrontendConfig) {
    match JavaUri.Parse(cfg.defaultFrontendUrl)
    case None => false
    case Some(d) => d.host.Some? && (d.host.value == host || host == "localhost")
  }

  /** isUrlSafe as written: a URL whose parsed host is null is accepted without further checks. */
  predicate IsUrlSafe(url: string, cfg: FrontendConfig) {
    match JavaUri.Parse(url)
    case None => false
    case Some(u) =>
      if u.host.None? then true
      else if IsBlank(cfg.corsAllowedOrigins) then FallbackAdmits(u.host.value, cfg)
      else FrontendUrlUtils.AnyEntryAdmits(OriginOf(u), Split(cfg.corsAllowedOrigins, ','))
  }

  /** A reference with neither scheme nor authority: it stays on the origin it is resolved against. */
  predicate IsRelativeReference(u: JavaUri.Uri) {
    u.scheme.None? && u.authority.None?
  }

  /** isUrlSafe corrected: only a relative reference may go without a host check. */
  predicate IsUrlSafeFixed(url: string, cfg: FrontendConfig) {
    match JavaUri.Parse(url)
    case None => false
    case Some(u) =>
      if u.host.None? then IsRelativeReference(u)
      else if IsBlank(cfg.corsAllowedOrigins) then FallbackAdmits(u.host.value, cfg)
      else FrontendUrlUtils.AnyEntryAdmits(OriginOf(u), Split(cfg.corsAllowedOrigins, ','))
  }

  /**
   * With an allow-list configured, a URL that has a host is safe exactly
   * when its origin passes the same allow-list check the CORS and Referer
   * code uses; an unparsable URL is never safe.
   */
  lemma UrlSafeIsOriginAllowed(url: string, cfg: FrontendConfig)
    ensures JavaUri.Parse(url).None? ==> !IsUrlSafe(url, cfg) && !IsUrlSafeFixed(url, cfg)
    ensures JavaUri.Parse(url).Some? && JavaUri.Parse(url).value.host.Some? && !IsBlank(cfg.corsAllowedOrigins) ==>
      (IsUrlSafe(url, cfg) <==> FrontendUrlUtils.IsOriginAllowed(OriginOf(JavaUri.Parse(url).value), cfg.corsAllowedOrigins))
  {
  }

  /**
   * With no allow-list, a URL with a host is safe exactly when the default
   * frontend URL parses with a host, and the URL's host is that host or
   * localhost.
   */
  lemma UrlSafeFallback(url: string, cfg: FrontendConfig)
    requires IsBlank(cfg.corsAllowedOrigins)
    requires JavaUri.Parse(url).Some? && JavaUri.Parse(url).value.host.Some?
    ensures var host := JavaUri.Parse(url).value.host.value;
      var d := JavaUri.Parse(cfg.defaultFrontendUrl);
      IsUrlSafe(url, cfg) <==> d.Some? && d.value.host.Some? && (d.value.host.value == host || host == "localhost")
  {
  }

  /** The corrected guard accepts only what the written one accepts, and agrees with it whenever there is a host. */
  lemma FixedGuardStricter(url: string, cfg: FrontendConfig)
    ensures IsUrlSafeFixed(url, cfg) ==> IsUrlSafe(url, cfg)
    ensures JavaUri.Parse(url).Some? && JavaUri.Parse(url).value.host.Some? ==>
      (IsUrlSafeFixed(url, cfg) <==> IsUrlSafe(url, cfg))
  {
  }

  /**
   * What the guard is meant to promise: an accepted URL is a relative
   * reference, or its host passed the allow-list (or the blank-list
   * fallback).
   */
  lemma FixedGuardIntended(url: string, cfg: FrontendConfig)
    requires IsUrlSafeFixed(url, cfg)
    ensures JavaUri.Parse(url).Some?
    ensures var u := JavaUri.Parse(url).value;
      IsRelativeReference(u)
      || (u.host.Some? && !IsBlank(cfg.corsAllowedOrigins) && FrontendUrlUtils.IsOriginAllowed(OriginOf(u), cfg.corsAllowedOrigins))
      || (u.host.Some? && IsBlank(cfg.corsAllowedOrigins) && FallbackAdmits(u.host.value, cfg))
  {
  }

  /** The parse of an opaque URI scheme ":" rest: a scheme and nothing else the guard reads. */
  lemma OpaqueParse(s: string, k: nat)
    requires 1 <= k && k + 1 < |s| && s[k] == ':' && JavaUri.IsAlpha(s[0])
    requires forall i :: 1 <= i < k ==> JavaUri.Allowed(JavaUri.SchemeChars, s[i])
    requires s[k + 1] != '/'
    requires forall i :: k < i < |s| ==> JavaUri.Allowed(JavaUri.UricChars, s[i]) && s[i] != '#' && s[i] != '%'
    ensures JavaUri.Parse(s) == Some(JavaUri.Uri(Some(s[..k]), None, None, None, JavaUri.NoPort, None, None, None))
  {
    var p := JavaUri.FindAny(s, 0, |s|, ":/?#");
    assert p == k;
    OpaqueRest(s, k);
  }

  /** The scheme-specific part of an opaque URI: no authority, host, path or fragment. */
  lemma OpaqueRest(s: string, k: nat)
    requires 1 <= k && k + 1 < |s| && s[k + 1] != '/'
    requires forall i :: k < i < |s| ==> JavaUri.Allowed(JavaUri.UricChars, s[i]) && s[i] != '#'
    ensures JavaUri.ParseRest(s, Some(s[..k]), k + 1)
         == Some(JavaUri.Uri(Some(s[..k]), None, None, None, JavaUri.NoPort, None, None, None))
  {
    var q := JavaUri.FindAny(s, k + 1, |s|, "#");
    assert q == |s|;
  }

  /** The parse of a path that starts with a single '/': no scheme, no authority, no host. */
  lemma RelativePathParse(s: string)
    requires |s| >= 1 && s[0] == '/' && (|s| == 1 || s[1] != '/')
    requires JavaUri.WellEscaped(s)
    requires forall i :: 0 <= i < |s| ==> JavaUri.Allowed(JavaUri.PathChars, s[i]) && s[i] != '?' && s[i] != '#'
    ensures JavaUri.Parse(s) == Some(JavaUri.Uri(None, None, None, None, JavaUri.NoPort, Some(s), None, None))
  {
    var q := JavaUri.FindAny(s, 0, |s|, "?#");
    assert q == |s|;
    assert s[0..|s|] == s;
  }

  /** Both guards accept a same-site path such as /dashboard, whatever the configuration. */
  lemma GuardsAcceptRelativePath(s: string, cfg: FrontendConfig)
    requires |s| >= 1 && s[0] == '/' && (|s| == 1 || s[1] != '/')
    requires JavaUri.WellEscaped(s)
    requires forall i :: 0 <= i < |s| ==> JavaUri.Allowed(JavaUri.PathChars, s[i]) && s[i] != '?' && s[i] != '#'
    ensures IsUrlSafe(s, cfg) && IsUrlSafeFixed(s, cfg)
  {
    RelativePathParse(s);
  }

  /**
   * The written guard accepts https:evil.com, an absolute URI whose host is
   * null, under every configuration; the corrected guard refuses it.
   */
  lemma OpaqueUrlPassesGuard(url: string, cfg: FrontendConfig)
    requires url == "https:evil.com"
    ensures JavaUri.Parse(url).Some? && JavaUri.Parse(url).value.scheme == Some("https")
    ensures IsUrlSafe(url, cfg)
    ensures !IsUrlSafeFixed(url, cfg)
  {
    OpaqueParse(url, 5);
    assert url[..5] == "https";
  }

  /** The name of the query parameter the handler looks for. */
  const ReturnToKey: string := "return_to="

  /** A return_to read from a query: none, a decoded value, or one URLDecoder rejects. */
  datatype Extracted = Absent | Value(v: string) | Undecodable

  /** The value of the first parameter starting with return_to=, URL-decoded. */
  function ReturnToParam(params: seq<string>): (r: Extracted)
    ensures r == Absent <==> forall k :: 0 <= k < |params| ==> !StartsWith(params[k], ReturnToKey)
  {
    if params == [] then Absent
    else if StartsWith(params[0], ReturnToKey) then
      match UrlCodec.Decode(params[0][|ReturnToKey|..])
      case Some(v) => Value(v)
      case None => Undecodable
    else
      var rest := ReturnToParam(params[1..]);
      assert forall k :: 1 <= k < |params| ==> params[k] == params[1..][k - 1];
      rest
  }

  /**
   * The return_to carried by a saved request's URL: read from the raw query
   * split at '&', when the URL has a '?' and mentions return_to= anywhere.
   */
  function ReturnToInSavedUrl(savedUrl: string): Extracted {
    match SavedQueryParams(savedUrl)
    case None => Absent
    case Some(params) => ReturnToParam(params)
  }

  /** The parameters the handler scans: none without a '?' or without return_to= anywhere in the URL. */
  function SavedQueryParams(savedUrl: string): Option<seq<string>> {
    var queryStart := IndexOf(savedUrl, '?', 0);
    if queryStart == |savedUrl| || !Contains(savedUrl, ReturnToKey) then None
    else Some(Split(savedUrl[queryStart + 1..], '&'))
  }

  /** The handler's loop over the query's parameters, stopping at the first return_to. */
  method FirstReturnTo(params: seq<string>) returns (r: Extracted)
    ensures r == ReturnToParam(params)
  {
    r := Absent;
    var i := 0;
    while i < |params|
      invariant 0 <= i <= |params|
      invariant r == Absent
      invariant ReturnToParam(params[i..]) == ReturnToParam(params)
    {
      if StartsWith(params[i], ReturnToKey) {
        var decoded := UrlCodec.Decode(params[i][|ReturnToKey|..]);
        r := if decoded.Some? then Value(decoded.value) else Undecodable;
        assert params[i..][0] == params[i];
        break;
      }
      assert params[i..][1..] == params[i + 1..];
      i := i + 1;
    }
  }

  /** The handler's reading of a saved request's URL: the query after the first '?', split at '&'. */
  method ExtractReturnTo(savedUrl: string) returns (r: Extracted)
    ensures r == ReturnToInSavedUrl(savedUrl)
  {
    var params := QueryParams(savedUrl);
    if params.None? {
      r := Absent;
    } else {
      r := FirstReturnTo(params.value);
    }
  }

  /** The handler's split of a saved request's query, when it has one that may carry return_to. */
  method QueryParams(savedUrl: string) returns (params: Option<seq<string>>)
    ensures params == SavedQueryParams(savedUrl)
  {
    var queryStart := IndexOf(savedUrl, '?', 0);
    if queryStart == |savedUrl| || !Contains(savedUrl, ReturnToKey) {
      params := None;
    } else {
      params := Some(Split(savedUrl[queryStart + 1..], '&'));
    }
  }

  /** After a '?'-free prefix, the first '?' starts the query. */
  lemma QueryAfterBase(base: string, query: string)
    requires '?' !in base
    ensures IndexOf(base + "?" + query, '?', 0) == |base|
    ensures (base + "?" + query)[|base| + 1..] == query
  {
    var url := base + "?" + query;
    assert url[|base|] == '?';
    assert forall k :: 0 <= k < |base| ==> url[k] == base[k];
  }

  /** A query that starts with return_to= makes the whole URL mention it. */
  lemma MentionsKey(base: string, query: string)
    requires StartsWith(query, ReturnToKey)
    ensures Contains(base + "?" + query, ReturnToKey)
  {
    var url := base + "?" + query;
    assert url[|base| + 1..|base| + 1 + |ReturnToKey|] == query[..|ReturnToKey|];
    assert OccursAt(url, |base| + 1, ReturnToKey);
  }

  /** When the query after a '?'-free prefix starts with return_to=, the handler reads its parameters. */
  lemma SavedUrlParams(base: string, query: string)
    requires '?' !in base
    requires StartsWith(query, ReturnToKey)
    ensures ReturnToInSavedUrl(base + "?" + query) == ReturnToParam(Split(query, '&'))
  {
    QueryAfterBase(base, query);
    MentionsKey(base, query);
  }

  /** A non-empty '&'-free first parameter is the first piece of the split. */
  lemma FirstParam(param: string, rest: string)
    requires param != "" && '&' !in param
    requires rest == "" || rest[0] == '&'
    ensures |Split(param + rest, '&')| > 0 && Split(param + rest, '&')[0] == param
  {
    var query := param + rest;
    assert forall k :: 0 <= k < |param| ==> query[k] == param[k];
    assert |param| < |query| ==> query[|param|] == '&';
    var j := IndexOf(query, '&', 0);
    assert j == |param|;
    assert query[..j] == param;
    SplitHead(query, '&');
  }

  /** A string that begins with return_to= still does with anything after it. */
  lemma KeyStarts(e: string, rest: string)
    ensures StartsWith(ReturnToKey + e + rest, ReturnToKey)
  {
    assert (ReturnToKey + e + rest)[..|ReturnToKey|] == ReturnToKey;
  }

  /** URLEncoder's output has no '&' in it, so neither has the parameter it makes. */
  lemma EncodedParamHasNoAmpersand(v: string)
    ensures '&' !in ReturnToKey + UrlCodec.Encode(v)
  {
    var e := UrlCodec.Encode(v);
    assert '&' !in e by {
      assert forall k :: 0 <= k < |e| ==> e[k] != '&';
    }
    assert '&' !in ReturnToKey;
  }

  /** The first return_to parameter of a query, URL-decoded. */
  lemma DecodeFirstParam(params: seq<string>, e: string, v: string)
    requires UrlCodec.Decode(e) == Some(v)
    requires |params| > 0 && params[0] == ReturnToKey + e
    ensures ReturnToParam(params) == Value(v)
  {
    assert params[0][..|ReturnToKey|] == ReturnToKey;
    assert params[0][|ReturnToKey|..] == e;
  }

  /**
   * A return_to written with URLEncoder as the first query parameter is
   * read back unchanged, whatever parameters follow it.
   */
  lemma ReturnToRoundTrip(base: string, v: string, rest: string)
    requires '?' !in base
    requires UrlCodec.IsAscii(v)
    requires rest == "" || rest[0] == '&'
    ensures ReturnToInSavedUrl(base + "?" + ReturnToKey + UrlCodec.Encode(v) + rest) == Value(v)
  {
    var e := UrlCodec.Encode(v);
    SavedUrlReadsQuery(base, e, rest);
    EncodedParamHasNoAmpersand(v);
    UrlCodec.DecodeEncode(v);
    QueryReadsBack(e, v, rest);
  }

  /** The handler reads the parameters of a query that starts with return_to=. */
  lemma SavedUrlReadsQuery(base: string, e: string, rest: string)
    requires '?' !in base
    ensures ReturnToInSavedUrl(base + "?" + ReturnToKey + e + rest)
         == ReturnToParam(Split(ReturnToKey + e + rest, '&'))
  {
    var query := ReturnToKey + e + rest;
    assert base + "?" + ReturnToKey + e + rest == base + "?" + query;
    KeyStarts(e, rest);
    SavedUrlParams(base, query);
  }

  /** A query whose first parameter is return_to= and a decodable '&'-free value yields that value. */
  lemma QueryReadsBack(e: string, v: string, rest: string)
    requires '&' !in ReturnToKey + e && UrlCodec.Decode(e) == Some(v)
    requires rest == "" || rest[0] == '&'
    ensures ReturnToParam(Split(ReturnToKey + e + rest, '&')) == Value(v)
  {
    var param := ReturnToKey + e;
    FirstParam(param, rest);
    DecodeFirstParam(Split(param + rest, '&'), e, v);
  }

  /** The callback URL's return_to reads back as the target it was built from. */
  lemma CallbackReadsBack(frontend: string, v: string)
    requires '?' !in frontend
    requires UrlCodec.IsAscii(v)
    ensures ReturnToInSavedUrl(CallbackUrl(frontend, Some(v))) == Value(v)
  {
    var base := frontend + "/auth-callback";
    assert '?' !in base;
    assert CallbackUrl(frontend, Some(v)) == base + "?" + ReturnToKey + UrlCodec.Encode(v) + "";
    ReturnToRoundTrip(base, v, "");
  }

  /** Which isUrlSafe the handler applies: the code's, or the corrected one. */
  datatype Guard = AsWritten | Corrected

  predicate Safe(g: Guard, url: string, cfg: FrontendConfig) {
    match g
    case AsWritten => IsUrlSafe(url, cfg)
    case Corrected => IsUrlSafeFixed(url, cfg)
  }

  /** The handler's response: a redirect, or the exception URLDecoder throws on a malformed escape. */
  datatype HandlerOutcome = RedirectTo(url: string) | DecodeError

  /** The frontend the handler returns to: the saved one, else the default. */
  function FrontendAfterLogin(cfg: FrontendConfig, attrs: map<string, string>): string {
    if OriginalFrontendUrl in attrs then attrs[OriginalFrontendUrl] else cfg.defaultFrontendUrl
  }

  /** The candidate target: redirect_after_login when set, else the saved request's return_to. */
  function TargetCandidate(attrs: map<string, string>, savedRequestUrl: Option<string>): Extracted {
    if RedirectAfterLogin in attrs then Value(attrs[RedirectAfterLogin])
    else match savedRequestUrl
      case None => Absent
      case Some(u) => ReturnToInSavedUrl(u)
  }

  /** The target placed in the redirect: a non-blank candidate the guard accepts. */
  function AcceptedTarget(g: Guard, cfg: FrontendConfig, candidate: Extracted): (t: Option<string>)
    ensures t.Some? ==> candidate == Value(t.value) && !IsBlank(t.value) && Safe(g, t.value, cfg)
    ensures t.None? ==> !candidate.Value? || IsBlank(candidate.v) || !Safe(g, candidate.v, cfg)
  {
    if candidate.Value? && !IsBlank(candidate.v) && Safe(g, candidate.v, cfg) then Some(candidate.v) else None
  }

  /** The handler with a session: its outcome and the attributes afterwards (both keys consumed). */
  function HandlerSpec(g: Guard, cfg: FrontendConfig, attrs: map<string, string>, savedRequestUrl: Option<string>): (HandlerOutcome, map<string, string>)
  {
    var after := attrs - {OriginalFrontendUrl, RedirectAfterLogin};
    var candidate := TargetCandidate(attrs, savedRequestUrl);
    if candidate.Undecodable? then (DecodeError, after)
    else (RedirectTo(CallbackUrl(FrontendAfterLogin(cfg, attrs), AcceptedTarget(g, cfg, candidate))), after)
  }

  /** Reads the saved frontend URL (else the default) and removes it from the session. */
  method TakeFrontendUrl(cfg: FrontendConfig, session: Session) returns (frontend: string)
    modifies session
    ensures frontend == FrontendAfterLogin(cfg, old(session.attributes))
    ensures session.attributes == old(session.attributes) - {OriginalFrontendUrl}
  {
    var saved := session.GetAttribute(OriginalFrontendUrl);
    frontend := if saved.Some? then saved.value else cfg.defaultFrontendUrl;
    if saved.Some? {
      session.RemoveAttribute(OriginalFrontendUrl);
    }
  }

  /** Reads redirect_after_login (removing it), else the saved request's return_to. */
  method TakeTarget(session: Session, savedRequestUrl: Option<string>) returns (candidate: Extracted)
    modifies session
    ensures candidate == TargetCandidate(old(session.attributes), savedRequestUrl)
    ensures session.attributes == old(session.attributes) - {RedirectAfterLogin}
  {
    var explicit := session.GetAttribute(RedirectAfterLogin);
    if explicit.Some? {
      candidate := Value(explicit.value);
      session.RemoveAttribute(RedirectAfterLogin);
      return;
    }
    assert session.attributes - {RedirectAfterLogin} == session.attributes;
    if savedRequestUrl.Some? {
      candidate := ExtractReturnTo(savedRequestUrl.value);
    } else {
      candidate := Absent;
    }
  }

  /** The callback URL, with the target appended only when it is non-blank and isUrlSafe accepts it. */
  method BuildRedirect(cfg: FrontendConfig, frontend: string, candidate: Extracted) returns (redirectUrl: string)
    ensures redirectUrl == CallbackUrl(frontend, AcceptedTarget(AsWritten, cfg, candidate))
  {
    redirectUrl := frontend + "/auth-callback";
    if candidate.Value? && !IsBlank(candidate.v) {
      if IsUrlSafe(candidate.v, cfg) {
        redirectUrl := redirectUrl + "?return_to=" + UrlCodec.Encode(candidate.v);
      }
    }
  }

  /**
   * The authentication-success handler. A missing session sends the user to
   * the default frontend's callback; otherwise the saved frontend and
   * redirect_after_login are consumed, a saved request's return_to is the
   * fallback, and the target goes into the redirect only if isUrlSafe
   * accepts it. The saved request's URL is a parameter.
   */
  method OnAuthenticationSuccess(cfg: FrontendConfig, session: Session?, savedRequestUrl: Option<string>) returns (outcome: HandlerOutcome)
    modifies session
    ensures session == null ==> outcome == RedirectTo(CallbackUrl(cfg.defaultFrontendUrl, None))
    ensures session != null ==> (outcome, session.attributes) == HandlerSpec(AsWritten, cfg, old(session.attributes), savedRequestUrl)
  {
    if session == null {
      return RedirectTo(cfg.defaultFrontendUrl + "/auth-callback");
    }
    ghost var attrs := session.attributes;
    var frontend := TakeFrontendUrl(cfg, session);
    var candidate := TakeTarget(session, savedRequestUrl);
    assert candidate == TargetCandidate(attrs, savedRequestUrl);
    assert session.attributes == attrs - {OriginalFrontendUrl, RedirectAfterLogin};
    if candidate.Undecodable? {
      return DecodeError;
    }
    var redirectUrl := BuildRedirect(cfg, frontend, candidate);
    return RedirectTo(redirectUrl);
  }

  /** The handler consumes both attributes and keeps every other one as it was. */
  lemma HandlerConsumesAttributes(g: Guard, cfg: FrontendConfig, attrs: map<string, string>, savedRequestUrl: Option<string>)
    ensures var after := HandlerSpec(g, cfg, attrs, savedRequestUrl).1;
      after.Keys == attrs.Keys - {OriginalFrontendUrl, RedirectAfterLogin}
      && forall k :: k in after ==> after[k] == attrs[k]
  {
  }

  /**
   * A redirect goes to the saved (else default) frontend's callback, and a
   * return_to in it is one the guard accepted.
   */
  lemma HandlerRedirectIsGuarded(g: Guard, cfg: FrontendConfig, attrs: map<string, string>, savedRequestUrl: Option<string>)
    ensures var outcome := HandlerSpec(g, cfg, attrs, savedRequestUrl).0;
      var t := AcceptedTarget(g, cfg, TargetCandidate(attrs, savedRequestUrl));
      outcome.RedirectTo? ==>
        outcome.url == CallbackUrl(FrontendAfterLogin(cfg, attrs), t)
        && (t.Some? ==> !IsBlank(t.value) && Safe(g, t.value, cfg))
    ensures HandlerSpec(g, cfg, attrs, savedRequestUrl).0 == DecodeError <==>
      TargetCandidate(attrs, savedRequestUrl) == Undecodable
  {
  }

  /** The return_to in the handler's redirect reads back as the accepted target. */
  lemma HandlerReturnToReadsBack(g: Guard, cfg: FrontendConfig, attrs: map<string, string>, savedRequestUrl: Option<string>)
    requires '?' !in FrontendAfterLogin(cfg, attrs)
    ensures var outcome := HandlerSpec(g, cfg, attrs, savedRequestUrl).0;
      var t := AcceptedTarget(g, cfg, TargetCandidate(attrs, savedRequestUrl));
      outcome.RedirectTo? && t.Some? && UrlCodec.IsAscii(t.value) ==>
        ReturnToInSavedUrl(outcome.url) == Value(t.value)
  {
    var outcome := HandlerSpec(g, cfg, attrs, savedRequestUrl).0;
    var t := AcceptedTarget(g, cfg, TargetCandidate(attrs, savedRequestUrl));
    if outcome.RedirectTo? && t.Some? && UrlCodec.IsAscii(t.value) {
      HandlerRedirectIsGuarded(g, cfg, attrs, savedRequestUrl);
      CallbackReadsBack(FrontendAfterLogin(cfg, attrs), t.value);
    }
  }

  /**
   * Login followed by the handler: the user lands on the frontend the login
   * request resolved, with the return_to given at login exactly when the
   * guard accepts it; login itself never checks it.
   */
  lemma LoginThenHandler(g: Guard, cfg: FrontendConfig, attrs: map<string, string>, req: LoginRequest, savedRequestUrl: Option<string>)
    requires req.returnTo.Some? && !IsBlank(req.returnTo.value)
    ensures var (loginUrl, afterLogin) := AuthController.LoginOutcome(cfg, attrs, req);
      var (outcome, afterHandler) := HandlerSpec(g, cfg, afterLogin, savedRequestUrl);
      var target := req.returnTo.value;
      outcome == RedirectTo(CallbackUrl(AuthController.FrontendUrlChain(cfg, attrs, req).0,
                                        if Safe(g, target, cfg) then Some(target) else None))
      && OriginalFrontendUrl !in afterHandler && RedirectAfterLogin !in afterHandler
  {
    AuthController.ChainPriority(cfg, attrs, req);
  }

  /**
   * With the corrected guard, a return_to that reaches the frontend is a
   * relative reference or names an allow-listed origin (or, with no list,
   * the default frontend's host or localhost).
   */
  lemma CorrectedHandlerRedirectsSafely(cfg: FrontendConfig, attrs: map<string, string>, savedRequestUrl: Option<string>)
    ensures var t := AcceptedTarget(Corrected, cfg, TargetCandidate(attrs, savedRequestUrl));
      t.Some? ==>
        JavaUri.Parse(t.value).Some? &&
        (var u := JavaUri.Parse(t.value).value;
         IsRelativeReference(u)
         || (u.host.Some? && !IsBlank(cfg.corsAllowedOrigins) && FrontendUrlUtils.IsOriginAllowed(OriginOf(u), cfg.corsAllowedOrigins))
         || (u.host.Some? && IsBlank(cfg.corsAllowedOrigins) && FallbackAdmits(u.host.value, cfg)))
  {
    var t := AcceptedTarget(Corrected, cfg, TargetCandidate(attrs, savedRequestUrl));
    if t.Some? {
      FixedGuardIntended(t.value, cfg);
    }
  }
}
