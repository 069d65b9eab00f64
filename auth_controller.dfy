/**
 * AuthController: the frontend URL a login request came from, cached in
 * the session, and the redirect that /bff/auth/login sends. Its private
 * extractAppBasePath and isOriginAllowed are the same code as in
 * FrontendUrlUtils and its Referer branch the same steps as
 * extractFrontendUrlFromReferer, so the model uses those definitions.
 */
module AuthController {
  import opened Wrappers
  import opened JavaText
  import opened WebContext
  import FrontendUrlUtils

  /** The Origin header, when it is present, non-blank and allow-listed. */
  function AllowedOriginHeader(cfg: FrontendConfig, origin: Option<string>): (r: Option<string>)
    ensures r.Some? ==> origin == r && !IsBlank(r.value) && FrontendUrlUtils.IsOriginAllowed(r.value, cfg.corsAllowedOrigins)
    ensures r.None? ==> origin.None? || IsBlank(origin.value) || !FrontendUrlUtils.IsOriginAllowed(origin.value, cfg.corsAllowedOrigins)
  {
    if origin.Some? && !IsBlank(origin.value) && FrontendUrlUtils.IsOriginAllowed(origin.value, cfg.corsAllowedOrigins)
    then origin else None
  }

  /**
   * getFrontendUrlFromRequest as a function of the session's attributes:
   * the URL returned and the attributes afterwards.
   */
  function FrontendUrlChain(cfg: FrontendConfig, attrs: map<string, string>, req: LoginRequest): (string, map<string, string>)
  {
    if OriginalFrontendUrl in attrs then (attrs[OriginalFrontendUrl], attrs)
    else
      match FrontendUrlUtils.ExtractFrontendUrlFromReferer(req.referer, cfg.corsAllowedOrigins)
      case Some(url) => (url, attrs[OriginalFrontendUrl := url])
      case None =>
        match AllowedOriginHeader(cfg, req.origin)
        case Some(o) => (o, attrs[OriginalFrontendUrl := o])
        case None => (cfg.defaultFrontendUrl, attrs)
  }

  /** getFrontendUrlFromRequest: a saved URL, else the Referer's, else the Origin, else the default. */
  method GetFrontendUrlFromRequest(cfg: FrontendConfig, req: LoginRequest, session: Session) returns (url: string)
    modifies session
    ensures (url, session.attributes) == FrontendUrlChain(cfg, old(session.attributes), req)
  {
    var saved := session.GetAttribute(OriginalFrontendUrl);
    if saved.Some? {
      return saved.value;
    }
    var fromReferer := FrontendUrlUtils.ExtractFrontendUrlFromReferer(req.referer, cfg.corsAllowedOrigins);
    if fromReferer.Some? {
      session.SetAttribute(OriginalFrontendUrl, fromReferer.value);
      return fromReferer.value;
    }
    if req.origin.Some? && !IsBlank(req.origin.value) && FrontendUrlUtils.IsOriginAllowed(req.origin.value, cfg.corsAllowedOrigins) {
      session.SetAttribute(OriginalFrontendUrl, req.origin.value);
      return req.origin.value;
    }
    return cfg.defaultFrontendUrl;
  }

  /**
   * The four outcomes of the chain in priority order: a saved URL is
   * returned untouched; otherwise an allow-listed Referer's URL, then an
   * allow-listed Origin, is returned and stored; otherwise the default is
   * returned and nothing is stored.
   */
  lemma ChainPriority(cfg: FrontendConfig, attrs: map<string, string>, req: LoginRequest)
    ensures var (url, after) := FrontendUrlChain(cfg, attrs, req);
      var referer := FrontendUrlUtils.ExtractFrontendUrlFromReferer(req.referer, cfg.corsAllowedOrigins);
      var origin := AllowedOriginHeader(cfg, req.origin);
      if OriginalFrontendUrl in attrs then url == attrs[OriginalFrontendUrl] && after == attrs
      else if referer.Some? then url == referer.value && after == attrs[OriginalFrontendUrl := url]
      else if origin.Some? then url == origin.value && after == attrs[OriginalFrontendUrl := url]
      else url == cfg.defaultFrontendUrl && after == attrs
  {
    if OriginalFrontendUrl !in attrs {
      var referer := FrontendUrlUtils.ExtractFrontendUrlFromReferer(req.referer, cfg.corsAllowedOrigins);
      if referer.None? {
        var origin := AllowedOriginHeader(cfg, req.origin);
        assert FrontendUrlChain(cfg, attrs, req)
            == if origin.Some? then (origin.value, attrs[OriginalFrontendUrl := origin.value]) else (cfg.defaultFrontendUrl, attrs);
      }
    }
  }

  /**
   * Whatever the headers say, the chain yields a URL saved earlier, the
   * configured default, or an allow-listed origin (with at most an
   * application base path after it).
   */
  lemma ChainResultIsTrusted(cfg: FrontendConfig, attrs: map<string, string>, req: LoginRequest)
    ensures var url := FrontendUrlChain(cfg, attrs, req).0;
      (OriginalFrontendUrl in attrs && url == attrs[OriginalFrontendUrl])
      || url == cfg.defaultFrontendUrl
      || FrontendUrlUtils.AllowedOriginWithBasePath(url, cfg.corsAllowedOrigins)
  {
    ChainPriority(cfg, attrs, req);
    var origin := AllowedOriginHeader(cfg, req.origin);
    if origin.Some? {
      FrontendUrlUtils.AllowedOriginAlone(origin.value, cfg.corsAllowedOrigins);
    }
  }

  /** The chain writes at most the frontend attribute, and only when nothing was saved before. */
  lemma ChainFrame(cfg: FrontendConfig, attrs: map<string, string>, req: LoginRequest)
    ensures var after := FrontendUrlChain(cfg, attrs, req).1;
      after.Keys == attrs.Keys + (if after == attrs then {} else {OriginalFrontendUrl})
      && (OriginalFrontendUrl in attrs ==> after == attrs)
      && forall k :: k in attrs && k != OriginalFrontendUrl ==> after[k] == attrs[k]
  {
  }

  /** A second resolution of the same request returns the same URL and changes nothing more. */
  lemma ChainIdempotent(cfg: FrontendConfig, attrs: map<string, string>, req: LoginRequest)
    ensures var (url, after) := FrontendUrlChain(cfg, attrs, req);
      FrontendUrlChain(cfg, after, req) == (url, after)
  {
  }

  /** The redirect of /bff/auth/login and the attributes afterwards, as a function. */
  function LoginOutcome(cfg: FrontendConfig, attrs: map<string, string>, req: LoginRequest): (string, map<string, string>)
  {
    var (frontend, after) := FrontendUrlChain(cfg, attrs, req);
    if req.returnTo.Some? && !IsBlank(req.returnTo.value) then
      (CallbackUrl(frontend, req.returnTo), after[RedirectAfterLogin := req.returnTo.value])
    else
      (CallbackUrl(frontend, None), after)
  }

  /**
   * login: resolves the frontend URL, stores a non-blank return_to as
   * redirect_after_login and redirects to the frontend's callback with that
   * target encoded, without judging whether it is safe.
   */
  method Login(cfg: FrontendConfig, req: LoginRequest, session: Session) returns (redirectUrl: string)
    modifies session
    ensures (redirectUrl, session.attributes) == LoginOutcome(cfg, old(session.attributes), req)
  {
    var frontend := GetFrontendUrlFromRequest(cfg, req, session);
    if req.returnTo.Some? && !IsBlank(req.returnTo.value) {
      session.SetAttribute(RedirectAfterLogin, req.returnTo.value);
    }
    redirectUrl := frontend + "/auth-callback";
    if req.returnTo.Some? && !IsBlank(req.returnTo.value) {
      redirectUrl := redirectUrl + "?return_to=" + UrlCodec.Encode(req.returnTo.value);
    }
  }

  /**
   * login stores a non-blank return_to as redirect_after_login whatever it
   * names (another host included) and keeps every other attribute apart
   * from the frontend URL; a blank or missing one leaves
   * redirect_after_login as it was.
   */
  lemma LoginStoresAnyTarget(cfg: FrontendConfig, attrs: map<string, string>, req: LoginRequest)
    ensures var (url, after) := LoginOutcome(cfg, attrs, req);
      req.returnTo.Some? && !IsBlank(req.returnTo.value) ==>
        RedirectAfterLogin in after && after[RedirectAfterLogin] == req.returnTo.value
    ensures var (url, after) := LoginOutcome(cfg, attrs, req);
      (req.returnTo.None? || IsBlank(req.returnTo.value)) ==>
        (RedirectAfterLogin in after <==> RedirectAfterLogin in attrs)
        && (RedirectAfterLogin in attrs ==> after[RedirectAfterLogin] == attrs[RedirectAfterLogin])
    ensures var (url, after) := LoginOutcome(cfg, attrs, req);
      forall k :: k in attrs && k != OriginalFrontendUrl && k != RedirectAfterLogin ==> k in after && after[k] == attrs[k]
  {
    ChainFrame(cfg, attrs, req);
  }

  /** A first login with no headers and no return_to goes to the default frontend's callback. */
  lemma LoginWithoutHeaders(cfg: FrontendConfig, attrs: map<string, string>, req: LoginRequest)
    requires OriginalFrontendUrl !in attrs && req == LoginRequest(None, None, None)
    ensures LoginOutcome(cfg, attrs, req) == (cfg.defaultFrontendUrl + "/auth-callback", attrs)
  {
  }

  /**
   * The redirect of login is the resolved frontend's callback, followed by
   * the encoded return_to exactly when one was given and is not blank.
   */
  lemma LoginRedirect(cfg: FrontendConfig, attrs: map<string, string>, req: LoginRequest)
    ensures var frontend := FrontendUrlChain(cfg, attrs, req).0;
      LoginOutcome(cfg, attrs, req).0
        == if req.returnTo.Some? && !IsBlank(req.returnTo.value)
           then frontend + "/auth-callback?return_to=" + UrlCodec.Encode(req.returnTo.value)
           else frontend + "/auth-callback"
  {
    var frontend := FrontendUrlChain(cfg, attrs, req).0;
    assert frontend + "/auth-callback" + "?return_to=" == frontend + "/auth-callback?return_to=";
  }

  /** return_to=/my-reviews is carried as %2Fmy-reviews. */
  lemma LoginEncodesReturnTo(cfg: FrontendConfig, attrs: map<string, string>, req: LoginRequest)
    requires req.returnTo == Some("/my-reviews")
    ensures LoginOutcome(cfg, attrs, req).0
         == FrontendUrlChain(cfg, attrs, req).0 + "/auth-callback?return_to=" + "%2Fmy-reviews"
  {
    assert !IsBlank(req.returnTo.value) by {
      assert !IsWhitespace(req.returnTo.value[0]);
    }
    LoginRedirect(cfg, attrs, req);
    UrlCodec.EncodeMyReviews(req.returnTo.value);
  }

  /**
   * With the development allow-list, an Origin on another host is ignored
   * and the login falls back to the default frontend.
   */
  lemma ForeignOriginFallsBack(cfg: FrontendConfig, attrs: map<string, string>, req: LoginRequest)
    requires cfg == FrontendConfig("http://localhost:5173", "http://localhost:5173,http://localhost:*")
    requires OriginalFrontendUrl !in attrs
    requires req == LoginRequest(None, Some("http://malicious-site.com"), None)
    ensures LoginOutcome(cfg, attrs, req) == (cfg.defaultFrontendUrl + "/auth-callback", attrs)
  {
    FrontendUrlUtils.LocalListRefusesForeignHost(cfg.corsAllowedOrigins, req.origin.value);
    assert AllowedOriginHeader(cfg, req.origin).None?;
    assert FrontendUrlChain(cfg, attrs, req) == (cfg.defaultFrontendUrl, attrs);
  }

  /**
   * With the development allow-list, the Referer
   * http://localhost:5173/my-books/reviews sends login to the /my-books
   * frontend's callback, and that frontend is saved in the session.
   */
  lemma LoginWithTestReferer(cfg: FrontendConfig, attrs: map<string, string>, req: LoginRequest)
    requires cfg == FrontendConfig("http://localhost:5173", "http://localhost:5173,http://localhost:*")
    requires OriginalFrontendUrl !in attrs
    requires req == LoginRequest(Some("http://localhost:5173/my-books/reviews"), None, None)
    ensures LoginOutcome(cfg, attrs, req)
         == ("http://localhost:5173/my-books/auth-callback", attrs[OriginalFrontendUrl := "http://localhost:5173/my-books"])
  {
    FrontendUrlUtils.RefererOfControllerTest(req.referer.value, cfg.corsAllowedOrigins);
    MyBooksCallback("http://localhost:5173/my-books");
  }

  lemma MyBooksCallback(frontend: string)
    requires frontend == "http://localhost:5173/my-books"
    ensures frontend + "/auth-callback" == "http://localhost:5173/my-books/auth-callback"
  {
  }
}
