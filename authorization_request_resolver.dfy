/**
 * CustomAuthorizationRequestResolver: when an OAuth2 authorization flow
 * starts, it records in the session where to go back afterwards. The
 * default resolver it wraps (PKCE, authorization URI) is a parameter: the
 * request it produced, if any.
 */
module AuthorizationRequestResolver {
  import opened Wrappers
  import opened JavaText
  import opened WebContext
  import FrontendUrlUtils
  import AuthController

  /**
   * The resolver's frontend URL: the Referer's allow-listed origin and base
   * path, else an allow-listed Origin, else the default. Unlike the
   * controller it never looks at a URL saved earlier.
   */
  function ResolverFrontendUrl(cfg: FrontendConfig, req: LoginRequest): (url: string)
    ensures url == cfg.defaultFrontendUrl || FrontendUrlUtils.AllowedOriginWithBasePath(url, cfg.corsAllowedOrigins)
  {
    match FrontendUrlUtils.ExtractFrontendUrlFromReferer(req.referer, cfg.corsAllowedOrigins)
    case Some(url) => url
    case None =>
      match AuthController.AllowedOriginHeader(cfg, req.origin)
      case Some(o) =>
        FrontendUrlUtils.AllowedOriginAlone(o, cfg.corsAllowedOrigins);
        o
      case None => cfg.defaultFrontendUrl
  }

  /** The session attributes after saveReturnToParameter. */
  function SavedAttributes(cfg: FrontendConfig, attrs: map<string, string>, req: LoginRequest): map<string, string>
  {
    var withTarget :=
      if req.returnTo.Some? && !IsBlank(req.returnTo.value) then attrs[RedirectAfterLogin := req.returnTo.value]
      else attrs;
    withTarget[OriginalFrontendUrl := ResolverFrontendUrl(cfg, req)]
  }

  /** saveReturnToParameter: store a non-blank return_to, then always store the frontend URL. */
  method SaveReturnToParameter(cfg: FrontendConfig, req: LoginRequest, session: Session)
    modifies session
    ensures session.attributes == SavedAttributes(cfg, old(session.attributes), req)
  {
    if req.returnTo.Some? && !IsBlank(req.returnTo.value) {
      session.SetAttribute(RedirectAfterLogin, req.returnTo.value);
    }
    var frontendUrl := ResolverFrontendUrl(cfg, req);
    session.SetAttribute(OriginalFrontendUrl, frontendUrl);
  }

  /**
   * resolve(request): the default resolver's request is passed through; the
   * session is written only when there is one (an authorization flow starts).
   */
  method Resolve<A>(cfg: FrontendConfig, req: LoginRequest, session: Session, delegated: Option<A>) returns (r: Option<A>)
    modifies session
    ensures r == delegated
    ensures delegated.Some? ==> session.attributes == SavedAttributes(cfg, old(session.attributes), req)
    ensures delegated.None? ==> session.attributes == old(session.attributes)
  {
    if delegated.Some? {
      SaveReturnToParameter(cfg, req, session);
    }
    return delegated;
  }

  /** resolve(request, clientRegistrationId): saves unconditionally, then delegates. */
  method ResolveForClient<A>(cfg: FrontendConfig, req: LoginRequest, session: Session, delegated: Option<A>) returns (r: Option<A>)
    modifies session
    ensures r == delegated
    ensures session.attributes == SavedAttributes(cfg, old(session.attributes), req)
  {
    SaveReturnToParameter(cfg, req, session);
    return delegated;
  }

  /**
   * After saveReturnToParameter the session names a trusted frontend URL
   * and holds a non-blank return_to exactly as given.
   */
  lemma SavedAttributesSpec(cfg: FrontendConfig, attrs: map<string, string>, req: LoginRequest)
    ensures var after := SavedAttributes(cfg, attrs, req);
      OriginalFrontendUrl in after
      && (after[OriginalFrontendUrl] == cfg.defaultFrontendUrl
          || FrontendUrlUtils.AllowedOriginWithBasePath(after[OriginalFrontendUrl], cfg.corsAllowedOrigins))
    ensures var after := SavedAttributes(cfg, attrs, req);
      req.returnTo.Some? && !IsBlank(req.returnTo.value) ==>
        RedirectAfterLogin in after && after[RedirectAfterLogin] == req.returnTo.value
  {
  }

  /** saveReturnToParameter adds at most its two attributes and keeps every other one. */
  lemma SavedAttributesFrame(cfg: FrontendConfig, attrs: map<string, string>, req: LoginRequest)
    ensures var after := SavedAttributes(cfg, attrs, req);
      after.Keys == attrs.Keys + {OriginalFrontendUrl}
        + (if req.returnTo.Some? && !IsBlank(req.returnTo.value) then {RedirectAfterLogin} else {})
    ensures var after := SavedAttributes(cfg, attrs, req);
      forall k :: k in attrs && k != OriginalFrontendUrl && k != RedirectAfterLogin ==> after[k] == attrs[k]
  {
  }

  /**
   * With no URL saved earlier, the resolver and AuthController pick the
   * same frontend URL for the same request, and both store it.
   */
  lemma AgreesWithController(cfg: FrontendConfig, attrs: map<string, string>, req: LoginRequest)
    requires OriginalFrontendUrl !in attrs
    ensures AuthController.FrontendUrlChain(cfg, attrs, req).0 == ResolverFrontendUrl(cfg, req)
    ensures OriginalFrontendUrl in SavedAttributes(cfg, attrs, req)
      && SavedAttributes(cfg, attrs, req)[OriginalFrontendUrl] == ResolverFrontendUrl(cfg, req)
  {
  }

  /**
   * Where the controller keeps a URL saved earlier, the resolver overwrites
   * it with the one this request's headers give.
   */
  lemma ResolverOverwritesSaved(cfg: FrontendConfig, attrs: map<string, string>, req: LoginRequest)
    requires OriginalFrontendUrl in attrs
    ensures AuthController.FrontendUrlChain(cfg, attrs, req).0 == attrs[OriginalFrontendUrl]
    ensures SavedAttributes(cfg, attrs, req)[OriginalFrontendUrl] == ResolverFrontendUrl(cfg, req)
  {
  }
}
