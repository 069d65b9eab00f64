/**
 * What the login-related controllers share: the HTTP session with its
 * attribute map, the two attribute names they use, the configuration values
 * injected into them, the request headers they read, and the callback URL
 * they redirect to.
 */
module WebContext {
  import opened Wrappers
  import UrlCodec

  /** Session attribute holding the frontend URL the login started from. */
  const OriginalFrontendUrl: string := "original_frontend_url"

  /** Session attribute holding where the frontend wants to go after login. */
  const RedirectAfterLogin: string := "redirect_after_login"

  /** An HTTP session: string attributes changed in place. */
  class Session {
    var attributes: map<string, string>

    constructor (initial: map<string, string>)
      ensures attributes == initial
    {
      attributes := initial;
    }

    /** getAttribute: the value, or None for an attribute never set or removed. */
    function GetAttribute(name: string): (r: Option<string>)
      reads this
      ensures r.Some? <==> name in attributes
      ensures r.Some? ==> r.value == attributes[name]
    {
      if name in attributes then Some(attributes[name]) else None
    }

    method SetAttribute(name: string, value: string)
      modifies this
      ensures attributes == old(attributes)[name := value]
    {
      attributes := attributes[name := value];
    }

    method RemoveAttribute(name: string)
      modifies this
      ensures attributes == old(attributes) - {name}
    {
      attributes := attributes - {name};
    }
  }

  /** app.frontend.default-url and CORS_ALLOWED_ORIGINS (empty when unset). */
  datatype FrontendConfig = FrontendConfig(defaultFrontendUrl: string, corsAllowedOrigins: string)

  /** The Referer and Origin headers and the return_to parameter of a request. */
  datatype LoginRequest = LoginRequest(referer: Option<string>, origin: Option<string>, returnTo: Option<string>)

  /** The frontend's callback page, carrying the encoded target when there is one. */
  function CallbackUrl(frontend: string, target: Option<string>): (url: string)
    ensures |url| >= |frontend| + 14 && url[..|frontend|] == frontend
  {
    match target
    case Some(t) => frontend + "/auth-callback" + "?return_to=" + UrlCodec.Encode(t)
    case None => frontend + "/auth-callback"
  }
}
