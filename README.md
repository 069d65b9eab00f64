# api-gateway-bff: login redirects and API proxy, modelled in Dafny

The gateway is a Spring "backend for frontend" that sits between browser
frontends and resource servers. This project models and proves the parts
that decide where a user is sent and what is forwarded:

- **Frontend URL resolution** (`FrontendUrlUtils`, `AuthController`,
  `AuthorizationRequestResolver`). The gateway works out which frontend a
  login came from. It tries, in order: the URL saved in the session, the
  Referer (its origin plus an application base path, if the origin is
  allow-listed), the Origin header (if allow-listed), and finally the
  configured default. The allow-list is `CORS_ALLOWED_ORIGINS`. It is
  matched entry by entry, each entry rewritten into a Java regular
  expression exactly as the code does it. A small regex parser and matcher
  (`JavaRegex`) and a `java.net.URI` parser subset (`JavaUri`) give those
  calls their meaning.
- **Login** (`AuthController.Login`) and the **OAuth2 authorization request
  resolver**. These store `redirect_after_login` and `original_frontend_url`
  in the session (`WebContext.Session`, a class whose attribute map the
  methods update). Login redirects to `<frontend>/auth-callback`, with the
  return target URL-encoded as `?return_to=` when one is given.
- **Authentication success handler** (`SecurityConfig`). The handler
  consumes both session attributes. If no target was stored, it falls back
  to the `return_to` of the saved request's query string (URL-decoded). The
  target is appended only when `isUrlSafe` accepts it.
- **API proxy** (`ApiProxyController`). The proxy removes `/api` from the
  path, selects the first route (in table order) whose prefix starts the
  path, and strips that prefix once. It builds the outbound request: scheme,
  host and port of the route URL; a body only for methods other than
  GET/DELETE; a bearer token only for an authenticated, non-anonymous
  caller. Hop-by-hop response headers are filtered out, and an empty body
  becomes `""`.
- **Route table loading** (`ResourceServerProperties`). Reads
  `RESOURCE_SERVERS` and the per-service `_URL`, `_PATH_PREFIX` and
  `_TIMEOUT` variables. A missing timeout defaults to 30.

Java library behaviour the code relies on is modelled explicitly:
- `String.isBlank`, `trim`, `split`, `replace`, `indexOf`, `startsWith`,
  `contains` and `toUpperCase` (`JavaText`);
- `URLEncoder` and `URLDecoder` (`UrlCodec`);
- `URI` (`JavaUri`);
- `String.matches` over the patterns the allow-list produces (`JavaRegex`);
- `Integer` conversion, including `0x`/`#` hexadecimal (`ResourceServerProperties.ToInteger`).

Things outside the program become parameters:
- the saved request's redirect URL;
- the upstream response, or none when the client returned null;
- the stored access token;
- the delegate resolver's result.

`AuthController` holds private copies of `extractAppBasePath` and
`isOriginAllowed`. They are textually the same as the `FrontendUrlUtils`
versions, so both are modelled once, by `FrontendUrlUtils`.

## Model

| member | source | states |
|---|---|---|
| FrontendUrlUtils.ExtractAppBasePath | src/main/java/com/example/api_gateway_bff/util/FrontendUrlUtils.java:40-60 | a null, empty or "/" path gives null; any result is "/" plus a non-empty segment without '/' that is not bff, api or auth-callback |
| FrontendUrlUtils.AppBasePathIsFirstSegment | src/main/java/com/example/api_gateway_bff/util/FrontendUrlUtils.java:46-59 | for any other path, the result is "/" + the text before the second '/', unless that text is empty or a gateway segment, in which case it is null |
| FrontendUrlUtils.AppBasePathOf | src/main/java/com/example/api_gateway_bff/util/FrontendUrlUtils.java:46-56 | "/seg/rest..." gives "/seg" for every ordinary segment seg |
| FrontendUrlUtils.IsOriginAllowed | src/main/java/com/example/api_gateway_bff/util/FrontendUrlUtils.java:72-89 | a blank list admits nothing; otherwise an origin is admitted iff some comma-separated, trimmed entry, rewritten and used as a regex, matches the whole origin |
| FrontendUrlUtils.TwoEntryList | src/main/java/com/example/api_gateway_bff/util/FrontendUrlUtils.java:78-85 | a two-entry list admits an origin iff one of its entries does |
| FrontendUrlUtils.RewriteIsEach | src/main/java/com/example/api_gateway_bff/util/FrontendUrlUtils.java:82 | the two chained replace calls equal a per-character rewrite: '*' becomes ".\*" with its '.' then escaped, and '.' becomes "\\." |
| FrontendUrlUtils.ParseRewritten | src/main/java/com/example/api_gateway_bff/util/FrontendUrlUtils.java:82 | a rewritten entry made of letters, digits and URL punctuation is a valid pattern, and it compiles to one piece per entry character |
| FrontendUrlUtils.EntryAdmitsCompiled | src/main/java/com/example/api_gateway_bff/util/FrontendUrlUtils.java:80-82 | an entry admits an origin iff the compiled pieces of its trimmed text match the origin |
| FrontendUrlUtils.ExactEntry | src/main/java/com/example/api_gateway_bff/util/FrontendUrlUtils.java:82 | an entry without '\*' admits exactly the origin equal to its trimmed text ('.' matches only '.') |
| FrontendUrlUtils.TrailingStarOnlyDots | src/main/java/com/example/api_gateway_bff/util/FrontendUrlUtils.java:82 | "p\*" as written matches exactly p followed by a run of '.' characters |
| FrontendUrlUtils.StarEntryRefuses | src/main/java/com/example/api_gateway_bff/util/FrontendUrlUtils.java:82 | an entry "p\*" refuses every origin that continues p with a character other than '.' |
| FrontendUrlUtils.LocalhostWildcardRefusesPort | src/main/java/com/example/api_gateway_bff/util/FrontendUrlUtils.java:82 | the entry "http://localhost:\*" refuses "http://localhost:3000" |
| FrontendUrlUtils.ExactEntryRefusesForeignHost | src/test/java/com/example/api_gateway_bff/controller/AuthControllerTest.java:36-40 | the entry "http://localhost:5173" refuses "http://malicious-site.com" |
| FrontendUrlUtils.LocalListRefusesForeignHost | src/test/java/com/example/api_gateway_bff/controller/AuthControllerTest.java:128-135 | the list configured in the controller test refuses "http://malicious-site.com": its exact entry does not equal it, and its "http://localhost:\*" entry refuses it because the character after "http://localhost:" is not '.' |
| FrontendUrlUtils.AsWrittenWithinGlob | src/main/java/com/example/api_gateway_bff/util/FrontendUrlUtils.java:82 | every origin the as-written entry admits is also admitted by the intended glob reading ('\*' = any run) |
| FrontendUrlUtils.GlobStarEntryAdmits | src/main/java/com/example/api_gateway_bff/util/FrontendUrlUtils.java:82 | under the intended glob reading, "p\*" admits p followed by any text without a line terminator |
| FrontendUrlUtils.LocalhostGlobAdmitsPort | src/main/java/com/example/api_gateway_bff/util/FrontendUrlUtils.java:82 | under the intended glob reading, "http://localhost:\*" admits "http://localhost:3000" |
| FrontendUrlUtils.AllowedOriginAlone | src/main/java/com/example/api_gateway_bff/util/FrontendUrlUtils.java:118-122 | an allow-listed origin is itself a well-formed frontend URL (allowed origin plus empty base path) |
| FrontendUrlUtils.ExtractFrontendUrlFromReferer | src/main/java/com/example/api_gateway_bff/util/FrontendUrlUtils.java:109-129 | a result exists iff the Referer is present, non-blank and parsable and its scheme://authority is allow-listed; it is then exactly that scheme://authority followed by extractAppBasePath of the Referer's path when that is non-null |
| FrontendUrlUtils.RefererWithBasePath | src/main/java/com/example/api_gateway_bff/util/FrontendUrlUtils.java:115-123 | a Referer with an allow-listed scheme://authority and a path "/seg/rest" with an ordinary segment gives scheme://authority/seg |
| FrontendUrlUtils.RefererOfControllerTest | src/test/java/com/example/api_gateway_bff/controller/AuthControllerTest.java:78-83 | with the test's allow-list, the Referer http://localhost:5173/my-books/reviews gives http://localhost:5173/my-books |
| AuthController.AllowedOriginHeader | src/main/java/com/example/api_gateway_bff/controller/AuthController.java:100-105 | the Origin header is used iff it is present, non-blank and allow-listed |
| AuthController.GetFrontendUrlFromRequest | src/main/java/com/example/api_gateway_bff/controller/AuthController.java:70-110 | the method returns the frontend chosen by the priority chain; its session afterwards is the chain's session |
| AuthController.ChainPriority | src/main/java/com/example/api_gateway_bff/controller/AuthController.java:72-109 | a saved URL wins and nothing changes; else the Referer result, else an allowed Origin (either one is stored in the session); else the default with the session unchanged |
| AuthController.ChainResultIsTrusted | src/main/java/com/example/api_gateway_bff/controller/AuthController.java:70-110 | the chosen frontend is the saved one, the default, or an allow-listed origin with an optional base path |
| AuthController.ChainFrame | src/main/java/com/example/api_gateway_bff/controller/AuthController.java:72-104 | only original_frontend_url may be added, and a saved one is never overwritten |
| AuthController.ChainIdempotent | src/main/java/com/example/api_gateway_bff/controller/AuthController.java:72-76 | resolving again with the resulting session gives the same frontend and session |
| AuthController.Login | src/main/java/com/example/api_gateway_bff/controller/AuthController.java:198-224 | the redirect URL and new session are the login outcome |
| AuthController.LoginStoresAnyTarget | src/main/java/com/example/api_gateway_bff/controller/AuthController.java:211-213 | a non-blank return_to is stored unchecked as redirect_after_login; otherwise that attribute is left as it was; other attributes are kept |
| AuthController.LoginRedirect | src/main/java/com/example/api_gateway_bff/controller/AuthController.java:217-220 | the redirect is frontend + "/auth-callback", plus "?return_to=" and the URL-encoded target exactly when the target is non-blank |
| AuthController.LoginWithoutHeaders | src/test/java/com/example/api_gateway_bff/controller/AuthControllerTest.java:60-66 | with no saved URL and no headers, login goes to the default's /auth-callback and leaves the session unchanged |
| AuthController.LoginEncodesReturnTo | src/test/java/com/example/api_gateway_bff/controller/AuthControllerTest.java:69-75 | return_to=/my-reviews is sent as "?return_to=%2Fmy-reviews" |
| AuthController.ForeignOriginFallsBack | src/test/java/com/example/api_gateway_bff/controller/AuthControllerTest.java:128-135 | with the test's configuration, a malicious Origin falls back to the default frontend's /auth-callback |
| AuthController.LoginWithTestReferer | src/test/java/com/example/api_gateway_bff/controller/AuthControllerTest.java:78-83 | with the test's configuration, the Referer http://localhost:5173/my-books/reviews redirects login to http://localhost:5173/my-books/auth-callback and saves http://localhost:5173/my-books |
| AuthorizationRequestResolver.ResolverFrontendUrl | src/main/java/com/example/api_gateway_bff/config/CustomAuthorizationRequestResolver.java:180-198 | the resolver's frontend is the default or an allow-listed origin with optional base path |
| AuthorizationRequestResolver.SaveReturnToParameter | src/main/java/com/example/api_gateway_bff/config/CustomAuthorizationRequestResolver.java:149-165 | the session afterwards holds the saved attributes |
| AuthorizationRequestResolver.Resolve | src/main/java/com/example/api_gateway_bff/config/CustomAuthorizationRequestResolver.java:97-114 | the delegate's result is returned; the session is written only when that result is non-null |
| AuthorizationRequestResolver.ResolveForClient | src/main/java/com/example/api_gateway_bff/config/CustomAuthorizationRequestResolver.java:126-136 | the attributes are saved whatever the delegate returns, and its result is passed on |
| AuthorizationRequestResolver.SavedAttributesSpec | src/main/java/com/example/api_gateway_bff/config/CustomAuthorizationRequestResolver.java:153-163 | original_frontend_url is always set to a trusted frontend; a non-blank return_to is stored as redirect_after_login |
| AuthorizationRequestResolver.SavedAttributesFrame | src/main/java/com/example/api_gateway_bff/config/CustomAuthorizationRequestResolver.java:149-165 | exactly those keys are added, and every other attribute is kept |
| AuthorizationRequestResolver.AgreesWithController | src/main/java/com/example/api_gateway_bff/config/CustomAuthorizationRequestResolver.java:180-198 | with nothing saved, the resolver and the controller choose the same frontend |
| AuthorizationRequestResolver.ResolverOverwritesSaved | src/main/java/com/example/api_gateway_bff/config/CustomAuthorizationRequestResolver.java:162-163 | the resolver ignores and overwrites a saved frontend URL, which the controller would keep |
| SecurityConfig.UrlSafeIsOriginAllowed | src/main/java/com/example/api_gateway_bff/config/SecurityConfig.java:333-371 | an unparsable URL is unsafe; with an allow-list, a URL with a host is safe iff its scheme://authority is allow-listed |
| SecurityConfig.UrlSafeFallback | src/main/java/com/example/api_gateway_bff/config/SecurityConfig.java:345-351 | with no allow-list, a URL with a host is safe iff the default frontend URL parses with a host and the URL's host is that host or localhost (an unparsable default refuses everything) |
| SecurityConfig.GuardsAcceptRelativePath | src/main/java/com/example/api_gateway_bff/config/SecurityConfig.java:338-339 | a relative path such as "/my-reviews" is safe under both guards |
| SecurityConfig.OpaqueUrlPassesGuard | src/main/java/com/example/api_gateway_bff/config/SecurityConfig.java:338-339 | "https:evil.com" parses with scheme https and no host, so the written guard accepts it; the corrected guard refuses it |
| SecurityConfig.FixedGuardStricter | src/main/java/com/example/api_gateway_bff/config/SecurityConfig.java:333-371 | the corrected guard accepts a subset of what the written one accepts, and agrees with it whenever there is a host |
| SecurityConfig.FixedGuardIntended | src/main/java/com/example/api_gateway_bff/config/SecurityConfig.java:333-371 | an accepted URL is a relative reference, an allow-listed origin, or (with no list) on an admitted host |
| SecurityConfig.FirstReturnTo | src/main/java/com/example/api_gateway_bff/config/SecurityConfig.java:294-302 | the loop returns the decoded value of the first parameter starting "return_to=" (or the decode failure), else nothing |
| SecurityConfig.ReturnToParam | src/main/java/com/example/api_gateway_bff/config/SecurityConfig.java:294-302 | nothing is found iff no parameter starts with "return_to=" |
| SecurityConfig.QueryParams | src/main/java/com/example/api_gateway_bff/config/SecurityConfig.java:286-292 | the query split on '&' is produced only when there is a '?' and the URL contains "return_to=" |
| SecurityConfig.ExtractReturnTo | src/main/java/com/example/api_gateway_bff/config/SecurityConfig.java:280-303 | the method computes the saved URL's return_to as specified |
| SecurityConfig.SavedUrlParams | src/main/java/com/example/api_gateway_bff/config/SecurityConfig.java:286-292 | for base + "?" + a query starting "return_to=", the parameters read are exactly the query split on '&' |
| SecurityConfig.ReturnToRoundTrip | src/main/java/com/example/api_gateway_bff/config/SecurityConfig.java:286-298 | a saved URL carrying "return_to=" + encode(v) as its first parameter yields v for every ASCII v |
| SecurityConfig.CallbackReadsBack | src/main/java/com/example/api_gateway_bff/config/SecurityConfig.java:308-313 | the callback URL built with target v reads back as v by the handler's own extraction |
| SecurityConfig.AcceptedTarget | src/main/java/com/example/api_gateway_bff/config/SecurityConfig.java:311-318 | a target is appended iff the candidate is a value, non-blank and accepted by the guard |
| SecurityConfig.TakeFrontendUrl | src/main/java/com/example/api_gateway_bff/config/SecurityConfig.java:254-263 | the method returns the saved frontend (else the default) and removes it from the session |
| SecurityConfig.TakeTarget | src/main/java/com/example/api_gateway_bff/config/SecurityConfig.java:265-305 | the method returns redirect_after_login (removed from the session), else the saved request's return_to |
| SecurityConfig.BuildRedirect | src/main/java/com/example/api_gateway_bff/config/SecurityConfig.java:308-318 | the method builds the callback URL carrying the accepted target |
| SecurityConfig.OnAuthenticationSuccess | src/main/java/com/example/api_gateway_bff/config/SecurityConfig.java:242-323 | with no session, the default's /auth-callback; otherwise the outcome and session of the handler specification |
| SecurityConfig.HandlerConsumesAttributes | src/main/java/com/example/api_gateway_bff/config/SecurityConfig.java:258-272 | both attributes are gone afterwards and every other attribute is unchanged |
| SecurityConfig.HandlerRedirectIsGuarded | src/main/java/com/example/api_gateway_bff/config/SecurityConfig.java:308-321 | the redirect is the saved (else default) frontend's callback, and any return_to in it is non-blank and guard-accepted; the handler fails iff the saved request's return_to does not decode |
| SecurityConfig.HandlerReturnToReadsBack | src/main/java/com/example/api_gateway_bff/config/SecurityConfig.java:286-313 | the handler's own extraction reads the return_to in its redirect back as the accepted target |
| SecurityConfig.LoginThenHandler | src/main/java/com/example/api_gateway_bff/controller/AuthController.java:207-213 | after login with return_to t, the handler lands on the frontend login resolved, carrying t exactly when the guard accepts it, and clears both attributes |
| SecurityConfig.CorrectedHandlerRedirectsSafely | src/main/java/com/example/api_gateway_bff/config/SecurityConfig.java:311-313 | with the corrected guard, any forwarded target is relative or on an admitted origin or host |
| ApiProxyController.SelectService | src/main/java/com/example/api_gateway_bff/controller/ApiProxyController.java:106-114 | success iff some route's prefix starts the path, and the result is then a route of the table; otherwise the error "No service found for path: " + path |
| ApiProxyController.SelectFrom | src/main/java/com/example/api_gateway_bff/controller/ApiProxyController.java:110-112 | the index found is the first matching route, and none is found only when no route matches |
| ApiProxyController.SelectedServiceInTable | src/main/java/com/example/api_gateway_bff/controller/ApiProxyController.java:106-114 | the selected name is in the route map with that configuration, and selection fails iff no configured prefix starts the path |
| ApiProxyController.FirstMatchNotLongest | src/main/java/com/example/api_gateway_bff/controller/ApiProxyController.java:110-112 | with prefixes "/" then "/users", "/users/1" goes to "/", the first match in table order, not the longest prefix |
| ApiProxyController.RewriteWithoutApi | src/main/java/com/example/api_gateway_bff/controller/ApiProxyController.java:156 | a URI without "/api" is routed unchanged |
| ApiProxyController.RewriteStripsApiPrefix | src/main/java/com/example/api_gateway_bff/controller/ApiProxyController.java:156 | "/api" + rest is routed as rest when rest holds no further "/api" |
| ApiProxyController.RewriteShrinks | src/main/java/com/example/api_gateway_bff/controller/ApiProxyController.java:156 | the rewritten path is never longer than the request URI |
| ApiProxyController.TargetPath | src/main/java/com/example/api_gateway_bff/controller/ApiProxyController.java:165-166 | prefix + target equals the path when the prefix starts it; otherwise the path is kept |
| ApiProxyController.AttachedBody | src/main/java/com/example/api_gateway_bff/controller/ApiProxyController.java:190-202 | a body is attached iff the method is not GET or DELETE and the body is non-empty, and it is the inbound body |
| ApiProxyController.BearerToken | src/main/java/com/example/api_gateway_bff/controller/ApiProxyController.java:205-225 | a bearer token is sent iff the caller is authenticated, not anonymous, and has a stored token |
| ApiProxyController.Outbound | src/main/java/com/example/api_gateway_bff/controller/ApiProxyController.java:171-231 | a request is built iff the route URL parses; it then has the route URL's scheme, host and port, the target path, every inbound query key with all its values, the inbound method and Content-Type, and the body and bearer decisions above |
| ApiProxyController.OutboundUsesOnlyOrigin | src/main/java/com/example/api_gateway_bff/controller/ApiProxyController.java:174-187 | two route URLs with the same scheme, host and port produce the same outbound request |
| ApiProxyController.HttpHeaders.AddAll | src/main/java/com/example/api_gateway_bff/controller/ApiProxyController.java:246 | the header list afterwards is the add-all of the old list |
| ApiProxyController.AddAllTo | src/main/java/com/example/api_gateway_bff/controller/ApiProxyController.java:246 | a new name (case-insensitively) is appended with its values; for an existing name, that entry's values are extended by the new ones and every other entry is unchanged |
| ApiProxyController.FilterResponseHeaders | src/main/java/com/example/api_gateway_bff/controller/ApiProxyController.java:242-248 | the loop's headers are the filtered headers of the upstream response |
| ApiProxyController.NoExcludedHeaderSurvives | src/main/java/com/example/api_gateway_bff/controller/ApiProxyController.java:82-89 | no header whose lower-cased name is in the excluded set survives filtering |
| ApiProxyController.FilterKeepsExactly | src/main/java/com/example/api_gateway_bff/controller/ApiProxyController.java:242-248 | with distinct header names, filtering keeps exactly the non-excluded headers, in order and with their values |
| ApiProxyController.ProxyAll | src/main/java/com/example/api_gateway_bff/controller/ApiProxyController.java:150-272 | the method's sent request and response are those of the proxy specification |
| ApiProxyController.ProxyRoutesByFirstPrefix | src/main/java/com/example/api_gateway_bff/controller/ApiProxyController.java:156-253 | a sent request goes to the first route whose prefix starts the path, with the prefix removed once; a response keeps the upstream status and body ("" when the upstream body is empty) and has no excluded header; a null exchange result is the NullResponse error; an unmatched path is the "No service found" error with nothing sent |
| ResourceServerProperties.RemoveWhitespace | src/main/java/com/example/api_gateway_bff/config/ResourceServerProperties.java:102 | the result holds no whitespace, and text without whitespace is unchanged |
| ResourceServerProperties.ParseInt | src/main/java/com/example/api_gateway_bff/config/ResourceServerProperties.java:102 | a parsed value is a 32-bit int, and an empty or sign-only text is refused |
| ResourceServerProperties.TimeoutProperty | src/main/java/com/example/api_gateway_bff/config/ResourceServerProperties.java:102 | an absent or empty timeout gives 30; any value is a 32-bit int |
| ResourceServerProperties.DecimalTimeout | src/main/java/com/example/api_gateway_bff/config/ResourceServerProperties.java:102 | the decimal text of any int value from 0 to 2^31-1 converts back to that value |
| ResourceServerProperties.EnvKeyChars | src/main/java/com/example/api_gateway_bff/config/ResourceServerProperties.java:94 | the variable stem has the name's length, with every '-' turned into '_' and every ASCII letter upper-cased |
| ResourceServerProperties.ConfigOf | src/main/java/com/example/api_gateway_bff/config/ResourceServerProperties.java:105-120 | an installed route has a non-blank URL and path prefix |
| ResourceServerProperties.ResourceServers.constructor | src/main/java/com/example/api_gateway_bff/config/ResourceServerProperties.java:60 | the route table starts empty |
| ResourceServerProperties.ResourceServers.LoadFromEnvironment | src/main/java/com/example/api_gateway_bff/config/ResourceServerProperties.java:76-135 | the table afterwards and the success flag are those of the load specification |
| ResourceServerProperties.LoadNameChanges | src/main/java/com/example/api_gateway_bff/config/ResourceServerProperties.java:88-120 | one iteration removes nothing and changes only the trimmed name's entry, installing its complete configuration |
| ResourceServerProperties.LoadNamesOnlyAdds | src/main/java/com/example/api_gateway_bff/config/ResourceServerProperties.java:87-128 | loading never removes a route; any route added or replaced is listed, complete, and exactly as the environment says |
| ResourceServerProperties.LoadNamesInstallsListed | src/main/java/com/example/api_gateway_bff/config/ResourceServerProperties.java:87-128 | after a successful load, every listed name with a URL and path prefix is installed with its configuration |
| ResourceServerProperties.LoadNamesConverted | src/main/java/com/example/api_gateway_bff/config/ResourceServerProperties.java:102 | a successful load means every listed name's timeout converted |
| ResourceServerProperties.BlankListKeepsTable | src/main/java/com/example/api_gateway_bff/config/ResourceServerProperties.java:79-82 | a blank RESOURCE_SERVERS leaves the table unchanged |
| ResourceServerProperties.LoadAddsAtMostListed | src/main/java/com/example/api_gateway_bff/config/ResourceServerProperties.java:84-128 | loading adds at most as many routes as the list has entries |
| ResourceServerProperties.LoadIdempotent | src/main/java/com/example/api_gateway_bff/config/ResourceServerProperties.java:76-135 | loading twice from the same environment gives the same table as loading once |
| UrlCodec.Encode | src/main/java/com/example/api_gateway_bff/controller/AuthController.java:219 | the encoded target uses only unreserved characters, '+' and '%', so it never contains '&', '=', '?', '#' or '/' |
| UrlCodec.DecodeEncode | src/main/java/com/example/api_gateway_bff/config/SecurityConfig.java:298 | decoding the encoding of any ASCII text gives that text back |
| UrlCodec.EncodeUnreserved | src/main/java/com/example/api_gateway_bff/controller/AuthController.java:219 | text made only of unreserved characters is encoded as itself |
| WebContext.CallbackUrl | src/main/java/com/example/api_gateway_bff/config/SecurityConfig.java:308-313 | the callback URL starts with the frontend URL and is at least "/auth-callback" longer |

## Left out

- `AuthController.extractAppBasePath` and `isOriginAllowed` (AuthController.java:125-173): these are the same code as the `FrontendUrlUtils` methods, so they are modelled once.
- `AuthController.logout`, `AuthService`, the security filter chain, CORS, CSRF, token refresh, rate limiting and the PKCE customizer: outside this model. The delegate resolver's result is a parameter.
- Logging, and the network exchange with the resource server (WebClient, `block`, timeouts): the upstream answer (or null) is a parameter. The `webClients` lookup and how a base URL's own path joins the target path are not modelled. Only scheme, host and port reach the outbound request.
- `MediaType.parseMediaType`: the content type is passed on as text, and a malformed content type (which throws) is not modelled.
- The route table is a `HashMap`. Its iteration order is given as the order of a sequence (`ApiProxyController.Enumerates`); the hash order itself is not modelled.
- `request.getSession()` creating a session, and the session's concurrency: the session is an existing object.
- Spring's relaxed property binding and placeholders: the environment is a map of exact keys. `ResourceServerProperties.TimeoutProperty` models a timeout that fails conversion as the load reporting failure (`ok == false`). In the code that failure is an exception thrown at start-up.
- `JavaUri.Parse`: IPv6 literals and other bracketed hosts are refused instead of parsed. Only the URI features the core reads are modelled.
- `UrlCodec.Decode`: bytes from 0x80 up are decoded as U+FFFD, so multi-byte UTF-8 is not decoded (only ASCII round-trips are proved). `Character.digit` on non-ASCII digits is not modelled.
- `JavaText.ToUpper`: ASCII case mapping only.
- `JavaRegex.Matches`: only the constructs the allow-list rewrite produces (literals, escaped characters, `.`, `*`) are parsed. Any other regex metacharacter in an entry makes the pattern unparsable, and it then admits nothing.
- `SecurityConfig.OnAuthenticationSuccess` uses the guard as written (`AsWritten`), and every operation uses the allow-list rewrite as written, because the model follows the code. The corrected guard and the glob reading of `*` (see Findings) are proved alongside: the guard through `HandlerSpec`, which takes the guard as a parameter, and the glob reading through `FrontendUrlUtils.IsOriginAllowedGlob`.

## Findings

| source | as written | input that shows it | evidently intended | confidence | as-written member | corrected member |
|---|---|---|---|---|---|---|
| src/main/java/com/example/api_gateway_bff/util/FrontendUrlUtils.java:82 | `replace("*", ".*")` runs before `replace(".", "\\.")`, so the dot just inserted for `*` is escaped as well and `*` matches only a run of literal dots | entry `http://localhost:*`, origin `http://localhost:3000`: refused | `*` matches any text, so the entry admits every localhost port (the same rewrite is at SecurityConfig.java:358) | high, not executed | FrontendUrlUtils.LocalhostWildcardRefusesPort | FrontendUrlUtils.LocalhostGlobAdmitsPort |
| src/main/java/com/example/api_gateway_bff/config/SecurityConfig.java:338-339 | any URL whose host is null counts as safe, and that includes an absolute URL with no authority | `https:evil.com` as return_to: parsed with scheme https and no host, so it is accepted and forwarded | only a relative reference (no scheme, no authority) may skip the host check | medium, not executed | SecurityConfig.OpaqueUrlPassesGuard | SecurityConfig.FixedGuardIntended |
