/**
 * ApiProxyController: requests under /api are routed to a resource server by
 * path prefix, sent on with the user's access token, and the answer is
 * returned with hop-by-hop headers removed. The network exchange itself is
 * a parameter: the upstream answer, or none when the client gave back null.
 */
module ApiProxyController {
  import opened Wrappers
  import opened JavaText
  import JavaUri
  import opened ResourceServerProperties

  /** One entry of the route table, in the table's iteration order. */
  datatype Route = Route(name: string, config: ServerConfig)

  /**
   * The sequence lists the HashMap's entries in its iteration order: each
   * name once, with its route.
   */
  predicate Enumerates(routes: seq<Route>, servers: map<string, ServerConfig>) {
    (forall i :: 0 <= i < |routes| ==> routes[i].name in servers && servers[routes[i].name] == routes[i].config)
    && (forall n :: n in servers ==> exists i :: 0 <= i < |routes| && routes[i].name == n)
    && (forall i, j :: 0 <= i < j < |routes| ==> routes[i].name != routes[j].name)
  }

  /** The first index from i on whose path prefix starts the path. */
  function SelectFrom(routes: seq<Route>, path: string, i: nat): (r: Option<nat>)
    requires i <= |routes|
    ensures r.Some? ==> i <= r.value < |routes| && StartsWith(path, routes[r.value].config.pathPrefix)
    ensures r.Some? ==> forall j :: i <= j < r.value ==> !StartsWith(path, routes[j].config.pathPrefix)
    ensures r.None? ==> forall j :: i <= j < |routes| ==> !StartsWith(path, routes[j].config.pathPrefix)
    decreases |routes| - i
  {
    if i == |routes| then None
    else if StartsWith(path, routes[i].config.pathPrefix) then Some(i)
    else SelectFrom(routes, path, i + 1)
  }

  /** selectService: the first route whose prefix starts the path; an IllegalArgumentException when none does. */
  function SelectService(routes: seq<Route>, path: string): (r: Result<Route, string>)
    ensures r.Success? <==> exists j :: 0 <= j < |routes| && StartsWith(path, routes[j].config.pathPrefix)
    ensures r.Success? ==>
      exists i :: 0 <= i < |routes| && r.value == routes[i]
        && StartsWith(path, routes[i].config.pathPrefix)
        && forall j :: 0 <= j < i ==> !StartsWith(path, routes[j].config.pathPrefix)
    ensures r.Failure? ==> r.error == "No service found for path: " + path
  {
    match SelectFrom(routes, path, 0)
    case Some(i) => Success(routes[i])
    case None => Failure("No service found for path: " + path)
  }

  /** The selected service is in the table and its prefix starts the path. */
  lemma SelectedServiceInTable(routes: seq<Route>, servers: map<string, ServerConfig>, path: string)
    requires Enumerates(routes, servers)
    ensures var r := SelectService(routes, path);
      r.Success? ==>
        r.value.name in servers && servers[r.value.name] == r.value.config
        && StartsWith(path, servers[r.value.name].pathPrefix)
    ensures SelectService(routes, path).Failure? <==> forall n :: n in servers ==> !StartsWith(path, servers[n].pathPrefix)
  {
    var r := SelectService(routes, path);
    if r.Failure? {
      forall n | n in servers ensures !StartsWith(path, servers[n].pathPrefix) {
        var i :| 0 <= i < |routes| && routes[i].name == n;
      }
    }
  }

  /**
   * The first match wins, not the longest: with "/" listed before "/users",
   * /users/1 goes to the "/" service.
   */
  lemma FirstMatchNotLongest(routes: seq<Route>, path: string)
    requires |routes| == 2 && routes[0].config.pathPrefix == "/" && routes[1].config.pathPrefix == "/users"
    requires path == "/users/1"
    ensures StartsWith(path, routes[1].config.pathPrefix)
    ensures SelectService(routes, path) == Success(routes[0])
  {
    assert path[..1] == "/";
    assert path[..6] == "/users";
  }

  /** The path the gateway routes: the request URI with every "/api" removed, left to right. */
  function RewritePath(requestUri: string): string {
    Replace(requestUri, "/api", "")
  }

  /** A URI free of "/api" is routed as it is. */
  lemma RewriteWithoutApi(requestUri: string)
    requires forall k :: 0 <= k < |requestUri| ==> !RegionMatches(requestUri, k, "/api")
    ensures RewritePath(requestUri) == requestUri
  {
    ReplaceAbsent(requestUri, "/api", "", 0);
  }

  /** "/api" followed by a path free of "/api" is routed as that path. */
  lemma RewriteStripsApiPrefix(rest: string)
    requires forall k :: 0 <= k < |rest| ==> !RegionMatches(rest, k, "/api")
    ensures RewritePath("/api" + rest) == rest
  {
    var s := "/api" + rest;
    assert RegionMatches(s, 0, "/api") by {
      assert s[..4] == "/api";
    }
    forall k | 4 <= k < |s| ensures !RegionMatches(s, k, "/api") {
      assert !RegionMatches(rest, k - 4, "/api");
      if k + 4 <= |s| {
        assert s[k..k + 4] == rest[k - 4..k];
      }
    }
    ReplaceAbsent(s, "/api", "", 4);
    assert s[4..] == rest;
  }

  /** Removing "/api" never lengthens the path. */
  lemma RewriteShrinks(requestUri: string)
    ensures |RewritePath(requestUri)| <= |requestUri|
  {
    ReplaceByEmptyShrinks(requestUri, "/api", 0);
  }

  /** The path sent upstream: the route's prefix removed once when it starts the path. */
  function TargetPath(path: string, prefix: string): (target: string)
    ensures StartsWith(path, prefix) ==> prefix + target == path
    ensures !StartsWith(path, prefix) ==> target == path
  {
    if StartsWith(path, prefix) then
      assert path == path[..|prefix|] + path[|prefix|..];
      path[|prefix|..]
    else path
  }

  /** The caller as the security context sees it. */
  datatype Authentication = Authentication(authenticated: bool, anonymous: bool)

  /** The parts of the incoming request the proxy reads; parameters keep their order and all values. */
  datatype InboundRequest = InboundRequest(
    httpMethod: string,
    requestUri: string,
    parameters: seq<(string, seq<string>)>,
    body: Option<string>,
    contentType: Option<string>)

  /** What the proxy sends: the URI parts, the body, and the two headers it sets. */
  datatype OutboundRequest = OutboundRequest(
    httpMethod: string,
    scheme: Option<string>,
    host: Option<string>,
    port: int,
    path: string,
    queryParams: seq<(string, seq<string>)>,
    body: Option<string>,
    bearerToken: Option<string>,
    contentType: Option<string>)

  /** A body is sent for methods other than GET and DELETE, and only a non-empty one. */
  function AttachedBody(httpMethod: string, body: Option<string>): (r: Option<string>)
    ensures r.Some? <==> httpMethod != "GET" && httpMethod != "DELETE" && body.Some? && body.value != ""
    ensures r.Some? ==> r == body
  {
    if httpMethod == "GET" || httpMethod == "DELETE" then None
    else if body.Some? && body.value != "" then body
    else None
  }

  /**
   * The bearer token: sent only for an authenticated, non-anonymous caller
   * whose stored authorized client has an access token (storedToken).
   */
  function BearerToken(auth: Option<Authentication>, storedToken: Option<string>): (r: Option<string>)
    ensures r.Some? <==> auth.Some? && auth.value.authenticated && !auth.value.anonymous && storedToken.Some?
    ensures r.Some? ==> r == storedToken
  {
    if auth.Some? && auth.value.authenticated && !auth.value.anonymous then storedToken else None
  }

  /**
   * The outbound request for a route: scheme, host and port from the
   * route's URL (None when URI.create throws), the stripped path, every
   * inbound parameter, and the body, bearer and content-type decisions.
   */
  function Outbound(config: ServerConfig, inbound: InboundRequest, targetPath: string,
                    auth: Option<Authentication>, storedToken: Option<string>): (r: Option<OutboundRequest>)
    ensures r.Some? <==> JavaUri.Parse(config.url).Some?
    ensures r.Some? ==>
      var base := JavaUri.Parse(config.url).value;
      && r.value.scheme == base.scheme && r.value.host == base.host && r.value.port == base.port
      && r.value.path == targetPath
      && r.value.queryParams == inbound.parameters
      && r.value.httpMethod == inbound.httpMethod
    ensures r.Some? ==> r.value.contentType == inbound.contentType
    ensures r.Some? ==>
      (r.value.body.Some? <==>
        (inbound.httpMethod != "GET" && inbound.httpMethod != "DELETE" && inbound.body.Some? && inbound.body.value != ""))
    ensures r.Some? && r.value.body.Some? ==> r.value.body == inbound.body
    ensures r.Some? ==>
      (r.value.bearerToken.Some? <==>
        (auth.Some? && auth.value.authenticated && !auth.value.anonymous && storedToken.Some?))
    ensures r.Some? && r.value.bearerToken.Some? ==> r.value.bearerToken == storedToken
  {
    match JavaUri.Parse(config.url)
    case None => None
    case Some(base) =>
      Some(OutboundRequest(inbound.httpMethod, base.scheme, base.host, base.port, targetPath, inbound.parameters,
                           AttachedBody(inbound.httpMethod, inbound.body), BearerToken(auth, storedToken),
                           inbound.contentType))
  }

  /**
   * Only the scheme, host and port of a route's URL matter: two routes whose
   * URLs agree on them (whatever their paths, queries or user-info) send the
   * same request.
   */
  lemma OutboundUsesOnlyOrigin(c1: ServerConfig, c2: ServerConfig, inbound: InboundRequest, targetPath: string,
                               auth: Option<Authentication>, storedToken: Option<string>)
    requires JavaUri.Parse(c1.url).Some? && JavaUri.Parse(c2.url).Some?
    requires JavaUri.Parse(c1.url).value.scheme == JavaUri.Parse(c2.url).value.scheme
    requires JavaUri.Parse(c1.url).value.host == JavaUri.Parse(c2.url).value.host
    requires JavaUri.Parse(c1.url).value.port == JavaUri.Parse(c2.url).value.port
    ensures Outbound(c1, inbound, targetPath, auth, storedToken) == Outbound(c2, inbound, targetPath, auth, storedToken)
    ensures Outbound(c1, inbound, targetPath, auth, storedToken).Some?
  {
  }

  // Response filtering

  /** A response header with all its values. */
  datatype Header = Header(name: string, values: seq<string>)

  /** The hop-by-hop and length headers never passed back, in lower case. */
  const ExcludedResponseHeaders: set<string> :=
    {"transfer-encoding", "connection", "keep-alive", "upgrade", "server", "content-length"}

  predicate Excluded(name: string) {
    ToLower(name) in ExcludedResponseHeaders
  }

  /** HttpHeaders compares names without regard to case. */
  predicate SameName(a: string, b: string) {
    ToLower(a) == ToLower(b)
  }

  /** The index of the entry named like name, or |entries|. */
  function IndexOfName(entries: seq<Header>, name: string): (r: nat)
    ensures r <= |entries|
    ensures r < |entries| ==> SameName(entries[r].name, name)
    ensures forall k :: 0 <= k < r ==> !SameName(entries[k].name, name)
  {
    if entries == [] then 0
    else if SameName(entries[0].name, name) then 0
    else 1 + IndexOfName(entries[1..], name)
  }

  /** HttpHeaders.addAll: the values join an entry of the same name, else a new entry is appended. */
  function AddAllTo(entries: seq<Header>, name: string, values: seq<string>): (r: seq<Header>)
    ensures IndexOfName(entries, name) == |entries| ==> r == entries + [Header(name, values)]
    ensures IndexOfName(entries, name) < |entries| ==>
      var i := IndexOfName(entries, name);
      && |r| == |entries|
      && r[i] == Header(entries[i].name, entries[i].values + values)
      && forall k :: 0 <= k < |r| && k != i ==> r[k] == entries[k]
  {
    var i := IndexOfName(entries, name);
    if i == |entries| then entries + [Header(name, values)]
    else entries[i := Header(entries[i].name, entries[i].values + values)]
  }

  /** The response headers the proxy builds: a fresh HttpHeaders filled by addAll. */
  class HttpHeaders {
    var entries: seq<Header>

    constructor ()
      ensures entries == []
    {
      entries := [];
    }

    method AddAll(name: string, values: seq<string>)
      modifies this
      ensures entries == AddAllTo(old(entries), name, values)
    {
      entries := AddAllTo(entries, name, values);
    }
  }

  /** The headers after the forEach over the upstream headers, as a function of them. */
  function FilterHeaders(upstream: seq<Header>): seq<Header>
  {
    if upstream == [] then []
    else
      var last := upstream[|upstream| - 1];
      var before := FilterHeaders(upstream[..|upstream| - 1]);
      if Excluded(last.name) then before else AddAllTo(before, last.name, last.values)
  }

  /** The forEach over the upstream headers, adding every header that is not excluded. */
  method FilterResponseHeaders(upstream: seq<Header>) returns (filtered: HttpHeaders)
    ensures fresh(filtered)
    ensures filtered.entries == FilterHeaders(upstream)
  {
    filtered := new HttpHeaders();
    for i := 0 to |upstream|
      invariant filtered.entries == FilterHeaders(upstream[..i])
    {
      assert upstream[..i + 1][..i] == upstream[..i];
      var h := upstream[i];
      if !Excluded(h.name) {
        filtered.AddAll(h.name, h.values);
      }
    }
    assert upstream[..|upstream|] == upstream;
  }

  /** The upstream headers that are not excluded, in order, with their values. */
  function Kept(upstream: seq<Header>): (r: seq<Header>)
    ensures forall h :: h in r ==> h in upstream && !Excluded(h.name)
    ensures forall h :: h in upstream && !Excluded(h.name) ==> h in r
  {
    if upstream == [] then []
    else
      var last := upstream[|upstream| - 1];
      var init := upstream[..|upstream| - 1];
      var before := Kept(init);
      assert upstream == init + [last];
      if Excluded(last.name) then before else before + [last]
  }

  /** Every entry addAll produces carries a name that was already there or the one added. */
  lemma AddAllNames(entries: seq<Header>, name: string, values: seq<string>)
    ensures forall h :: h in AddAllTo(entries, name, values) ==> h.name == name || exists g :: g in entries && g.name == h.name
  {
    var i := IndexOfName(entries, name);
    if i < |entries| {
      var r := AddAllTo(entries, name, values);
      forall h | h in r ensures h.name == name || exists g :: g in entries && g.name == h.name {
        var k :| 0 <= k < |r| && r[k] == h;
        assert entries[k] in entries;
      }
    }
  }

  /** No excluded header survives the filter, whatever the upstream sends. */
  lemma {:induction false} NoExcludedHeaderSurvives(upstream: seq<Header>)
    ensures forall h :: h in FilterHeaders(upstream) ==> !Excluded(h.name)
  {
    if upstream != [] {
      var last := upstream[|upstream| - 1];
      var before := FilterHeaders(upstream[..|upstream| - 1]);
      NoExcludedHeaderSurvives(upstream[..|upstream| - 1]);
      if !Excluded(last.name) {
        AddAllNames(before, last.name, last.values);
        forall h | h in FilterHeaders(upstream) ensures !Excluded(h.name) {
          if h.name != last.name {
            var g :| g in before && g.name == h.name;
          }
        }
      }
    }
  }

  /** Upstream header names are distinct without regard to case, as in an HttpHeaders. */
  predicate DistinctNames(hs: seq<Header>) {
    forall i, j :: 0 <= i < j < |hs| ==> !SameName(hs[i].name, hs[j].name)
  }

  /**
   * For upstream headers with distinct names the filter keeps exactly the
   * headers that are not excluded, in their order and with their values.
   */
  lemma {:induction false} FilterKeepsExactly(upstream: seq<Header>)
    requires DistinctNames(upstream)
    ensures FilterHeaders(upstream) == Kept(upstream)
  {
    if upstream != [] {
      var last := upstream[|upstream| - 1];
      var init := upstream[..|upstream| - 1];
      FilterKeepsExactly(init);
      if !Excluded(last.name) {
        var before := Kept(init);
        forall k | 0 <= k < |before| ensures !SameName(before[k].name, last.name) {
          assert before[k] in before;
          var j :| 0 <= j < |init| && init[j] == before[k];
        }
        assert IndexOfName(before, last.name) == |before|;
      }
    }
  }

  /** The upstream answer as the exchange sees it; body None stands for an empty body. */
  datatype UpstreamResponse = UpstreamResponse(status: int, headers: seq<Header>, body: Option<string>)

  /** The ResponseEntity handed back to the browser. */
  datatype ProxyResponse = ProxyResponse(status: int, headers: seq<Header>, body: string)

  /** Why proxyAll throws. */
  datatype ProxyError = NoService(message: string) | BadServiceUrl | NullResponse

  /** proxyAll as a function: the request sent (if it got that far) and the response or error. */
  function ProxySpec(routes: seq<Route>, inbound: InboundRequest, auth: Option<Authentication>,
                     storedToken: Option<string>, upstream: Option<UpstreamResponse>): (Option<OutboundRequest>, Result<ProxyResponse, ProxyError>)
  {
    var path := RewritePath(inbound.requestUri);
    match SelectService(routes, path)
    case Failure(message) => (None, Failure(NoService(message)))
    case Success(route) =>
      match Outbound(route.config, inbound, TargetPath(path, route.config.pathPrefix), auth, storedToken)
      case None => (None, Failure(BadServiceUrl))
      case Some(request) =>
        match upstream
        case None => (Some(request), Failure(NullResponse))
        case Some(u) => (Some(request), Success(ProxyResponse(u.status, FilterHeaders(u.headers), u.body.GetOr(""))))
  }

  /**
   * proxyAll: rewrite the path, select the service, strip its prefix, build
   * the outbound request, and return the upstream answer with its status,
   * filtered headers and body ("" when empty). The exchange's answer is the
   * parameter upstream.
   */
  method ProxyAll(routes: seq<Route>, inbound: InboundRequest, auth: Option<Authentication>,
                  storedToken: Option<string>, upstream: Option<UpstreamResponse>)
    returns (sent: Option<OutboundRequest>, response: Result<ProxyResponse, ProxyError>)
    ensures (sent, response) == ProxySpec(routes, inbound, auth, storedToken, upstream)
  {
    var path := RewritePath(inbound.requestUri);
    var selected := SelectService(routes, path);
    if selected.Failure? {
      return None, Failure(NoService(selected.error));
    }
    var serviceConfig := selected.value.config;
    var pathPrefix := serviceConfig.pathPrefix;
    var targetPath := if StartsWith(path, pathPrefix) then path[|pathPrefix|..] else path;
    var request := Outbound(serviceConfig, inbound, targetPath, auth, storedToken);
    if request.None? {
      return None, Failure(BadServiceUrl);
    }
    sent := request;
    if upstream.None? {
      return sent, Failure(NullResponse);
    }
    var filtered := FilterResponseHeaders(upstream.value.headers);
    var body := if upstream.value.body.Some? then upstream.value.body.value else "";
    response := Success(ProxyResponse(upstream.value.status, filtered.entries, body));
  }

  /**
   * A forwarded request goes to the first route whose prefix starts the
   * rewritten path, carries that path with the prefix removed exactly once,
   * and the response keeps the upstream status with no excluded header.
   */
  lemma ProxyRoutesByFirstPrefix(routes: seq<Route>, inbound: InboundRequest, auth: Option<Authentication>,
                                 storedToken: Option<string>, upstream: Option<UpstreamResponse>)
    ensures var (sent, response) := ProxySpec(routes, inbound, auth, storedToken, upstream);
      var path := RewritePath(inbound.requestUri);
      sent.Some? ==>
        exists i :: 0 <= i < |routes|
          && StartsWith(path, routes[i].config.pathPrefix)
          && (forall j :: 0 <= j < i ==> !StartsWith(path, routes[j].config.pathPrefix))
          && routes[i].config.pathPrefix + sent.value.path == path
    ensures var (sent, response) := ProxySpec(routes, inbound, auth, storedToken, upstream);
      response.Success? ==>
        && upstream.Some? && sent.Some?
        && response.value.status == upstream.value.status
        && (forall h :: h in response.value.headers ==> !Excluded(h.name))
        && (upstream.value.body.Some? ==> response.value.body == upstream.value.body.value)
        && (upstream.value.body.None? ==> response.value.body == "")
    ensures var (sent, response) := ProxySpec(routes, inbound, auth, storedToken, upstream);
      sent.Some? ==> (response.Success? <==> upstream.Some?)
    ensures var (sent, response) := ProxySpec(routes, inbound, auth, storedToken, upstream);
      sent.Some? && upstream.None? ==> response == Failure(NullResponse)
    ensures var (sent, response) := ProxySpec(routes, inbound, auth, storedToken, upstream);
      response.Failure? && response.error.NoService? ==>
        && sent.None?
        && response.error.message == "No service found for path: " + RewritePath(inbound.requestUri)
        && forall j :: 0 <= j < |routes| ==> !StartsWith(RewritePath(inbound.requestUri), routes[j].config.pathPrefix)
  {
    var (sent, response) := ProxySpec(routes, inbound, auth, storedToken, upstream);
    if response.Success? {
      NoExcludedHeaderSurvives(upstream.value.headers);
    }
  }
}
