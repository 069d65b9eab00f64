/**
 * The parser behind new java.net.URI(String) (and URI.create), restricted
 * to what the gateway reads back: scheme, raw and decoded authority, host,
 * port and path. It follows the parser's own order of decisions: the scheme,
 * then an opaque or hierarchical part, the authority tried first as
 * user-info@host:port and otherwise kept as a registry-based authority whose
 * host is null, then path, query and fragment. Positions are indices into
 * the whole input, as in the parser.
 */
module JavaUri {
  import opened Wrappers
  import UrlCodec

  /** A parsed URI; None stands for a null component, port -1 for no port. */
  datatype Uri = Uri(
    scheme: Option<string>,
    authority: Option<string>,
    userInfo: Option<string>,
    host: Option<string>,
    port: int,
    path: Option<string>,
    query: Option<string>,
    fragment: Option<string>)
  {
    /** URI.getAuthority: the authority with its escapes decoded. */
    function DecodedAuthority(): Option<string> {
      match authority
      case Some(a) => Some(UrlCodec.DecodeEscapes(a))
      case None => None
    }

    /** URI.getPath: the path with its escapes decoded. */
    function DecodedPath(): Option<string> {
      match path
      case Some(p) => Some(UrlCodec.DecodeEscapes(p))
      case None => None
    }
  }

  /** The largest value Integer.parseInt accepts. */
  const MaxInt: int := 0x7FFF_FFFF

  /** The port of a URI without one. */
  const NoPort: int := -1

  predicate IsAlpha(c: char) { ('a' <= c <= 'z') || ('A' <= c <= 'Z') }
  predicate IsDigit(c: char) { '0' <= c <= '9' }
  predicate IsAlphaNum(c: char) { IsAlpha(c) || IsDigit(c) }
  predicate IsHex(c: char) { IsDigit(c) || ('a' <= c <= 'f') || ('A' <= c <= 'F') }

  predicate IsMark(c: char) {
    c == '-' || c == '_' || c == '.' || c == '!' || c == '~' || c == '*' || c == '\'' || c == '(' || c == ')'
  }

  predicate IsUnreserved(c: char) { IsAlphaNum(c) || IsMark(c) }

  predicate IsReserved(c: char) {
    c == ';' || c == '/' || c == '?' || c == ':' || c == '@' || c == '&' || c == '=' || c == '+'
    || c == '$' || c == ',' || c == '[' || c == ']'
  }

  /** Character.isSpaceChar above U+0080. */
  predicate IsWideSpace(c: char) {
    var n := c as int;
    n == 0xA0 || n == 0x1680 || (0x2000 <= n <= 0x200A) || n == 0x2028 || n == 0x2029
    || n == 0x202F || n == 0x205F || n == 0x3000
  }

  /** Non-ASCII characters that may appear unescaped wherever escapes may. */
  predicate IsOther(c: char) {
    c as int > 128 && !IsWideSpace(c) && !(c as int <= 0x9F)
  }

  /** The character classes the parser checks components against. */
  datatype CharClass = SchemeChars | UricChars | PathChars | UserInfoChars | RegNameChars | ServerChars

  predicate Allowed(k: CharClass, c: char) {
    match k
    case SchemeChars => IsAlphaNum(c) || c == '+' || c == '-' || c == '.'
    case UricChars => IsReserved(c) || IsUnreserved(c) || c == '%' || IsOther(c)
    case PathChars =>
      IsUnreserved(c) || c == ':' || c == '@' || c == '&' || c == '=' || c == '+' || c == '$'
      || c == ',' || c == ';' || c == '/' || c == '%' || IsOther(c)
    case UserInfoChars =>
      IsUnreserved(c) || c == ';' || c == ':' || c == '&' || c == '=' || c == '+' || c == '$'
      || c == ',' || c == '%' || IsOther(c)
    case RegNameChars =>
      IsUnreserved(c) || c == '$' || c == ',' || c == ';' || c == ':' || c == '@' || c == '&'
      || c == '=' || c == '+' || c == '%' || IsOther(c)
    case ServerChars =>
      IsUnreserved(c) || c == ';' || c == ':' || c == '&' || c == '=' || c == '+' || c == '$'
      || c == ',' || c == '%' || IsOther(c) || c == '@' || c == '[' || c == ']'
  }

  /** Every character of s[a..b] is in class k. */
  function AllIn(s: string, a: nat, b: nat, k: CharClass): (r: bool)
    requires a <= b <= |s|
    ensures r <==> forall i :: a <= i < b ==> Allowed(k, s[i])
    decreases b - a
  {
    a == b || (Allowed(k, s[a]) && AllIn(s, a + 1, b, k))
  }

  /** Every '%' is followed by two hexadecimal digits (a malformed escape is an error anywhere). */
  predicate WellEscaped(s: string) {
    forall i :: 0 <= i < |s| && s[i] == '%' ==> i + 2 < |s| && IsHex(s[i + 1]) && IsHex(s[i + 2])
  }

  /** The first index in [a, b) holding one of the characters in stops, or b. */
  function FindAny(s: string, a: nat, b: nat, stops: string): (r: nat)
    requires a <= b <= |s|
    ensures a <= r <= b
    ensures r < b ==> s[r] in stops
    ensures forall i :: a <= i < r ==> s[i] !in stops
    decreases b - a
  {
    if a == b || s[a] in stops then a else FindAny(s, a + 1, b, stops)
  }

  /** The end of the run in [a, b) of characters satisfying the test: letters/digits, with dashes, digits, digits with dots. */
  datatype Run = AlphaNums | AlphaNumsDashes | Digits | DigitsDots

  predicate InRun(k: Run, c: char) {
    match k
    case AlphaNums => IsAlphaNum(c)
    case AlphaNumsDashes => IsAlphaNum(c) || c == '-'
    case Digits => IsDigit(c)
    case DigitsDots => IsDigit(c) || c == '.'
  }

  function RunEnd(s: string, a: nat, b: nat, k: Run): (r: nat)
    requires a <= b <= |s|
    ensures a <= r <= b
    ensures r < b ==> !InRun(k, s[r])
    ensures forall i :: a <= i < r ==> InRun(k, s[i])
    decreases b - a
  {
    if a == b || !InRun(k, s[a]) then a else RunEnd(s, a + 1, b, k)
  }

  /** The decimal value of the digits s[a..b]. */
  function DigitsValue(s: string, a: nat, b: nat): (v: nat)
    requires a <= b <= |s|
    decreases b - a
  {
    if a == b then 0
    else 10 * DigitsValue(s, a, b - 1) + (if IsDigit(s[b - 1]) then s[b - 1] as int - '0' as int else 0)
  }

  /** scanByte: a run of digits of value at most 255, or no progress. */
  function ByteEnd(s: string, p: nat, m: nat): (q: nat)
    requires p <= m <= |s|
    ensures p <= q <= m
  {
    var q := RunEnd(s, p, m, Digits);
    if q > p && DigitsValue(s, p, q) > 255 then p else q
  }

  /** scan(p, m, '.'). */
  function DotEnd(s: string, p: nat, m: nat): (q: nat)
    requires p <= m <= |s|
    ensures p <= q <= m
  {
    if p < m && s[p] == '.' then p + 1 else p
  }

  /** scanIPv4Address: four bytes separated by dots that fill the run of digits and dots. */
  function IPv4End(s: string, start: nat, n: nat): (r: Option<nat>)
    requires start <= n <= |s|
    ensures r.Some? ==> start < r.value <= n
  {
    var m := RunEnd(s, start, n, DigitsDots);
    if m <= start then None
    else
      var q1 := ByteEnd(s, start, m);
      if q1 <= start then None else
      var d1 := DotEnd(s, q1, m);
      if d1 <= q1 then None else
      var q2 := ByteEnd(s, d1, m);
      if q2 <= d1 then None else
      var d2 := DotEnd(s, q2, m);
      if d2 <= q2 then None else
      var q3 := ByteEnd(s, d2, m);
      if q3 <= d2 then None else
      var d3 := DotEnd(s, q3, m);
      if d3 <= q3 then None else
      var q4 := ByteEnd(s, d3, m);
      if q4 <= d3 || q4 < m then None else Some(q4)
  }

  /** parseIPv4Address: an address, when only a ':' or the end follows it. */
  function ParseIPv4(s: string, start: nat, n: nat): (r: Option<nat>)
    requires start <= n <= |s|
    ensures r.Some? ==> start < r.value <= n
  {
    match IPv4End(s, start, n)
    case None => None
    case Some(p) => if p < n && s[p] != ':' then None else Some(p)
  }

  /**
   * The label loop of parseHostname: labels of letters, digits and inner
   * dashes separated by single dots. Yields where it stopped and where the
   * last label began, or None when a label ends with a dash.
   */
  function HostLabels(s: string, p: nat, n: nat, last: Option<nat>): (r: Option<(nat, Option<nat>)>)
    requires p <= n <= |s|
    requires last.Some? ==> last.value < p
    ensures r.Some? ==> p <= r.value.0 <= n
    ensures r.Some? && r.value.1.Some? ==> r.value.1.value < r.value.0
    ensures r.Some? && r.value.1.Some? && r.value.1 != last ==> p <= r.value.1.value && IsAlphaNum(s[r.value.1.value])
    ensures r.Some? && r.value.1 == None ==> last == None
    decreases n - p
  {
    var q := RunEnd(s, p, n, AlphaNums);
    if q <= p then Some((p, last))
    else
      var q2 := RunEnd(s, q, n, AlphaNumsDashes);
      if q2 > q && s[q2 - 1] == '-' then None
      else if q2 < n && s[q2] == '.' then
        if q2 + 1 < n then HostLabels(s, q2 + 1, n, Some(p)) else Some((q2 + 1, Some(p)))
      else Some((q2, Some(p)))
  }

  /** parseHostname: the end of the host name, or None when the parser would fail. */
  function ParseHostname(s: string, start: nat, n: nat): (r: Option<nat>)
    requires start <= n <= |s|
    ensures r.Some? ==> start < r.value <= n
    ensures r.Some? && r.value < n ==> s[r.value] == ':'
  {
    match HostLabels(s, start, n, None)
    case None => None
    case Some((p, last)) =>
      if p < n && s[p] != ':' then None
      else if last.None? then None
      else if last.value > start && !IsAlpha(s[last.value]) then None
      else Some(p)
  }

  /** A server-based authority: user-info, host and port (-1 when absent). */
  datatype Server = Server(userInfo: Option<string>, host: string, port: int)

  /** The port after the host: nothing, or ':' followed by digits (possibly none) that fit in an int. */
  function ParsePort(s: string, p: nat, n: nat): (r: Option<int>)
    requires p <= n <= |s|
    ensures r.Some? ==> -1 <= r.value <= MaxInt
  {
    if p == n then Some(NoPort)
    else if s[p] != ':' then None
    else if p + 1 == n then Some(NoPort)
    else if !(RunEnd(s, p + 1, n, Digits) == n) then None
    else if DigitsValue(s, p + 1, n) > MaxInt then None
    else Some(DigitsValue(s, p + 1, n))
  }

  /** parseServer over the authority s[a..n]. An IPv6 literal ('[') is refused. */
  function ParseServer(s: string, a: nat, n: nat): (r: Option<Server>)
    requires a <= n <= |s|
  {
    var at := FindAny(s, a, n, "@");
    var hasUser := at < n;
    if hasUser && !AllIn(s, a, at, UserInfoChars) then None
    else
      var h := if hasUser then at + 1 else a;
      var user := if hasUser then Some(s[a..at]) else None;
      if h < n && s[h] == '[' then None
      else
        var hostEnd := match ParseIPv4(s, h, n) case Some(q) => Some(q) case None => ParseHostname(s, h, n);
        match hostEnd
        case None => None
        case Some(q) =>
          match ParsePort(s, q, n)
          case None => None
          case Some(port) => Some(Server(user, s[h..q], port))
  }

  /** What parseAuthority settles on: a server, a registry-based authority (null host), or failure. */
  datatype Authority = ServerBased(server: Server) | RegistryBased

  function ParseAuthority(s: string, a: nat, n: nat): (r: Option<Authority>)
    requires a <= n <= |s|
  {
    var serverChars := AllIn(s, a, n, ServerChars);
    var regChars := AllIn(s, a, n, RegNameChars);
    if regChars && !serverChars then Some(RegistryBased)
    else
      var server := if serverChars then ParseServer(s, a, n) else None;
      if server.Some? then Some(ServerBased(server.value))
      else if regChars then Some(RegistryBased)
      else None
  }

  /** The path, and the query when a '?' follows, from p on; the result also gives where they end. */
  function ParsePathQuery(s: string, p: nat): (r: Option<(string, Option<string>, nat)>)
    requires p <= |s|
    ensures r.Some? ==> p <= r.value.2 <= |s| && (r.value.2 < |s| ==> s[r.value.2] == '#')
  {
    var n := |s|;
    var q := FindAny(s, p, n, "?#");
    if !AllIn(s, p, q, PathChars) then None
    else if q < n && s[q] == '?' then
      var e := FindAny(s, q + 1, n, "#");
      if !AllIn(s, q + 1, e, UricChars) then None
      else Some((s[p..q], Some(s[q + 1..e]), e))
    else Some((s[p..q], None, q))
  }

  /** parseHierarchical from p: an optional "//" authority, then path and query. */
  function ParseHierarchical(s: string, scheme: Option<string>, p: nat): (r: Option<(Uri, nat)>)
    requires p <= |s|
    ensures r.Some? ==> r.value.0.scheme == scheme && r.value.0.path.Some?
    ensures r.Some? && r.value.0.host.Some? ==> r.value.0.authority.Some?
    ensures r.Some? ==> p <= r.value.1 <= |s| && (r.value.1 < |s| ==> s[r.value.1] == '#')
  {
    var n := |s|;
    if p + 1 < n && s[p] == '/' && s[p + 1] == '/' then
      var a := p + 2;
      var q := FindAny(s, a, n, "/?#");
      if q > a then
        match ParseAuthority(s, a, q)
        case None => None
        case Some(auth) =>
          match ParsePathQuery(s, q)
          case None => None
          case Some((path, query, e)) =>
            var uri := match auth
              case ServerBased(srv) => Uri(scheme, Some(s[a..q]), srv.userInfo, Some(srv.host), srv.port, Some(path), query, None)
              case RegistryBased => Uri(scheme, Some(s[a..q]), None, None, NoPort, Some(path), query, None);
            Some((uri, e))
      else if q < n then
        match ParsePathQuery(s, q)
        case None => None
        case Some((path, query, e)) => Some((Uri(scheme, None, None, None, NoPort, Some(path), query, None), e))
      else None
    else
      match ParsePathQuery(s, p)
      case None => None
      case Some((path, query, e)) => Some((Uri(scheme, None, None, None, NoPort, Some(path), query, None), e))
  }

  /** The scheme-specific part and fragment after the scheme's ':' (or from 0 without a scheme). */
  function ParseRest(s: string, scheme: Option<string>, p: nat): (r: Option<Uri>)
    requires p <= |s|
    ensures r.Some? ==> r.value.scheme == scheme
    ensures r.Some? && r.value.host.Some? ==> r.value.authority.Some? && r.value.path.Some?
  {
    var n := |s|;
    var body :=
      if scheme.None? || (p < n && s[p] == '/') then ParseHierarchical(s, scheme, p)
      else
        var q := FindAny(s, p, n, "#");
        if q <= p || !AllIn(s, p, q, UricChars) then None
        else Some((Uri(scheme, None, None, None, NoPort, None, None, None), q));
    match body
    case None => None
    case Some((uri, e)) =>
      if e < n then
        if AllIn(s, e + 1, n, UricChars) then Some(uri.(fragment := Some(s[e + 1..]))) else None
      else Some(uri)
  }

  /** new URI(s): None when it throws URISyntaxException. */
  function Parse(s: string): (r: Option<Uri>)
    ensures r.Some? ==> WellEscaped(s)
    ensures r.Some? && r.value.host.Some? ==> r.value.authority.Some?
  {
    if !WellEscaped(s) then None
    else
      var p := FindAny(s, 0, |s|, ":/?#");
      if p < |s| && s[p] == ':' then
        if p == 0 || !IsAlpha(s[0]) || !AllIn(s, 1, p, SchemeChars) then None
        else ParseRest(s, Some(s[..p]), p + 1)
      else ParseRest(s, None, 0)
  }

  // ----- a concrete Referer -----

  /** The characters of http://localhost:5173/my-books/reviews up to its path. */
  lemma LocalRefererChars(s: string)
    requires s == "http://localhost:5173/my-books/reviews"
    ensures |s| == 38 && s[4] == ':' && s[5] == '/' && s[6] == '/' && s[16] == ':' && s[21] == '/'
    ensures forall i :: 0 <= i < 4 ==> IsAlpha(s[i])
    ensures forall i :: 7 <= i < 16 ==> IsAlpha(s[i])
    ensures forall i :: 17 <= i < 21 ==> IsDigit(s[i])
    ensures s[17] == '5' && s[18] == '1' && s[19] == '7' && s[20] == '3'
  {
  }

  /** The path characters of http://localhost:5173/my-books/reviews. */
  lemma LocalRefererPathChars(s: string)
    requires s == "http://localhost:5173/my-books/reviews"
    ensures |s| == 38 && s[30] == '/' && forall i :: 22 <= i < 38 && i != 30 ==> IsUnreserved(s[i])
  {
  }

  /** No escape, query, fragment or user-info marks in http://localhost:5173/my-books/reviews. */
  lemma LocalRefererPlain(s: string)
    requires s == "http://localhost:5173/my-books/reviews"
    ensures forall i :: 0 <= i < |s| ==> s[i] != '%' && s[i] != '?' && s[i] != '#' && s[i] != '@'
  {
  }

  lemma LocalRefererSlices(s: string)
    requires s == "http://localhost:5173/my-books/reviews"
    ensures s[..4] == "http" && s[7..16] == "localhost" && s[7..21] == "localhost:5173"
    ensures s[21..] == "/my-books/reviews"
  {
    var a, b, c, d := "http://", "localhost", ":5173", "/my-books/reviews";
    assert s == a + b + c + d;
    assert s[..4] == a[..4];
    assert s[7..16] == b;
    assert s[7..21] == b + c;
    assert s[21..] == d;
  }

  /** The authority "localhost:5173" is server-based: host localhost, port 5173. */
  lemma LocalRefererServer(s: string)
    requires s == "http://localhost:5173/my-books/reviews"
    ensures ParseServer(s, 7, 21) == Some(Server(None, "localhost", 5173))
  {
    LocalRefererChars(s);
    LocalRefererPlain(s);
    assert FindAny(s, 7, 21, "@") == 21;
    assert RunEnd(s, 7, 21, DigitsDots) == 7;
    assert ParseIPv4(s, 7, 21) == None;
    assert RunEnd(s, 7, 21, AlphaNums) == 16;
    assert RunEnd(s, 16, 21, AlphaNumsDashes) == 16;
    assert HostLabels(s, 7, 21, None) == Some((16, Some(7)));
    assert ParseHostname(s, 7, 21) == Some(16);
    assert RunEnd(s, 17, 21, Digits) == 21;
    assert DigitsValue(s, 17, 21) == 5173;
    LocalRefererSlices(s);
  }

  lemma LocalRefererAuthority(s: string)
    requires s == "http://localhost:5173/my-books/reviews"
    ensures ParseAuthority(s, 7, 21) == Some(ServerBased(Server(None, "localhost", 5173)))
  {
    LocalRefererChars(s);
    assert AllIn(s, 7, 21, ServerChars);
    assert AllIn(s, 7, 21, RegNameChars);
    LocalRefererServer(s);
  }

  lemma LocalRefererPath(s: string)
    requires s == "http://localhost:5173/my-books/reviews"
    ensures ParsePathQuery(s, 21) == Some(("/my-books/reviews", None, |s|))
  {
    LocalRefererChars(s);
    LocalRefererPathChars(s);
    LocalRefererPlain(s);
    LocalRefererSlices(s);
    assert FindAny(s, 21, |s|, "?#") == |s|;
    assert AllIn(s, 21, |s|, PathChars);
    assert s[21..|s|] == s[21..];
  }

  lemma LocalRefererHierarchical(s: string)
    requires s == "http://localhost:5173/my-books/reviews"
    ensures ParseHierarchical(s, Some("http"), 5)
      == Some((Uri(Some("http"), Some("localhost:5173"), None, Some("localhost"), 5173, Some("/my-books/reviews"), None, None), |s|))
  {
    LocalRefererChars(s);
    LocalRefererPlain(s);
    LocalRefererSlices(s);
    assert FindAny(s, 7, |s|, "/?#") == 21;
    LocalRefererAuthority(s);
    LocalRefererPath(s);
  }

  /** new URI of http://localhost:5173/my-books/reviews: scheme http, server localhost:5173, path /my-books/reviews. */
  lemma ParseLocalReferer(s: string)
    requires s == "http://localhost:5173/my-books/reviews"
    ensures Parse(s)
      == Some(Uri(Some("http"), Some("localhost:5173"), None, Some("localhost"), 5173, Some("/my-books/reviews"), None, None))
  {
    LocalRefererChars(s);
    LocalRefererPlain(s);
    LocalRefererSlices(s);
    assert WellEscaped(s);
    assert FindAny(s, 0, |s|, ":/?#") == 4;
    assert AllIn(s, 1, 4, SchemeChars);
    LocalRefererHierarchical(s);
  }
}
