/**
 * FrontendUrlUtils: the application base path of a request path, the
 * comma-separated origin allow-list with its '*' wildcard, and the frontend
 * URL recovered from a Referer header.
 *
 * The allow-list turns each trimmed entry into a regular expression by
 * replacing '*' with ".*" and only then '.' with "\.". The second
 * replacement also rewrites the dot the first one introduced, so a '*' ends
 * up as "\.*": a run of literal dots, not "anything". The model keeps that
 * behaviour; CompileGlob is the wildcard the comment next to it describes.
 */
module FrontendUrlUtils {
  import opened Wrappers
  import opened JavaText
  import JavaUri
  import opened JavaRegex

  // ----- extractAppBasePath -----

  /** First path segments that belong to the gateway itself. */
  predicate IsGatewaySegment(seg: string) {
    seg == "bff" || seg == "api" || seg == "auth-callback"
  }

  /** The shape of a base path: "/" followed by a non-empty segment that is not the gateway's own. */
  predicate IsAppBasePath(b: string) {
    |b| >= 2 && b[0] == '/' && '/' !in b[1..] && !IsGatewaySegment(b[1..])
  }

  /**
   * extractAppBasePath: "/" + the first segment of the path, ignoring the
   * path's first character whatever it is; None for a null, empty or "/"
   * path, an empty first segment or a gateway segment.
   */
  function ExtractAppBasePath(path: Option<string>): (r: Option<string>)
    ensures path.None? || path.value == "" || path.value == "/" ==> r.None?
    ensures r.Some? ==> IsAppBasePath(r.value)
  {
    if path.None? || path.value == "" || path.value == "/" then None
    else
      var segments := Split(path.value[1..], '/');
      if |segments| > 0 && segments[0] != "" then
        var first := segments[0];
        if IsGatewaySegment(first) then None else Some("/" + first)
      else None
  }

  /** The text between the path's first character and the next '/'. */
  function FirstSegment(path: string): (seg: string)
    requires path != ""
    ensures '/' !in seg
    ensures |seg| < |path| && path[1..1 + |seg|] == seg
    ensures 1 + |seg| == |path| || path[1 + |seg|] == '/'
  {
    var rest := path[1..];
    assert rest[..IndexOf(rest, '/', 0)] == path[1..1 + IndexOf(rest, '/', 0)];
    rest[..IndexOf(rest, '/', 0)]
  }

  /** The split in extractAppBasePath only ever looks at the text up to the first '/'. */
  lemma {:induction false} AppBasePathIsFirstSegment(path: string)
    requires path != "" && path != "/"
    ensures ExtractAppBasePath(Some(path))
         == (var seg := FirstSegment(path); if seg != "" && !IsGatewaySegment(seg) then Some("/" + seg) else None)
  {
    var rest := path[1..];
    if rest[..IndexOf(rest, '/', 0)] != "" {
      SplitHead(rest, '/');
    } else {
      SplitHeadEmpty(rest, '/');
    }
  }

  /** "/seg" followed by nothing or by "/..." yields "/seg" when seg is an application segment. */
  lemma AppBasePathOf(seg: string, rest: string)
    requires seg != "" && '/' !in seg && !IsGatewaySegment(seg)
    requires rest == "" || rest[0] == '/'
    ensures ExtractAppBasePath(Some("/" + seg + rest)) == Some("/" + seg)
  {
    var path := "/" + seg + rest;
    AppBasePathIsFirstSegment(path);
    assert forall j :: 1 <= j < 1 + |seg| ==> path[j] == seg[j - 1];
    assert 1 + |seg| == |path| || path[1 + |seg|] == '/';
    assert path[1..1 + |seg|] == seg;
  }

  // ----- the allow-list as written -----

  /** The pattern each trimmed entry becomes: '*' to ".*", then '.' to "\.". */
  function RewriteEntry(entry: string): string {
    Replace(Replace(entry, "*", ".*"), ".", "\\.")
  }

  /** origin.matches(rewritten trimmed entry). */
  predicate EntryAdmits(entry: string, origin: string) {
    Matches(origin, RewriteEntry(Trim(entry)))
  }

  /** The loop over the entries: does any of them admit the origin? */
  function AnyEntryAdmits(origin: string, entries: seq<string>): (b: bool)
    ensures b <==> exists k :: 0 <= k < |entries| && EntryAdmits(entries[k], origin)
  {
    if entries == [] then false
    else
      EntryAdmits(entries[0], origin) || (
        var rest := AnyEntryAdmits(origin, entries[1..]);
        assert forall k :: 1 <= k < |entries| ==> entries[k] == entries[1..][k - 1];
        rest)
  }

  /** isOriginAllowed: false for a blank list, else some comma-separated entry admits the origin. */
  function IsOriginAllowed(origin: string, corsAllowedOrigins: string): (b: bool)
    ensures IsBlank(corsAllowedOrigins) ==> !b
    ensures b <==> !IsBlank(corsAllowedOrigins)
                   && exists k :: 0 <= k < |Split(corsAllowedOrigins, ',')| && EntryAdmits(Split(corsAllowedOrigins, ',')[k], origin)
  {
    !IsBlank(corsAllowedOrigins) && AnyEntryAdmits(origin, Split(corsAllowedOrigins, ','))
  }

  /** An entry in which only '.' and '*' could mean something to a regular expression. */
  predicate PlainEntry(e: string) {
    forall k :: 0 <= k < |e| ==> e[k] == '.' || e[k] == '*' || !IsMeta(e[k])
  }

  /** What the rewrite makes of one character of an entry. */
  function RewriteChar(c: char): string {
    if c == '*' then "\\.*" else if c == '.' then "\\." else [c]
  }

  function RewriteEach(e: string): string {
    if e == "" then "" else RewriteChar(e[0]) + RewriteEach(e[1..])
  }

  /** Replacing a one-character target, character by character. */
  function MapReplace(s: string, c: char, rep: string): string {
    if s == "" then "" else (if s[0] == c then rep else [s[0]]) + MapReplace(s[1..], c, rep)
  }

  lemma {:induction false} ReplaceCharIsMap(s: string, c: char, rep: string, i: nat)
    requires i <= |s|
    ensures ReplaceFrom(s, [c], rep, i) == MapReplace(s[i..], c, rep)
    decreases |s| - i
  {
    if i < |s| {
      ReplaceCharIsMap(s, c, rep, i + 1);
      assert s[i..][1..] == s[i + 1..];
    }
  }

  lemma {:induction false} MapReplaceAppend(a: string, b: string, c: char, rep: string)
    ensures MapReplace(a + b, c, rep) == MapReplace(a, c, rep) + MapReplace(b, c, rep)
  {
    if a != "" {
      MapReplaceAppend(a[1..], b, c, rep);
      assert (a + b)[0] == a[0] && (a + b)[1..] == a[1..] + b;
    } else {
      assert a + b == b;
    }
  }

  lemma {:induction false} DoubleRewrite(e: string)
    ensures MapReplace(MapReplace(e, '*', ".*"), '.', "\\.") == RewriteEach(e)
  {
    if e != "" {
      var head: string := if e[0] == '*' then ".*" else [e[0]];
      assert MapReplace(e, '*', ".*") == head + MapReplace(e[1..], '*', ".*");
      MapReplaceAppend(head, MapReplace(e[1..], '*', ".*"), '.', "\\.");
      DoubleRewrite(e[1..]);
      if e[0] == '*' {
        assert MapReplace(".*", '.', "\\.") == "\\." + MapReplace("*", '.', "\\.");
      }
    }
  }

  /** The rewrite of an entry, read one entry character at a time. */
  lemma RewriteIsEach(e: string)
    ensures RewriteEntry(e) == RewriteEach(e)
  {
    ReplaceCharIsMap(e, '*', ".*", 0);
    ReplaceCharIsMap(MapReplace(e, '*', ".*"), '.', "\\.", 0);
    DoubleRewrite(e);
  }

  /** The pattern a plain entry stands for under the rewrite: each '*' is a run of dots. */
  function Compile(e: string): seq<Piece> {
    if e == "" then [] else [if e[0] == '*' then Star(Lit('.')) else Once(Lit(e[0]))] + Compile(e[1..])
  }

  lemma {:induction false} RewriteEachHead(e: string)
    ensures RewriteEach(e) == "" || RewriteEach(e)[0] != '*'
  {
  }

  lemma {:induction false} ParseRewritten(e: string)
    requires PlainEntry(e)
    ensures ParsePattern(RewriteEach(e)) == Some(Compile(e))
  {
    if e != "" {
      var rest := RewriteEach(e[1..]);
      assert PlainEntry(e[1..]) by {
        assert forall k :: 0 <= k < |e[1..]| ==> e[1..][k] == e[k + 1];
      }
      ParseRewritten(e[1..]);
      RewriteEachHead(e[1..]);
      var p := RewriteChar(e[0]) + rest;
      if e[0] == '*' {
        assert p[..3] == "\\.*" && p[3..] == rest;
      } else if e[0] == '.' {
        assert p[..2] == "\\." && p[2..] == rest;
      } else {
        assert p[0] == e[0] && p[1..] == rest;
      }
    }
  }

  /** For a plain entry, the regex engine runs exactly the compiled pattern. */
  lemma EntryAdmitsCompiled(entry: string, origin: string)
    requires PlainEntry(Trim(entry))
    ensures EntryAdmits(entry, origin) <==> Match(Compile(Trim(entry)), origin)
  {
    RewriteIsEach(Trim(entry));
    ParseRewritten(Trim(entry));
  }

  lemma {:induction false} CompileAppend(a: string, b: string)
    ensures Compile(a + b) == Compile(a) + Compile(b)
  {
    if a != "" {
      CompileAppend(a[1..], b);
      assert (a + b)[0] == a[0] && (a + b)[1..] == a[1..] + b;
    } else {
      assert a + b == b;
    }
  }

  /** A star-free prefix matches itself and nothing else. */
  lemma {:induction false} MatchLiteralPrefix(p: string, ps: seq<Piece>, o: string)
    requires '*' !in p
    ensures Match(Compile(p) + ps, o) <==> |p| <= |o| && o[..|p|] == p && Match(ps, o[|p|..])
  {
    if p != "" {
      var q := Compile(p) + ps;
      assert q[0] == Once(Lit(p[0])) && q[1..] == Compile(p[1..]) + ps;
      if o != "" {
        MatchLiteralPrefix(p[1..], ps, o[1..]);
        if |p| <= |o| {
          assert o[1..][..|p| - 1] == o[1..|p|];
          assert o[1..][|p| - 1..] == o[|p|..];
          assert o[..|p|] == [o[0]] + o[1..|p|];
          assert p == [p[0]] + p[1..];
        }
      }
    } else {
      assert Compile(p) + ps == ps && o[..0] == p && o[0..] == o;
    }
  }

  /** An entry without '*' admits exactly itself (trimmed), as a whole-string match. */
  lemma ExactEntry(entry: string, origin: string)
    requires PlainEntry(Trim(entry)) && '*' !in Trim(entry)
    ensures EntryAdmits(entry, origin) <==> origin == Trim(entry)
  {
    EntryAdmitsCompiled(entry, origin);
    var t := Trim(entry);
    MatchLiteralPrefix(t, [], origin);
    assert Compile(t) + [] == Compile(t);
  }

  /** The trailing "\.*" matches runs of dots and nothing else. */
  lemma {:induction false} DotStarMatches(o: string)
    ensures Match([Star(Lit('.'))], o) <==> forall k :: 0 <= k < |o| ==> o[k] == '.'
    decreases |o|
  {
    assert [Star(Lit('.'))][1..] == [];
    if o != "" {
      DotStarMatches(o[1..]);
      assert forall k :: 1 <= k < |o| ==> o[k] == o[1..][k - 1];
    }
  }

  /** An entry "p*" with a star-free p admits p followed by dots only. */
  lemma TrailingStarOnlyDots(p: string, o: string)
    requires '*' !in p
    ensures Match(Compile(p + "*"), o)
        <==> |p| <= |o| && o[..|p|] == p && forall k :: |p| <= k < |o| ==> o[k] == '.'
  {
    CompileAppend(p, "*");
    assert Compile("*") == [Star(Lit('.'))];
    MatchLiteralPrefix(p, [Star(Lit('.'))], o);
    if |p| <= |o| {
      DotStarMatches(o[|p|..]);
      assert forall k :: |p| <= k < |o| ==> o[k] == o[|p|..][k - |p|];
    }
  }

  /** An entry "p*" refuses every origin that continues p with anything but a dot. */
  lemma StarEntryRefuses(entry: string, p: string, origin: string)
    requires Trim(entry) == p + "*" && '*' !in p && PlainEntry(p + "*")
    requires |p| < |origin| && origin[|p|] != '.'
    ensures !EntryAdmits(entry, origin)
  {
    EntryAdmitsCompiled(entry, origin);
    TrailingStarOnlyDots(p, origin);
  }

  /** With "http://localhost:*" in the list, an origin on port 3000 is refused. */
  lemma LocalhostWildcardRefusesPort(entry: string, origin: string)
    requires entry == "http://localhost:*" && origin == "http://localhost:3000"
    ensures !EntryAdmits(entry, origin)
  {
    var p := "http://localhost:";
    LocalhostWildcard(entry, p);
    assert |p| < |origin| && origin[|p|] != '.';
    StarEntryRefuses(entry, p, origin);
  }

  /** The list "http://localhost:5173,http://localhost:*" refuses an origin on another host. */
  lemma LocalListRefusesForeignHost(cors: string, origin: string)
    requires cors == "http://localhost:5173,http://localhost:*"
    requires origin == "http://malicious-site.com"
    ensures !IsOriginAllowed(origin, cors)
  {
    var exact := "http://localhost:5173";
    var star := "http://localhost:*";
    assert cors == exact + [','] + star;
    TwoEntryList(exact, star, origin);
    ExactEntryRefusesForeignHost(exact, origin);
    var p := "http://localhost:";
    LocalhostWildcard(star, p);
    assert |p| < |origin| && origin[|p|] != '.';
    StarEntryRefuses(star, p, origin);
  }

  /** A list of two entries admits what either entry admits. */
  lemma TwoEntryList(a: string, b: string, origin: string)
    requires ',' !in a && ',' !in b && b != ""
    ensures IsOriginAllowed(origin, a + [','] + b) <==> EntryAdmits(a, origin) || EntryAdmits(b, origin)
  {
    var cors := a + [','] + b;
    assert !IsBlank(cors) by {
      assert cors[|a|] == ',';
    }
    SplitTwo(a, b, ',');
    assert IsOriginAllowed(origin, cors) == AnyEntryAdmits(origin, [a, b]);
    assert AnyEntryAdmits(origin, [a, b]) == (EntryAdmits(a, origin) || AnyEntryAdmits(origin, [b])) by {
      assert [a, b][1..] == [b];
    }
    assert AnyEntryAdmits(origin, [b]) == EntryAdmits(b, origin) by {
      assert [b][1..] == [];
    }
  }

  lemma ExactEntryRefusesForeignHost(entry: string, origin: string)
    requires entry == "http://localhost:5173" && origin == "http://malicious-site.com"
    ensures !EntryAdmits(entry, origin)
  {
    var p, port := "http://localhost:", "5173";
    assert entry == p + port;
    assert PlainEntry(entry) && '*' !in entry by {
      LocalhostPrefixPlain(p);
      assert PlainEntry(port) && '*' !in port;
      PlainAppend(p, port);
    }
    assert Trim(entry) == entry by {
      TrimClean(entry);
    }
    ExactEntry(entry, origin);
  }

  /** The entry "http://localhost:*" is the plain prefix "http://localhost:" and one '*'. */
  lemma LocalhostWildcard(entry: string, p: string)
    requires entry == "http://localhost:*" && p == "http://localhost:"
    ensures Trim(entry) == p + "*" && '*' !in p && PlainEntry(p + "*")
  {
    assert entry == p + "*";
    TrimClean(entry);
    LocalhostPrefixPlain(p);
    assert PlainEntry("*");
    PlainAppend(p, "*");
  }

  lemma LocalhostPrefixPlain(p: string)
    requires p == "http://localhost:"
    ensures PlainEntry(p) && '*' !in p
  {
    var scheme, host := "http://", "localhost:";
    assert p == scheme + host;
    assert PlainEntry(scheme) && '*' !in scheme;
    assert PlainEntry(host) && '*' !in host;
    PlainAppend(scheme, host);
  }

  lemma PlainAppend(a: string, b: string)
    requires PlainEntry(a) && PlainEntry(b)
    ensures PlainEntry(a + b)
    ensures '*' !in a && '*' !in b ==> '*' !in a + b
  {
    assert forall k :: |a| <= k < |a + b| ==> (a + b)[k] == b[k - |a|];
  }

  // ----- the wildcard as intended -----

  /** '*' as a glob: any run of characters. */
  function CompileGlob(e: string): seq<Piece> {
    if e == "" then [] else [if e[0] == '*' then Star(AnyChar) else Once(Lit(e[0]))] + CompileGlob(e[1..])
  }

  /** An entry under the intended wildcard reading. */
  predicate GlobEntryAdmits(entry: string, origin: string) {
    PlainEntry(Trim(entry)) && Match(CompileGlob(Trim(entry)), origin)
  }

  predicate IsOriginAllowedGlob(origin: string, corsAllowedOrigins: string) {
    !IsBlank(corsAllowedOrigins)
    && exists k :: 0 <= k < |Split(corsAllowedOrigins, ',')| && GlobEntryAdmits(Split(corsAllowedOrigins, ',')[k], origin)
  }

  /** Pointwise: every piece of ps admits no more than the piece of qs at its place. */
  predicate Narrower(ps: seq<Piece>, qs: seq<Piece>) {
    |ps| == |qs| && forall k :: 0 <= k < |ps| ==> ps[k] == qs[k] || (ps[k] == Star(Lit('.')) && qs[k] == Star(AnyChar))
  }

  lemma {:induction false} MatchNarrower(ps: seq<Piece>, qs: seq<Piece>, o: string)
    requires Narrower(ps, qs) && Match(ps, o)
    ensures Match(qs, o)
    decreases |ps|, |o|
  {
    if ps != [] {
      assert Narrower(ps[1..], qs[1..]) by {
        assert forall k :: 0 <= k < |ps| - 1 ==> ps[1..][k] == ps[k + 1] && qs[1..][k] == qs[k + 1];
      }
      match ps[0]
      case Once(a) =>
        MatchNarrower(ps[1..], qs[1..], o[1..]);
      case Star(a) =>
        if Match(ps[1..], o) {
          MatchNarrower(ps[1..], qs[1..], o);
        } else {
          MatchNarrower(ps, qs, o[1..]);
        }
    }
  }

  lemma {:induction false} CompileNarrower(e: string)
    ensures Narrower(Compile(e), CompileGlob(e))
  {
    if e != "" {
      CompileNarrower(e[1..]);
    }
  }

  /** The code admits no origin that the intended wildcard would refuse. */
  lemma AsWrittenWithinGlob(entry: string, origin: string)
    requires PlainEntry(Trim(entry)) && EntryAdmits(entry, origin)
    ensures GlobEntryAdmits(entry, origin)
  {
    EntryAdmitsCompiled(entry, origin);
    CompileNarrower(Trim(entry));
    MatchNarrower(Compile(Trim(entry)), CompileGlob(Trim(entry)), origin);
  }

  predicate NoLineTerminator(x: string) {
    forall k :: 0 <= k < |x| ==> !IsLineTerminator(x[k])
  }

  lemma {:induction false} AnyStarMatches(x: string)
    requires NoLineTerminator(x)
    ensures Match([Star(AnyChar)], x)
    decreases |x|
  {
    assert [Star(AnyChar)][1..] == [];
    if x != "" {
      assert NoLineTerminator(x[1..]) by {
        assert forall k :: 0 <= k < |x| - 1 ==> x[1..][k] == x[k + 1];
      }
      AnyStarMatches(x[1..]);
    }
  }

  lemma {:induction false} GlobLiteralPrefix(p: string, ps: seq<Piece>, x: string)
    requires '*' !in p && Match(ps, x)
    ensures Match(CompileGlob(p) + ps, p + x)
  {
    if p != "" {
      var q := CompileGlob(p) + ps;
      assert q[0] == Once(Lit(p[0])) && q[1..] == CompileGlob(p[1..]) + ps;
      GlobLiteralPrefix(p[1..], ps, x);
      assert (p + x)[0] == p[0] && (p + x)[1..] == p[1..] + x;
    } else {
      assert CompileGlob(p) + ps == ps && p + x == x;
    }
  }

  lemma {:induction false} CompileGlobAppend(a: string, b: string)
    ensures CompileGlob(a + b) == CompileGlob(a) + CompileGlob(b)
  {
    if a != "" {
      CompileGlobAppend(a[1..], b);
      assert (a + b)[0] == a[0] && (a + b)[1..] == a[1..] + b;
    } else {
      assert a + b == b;
    }
  }

  /** Under the intended reading "p*" admits p followed by anything on one line, such as any port. */
  lemma GlobTrailingStar(p: string, x: string)
    requires '*' !in p && NoLineTerminator(x)
    ensures Match(CompileGlob(p + "*"), p + x)
  {
    CompileGlobAppend(p, "*");
    assert CompileGlob("*") == [Star(AnyChar)];
    AnyStarMatches(x);
    GlobLiteralPrefix(p, [Star(AnyChar)], x);
  }

  /** Under the intended reading an entry "p*" admits p followed by any one-line text. */
  lemma GlobStarEntryAdmits(entry: string, p: string, x: string)
    requires Trim(entry) == p + "*" && '*' !in p && PlainEntry(p + "*") && NoLineTerminator(x)
    ensures GlobEntryAdmits(entry, p + x)
  {
    GlobTrailingStar(p, x);
  }

  /** Under the intended reading "http://localhost:*" admits an origin on port 3000. */
  lemma LocalhostGlobAdmitsPort(entry: string, origin: string)
    requires entry == "http://localhost:*" && origin == "http://localhost:3000"
    ensures GlobEntryAdmits(entry, origin)
  {
    var p := "http://localhost:";
    LocalhostWildcard(entry, p);
    assert NoLineTerminator("3000");
    assert origin == p + "3000";
    GlobStarEntryAdmits(entry, p, "3000");
  }

  // ----- extractFrontendUrlFromReferer -----

  /** scheme + "://" + authority, with Java's "null" for a missing part. */
  function BaseOrigin(u: JavaUri.Uri): string {
    Str(u.scheme) + "://" + Str(u.DecodedAuthority())
  }

  /** The url is an allow-listed origin, alone or followed by an application base path. */
  predicate AllowedOriginWithBasePath(url: string, corsAllowedOrigins: string) {
    exists k :: 0 <= k <= |url| && IsOriginAllowed(url[..k], corsAllowedOrigins)
                && (k == |url| || IsAppBasePath(url[k..]))
  }

  /** An allow-listed origin on its own is a trusted frontend URL. */
  lemma AllowedOriginAlone(origin: string, corsAllowedOrigins: string)
    requires IsOriginAllowed(origin, corsAllowedOrigins)
    ensures AllowedOriginWithBasePath(origin, corsAllowedOrigins)
  {
    assert origin[..|origin|] == origin;
  }

  /** An allow-listed origin followed by an application base path is a trusted frontend URL. */
  lemma AllowedOriginWithApp(origin: string, b: string, corsAllowedOrigins: string)
    requires IsOriginAllowed(origin, corsAllowedOrigins) && IsAppBasePath(b)
    ensures AllowedOriginWithBasePath(origin + b, corsAllowedOrigins)
  {
    assert (origin + b)[..|origin|] == origin && (origin + b)[|origin|..] == b;
  }

  /**
   * extractFrontendUrlFromReferer: None for a null, blank or malformed
   * Referer or an origin outside the list; otherwise the origin with the
   * Referer path's application base path, when it has one.
   */
  function ExtractFrontendUrlFromReferer(referer: Option<string>, corsAllowedOrigins: string): (r: Option<string>)
    ensures referer.None? || IsBlank(referer.value) || JavaUri.Parse(referer.value).None? ==> r.None?
    ensures r.Some? <==> (referer.Some? && !IsBlank(referer.value) && JavaUri.Parse(referer.value).Some?
                          && IsOriginAllowed(BaseOrigin(JavaUri.Parse(referer.value).value), corsAllowedOrigins))
    ensures r.Some? ==>
      var u := JavaUri.Parse(referer.value).value;
      r.value == BaseOrigin(u) + match ExtractAppBasePath(u.DecodedPath()) case Some(b) => b case None => ""
    ensures r.Some? ==> AllowedOriginWithBasePath(r.value, corsAllowedOrigins)
  {
    if referer.None? || IsBlank(referer.value) then None
    else
      match JavaUri.Parse(referer.value)
      case None => None
      case Some(u) =>
        var base := BaseOrigin(u);
        if IsOriginAllowed(base, corsAllowedOrigins) then
          match ExtractAppBasePath(u.DecodedPath())
          case Some(b) =>
            AllowedOriginWithApp(base, b, corsAllowedOrigins);
            Some(base + b)
          case None =>
            AllowedOriginAlone(base, corsAllowedOrigins);
            Some(base)
        else None
  }

  // ----- the Referer of the controller test -----

  /** The entry "http://localhost:5173" admits that origin. */
  lemma ExactEntryAdmitsLocal(entry: string, origin: string)
    requires entry == "http://localhost:5173" && origin == entry
    ensures EntryAdmits(entry, origin)
  {
    var p, port := "http://localhost:", "5173";
    assert entry == p + port;
    assert PlainEntry(entry) && '*' !in entry by {
      LocalhostPrefixPlain(p);
      assert PlainEntry(port) && '*' !in port;
      PlainAppend(p, port);
    }
    assert Trim(entry) == entry by {
      TrimClean(entry);
    }
    ExactEntry(entry, origin);
  }

  /** The controller test's allow-list admits http://localhost:5173 through its exact entry. */
  lemma LocalListAdmitsLocal(cors: string, origin: string)
    requires cors == "http://localhost:5173,http://localhost:*"
    requires origin == "http://localhost:5173"
    ensures IsOriginAllowed(origin, cors)
  {
    var exact := "http://localhost:5173";
    var star := "http://localhost:*";
    assert cors == exact + [','] + star;
    TwoEntryList(exact, star, origin);
    ExactEntryAdmitsLocal(exact, origin);
  }

  /**
   * A Referer whose authority and path hold no escapes, whose origin is
   * allow-listed and whose path starts with an ordinary segment gives
   * scheme://authority/segment.
   */
  lemma RefererWithBasePath(referer: string, scheme: string, authority: string, seg: string, rest: string,
                            corsAllowedOrigins: string)
    requires !IsBlank(referer) && JavaUri.Parse(referer).Some?
    requires JavaUri.Parse(referer).value.scheme == Some(scheme)
    requires JavaUri.Parse(referer).value.authority == Some(authority) && '%' !in authority
    requires JavaUri.Parse(referer).value.path == Some("/" + seg + rest) && '%' !in "/" + seg + rest
    requires seg != "" && '/' !in seg && !IsGatewaySegment(seg) && (rest == "" || rest[0] == '/')
    requires IsOriginAllowed(scheme + "://" + authority, corsAllowedOrigins)
    ensures ExtractFrontendUrlFromReferer(Some(referer), corsAllowedOrigins) == Some(scheme + "://" + authority + "/" + seg)
  {
    var u := JavaUri.Parse(referer).value;
    RefererParts(u, scheme, authority, seg, rest);
    ConcatAfterOrigin(scheme + "://" + authority, "/", seg);
  }

  /** The origin and application base path of a parsed Referer without escapes. */
  lemma RefererParts(u: JavaUri.Uri, scheme: string, authority: string, seg: string, rest: string)
    requires u.scheme == Some(scheme) && u.authority == Some(authority) && '%' !in authority
    requires u.path == Some("/" + seg + rest) && '%' !in "/" + seg + rest
    requires seg != "" && '/' !in seg && !IsGatewaySegment(seg) && (rest == "" || rest[0] == '/')
    ensures BaseOrigin(u) == scheme + "://" + authority
    ensures ExtractAppBasePath(u.DecodedPath()) == Some("/" + seg)
  {
    assert u.DecodedAuthority() == Some(authority);
    assert u.DecodedPath() == Some("/" + seg + rest);
    AppBasePathOf(seg, rest);
  }

  lemma ConcatAfterOrigin(origin: string, slash: string, seg: string)
    ensures origin + (slash + seg) == origin + slash + seg
  {
  }

  /**
   * The controller test's Referer http://localhost:5173/my-books/reviews,
   * with the test's allow-list, gives http://localhost:5173/my-books.
   */
  lemma RefererOfControllerTest(referer: string, cors: string)
    requires referer == "http://localhost:5173/my-books/reviews"
    requires cors == "http://localhost:5173,http://localhost:*"
    ensures ExtractFrontendUrlFromReferer(Some(referer), cors) == Some("http://localhost:5173/my-books")
  {
    JavaUri.ParseLocalReferer(referer);
    assert !IsBlank(referer) by {
      assert !IsWhitespace(referer[0]);
    }
    LocalListAdmitsLocal(cors, "http://localhost:5173");
    LocalRefererFrontend(referer, cors);
  }

  /** The parsed controller-test Referer, under a list admitting its origin, gives http://localhost:5173/my-books. */
  lemma LocalRefererFrontend(referer: string, cors: string)
    requires !IsBlank(referer)
    requires JavaUri.Parse(referer)
      == Some(JavaUri.Uri(Some("http"), Some("localhost:5173"), None, Some("localhost"), 5173, Some("/my-books/reviews"), None, None))
    requires IsOriginAllowed("http://localhost:5173", cors)
    ensures ExtractFrontendUrlFromReferer(Some(referer), cors) == Some("http://localhost:5173/my-books")
  {
    var scheme, authority, seg, rest := "http", "localhost:5173", "my-books", "/reviews";
    LocalRefererParts(JavaUri.Parse(referer).value, scheme, authority, seg, rest);
    assert IsOriginAllowed(scheme + "://" + authority, cors) by {
      LocalOrigin(scheme, authority);
    }
    RefererWithBasePath(referer, scheme, authority, seg, rest, cors);
    MyBooksUrl(scheme, authority, seg);
  }

  /** The parts of the controller test's parsed Referer, in the shape RefererWithBasePath asks for. */
  lemma LocalRefererParts(u: JavaUri.Uri, scheme: string, authority: string, seg: string, rest: string)
    requires u == JavaUri.Uri(Some("http"), Some("localhost:5173"), None, Some("localhost"), 5173, Some("/my-books/reviews"), None, None)
    requires scheme == "http" && authority == "localhost:5173" && seg == "my-books" && rest == "/reviews"
    ensures u.scheme == Some(scheme) && u.authority == Some(authority) && '%' !in authority
    ensures u.path == Some("/" + seg + rest) && '%' !in "/" + seg + rest
    ensures seg != "" && '/' !in seg && !IsGatewaySegment(seg) && (rest == "" || rest[0] == '/')
  {
    MyBooksPath(seg, rest);
  }

  lemma MyBooksPath(seg: string, rest: string)
    requires seg == "my-books" && rest == "/reviews"
    ensures "/" + seg + rest == "/my-books/reviews"
  {
  }

  lemma LocalOrigin(scheme: string, authority: string)
    requires scheme == "http" && authority == "localhost:5173"
    ensures scheme + "://" + authority == "http://localhost:5173"
  {
  }

  lemma MyBooksUrl(scheme: string, authority: string, seg: string)
    requires scheme == "http" && authority == "localhost:5173" && seg == "my-books"
    ensures scheme + "://" + authority + "/" + seg == "http://localhost:5173/my-books"
  {
  }
}
