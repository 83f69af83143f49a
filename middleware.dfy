/** The request middleware: requests for the split-bill host are served from
    the `/splitbill` section of the site, except its API routes; the matcher
    decides which paths reach the middleware at all. */
module Middleware {
  import opened Common

  const SplitbillHost: string := "splitbill.futureboard.xyz"
  const ApiPrefix: string := "/api/"
  const SplitbillPrefix: string := "/splitbill"

  /** What the middleware answers: let the request through unchanged, or
      serve it from another path of the same site. */
  datatype Response = Next | Rewrite(pathname: string)

  /** The routing decision for one request. */
  function Route(hostname: string, pathname: string): (r: Response)
    ensures hostname != SplitbillHost ==> r == Next
    ensures hostname == SplitbillHost && StartsWith(pathname, ApiPrefix) ==> r == Next
    ensures r.Rewrite? <==> hostname == SplitbillHost && !StartsWith(pathname, ApiPrefix)
    ensures r.Rewrite? ==>
      (StartsWith(r.pathname, SplitbillPrefix) && r.pathname[|SplitbillPrefix|..] == pathname)
  {
    if hostname == SplitbillHost then
      if StartsWith(pathname, ApiPrefix) then Next
      else Rewrite(SplitbillPrefix + pathname)
    else Next
  }

  /** A rewritten path is never itself an API path, so a page request is
      never turned into an API call. */
  lemma RewriteIsNotApi(hostname: string, pathname: string)
    requires Route(hostname, pathname).Rewrite?
    ensures !StartsWith(Route(hostname, pathname).pathname, ApiPrefix)
  {
    var p := Route(hostname, pathname).pathname;
    assert p[1] == 's';
  }

  /** Two requests on the split-bill host that are rewritten land on
      different paths exactly when they asked for different paths. */
  lemma RewriteInjective(p1: string, p2: string)
    requires Route(SplitbillHost, p1).Rewrite? && Route(SplitbillHost, p2).Rewrite?
    ensures Route(SplitbillHost, p1) == Route(SplitbillHost, p2) <==> p1 == p2
  {
  }

  /** A regular-expression `.`: every character but a line terminator. */
  predicate AnyChar(c: char) {
    c != '\n' && c != '\r' && c != '\U{2028}' && c != '\U{2029}'
  }

  /** `s` begins with a match of the regular expression `pattern`, in which
      every character is literal except `.`. */
  predicate PatternPrefix(pattern: string, s: string) {
    |pattern| <= |s| &&
    forall k :: 0 <= k < |pattern| ==> if pattern[k] == '.' then AnyChar(s[k]) else s[k] == pattern[k]
  }

  /** The matcher `/((?!_next/static|_next/image|favicon.ico).*)`, as the
      anchored regular expression it stands for: a leading `/`, then text that
      does not begin with one of the three excluded prefixes (the `.` of
      `favicon.ico` is a wildcard), with no line terminator. */
  predicate Matches(pathname: string) {
    |pathname| >= 1 && pathname[0] == '/' &&
    (forall k :: 1 <= k < |pathname| ==> AnyChar(pathname[k])) &&
    !PatternPrefix("_next/static", pathname[1..]) &&
    !PatternPrefix("_next/image", pathname[1..]) &&
    !PatternPrefix("favicon.ico", pathname[1..])
  }

  /** The middleware as the framework runs it: requests whose path the
      matcher refuses are served without it. */
  function Handle(hostname: string, pathname: string): (r: Response)
    ensures !Matches(pathname) ==> r == Next
    ensures Matches(pathname) ==> r == Route(hostname, pathname)
    ensures r.Rewrite? ==> Matches(pathname) && hostname == SplitbillHost
  {
    if Matches(pathname) then Route(hostname, pathname) else Next
  }

  /** For a path of ordinary characters, the matcher refuses exactly the
      paths whose text after the leading `/` starts with `_next/static`,
      `_next/image` or `favicon.ico`. */
  lemma MatcherExcludesPrefixes(pathname: string)
    requires |pathname| >= 1 && pathname[0] == '/'
    requires forall k :: 0 <= k < |pathname| ==> AnyChar(pathname[k])
    ensures Matches(pathname) <==>
      !StartsWith(pathname[1..], "_next/static") &&
      !StartsWith(pathname[1..], "_next/image") &&
      !(PatternPrefix("favicon.ico", pathname[1..]))
    ensures StartsWith(pathname[1..], "favicon.ico") ==> !Matches(pathname)
  {
    var rest := pathname[1..];
    LiteralPattern("_next/static", rest);
    LiteralPattern("_next/image", rest);
    if StartsWith(rest, "favicon.ico") {
      assert PatternPrefix("favicon.ico", rest);
    }
  }

  /** A pattern without `.` matches exactly its own text. */
  lemma LiteralPattern(pattern: string, s: string)
    requires '.' !in pattern
    ensures PatternPrefix(pattern, s) <==> StartsWith(s, pattern)
  {
    if PatternPrefix(pattern, s) {
      assert s[..|pattern|] == pattern;
    }
  }

  /** Because the `.` of `favicon.ico` is a wildcard, `/favicon-ico` is
      refused too, while API and page paths are matched. */
  lemma MatcherExamples()
    ensures !Matches("/favicon.ico")
    ensures !Matches("/favicon-ico")
    ensures !Matches("/_next/static/chunk.js")
    ensures !Matches("/_next/image")
    ensures Matches("/")
    ensures Matches("/api/share")
    ensures Matches("/favicon")
  {
    FaviconRefused("/favicon.ico");
    FaviconRefused("/favicon-ico");
    NextAssetsRefused();
    PagesMatched();
  }

  /** `/favicon`, any one character, then `ico`, is refused. */
  lemma FaviconRefused(pathname: string)
    requires |pathname| == 12 && pathname[..8] == "/favicon" && pathname[9..] == "ico"
    requires AnyChar(pathname[8])
    ensures !Matches(pathname)
  {
    var rest := pathname[1..];
    forall k | 0 <= k < |"favicon.ico"|
      ensures if "favicon.ico"[k] == '.' then AnyChar(rest[k]) else rest[k] == "favicon.ico"[k]
    {
      if k < 7 {
        assert rest[k] == pathname[..8][k + 1];
      } else if k > 7 {
        assert rest[k] == pathname[9..][k - 8];
      }
    }
  }

  lemma NextAssetsRefused()
    ensures !Matches("/_next/static/chunk.js")
    ensures !Matches("/_next/image")
  {
    LiteralPattern("_next/static", "/_next/static/chunk.js"[1..]);
    assert "/_next/static/chunk.js"[1..][..12] == "_next/static";
    LiteralPattern("_next/image", "/_next/image"[1..]);
    assert "/_next/image"[1..] == "_next/image";
  }

  lemma PagesMatched()
    ensures Matches("/")
    ensures Matches("/api/share")
    ensures Matches("/favicon")
  {
    assert "/"[1..] == "";
    var api := "/api/share"[1..];
    assert api == "api/share";
    assert api[0] != "_next/static"[0] && api[0] != "_next/image"[0] && api[0] != "favicon.ico"[0];
    assert "/favicon"[1..] == "favicon";
  }
}
