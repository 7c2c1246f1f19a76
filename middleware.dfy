/** The Next.js middleware of src/middleware.ts, which runs on every route: allowlisted
    path prefixes pass, other requests pass only when an `auth-token` cookie is present,
    and the rest are redirected to the login page. */
module Middleware {

  /** The cookie whose presence marks a signed-in browser. */
  const AuthCookie: string := "auth-token"

  /** Where requests without the cookie are sent. */
  const LoginPath: string := "/login"

  /** The allowlist, compared with `startsWith`: the last entry is Next.js matcher syntax,
      but here it is just a string. */
  const UnprotectedRoutes: seq<string> := ["/login", "/test", "/api/:path*"]

  /** `NextResponse.next()` or `NextResponse.redirect` to a path on the same origin. */
  datatype Decision = Next | Redirect(location: string)

  /** `routes.some((route) => pathname.startsWith(route))`. */
  function SomePrefix(routes: seq<string>, pathname: string): (found: bool)
    ensures found <==> exists i :: 0 <= i < |routes| && routes[i] <= pathname
  {
    if routes == [] then false
    else if routes[0] <= pathname then true
    else
      var found := SomePrefix(routes[1..], pathname);
      assert found ==> exists i :: 0 <= i < |routes| && routes[i] <= pathname by {
        if found {
          var j :| 0 <= j < |routes[1..]| && routes[1..][j] <= pathname;
          assert routes[j + 1] <= pathname;
        }
      }
      found
  }

  /** A path the allowlist lets through, spelled out entry by entry. */
  predicate Unprotected(pathname: string)
  {
    "/login" <= pathname || "/test" <= pathname || "/api/:path*" <= pathname
  }

  /** The middleware's decision for a request path and the request's cookies. */
  function Gate(pathname: string, cookies: map<string, string>): (d: Decision)
    ensures d == Next || d == Redirect(LoginPath)
    ensures d == Redirect(LoginPath) <==> !Unprotected(pathname) && AuthCookie !in cookies
  {
    assert SomePrefix(UnprotectedRoutes, pathname) <==> Unprotected(pathname) by {
      var r := UnprotectedRoutes;
      assert r[0] == "/login" && r[1] == "/test" && r[2] == "/api/:path*";
    }
    if SomePrefix(UnprotectedRoutes, pathname) then Next
    else if AuthCookie !in cookies then Redirect(LoginPath)
    else Next
  }

  /** The login and test pages pass whether or not the cookie is there. */
  lemma LoginAndTestAlwaysPass(pathname: string, cookies: map<string, string>)
    requires "/login" <= pathname || "/test" <= pathname
    ensures Gate(pathname, cookies) == Next
  {
  }

  /** Matching is by string prefix, not by path segment: longer names pass too. */
  lemma PrefixIsNotASegment()
    ensures Gate("/loginx", map[]) == Next
    ensures Gate("/testing", map[]) == Next
  {
  }

  /** The API entry is compared literally: below `/api/`, only a path that really begins
      with the characters `/api/:path*` passes without the cookie, so `/api/users` does not. */
  lemma ApiEntryIsLiteral(pathname: string, cookies: map<string, string>)
    requires "/api/" <= pathname && AuthCookie !in cookies
    ensures Gate(pathname, cookies) == Next <==> "/api/:path*" <= pathname
    ensures Gate("/api/users", cookies) == Redirect(LoginPath)
  {
    assert pathname[1] == 'a';
    assert !("/login" <= pathname) && !("/test" <= pathname);
    var users := "/api/users";
    assert users[5] == 'u';
    assert !("/api/:path*" <= users) && !("/login" <= users) && !("/test" <= users);
  }

  /** Without the cookie, every path outside the allowlist is redirected to `/login`. */
  lemma NoCookieRedirects(pathname: string, cookies: map<string, string>)
    requires !Unprotected(pathname) && AuthCookie !in cookies
    ensures Gate(pathname, cookies) == Redirect(LoginPath)
  {
  }

  /** With the cookie, every path passes, and the cookie's value is never looked at. */
  lemma CookiePresenceSuffices(pathname: string, cookies: map<string, string>, value: string, other: string)
    ensures AuthCookie in cookies ==> Gate(pathname, cookies) == Next
    ensures Gate(pathname, cookies[AuthCookie := value]) == Gate(pathname, cookies[AuthCookie := other])
  {
  }

  /** The redirect target is itself allowlisted, so following a redirect never redirects again. */
  lemma RedirectTargetPasses(pathname: string, cookies: map<string, string>, next: map<string, string>)
    ensures Gate(pathname, cookies).Redirect? ==> Gate(Gate(pathname, cookies).location, next) == Next
  {
  }

  /** As written, the login form's own request is turned away: a signed-out browser posting
      its credentials to `/api/auth` is redirected to `/login`, and so are the test page's
      calls to `/api/users/login` and `/api/audio/upload`. */
  lemma SignedOutLoginRequestIsRedirected()
    ensures Gate("/api/auth", map[]) == Redirect(LoginPath)
    ensures Gate("/api/users/login", map[]) == Redirect(LoginPath)
    ensures Gate("/api/audio/upload", map[]) == Redirect(LoginPath)
  {
    ApiEntryIsLiteral("/api/auth", map[]);
    ApiEntryIsLiteral("/api/users/login", map[]);
    ApiEntryIsLiteral("/api/audio/upload", map[]);
    assert "/api/auth"[5] == 'a' && "/api/users/login"[5] == 'u' && "/api/audio/upload"[5] == 'a';
  }

  /** The allowlist as its last entry is evidently meant, read as a Next.js path pattern:
      `/api/:path*` stands for `/api` and every path below it. */
  predicate IntendedUnprotected(pathname: string)
  {
    "/login" <= pathname || "/test" <= pathname || pathname == "/api" || "/api/" <= pathname
  }

  /** The middleware with the API entry matched as a pattern. */
  function IntendedGate(pathname: string, cookies: map<string, string>): (d: Decision)
    ensures d == Next || d == Redirect(LoginPath)
    ensures d == Redirect(LoginPath) <==> !IntendedUnprotected(pathname) && AuthCookie !in cookies
  {
    if IntendedUnprotected(pathname) then Next
    else if AuthCookie !in cookies then Redirect(LoginPath)
    else Next
  }

  /** Every API route passes without the cookie, so signing in from a signed-out browser
      works; outside `/api` the decision is exactly the one the code makes. */
  lemma IntendedGateOpensApi(pathname: string, cookies: map<string, string>)
    ensures "/api/" <= pathname ==> IntendedGate(pathname, cookies) == Next
    ensures IntendedGate("/api/auth", map[]) == Next
    ensures !("/api" <= pathname) ==> IntendedGate(pathname, cookies) == Gate(pathname, cookies)
  {
  }
}
