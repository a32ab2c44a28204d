/** The request gate in front of every page: anonymous visitors are sent to the login
    page unless the path is public, and signed-in users are sent away from it. The
    session and the URL are inputs. */
module Middleware {
  import opened Common

  const PublicRoutes: seq<string> := ["/login", "/api/auth", "/api/debug", "/api/test-token"]

  /** publicRoutes.some(route => pathname.startsWith(route)). */
  predicate IsPublicRoute(pathname: string) {
    exists k :: 0 <= k < |PublicRoutes| && StartsWith(pathname, PublicRoutes[k])
  }

  /** What the gate answers: a redirect to /login carrying the requested path as
      callbackUrl, a redirect to '/', or passing the request on. */
  datatype Decision = RedirectToLogin(callbackUrl: string) | RedirectHome | Next

  function Gate(isLoggedIn: bool, pathname: string): (d: Decision)
    ensures d.RedirectToLogin? <==> !isLoggedIn && !IsPublicRoute(pathname)
    ensures d.RedirectToLogin? ==> d.callbackUrl == pathname
    ensures d == RedirectHome <==> isLoggedIn && pathname == "/login"
    ensures d == Next <==> (isLoggedIn && pathname != "/login") || (!isLoggedIn && IsPublicRoute(pathname))
  {
    if !isLoggedIn && !IsPublicRoute(pathname) then RedirectToLogin(pathname)
    else if isLoggedIn && pathname == "/login" then RedirectHome
    else Next
  }

  /** A path is public exactly when it starts with one of the four prefixes. */
  lemma PublicIffPrefix(pathname: string)
    ensures IsPublicRoute(pathname) <==>
      StartsWith(pathname, "/login") || StartsWith(pathname, "/api/auth")
      || StartsWith(pathname, "/api/debug") || StartsWith(pathname, "/api/test-token")
  {
    if StartsWith(pathname, "/login") { assert StartsWith(pathname, PublicRoutes[0]); }
    if StartsWith(pathname, "/api/auth") { assert StartsWith(pathname, PublicRoutes[1]); }
    if StartsWith(pathname, "/api/debug") { assert StartsWith(pathname, PublicRoutes[2]); }
    if StartsWith(pathname, "/api/test-token") { assert StartsWith(pathname, PublicRoutes[3]); }
  }

  /** The test is on prefixes, so any path that merely begins like a public one is
      public too. */
  lemma LoginPrefixIsPublic(rest: string)
    ensures Gate(false, "/login" + rest) == Next
  {
    assert ("/login" + rest)[..6] == "/login";
    assert StartsWith("/login" + rest, PublicRoutes[0]);
  }

  /** The login page never redirects to itself: anonymous visitors reach it, signed-in
      users are sent home, and nobody signed in is ever sent to it. */
  lemma NoLoginLoop(isLoggedIn: bool, pathname: string)
    ensures Gate(false, "/login") == Next
    ensures isLoggedIn ==> !Gate(isLoggedIn, pathname).RedirectToLogin?
    ensures IsPublicRoute(pathname) ==> Gate(false, pathname) == Next
  {
    LoginPrefixIsPublic("");
    assert "/login" + "" == "/login";
  }
}
