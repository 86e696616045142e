/**
 * The request gate in front of the admin area. The session lookup is reduced
 * to its `isLoggedIn` flag, which is a parameter.
 */
module Middleware {

  datatype Decision =
    | NotRun                      // the path is outside the matcher
    | PassThrough                 // `NextResponse.next()`
    | RedirectTo(location: string)

  const LoginPath: string := "/admin/login"

  /** The matcher `/admin/:path*`: `/admin` itself or anything below it. */
  predicate MatchesAdmin(path: string)
  {
    path == "/admin" || "/admin/" <= path
  }

  /** The middleware body: any path that starts with the login path is let
      through, otherwise a visitor without a session is sent to the login
      page. */
  function Gate(path: string, isLoggedIn: bool): (d: Decision)
    ensures d != NotRun
    ensures d.RedirectTo? ==> d.location == LoginPath
    ensures d.RedirectTo? <==> !(LoginPath <= path) && !isLoggedIn
  {
    if LoginPath <= path then PassThrough
    else if !isLoggedIn then RedirectTo(LoginPath)
    else PassThrough
  }

  /** What a request to `path` meets. */
  function HandleRequest(path: string, isLoggedIn: bool): Decision
  {
    if MatchesAdmin(path) then Gate(path, isLoggedIn) else NotRun
  }

  /** An admin page other than the login pages is served exactly when the
      visitor is logged in; otherwise the visitor is redirected to login. */
  lemma AdminPagesNeedSession(path: string, isLoggedIn: bool)
    requires MatchesAdmin(path) && !(LoginPath <= path)
    ensures HandleRequest(path, isLoggedIn) == PassThrough <==> isLoggedIn
    ensures !isLoggedIn ==> HandleRequest(path, isLoggedIn) == RedirectTo(LoginPath)
  {
  }

  /** Paths outside the admin area never reach the gate. */
  lemma PublicPathsUntouched(path: string, isLoggedIn: bool)
    requires !MatchesAdmin(path)
    ensures HandleRequest(path, isLoggedIn) == NotRun
  {
  }

  /** Every path under the login path is served with or without a session. */
  lemma LoginPagesAlwaysServed(path: string, isLoggedIn: bool)
    requires LoginPath <= path
    ensures HandleRequest(path, isLoggedIn) == PassThrough
  {
    assert "/admin/" <= path by {
      assert "/admin/" == LoginPath[..7];
      assert path[..7] == LoginPath[..7];
    }
  }

  /** Following a redirect never redirects again: the target is served to
      everyone, so the gate cannot loop. */
  lemma RedirectTargetIsServed(path: string, isLoggedIn: bool, laterLoggedIn: bool)
    requires HandleRequest(path, isLoggedIn).RedirectTo?
    ensures HandleRequest(HandleRequest(path, isLoggedIn).location, laterLoggedIn) == PassThrough
  {
    LoginPagesAlwaysServed(LoginPath, laterLoggedIn);
  }

  /** The login test is a prefix test, so sibling paths such as
      `/admin/login-audit` are served without a session too. */
  lemma LoginPrefixCoversSiblings(suffix: string, isLoggedIn: bool)
    ensures HandleRequest(LoginPath + suffix, isLoggedIn) == PassThrough
  {
    assert LoginPath <= LoginPath + suffix;
    LoginPagesAlwaysServed(LoginPath + suffix, isLoggedIn);
  }
}
