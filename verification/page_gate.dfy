/** The frontend page gate: for each request the Next.js middleware sees, a
    decision from whether the access_token cookie is present and the path.
    The middleware runs only on the paths its matcher lists. */
module PageGate {
  import opened Domain
  import opened Text

  datatype Decision = Next | RedirectLogin | RedirectDashboard

  const LoginPath := "/login"
  const ApiAuthPath := "/api/auth"
  const DashboardPath := "/dashboard"

  /** The login check is a prefix test, so "/login-help" counts as the login page. */
  predicate IsLoginPage(path: string)
  {
    StartsWith(path, LoginPath)
  }

  predicate IsApiAuth(path: string)
  {
    StartsWith(path, ApiAuthPath)
  }

  /** The middleware body. The cookie's value is never looked at: only whether
      it is there. */
  function Middleware(token: Option<string>, path: string): (d: Decision)
    ensures d == RedirectLogin <==> token.None? && !IsLoginPage(path) && !IsApiAuth(path)
    ensures d == RedirectDashboard <==> token.Some? && IsLoginPage(path)
  {
    if token.None? && !IsLoginPage(path) && !IsApiAuth(path) then RedirectLogin
    else if token.Some? && IsLoginPage(path) then RedirectDashboard
    else Next
  }

  /** The decision depends on the presence of the token and not on its contents. */
  lemma OnlyPresenceMatters(t1: Option<string>, t2: Option<string>, path: string)
    requires t1.Some? <==> t2.Some?
    ensures Middleware(t1, path) == Middleware(t2, path)
  {
  }

  /** Following either redirect does not redirect again: the login page lets
      a visitor without a token through, and the dashboard lets one with a
      token through. */
  lemma NoRedirectLoop(token: Option<string>, path: string)
    ensures Middleware(token, path) == RedirectLogin ==> Middleware(token, LoginPath) == Next
    ensures Middleware(token, path) == RedirectDashboard ==> Middleware(token, DashboardPath) == Next
  {
    assert !IsLoginPage(DashboardPath) by {
      assert DashboardPath[1] == 'd';
    }
  }

  /** Any path that merely begins with "/login" passes as the login page, so
      a visitor without a token is let through to it. */
  lemma LoginCheckIsPrefix(suffix: string)
    ensures IsLoginPage(LoginPath + suffix)
    ensures Middleware(None, LoginPath + suffix) == Next
  {
    assert (LoginPath + suffix)[..|LoginPath|] == LoginPath;
  }

  /** One matcher entry "/p/:path*": the path /p itself or anything under /p/. */
  predicate UnderPrefix(path: string, prefix: string)
  {
    path == prefix || StartsWith(path, prefix + "/")
  }

  /** The matcher as written: the dashboard and the four section prefixes. */
  predicate Matched(path: string)
  {
    || UnderPrefix(path, "/dashboard")
    || UnderPrefix(path, "/managers")
    || UnderPrefix(path, "/zookeepers")
    || UnderPrefix(path, "/cages")
    || UnderPrefix(path, "/animals")
  }

  /** What a request sees: the middleware's decision on matched paths, and
      Next everywhere else. */
  function Handle(token: Option<string>, path: string): (d: Decision)
    ensures !Matched(path) ==> d == Next
    ensures Matched(path) ==> d == Middleware(token, path)
  {
    if Matched(path) then Middleware(token, path) else Next
  }

  /** No matched path starts with "/login". */
  lemma MatchedIsNeverLogin(path: string)
    requires Matched(path)
    ensures !IsLoginPage(path)
  {
    var p := path;
    if UnderPrefix(p, "/dashboard") { assert p[1] == 'd'; }
    else if UnderPrefix(p, "/managers") { assert p[1] == 'm'; }
    else if UnderPrefix(p, "/zookeepers") { assert p[1] == 'z'; }
    else if UnderPrefix(p, "/cages") { assert p[1] == 'c'; }
    else { assert p[1] == 'a'; }
  }

  /** As written, the redirect of a signed-in visitor to the dashboard never
      happens: the only paths that reach the middleware are not login pages. */
  lemma DashboardRedirectUnreachable(token: Option<string>, path: string)
    ensures Handle(token, path) != RedirectDashboard
  {
    if Matched(path) {
      MatchedIsNeverLogin(path);
    }
  }

  /** A signed-in visitor opening /login is shown the login page. */
  lemma SignedInLoginShown(token: string)
    ensures Handle(Some(token), LoginPath) == Next
  {
    DashboardRedirectUnreachable(Some(token), LoginPath);
  }

  /** The matcher with the login page added, as the middleware body expects. */
  predicate MatchedWithLogin(path: string)
  {
    Matched(path) || UnderPrefix(path, LoginPath)
  }

  /** The gate with the corrected matcher. */
  function HandleWithLogin(token: Option<string>, path: string): (d: Decision)
    ensures !MatchedWithLogin(path) ==> d == Next
    ensures MatchedWithLogin(path) ==> d == Middleware(token, path)
  {
    if MatchedWithLogin(path) then Middleware(token, path) else Next
  }

  /** With the corrected matcher a signed-in visitor on /login is sent to the
      dashboard, and neither redirect leads to another. */
  lemma LoginMatcherRedirects(token: Option<string>, path: string)
    ensures token.Some? ==> HandleWithLogin(token, LoginPath) == RedirectDashboard
    ensures HandleWithLogin(token, path) == RedirectLogin ==> HandleWithLogin(token, LoginPath) == Next
    ensures HandleWithLogin(token, path) == RedirectDashboard ==> HandleWithLogin(token, DashboardPath) == Next
  {
    assert UnderPrefix(LoginPath, LoginPath);
    assert UnderPrefix(DashboardPath, "/dashboard");
    assert !IsLoginPage(DashboardPath) by {
      assert DashboardPath[1] == 'd';
    }
  }
}
