/**
  proxy.ts: the request gate in front of the admin area. Given the request
  path and the names of the cookies the request carries, it lets the request
  through or redirects it to the login page or the dashboard.
 */
module Proxy {
  import opened JsText

  const AdminPrefix: string := "/admin"
  const LoginPath: string := "/admin/login"
  const DashboardPath: string := "/admin"
  const SessionCookie: string := "authjs.session-token"
  const SecureSessionCookie: string := "__Secure-authjs.session-token"

  datatype Decision = Next | Redirect(location: string)

  /** Either of the two Auth.js cookie names counts as a session. */
  predicate HasSession(cookies: set<string>) {
    SessionCookie in cookies || SecureSessionCookie in cookies
  }

  /** The admin test is a raw prefix test on the path. */
  predicate IsAdminRoute(pathname: string) {
    StartsWith(pathname, AdminPrefix)
  }

  /** proxy: outside the admin area everything passes; inside it, a request
      without a session goes to the login page (unless it is for the login
      page), and a request for the login page with a session goes to the
      dashboard. */
  function Proxy(pathname: string, cookies: set<string>): (d: Decision)
    ensures !IsAdminRoute(pathname) ==> d == Next
    ensures d == Redirect(LoginPath) <==>
      IsAdminRoute(pathname) && pathname != LoginPath && !HasSession(cookies)
    ensures d == Redirect(DashboardPath) <==> pathname == LoginPath && HasSession(cookies)
    ensures d.Redirect? ==> d.location == LoginPath || d.location == DashboardPath
  {
    var isAdminRoute := IsAdminRoute(pathname);
    var isLoginPage := pathname == LoginPath;
    if !isAdminRoute then Next
    else
      var token := HasSession(cookies);
      if isAdminRoute && !isLoginPage && !token then Redirect(LoginPath)
      else if isLoginPage && token then Redirect(DashboardPath)
      else Next
  }

  /** A redirect never points back at the page requested, and the page it
      points to lets the same request through: the gate cannot loop. */
  lemma {:induction false} RedirectsSettle(pathname: string, cookies: set<string>)
    ensures Proxy(pathname, cookies).Redirect? ==>
      Proxy(pathname, cookies).location != pathname &&
      Proxy(Proxy(pathname, cookies).location, cookies) == Next
  {
    assert StartsWith(LoginPath, AdminPrefix);
    assert StartsWith(DashboardPath, AdminPrefix);
    assert LoginPath != DashboardPath;
  }

  /** The login page is reachable without a session. */
  lemma LoginPageOpenWithoutSession(cookies: set<string>)
    requires !HasSession(cookies)
    ensures Proxy(LoginPath, cookies) == Next
  {
    assert StartsWith(LoginPath, AdminPrefix);
  }

  /** With a session, every admin page but the login page is served. */
  lemma {:induction false} SessionPassesAdminPages(pathname: string, cookies: set<string>)
    requires HasSession(cookies) && pathname != LoginPath
    ensures Proxy(pathname, cookies) == Next
  {
  }

  /** The prefix test also catches paths such as "/administrator". */
  lemma AdministratorCountsAsAdmin()
    ensures Proxy("/administrator", {}) == Redirect(LoginPath)
  {
    assert StartsWith("/administrator", AdminPrefix);
  }

  /** The `matcher` of the proxy configuration, "/admin/:path*": the
      framework runs the proxy only for "/admin" and paths below it. */
  predicate MatcherSelects(pathname: string) {
    pathname == DashboardPath || StartsWith(pathname, AdminPrefix + "/")
  }

  /** What a request meets in the deployed application: the proxy where the
      matcher selects it, a plain pass-through elsewhere. */
  function Gate(pathname: string, cookies: set<string>): (d: Decision)
    ensures MatcherSelects(pathname) ==> d == Proxy(pathname, cookies)
    ensures !MatcherSelects(pathname) ==> d == Next
  {
    if MatcherSelects(pathname) then Proxy(pathname, cookies) else Next
  }

  /** Every path the matcher selects is an admin route, so the matcher only
      narrows the proxy: "/administrator" is redirected by the proxy alone but
      passes the deployed gate. */
  lemma {:induction false} MatcherNarrowsProxy(pathname: string, cookies: set<string>)
    ensures MatcherSelects(pathname) ==> IsAdminRoute(pathname)
    ensures Gate("/administrator", {}) == Next
  {
    if StartsWith(pathname, AdminPrefix + "/") {
      assert pathname[..|AdminPrefix|] == pathname[..|AdminPrefix + "/"|][..|AdminPrefix|];
    }
    var p := "/administrator";
    assert p[..7][6] == 'i' && (AdminPrefix + "/")[6] == '/';
  }
}
