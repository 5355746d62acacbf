/** The route guard: what a protected page renders for the result of the
    session check and the current path. */
module RouteGuard {
  import opened Wrappers

  /** What the guard renders. */
  datatype View = Nothing | Redirect(to: string) | Children

  const LoginPath: string := "/login"
  const DashboardPath: string := "/dashboard"

  /** `setIsAuthenticated(!!session)`: once the check has run, the flag is
      known, and it is true exactly when a session exists. */
  function AuthAfterCheck<S>(session: Option<S>): (isAuthenticated: Option<bool>)
    ensures isAuthenticated.Some?
    ensures isAuthenticated.value <==> session.Some?
  {
    Some(session.Some?)
  }

  /** The render decision; `isAuthenticated` is `None` while the check is
      pending. */
  function Guard(isAuthenticated: Option<bool>, pathname: string): (v: View)
    ensures v == Nothing <==> isAuthenticated.None?
    ensures v == Redirect(LoginPath) <==> isAuthenticated == Some(false) && pathname != LoginPath
    ensures v == Redirect(DashboardPath) <==> isAuthenticated == Some(true) && pathname == LoginPath
    ensures v == Children <==>
              (isAuthenticated == Some(false) && pathname == LoginPath) ||
              (isAuthenticated == Some(true) && pathname != LoginPath)
    ensures v.Redirect? ==> v.to == LoginPath || v.to == DashboardPath
  {
    if isAuthenticated.None? then Nothing
    else if !isAuthenticated.value && pathname != LoginPath then Redirect(LoginPath)
    else if isAuthenticated.value && pathname == LoginPath then Redirect(DashboardPath)
    else Children
  }

  /** A redirect never points back at the current path, and following it
      with the same session state renders the page: there is no redirect
      loop. */
  lemma RedirectSettles(isAuthenticated: Option<bool>, pathname: string)
    ensures Guard(isAuthenticated, pathname).Redirect? ==>
              Guard(isAuthenticated, pathname).to != pathname &&
              Guard(isAuthenticated, Guard(isAuthenticated, pathname).to) == Children
  {
    assert LoginPath != DashboardPath by { assert LoginPath[1] != DashboardPath[1]; }
  }

  /** After the check, nothing is rendered only while it is pending: a
      signed-in user sees every page but the login page, and a signed-out
      user sees only the login page. */
  lemma GuardAfterCheck<S>(session: Option<S>, pathname: string)
    ensures Guard(AuthAfterCheck(session), pathname) != Nothing
    ensures Guard(AuthAfterCheck(session), pathname) == Children <==> (session.Some? <==> pathname != LoginPath)
  {
  }
}
