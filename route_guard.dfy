/** The route guard that wraps every page: it waits for the authentication
    state, sends anonymous visitors to the login page and keeps non-admins
    out of admin pages. */
module RouteGuard {
  import opened Common

  const LoginPath := "/login"

  /** What the guard renders. The redirect remembers the page asked for and
      replaces the history entry. */
  datatype Outcome =
    | Spinner
    | Redirect(to: string, from: string, replace: bool)
    | AccessDenied
    | RenderChildren

  /** `requireAdmin` is the optional prop, false when absent; `authenticated`
      and `admin` are what the authentication context answers. */
  function Guard(loading: bool, authenticated: bool, admin: bool, requireAdmin: Option<bool>, location: string)
    : (o: Outcome)
    ensures o.Spinner? <==> loading
    ensures o.Redirect? <==> !loading && !authenticated
    ensures o.Redirect? ==> o == Redirect(LoginPath, location, true)
    ensures o.AccessDenied? <==> !loading && authenticated && requireAdmin == Some(true) && !admin
    ensures o.RenderChildren? <==> !loading && authenticated && (admin || requireAdmin != Some(true))
  {
    if loading then Spinner
    else if !authenticated then Redirect(LoginPath, location, true)
    else if requireAdmin.GetOr(false) && !admin then AccessDenied
    else RenderChildren
  }

  /** Without the prop the guard behaves as for `requireAdmin = false`. */
  lemma {:induction false} AbsentPropMeansFalse(loading: bool, authenticated: bool, admin: bool, location: string)
    ensures Guard(loading, authenticated, admin, None, location) == Guard(loading, authenticated, admin, Some(false), location)
  {
  }
}
