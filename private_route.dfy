/** The route guard (Client/src/routes/PrivateRoute.jsx): what a protected page
    renders for the auth store's current state. */
module PrivateRoute {
  import opened Common

  /** The four things the guard can render. */
  datatype Outcome = ShowLoading | RedirectToLogin | RedirectToNotFound | ShowChildren

  /** The signed-in user as the auth store holds it; only the role matters here. */
  datatype SessionUser = SessionUser(id: Id, role: string)

  /** The guard: loading first, then the login redirect, then the role check when `roles` is given.
      An empty `roles` array is truthy, so it admits nobody. */
  function Decide(loading: bool, user: Option<SessionUser>, roles: Option<seq<string>>): (r: Outcome)
    ensures loading <==> r == ShowLoading
    ensures r == RedirectToLogin <==> !loading && user.None?
    ensures r == RedirectToNotFound <==> !loading && user.Some? && roles.Some? && user.value.role !in roles.value
    ensures r == ShowChildren <==> !loading && user.Some? && (roles.None? || user.value.role in roles.value)
  {
    if loading then ShowLoading
    else if user.None? then RedirectToLogin
    else if roles.Some? && user.value.role !in roles.value then RedirectToNotFound
    else ShowChildren
  }

  /** A guard that lists roles shows its page only to a signed-in user holding one of them, and a
      guard listing no roles shows it to every signed-in user. */
  lemma GuardAdmitsListedRoles(user: SessionUser, roles: seq<string>)
    ensures Decide(false, Some(user), Some(roles)) == ShowChildren <==> user.role in roles
    ensures Decide(false, Some(user), None) == ShowChildren
    ensures Decide(false, Some(user), Some([])) == RedirectToNotFound
    ensures forall l, u :: Decide(l, u, Some(roles)) == ShowChildren ==> Decide(l, u, None) == ShowChildren
  {
  }
}
