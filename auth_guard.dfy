/** The front end's route guard (`authGuard`): who may open a page, and where everyone else is
    sent instead. */
module AuthGuard {
  import opened Wrappers

  datatype GuardResult = Allowed | RedirectTo(path: string)

  /** The page a logged-in user is sent back to when a route does not list their role. */
  function HomeOf(role: string): (path: string)
    ensures path != "/login"
  {
    if role == "ADMIN" then "/admin/employees" else if role == "BILL" then "/billing" else "/user/home"
  }

  /** A role of `null` or "" is falsy: nobody is logged in. */
  predicate LoggedIn(userRole: Option<string>) {
    userRole.Some? && userRole.value != ""
  }

  /** `authGuard`, given the stored role and the route's `roles` data (absent when the route sets
      none). */
  function Guard(userRole: Option<string>, expectedRoles: Option<seq<string>>): (r: GuardResult)
    ensures r == RedirectTo("/login") <==> !LoggedIn(userRole)
    ensures r == Allowed <==>
      LoggedIn(userRole) && (expectedRoles.None? || expectedRoles.value == [] || userRole.value in expectedRoles.value)
    ensures r.RedirectTo? && LoggedIn(userRole) ==> r.path == HomeOf(userRole.value)
  {
    if LoggedIn(userRole) then
      if expectedRoles.Some? && |expectedRoles.value| > 0 then
        if userRole.value in expectedRoles.value then Allowed else RedirectTo(HomeOf(userRole.value))
      else Allowed
    else RedirectTo("/login")
  }

  /** A logged-in user is never bounced twice: the home page they are sent to lets them in as soon
      as its route lists their role (or lists none). */
  lemma RedirectSettles(role: string, routeRoles: seq<string>, homeRoles: Option<seq<string>>)
    requires role != "" && Guard(Some(role), Some(routeRoles)).RedirectTo?
    requires homeRoles.None? || homeRoles.value == [] || role in homeRoles.value
    ensures Guard(Some(role), homeRoles) == Allowed
    ensures Guard(Some(role), Some(routeRoles)).path == HomeOf(role)
  {
  }

  lemma GuardExamples()
    ensures Guard(None, Some(["ADMIN"])) == RedirectTo("/login")
    ensures Guard(Some("USER"), None) == Allowed
    ensures Guard(Some("BILL"), Some(["ADMIN", "USER"])) == RedirectTo("/billing")
    ensures Guard(Some("USER"), Some(["ADMIN"])) == RedirectTo("/user/home")
  {
    assert "BILL" != "ADMIN" && "BILL" != "USER";
    assert "USER" != "ADMIN";
  }
}
