/** The dashboard route guard: on mount, the dashboard compares the role
    stored at login with the role the page is for. The stored value is a
    parameter here and the navigation is returned as a value. */
module DashboardLayout {
  import opened Wrappers

  datatype Navigation = Stay | NavigateTo(path: string)

  /** The dashboard route of a role. */
  function DashboardPath(role: string): (path: string)
    ensures |path| == |role| + 11 && path[0] == '/'
  {
    "/" + role + "/dashboard"
  }

  /** `!storedRole` is true for a missing value and for the empty string;
      any other stored role different from the page's sends the user to
      that role's dashboard. */
  function Guard(storedRole: Option<string>, userRole: string): (nav: Navigation)
    ensures storedRole == None || storedRole == Some("") ==> nav == NavigateTo("/")
    ensures storedRole == Some(userRole) && userRole != "" ==> nav == Stay
    ensures storedRole.Some? && storedRole.value != "" && storedRole.value != userRole ==>
      nav == NavigateTo(DashboardPath(storedRole.value))
  {
    match storedRole
    case None => NavigateTo("/")
    case Some(role) =>
      if role == "" then NavigateTo("/")
      else if role != userRole then NavigateTo(DashboardPath(role))
      else Stay
  }

  /** Different roles have different dashboards. */
  lemma DashboardPathInjective(a: string, b: string)
    requires DashboardPath(a) == DashboardPath(b)
    ensures a == b
  {
    assert a == DashboardPath(a)[1..|a| + 1];
    assert b == DashboardPath(b)[1..|b| + 1];
  }

  /** Exactly one outcome applies: back to login exactly when no role is
      stored, no navigation exactly when the stored role is the page's, and
      otherwise the stored role's own dashboard, never the page's or any
      other role's. */
  lemma GuardOutcomes(storedRole: Option<string>, userRole: string)
    ensures Guard(storedRole, userRole) == NavigateTo("/") <==>
      storedRole == None || storedRole == Some("")
    ensures Guard(storedRole, userRole) == Stay <==>
      storedRole == Some(userRole) && userRole != ""
    ensures forall r :: Guard(storedRole, userRole) == NavigateTo(DashboardPath(r)) <==>
      storedRole == Some(r) && r != "" && r != userRole
  {
    forall r ensures Guard(storedRole, userRole) == NavigateTo(DashboardPath(r)) <==>
      storedRole == Some(r) && r != "" && r != userRole
    {
      if Guard(storedRole, userRole) == NavigateTo(DashboardPath(r)) {
        assert DashboardPath(r) != "/";
        DashboardPathInjective(storedRole.value, r);
      }
    }
  }

  /** Once redirected, the guard of the dashboard reached lets the user stay. */
  lemma RedirectSettles(storedRole: string, userRole: string)
    requires Guard(Some(storedRole), userRole).NavigateTo?
    requires Guard(Some(storedRole), userRole).path != "/"
    ensures Guard(Some(storedRole), storedRole) == Stay
  {
  }
}
