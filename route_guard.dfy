/** The route guard of src/components/ProtectedRoute.tsx: what a protected page shows, given the
    authentication state, the role the page requires and the signed-in user's profile. The guard keeps
    no state; each render is one pass through its decision chain. */
module RouteGuard {
  import opened Wrappers
  import opened Entities
  import Text

  /** The name a role is stored and compared under. */
  function RoleName(r: Role): string {
    match r
    case Admin => "admin"
    case TeacherRole => "teacher"
    case StudentRole => "student"
    case ParentRole => "parent"
    case AccountantRole => "accountant"
  }

  /** The profile document of the signed-in user, as read: its role is whatever string was stored. */
  datatype UserData = UserData(role: string)

  /** What the guard renders. */
  datatype View =
    | Waiting(message: string)                     // the spinner with its caption
    | Redirect(to: string, from: Option<string>)   // `<Navigate replace>`, with the origin when it is kept
    | Render                                       // the protected children

  /** The dashboard a stored role is sent to: `/dashboard/${role.toLowerCase()}`, or the login page for
      an empty role. */
  function DashboardFor(role: string): (path: string)
    ensures role == "" ==> path == "/login"
    ensures role != "" ==> path == "/dashboard/" + Text.ToLower(role)
  {
    if role != "" then "/dashboard/" + Text.ToLower(role) else "/login"
  }

  /** ProtectedRoute: the spinner while authentication is loading; the login page, remembering where the
      user was going, when nobody is signed in; when the page requires a role, a second spinner until
      the profile is read, and the user's own dashboard when the role differs; otherwise the page. */
  function Guard(loading: bool, signedIn: bool, requiredRole: Option<Role>, userData: Option<UserData>,
                 location: string): (v: View)
    ensures v == Waiting("Loading...") <==> loading
    ensures v == Redirect("/login", Some(location)) <==> !loading && !signedIn
    ensures v == Waiting("Loading user data...") <==> !loading && signedIn && requiredRole.Some? && userData.None?
    ensures v == Render <==>
      (!loading && signedIn
       && (requiredRole.None? || (userData.Some? && userData.value.role == RoleName(requiredRole.value))))
    ensures v.Redirect? && v.from.None? <==>
      (!loading && signedIn && requiredRole.Some? && userData.Some?
       && userData.value.role != RoleName(requiredRole.value))
    ensures v.Redirect? && v.from.None? ==> v.to == DashboardFor(userData.value.role)
  {
    if loading then Waiting("Loading...")
    else if !signedIn then Redirect("/login", Some(location))
    else if requiredRole.Some? && userData.None? then Waiting("Loading user data...")
    else if requiredRole.Some? && userData.value.role != RoleName(requiredRole.value) then
      Redirect(DashboardFor(userData.value.role), None)
    else Render
  }

  /** A role name is already lower-case. */
  lemma RoleNameIsLowerCase(r: Role)
    ensures Text.ToLower(RoleName(r)) == RoleName(r)
  {
    var name := RoleName(r);
    forall i | 0 <= i < |name| ensures Text.ToLower(name)[i] == name[i] {
      assert 'a' <= name[i] <= 'z';
    }
  }

  /** A user sent away for the wrong role lands on the dashboard of their own role, and the guard of
      that dashboard lets them in: a known role never bounces from one redirect to another. */
  lemma MismatchLandsOnOwnDashboard(own: Role, required: Role, location: string)
    requires own != required
    ensures Guard(false, true, Some(required), Some(UserData(RoleName(own))), location)
      == Redirect("/dashboard/" + RoleName(own), None)
    ensures Guard(false, true, Some(own), Some(UserData(RoleName(own))), "/dashboard/" + RoleName(own)) == Render
  {
    RoleNameIsLowerCase(own);
  }

  /** Of the pages that require a role, a signed-in user sees those of one role only. */
  lemma OneRoleRenders(userData: UserData, r1: Role, r2: Role, location: string)
    requires Guard(false, true, Some(r1), Some(userData), location) == Render
    requires Guard(false, true, Some(r2), Some(userData), location) == Render
    ensures r1 == r2
  {
  }
}
