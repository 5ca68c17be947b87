/** frontend/profstars-frontend/src/App.jsx: which page each route renders or where it
    redirects, given the signed-in state; when the navbar shows; and the signed-in state
    kept in step with the browser's local storage. URL matching is taken as done: a route
    arrives already recognised. */
module App {
  import opened Common
  import opened Text

  /** The routes the router declares; `Unknown` is the catch-all. */
  datatype Route = Root | ExploreRoute | LoginRoute | RegisterRoute | DashboardRoute
                 | ProfessorRoute | ProfessorDetailsRoute(id: string) | AdminLoginRoute
                 | AdminIndex | AdminApprovals | AdminAnalyticsRoute | Unknown(path: string)

  datatype Page = HomePage | ExplorePage | LoginPage | RegisterPage | StudentDashboardPage
                | ProfessorDashboardPage | ProfessorDetailsPage(id: string) | AdminLoginPage
                | AdminOverviewPage | AdminApprovalsPage | AdminAnalyticsPage | NotFoundPage

  datatype Outcome = Render(page: Page) | Redirect(to: string)

  /** `isAuth && role === r`. */
  predicate SignedInAs(isAuth: bool, role: Option<string>, r: string)
  {
    isAuth && role == Some(r)
  }

  /** The element of each route. The three admin routes sit under `/admin`, whose element
      renders the layout (and so the child) only for a signed-in admin. */
  function Decide(route: Route, isAuth: bool, role: Option<string>): (r: Outcome)
    ensures AdminArea(route) ==> (r.Render? <==> SignedInAs(isAuth, role, "admin"))
    ensures r.Redirect? && r.to == "/login" ==> !isAuth || route.DashboardRoute? || route.ProfessorRoute?
    ensures r.Redirect? && r.to == "/admin" ==> route == AdminLoginRoute && SignedInAs(isAuth, role, "admin")
    ensures !isAuth ==>
      (r.Render? <==> !(AdminArea(route) || route.DashboardRoute? || route.ProfessorRoute? ||
                        route.ProfessorDetailsRoute?))
  {
    match route
    case Root => Render(HomePage)
    case ExploreRoute => Render(ExplorePage)
    case LoginRoute => Render(LoginPage)
    case RegisterRoute => Render(RegisterPage)
    case DashboardRoute =>
      if SignedInAs(isAuth, role, "student") then Render(StudentDashboardPage) else Redirect("/login")
    case ProfessorRoute =>
      if SignedInAs(isAuth, role, "professor") then Render(ProfessorDashboardPage) else Redirect("/login")
    case ProfessorDetailsRoute(id) =>
      if isAuth then Render(ProfessorDetailsPage(id)) else Redirect("/login")
    case AdminLoginRoute =>
      if SignedInAs(isAuth, role, "admin") then Redirect("/admin") else Render(AdminLoginPage)
    case AdminIndex =>
      if SignedInAs(isAuth, role, "admin") then Render(AdminOverviewPage) else Redirect("/admin-login")
    case AdminApprovals =>
      if SignedInAs(isAuth, role, "admin") then Render(AdminApprovalsPage) else Redirect("/admin-login")
    case AdminAnalyticsRoute =>
      if SignedInAs(isAuth, role, "admin") then Render(AdminAnalyticsPage) else Redirect("/admin-login")
    case Unknown(_) => Render(NotFoundPage)
  }

  /** The routes behind `/admin`. */
  predicate AdminArea(route: Route)
  {
    route == AdminIndex || route == AdminApprovals || route == AdminAnalyticsRoute
  }

  /** The student dashboard renders exactly for a signed-in student; everyone else goes to /login. */
  lemma DashboardGuard(isAuth: bool, role: Option<string>)
    ensures Decide(DashboardRoute, isAuth, role) == Render(StudentDashboardPage) <==> SignedInAs(isAuth, role, "student")
    ensures !SignedInAs(isAuth, role, "student") ==> Decide(DashboardRoute, isAuth, role) == Redirect("/login")
  {
  }

  /** The professor dashboard renders exactly for a signed-in professor. */
  lemma ProfessorGuard(isAuth: bool, role: Option<string>)
    ensures Decide(ProfessorRoute, isAuth, role) == Render(ProfessorDashboardPage) <==> SignedInAs(isAuth, role, "professor")
    ensures !SignedInAs(isAuth, role, "professor") ==> Decide(ProfessorRoute, isAuth, role) == Redirect("/login")
  {
  }

  /** A professor's details page needs a sign-in of any role. */
  lemma DetailsNeedSignInOnly(id: string, isAuth: bool, role: Option<string>)
    ensures Decide(ProfessorDetailsRoute(id), isAuth, role).Render? <==> isAuth
    ensures Decide(ProfessorDetailsRoute(id), isAuth, role) == Decide(ProfessorDetailsRoute(id), isAuth, None)
  {
  }

  /** Every admin page renders for a signed-in admin and sends everyone else to /admin-login;
      the admin login page sends a signed-in admin on to /admin. */
  lemma AdminGuard(route: Route, isAuth: bool, role: Option<string>)
    ensures AdminArea(route) ==> (Decide(route, isAuth, role).Render? <==> SignedInAs(isAuth, role, "admin"))
    ensures AdminArea(route) && !SignedInAs(isAuth, role, "admin") ==> Decide(route, isAuth, role) == Redirect("/admin-login")
    ensures Decide(AdminLoginRoute, isAuth, role) == Redirect("/admin") <==> SignedInAs(isAuth, role, "admin")
  {
  }

  /** Home, Explore, Login, Register and unknown paths render whatever the signed-in state. */
  lemma PublicRoutesNeverRedirect(route: Route, isAuth: bool, role: Option<string>)
    requires route.Root? || route.ExploreRoute? || route.LoginRoute? || route.RegisterRoute? || route.Unknown?
    ensures Decide(route, isAuth, role).Render?
    ensures Decide(route, isAuth, role) == Decide(route, false, None)
  {
  }

  /** Redirects only ever lead to a login page or the admin area's entry. */
  lemma RedirectTargets(route: Route, isAuth: bool, role: Option<string>)
    ensures Decide(route, isAuth, role).Redirect? ==>
      Decide(route, isAuth, role).to in {"/login", "/admin-login", "/admin"}
  {
  }

  /** `!location.pathname.startsWith("/admin")`. */
  predicate ShowNavbar(pathname: string)
  {
    !StartsWith(pathname, "/admin")
  }

  /** The path each declared route is reached at. */
  function PathOf(route: Route): string
  {
    match route
    case Root => "/"
    case ExploreRoute => "/explore"
    case LoginRoute => "/login"
    case RegisterRoute => "/register"
    case DashboardRoute => "/dashboard"
    case ProfessorRoute => "/professor"
    case ProfessorDetailsRoute(id) => "/professor/" + id
    case AdminLoginRoute => "/admin-login"
    case AdminIndex => "/admin"
    case AdminApprovals => "/admin/approvals"
    case AdminAnalyticsRoute => "/admin/analytics"
    case Unknown(p) => p
  }

  /** On the declared routes the navbar is hidden exactly on the admin pages and on the
      admin login page, whose path also starts with "/admin". */
  lemma NavbarHiddenOnAdminPaths(route: Route)
    requires !route.Unknown?
    ensures ShowNavbar(PathOf(route)) <==> !(AdminArea(route) || route == AdminLoginRoute)
  {
    match route
    case ProfessorDetailsRoute(id) =>
      assert PathOf(route)[1] == 'p';
    case AdminLoginRoute =>
      assert PathOf(route)[..6] == "/admin";
    case AdminApprovals =>
      assert PathOf(route)[..6] == "/admin";
    case AdminAnalyticsRoute =>
      assert PathOf(route)[..6] == "/admin";
    case Root =>
    case ExploreRoute =>
      assert PathOf(route)[1] == 'e';
    case LoginRoute =>
      assert PathOf(route)[1] == 'l';
    case RegisterRoute =>
      assert PathOf(route)[1] == 'r';
    case DashboardRoute =>
      assert PathOf(route)[1] == 'd';
    case ProfessorRoute =>
      assert PathOf(route)[1] == 'p';
    case AdminIndex =>
  }

  /** The key the page reads the token and the role from. */
  const TokenKey := "token"
  const RoleKey := "role"

  /** `!!localStorage.getItem("token")`: a stored, non-empty token. */
  predicate TokenStored(storage: map<string, string>)
  {
    TokenKey in storage && storage[TokenKey] != ""
  }

  /** `localStorage.getItem("role")`: null when absent. */
  function StoredRole(storage: map<string, string>): Option<string>
  {
    if RoleKey in storage then Some(storage[RoleKey]) else None
  }

  /** The signed-in state and the local storage it is read from. */
  class AuthState {
    var storage: map<string, string>
    var isAuth: bool
    var role: Option<string>

    /** The state agrees with what is stored. */
    ghost predicate Valid()
      reads this
    {
      isAuth == TokenStored(storage) && role == StoredRole(storage)
    }

    /** The first render reads the token and the role from storage. */
    constructor (stored: map<string, string>)
      ensures Valid() && storage == stored
    {
      storage := stored;
      isAuth := TokenStored(stored);
      role := StoredRole(stored);
    }

    /** `checkAuth`: reads the state back from storage. */
    method CheckAuth()
      modifies this
      ensures Valid()
      ensures storage == old(storage)
      ensures isAuth <==> TokenStored(storage)
    {
      isAuth := TokenStored(storage);
      role := StoredRole(storage);
    }

    /** A `storage` event after another page or tab wrote `stored`. */
    method StorageChanged(stored: map<string, string>)
      modifies this
      ensures Valid() && storage == stored
    {
      storage := stored;
      CheckAuth();
    }

    /** `handleLogout`: storage is cleared, and no route behind a sign-in renders any more. */
    method HandleLogout()
      requires Valid()
      modifies this
      ensures Valid()
      ensures storage == map[] && !isAuth && role.None?
      ensures forall r :: Decide(r, isAuth, role).Redirect? ==> r.DashboardRoute? || r.ProfessorRoute? || r.ProfessorDetailsRoute? || AdminArea(r)
      ensures Decide(DashboardRoute, isAuth, role) == Redirect("/login")
      ensures Decide(AdminIndex, isAuth, role) == Redirect("/admin-login")
    {
      storage := map[];
      isAuth := false;
      role := None;
    }
  }
}
