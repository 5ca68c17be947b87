/** backend/routes/auth.js: the `/admin-login` route, which checks the request against
    a fixed list of administrator credentials and never looks at the user table.
    `/register` and `/login` hand over to the controller (module AuthController). */
module AuthRoutes {
  import opened Common

  datatype AdminCredential = AdminCredential(email: string, password: string, name: string)

  /** `ADMIN_CREDENTIALS`. */
  const AdminCredentials: seq<AdminCredential> := [
    AdminCredential("admin@profstars.com", "Admin@123", "Admin User"),
    AdminCredential("superadmin@profstars.ca", "Super@456", "Super Admin"),
    AdminCredential("root@profstars.in", "Root@789", "Root Admin")
  ]

  /** What the token signed at admin login carries: no user id, only email, role and name. */
  datatype AdminToken = AdminToken(email: string, role: string, name: string)

  datatype AdminLoginResponse =
    | AdminLoggedIn(token: AdminToken, role: string, name: string, email: string)
    | AdminBadRequest(message: string)
    | AdminUnauthorized(message: string)

  /** Exact, case-sensitive match on both fields. */
  predicate Matches(c: AdminCredential, email: string, password: string)
  {
    c.email == email && c.password == password
  }

  /** `ADMIN_CREDENTIALS.find(...)`: the first entry matching both fields. */
  function FindAdmin(creds: seq<AdminCredential>, email: string, password: string): (r: Option<AdminCredential>)
    ensures r.Some? <==> exists i :: 0 <= i < |creds| && Matches(creds[i], email, password)
    ensures r.Some? ==> exists i :: (0 <= i < |creds| && r.value == creds[i] &&
      Matches(creds[i], email, password) && forall j :: 0 <= j < i ==> !Matches(creds[j], email, password))
  {
    match FirstIndex(creds, (c: AdminCredential) => Matches(c, email, password))
    case None => None
    case Some(i) => Some(creds[i])
  }

  /** The `/admin-login` handler. The user table is not a parameter: the route reads and
      writes no user record. */
  function AdminLogin(email: string, password: string): (r: AdminLoginResponse)
    ensures (email == "" || password == "") <==> r == AdminBadRequest("Email and password are required")
    ensures r.AdminUnauthorized? <==>
      email != "" && password != "" && forall i :: 0 <= i < |AdminCredentials| ==> !Matches(AdminCredentials[i], email, password)
    ensures r.AdminUnauthorized? ==> r.message == "Invalid admin credentials"
    ensures r.AdminLoggedIn? ==>
      && r.role == "admin" && r.token.role == "admin"
      && r.token == AdminToken(r.email, "admin", r.name)
      && exists i :: (0 <= i < |AdminCredentials| && Matches(AdminCredentials[i], email, password)
           && r.name == AdminCredentials[i].name && r.email == AdminCredentials[i].email)
  {
    if email == "" || password == "" then AdminBadRequest("Email and password are required")
    else match FindAdmin(AdminCredentials, email, password)
      case None => AdminUnauthorized("Invalid admin credentials")
      case Some(c) => AdminLoggedIn(AdminToken(c.email, "admin", c.name), "admin", c.name, c.email)
  }

  /** Each of the three entries logs in with its own name. */
  lemma EachAdminLogsIn(i: nat)
    requires i < |AdminCredentials|
    ensures AdminLogin(AdminCredentials[i].email, AdminCredentials[i].password)
      == AdminLoggedIn(AdminToken(AdminCredentials[i].email, "admin", AdminCredentials[i].name),
                       "admin", AdminCredentials[i].name, AdminCredentials[i].email)
  {
    var c := AdminCredentials[i];
    var r := FindAdmin(AdminCredentials, c.email, c.password);
    var k :| 0 <= k < |AdminCredentials| && r.value == AdminCredentials[k] && Matches(AdminCredentials[k], c.email, c.password);
    assert k == i;
  }

  /** The comparison is case-sensitive: the first administrator's email in capitals is refused,
      even with the right password. */
  lemma UppercaseEmailRefused()
    ensures AdminLogin("ADMIN@PROFSTARS.COM", "Admin@123").AdminUnauthorized?
  {
    assert !Matches(AdminCredentials[0], "ADMIN@PROFSTARS.COM", "Admin@123") by {
      assert "ADMIN@PROFSTARS.COM"[0] != "admin@profstars.com"[0];
    }
  }
}
