/** backend/controllers/authController.js: registration and login for every role,
    and the controller versions of the pending list, approve and reject. Password
    hashing and comparison (bcrypt) are outside the model: registration receives the
    hash, and login receives the comparison as a function. The signed token is
    represented by the payload it carries. */
module AuthController {
  import opened Common
  import opened Text
  import opened UserModel

  /** The test `/@profstars\.(in|com|ca)$/i`: the email ends, ignoring case, with one
      of the three admin domains. */
  predicate AdminDomain(email: string)
  {
    var e := Lower(email);
    EndsWith(e, "@profstars.in") || EndsWith(e, "@profstars.com") || EndsWith(e, "@profstars.ca")
  }

  /** The role name registration stores: `role || "student"`, replaced by "admin" for
      an admin-domain email. */
  function RequestedRole(role: string, email: string): string
  {
    if AdminDomain(email) then "admin" else if role == "" then "student" else role
  }

  /** The object registration hands to `new User({...})`. */
  function RegistrationDraft(name: string, email: string, hashed: string, role: string): UserDraft
  {
    var r := RequestedRole(role, email);
    UserDraft(name, email, hashed, Some(r), Some(r != "professor"), "", "", "", "", None, "")
  }

  function CreatedMessage(r: Role): string
  {
    match r
    case Admin => "Admin account created successfully."
    case Professor => "Professor registration successful. Awaiting admin approval."
    case Student => "Student registration successful."
  }

  datatype RegisterResponse = Created(message: string) | BadRequest(message: string) | ServerError

  datatype RegisterResult = RegisterResult(response: RegisterResponse, users: seq<User>)

  /** The user a successful registration save stores. */
  lemma SavedRegistration(users: seq<User>, clock: nat, name: string, email: string, hashed: string,
                          role: string, u: User)
    requires SaveOutcome(users, clock, RegistrationDraft(name, email, hashed, role)) == Saved(u)
    ensures EmailFree(users, Lower(email)) && DraftValid(RegistrationDraft(name, email, hashed, role))
    ensures u.id == clock && u.createdAt == clock
    ensures u.name == Trim(name) && u.email == Lower(email) && u.password == hashed
    ensures RoleName(u.role) == RequestedRole(role, email)
    ensures AdminDomain(email) ==> u.role == Admin
    ensures u.isApproved <==> u.role != Professor
  {
    var d := RegistrationDraft(name, email, hashed, role);
    assert Materialize(d, clock, clock) == Some(u);
    assert RoleName(u.role) == RequestedRole(role, email);
  }

  /** `registerUser` as a function of the table: the response and the table afterwards. */
  function Register(users: seq<User>, clock: nat, name: string, email: string, password: string,
                    role: string, hashed: string): (r: RegisterResult)
    ensures (name == "" || email == "" || password == "") ==>
      r == RegisterResult(BadRequest("All fields are required."), users)
    ensures name != "" && email != "" && password != "" && !EmailFree(users, Lower(email)) ==>
      r == RegisterResult(BadRequest("Email already registered."), users)
    ensures !r.response.Created? ==> r.users == users
    ensures r.response.Created? ==>
      && name != "" && email != "" && password != ""
      && |r.users| == |users| + 1 && r.users[..|users|] == users
      && var u := r.users[|users|];
         && u.id == clock && u.createdAt == clock
         && u.name == Trim(name) && u.email == Lower(email) && u.password == hashed
         && RoleName(u.role) == RequestedRole(role, email)
         && (AdminDomain(email) ==> u.role == Admin)
         && (u.isApproved <==> u.role != Professor)
         && r.response.message == CreatedMessage(u.role)
    ensures r.response.Created? <==>
      name != "" && email != "" && password != "" && EmailFree(users, Lower(email))
      && DraftValid(RegistrationDraft(name, email, hashed, role))
  {
    if name == "" || email == "" || password == "" then
      RegisterResult(BadRequest("All fields are required."), users)
    else if FindByEmail(users, email).Some? then
      RegisterResult(BadRequest("Email already registered."), users)
    else
      match SaveOutcome(users, clock, RegistrationDraft(name, email, hashed, role))
      case Saved(u) =>
        SavedRegistration(users, clock, name, email, hashed, role, u);
        RegisterResult(Created(CreatedMessage(u.role)), users + [u])
      case _ => RegisterResult(ServerError, users)
  }

  /** A requested role outside the enum (and not overridden by the admin domain) makes
      the save fail: the request gets a server error and nothing is stored. */
  lemma UnknownRoleFails(users: seq<User>, clock: nat, name: string, email: string, password: string,
                         role: string, hashed: string)
    requires name != "" && email != "" && password != "" && EmailFree(users, Lower(email))
    requires !AdminDomain(email) && role != "" && ParseRole(role).None?
    ensures Register(users, clock, name, email, password, role, hashed) == RegisterResult(ServerError, users)
  {
  }

  /** `registerUser` against the stored collection. */
  method RegisterUser(t: UserCollection, name: string, email: string, password: string,
                      role: string, hashed: string) returns (resp: RegisterResponse)
    requires t.Valid()
    modifies t
    ensures t.Valid()
    ensures RegisterResult(resp, t.users) == Register(old(t.users), old(t.clock), name, email, password, role, hashed)
  {
    if name == "" || email == "" || password == "" {
      return BadRequest("All fields are required.");
    }
    var existing := FindByEmail(t.users, email);
    if existing.Some? {
      return BadRequest("Email already registered.");
    }
    var saved := t.Save(RegistrationDraft(name, email, hashed, role));
    match saved
    case Saved(u) =>
      resp := Created(CreatedMessage(u.role));
    case _ =>
      resp := ServerError;
  }

  /** What a token signed at login carries. */
  datatype TokenPayload = TokenPayload(id: nat, role: Role)

  datatype LoginResponse =
    | LoginOk(message: string, token: TokenPayload, role: Role, name: string)
    | LoginBadRequest(message: string)
    | LoginForbidden(message: string)

  /** The role login reports: "admin" for an admin-domain email, otherwise the stored role. */
  function EffectiveRole(u: User, email: string): (r: Role)
    ensures r == Admin <==> AdminDomain(email) || u.role == Admin
    ensures r != Admin ==> r == u.role
  {
    if AdminDomain(email) then Admin else u.role
  }

  /** `loginUser`, read-only over the table. `matches(plain, hash)` stands for
      `bcrypt.compare`. */
  function LoginUser(users: seq<User>, email: string, password: string,
                     matches: (string, string) -> bool): (r: LoginResponse)
    ensures (email == "" || password == "") ==> r == LoginBadRequest("Please provide email and password.")
    ensures (email != "" && password != "" &&
             (FindByEmail(users, email).None? || !matches(password, FindByEmail(users, email).value.password)))
      ==> r == LoginBadRequest("Invalid credentials.")
    ensures r.LoginForbidden? <==>
      && email != "" && password != ""
      && FindByEmail(users, email).Some?
      && matches(password, FindByEmail(users, email).value.password)
      && EffectiveRole(FindByEmail(users, email).value, email) == Professor
      && !FindByEmail(users, email).value.isApproved
    ensures r.LoginOk? ==>
      && FindByEmail(users, email).Some?
      && var u := FindByEmail(users, email).value;
         && matches(password, u.password)
         && r.role == EffectiveRole(u, email)
         && r.token == TokenPayload(u.id, r.role)
         && r.name == u.name
         && r.message == "Login successful as " + RoleName(r.role) + "."
         && (r.role == Professor ==> u.isApproved)
    ensures r.LoginOk? && AdminDomain(email) ==> r.role == Admin
    ensures r.LoginOk? <==>
      && email != "" && password != ""
      && FindByEmail(users, email).Some?
      && matches(password, FindByEmail(users, email).value.password)
      && !(EffectiveRole(FindByEmail(users, email).value, email) == Professor &&
           !FindByEmail(users, email).value.isApproved)
  {
    if email == "" || password == "" then LoginBadRequest("Please provide email and password.")
    else match FindByEmail(users, email)
      case None => LoginBadRequest("Invalid credentials.")
      case Some(u) =>
        if !matches(password, u.password) then LoginBadRequest("Invalid credentials.")
        else
          var role := EffectiveRole(u, email);
          if role == Professor && !u.isApproved then LoginForbidden("Professor account pending admin approval.")
          else LoginOk("Login successful as " + RoleName(role) + ".", TokenPayload(u.id, role), role, u.name)
  }

  /** An unapproved professor outside the admin domain who gives the right password is
      refused with 403 and receives no token. */
  lemma UnapprovedProfessorRefused(users: seq<User>, clock: nat, i: nat, password: string,
                                   matches: (string, string) -> bool)
    requires Stamped(users, clock) && i < |users|
    requires users[i].role == Professor && !users[i].isApproved
    requires WellFormed(users[i]) && !AdminDomain(users[i].email)
    requires password != "" && matches(password, users[i].password)
    ensures LoginUser(users, users[i].email, password, matches).LoginForbidden?
  {
    LowerIdempotent(users[i].email);
    var f := FindByEmail(users, users[i].email);
    var j :| 0 <= j < |users| && users[j] == f.value;
    assert j == i;
  }

  /** `getPendingProfessors`: the professors not yet approved, in stored order. */
  function GetPendingProfessors(users: seq<User>): (r: seq<User>)
    ensures forall u :: u in r <==> u in users && u.role == Professor && !u.isApproved
  {
    Filter(users, PendingProfessor)
  }

  datatype ApprovalResponse = Done(message: string) | NotFound(message: string)

  /** `approveProfessor`: sets `isApproved` on the record with that id, whatever its role. */
  method ApproveProfessor(t: UserCollection, id: nat) returns (resp: ApprovalResponse)
    requires t.Valid()
    modifies t
    ensures t.Valid()
    ensures t.users == SetApproved(old(t.users), id)
    ensures resp.NotFound? <==> FindById(old(t.users), id).None?
    ensures resp.NotFound? ==> t.users == old(t.users)
    ensures resp == if FindById(old(t.users), id).None? then NotFound("Professor not found.")
                    else Done("Professor approved successfully!")
    ensures t.clock == old(t.clock)
  {
    SetApprovedEffect(t.users, t.clock, id);
    var found := FindById(t.users, id);
    t.users := SetApproved(t.users, id);
    if found.None? {
      resp := NotFound("Professor not found.");
    } else {
      resp := Done("Professor approved successfully!");
    }
  }

  /** `rejectProfessor`: hard-deletes the record with that id. */
  method RejectProfessor(t: UserCollection, id: nat) returns (resp: ApprovalResponse)
    requires t.Valid()
    modifies t
    ensures t.Valid()
    ensures t.users == RemoveById(old(t.users), id)
    ensures resp.NotFound? <==> FindById(old(t.users), id).None?
    ensures resp.NotFound? ==> t.users == old(t.users)
    ensures resp == if FindById(old(t.users), id).None? then NotFound("Professor not found.")
                    else Done("Professor rejected and removed.")
    ensures t.clock == old(t.clock)
  {
    RemoveByIdEffect(t.users, t.clock, id);
    var found := FindById(t.users, id);
    if found.None? {
      FilterAll(t.users, (u: User) => u.id != id);
      resp := NotFound("Professor not found.");
    } else {
      resp := Done("Professor rejected and removed.");
    }
    t.users := RemoveById(t.users, id);
  }
}
