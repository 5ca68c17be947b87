/** The `User` schema of backend/models/User.js and the collection that stores
    users. A draft (the object handed to `new User({...})`) becomes a stored user
    through the schema's setters (`trim`, `lowercase`), its defaults (role
    "student", `isApproved` true except for professors) and its validators
    (required fields, the role enum, `experienceYears >= 0`); the unique index on
    `email` rejects a second user with the same stored email. */
module UserModel {
  import opened Common
  import opened Text

  datatype Role = Student | Professor | Admin

  function RoleName(r: Role): string
  {
    match r
    case Student => "student"
    case Professor => "professor"
    case Admin => "admin"
  }

  /** The schema's role enum: exactly the three names are accepted. */
  function ParseRole(s: string): (r: Option<Role>)
    ensures r.Some? <==> (s == "student" || s == "professor" || s == "admin")
    ensures r.Some? ==> RoleName(r.value) == s
  {
    if s == "student" then Some(Student)
    else if s == "professor" then Some(Professor)
    else if s == "admin" then Some(Admin)
    else None
  }

  /** Every role name parses back to its role. */
  lemma RoleNameParses(r: Role)
    ensures ParseRole(RoleName(r)) == Some(r)
  {
  }

  /** A stored user document. `experienceYears` may be absent; other optional
      strings are "" when absent. */
  datatype User = User(
    id: nat,
    name: string,
    email: string,
    password: string,
    role: Role,
    isApproved: bool,
    country: string,
    university: string,
    department: string,
    academicTitle: string,
    experienceYears: Option<int>,
    major: string,
    createdAt: nat)

  /** The fields given to `new User({...})`; "" stands for an absent string field. */
  datatype UserDraft = UserDraft(
    name: string,
    email: string,
    password: string,
    role: Option<string>,
    isApproved: Option<bool>,
    country: string,
    university: string,
    department: string,
    academicTitle: string,
    experienceYears: Option<int>,
    major: string)

  /** A user as the routes send it out with `.select("-password")`. */
  datatype PublicUser = PublicUser(
    id: nat,
    name: string,
    email: string,
    role: Role,
    isApproved: bool,
    country: string,
    university: string,
    department: string,
    academicTitle: string,
    experienceYears: Option<int>,
    major: string,
    createdAt: nat)

  function Public(u: User): PublicUser
  {
    PublicUser(u.id, u.name, u.email, u.role, u.isApproved, u.country, u.university,
               u.department, u.academicTitle, u.experienceYears, u.major, u.createdAt)
  }

  /** What the schema guarantees of a user it has saved. */
  predicate WellFormed(u: User)
  {
    && u.name != "" && Trimmed(u.name)
    && u.email != "" && Lower(u.email) == u.email
    && u.password != ""
    && (u.experienceYears.Some? ==> u.experienceYears.value >= 0)
  }

  /** The role a draft ends up with: the enum value it names, or "student" when it names none. */
  function DraftRole(d: UserDraft): Option<Role>
  {
    if d.role.None? then Some(Student) else ParseRole(d.role.value)
  }

  /** The schema's validators, run on the values after the setters. */
  predicate DraftValid(d: UserDraft)
  {
    && Trim(d.name) != ""
    && d.email != ""
    && d.password != ""
    && DraftRole(d).Some?
    && (d.experienceYears.Some? ==> d.experienceYears.value >= 0)
  }

  /** The document `new User(d)` produces, or None when a validator fails. */
  function Materialize(d: UserDraft, id: nat, createdAt: nat): (r: Option<User>)
    ensures r.Some? <==> DraftValid(d)
    ensures r.Some? ==> WellFormed(r.value) && r.value.id == id && r.value.createdAt == createdAt
    ensures r.Some? ==> r.value.name == Trim(d.name) && r.value.email == Lower(d.email)
    ensures r.Some? && d.role.None? ==> r.value.role == Student
    ensures r.Some? && d.role.Some? ==> RoleName(r.value.role) == d.role.value
    ensures r.Some? && d.isApproved.None? ==> (r.value.isApproved <==> r.value.role != Professor)
    ensures r.Some? && d.isApproved.Some? ==> r.value.isApproved == d.isApproved.value
    ensures r.Some? ==> && r.value.country == Trim(d.country) && r.value.university == Trim(d.university)
                        && r.value.department == Trim(d.department) && r.value.academicTitle == Trim(d.academicTitle)
                        && r.value.experienceYears == d.experienceYears && r.value.major == Trim(d.major)
  {
    if !DraftValid(d) then None
    else
      var role := DraftRole(d).value;
      var approved := if d.isApproved.Some? then d.isApproved.value else role != Professor;
      LowerIdempotent(d.email);
      Some(User(id, Trim(d.name), Lower(d.email), d.password, role, approved,
                Trim(d.country), Trim(d.university), Trim(d.department),
                Trim(d.academicTitle), d.experienceYears, Trim(d.major), createdAt))
  }

  /** The `{ role: "professor", isApproved: false }` filter. */
  predicate PendingProfessor(u: User)
  {
    u.role == Professor && !u.isApproved
  }

  /** No stored user has this email. */
  predicate EmailFree(users: seq<User>, email: string)
  {
    forall i :: 0 <= i < |users| ==> users[i].email != email
  }

  /** The invariant of the collection: insertion order is `createdAt` order, ids and
      emails are unique, and the clock is ahead of every stamp it has handed out. */
  ghost predicate Stamped(users: seq<User>, clock: nat)
  {
    && (forall i, j :: 0 <= i < j < |users| ==> users[i].createdAt < users[j].createdAt)
    && (forall i, j :: 0 <= i < j < |users| ==> users[i].id != users[j].id)
    && (forall i, j :: 0 <= i < j < |users| ==> users[i].email != users[j].email)
    && (forall i :: 0 <= i < |users| ==> users[i].createdAt < clock && users[i].id < clock)
  }

  datatype SaveResult = Saved(user: User) | ValidationError | DuplicateKey

  /** `doc.save()`: validation first, then the unique index on `email`. */
  function SaveOutcome(users: seq<User>, clock: nat, d: UserDraft): (r: SaveResult)
    ensures r.ValidationError? <==> !DraftValid(d)
    ensures r.Saved? <==> DraftValid(d) && EmailFree(users, Lower(d.email))
    ensures r.Saved? ==> Materialize(d, clock, clock) == Some(r.user)
  {
    match Materialize(d, clock, clock)
    case None => ValidationError
    case Some(u) => if EmailFree(users, u.email) then Saved(u) else DuplicateKey
  }

  /** `User.findById(id)`. */
  function FindById(users: seq<User>, id: nat): (r: Option<User>)
    ensures r.Some? ==> r.value in users && r.value.id == id
    ensures r.None? <==> forall i :: 0 <= i < |users| ==> users[i].id != id
  {
    Find(users, (u: User) => u.id == id)
  }

  /** `User.findOne({ email })`; the schema's `lowercase` setter is applied to the query value. */
  function FindByEmail(users: seq<User>, email: string): (r: Option<User>)
    ensures r.Some? ==> r.value in users && r.value.email == Lower(email)
    ensures r.None? <==> EmailFree(users, Lower(email))
  {
    Find(users, (u: User) => u.email == Lower(email))
  }

  /** In a stamped collection a record is determined by its id. */
  lemma FindByIdUnique(users: seq<User>, clock: nat, i: nat)
    requires Stamped(users, clock) && i < |users|
    ensures FindById(users, users[i].id) == Some(users[i])
  {
    var r := FindById(users, users[i].id);
    var j :| 0 <= j < |users| && users[j] == r.value;
    assert j == i;
  }

  /** `findByIdAndUpdate(id, { isApproved: true })` applied to the table. */
  function SetApproved(users: seq<User>, id: nat): seq<User>
  {
    seq(|users|, i requires 0 <= i < |users| =>
      if users[i].id == id then users[i].(isApproved := true) else users[i])
  }

  /** Two tables whose records agree on id, email and `createdAt`, position by position,
      are both stamped or both not. */
  lemma StampedSameKeys(a: seq<User>, b: seq<User>, clock: nat)
    requires Stamped(a, clock)
    requires |a| == |b|
    requires forall i :: 0 <= i < |a| ==>
      a[i].id == b[i].id && a[i].email == b[i].email && a[i].createdAt == b[i].createdAt
    ensures Stamped(b, clock)
  {
  }

  /** Appending a record stamped with the clock, whose email is free, keeps the invariant. */
  lemma StampedAppend(users: seq<User>, clock: nat, u: User)
    requires Stamped(users, clock)
    requires u.id == clock && u.createdAt == clock && EmailFree(users, u.email)
    ensures Stamped(users + [u], clock + 1)
  {
    var r := users + [u];
    forall i, j | 0 <= i < j < |r|
      ensures r[i].createdAt < r[j].createdAt && r[i].id != r[j].id && r[i].email != r[j].email
    {
      if j == |users| {
        assert r[i] == users[i];
      }
    }
  }

  /** Approving changes `isApproved` of the record with that id to true, nothing else, and
      keeps the collection invariant; approving an unknown id leaves the table as it was. */
  lemma SetApprovedEffect(users: seq<User>, clock: nat, id: nat)
    requires Stamped(users, clock)
    ensures Stamped(SetApproved(users, id), clock)
    ensures |SetApproved(users, id)| == |users|
    ensures FindById(users, id).None? ==> SetApproved(users, id) == users
    ensures FindById(users, id).Some? ==>
      FindById(SetApproved(users, id), id) == Some(FindById(users, id).value.(isApproved := true))
    ensures forall i :: 0 <= i < |users| && users[i].id != id ==> SetApproved(users, id)[i] == users[i]
  {
    var r := SetApproved(users, id);
    StampedSameKeys(users, r, clock);
    match FindById(users, id)
    case None =>
      assert r == users;
    case Some(u) =>
      var k :| 0 <= k < |users| && users[k] == u;
      FindByIdUnique(r, clock, k);
  }

  /** Approving the same id twice gives the same table as approving it once. */
  lemma SetApprovedIdempotent(users: seq<User>, id: nat)
    ensures SetApproved(SetApproved(users, id), id) == SetApproved(users, id)
  {
  }

  /** `findByIdAndDelete(id)` applied to the table: every record with that id goes. */
  function RemoveById(users: seq<User>, id: nat): (r: seq<User>)
    ensures forall u :: u in r <==> u in users && u.id != id
    ensures FindById(r, id).None?
  {
    Filter(users, (u: User) => u.id != id)
  }

  /** Deleting a record keeps the collection invariant, keeps the order of the others,
      and shortens the table by one exactly when the id was there. */
  lemma RemoveByIdEffect(users: seq<User>, clock: nat, id: nat)
    requires Stamped(users, clock)
    ensures Stamped(RemoveById(users, id), clock)
    ensures |RemoveById(users, id)| == if FindById(users, id).Some? then |users| - 1 else |users|
  {
    var p := (u: User) => u.id != id;
    FilterKeepsChain(users, p, (a: User, b: User) => a.createdAt < b.createdAt && a.id != b.id && a.email != b.email);
    RemoveCount(users, id);
  }

  /** With ids unique, deleting by id removes one record exactly when the id is present. */
  lemma {:induction false} RemoveCount(users: seq<User>, id: nat)
    requires forall i, j :: 0 <= i < j < |users| ==> users[i].id != users[j].id
    ensures |RemoveById(users, id)| == if FindById(users, id).Some? then |users| - 1 else |users|
  {
    if users != [] {
      var tail := users[1..];
      forall i, j | 0 <= i < j < |tail|
        ensures tail[i].id != tail[j].id
      {
        assert tail[i] == users[i + 1] && tail[j] == users[j + 1];
      }
      RemoveCount(tail, id);
      assert |RemoveById(users, id)| == (if users[0].id != id then 1 else 0) + |RemoveById(tail, id)|;
      if users[0].id == id {
        forall i | 0 <= i < |tail|
          ensures tail[i].id != id
        {
          assert tail[i] == users[i + 1];
        }
      } else {
        forall i | 0 <= i < |tail| && tail[i].id == id
          ensures users[i + 1].id == id
        {
          assert tail[i] == users[i + 1];
        }
        assert FindById(tail, id).Some? ==> FindById(users, id).Some?;
      }
    }
  }

  /** The collection of users, with its clock for ids and `createdAt` stamps. */
  class UserCollection {
    var users: seq<User>
    var clock: nat

    ghost predicate Valid()
      reads this
    {
      Stamped(users, clock)
    }

    constructor ()
      ensures Valid() && users == []
    {
      users := [];
      clock := 0;
    }

    /** `new User(d).save()`: a successful save appends exactly the materialised user. */
    method Save(d: UserDraft) returns (r: SaveResult)
      requires Valid()
      modifies this
      ensures Valid()
      ensures r == SaveOutcome(old(users), old(clock), d)
      ensures users == if r.Saved? then old(users) + [r.user] else old(users)
    {
      r := SaveOutcome(users, clock, d);
      if r.Saved? {
        Append(r.user);
      }
    }

    /** Inserts a record stamped with the clock whose email is free, and advances the clock. */
    method Append(u: User)
      requires Valid()
      requires u.id == clock && u.createdAt == clock && EmailFree(users, u.email)
      modifies this
      ensures Valid()
      ensures users == old(users) + [u] && clock == old(clock) + 1
    {
      StampedAppend(users, clock, u);
      users := users + [u];
      clock := clock + 1;
    }
  }
}
