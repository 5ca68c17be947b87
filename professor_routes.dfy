/** backend/routes/professor.js: the public list of recent professors and the routes a
    professor uses for their own profile, reviews and subjects, behind
    `verifyProfessor`. The `Subject` schema of backend/models/Subject.js is folded in
    here with the collection that stores subjects. */
module ProfessorRoutes {
  import opened Common
  import opened Text
  import opened UserModel
  import ReviewModel

  /** The fields `/recent` selects. */
  datatype RecentProfessor = RecentProfessor(
    id: nat, name: string, email: string, university: string, department: string,
    country: string, academicTitle: string)

  /** A stored subject. */
  datatype Subject = Subject(id: nat, professorId: nat, subjectName: string, description: string, createdAt: nat)

  datatype ProfessorResponse =
    | Status(code: nat, message: string)
    | RecentList(professors: seq<RecentProfessor>)
    | Profile(user: PublicUser)
    | Updated(updated: Option<PublicUser>)
    | ReviewList(reviews: seq<ReviewModel.Review>)
    | SubjectList(subjects: seq<Subject>)
    | CreatedSubject(subject: Subject)

  /** `verifyProfessor`: None lets the request through with the caller's id. */
  function VerifyProfessor(b: Bearer): (r: Option<ProfessorResponse>)
    ensures r.None? <==> CheckRole(b, "professor").Admitted?
    ensures b.NoToken? ==> r == Some(Status(401, "No token provided."))
    ensures b.InvalidToken? ==> r == Some(Status(403, "Invalid or expired token."))
    ensures b.Payload? && b.role != "professor" ==> r == Some(Status(403, "Access denied."))
  {
    match b
    case NoToken => Some(Status(401, "No token provided."))
    case InvalidToken => Some(Status(403, "Invalid or expired token."))
    case Payload(_, role) => if role == "professor" then None else Some(Status(403, "Access denied."))
  }

  predicate IsProfessor(u: User)
  {
    u.role == Professor
  }

  /** `User.find({ role: "professor" }).sort({ createdAt: -1 }).limit(5)`: approval is not
      part of the query. */
  function NewestProfessors(users: seq<User>): (r: seq<User>)
    ensures |r| == Min(5, |Filter(users, IsProfessor)|)
    ensures forall i :: 0 <= i < |r| ==> r[i] in users && r[i].role == Professor
  {
    var all := Reverse(Filter(users, IsProfessor));
    var r := Take(all, 5);
    assert forall i :: 0 <= i < |r| ==> r[i] == all[i] && all[i] in all;
    r
  }

  /** In a stamped table the recent professors come newest first. */
  lemma NewestProfessorsOrdered(users: seq<User>, clock: nat)
    requires Stamped(users, clock)
    ensures forall i, j :: 0 <= i < j < |NewestProfessors(users)| ==>
      NewestProfessors(users)[i].createdAt > NewestProfessors(users)[j].createdAt
  {
    var older := (a: User, b: User) => a.createdAt < b.createdAt;
    var newer := (a: User, b: User) => a.createdAt > b.createdAt;
    assert Chain(users, older);
    FilterKeepsChain(users, IsProfessor, older);
    ReverseFlipsChain(Filter(users, IsProfessor), older, newer);
  }

  /** In a stamped table the list holds the five newest professors: a professor is left
      out only when the list is full, and is older than every one listed. */
  lemma NewestProfessorsAreNewest(users: seq<User>, clock: nat, u: User)
    requires Stamped(users, clock)
    requires u in users && u.role == Professor && u !in NewestProfessors(users)
    ensures |NewestProfessors(users)| == 5
    ensures forall i :: 0 <= i < 5 ==> NewestProfessors(users)[i].createdAt > u.createdAt
  {
    var older := (a: User, b: User) => a.createdAt < b.createdAt;
    var newer := (a: User, b: User) => a.createdAt > b.createdAt;
    var f := Filter(users, IsProfessor);
    var all := Reverse(f);
    var r := NewestProfessors(users);
    assert Chain(users, older);
    FilterKeepsChain(users, IsProfessor, older);
    ReverseFlipsChain(f, older, newer);
    assert u in all;
    var k :| 0 <= k < |all| && all[k] == u;
    forall i | 0 <= i < |r|
      ensures r[i] == all[i] && all[i] != u
    {
      assert r[i] in r;
    }
    assert |r| <= k;
    forall i | 0 <= i < |r|
      ensures r[i].createdAt > u.createdAt
    {
      assert newer(all[i], all[k]);
    }
  }

  /** The most recently stored user, when a professor, heads the list even before an admin
      has approved them. */
  lemma NewestProfessorFirst(users: seq<User>, u: User)
    requires u.role == Professor
    ensures |NewestProfessors(users + [u])| > 0 && NewestProfessors(users + [u])[0] == u
  {
    FilterConcat(users, [u], IsProfessor);
    assert Filter([u], IsProfessor) == [u];
  }

  function Recent(u: User): RecentProfessor
  {
    RecentProfessor(u.id, u.name, u.email, u.university, u.department, u.country, u.academicTitle)
  }

  /** GET `/recent` (public). */
  function RecentRoute(users: seq<User>): (r: ProfessorResponse)
    ensures r.RecentList? && |r.professors| <= 5
    ensures |r.professors| == |NewestProfessors(users)|
    ensures forall i :: 0 <= i < |r.professors| ==> r.professors[i] == Recent(NewestProfessors(users)[i])
  {
    var newest := NewestProfessors(users);
    RecentList(seq(|newest|, i requires 0 <= i < |newest| => Recent(newest[i])))
  }

  /** GET `/me`: the caller's own record without its password. */
  function Me(users: seq<User>, b: Bearer): (r: ProfessorResponse)
    ensures !CheckRole(b, "professor").Admitted? ==> r == VerifyProfessor(b).value
    ensures CheckRole(b, "professor").Admitted? && FindById(users, b.id).None? ==>
      r == Status(404, "Professor not found.")
    ensures CheckRole(b, "professor").Admitted? && FindById(users, b.id).Some? ==>
      r == Profile(Public(FindById(users, b.id).value))
    ensures r.Profile? ==> (CheckRole(b, "professor").Admitted? && r.user.id == b.id &&
      exists u :: u in users && r.user == Public(u))
  {
    match VerifyProfessor(b)
    case Some(denied) => denied
    case None =>
      match FindById(users, b.id)
      case None => Status(404, "Professor not found.")
      case Some(u) => Profile(Public(u))
  }

  /** The body of PUT `/update`: each field present replaces the stored one (string fields
      through the schema's `trim` setter). The update runs no validators. */
  datatype ProfilePatch = ProfilePatch(
    name: Option<string>,
    role: Option<Role>,
    isApproved: Option<bool>,
    country: Option<string>,
    university: Option<string>,
    department: Option<string>,
    academicTitle: Option<string>,
    experienceYears: Option<int>,
    major: Option<string>)

  function PatchText(stored: string, p: Option<string>): string
  {
    if p.Some? then Trim(p.value) else stored
  }

  /** The record after the patch. */
  function Patched(u: User, p: ProfilePatch): (r: User)
    ensures r.id == u.id && r.email == u.email && r.password == u.password && r.createdAt == u.createdAt
    ensures p == ProfilePatch(None, None, None, None, None, None, None, None, None) ==> r == u
  {
    u.(name := PatchText(u.name, p.name),
       role := if p.role.Some? then p.role.value else u.role,
       isApproved := if p.isApproved.Some? then p.isApproved.value else u.isApproved,
       country := PatchText(u.country, p.country),
       university := PatchText(u.university, p.university),
       department := PatchText(u.department, p.department),
       academicTitle := PatchText(u.academicTitle, p.academicTitle),
       experienceYears := if p.experienceYears.Some? then p.experienceYears else u.experienceYears,
       major := PatchText(u.major, p.major))
  }

  /** `findByIdAndUpdate(id, patch)` applied to the table. */
  function ApplyPatch(users: seq<User>, id: nat, p: ProfilePatch): (r: seq<User>)
    ensures |r| == |users|
    ensures forall i :: 0 <= i < |r| ==>
      r[i].id == users[i].id && r[i].email == users[i].email && r[i].createdAt == users[i].createdAt
    ensures forall i :: 0 <= i < |r| && users[i].id != id ==> r[i] == users[i]
  {
    seq(|users|, i requires 0 <= i < |users| => if users[i].id == id then Patched(users[i], p) else users[i])
  }

  /** The update changes the caller's record and no other, and keeps the collection invariant. */
  lemma ApplyPatchEffect(users: seq<User>, clock: nat, id: nat, p: ProfilePatch)
    requires Stamped(users, clock)
    ensures Stamped(ApplyPatch(users, id, p), clock)
    ensures |ApplyPatch(users, id, p)| == |users|
    ensures forall i :: 0 <= i < |users| && users[i].id != id ==> ApplyPatch(users, id, p)[i] == users[i]
    ensures FindById(users, id).None? ==> ApplyPatch(users, id, p) == users
    ensures FindById(users, id).Some? ==>
      FindById(ApplyPatch(users, id, p), id) == Some(Patched(FindById(users, id).value, p))
  {
    var r := ApplyPatch(users, id, p);
    StampedSameKeys(users, r, clock);
    match FindById(users, id)
    case None =>
      assert r == users;
    case Some(u) =>
      var k :| 0 <= k < |users| && users[k] == u;
      FindByIdUnique(r, clock, k);
  }

  /** Approving a professor is the update that carries only `isApproved: true`. */
  lemma ApproveIsPatch(users: seq<User>, id: nat)
    ensures SetApproved(users, id) == ApplyPatch(users, id, ProfilePatch(None, None, Some(true), None, None, None, None, None, None))
  {
    var p := ProfilePatch(None, None, Some(true), None, None, None, None, None, None);
    forall i | 0 <= i < |users| && users[i].id == id
      ensures SetApproved(users, id)[i] == ApplyPatch(users, id, p)[i]
    {
      assert Patched(users[i], p) == users[i].(isApproved := true);
    }
  }

  /** PUT `/update`: the caller may change any profile field, including their own role and
      approval. The response is the updated record, or null when the caller's record is gone. */
  method UpdateProfile(t: UserCollection, b: Bearer, p: ProfilePatch) returns (r: ProfessorResponse)
    requires t.Valid()
    modifies t
    ensures t.Valid()
    ensures !CheckRole(b, "professor").Admitted? ==> r == VerifyProfessor(b).value && t.users == old(t.users)
    ensures CheckRole(b, "professor").Admitted? ==>
      && t.users == ApplyPatch(old(t.users), b.id, p)
      && r == Updated(if FindById(old(t.users), b.id).Some?
                      then Some(Public(Patched(FindById(old(t.users), b.id).value, p))) else None)
  {
    var denied := VerifyProfessor(b);
    if denied.Some? {
      return denied.value;
    }
    ApplyPatchEffect(t.users, t.clock, b.id, p);
    t.users := ApplyPatch(t.users, b.id, p);
    var updated := FindById(t.users, b.id);
    r := Updated(if updated.Some? then Some(Public(updated.value)) else None);
  }

  /** GET `/my-reviews`: the reviews of the caller, newest first. */
  function MyReviews(reviews: seq<ReviewModel.Review>, b: Bearer): (r: ProfessorResponse)
    ensures !CheckRole(b, "professor").Admitted? ==> r == VerifyProfessor(b).value
    ensures CheckRole(b, "professor").Admitted? ==> (r.ReviewList? &&
      forall x :: x in r.reviews <==> x in reviews && x.professorId == b.id)
    ensures CheckRole(b, "professor").Admitted? ==> r.reviews == ReviewModel.ReviewsOf(reviews, b.id)
  {
    match VerifyProfessor(b)
    case Some(denied) => denied
    case None => ReviewList(ReviewModel.ReviewsOf(reviews, b.id))
  }

  /** GET `/subjects`: the caller's subjects in stored order. */
  function MySubjects(subjects: seq<Subject>, b: Bearer): (r: ProfessorResponse)
    ensures !CheckRole(b, "professor").Admitted? ==> r == VerifyProfessor(b).value
    ensures CheckRole(b, "professor").Admitted? ==> (r.SubjectList? &&
      forall s :: s in r.subjects <==> s in subjects && s.professorId == b.id)
  {
    match VerifyProfessor(b)
    case Some(denied) => denied
    case None => SubjectList(Filter(subjects, (s: Subject) => s.professorId == b.id))
  }

  /** The subject collection's invariant: ids and stamps increase along the sequence and
      stay below the clock. */
  ghost predicate SubjectsStamped(subjects: seq<Subject>, clock: nat)
  {
    && (forall i, j :: 0 <= i < j < |subjects| ==> subjects[i].id < subjects[j].id)
    && (forall i :: 0 <= i < |subjects| ==> subjects[i].id < clock && subjects[i].createdAt == subjects[i].id)
  }

  /** Appending a subject stamped with the clock keeps the invariant. */
  lemma SubjectsStampedAppend(subjects: seq<Subject>, clock: nat, s: Subject)
    requires SubjectsStamped(subjects, clock)
    requires s.id == clock && s.createdAt == clock
    ensures SubjectsStamped(subjects + [s], clock + 1)
  {
    var r := subjects + [s];
    forall i, j | 0 <= i < j < |r|
      ensures r[i].id < r[j].id
    {
      if j == |subjects| {
        assert r[i] == subjects[i];
      }
    }
  }

  /** `findOneAndDelete({ _id: id, professorId: owner })` applied to the table. */
  function RemoveOwned(subjects: seq<Subject>, id: nat, owner: nat): (r: seq<Subject>)
    ensures forall s :: s in r <==> s in subjects && !(s.id == id && s.professorId == owner)
  {
    Filter(subjects, (s: Subject) => !(s.id == id && s.professorId == owner))
  }

  /** Deleting keeps every subject another professor owns, in order, and keeps the invariant. */
  lemma RemoveOwnedEffect(subjects: seq<Subject>, clock: nat, id: nat, owner: nat, other: nat)
    requires SubjectsStamped(subjects, clock)
    requires other != owner
    ensures SubjectsStamped(RemoveOwned(subjects, id, owner), clock)
    ensures Filter(RemoveOwned(subjects, id, owner), (s: Subject) => s.professorId == other)
         == Filter(subjects, (s: Subject) => s.professorId == other)
  {
    var p := (s: Subject) => !(s.id == id && s.professorId == owner);
    FilterKeepsChain(subjects, p, (a: Subject, b: Subject) => a.id < b.id);
    OthersKept(subjects, id, owner, other);
  }

  lemma {:induction false} OthersKept(subjects: seq<Subject>, id: nat, owner: nat, other: nat)
    requires other != owner
    ensures Filter(RemoveOwned(subjects, id, owner), (s: Subject) => s.professorId == other)
         == Filter(subjects, (s: Subject) => s.professorId == other)
  {
    var p := (s: Subject) => !(s.id == id && s.professorId == owner);
    var q := (s: Subject) => s.professorId == other;
    if subjects != [] {
      assert subjects == [subjects[0]] + subjects[1..];
      FilterConcat([subjects[0]], subjects[1..], p);
      OthersKept(subjects[1..], id, owner, other);
      FilterConcat(Filter([subjects[0]], p), Filter(subjects[1..], p), q);
      FilterConcat([subjects[0]], subjects[1..], q);
    }
  }

  /** The collection of subjects, with its clock for ids and stamps. */
  class SubjectCollection {
    var subjects: seq<Subject>
    var clock: nat

    ghost predicate Valid()
      reads this
    {
      SubjectsStamped(subjects, clock)
    }

    constructor ()
      ensures Valid() && subjects == []
    {
      subjects := [];
      clock := 0;
    }

    /** POST `/subjects`: a missing name gives 400, a name that is only whitespace fails the
        schema's `required` after trimming (500), and otherwise the subject is stored
        under the caller. */
    method AddSubject(b: Bearer, subjectName: string, description: string) returns (r: ProfessorResponse)
      requires Valid()
      modifies this
      ensures Valid()
      ensures !CheckRole(b, "professor").Admitted? ==> r == VerifyProfessor(b).value && subjects == old(subjects)
      ensures CheckRole(b, "professor").Admitted? && subjectName == "" ==>
        r == Status(400, "Subject name required.") && subjects == old(subjects)
      ensures CheckRole(b, "professor").Admitted? && subjectName != "" && Trim(subjectName) == "" ==>
        r == Status(500, "Failed to add subject.") && subjects == old(subjects)
      ensures r.CreatedSubject? <==> CheckRole(b, "professor").Admitted? && Trim(subjectName) != ""
      ensures r.CreatedSubject? ==>
        && subjects == old(subjects) + [r.subject]
        && r.subject == Subject(old(clock), b.id, Trim(subjectName), Trim(description), old(clock))
    {
      var denied := VerifyProfessor(b);
      if denied.Some? {
        return denied.value;
      }
      if subjectName == "" {
        return Status(400, "Subject name required.");
      }
      if Trim(subjectName) == "" {
        return Status(500, "Failed to add subject.");
      }
      var s := Subject(clock, b.id, Trim(subjectName), Trim(description), clock);
      Append(s);
      r := CreatedSubject(s);
    }

    /** Inserts a subject stamped with the clock, and advances the clock. */
    method Append(s: Subject)
      requires Valid()
      requires s.id == clock && s.createdAt == clock
      modifies this
      ensures Valid()
      ensures subjects == old(subjects) + [s] && clock == old(clock) + 1
    {
      SubjectsStampedAppend(subjects, clock, s);
      subjects := subjects + [s];
      clock := clock + 1;
    }

    /** DELETE `/subjects/:id`: removes the subject only when the caller owns it, and reports
        success whether or not anything was removed. */
    method DeleteSubject(b: Bearer, id: nat) returns (r: ProfessorResponse)
      requires Valid()
      modifies this
      ensures Valid()
      ensures !CheckRole(b, "professor").Admitted? ==> r == VerifyProfessor(b).value && subjects == old(subjects)
      ensures CheckRole(b, "professor").Admitted? ==>
        && r == Status(200, "Subject deleted successfully.")
        && subjects == RemoveOwned(old(subjects), id, b.id)
    {
      var denied := VerifyProfessor(b);
      if denied.Some? {
        return denied.value;
      }
      FilterKeepsChain(subjects, (s: Subject) => !(s.id == id && s.professorId == b.id),
                       (x: Subject, y: Subject) => x.id < y.id);
      subjects := RemoveOwned(subjects, id, b.id);
      r := Status(200, "Subject deleted successfully.");
    }
  }
}
