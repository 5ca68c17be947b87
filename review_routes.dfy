/** backend/routes/review.js: the student-facing routes. Searching professors and
    reading one professor's reviews are queries; adding a review and submitting a new
    professor insert into the review and user collections behind `verifyStudent`.
    A `$regex` built from the request is read as a literal, case-insensitive match. */
module ReviewRoutes {
  import opened Common
  import opened Text
  import opened UserModel
  import opened ReviewModel

  /** The fields `/professors` selects. */
  datatype ProfessorCard = ProfessorCard(
    id: nat, name: string, university: string, department: string, country: string, academicTitle: string)

  /** The fields `/professor/:id` selects. */
  datatype ProfessorProfile = ProfessorProfile(
    id: nat, name: string, email: string, university: string, department: string,
    country: string, academicTitle: string, experienceYears: Option<int>)

  datatype ReviewResponse =
    | Status(code: nat, message: string)
    | ProfessorList(professors: seq<ProfessorCard>)
    | Details(professor: ProfessorProfile, reviews: seq<Review>, avgRating: Average)
    | CreatedReview(review: Review)

  /** `verifyStudent`: None lets the request through with the caller's id. */
  function VerifyStudent(b: Bearer): (r: Option<ReviewResponse>)
    ensures r.None? <==> CheckRole(b, "student").Admitted?
    ensures b.NoToken? ==> r == Some(Status(401, "No token provided."))
    ensures b.InvalidToken? ==> r == Some(Status(403, "Invalid or expired token."))
    ensures b.Payload? && b.role != "student" ==> r == Some(Status(403, "Only students can submit reviews."))
  {
    match b
    case NoToken => Some(Status(401, "No token provided."))
    case InvalidToken => Some(Status(403, "Invalid or expired token."))
    case Payload(_, role) => if role == "student" then None else Some(Status(403, "Only students can submit reviews."))
  }

  function Card(u: User): ProfessorCard
  {
    ProfessorCard(u.id, u.name, u.university, u.department, u.country, u.academicTitle)
  }

  /** The `/professors` filter: an approved professor, and, for a non-empty `q`, one whose
      name, university or department contains `q` ignoring case. */
  predicate Listed(u: User, q: string)
  {
    && u.role == Professor && u.isApproved
    && (q == "" || Contains(Lower(u.name), Lower(q)) || Contains(Lower(u.university), Lower(q))
                || Contains(Lower(u.department), Lower(q)))
  }

  /** The cards of a list of professors, position by position. */
  function Cards(us: seq<User>): (r: seq<ProfessorCard>)
    ensures |r| == |us|
    ensures forall i :: 0 <= i < |us| ==> r[i] == Card(us[i])
  {
    if us == [] then [] else [Card(us[0])] + Cards(us[1..])
  }

  /** GET `/professors?q=`: the matching professors in stored order. */
  function SearchProfessors(users: seq<User>, q: string): (r: seq<ProfessorCard>)
    ensures |r| <= |users|
    ensures forall u :: u in users && Listed(u, q) ==> Card(u) in r
    ensures forall i :: 0 <= i < |r| ==> exists u :: u in users && Listed(u, q) && r[i] == Card(u)
  {
    var found := Filter(users, (u: User) => Listed(u, q));
    var r := Cards(found);
    assert forall i :: 0 <= i < |r| ==> exists u :: u in users && Listed(u, q) && r[i] == Card(u) by {
      forall i | 0 <= i < |r|
        ensures exists u :: u in users && Listed(u, q) && r[i] == Card(u)
      {
        assert found[i] in found;
        assert r[i] == Card(found[i]);
      }
    }
    assert forall u :: u in users && Listed(u, q) ==> Card(u) in r by {
      forall u | u in users && Listed(u, q)
        ensures Card(u) in r
      {
        assert u in found;
        var k :| 0 <= k < |found| && found[k] == u;
        assert r[k] == Card(u);
      }
    }
    r
  }

  /** Without a query the search lists every approved professor, and an unapproved
      professor is never listed, whatever the query. */
  lemma SearchWithoutQuery(users: seq<User>, u: User)
    requires u in users
    ensures u.role == Professor && u.isApproved ==> Card(u) in SearchProfessors(users, "")
    ensures !u.isApproved ==> forall q :: !Listed(u, q)
  {
  }

  /** The fields `select` keeps: the id and the seven named ones. */
  function ProfileOf(u: User): ProfessorProfile
  {
    ProfessorProfile(u.id, u.name, u.email, u.university, u.department, u.country,
                     u.academicTitle, u.experienceYears)
  }

  /** GET `/professor/:id`: any user with that id (the route does not check the role),
      its reviews newest first, and their average. */
  function ProfessorDetails(users: seq<User>, reviews: seq<Review>, id: nat): (r: ReviewResponse)
    ensures FindById(users, id).None? <==> r == Status(404, "Professor not found.")
    ensures r.Details? ==>
      && r.professor.id == id
      && r.reviews == ReviewsOf(reviews, id)
      && r.avgRating == Average(RatingSum(r.reviews), |r.reviews|)
    ensures FindById(users, id).Some? ==>
      var rs := ReviewsOf(reviews, id);
      r == Details(ProfileOf(FindById(users, id).value), rs, Average(RatingSum(rs), |rs|))
  {
    match FindById(users, id)
    case None => Status(404, "Professor not found.")
    case Some(u) =>
      var rs := ReviewsOf(reviews, id);
      Details(ProfileOf(u), rs, Average(RatingSum(rs), |rs|))
  }

  /** In a collection of saved reviews, a professor with reviews averages between 1 and 5,
      and one without averages 0. */
  lemma DetailsAverageBounds(users: seq<User>, reviews: seq<Review>, clock: nat, id: nat)
    requires ReviewModel.Stamped(reviews, clock)
    requires ProfessorDetails(users, reviews, id).Details?
    ensures var a := ProfessorDetails(users, reviews, id).avgRating;
      a.count * 1 <= a.sum <= a.count * 5 && (a.count == 0 <==> ReviewsOf(reviews, id) == [])
  {
    var rs := ReviewsOf(reviews, id);
    forall i | 0 <= i < |rs|
      ensures 1 <= rs[i].rating <= 5
    {
      assert rs[i] in reviews;
      var k :| 0 <= k < |reviews| && reviews[k] == rs[i];
      assert ReviewModel.WellFormed(reviews[k]);
    }
    RatingSumBounds(rs);
  }

  /** The duplicate test `Review.findOne({ professorId, studentId })`. An absent
      `professorId` is a null in the query and matches no saved review. */
  function AlreadyReviewed(reviews: seq<Review>, professorId: Option<nat>, studentId: nat): (b: bool)
    ensures b <==> (professorId.Some? &&
      exists i :: 0 <= i < |reviews| && reviews[i].professorId == professorId.value && reviews[i].studentId == studentId)
  {
    FirstIndex(reviews, (x: Review) => professorId.Some? && x.professorId == professorId.value && x.studentId == studentId).Some?
  }

  /** The rule `/add` is meant to keep: no student has reviewed the same professor twice. */
  predicate OneReviewEach(reviews: seq<Review>)
  {
    forall i, j :: 0 <= i < j < |reviews| ==>
      reviews[i].professorId != reviews[j].professorId || reviews[i].studentId != reviews[j].studentId
  }

  /** Appending a review by a student who has not yet reviewed that professor keeps the rule. */
  lemma OneReviewEachAppend(reviews: seq<Review>, x: Review)
    requires OneReviewEach(reviews) && !AlreadyReviewed(reviews, Some(x.professorId), x.studentId)
    ensures OneReviewEach(reviews + [x])
  {
    var s := reviews + [x];
    forall i, j | 0 <= i < j < |s|
      ensures s[i].professorId != s[j].professorId || s[i].studentId != s[j].studentId
    {
      if j == |reviews| {
        assert s[i] == reviews[i];
      }
    }
  }

  /** The review `/add` builds as written: no semester and no subject. */
  function AddedReviewDraft(professorId: Option<nat>, studentId: nat, rating: Option<int>, comment: string): ReviewDraft
  {
    ReviewDraft(professorId, Some(studentId), rating, "", "", comment)
  }

  /** As written, the schema refuses every review `/add` builds, whatever the request holds. */
  lemma AddedReviewAlwaysRefused(professorId: Option<nat>, studentId: nat, rating: Option<int>,
                                 comment: string, id: nat, createdAt: nat)
    ensures ReviewModel.Materialize(AddedReviewDraft(professorId, studentId, rating, comment), id, createdAt).None?
  {
    MissingCourseRefused(AddedReviewDraft(professorId, studentId, rating, comment), id, createdAt);
  }

  /** POST `/add` as written: the duplicate guard works, but the save always fails, so
      the request ends in 400 or 500 and no review is ever stored. */
  method AddReview(t: ReviewCollection, b: Bearer, professorId: Option<nat>, rating: Option<int>,
                   comment: string) returns (r: ReviewResponse)
    requires t.Valid()
    modifies t
    ensures t.Valid()
    ensures t.reviews == old(t.reviews)
    ensures !CheckRole(b, "student").Admitted? ==> r == VerifyStudent(b).value
    ensures CheckRole(b, "student").Admitted? && AlreadyReviewed(old(t.reviews), professorId, b.id) ==>
      r == Status(400, "You already reviewed this professor.")
    ensures CheckRole(b, "student").Admitted? && !AlreadyReviewed(old(t.reviews), professorId, b.id) ==>
      r == Status(500, "Failed to submit review.")
  {
    var denied := VerifyStudent(b);
    if denied.Some? {
      return denied.value;
    }
    if AlreadyReviewed(t.reviews, professorId, b.id) {
      return Status(400, "You already reviewed this professor.");
    }
    AddedReviewAlwaysRefused(professorId, b.id, rating, comment, t.clock, t.clock);
    var saved := t.Save(AddedReviewDraft(professorId, b.id, rating, comment));
    // The schema refuses the draft, so the handler never reaches its 201 response.
    assert saved.None?;
    r := Status(500, "Failed to submit review.");
  }

  /** The review `/add` evidently means to build: semester and subject forwarded from the
      request like the other fields. */
  function CourseReviewDraft(professorId: Option<nat>, studentId: nat, rating: Option<int>,
                             semester: string, subject: string, comment: string): ReviewDraft
  {
    ReviewDraft(professorId, Some(studentId), rating, semester, subject, comment)
  }

  /** POST `/add` with semester and subject forwarded: a new review is stored exactly when
      the student has not reviewed that professor and the schema accepts it, the stored
      review names the caller as its author, and no student ever holds two reviews of
      the same professor. */
  method AddCourseReview(t: ReviewCollection, b: Bearer, professorId: Option<nat>, rating: Option<int>,
                         semester: string, subject: string, comment: string) returns (r: ReviewResponse)
    requires t.Valid() && OneReviewEach(t.reviews)
    modifies t
    ensures t.Valid() && OneReviewEach(t.reviews)
    ensures !CheckRole(b, "student").Admitted? ==> r == VerifyStudent(b).value && t.reviews == old(t.reviews)
    ensures CheckRole(b, "student").Admitted? && AlreadyReviewed(old(t.reviews), professorId, b.id) ==>
      r == Status(400, "You already reviewed this professor.") && t.reviews == old(t.reviews)
    ensures r.CreatedReview? <==>
      && CheckRole(b, "student").Admitted?
      && !AlreadyReviewed(old(t.reviews), professorId, b.id)
      && ReviewModel.DraftValid(CourseReviewDraft(professorId, b.id, rating, semester, subject, comment))
    ensures r.CreatedReview? ==>
      && t.reviews == old(t.reviews) + [r.review]
      && r.review.studentId == b.id && Some(r.review.professorId) == professorId
      && Some(r.review.rating) == rating
      && r.review.semester == semester && r.review.subject == subject
      && r.review.comment == Trim(comment)
    ensures !r.CreatedReview? ==> t.reviews == old(t.reviews)
  {
    var denied := VerifyStudent(b);
    if denied.Some? {
      return denied.value;
    }
    if AlreadyReviewed(t.reviews, professorId, b.id) {
      return Status(400, "You already reviewed this professor.");
    }
    ghost var before := t.reviews;
    var saved := t.Save(CourseReviewDraft(professorId, b.id, rating, semester, subject, comment));
    if saved.Some? {
      r := CreatedReview(saved.value);
      OneReviewEachAppend(before, saved.value);
    } else {
      r := Status(500, "Failed to submit review.");
    }
  }

  /** The domain of every sentinel address. */
  const PendingDomain: string := "@pending.profstars.com"

  lemma PendingDomainPlain()
    ensures Lower(PendingDomain) == PendingDomain
    ensures forall k :: 0 <= k < |PendingDomain| ==> !IsSpace(PendingDomain[k])
  {
    LowerWithoutCapitals(PendingDomain);
  }

  /** The sentinel address given to a professor submitted by a student: the name with each
      run of whitespace replaced by ".", lower-cased, at pending.profstars.com. */
  function SentinelEmail(name: string): (e: string)
    ensures EndsWith(e, PendingDomain)
    ensures Lower(e) == e
    ensures forall k :: 0 <= k < |e| ==> !IsSpace(e[k])
  {
    var runs := ReplaceSpaceRuns(name, ".");
    var local := Lower(runs);
    LowerKeepsNoSpace(runs);
    LowerIdempotent(runs);
    LowerConcat(local, PendingDomain);
    PendingDomainPlain();
    var e := local + PendingDomain;
    assert e[|e| - |PendingDomain|..] == PendingDomain;
    e
  }

  /** Names that differ only in case get the same sentinel address, so the unique index on
      `email` refuses the second of them even when the universities differ. */
  lemma SentinelIgnoresCase(a: string, b: string)
    requires Lower(a) == Lower(b)
    ensures SentinelEmail(a) == SentinelEmail(b)
  {
    SameLowerSameRuns(a, b);
  }

  lemma LowerTail(a: string, b: string)
    requires a != [] && Lower(a) == Lower(b)
    ensures |b| == |a| && LowerChar(a[0]) == LowerChar(b[0]) && Lower(a[1..]) == Lower(b[1..])
    ensures IsSpace(a[0]) <==> IsSpace(b[0])
  {
    assert Lower(a)[0] == LowerChar(a[0]) && Lower(b)[0] == LowerChar(b[0]);
    assert forall k :: 0 <= k < |a| - 1 ==> Lower(a[1..])[k] == Lower(a)[k + 1];
    assert forall k :: 0 <= k < |b| - 1 ==> Lower(b[1..])[k] == Lower(b)[k + 1];
  }

  lemma {:induction false} SameLowerSameRuns(a: string, b: string)
    requires Lower(a) == Lower(b)
    ensures Lower(ReplaceSpaceRuns(a, ".")) == Lower(ReplaceSpaceRuns(b, "."))
    decreases |a|
  {
    if a != [] {
      LowerTail(a, b);
      if IsSpace(a[0]) {
        SameLowerSkip(a[1..], b[1..]);
        SameLowerSameRuns(SkipSpaces(a[1..]), SkipSpaces(b[1..]));
        LowerConcat(".", ReplaceSpaceRuns(SkipSpaces(a[1..]), "."));
        LowerConcat(".", ReplaceSpaceRuns(SkipSpaces(b[1..]), "."));
      } else {
        SameLowerSameRuns(a[1..], b[1..]);
        LowerConcat([a[0]], ReplaceSpaceRuns(a[1..], "."));
        LowerConcat([b[0]], ReplaceSpaceRuns(b[1..], "."));
      }
    }
  }

  lemma {:induction false} SameLowerSkip(a: string, b: string)
    requires Lower(a) == Lower(b)
    ensures Lower(SkipSpaces(a)) == Lower(SkipSpaces(b))
  {
    if a != [] {
      LowerTail(a, b);
      if IsSpace(a[0]) {
        SameLowerSkip(a[1..], b[1..]);
      }
    }
  }

  /** The duplicate test of `/add-professor`: a professor whose whole name and whole
      university equal the request's, ignoring case. The request values are compared as
      sent, the stored ones as saved (trimmed). */
  predicate SameProfessor(u: User, name: string, university: string)
  {
    Lower(u.name) == Lower(name) && Lower(u.university) == Lower(university) && u.role == Professor
  }

  /** The user `/add-professor` hands to `new User({...})`. */
  function SubmittedProfessor(name: string, university: string, department: string, country: string,
                              academicTitle: string): UserDraft
  {
    UserDraft(name, SentinelEmail(name), "temporary", Some("professor"), Some(false),
              country, university, department, academicTitle, None, "")
  }

  const SubmittedMessage: string := "Professor submitted successfully and is pending admin approval."

  datatype Submission = Submission(response: ReviewResponse, users: seq<User>)

  /** POST `/add-professor` as a function of the user table: a student proposes a
      professor, who is stored unapproved under a sentinel email. */
  function SubmitProfessor(users: seq<User>, clock: nat, b: Bearer, name: string, university: string,
                           department: string, country: string, academicTitle: string): (r: Submission)
    ensures !CheckRole(b, "student").Admitted? ==> r == Submission(VerifyStudent(b).value, users)
    ensures CheckRole(b, "student").Admitted? && (name == "" || university == "" || department == "" || country == "") ==>
      r == Submission(Status(400, "All fields are required."), users)
    ensures (CheckRole(b, "student").Admitted? && name != "" && university != "" && department != "" && country != "" &&
             exists i :: 0 <= i < |users| && SameProfessor(users[i], name, university)) ==>
      r == Submission(Status(400, "Professor already exists in database."), users)
    ensures r.response == Status(201, SubmittedMessage) <==>
      && CheckRole(b, "student").Admitted?
      && name != "" && university != "" && department != "" && country != ""
      && (forall i :: 0 <= i < |users| ==> !SameProfessor(users[i], name, university))
      && Trim(name) != ""
      && EmailFree(users, SentinelEmail(name))
    ensures r.response == Status(201, SubmittedMessage) ==>
      && |r.users| == |users| + 1 && r.users[..|users|] == users
      && var u := r.users[|users|];
         && u.id == clock && u.role == Professor && !u.isApproved
         && u.email == SentinelEmail(name) && u.name == Trim(name)
         && u.university == Trim(university) && u.password == "temporary"
         && u.department == Trim(department) && u.country == Trim(country)
         && u.academicTitle == Trim(academicTitle)
    ensures r.response != Status(201, SubmittedMessage) ==> r.users == users
  {
    if !CheckRole(b, "student").Admitted? then Submission(VerifyStudent(b).value, users)
    else if name == "" || university == "" || department == "" || country == "" then
      Submission(Status(400, "All fields are required."), users)
    else if FirstIndex(users, (u: User) => SameProfessor(u, name, university)).Some? then
      Submission(Status(400, "Professor already exists in database."), users)
    else
      var d := SubmittedProfessor(name, university, department, country, academicTitle);
      assert Lower(d.email) == SentinelEmail(name);
      match SaveOutcome(users, clock, d)
      case Saved(u) => Submission(Status(201, SubmittedMessage), users + [u])
      case _ => Submission(Status(500, "Failed to submit professor request."), users)
  }

  /** Two students submitting the same name at different universities: the second request
      is refused, either by the duplicate test or, when that passes, by the unique index
      on the sentinel email, which ends in a server error. */
  lemma SameNameElsewhereFails(users: seq<User>, clock: nat, b: Bearer, name: string, university: string,
                               other: string, department: string, country: string, academicTitle: string)
    requires other != ""
    requires SubmitProfessor(users, clock, b, name, university, department, country, academicTitle).response
             == Status(201, SubmittedMessage)
    ensures var second := SubmitProfessor(
              SubmitProfessor(users, clock, b, name, university, department, country, academicTitle).users,
              clock + 1, b, name, other, department, country, academicTitle).response;
      second == Status(500, "Failed to submit professor request.")
      || second == Status(400, "Professor already exists in database.")
  {
    var after := SubmitProfessor(users, clock, b, name, university, department, country, academicTitle).users;
    assert after[|users|].email == SentinelEmail(name);
    assert !EmailFree(after, SentinelEmail(name));
  }

  /** The `/add-professor` handler against the stored collection. */
  method AddProfessor(t: UserCollection, b: Bearer, name: string, university: string, department: string,
                      country: string, academicTitle: string) returns (r: ReviewResponse)
    requires t.Valid()
    modifies t
    ensures t.Valid()
    ensures Submission(r, t.users) ==
      SubmitProfessor(old(t.users), old(t.clock), b, name, university, department, country, academicTitle)
  {
    var denied := VerifyStudent(b);
    if denied.Some? {
      return denied.value;
    }
    if name == "" || university == "" || department == "" || country == "" {
      return Status(400, "All fields are required.");
    }
    var existing := FirstIndex(t.users, (u: User) => SameProfessor(u, name, university));
    if existing.Some? {
      return Status(400, "Professor already exists in database.");
    }
    var d := SubmittedProfessor(name, university, department, country, academicTitle);
    var saved := t.Save(d);
    if saved.Saved? {
      r := Status(201, SubmittedMessage);
    } else {
      r := Status(500, "Failed to submit professor request.");
    }
  }
}
