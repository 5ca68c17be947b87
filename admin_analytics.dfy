/** backend/routes/adminAnalytics.js: the `/summary` route behind its own `verifyAdmin`.
    The summary is read-only: a function of the two tables. Its average is kept as a
    sum and a count; the two-decimal rounding of `toFixed(2)` is not modelled. */
module AdminAnalytics {
  import opened Common
  import opened UserModel
  import ReviewModel

  datatype Summary = Summary(
    totalProfessors: nat,
    approvedProfessors: nat,
    pendingProfessors: nat,
    totalStudents: nat,
    totalAdmins: nat,
    avgRating: ReviewModel.Average)

  datatype AnalyticsResponse = Status(code: nat, message: string) | SummaryOk(summary: Summary)

  /** `verifyAdmin` of this route file. */
  function VerifyAdmin(b: Bearer): (r: Option<AnalyticsResponse>)
    ensures r.None? <==> CheckRole(b, "admin").Admitted?
    ensures b.NoToken? ==> r == Some(Status(401, "No token provided"))
    ensures b.InvalidToken? ==> r == Some(Status(403, "Invalid or expired token"))
    ensures b.Payload? && b.role != "admin" ==> r == Some(Status(403, "Access denied: Not admin"))
  {
    match b
    case NoToken => Some(Status(401, "No token provided"))
    case InvalidToken => Some(Status(403, "Invalid or expired token"))
    case Payload(_, role) => if role == "admin" then None else Some(Status(403, "Access denied: Not admin"))
  }

  predicate IsProfessor(u: User) { u.role == Professor }
  predicate IsStudent(u: User) { u.role == Student }
  predicate IsAdmin(u: User) { u.role == Admin }
  predicate ApprovedProfessor(u: User) { u.role == Professor && u.isApproved }

  /** The counts and the average of `/summary`. */
  function Summarize(users: seq<User>, reviews: seq<ReviewModel.Review>): (s: Summary)
    ensures s.totalProfessors == |Filter(users, IsProfessor)|
    ensures s.approvedProfessors == |Filter(users, ApprovedProfessor)|
    ensures s.pendingProfessors == |Filter(users, PendingProfessor)|
    ensures s.totalStudents == |Filter(users, IsStudent)| && s.totalAdmins == |Filter(users, IsAdmin)|
    ensures s.avgRating == ReviewModel.Average(ReviewModel.RatingSum(reviews), |reviews|)
  {
    Summary(Count(users, IsProfessor), Count(users, ApprovedProfessor), Count(users, PendingProfessor),
            Count(users, IsStudent), Count(users, IsAdmin),
            ReviewModel.Average(ReviewModel.RatingSum(reviews), |reviews|))
  }

  /** Every professor is either approved or pending. */
  lemma {:induction false} ApprovedPlusPending(users: seq<User>)
    ensures Count(users, ApprovedProfessor) + Count(users, PendingProfessor) == Count(users, IsProfessor)
  {
    if users != [] {
      ApprovedPlusPending(users[1..]);
    }
  }

  /** Every user has exactly one of the three roles. */
  lemma {:induction false} RolesCoverUsers(users: seq<User>)
    ensures Count(users, IsProfessor) + Count(users, IsStudent) + Count(users, IsAdmin) == |users|
  {
    if users != [] {
      RolesCoverUsers(users[1..]);
    }
  }

  /** GET `/summary`. */
  function SummaryRoute(users: seq<User>, reviews: seq<ReviewModel.Review>, b: Bearer): (r: AnalyticsResponse)
    ensures !CheckRole(b, "admin").Admitted? ==> r == VerifyAdmin(b).value
    ensures CheckRole(b, "admin").Admitted? ==>
      && r.SummaryOk?
      && r.summary.approvedProfessors + r.summary.pendingProfessors == r.summary.totalProfessors
      && r.summary.totalProfessors + r.summary.totalStudents + r.summary.totalAdmins == |users|
      && r.summary == Summarize(users, reviews)
  {
    match VerifyAdmin(b)
    case Some(denied) => denied
    case None =>
      ApprovedPlusPending(users);
      RolesCoverUsers(users);
      SummaryOk(Summarize(users, reviews))
  }

  /** Over saved reviews the average lies between 1 and 5 when there are reviews. */
  lemma SummaryAverageBounds(users: seq<User>, reviews: seq<ReviewModel.Review>, clock: nat)
    requires ReviewModel.Stamped(reviews, clock)
    ensures var a := Summarize(users, reviews).avgRating;
      a.count <= a.sum <= 5 * a.count
  {
    ReviewModel.RatingSumBounds(reviews);
  }
}
