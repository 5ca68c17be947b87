# ProfStars in Dafny

ProfStars is a professor-rating web application. Students register, search approved
professors, review them and propose professors that are missing. Professors register,
wait for an admin's approval and then maintain a profile and a list of subjects. Admins
approve or reject professors and read a summary of the user base. A university directory
merges a public university list with universities that users have added.

This project models the Express backend's request handlers over the MongoDB collections.
Each handler is modelled with its token gate, its status codes and messages, and the state
it leaves behind. It also models the React pages' filtering, pagination, form validation,
state transitions and route guards. One module corresponds to each source file:

- `UserModel` and `ReviewModel` hold the Mongoose schemas: required fields, setters,
  defaults, the unique email and the comment length.
  - A collection is a class that holds a sequence of records and a clock.
  - A record's id and its `createdAt` both come from the clock. So "newest first" is the
    stored order reversed, and the lemmas named `...NewestFirst`/`...Ordered` prove it.
- `AuthController`, `AuthRoutes`, `AdminRoutes`, `ReviewRoutes`, `ProfessorRoutes`,
  `Universities` and `AdminAnalytics` each hold the handlers of one route file.
  - A read-only handler is a function of the tables.
  - A handler that writes is a method on the collection class.
  - Where a handler's contract is long, it is stated on a pure specification function
    (`Register`, `SubmitProfessor`, `AddOutcome`). The method is proved equal to it.
- `Home`, `Explore`, `StudentDashboard`, `AdminDashboard`, `Register`, `AdminLoginPage` and
  `App` model the pages.
  - Each page's state is a class whose methods are its event handlers.
  - A fetch's answer arrives as a method argument.
- `Common` and `Text` hold the shared sequence and string helpers:
  - `filter`, `find`, `slice` and reverse;
  - lowercasing, `includes`, `startsWith`, `endsWith` and `trim`.

Assumptions about the libraries, stated once:

- A bearer token arrives already decoded. It is `NoToken`, `InvalidToken` or the payload's
  id and role.
- `bcrypt` is a parameter: the stored hash for registration, a `matches` function for login.
- Mongoose applies a schema's `trim`/`lowercase` setters to saved values and to query values.
- A `$regex` built from a request field is read as a literal, case-insensitive match.
- An absent request field is the empty string, because the handlers test fields for
  falsiness.

The page models and the backend models are tied together by cross-module lemmas:

- the Approved tab is always empty when it is fed by the pending-professors route;
- an admin email that the registration page accepts is also accepted by the server;
- every built-in admin account passes the admin login form.

## Model

| member | source | states |
|---|---|---|
| UserModel.ParseRole | backend/models/User.js:12-16 | a role string is accepted exactly when it is one of the three enum values, and parses back to itself |
| UserModel.RoleNameParses | backend/models/User.js:12-16 | every role's name parses back to that role |
| UserModel.Materialize | backend/models/User.js:4-35 | a draft is stored exactly when the schema accepts it; the stored user has a trimmed name, a lowercased email, and trimmed country, university, department, academic title and major; the role defaults to student; isApproved defaults to "not a professor" |
| UserModel.SaveOutcome | backend/models/User.js:8 | a save fails validation exactly on an invalid draft; it succeeds exactly when the draft is valid and the lowercased email is free; what it stores is the materialised draft |
| UserModel.FindById | backend/controllers/authController.js:145 | `findById` returns a stored user with that id, or nothing exactly when no user has it |
| UserModel.FindByEmail | backend/controllers/authController.js:22 | `findOne({email})` matches on the lowercased email, and finds nothing exactly when that email is free |
| UserModel.FindByIdUnique | backend/models/User.js:8 | in a stamped table, looking up a stored user's id returns that very user |
| UserModel.StampedAppend | backend/models/User.js:8 | appending a user that has the next id and a free email keeps ids increasing and emails unique |
| UserModel.StampedSameKeys | backend/models/User.js:8 | an update that keeps every id, email and createdAt keeps the table stamped |
| UserModel.SetApprovedEffect | backend/controllers/authController.js:145-152 | approving changes only that user's isApproved to true; an unknown id changes nothing; the table stays stamped |
| UserModel.SetApprovedIdempotent | backend/controllers/authController.js:145-152 | approving twice is the same as approving once |
| UserModel.RemoveById | backend/controllers/authController.js:165-170 | the users left are exactly the others, and the id is no longer found |
| UserModel.RemoveByIdEffect | backend/controllers/authController.js:165-170 | deleting keeps the table stamped, and removes one user exactly when the id existed |
| UserModel.RemoveCount | backend/controllers/authController.js:165-170 | in a table with unique ids, deleting shrinks the table by one exactly when the id existed, otherwise not at all |
| UserModel.UserCollection.Save | backend/models/User.js:4-35 | `save()` appends exactly the materialised user when it succeeds; the table is unchanged otherwise |
| ReviewModel.Materialize | backend/models/Review.js:4-32 | a review is stored exactly when the schema accepts it: professor, student, rating 1..5, semester and subject required, comment trimmed to at most 500 characters |
| ReviewModel.MissingCourseRefused | backend/models/Review.js:22-23 | a review without semester or subject is never stored |
| ReviewModel.StampedAppend | backend/models/Review.js:4-32 | appending a well-formed review with the next id keeps the collection stamped |
| ReviewModel.RatingSumBounds | backend/models/Review.js:16-21 | the ratings of n stored reviews sum to between n and 5n |
| ReviewModel.ReviewsOf | backend/routes/review.js:55 | exactly the reviews of that professor |
| ReviewModel.ReviewsOfNewestFirst | backend/routes/review.js:55-57 | a professor's reviews come newest first |
| ReviewModel.ReviewCollection.Save | backend/models/Review.js:4-32 | `save()` appends the materialised review when the schema accepts it; the collection is unchanged otherwise |
| AuthController.Register | backend/controllers/authController.js:12-65 | missing fields give "All fields are required."; a taken email gives "Email already registered."; the table changes only on success; success adds one user with the requested role and its approval and message; an admin-domain email always becomes an admin; success holds exactly when the fields are present, the email is free and the draft is valid |
| AuthController.UnknownRoleFails | backend/controllers/authController.js:50-60 | a role outside the enum, on a non-admin email, ends in the 500 error with the table unchanged |
| AuthController.RegisterUser | backend/controllers/authController.js:12-65 | the handler's response and new table are exactly those of `Register` |
| AuthController.LoginUser | backend/controllers/authController.js:73-125 | missing fields give 400; an unknown email or wrong password gives "Invalid credentials."; a professor is refused with 403 exactly when their effective role is professor and they are not approved; login succeeds exactly when the fields are present, the email is found, the password matches and the account is not pending, and then the token carries the user's id and effective role |
| AuthController.EffectiveRole | backend/controllers/authController.js:95-97 | the role is admin exactly for an admin-domain email or a stored admin; otherwise it is the stored role |
| AuthController.UnapprovedProfessorRefused | backend/controllers/authController.js:95-97 | a stored, unapproved professor with the right password is refused |
| AuthController.GetPendingProfessors | backend/controllers/authController.js:133-141 | exactly the professors not yet approved |
| AuthController.ApproveProfessor | backend/controllers/authController.js:143-161 | the table becomes the approved table and the clock is kept; "Professor not found." exactly when the id is absent, and then nothing changes; "Professor approved successfully!" otherwise |
| AuthController.RejectProfessor | backend/controllers/authController.js:163-177 | the table loses exactly that user and the clock is kept; "Professor not found." exactly when the id is absent; "Professor rejected and removed." otherwise |
| AuthRoutes.FindAdmin | backend/routes/auth.js:47-50 | finds an entry exactly when one matches both fields, and it is the first such entry |
| AuthRoutes.AdminLogin | backend/routes/auth.js:35-76 | 400 exactly on a missing field; 401 "Invalid admin credentials" exactly when no entry matches; otherwise a token for the matching admin |
| AuthRoutes.EachAdminLogsIn | backend/routes/auth.js:10-26 | each built-in admin account logs in as itself |
| AuthRoutes.UppercaseEmailRefused | backend/routes/auth.js:47-50 | the credential match is case-sensitive: an upper-cased admin email is refused |
| AdminRoutes.VerifyAdmin | backend/routes/admin.js:8-23 | no token gives 401, a bad token 403 "Invalid token", a non-admin role 403 "Access denied"; it admits exactly the admin role |
| AdminRoutes.PendingProfessors | backend/routes/admin.js:26-36 | every unapproved professor, as public data, and nothing else |
| AdminRoutes.PendingNewestFirst | backend/routes/admin.js:28-30 | the pending list comes newest first |
| AdminRoutes.PendingRoute | backend/routes/admin.js:26-36 | a refused token gives its gate response; otherwise the pending list |
| AdminRoutes.ApproveRoute | backend/routes/admin.js:38-54 | without admin rights nothing changes; otherwise the user is approved; 404 "Professor not found" exactly when the id is absent; else the "approved successfully" message with the updated professor |
| AdminRoutes.RejectRoute | backend/routes/admin.js:56-68 | without admin rights nothing changes; otherwise the user is deleted, with 404 for an absent id and the "rejected and removed" message otherwise |
| ReviewRoutes.VerifyStudent | backend/routes/review.js:10-23 | 401 without a token, 403 for a bad token, 403 "Only students can submit reviews." for other roles; it admits exactly students |
| ReviewRoutes.SearchProfessors | backend/routes/review.js:26-46 | exactly the approved professors whose name, university or department contains the query, ignoring case |
| ReviewRoutes.SearchWithoutQuery | backend/routes/review.js:28-41 | with no query every approved professor is listed, and an unapproved one never is |
| ReviewRoutes.ProfessorDetails | backend/routes/review.js:49-69 | 404 "Professor not found." exactly for an unknown id; for a known id, the stored user's id and seven selected fields, that professor's reviews newest first, and the rating sum and count over them |
| ReviewRoutes.DetailsAverageBounds | backend/routes/review.js:58-61 | the average of a professor's stored reviews lies between 1 and 5 |
| ReviewRoutes.AlreadyReviewed | backend/routes/review.js:77-82 | a review by this student for this professor exists; an absent professorId matches nothing |
| ReviewRoutes.AddedReviewAlwaysRefused | backend/routes/review.js:84-90 | the review the `/add` handler builds never passes the schema |
| ReviewRoutes.AddReview | backend/routes/review.js:72-96 | as written: the table never changes; a duplicate gives 400, anything else 500 "Failed to submit review." |
| ReviewRoutes.AddCourseReview | backend/routes/review.js:72-96 | corrected: a review is created exactly when the student is admitted, has not reviewed this professor and the review is valid; the stored review carries the student, professor, rating, semester, subject and trimmed comment; a student never holds two reviews of one professor |
| ReviewRoutes.SentinelEmail | backend/routes/review.js:120 | the generated email ends in "@pending.profstars.com", is lower case and has no white space |
| ReviewRoutes.SentinelIgnoresCase | backend/routes/review.js:120 | names that differ only in case get the same generated email |
| ReviewRoutes.SameLowerSameRuns | backend/routes/review.js:120 | replacing white-space runs commutes with case: names equal ignoring case stay equal ignoring case |
| ReviewRoutes.SubmitProfessor | backend/routes/review.js:99-139 | the gate, then 400 for a missing field, then 400 for a professor with the same name and university (ignoring case), then a pending professor with the generated email and the trimmed name, university, department, country and academic title; the table changes only on 201 |
| ReviewRoutes.SameNameElsewhereFails | backend/routes/review.js:118-130 | a second professor with the same name at another university is refused, because the generated email is already taken |
| ReviewRoutes.AddProfessor | backend/routes/review.js:99-139 | the handler's response and new table are exactly those of `SubmitProfessor` |
| ProfessorRoutes.VerifyProfessor | backend/routes/professor.js:12-25 | 401 "No token provided.", 403 "Invalid or expired token.", 403 "Access denied."; it admits exactly professors |
| ProfessorRoutes.NewestProfessors | backend/routes/professor.js:29-44 | at most five professors, as many as there are up to five, all professors from the table |
| ProfessorRoutes.NewestProfessorsAreNewest | backend/routes/professor.js:31-33 | in a stamped table a professor is left out only when the list is full, and every listed professor is newer than it, so the list holds the five newest |
| ProfessorRoutes.NewestProfessorsOrdered | backend/routes/professor.js:31-33 | the recent list comes newest first |
| ProfessorRoutes.NewestProfessorFirst | backend/routes/professor.js:31-33 | a professor just added heads the recent list |
| ProfessorRoutes.RecentRoute | backend/routes/professor.js:29-44 | the public recent list is the projection of the five newest professors |
| ProfessorRoutes.Me | backend/routes/professor.js:47-56 | the gate response; 404 "Professor not found." for an unknown id; otherwise the public form of the caller's stored record |
| ProfessorRoutes.Patched | backend/routes/professor.js:59-70 | an update never changes id, email, password or createdAt, and an empty patch changes nothing |
| ProfessorRoutes.ApplyPatch | backend/routes/professor.js:62 | `findByIdAndUpdate` keeps the table's length and every record's id, email and createdAt, and leaves every other record as it was |
| ProfessorRoutes.ApplyPatchEffect | backend/routes/professor.js:62 | `findByIdAndUpdate` changes only the caller's record; it keeps the table stamped; an unknown id changes nothing |
| ProfessorRoutes.ApproveIsPatch | backend/routes/professor.js:61-62 | approving a user is the same as a patch that sets isApproved, which a professor may send for themselves |
| ProfessorRoutes.UpdateProfile | backend/routes/professor.js:59-70 | without a professor token nothing changes; otherwise the caller's record is patched and returned, or null for an unknown id |
| ProfessorRoutes.MyReviews | backend/routes/professor.js:73-84 | the gate response, or the list `ReviewsOf` gives for the caller: exactly the caller's reviews, newest first by ReviewModel.ReviewsOfNewestFirst |
| ProfessorRoutes.MySubjects | backend/routes/professor.js:87-94 | the gate response, or exactly the caller's subjects |
| ProfessorRoutes.RemoveOwned | backend/routes/professor.js:117-120 | removes exactly the subject with that id, and only when the caller owns it |
| ProfessorRoutes.RemoveOwnedEffect | backend/routes/professor.js:115-125 | deletion keeps the subjects stamped and never touches another professor's subjects |
| ProfessorRoutes.OthersKept | backend/routes/professor.js:117-120 | another professor's subjects are exactly the same after a deletion |
| ProfessorRoutes.SubjectCollection.AddSubject | backend/routes/professor.js:96-113 | 400 "Subject name required." for an empty name; 500 when the trimmed name is empty; otherwise a subject owned by the caller, with trimmed fields, is appended |
| ProfessorRoutes.SubjectCollection.DeleteSubject | backend/routes/professor.js:115-125 | always "Subject deleted successfully.", and the subjects become the owned-removal |
| Universities.KnownToApiCheck | backend/routes/universities.js:85-88 | the loop's check holds exactly when an API university has the name, ignoring case |
| Universities.FromDb | backend/routes/universities.js:91-97 | a stored university becomes an API entry with its name and country, no domains or pages, and the upper-cased first two letters of the country |
| Universities.AppendedMembers | backend/routes/universities.js:84-99 | every stored university unknown to the API is appended, and everything appended comes from such a university |
| Universities.KnownNotAppended | backend/routes/universities.js:85-90 | a stored university whose name the API knows is not appended |
| Universities.StoredTwinsBothAppended | backend/routes/universities.js:84-99 | stored entries are checked only against the API list, so two stored twins are both appended |
| Universities.ApiDownGivesDb | backend/routes/universities.js:70-72 | when the API fails the answer is the stored universities alone, converted |
| Universities.MergeUniversities | backend/routes/universities.js:82-99 | the loop computes the merge, and the API list stays a prefix of the answer |
| Universities.StoredIn | backend/routes/universities.js:77 | exactly the stored universities of the trimmed country |
| Universities.CountryUniversities | backend/routes/universities.js:56-123 | the answer is the merge of the API list (or nothing) with the country's stored universities |
| Universities.AddedIsFound | backend/routes/universities.js:151-152 | a university just added is found under its name and country |
| Universities.UniversitiesStampedAppend | backend/models/University.js:8 | appending a university with a free name keeps names unique |
| Universities.AddOutcome | backend/routes/universities.js:129-165 | 400 for a missing field; "University already exists." exactly when one matches the name (ignoring case) and country; "University added successfully." exactly when the new name is free; otherwise 500; the table changes only on an add |
| Universities.UniversityCollection.AddUniversity | backend/routes/universities.js:129-165 | the handler's response and new table are exactly those of `AddOutcome` |
| AdminAnalytics.VerifyAdmin | backend/routes/adminAnalytics.js:85-113 | 401 "No token provided", 403 "Invalid or expired token", 403 "Access denied: Not admin"; it admits exactly admins |
| AdminAnalytics.Summarize | backend/routes/adminAnalytics.js:121-139 | each count is the number of users of that kind; the average is the rating sum over every review with the number of reviews as its count |
| AdminAnalytics.ApprovedPlusPending | backend/routes/adminAnalytics.js:121-126 | approved plus pending professors is all professors |
| AdminAnalytics.RolesCoverUsers | backend/routes/adminAnalytics.js:121-128 | professors, students and admins together are all users |
| AdminAnalytics.SummaryRoute | backend/routes/adminAnalytics.js:119-153 | the gate response, or a summary whose counts add up as above |
| AdminAnalytics.SummaryAverageBounds | backend/routes/adminAnalytics.js:130-139 | the average rating of stored reviews lies between 1 and 5 |
| Home.FilterUniversities | frontend/profstars-frontend/src/pages/Home.jsx:86-88 | exactly the universities whose name contains the query ignoring case; nameless ones are dropped |
| Home.EmptyQueryKeepsNamed | frontend/profstars-frontend/src/pages/Home.jsx:86-88 | an empty query keeps every named university, in order |
| Home.TotalPages | frontend/profstars-frontend/src/pages/Home.jsx:90-93 | at least one page, and just enough pages of 12 to hold every item |
| Home.Page | frontend/profstars-frontend/src/pages/Home.jsx:95-98 | page p holds the items from position (p-1)*12 up to p*12 or the end of the list, in order: exactly 12 on a full page, fewer on the last, none past it |
| Home.PagesCoverAll | frontend/profstars-frontend/src/pages/Home.jsx:90-98 | pages 1..totalPages, in turn, list every filtered university exactly once, in order |
| Home.ProfessorsShown | frontend/profstars-frontend/src/pages/Home.jsx:108-110 | the first six recent professors whose name contains the search, ignoring case, in order: all of them when there are fewer than six |
| Home.HomeState.HandlePageChange | frontend/profstars-frontend/src/pages/Home.jsx:100-105 | the page moves only to a page between 1 and totalPages, and stays otherwise |
| Home.HomeState.SelectCountry | frontend/profstars-frontend/src/pages/Home.jsx:60-63 | choosing a country resets the search and the page; no country empties the list |
| Home.HomeState.SetSearchQuery | frontend/profstars-frontend/src/pages/Home.jsx:209-212 | typing resets the page to 1 |
| Home.HomeState.UniversitiesFetched | frontend/profstars-frontend/src/pages/Home.jsx:64-80 | the answer, or an empty list on failure |
| Explore.Filtered | frontend/profstars-frontend/src/pages/Explore.jsx:77-86 | exactly the items whose name contains the query; in the professors view with a category, the department must contain it too |
| Explore.FilteredKeepsOrder | frontend/profstars-frontend/src/pages/Explore.jsx:77-86 | filtering keeps the fetched order |
| Explore.TotalPages | frontend/profstars-frontend/src/pages/Explore.jsx:89 | no pages when nothing matches, otherwise just enough pages of 10 |
| Explore.PagesCoverAll | frontend/profstars-frontend/src/pages/Explore.jsx:89-90 | pages 1..totalPages list every filtered item once, in order |
| Explore.VerifiedByFirstPage | frontend/profstars-frontend/src/pages/Explore.jsx:99-101 | only the first web page decides the Verified badge |
| Explore.Verified | frontend/profstars-frontend/src/pages/Explore.jsx:99-101 | the Verified badge appears exactly when there is a first web page and it contains ".edu" or ".ac" |
| Explore.VerifiedCases | frontend/profstars-frontend/src/pages/Explore.jsx:99-101 | no web pages means no badge; a first page ending in ".edu" gets it |
| Explore.VerifiedExamples | frontend/profstars-frontend/src/pages/Explore.jsx:99-101 | "http://www.ox.ac.uk/" and "http://www.mit.edu/" both earn the badge, though neither ends in ".edu" |
| Explore.ToggledLikes | frontend/profstars-frontend/src/pages/Explore.jsx:107-111 | the toggled name is liked afterwards exactly when it was not before; every other name keeps its state |
| Explore.ToggleTwiceRestores | frontend/profstars-frontend/src/pages/Explore.jsx:107-111 | toggling a new name twice gives back the same list |
| Explore.ToggleTwiceSameNames | frontend/profstars-frontend/src/pages/Explore.jsx:107-111 | toggling any name twice gives back the same liked names |
| Explore.ClickedCategory | frontend/profstars-frontend/src/pages/Explore.jsx:132-134 | clicking the active chip clears it; clicking another chip activates that one |
| Explore.ExploreState.DataLoaded | frontend/profstars-frontend/src/pages/Explore.jsx:50-70 | an answer replaces the data; a failure keeps the data and sets "Failed to load data"; the page goes back to 1 |
| Explore.ExploreState.SetQuery | frontend/profstars-frontend/src/pages/Explore.jsx:151 | the query changes, and the page stays where it was |
| Explore.ExploreState.ToggleLike | frontend/profstars-frontend/src/pages/Explore.jsx:205 | the liked list becomes the toggled list |
| Explore.ExploreState.ClickCategory | frontend/profstars-frontend/src/pages/Explore.jsx:132-134 | the active category becomes the clicked result |
| Explore.ExploreState.PreviousPage | frontend/profstars-frontend/src/pages/Explore.jsx:263 | one page back, and never below page 1 |
| Explore.ExploreState.NextPage | frontend/profstars-frontend/src/pages/Explore.jsx:269 | one page on unless on the last page; from a page before the last it stays in range |
| Explore.ExploreState.ShowPagination | frontend/profstars-frontend/src/pages/Explore.jsx:261 | the pagination bar shows exactly when there is more than one page |
| StudentDashboard.FilterProfessors | frontend/profstars-frontend/src/pages/StudentDashboard.jsx:109-119 | exactly the professors whose name contains the search and, for each filter that is set, whose country or university contains it |
| StudentDashboard.NoFiltersShowsAll | frontend/profstars-frontend/src/pages/StudentDashboard.jsx:109-119 | with all three filters empty, every professor shows, in order |
| StudentDashboard.CountryFilterExcludesMissing | frontend/profstars-frontend/src/pages/StudentDashboard.jsx:112-114 | with a country filter set, a professor without a country never shows |
| StudentDashboard.UniversityFilterNarrows | frontend/profstars-frontend/src/pages/StudentDashboard.jsx:115-117 | adding a university filter never shows more professors |
| StudentDashboard.FilterState.SetFilterCountry | frontend/profstars-frontend/src/pages/StudentDashboard.jsx:42-71 | a different country, or clearing it, empties the university list and the university filter |
| StudentDashboard.FilterState.SetSearch | frontend/profstars-frontend/src/pages/StudentDashboard.jsx:131 | only the search changes |
| StudentDashboard.FilterState.SetFilterUniversity | frontend/profstars-frontend/src/pages/StudentDashboard.jsx:151-155 | only the university filter changes, and it can be set only once a country is chosen |
| StudentDashboard.FilterState.UniversitiesFetched | frontend/profstars-frontend/src/pages/StudentDashboard.jsx:54-66 | a non-empty answer, or an empty list |
| StudentDashboard.FilterState.ClearFilters | frontend/profstars-frontend/src/pages/StudentDashboard.jsx:175-179 | all three filters become empty, and every professor shows again |
| AdminDashboard.PendingList | frontend/profstars-frontend/src/pages/AdminDashboard.jsx:28-34 | exactly the unapproved records whose email lacks "@pending.profstars.com" |
| AdminDashboard.ApprovedList | frontend/profstars-frontend/src/pages/AdminDashboard.jsx:35 | exactly the approved records |
| AdminDashboard.StudentList | frontend/profstars-frontend/src/pages/AdminDashboard.jsx:36-38 | exactly the records whose email contains the sentinel domain, approved or not |
| AdminDashboard.PendingAndStudentSplitUnapproved | frontend/profstars-frontend/src/pages/AdminDashboard.jsx:28-38 | Pending and Student Submitted are disjoint, and together they hold every unapproved record |
| AdminDashboard.TabsKeepOrder | frontend/profstars-frontend/src/pages/AdminDashboard.jsx:28-38 | every tab keeps the fetched order |
| AdminDashboard.ApprovedTabEmptyFromRoute | frontend/profstars-frontend/src/pages/AdminDashboard.jsx:20-35 | fed by the pending-professors route, the Approved tab is always empty |
| AdminDashboard.SubmittedShowsInStudentTab | frontend/profstars-frontend/src/pages/AdminDashboard.jsx:36-38 | a professor created from a student's submission shows under Student Submitted and not under Pending |
| AdminDashboard.ActionRequest | frontend/profstars-frontend/src/pages/AdminDashboard.jsx:55-67 | "approve" is a PATCH to the approve route; every other action is a DELETE to the reject route; only the PATCH carries the token |
| AdminDashboard.IntendedActionRequest | frontend/profstars-frontend/src/pages/AdminDashboard.jsx:55-67 | the same verb, route and id, with the token on both verbs |
| AdminDashboard.Sent | frontend/profstars-frontend/src/pages/AdminDashboard.jsx:63-67 | the server sees the session's bearer when the request carries the header, and no token otherwise |
| AdminDashboard.RejectSentWithoutToken | backend/routes/admin.js:8-10 | the dashboard's Reject reaches `verifyAdmin` without a token and gets 401 "No token provided" |
| AdminDashboard.IntendedRejectAdmitted | backend/routes/admin.js:8-18 | with the token attached, an admin's Reject is admitted |
| AdminDashboard.Submit | backend/routes/admin.js:8-68 | a request without the token changes nothing and gets 401; a request with the token that the gate refuses gets the gate's answer and changes nothing; an admitted PATCH approves and an admitted DELETE removes the record |
| AdminDashboard.DashboardState.Refresh | frontend/profstars-frontend/src/pages/AdminDashboard.jsx:17-45 | an answer is split into the three tabs; a failure keeps them; loading ends |
| AdminDashboard.DashboardState.SelectTab | frontend/profstars-frontend/src/pages/AdminDashboard.jsx:134-153 | only the tab changes |
| AdminDashboard.DashboardState.Action | frontend/profstars-frontend/src/pages/AdminDashboard.jsx:159-161 | a request is offered exactly on Pending and Student Submitted |
| Register.WithFieldEffect | frontend/profstars-frontend/src/pages/Register.jsx:98 | setting a field changes that field only |
| Register.FrontendDomainAcceptedByServer | frontend/profstars-frontend/src/pages/Register.jsx:113-121 | an admin email that the page accepts is accepted by the server too |
| Register.UpperCaseDomainOnlyServerSide | frontend/profstars-frontend/src/pages/Register.jsx:119-121 | "a@PROFSTARS.CA" is an admin domain for the server but is refused by the page |
| Register.Submit | frontend/profstars-frontend/src/pages/Register.jsx:107-152 | an admin with a wrong domain is refused with the page's message; otherwise the whole form is sent, preceded by a university POST exactly when a custom name with trimmed text is given |
| Register.SentAdminIsServerAdmin | frontend/profstars-frontend/src/pages/Register.jsx:113-144 | an admin registration the page sends is stored with role admin |
| Register.RegisterForm.CountryOrRoleChanged | frontend/profstars-frontend/src/pages/Register.jsx:50-84 | the university list and custom entry are cleared, and so is the university when a country is chosen and the role is not admin |
| Register.RegisterForm.HandleChange | frontend/profstars-frontend/src/pages/Register.jsx:86-100 | "other" sets the custom flag and clears the university; a listed university clears the custom entry and is stored; a changed country or role runs the effect |
| Register.RegisterForm.HandleCustomUniversityChange | frontend/profstars-frontend/src/pages/Register.jsx:102-105 | the university becomes exactly the typed text |
| Register.RegisterForm.UniversitiesFetched | frontend/profstars-frontend/src/pages/Register.jsx:64-78 | a non-empty answer, or an empty list |
| Register.RegisterForm.HandleSubmit | frontend/profstars-frontend/src/pages/Register.jsx:107-127 | the form is refused exactly for an admin with a wrong domain |
| AdminLoginPage.ValidEmailHasOneAt | frontend/profstars-frontend/src/pages/AdminLogin.jsx:19 | an email that passes the pattern has exactly one "@" and no white space |
| AdminLoginPage.ValidateForm | frontend/profstars-frontend/src/pages/AdminLogin.jsx:14-31 | an email error exactly when the trimmed email is blank or fails the pattern, with the matching message; a password error exactly when it is shorter than 6 characters, with the matching message |
| AdminLoginPage.EmailShapeFromParts | frontend/profstars-frontend/src/pages/AdminLogin.jsx:19 | local part, "@", name, "." and ending, all without white space or "@", pass the pattern |
| AdminLoginPage.AdminCredentialsPassValidation | frontend/profstars-frontend/src/pages/AdminLogin.jsx:14-31 | every built-in admin account passes the form's validation |
| AdminLoginPage.AdminLoginForm.HandleChange | frontend/profstars-frontend/src/pages/AdminLogin.jsx:33-41 | the field takes the value, and only that field's error is blanked |
| AdminLoginPage.AdminLoginForm.HandleSubmit | frontend/profstars-frontend/src/pages/AdminLogin.jsx:43-57 | the errors become those of validation, and a request is sent exactly when there are none |
| App.Decide | frontend/profstars-frontend/src/App.jsx:57-131 | the admin area renders exactly for a signed-in admin; a redirect to /login comes only for a signed-out visitor or a guarded dashboard; /admin is a redirect only for a signed-in admin on /admin-login; a signed-out visitor sees every unguarded route |
| App.DashboardGuard | frontend/profstars-frontend/src/App.jsx:67-76 | /dashboard renders exactly for a signed-in student; everyone else goes to /login |
| App.ProfessorGuard | frontend/profstars-frontend/src/App.jsx:78-87 | /professor renders exactly for a signed-in professor; everyone else goes to /login |
| App.DetailsNeedSignInOnly | frontend/profstars-frontend/src/App.jsx:89-94 | /professor/:id needs a sign-in and nothing about the role |
| App.AdminGuard | frontend/profstars-frontend/src/App.jsx:97-121 | the admin pages render exactly for a signed-in admin, and send everyone else to /admin-login; /admin-login sends an admin on to /admin |
| App.PublicRoutesNeverRedirect | frontend/profstars-frontend/src/App.jsx:59-64 | the public pages and the 404 page render whoever is signed in |
| App.RedirectTargets | frontend/profstars-frontend/src/App.jsx:67-121 | redirects only go to /login, /admin-login or /admin |
| App.NavbarHiddenOnAdminPaths | frontend/profstars-frontend/src/App.jsx:51 | the navbar is hidden exactly on the admin pages and on /admin-login |
| App.AuthState.CheckAuth | frontend/profstars-frontend/src/App.jsx:32-37 | signed in exactly when a token is stored; the role is the stored one |
| App.AuthState.StorageChanged | frontend/profstars-frontend/src/App.jsx:39-41 | after a storage event the state agrees with storage |
| App.AuthState.HandleLogout | frontend/profstars-frontend/src/App.jsx:44-48 | storage is cleared, isAuth is false and the role is null, so every guarded page redirects |

## Left out

- JWT signing and verification, and bcrypt hashing and comparison, are foreign libraries.
  - A token arrives decoded.
  - A hash is an input, and comparison is a function parameter.
- The network is left out: Hipolabs, the Nominatim geocoding with its `Promise.all`, and the
  pages' axios calls. A fetch's answer is a method argument.
- Floating point is left out: `toFixed` averages and the Explore "Top Rated" badge
  (`averageRating >= 4.5`). Averages are a (sum, count) pair.
- Timers and concurrency are left out: the admin dashboard's 30-second refresh,
  `setTimeout` redirects, and the race between a duplicate check and its insert.
- An ObjectId that fails to cast makes a handler answer 500. Ids here are numbers, so this
  path is not modelled.
- `populate` and `select` projections beyond the public-user shape are not modelled.
- A `$regex` built from request text is taken literally. Regular-expression metacharacters
  in a name or university are not modelled.
- ProfessorRoutes.UpdateProfile: a patch of email or password is not modelled. Neither is a
  role outside the enum, which `findByIdAndUpdate` stores without validation.
- Text.Lower, Text.Upper, Text.IsSpace and Text.Trim are ASCII-only. JavaScript's
  `toLowerCase`/`toUpperCase` also map non-ASCII letters, and `\s` and `trim` also cover
  U+00A0, U+FEFF and U+2028. Every case-insensitive rule inherits this: the admin domain, the
  sentinel email, the duplicate checks, the page filters and the university merge.
- Lengths are counted in characters, while JavaScript's `.length` counts UTF-16 code units.
  This affects the six-character password minimum of the admin login form and the
  500-character comment limit of `backend/models/Review.js:28`.
- Ratings are integers, while the schema's `Number` also admits
  fractions such as 4.5 within 1..5.
- AuthController.Register: the bcrypt hash is a parameter and is not constrained; in the
  source it is never empty.
- ProfessorRoutes.NewestProfessors: the `averageRating` field it selects does not exist in
  the schema and is absent from the result.
- Explore.Item: a missing `web_pages` is the empty list, which decides the badge the same way.
- URL matching in the router is taken as done: App.Decide receives an already recognised route.
- The pages' review modal, toasts and rendering are presentation only.
- Files that are not part of this model:
  - unmounted routes and controllers: `backend/controllers/adminAnalytics.js`,
    `backend/routes/report.js`, `backend/routes/reportRoutes.js`, `backend/routes/subjects.js`;
  - `backend/routes/professorAnalytics.js`, which is date aggregation;
  - `middleware/auth.js`;
  - the pages that only render: AdminUsers, Login, ProfessorDashboard, ProfessorDetails,
    AdminAnalytics, AdminOverview, UniversityDetails and Dashboard;
  - payments in SupportUs and SupportModal.

## Findings

| source | as written | input that shows it | evidently intended | confidence | as-written member | corrected member |
|---|---|---|---|---|---|---|
| backend/routes/review.js:84-89 | `/add` builds the review without `semester` or `subject`, which `backend/models/Review.js:22-23` requires, so `save()` always fails | any admitted student who has not reviewed the professor: `POST /api/reviews/add {professorId, rating: 5, comment: "x"}` answers 500 "Failed to submit review." | the handler forwards the semester and subject, so a valid first review is stored | high (not executed) | ReviewRoutes.AddReview, ReviewRoutes.AddedReviewAlwaysRefused | ReviewRoutes.AddCourseReview |
| frontend/profstars-frontend/src/pages/AdminDashboard.jsx:61-67 | both actions call `method(url, {}, { headers })`; `axios.delete` takes `(url, config)`, so the headers are dropped from the DELETE | an admin presses Reject on any row: `DELETE /api/admin/reject/:id` goes without a token, `backend/routes/admin.js:10` answers 401 "No token provided" and the record stays | the Reject request carries the admin's token, so an admin's reject removes the record | high (not executed) | AdminDashboard.ActionRequest, AdminDashboard.RejectSentWithoutToken | AdminDashboard.IntendedActionRequest, AdminDashboard.IntendedRejectAdmitted |
