/** frontend/profstars-frontend/src/pages/AdminDashboard.jsx: the admin's three tabs over the
    list fetched from `/api/admin/pending-professors`, and the request each action button
    sends. Fetching and the thirty-second refresh timer are outside the model: an answer
    arrives through `Refresh`. */
module AdminDashboard {
  import opened Common
  import opened Text
  import opened UserModel
  import AdminRoutes
  import ReviewRoutes

  datatype Tab = PendingTab | ApprovedTab | StudentTab

  /** An unapproved record whose email does not carry the sentinel domain. */
  predicate InPending(p: PublicUser)
  {
    !p.isApproved && !Contains(p.email, ReviewRoutes.PendingDomain)
  }

  predicate InApproved(p: PublicUser)
  {
    p.isApproved
  }

  /** A record created from a student's submission, approved or not. */
  predicate InStudent(p: PublicUser)
  {
    Contains(p.email, ReviewRoutes.PendingDomain)
  }

  function PendingList(all: seq<PublicUser>): (r: seq<PublicUser>)
    ensures forall p :: p in r <==> p in all && InPending(p)
  {
    Filter(all, InPending)
  }

  function ApprovedList(all: seq<PublicUser>): (r: seq<PublicUser>)
    ensures forall p :: p in r <==> p in all && p.isApproved
  {
    Filter(all, InApproved)
  }

  function StudentList(all: seq<PublicUser>): (r: seq<PublicUser>)
    ensures forall p :: p in r <==> p in all && InStudent(p)
  {
    Filter(all, InStudent)
  }

  /** Pending and Student Submitted share no record, and together hold every unapproved one. */
  lemma PendingAndStudentSplitUnapproved(all: seq<PublicUser>)
    ensures forall p :: !(p in PendingList(all) && p in StudentList(all))
    ensures forall p :: p in all && !p.isApproved ==> p in PendingList(all) || p in StudentList(all)
  {
  }

  /** Each tab lists its records in the order they were fetched. */
  lemma TabsKeepOrder(all: seq<PublicUser>, before: (PublicUser, PublicUser) -> bool)
    requires Chain(all, before)
    ensures Chain(PendingList(all), before)
    ensures Chain(ApprovedList(all), before)
    ensures Chain(StudentList(all), before)
  {
    FilterKeepsChain(all, InPending, before);
    FilterKeepsChain(all, InApproved, before);
    FilterKeepsChain(all, InStudent, before);
  }

  /** The route the page reads from returns only unapproved professors, so the Approved tab
      is always empty. */
  lemma ApprovedTabEmptyFromRoute(users: seq<User>)
    ensures ApprovedList(AdminRoutes.PendingProfessors(users)) == []
  {
    var all := AdminRoutes.PendingProfessors(users);
    forall i | 0 <= i < |all|
      ensures !InApproved(all[i])
    {
      var u :| u in users && PendingProfessor(u) && all[i] == Public(u);
    }
    FilterNone(all, InApproved);
  }

  /** A professor record created from a student's submission shows in Student Submitted. */
  lemma SubmittedShowsInStudentTab(all: seq<PublicUser>, p: PublicUser, name: string)
    requires p in all && p.email == ReviewRoutes.SentinelEmail(name)
    ensures p in StudentList(all) && p !in PendingList(all)
  {
    EndsWithContains(p.email, ReviewRoutes.PendingDomain);
  }

  datatype Verb = Patch | Delete

  /** The request of `handleAction`; `authorized` says whether it carries the admin's
      `Authorization` header. */
  datatype Request = Request(verb: Verb, path: string, id: nat, authorized: bool)

  const ApprovePath := "http://localhost:5000/api/admin/approve/"
  const RejectPath := "http://localhost:5000/api/admin/reject/"

  /** "approve" is a PATCH to the approve route; every other action a DELETE to the reject
      route. Both calls pass `(url, {}, { headers })`: for `axios.patch` the third argument
      is the configuration and the header is sent, but `axios.delete` takes `(url, config)`,
      so the empty object becomes the configuration and the DELETE goes without a token. */
  function ActionRequest(id: nat, action: string): (r: Request)
    ensures r.id == id
    ensures r.verb == Patch <==> action == "approve"
    ensures r.verb == Patch <==> r.path == ApprovePath
    ensures r.verb == Delete <==> r.path == RejectPath
    ensures r.authorized <==> r.verb == Patch
  {
    if action == "approve" then Request(Patch, ApprovePath, id, true) else Request(Delete, RejectPath, id, false)
  }

  /** The request `handleAction` evidently means to send: the same route, with the header
      on both verbs. */
  function IntendedActionRequest(id: nat, action: string): (r: Request)
    ensures r.authorized
    ensures r.verb == ActionRequest(id, action).verb && r.path == ActionRequest(id, action).path && r.id == id
  {
    if action == "approve" then Request(Patch, ApprovePath, id, true) else Request(Delete, RejectPath, id, true)
  }

  /** The bearer the server decodes from a request sent in a session. */
  function Sent(req: Request, session: Bearer): (b: Bearer)
    ensures req.authorized ==> b == session
    ensures !req.authorized ==> b == NoToken
  {
    if req.authorized then session else NoToken
  }

  /** Whatever the session, the dashboard's Reject reaches `verifyAdmin` without a token
      and is answered 401, so the reject route never runs. */
  lemma RejectSentWithoutToken(id: nat, action: string, session: Bearer)
    requires action != "approve"
    ensures Sent(ActionRequest(id, action), session) == NoToken
    ensures CheckRole(Sent(ActionRequest(id, action), session), "admin") == Unauthorized
    ensures AdminRoutes.VerifyAdmin(Sent(ActionRequest(id, action), session)) ==
      Some(AdminRoutes.Status(401, "No token provided"))
  {
  }

  /** With the header on both verbs an admin's Reject is admitted by `verifyAdmin`. */
  lemma IntendedRejectAdmitted(id: nat, action: string, session: Bearer)
    requires session.Payload? && session.role == "admin"
    ensures Sent(IntendedActionRequest(id, action), session) == session
    ensures CheckRole(Sent(IntendedActionRequest(id, action), session), "admin") == Admitted(session.id)
    ensures AdminRoutes.VerifyAdmin(Sent(IntendedActionRequest(id, action), session)).None?
  {
  }

  /** The server's side of a button press: the request reaches the route its verb names,
      with the bearer it carries. */
  method Submit(t: UserCollection, req: Request, session: Bearer) returns (r: AdminRoutes.AdminResponse)
    requires t.Valid()
    modifies t
    ensures t.Valid()
    ensures !req.authorized ==> r == AdminRoutes.Status(401, "No token provided") && t.users == old(t.users)
    ensures req.authorized && !CheckRole(session, "admin").Admitted? ==>
      r == AdminRoutes.VerifyAdmin(session).value && t.users == old(t.users)
    ensures req.authorized && CheckRole(session, "admin").Admitted? && req.verb == Patch ==>
      t.users == SetApproved(old(t.users), req.id)
    ensures req.authorized && CheckRole(session, "admin").Admitted? && req.verb == Delete ==>
      t.users == RemoveById(old(t.users), req.id)
  {
    if req.verb == Patch {
      r := AdminRoutes.ApproveRoute(t, Sent(req, session), req.id);
    } else {
      r := AdminRoutes.RejectRoute(t, Sent(req, session), req.id);
    }
  }

  /** The Approve and Reject buttons appear on Pending and Student Submitted only. */
  predicate ShowsActions(tab: Tab)
  {
    tab == PendingTab || tab == StudentTab
  }

  /** The state of the page. */
  class DashboardState {
    var tab: Tab
    var pending: seq<PublicUser>
    var approved: seq<PublicUser>
    var student: seq<PublicUser>
    var loading: bool

    constructor ()
      ensures tab == PendingTab && pending == [] && approved == [] && student == [] && loading
    {
      tab := PendingTab;
      pending := [];
      approved := [];
      student := [];
      loading := true;
    }

    /** The list shown under the current tab. */
    function Visible(): (r: seq<PublicUser>)
      reads this
    {
      match tab
      case PendingTab => pending
      case ApprovedTab => approved
      case StudentTab => student
    }

    /** The end of `fetchProfessors`: an answer is split into the three tabs; a failure
        keeps what was shown. Either way loading ends. */
    method Refresh(answer: Option<seq<PublicUser>>)
      modifies this
      ensures !loading && tab == old(tab)
      ensures answer.Some? ==>
        && pending == PendingList(answer.value)
        && approved == ApprovedList(answer.value)
        && student == StudentList(answer.value)
      ensures answer.None? ==> pending == old(pending) && approved == old(approved) && student == old(student)
    {
      loading := true;
      if answer.Some? {
        pending := PendingList(answer.value);
        approved := ApprovedList(answer.value);
        student := StudentList(answer.value);
      }
      loading := false;
    }

    method SelectTab(t: Tab)
      modifies this
      ensures tab == t
      ensures pending == old(pending) && approved == old(approved) && student == old(student)
      ensures loading == old(loading)
    {
      tab := t;
    }

    /** A button press on a row of the current tab: the request it sends, if the tab offers it. */
    method Action(id: nat, action: string) returns (r: Option<Request>)
      ensures r.Some? <==> ShowsActions(tab)
      ensures r.Some? ==> r.value == ActionRequest(id, action)
    {
      if tab == PendingTab || tab == StudentTab {
        r := Some(ActionRequest(id, action));
      } else {
        r := None;
      }
    }
  }
}
