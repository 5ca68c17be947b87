/** backend/routes/admin.js: the `verifyAdmin` middleware and the three admin routes
    over the user table. The token is decoded from base64 without checking its
    signature; the model starts from what the decoding produced. */
module AdminRoutes {
  import opened Common
  import opened UserModel

  datatype AdminResponse =
    | Status(code: nat, message: string)
    | PendingList(professors: seq<PublicUser>)
    | Approved(message: string, professor: PublicUser)

  /** `verifyAdmin`: None lets the request through; otherwise the response it sends. */
  function VerifyAdmin(b: Bearer): (r: Option<AdminResponse>)
    ensures r.None? <==> CheckRole(b, "admin").Admitted?
    ensures b.NoToken? ==> r == Some(Status(401, "No token provided"))
    ensures b.InvalidToken? ==> r == Some(Status(403, "Invalid token"))
    ensures b.Payload? && b.role != "admin" ==> r == Some(Status(403, "Access denied"))
  {
    match b
    case NoToken => Some(Status(401, "No token provided"))
    case InvalidToken => Some(Status(403, "Invalid token"))
    case Payload(_, role) => if role == "admin" then None else Some(Status(403, "Access denied"))
  }

  /** `User.find({ role: "professor", isApproved: false }).sort({ createdAt: -1 }).select("-password")`:
      in a stamped table, insertion order is `createdAt` order, so the sort is a reversal. */
  function PendingProfessors(users: seq<User>): (r: seq<PublicUser>)
    ensures forall u :: u in users && PendingProfessor(u) ==> Public(u) in r
    ensures forall i :: 0 <= i < |r| ==>
      exists u :: u in users && PendingProfessor(u) && r[i] == Public(u)
  {
    var pending := Reverse(Filter(users, PendingProfessor));
    var r := seq(|pending|, i requires 0 <= i < |pending| => Public(pending[i]));
    assert forall u :: u in pending ==> Public(u) in r by {
      forall u | u in pending
        ensures Public(u) in r
      {
        var k :| 0 <= k < |pending| && pending[k] == u;
        assert r[k] == Public(u);
      }
    }
    r
  }

  /** The pending list is ordered newest first. */
  lemma PendingNewestFirst(users: seq<User>, clock: nat)
    requires Stamped(users, clock)
    ensures forall i, j :: 0 <= i < j < |PendingProfessors(users)| ==>
      PendingProfessors(users)[i].createdAt > PendingProfessors(users)[j].createdAt
  {
    var older := (a: User, b: User) => a.createdAt < b.createdAt;
    var newer := (a: User, b: User) => a.createdAt > b.createdAt;
    assert Chain(users, older);
    FilterKeepsChain(users, PendingProfessor, older);
    ReverseFlipsChain(Filter(users, PendingProfessor), older, newer);
  }

  /** GET `/pending-professors`, behind `verifyAdmin`. */
  function PendingRoute(users: seq<User>, b: Bearer): (r: AdminResponse)
    ensures !CheckRole(b, "admin").Admitted? ==> r.Status? && r == VerifyAdmin(b).value
    ensures CheckRole(b, "admin").Admitted? ==> r == PendingList(PendingProfessors(users))
  {
    match VerifyAdmin(b)
    case Some(denied) => denied
    case None => PendingList(PendingProfessors(users))
  }

  /** PATCH `/approve/:id`, behind `verifyAdmin`: any record with that id is approved,
      whatever its role, and sent back without its password. */
  method ApproveRoute(t: UserCollection, b: Bearer, id: nat) returns (r: AdminResponse)
    requires t.Valid()
    modifies t
    ensures t.Valid()
    ensures !CheckRole(b, "admin").Admitted? ==> r == VerifyAdmin(b).value && t.users == old(t.users)
    ensures CheckRole(b, "admin").Admitted? ==> t.users == SetApproved(old(t.users), id)
    ensures CheckRole(b, "admin").Admitted? && FindById(old(t.users), id).None? ==>
      r == Status(404, "Professor not found") && t.users == old(t.users)
    ensures CheckRole(b, "admin").Admitted? && FindById(old(t.users), id).Some? ==>
      var u := FindById(old(t.users), id).value.(isApproved := true);
      r == Approved("\U{2705} " + u.name + " approved successfully.", Public(u))
  {
    var denied := VerifyAdmin(b);
    if denied.Some? {
      return denied.value;
    }
    SetApprovedEffect(t.users, t.clock, id);
    t.users := SetApproved(t.users, id);
    var prof := FindById(t.users, id);
    if prof.None? {
      r := Status(404, "Professor not found");
    } else {
      r := Approved("\U{2705} " + prof.value.name + " approved successfully.", Public(prof.value));
    }
  }

  /** DELETE `/reject/:id`, behind `verifyAdmin`: the record with that id is deleted and
      every other record is kept in its order. */
  method RejectRoute(t: UserCollection, b: Bearer, id: nat) returns (r: AdminResponse)
    requires t.Valid()
    modifies t
    ensures t.Valid()
    ensures !CheckRole(b, "admin").Admitted? ==> r == VerifyAdmin(b).value && t.users == old(t.users)
    ensures CheckRole(b, "admin").Admitted? ==> t.users == RemoveById(old(t.users), id)
    ensures CheckRole(b, "admin").Admitted? && FindById(old(t.users), id).None? ==>
      r == Status(404, "Professor not found") && t.users == old(t.users)
    ensures CheckRole(b, "admin").Admitted? && FindById(old(t.users), id).Some? ==>
      r == Status(200, "\U{274C} " + FindById(old(t.users), id).value.name + " rejected and removed.")
  {
    var denied := VerifyAdmin(b);
    if denied.Some? {
      return denied.value;
    }
    RemoveByIdEffect(t.users, t.clock, id);
    var prof := FindById(t.users, id);
    if prof.None? {
      FilterAll(t.users, (u: User) => u.id != id);
      r := Status(404, "Professor not found");
    } else {
      r := Status(200, "\U{274C} " + prof.value.name + " rejected and removed.");
    }
    t.users := RemoveById(t.users, id);
  }
}
