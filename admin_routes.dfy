/** backend/routes/adminRoutes.js: the moderation routes. Each sits behind
    `protect` and `admin`; each then lists, approves, rejects or deletes
    resources of the collection by id. */
module AdminRoutes {
  import opened Strings
  import opened AppErrors
  import opened Users
  import opened AuthMiddleware
  import opened ResourceModel
  import AuthController

  const ADMIN_LIST_LIMIT: nat := 100
  const NOT_FOUND := "Resource not found"
  const REMOVED := "Resource removed successfully"

  /** `Resource.find()` with no condition. */
  const EVERY := Filter(false, AnyDepartment, None)

  /** A route's outcome: one of the three JSON answers, or the plain `Error`
      handed to `next`. */
  datatype AdminReply =
    | Listed(answer: string, resources: seq<Resource>)
    | Moderated(answer: string, resource: Resource)
    | Removed(answer: string, message: string)
    | Failed(error: AppError)

  function NotFound(): AdminReply {
    Failed(PlainError("Error", NOT_FOUND))
  }

  // ---------------------------------------------------------------------------
  // protect, then admin
  // ---------------------------------------------------------------------------

  /** What the two middlewares decide together: `protect`'s refusal, or
      `admin`'s decision on the account `protect` loaded. */
  function Gate(authorization: Option<string>, verify: string -> Option<nat>, users: seq<User>): Outcome {
    var a := Authenticate(authorization, verify, users);
    if a.Err? then Deny(401, a.error) else AdminGate(Some(a.value))
  }

  /** A request reaches a moderation route only with a token that `verify`
      maps to a stored account whose role is 'admin'. */
  lemma GateAdmitsOnlyAdmins(authorization: Option<string>, verify: string -> Option<nat>, users: seq<User>)
    requires Gate(authorization, verify, users) == Next
    ensures BearerToken(authorization).Some?
    ensures exists i :: 0 <= i < |users| && users[i].role == ADMIN_ROLE
              && verify(BearerToken(authorization).value) == Some(users[i].id)
  {
    var a := Authenticate(authorization, verify, users);
    var i :| 0 <= i < |users| && a.value == ProfileOf(users[i])
             && verify(BearerToken(authorization).value) == Some(users[i].id);
    assert users[i].role == a.value.role;
  }

  /** An account made by registration carries the role 'user', so the gate
      answers 403 to it. */
  lemma RegisteredAccountsAreNotAdmins(id: nat, name: string, email: string, hashed: string)
    ensures AdminGate(Some(ProfileOf(AuthController.NewAccount(id, name, email, hashed))))
            == Deny(403, ADMIN_REQUIRED)
  {
  }

  /** `router.METHOD(path, protect, admin, handler)` up to the handler:
      `protect` runs first, and `admin` only when it passes. */
  method Authorize(req: Request, verify: string -> Option<nat>, users: seq<User>) returns (o: Outcome)
    modifies req
    ensures o == Gate(old(req.authorization), verify, users)
    ensures Authenticate(old(req.authorization), verify, users).Ok? ==>
              req.user == Some(Authenticate(old(req.authorization), verify, users).value)
    ensures Authenticate(old(req.authorization), verify, users).Err? ==> req.user == old(req.user)
  {
    o := Protect(req, verify, users);
    if o == Next {
      o := AdminGate(req.user);
    }
  }

  // ---------------------------------------------------------------------------
  // GET /resources
  // ---------------------------------------------------------------------------

  /** Every filter-free query selects all records, in order. */
  lemma {:induction false} SelectEvery(rows: seq<Resource>)
    ensures Select(rows, EVERY) == rows
    decreases |rows|
  {
    if rows != [] {
      SelectEvery(rows[..|rows| - 1]);
      assert rows[..|rows| - 1] + [rows[|rows| - 1]] == rows;
    }
  }

  /** The 100 newest resources whatever their status, newest first. */
  function ListAll(rows: seq<Resource>): (r: AdminReply)
    ensures r.Listed? && |r.resources| == Min(ADMIN_LIST_LIMIT, |rows|)
    ensures forall i :: 0 <= i < |r.resources| ==> r.resources[i] in rows
    ensures IdsIncreasing(rows) ==> IdsDecreasing(r.resources)
    ensures r.answer == "Found " + NatToString(|r.resources|) + " resources in the system."
  {
    SelectEvery(rows);
    var resources := Latest(rows, EVERY, ADMIN_LIST_LIMIT);
    Listed("Found " + NatToString(|resources|) + " resources in the system.", resources)
  }

  /** A resource the list leaves out, of any status, is older than every one
      it shows, and the list is full. */
  lemma ListAllNewest(rows: seq<Resource>, x: Resource)
    requires IdsIncreasing(rows) && x in rows && x !in ListAll(rows).resources
    ensures |ListAll(rows).resources| == ADMIN_LIST_LIMIT
    ensures forall i :: 0 <= i < ADMIN_LIST_LIMIT ==> x.id < ListAll(rows).resources[i].id
  {
    LatestAreNewest(rows, EVERY, ADMIN_LIST_LIMIT, x);
  }

  // ---------------------------------------------------------------------------
  // PUT /resources/:id/approve, PUT /resources/:id/reject
  // ---------------------------------------------------------------------------

  /** The update `{ status: "approved", isVerified: true }`. */
  function Approved(d: Resource): Resource {
    d.(status := "approved", isVerified := true)
  }

  /** The update `{ status: "rejected" }`. */
  function Rejected(d: Resource): Resource {
    d.(status := "rejected")
  }

  /** Approving sets the status and the verified flag and nothing else;
      rejecting sets the status only. Both keep a record valid. */
  lemma ModerationKeepsRecord(d: Resource)
    requires SchemaValid(d)
    ensures SchemaValid(Approved(d)) && SchemaValid(Rejected(d))
    ensures Approved(d).status == "approved" && Approved(d).isVerified
    ensures Rejected(d).status == "rejected" && Rejected(d).isVerified == d.isVerified
    ensures Approved(d).(status := d.status, isVerified := d.isVerified) == d
    ensures Rejected(d).(status := d.status) == d
  {
    assert LeadingErrors(Approved(d)) == LeadingErrors(d);
    assert LeadingErrors(Rejected(d)) == LeadingErrors(d);
  }

  /** An approved resource is one the public listings select; a rejected one
      they never select. */
  lemma ModerationDecidesVisibility(d: Resource, department: DepartmentMatch, keyword: Option<string>)
    ensures Selects(Filter(true, department, keyword), Approved(d)) <==>
              Selects(Filter(false, department, keyword), d)
    ensures !Selects(Filter(true, department, keyword), Rejected(d))
  {
    if keyword.Some? {
      assert KeywordMatches(Approved(d), keyword.value) == KeywordMatches(d, keyword.value) by {
        assert Approved(d).tags == d.tags;
      }
    }
  }

  function ModeratedAnswer(d: Resource, verb: string): string {
    "Resource **" + TitleText(d) + "** has been " + verb + "."
  }

  /** `findByIdAndUpdate(id, { status: "approved", isVerified: true }, { new: true })`:
      an absent id changes nothing and is "Resource not found"; otherwise the
      record is updated in place and answered. */
  method Approve(store: ResourceStore, id: nat) returns (r: AdminReply)
    requires store.Valid()
    modifies store
    ensures store.Valid() && store.nextId == old(store.nextId)
    ensures Find(old(store.rows), id).None? ==> r == NotFound() && store.rows == old(store.rows)
    ensures Find(old(store.rows), id).Some? ==>
              var i := Find(old(store.rows), id).value;
              store.rows == old(store.rows)[i := Approved(old(store.rows)[i])]
              && r == Moderated(ModeratedAnswer(store.rows[i], "approved"), store.rows[i])
  {
    var found := Find(store.rows, id);
    if found.None? {
      return NotFound();
    }
    var i := found.value;
    var d := Approved(store.rows[i]);
    ModerationKeepsRecord(store.rows[i]);
    store.Replace(i, d);
    r := Moderated(ModeratedAnswer(d, "approved"), d);
  }

  /** `findByIdAndUpdate(id, { status: "rejected" }, { new: true })`. */
  method Reject(store: ResourceStore, id: nat) returns (r: AdminReply)
    requires store.Valid()
    modifies store
    ensures store.Valid() && store.nextId == old(store.nextId)
    ensures Find(old(store.rows), id).None? ==> r == NotFound() && store.rows == old(store.rows)
    ensures Find(old(store.rows), id).Some? ==>
              var i := Find(old(store.rows), id).value;
              store.rows == old(store.rows)[i := Rejected(old(store.rows)[i])]
              && r == Moderated(ModeratedAnswer(store.rows[i], "rejected"), store.rows[i])
  {
    var found := Find(store.rows, id);
    if found.None? {
      return NotFound();
    }
    var i := found.value;
    var d := Rejected(store.rows[i]);
    ModerationKeepsRecord(store.rows[i]);
    store.Replace(i, d);
    r := Moderated(ModeratedAnswer(d, "rejected"), d);
  }

  // ---------------------------------------------------------------------------
  // DELETE /resources/:id
  // ---------------------------------------------------------------------------

  /** `findByIdAndDelete(id)`: an absent id changes nothing and is "Resource
      not found"; otherwise the record is removed and its title answered. */
  method Delete(store: ResourceStore, id: nat) returns (r: AdminReply)
    requires store.Valid()
    modifies store
    ensures store.Valid() && store.nextId == old(store.nextId)
    ensures Find(old(store.rows), id).None? ==> r == NotFound() && store.rows == old(store.rows)
    ensures Find(old(store.rows), id).Some? ==>
              var i := Find(old(store.rows), id).value;
              store.rows == RemoveAt(old(store.rows), i)
              && r == Removed(ModeratedAnswer(old(store.rows)[i], "deleted"), REMOVED)
  {
    var found := Find(store.rows, id);
    if found.None? {
      return NotFound();
    }
    var i := found.value;
    var d := store.rows[i];
    store.Delete(i);
    r := Removed(ModeratedAnswer(d, "deleted"), REMOVED);
  }

  /** Deleting removes exactly the record with the id: what is left is every
      other record, and the id is gone. */
  lemma DeleteRemovesExactly(rows: seq<Resource>, id: nat)
    requires IdsIncreasing(rows) && Find(rows, id).Some?
    ensures forall x :: x in RemoveAt(rows, Find(rows, id).value) <==> x in rows && x.id != id
  {
    var i := Find(rows, id).value;
    var rest := RemoveAt(rows, i);
    forall x | x in rows && x.id != id ensures x in rest {
      var k :| 0 <= k < |rows| && rows[k] == x;
      if k < i { assert rest[k] == x; } else { assert rest[k - 1] == x; }
    }
    forall x | x in rest ensures x in rows && x.id != id {
      var k :| 0 <= k < |rest| && rest[k] == x;
      if k < i { assert rows[k] == x; } else { assert rows[k + 1] == x; }
    }
  }
}
