/** Properties that relate several lifecycle operations: the request invariant
    survives every operation, saves are idempotent, closing a request clears
    its SLA flag, and concurrent saves from the same stale copy overwrite each other. */
module LifecycleProperties {
  import opened Results
  import opened Strings
  import opened Records
  import opened Permissions
  import opened Sla
  import opened Lifecycle
  import opened RequestIds

  /** A save keeps the request invariant when the clock has not gone backwards. */
  lemma SavePreservesValid(req: Request, actor: User, users: seq<User>, st: Status, sel: string, now: int)
    requires Valid(req) && req.updatedAt <= now
    requires SaveWrites(req, actor, st, sel)
    ensures Valid(SaveChanges(req, actor, users, st, sel, now).request)
  {
    var q := SaveChanges(req, actor, users, st, sel, now).request;
    var newId := SelectedAssignee(sel);
    if newId != req.iamAssigneeUserId && newId.None? {
    }
    if st != req.status {
      HistoryAppendValid(req, q, StatusEntry(actor, req.status, st, now));
    } else {
      ValidUnchangedHistory(req, q);
    }
  }

  /** Appending an entry for the new status at `q.updatedAt` keeps the invariant. */
  lemma HistoryAppendValid(req: Request, q: Request, e: HistoryEntry)
    requires Valid(req) && SameSubmission(q, req)
    requires req.updatedAt <= q.updatedAt && e.changedAt == q.updatedAt && e.status == q.status
    requires q.statusHistory == req.statusHistory + [e]
    requires q.iamAssigneeUserId.None? ==> q.iamAssigneeName.None?
    requires q.iamComments == req.iamComments && q.employeeComments == req.employeeComments
    ensures Valid(q)
  {
    var h, h' := req.statusHistory, q.statusHistory;
    assert h'[0] == h[0];
    forall i, j | 0 <= i < j < |h'| ensures h'[i].changedAt <= h'[j].changedAt {
      if j == |h| {
        assert h[i].changedAt <= h[|h| - 1].changedAt;
      }
    }
  }

  /** A later `updatedAt` with the history, status and comments unchanged keeps the invariant. */
  lemma ValidUnchangedHistory(req: Request, q: Request)
    requires Valid(req) && SameSubmission(q, req)
    requires req.updatedAt <= q.updatedAt && q.status == req.status
    requires q.statusHistory == req.statusHistory
    requires q.iamAssigneeUserId.None? ==> q.iamAssigneeName.None?
    requires q.iamComments == req.iamComments && q.employeeComments == req.employeeComments
    ensures Valid(q)
  {
  }

  /** Adding a comment keeps the request invariant when the clock has not gone backwards. */
  lemma CommentPreservesValid(req: Request, actor: User, text: string, now: int)
    requires Valid(req) && req.updatedAt <= now
    requires AddComment(req, actor, text, now).Success?
    ensures Valid(AddComment(req, actor, text, now).value.request)
  {
    var q := AddComment(req, actor, text, now).value.request;
    var c := Comment(actor.userId, actor.name, Trim(text), now);
    CommentAppendValid(req, q, c);
  }

  lemma CommentAppendValid(req: Request, q: Request, c: Comment)
    requires Valid(req) && SameSubmission(q, req) && req.updatedAt <= q.updatedAt == c.timestamp
    requires q.status == req.status && q.statusHistory == req.statusHistory
    requires q.iamAssigneeUserId == req.iamAssigneeUserId && q.iamAssigneeName == req.iamAssigneeName
    requires q.iamComments == req.iamComments || q.iamComments == req.iamComments + [c]
    requires q.employeeComments == req.employeeComments || q.employeeComments == req.employeeComments + [c]
    ensures Valid(q)
  {
    CommentsWithinExtend(req.iamComments, q.iamComments, c, req.createdAt, req.updatedAt, q.updatedAt);
    CommentsWithinExtend(req.employeeComments, q.employeeComments, c, req.createdAt, req.updatedAt, q.updatedAt);
  }

  lemma CommentsWithinExtend(cs: seq<Comment>, cs': seq<Comment>, c: Comment, lo: int, hi: int, hi': int)
    requires CommentsWithin(cs, lo, hi) && lo <= hi <= hi' && c.timestamp == hi'
    requires cs' == cs || cs' == cs + [c]
    ensures CommentsWithin(cs', lo, hi')
  {
  }

  /** Saving the same selections again right after a save finds nothing to save. */
  lemma SaveIsIdempotent(req: Request, actor: User, users: seq<User>, st: Status, sel: string, now: int,
                         actor2: User, users2: seq<User>, later: int)
    requires SaveWrites(req, actor, st, sel)
    requires CanChangeRequestStatus(Some(actor2))
    ensures SaveChanges(SaveChanges(req, actor, users, st, sel, now).request, actor2, users2, st, sel, later) == NoChanges
  {
  }

  /** A save to Completed or Declined clears the SLA flag at every later time. */
  lemma TerminalSaveClearsSla(req: Request, actor: User, users: seq<User>, st: Status, sel: string,
                              now: int, later: int)
    requires IsTerminal(st)
    requires SaveWrites(req, actor, st, sel)
    ensures !IsOverSla(SaveChanges(req, actor, users, st, sel, now).request, later)
  {
  }

  // ----- last write wins -----

  /** The request store: requests by id; `Put` replaces the whole record. */
  function Put(store: map<string, Request>, q: Request): (s: map<string, Request>)
    ensures q.id in s && s[q.id] == q
    ensures s.Keys == store.Keys + {q.id}
  {
    store[q.id := q]
  }

  /** When the assignee is no longer an active IAM user, the drop-down opens on
      "Unassigned", so any save from the detail view, even one that only changes
      the status, clears the assignee and logs REQUEST_ASSIGN last. */
  lemma StaleAssigneeDroppedOnSave(req: Request, actor: User, users: seq<User>, st: Status, now: int)
    requires CanChangeRequestStatus(Some(actor))
    requires req.iamAssigneeUserId.Some?
    requires forall i :: 0 <= i < |users| && users[i].isIam && users[i].isActive ==>
               req.iamAssigneeUserId != Some(users[i].userId)
    ensures var o := SaveChanges(req, actor, users, st, InitialAssigneeSelection(req, users), now);
      && o.Saved?
      && o.request.iamAssigneeUserId.None? && o.request.iamAssigneeName.None?
      && |o.audits| >= 1 && o.audits[|o.audits| - 1].actionType == RequestAssign
  {
    var sel := InitialAssigneeSelection(req, users);
    assert sel == "";
    var o := SaveChanges(req, actor, users, st, sel, now);
    assert o.Saved?;
  }

  /** Every stored request sits under its own id, as with an object store keyed by `id`. */
  predicate KeyedById(store: map<string, Request>) {
    forall k :: k in store ==> store[k].id == k
  }

  /** Ids are drawn at random and not checked against the store, so a submission
      whose drawn number matches a stored request's id replaces that request: the
      store does not grow, and the earlier request is gone. */
  lemma IdCollisionReplacesRequest(store: map<string, Request>, user: User, f: RequestForm, n: int, now: int)
    requires 1 <= n <= 999999
    requires FormIsValid(f) && !(f.system == OtherSystem && AllWhitespace(f.otherSystem))
    requires KeyedById(store) && GenerateRequestId(n) in store
    ensures var q := SubmitNewRequest(user, f, n, now).value.request;
      && q.id == GenerateRequestId(n)
      && Put(store, q).Keys == store.Keys
      && Put(store, q)[q.id] == q
      && (store[q.id] != q ==> store[q.id] !in Put(store, q).Values)
  {
    var q := SubmitNewRequest(user, f, n, now).value.request;
    ParseThenGenerate(q.id, n);
    PutReplaces(store, q);
  }

  /** Storing a request under an id already in use overwrites the record stored there. */
  lemma PutReplaces(store: map<string, Request>, q: Request)
    requires KeyedById(store) && q.id in store
    ensures Put(store, q).Keys == store.Keys
    ensures store[q.id] != q ==> store[q.id] !in Put(store, q).Values
  {
    var prev := store[q.id];
    var after := Put(store, q);
    forall k | k in after && k != q.id ensures after[k] != prev {
    }
  }

  /** Two staff members save from the same stale copy: one changes only the
      status, the other only the assignee. The write that lands second replaces
      the record wholesale, so the stored request carries the old status and
      lacks the first save's history entry, although both audits were written. */
  lemma StaleSavesLastWriteWins(store: map<string, Request>, req: Request,
                                a: User, usersA: seq<User>, st: Status, selA: string, nowA: int,
                                b: User, usersB: seq<User>, selB: string, nowB: int)
    requires st != req.status && SelectedAssignee(selA) == req.iamAssigneeUserId
    requires SaveChanges(req, a, usersA, st, selA, nowA).Saved?
    requires SaveChanges(req, b, usersB, req.status, selB, nowB).Saved?
    ensures
      var oa := SaveChanges(req, a, usersA, st, selA, nowA);
      var ob := SaveChanges(req, b, usersB, req.status, selB, nowB);
      var stored := Put(Put(store, oa.request), ob.request)[req.id];
      && |oa.audits| == 1 && oa.audits[0].actionType == RequestStatusChange
      && |ob.audits| == 1 && ob.audits[0].actionType == RequestAssign
      && stored == ob.request
      && stored.status == req.status != st
      && stored.statusHistory == req.statusHistory
  {
  }

  /** A request submitted at `t0` and left New is over its SLA eight days later;
      declining it then clears the flag. */
  lemma SlaScenario(user: User, f: RequestForm, n: int, t0: int, staff: User, users: seq<User>)
    requires 1 <= n <= 999999
    requires FormIsValid(f) && !(f.system == OtherSystem && AllWhitespace(f.otherSystem))
    requires staff.isIam
    ensures
      var q := SubmitNewRequest(user, f, n, t0).value.request;
      var t8 := t0 + 8 * MsPerDay;
      && IsOverSla(q, t8)
      && SaveChanges(q, staff, users, Declined, "", t8).Saved?
      && !IsOverSla(SaveChanges(q, staff, users, Declined, "", t8).request, t8)
  {
    var q := SubmitNewRequest(user, f, n, t0).value.request;
    var t8 := t0 + 8 * MsPerDay;
    OpenRequestOverSlaAfterEightDays(q, t8);
    assert SaveWrites(q, staff, Declined, "") by {
      assert CanChangeRequestStatus(Some(staff)) && q.status == New;
    }
    TerminalSaveClearsSla(q, staff, users, Declined, "", t8, t8);
  }

  lemma OpenRequestOverSlaAfterEightDays(q: Request, now: int)
    requires q.status == New && now == q.createdAt + 8 * MsPerDay
    ensures IsOverSla(q, now)
  {
    assert Abs(now - q.createdAt) == 8 * MsPerDay;
  }

  /** The browser checks required inputs before trimming, so a department,
      role or justification of white space alone is accepted and stored empty. */
  lemma BlankRequiredFieldsStoredEmpty(user: User, f: RequestForm, n: int, now: int)
    requires 1 <= n <= 999999
    requires FormIsValid(f) && f.system != OtherSystem
    requires AllWhitespace(f.department) && AllWhitespace(f.role) && AllWhitespace(f.justification)
    ensures SubmitNewRequest(user, f, n, now).Success?
    ensures var q := SubmitNewRequest(user, f, n, now).value.request;
      q.department == "" && q.requestedRoleOrPermission == "" && q.justification == ""
  {
  }

  // ----- sequences of operations -----

  /** One user action on an open request detail view. */
  datatype Op =
    | SaveOp(actor: User, users: seq<User>, status: Status, selection: string, at: int)
    | CommentOp(author: User, text: string, at: int)

  /** The stored request after `op`; a refused or empty action leaves it as it was. */
  function Step(q: Request, op: Op): Request {
    match op
    case SaveOp(actor, users, st, sel, at) =>
      var o := SaveChanges(q, actor, users, st, sel, at);
      if o.Saved? then o.request else q
    case CommentOp(author, text, at) =>
      var r := AddComment(q, author, text, at);
      if r.Success? then r.value.request else q
  }

  function Replay(q: Request, ops: seq<Op>): Request
    decreases |ops|
  {
    if ops == [] then q else Replay(Step(q, ops[0]), ops[1..])
  }

  /** The actions happen at non-decreasing times, none before `t`. */
  predicate ClockFrom(t: int, ops: seq<Op>)
    decreases |ops|
  {
    ops == [] || (t <= ops[0].at && ClockFrom(ops[0].at, ops[1..]))
  }

  /** One action keeps the invariant, the submission fields, and extends the
      history and both comment lists without rewriting them. */
  lemma StepPreserves(q: Request, op: Op)
    requires Valid(q) && q.updatedAt <= op.at
    ensures var r := Step(q, op);
      && Valid(r) && SameSubmission(r, q) && r.updatedAt <= op.at
      && q.statusHistory <= r.statusHistory
      && q.iamComments <= r.iamComments && q.employeeComments <= r.employeeComments
  {
    match op
    case SaveOp(actor, users, st, sel, at) =>
      if SaveChanges(q, actor, users, st, sel, at).Saved? {
        SavePreservesValid(q, actor, users, st, sel, at);
      }
    case CommentOp(author, text, at) =>
      if AddComment(q, author, text, at).Success? {
        CommentPreservesValid(q, author, text, at);
      }
  }

  /** Over any run of actions the invariant holds, the submission fields never
      change, and the status history and comment lists are append-only. */
  lemma {:induction false} ReplayPreserves(q: Request, t: int, ops: seq<Op>)
    requires Valid(q) && q.updatedAt <= t && ClockFrom(t, ops)
    ensures var r := Replay(q, ops);
      && Valid(r) && SameSubmission(r, q)
      && q.statusHistory <= r.statusHistory
      && q.iamComments <= r.iamComments && q.employeeComments <= r.employeeComments
    decreases |ops|
  {
    if ops != [] {
      var q1 := Step(q, ops[0]);
      StepPreserves(q, ops[0]);
      ReplayPreserves(q1, ops[0].at, ops[1..]);
    }
  }

  /** Every request built by submission and then acted on satisfies the invariant,
      and its history still opens with the submission entry. */
  lemma SubmittedThenReplayed(user: User, f: RequestForm, n: int, now: int, ops: seq<Op>)
    requires 1 <= n <= 999999
    requires FormIsValid(f) && !(f.system == OtherSystem && AllWhitespace(f.otherSystem))
    requires ClockFrom(now, ops)
    ensures var r := Replay(SubmitNewRequest(user, f, n, now).value.request, ops);
      && Valid(r)
      && r.statusHistory[0] == HistoryEntry(New, user.userId, user.name, now, SubmittedNote)
  {
    var q := SubmitNewRequest(user, f, n, now).value.request;
    ReplayPreserves(q, now, ops);
  }
}
