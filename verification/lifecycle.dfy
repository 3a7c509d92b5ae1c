/** The request lifecycle: submission (app.js:897-941), the staff save-changes
    handler (app.js:1384-1432) and the comment handler (app.js:1436-1458), as
    pure transitions that return the new record and the audit entries written. */
module Lifecycle {
  import opened Results
  import opened Strings
  import opened Sequences
  import opened Records
  import opened RequestIds
  import opened Permissions
  import opened AuditLog

  const OtherSystem := "Other"
  const SubmittedNote := "Request submitted"
  const RequestTarget := "REQUEST"

  // ----- the invariant every stored request keeps -----

  predicate HistorySorted(h: seq<HistoryEntry>) {
    forall i, j :: 0 <= i < j < |h| ==> h[i].changedAt <= h[j].changedAt
  }

  predicate CommentsWithin(cs: seq<Comment>, lo: int, hi: int) {
    forall i :: 0 <= i < |cs| ==> lo <= cs[i].timestamp <= hi
  }

  /** The history opens with the submission entry, its last entry carries the
      current status, its times never go backwards and none is later than
      `updatedAt`; an unassigned request has no assignee name. */
  predicate Valid(q: Request) {
    && q.createdAt <= q.updatedAt
    && |q.statusHistory| >= 1
    && q.statusHistory[0] == HistoryEntry(New, q.requesterUserId, q.requesterName, q.createdAt, SubmittedNote)
    && q.statusHistory[|q.statusHistory| - 1].status == q.status
    && HistorySorted(q.statusHistory)
    && q.statusHistory[|q.statusHistory| - 1].changedAt <= q.updatedAt
    && (q.iamAssigneeUserId.None? ==> q.iamAssigneeName.None?)
    && CommentsWithin(q.iamComments, q.createdAt, q.updatedAt)
    && CommentsWithin(q.employeeComments, q.createdAt, q.updatedAt)
  }

  /** The fields fixed when the request was submitted. */
  predicate SameSubmission(a: Request, b: Request) {
    && a.id == b.id && a.createdAt == b.createdAt
    && a.requesterUserId == b.requesterUserId && a.requesterName == b.requesterName
    && a.requesterEmail == b.requesterEmail && a.department == b.department
    && a.applicationOrSystem == b.applicationOrSystem && a.applicationOtherText == b.applicationOtherText
    && a.environment == b.environment && a.requestType == b.requestType
    && a.requestedRoleOrPermission == b.requestedRoleOrPermission
    && a.justification == b.justification && a.urgency == b.urgency
  }

  // ----- submission -----

  /** The new-request form's control values, untrimmed. */
  datatype RequestForm = RequestForm(
    department: string,
    system: string,
    otherSystem: string,
    environment: string,
    requestType: string,
    role: string,
    justification: string,
    urgency: string)

  /** The browser's `checkValidity`: every required control is non-empty, and the
      other-system input is required exactly while "Other" is selected. */
  predicate FormIsValid(f: RequestForm) {
    && f.department != "" && f.system != "" && f.environment != ""
    && f.requestType != "" && f.urgency != "" && f.role != "" && f.justification != ""
    && (f.system == OtherSystem ==> f.otherSystem != "")
  }

  datatype CreateError = InvalidForm | OtherSystemNotSpecified

  datatype Created = Created(request: Request, audit: AuditEntry)

  /** `submitNewRequest` with the drawn id number and the clock as parameters. */
  function SubmitNewRequest(user: User, f: RequestForm, idNumber: int, now: int): (r: Result<Created, CreateError>)
    requires 1 <= idNumber <= MaxIdNumber
    ensures !FormIsValid(f) ==> r == Failure(InvalidForm)
    ensures FormIsValid(f) && f.system == OtherSystem && AllWhitespace(f.otherSystem) ==>
              r == Failure(OtherSystemNotSpecified)
    ensures r.Success? <==> FormIsValid(f) && !(f.system == OtherSystem && AllWhitespace(f.otherSystem))
    ensures r.Success? ==>
              var q := r.value.request;
              && Valid(q)
              && ParseRequestId(q.id) == Some(idNumber)
              && q.status == New && q.createdAt == now && q.updatedAt == now
              && q.iamAssigneeUserId.None? && q.iamAssigneeName.None?
              && q.iamComments == [] && q.employeeComments == []
              && q.statusHistory == [HistoryEntry(New, user.userId, user.name, now, SubmittedNote)]
              && q.requesterUserId == user.userId && q.requesterName == user.name
              && q.requesterEmail == user.email
              && q.applicationOrSystem == f.system
              && (q.applicationOtherText != "" <==> f.system == OtherSystem)
              && q.applicationOtherText == (if f.system == OtherSystem then Trim(f.otherSystem) else "")
              && q.department == Trim(f.department)
              && q.requestedRoleOrPermission == Trim(f.role) && q.justification == Trim(f.justification)
              && q.environment == f.environment && q.requestType == f.requestType && q.urgency == f.urgency
    ensures r.Success? ==>
              r.value.audit == LogAudit(Some(user), now, RequestCreate, RequestTarget, r.value.request.id,
                                        true, CreateDetail(f.system, f.requestType))
  {
    if !FormIsValid(f) then Failure(InvalidForm)
    else if f.system == OtherSystem && Trim(f.otherSystem) == "" then Failure(OtherSystemNotSpecified)
    else
      var q := NewRequest(user, f, idNumber, now);
      Success(Created(q, LogAudit(Some(user), now, RequestCreate, RequestTarget, q.id, true,
                                  CreateDetail(f.system, f.requestType))))
  }

  /** The record `submitNewRequest` builds once the form has passed its checks. */
  function NewRequest(user: User, f: RequestForm, idNumber: int, now: int): (q: Request)
    requires 1 <= idNumber <= MaxIdNumber
    requires FormIsValid(f) && !(f.system == OtherSystem && AllWhitespace(f.otherSystem))
    ensures Valid(q)
    ensures ParseRequestId(q.id) == Some(idNumber)
    ensures q.status == New && q.createdAt == now && q.updatedAt == now
    ensures q.iamAssigneeUserId.None? && q.iamAssigneeName.None?
    ensures q.iamComments == [] && q.employeeComments == []
    ensures q.statusHistory == [HistoryEntry(New, user.userId, user.name, now, SubmittedNote)]
    ensures q.requesterUserId == user.userId && q.requesterName == user.name && q.requesterEmail == user.email
    ensures q.applicationOrSystem == f.system
    ensures q.applicationOtherText != "" <==> f.system == OtherSystem
    ensures q.applicationOtherText == (if f.system == OtherSystem then Trim(f.otherSystem) else "")
    ensures q.department == Trim(f.department)
    ensures q.requestedRoleOrPermission == Trim(f.role) && q.justification == Trim(f.justification)
    ensures q.environment == f.environment && q.requestType == f.requestType && q.urgency == f.urgency
  {
    Request(
      GenerateRequestId(idNumber), now, now,
      user.userId, user.name, user.email,
      Trim(f.department), f.system,
      if f.system == OtherSystem then Trim(f.otherSystem) else "",
      f.environment, f.requestType, Trim(f.role), Trim(f.justification), f.urgency,
      New, None, None, [], [],
      [HistoryEntry(New, user.userId, user.name, now, SubmittedNote)])
  }

  // ----- save changes -----

  datatype SaveOutcome =
    | NotPermitted
    | NoChanges
    | Saved(request: Request, audits: seq<AuditEntry>)

  /** The assignee drop-down's value: the empty option means unassigned. */
  function SelectedAssignee(selection: string): (id: Option<string>)
    ensures id.None? <==> selection == ""
    ensures id.Some? ==> id.value == selection
  {
    if selection == "" then None else Some(selection)
  }

  /** The users offered as assignees: active IAM staff, in stored order (app.js:1210). */
  function IamUsers(users: seq<User>): (r: seq<User>)
    ensures IsSubsequence(r, users)
    ensures forall i :: 0 <= i < |r| ==> r[i].isIam && r[i].isActive
    ensures forall i :: 0 <= i < |users| && users[i].isIam && users[i].isActive ==> users[i] in r
  {
    Keep(users, (u: User) => u.isIam && u.isActive)
  }

  /** Each active IAM user is offered as often as it is stored; no one else is offered. */
  lemma IamUsersCounts(users: seq<User>)
    ensures forall u :: multiset(IamUsers(users))[u] == if u.isIam && u.isActive then multiset(users)[u] else 0
  {
  }

  /** `users.find(u => u.userId === id)`: the first user with that id. */
  function FindUser(users: seq<User>, id: Option<string>): (r: Option<User>)
    ensures r.Some? ==> r.value in users && id == Some(r.value.userId)
    ensures r.None? ==> forall i :: 0 <= i < |users| ==> id != Some(users[i].userId)
  {
    if users == [] then None
    else if id == Some(users[0].userId) then Some(users[0])
    else
      var r := FindUser(users[1..], id);
      assert forall i :: 1 <= i < |users| ==> users[i] == users[1..][i - 1];
      r
  }

  /** The value the assignee drop-down opens with: the current assignee's id when
      that user is an active IAM user; otherwise no option is marked and the
      browser shows the first one, the empty "Unassigned" option. */
  function InitialAssigneeSelection(req: Request, users: seq<User>): (sel: string)
    ensures sel != "" ==> req.iamAssigneeUserId == Some(sel)
    ensures sel != "" <==>
              && req.iamAssigneeUserId.Some? && req.iamAssigneeUserId.value != ""
              && exists i :: 0 <= i < |users| && users[i].isIam && users[i].isActive
                             && req.iamAssigneeUserId == Some(users[i].userId)
  {
    var found := FindUser(IamUsers(users), req.iamAssigneeUserId);
    FindIamUser(users, req.iamAssigneeUserId);
    if found.Some? then req.iamAssigneeUserId.value else ""
  }

  /** Looking an id up among the assignable users finds a user exactly when an
      active IAM user has that id. */
  lemma FindIamUser(users: seq<User>, id: Option<string>)
    ensures FindUser(IamUsers(users), id).Some? <==>
              exists i :: 0 <= i < |users| && users[i].isIam && users[i].isActive && id == Some(users[i].userId)
  {
    var staff := IamUsers(users);
    var r := FindUser(staff, id);
    IamUsersCounts(users);
    if r.Some? {
      assert r.value in multiset(staff);
      assert r.value in multiset(users);
      var k :| 0 <= k < |users| && users[k] == r.value;
    }
    if i :| 0 <= i < |users| && users[i].isIam && users[i].isActive && id == Some(users[i].userId) {
      assert users[i] in staff;
    }
  }

  /** `find` returns the first match: when `users[k]` is the first user with the
      id, it is the one found. */
  lemma {:induction false} FindUserIsFirst(users: seq<User>, id: Option<string>, k: nat)
    requires k < |users| && id == Some(users[k].userId)
    requires forall j :: 0 <= j < k ==> id != Some(users[j].userId)
    ensures FindUser(users, id) == Some(users[k])
    decreases k
  {
    if k > 0 {
      assert id != Some(users[0].userId);
      assert forall j :: 0 <= j < k - 1 ==> users[1..][j] == users[j + 1];
      FindUserIsFirst(users[1..], id, k - 1);
    }
  }

  /** `newAssignee?.name || null` */
  function NameOrNull(u: Option<User>): Option<string> {
    if u.Some? && u.value.name != "" then Some(u.value.name) else None
  }

  /** `newAssignee?.name || 'Unassigned'` */
  function NameOrUnassigned(u: Option<User>): string {
    if u.Some? && u.value.name != "" then u.value.name else "Unassigned"
  }

  function StatusNote(from: Status, to: Status): string {
    "Status changed from " + StatusName(from) + " to " + StatusName(to)
  }

  /** The history entry a status change appends. */
  function StatusEntry(actor: User, from: Status, to: Status, now: int): HistoryEntry {
    HistoryEntry(to, actor.userId, actor.name, now, StatusNote(from, to))
  }

  /** A save writes something: the actor is staff and the status or the assignee differs. */
  predicate SaveWrites(req: Request, actor: User, newStatus: Status, assigneeSelection: string) {
    && CanChangeRequestStatus(Some(actor))
    && (newStatus != req.status || SelectedAssignee(assigneeSelection) != req.iamAssigneeUserId)
  }

  /** The save handler, offered only to IAM staff and admins. A changed status
      appends one history entry and one REQUEST_STATUS_CHANGE audit; a changed
      assignee rewrites the assignee pair and adds one REQUEST_ASSIGN audit; any
      change bumps `updatedAt` once; no change at all writes nothing. */
  function SaveChanges(req: Request, actor: User, users: seq<User>, newStatus: Status,
                       assigneeSelection: string, now: int): (o: SaveOutcome)
    ensures o.NotPermitted? <==> !CanChangeRequestStatus(Some(actor))
    ensures CanChangeRequestStatus(Some(actor)) ==>
              (o.NoChanges? <==> newStatus == req.status && SelectedAssignee(assigneeSelection) == req.iamAssigneeUserId)
    ensures o.Saved? ==>
              var q := o.request;
              var statusChanged := newStatus != req.status;
              var assigneeChanged := SelectedAssignee(assigneeSelection) != req.iamAssigneeUserId;
              var chosen := FindUser(IamUsers(users), SelectedAssignee(assigneeSelection));
              && SameSubmission(q, req)
              && q.iamComments == req.iamComments && q.employeeComments == req.employeeComments
              && q.updatedAt == now
              && q.status == newStatus
              && q.iamAssigneeUserId == SelectedAssignee(assigneeSelection)
              && q.iamAssigneeName == (if assigneeChanged then NameOrNull(chosen) else req.iamAssigneeName)
              && q.statusHistory == req.statusHistory + (if statusChanged then [StatusEntry(actor, req.status, newStatus, now)] else [])
              && o.audits ==
                   (if statusChanged then [LogAudit(Some(actor), now, RequestStatusChange, RequestTarget, req.id, true,
                                                    StatusChangeDetail(req.status, newStatus))] else [])
                   + (if assigneeChanged then [LogAudit(Some(actor), now, RequestAssign, RequestTarget, req.id, true,
                                                        AssignDetail(req.iamAssigneeName, NameOrUnassigned(chosen)))] else [])
  {
    if !CanChangeRequestStatus(Some(actor)) then NotPermitted
    else
      var newAssigneeId := SelectedAssignee(assigneeSelection);
      var newAssignee := FindUser(IamUsers(users), newAssigneeId);
      var statusChanged := newStatus != req.status;
      var assigneeChanged := newAssigneeId != req.iamAssigneeUserId;
      if !statusChanged && !assigneeChanged then NoChanges
      else
        var history := if statusChanged then req.statusHistory + [StatusEntry(actor, req.status, newStatus, now)]
                       else req.statusHistory;
        var statusAudits := if statusChanged then
                              [LogAudit(Some(actor), now, RequestStatusChange, RequestTarget, req.id, true,
                                        StatusChangeDetail(req.status, newStatus))]
                            else [];
        var assignAudits := if assigneeChanged then
                              [LogAudit(Some(actor), now, RequestAssign, RequestTarget, req.id, true,
                                        AssignDetail(req.iamAssigneeName, NameOrUnassigned(newAssignee)))]
                            else [];
        var q := req.(
          status := newStatus,
          statusHistory := history,
          iamAssigneeUserId := if assigneeChanged then newAssigneeId else req.iamAssigneeUserId,
          iamAssigneeName := if assigneeChanged then NameOrNull(newAssignee) else req.iamAssigneeName,
          updatedAt := now);
        Saved(q, statusAudits + assignAudits)
  }

  // ----- comments -----

  datatype CommentError = CommentNotAllowed | EmptyComment

  datatype Commented = Commented(request: Request, audit: AuditEntry)

  /** The comment handler: only offered when `CanComment`; the trimmed text must
      be non-empty; staff comments go to `iamComments`, all others to
      `employeeComments`; status, assignee and history are untouched. */
  function AddComment(req: Request, actor: User, text: string, now: int): (r: Result<Commented, CommentError>)
    ensures !CanComment(actor, req) ==> r == Failure(CommentNotAllowed)
    ensures CanComment(actor, req) && AllWhitespace(text) ==> r == Failure(EmptyComment)
    ensures r.Success? <==> CanComment(actor, req) && !AllWhitespace(text)
    ensures r.Success? ==>
              var q := r.value.request;
              var c := Comment(actor.userId, actor.name, Trim(text), now);
              var staff := CanViewAllRequests(Some(actor));
              && SameSubmission(q, req)
              && q.status == req.status && q.statusHistory == req.statusHistory
              && q.iamAssigneeUserId == req.iamAssigneeUserId && q.iamAssigneeName == req.iamAssigneeName
              && q.updatedAt == now
              && q.iamComments == req.iamComments + (if staff then [c] else [])
              && q.employeeComments == req.employeeComments + (if staff then [] else [c])
              && r.value.audit == LogAudit(Some(actor), now, CommentAdd, RequestTarget, req.id, true,
                                           CommentDetail(if staff then "IAM" else "Employee"))
  {
    var isIam := CanViewAllRequests(Some(actor));
    if !CanComment(actor, req) then Failure(CommentNotAllowed)
    else
      var commentText := Trim(text);
      if commentText == "" then Failure(EmptyComment)
      else
        var q := AppendComment(req, Comment(actor.userId, actor.name, commentText, now), isIam);
        Success(Commented(q, LogAudit(Some(actor), now, CommentAdd, RequestTarget, req.id, true,
                                      CommentDetail(if isIam then "IAM" else "Employee"))))
  }

  /** Adds `c` to the staff or the employee comment list and stamps `updatedAt`. */
  function AppendComment(req: Request, c: Comment, staff: bool): (q: Request)
    ensures SameSubmission(q, req)
    ensures q.status == req.status && q.statusHistory == req.statusHistory
    ensures q.iamAssigneeUserId == req.iamAssigneeUserId && q.iamAssigneeName == req.iamAssigneeName
    ensures q.updatedAt == c.timestamp
    ensures q.iamComments == req.iamComments + (if staff then [c] else [])
    ensures q.employeeComments == req.employeeComments + (if staff then [] else [c])
  {
    if staff then req.(iamComments := req.iamComments + [c], updatedAt := c.timestamp)
    else req.(employeeComments := req.employeeComments + [c], updatedAt := c.timestamp)
  }
}
