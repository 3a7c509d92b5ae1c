/** The portal's persisted records: users, access requests and audit entries,
    with the enumerations whose display strings form the stored vocabulary. */
module Records {
  import opened Results

  /** The five request statuses (app.js:40). */
  datatype Status = New | InReview | NeedInfo | Declined | Completed

  /** The stored and displayed spelling of a status. */
  function StatusName(s: Status): string {
    match s
    case New => "New"
    case InReview => "In Review"
    case NeedInfo => "Need Info"
    case Declined => "Declined"
    case Completed => "Completed"
  }

  function ParseStatus(name: string): (r: Option<Status>)
    ensures r.Some? ==> StatusName(r.value) == name
  {
    if name == "New" then Some(New)
    else if name == "In Review" then Some(InReview)
    else if name == "Need Info" then Some(NeedInfo)
    else if name == "Declined" then Some(Declined)
    else if name == "Completed" then Some(Completed)
    else None
  }

  /** Every status name reads back as the same status, so names are distinct. */
  lemma StatusNameRoundTrip(s: Status)
    ensures ParseStatus(StatusName(s)) == Some(s)
  {
  }

  /** Statuses after which a request no longer counts against the SLA. */
  predicate IsTerminal(s: Status) {
    s == Completed || s == Declined
  }

  /** A portal account (the password, salt and lock-out fields are not modelled). */
  datatype User = User(
    userId: string,
    name: string,
    email: string,
    defaultDepartment: string,
    isIam: bool,
    isAdmin: bool,
    isActive: bool,
    createdAt: int,
    updatedAt: int)

  /** One entry of a request's status history; `changedAt` is in milliseconds. */
  datatype HistoryEntry = HistoryEntry(
    status: Status,
    changedByUserId: string,
    changedByName: string,
    changedAt: int,
    note: string)

  datatype Comment = Comment(
    authorUserId: string,
    authorName: string,
    text: string,
    timestamp: int)

  /** An access request. The assignee pair is `None` while unassigned. */
  datatype Request = Request(
    id: string,
    createdAt: int,
    updatedAt: int,
    requesterUserId: string,
    requesterName: string,
    requesterEmail: string,
    department: string,
    applicationOrSystem: string,
    applicationOtherText: string,
    environment: string,
    requestType: string,
    requestedRoleOrPermission: string,
    justification: string,
    urgency: string,
    status: Status,
    iamAssigneeUserId: Option<string>,
    iamAssigneeName: Option<string>,
    iamComments: seq<Comment>,
    employeeComments: seq<Comment>,
    statusHistory: seq<HistoryEntry>)

  /** The audit action types (app.js:42-55). */
  datatype AuditAction =
    | LoginSuccess | LoginFailure | Logout
    | UserCreate | UserUpdate | UserDeactivate | UserReactivate | PasswordReset
    | RequestCreate | RequestStatusChange | RequestAssign | CommentAdd

  function ActionName(a: AuditAction): string {
    match a
    case LoginSuccess => "LOGIN_SUCCESS"
    case LoginFailure => "LOGIN_FAILURE"
    case Logout => "LOGOUT"
    case UserCreate => "USER_CREATE"
    case UserUpdate => "USER_UPDATE"
    case UserDeactivate => "USER_DEACTIVATE"
    case UserReactivate => "USER_REACTIVATE"
    case PasswordReset => "PASSWORD_RESET"
    case RequestCreate => "REQUEST_CREATE"
    case RequestStatusChange => "REQUEST_STATUS_CHANGE"
    case RequestAssign => "REQUEST_ASSIGN"
    case CommentAdd => "COMMENT_ADD"
  }

  /** Distinct actions are stored under distinct names. */
  lemma ActionNameInjective(a: AuditAction, b: AuditAction)
    ensures ActionName(a) == ActionName(b) ==> a == b
  {
  }

  /** The `detail` object of the audit entries written by the modelled operations. */
  datatype AuditDetail =
    | CreateDetail(system: string, requestType: string)
    | StatusChangeDetail(oldStatus: Status, newStatus: Status)
    | AssignDetail(oldAssignee: Option<string>, newAssignee: string)
    | CommentDetail(commentType: string)
    | UserNameDetail(name: string)
    | UserUpdateDetail(updatedName: string, isIam: bool, isAdmin: bool)

  datatype AuditEntry = AuditEntry(
    timestamp: int,
    actorUserId: Option<string>,
    actorName: string,
    actorEmail: Option<string>,
    actionType: AuditAction,
    targetType: string,
    targetId: string,
    success: bool,
    detail: AuditDetail)
}
