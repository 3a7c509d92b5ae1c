/** Capability checks on the signed-in user (app.js:559-573) and the comment rule (app.js:1201-1203).
    `None` stands for "nobody signed in". */
module Permissions {
  import opened Results
  import opened Records

  predicate IsStaff(u: Option<User>) {
    u.Some? && (u.value.isIam || u.value.isAdmin)
  }

  predicate CanViewAllRequests(u: Option<User>) {
    IsStaff(u)
  }

  predicate CanChangeRequestStatus(u: Option<User>) {
    IsStaff(u)
  }

  predicate CanManageUsers(u: Option<User>) {
    u.Some? && u.value.isAdmin
  }

  predicate CanViewAuditLogs(u: Option<User>) {
    u.Some? && u.value.isAdmin
  }

  /** Whether the request detail view offers a comment box to `actor`. */
  predicate CanComment(actor: User, req: Request) {
    CanViewAllRequests(Some(actor)) || (req.requesterUserId == actor.userId && req.status == NeedInfo)
  }

  /** Admins hold every capability; without a signed-in user there is none. */
  lemma AdminHoldsAllCapabilities(u: Option<User>)
    ensures CanManageUsers(u) ==> CanViewAuditLogs(u) && CanViewAllRequests(u) && CanChangeRequestStatus(u)
    ensures u.None? ==> !CanViewAllRequests(u) && !CanChangeRequestStatus(u) && !CanManageUsers(u) && !CanViewAuditLogs(u)
  {
  }

  /** IAM staff and admins may comment whatever the status; a requester without
      those flags may comment on their own request exactly while it is Need Info,
      and never on anyone else's. */
  lemma CommentWindow(actor: User, req: Request)
    ensures actor.isIam || actor.isAdmin ==> CanComment(actor, req)
    ensures !actor.isIam && !actor.isAdmin ==>
              (CanComment(actor, req) <==> req.requesterUserId == actor.userId && req.status == NeedInfo)
  {
  }
}
