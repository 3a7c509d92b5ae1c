/** Construction of audit entries (app.js:273-283). */
module AuditLog {
  import opened Results
  import opened Records

  /** The entry `logAudit` writes: the signed-in user is the actor; with nobody
      signed in, or an empty id or name, the id is null and the name "System". */
  function LogAudit(actor: Option<User>, now: int, action: AuditAction, targetType: string,
                    targetId: string, success: bool, detail: AuditDetail): (e: AuditEntry)
    ensures e.timestamp == now && e.actionType == action && e.success == success
    ensures e.targetType == targetType && e.targetId == targetId && e.detail == detail
    ensures e.actorUserId.Some? <==> actor.Some? && actor.value.userId != ""
    ensures e.actorUserId.Some? ==> e.actorUserId.value == actor.value.userId
    ensures actor.None? ==> e.actorName == "System" && e.actorEmail.None?
    ensures actor.Some? && actor.value.name != "" ==> e.actorName == actor.value.name
    ensures actor.Some? && actor.value.name == "" ==> e.actorName == "System"
    ensures e.actorEmail.Some? <==> actor.Some? && actor.value.email != ""
    ensures e.actorEmail.Some? ==> e.actorEmail.value == actor.value.email
  {
    AuditEntry(
      now,
      if actor.Some? && actor.value.userId != "" then Some(actor.value.userId) else None,
      if actor.Some? && actor.value.name != "" then actor.value.name else "System",
      if actor.Some? && actor.value.email != "" then Some(actor.value.email) else None,
      action, targetType, targetId, success, detail)
  }
}
