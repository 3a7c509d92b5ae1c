/** Editing an existing user from the user-management view (app.js:1608-1640). */
module UserAdmin {
  import opened Results
  import opened Strings
  import opened Records
  import opened Permissions
  import opened AuditLog

  const UserTarget := "USER"

  /** The edit form's values; the email box is read but not applied on edit. */
  datatype UserForm = UserForm(
    name: string,
    email: string,
    defaultDepartment: string,
    isIam: bool,
    isAdmin: bool,
    isActive: bool)

  /** The audit action for an edit: deactivation, reactivation, or a plain update. */
  function ClassifyUserEdit(wasActive: bool, isActive: bool): (a: AuditAction)
    ensures a == UserDeactivate <==> wasActive && !isActive
    ensures a == UserReactivate <==> !wasActive && isActive
    ensures a == UserUpdate <==> wasActive == isActive
  {
    if wasActive && !isActive then UserDeactivate
    else if !wasActive && isActive then UserReactivate
    else UserUpdate
  }

  datatype Edited = Edited(user: User, audit: AuditEntry)

  /** The user-management view, and so its edit form, is shown only to admins. */
  /** Why an edit is not saved: the admin cannot reach the user form, or the
      browser's `checkValidity` stops it because the required name is empty. */
  datatype EditError = CannotManageUsers | NameMissing

  /** The name input is the edit form's one required control (the email is
      read-only); like the browser, it checks the raw value, not the trimmed one. */
  predicate EditFormIsValid(f: UserForm) {
    f.name != ""
  }

  /** The audit detail of an edit: name and roles for a plain update, the name
      alone for a deactivation or reactivation. */
  function EditDetail(action: AuditAction, f: UserForm): AuditDetail {
    if action == UserUpdate then UserUpdateDetail(Trim(f.name), f.isIam, f.isAdmin)
    else UserNameDetail(Trim(f.name))
  }

  /** The edited record and the audit entry written by `admin`. Id, email and
      creation time are kept; the trimmed name and department and the three flags
      are taken from the form. */
  function EditUser(admin: User, user: User, f: UserForm, now: int): (r: Result<Edited, EditError>)
    ensures !CanManageUsers(Some(admin)) ==> r == Failure(CannotManageUsers)
    ensures CanManageUsers(Some(admin)) && !EditFormIsValid(f) ==> r == Failure(NameMissing)
    ensures r.Success? <==> CanManageUsers(Some(admin)) && EditFormIsValid(f)
    ensures r.Success? ==>
              var u := r.value.user;
              && u.userId == user.userId && u.email == user.email && u.createdAt == user.createdAt
              && u.name == Trim(f.name) && u.defaultDepartment == Trim(f.defaultDepartment)
              && u.isIam == f.isIam && u.isAdmin == f.isAdmin && u.isActive == f.isActive
              && u.updatedAt == now
    ensures r.Success? ==>
              var a := r.value.audit;
              && a.targetType == UserTarget && a.targetId == user.userId && a.success && a.timestamp == now
              && (admin.userId != "" ==> a.actorUserId == Some(admin.userId))
              && (admin.name != "" ==> a.actorName == admin.name)
              && a.actionType == ClassifyUserEdit(user.isActive, f.isActive)
              && (a.actionType == UserUpdate ==> a.detail == UserUpdateDetail(Trim(f.name), f.isIam, f.isAdmin))
              && (a.actionType != UserUpdate ==> a.detail == UserNameDetail(Trim(f.name)))
    ensures r.Success? ==>
              var action := ClassifyUserEdit(user.isActive, f.isActive);
              r.value.audit == LogAudit(Some(admin), now, action, UserTarget, user.userId, true, EditDetail(action, f))
  {
    if !CanManageUsers(Some(admin)) then Failure(CannotManageUsers)
    else if !EditFormIsValid(f) then Failure(NameMissing)
    else
      var u := user.(name := Trim(f.name), defaultDepartment := Trim(f.defaultDepartment),
                     isIam := f.isIam, isAdmin := f.isAdmin, isActive := f.isActive, updatedAt := now);
      var action := ClassifyUserEdit(user.isActive, f.isActive);
      Success(Edited(u, LogAudit(Some(admin), now, action, UserTarget, user.userId, true, EditDetail(action, f))))
  }

  /** Saving the same form again only refreshes `updatedAt` and logs a plain update. */
  lemma ReEditIsPlainUpdate(admin: User, user: User, f: UserForm, now: int, later: int)
    requires CanManageUsers(Some(admin)) && EditFormIsValid(f)
    ensures var once := EditUser(admin, user, f, now).value.user;
      && EditUser(admin, once, f, later).value.user == EditUser(admin, user, f, later).value.user
      && EditUser(admin, once, f, later).value.audit.actionType == UserUpdate
  {
  }
}
