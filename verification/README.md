# IAM access-request portal: request lifecycle model

A Dafny model of the request-lifecycle logic of the TRIARQ IAM Access Request
Portal (`app.js`). Employees submit access requests. IAM staff and admins
triage them by changing the status and the assignee. Both sides exchange
comments under a permission rule. Every mutation writes an audit entry.

The browser event handlers are rewritten as pure functions over immutable
records (`Request`, `HistoryEntry`, `Comment`, `AuditEntry`, `User`). The
handlers' inputs become parameters: form values, the signed-in user, the
user list, the random id number and the clock, given as integer milliseconds.
Each transition returns the new record together with the audit entries the
handler writes.

Modules:

- `Results`: `Option` (JavaScript `null`) and `Result`.
- `Strings`: JavaScript `trim`, the `\s` white-space class, ASCII `toLowerCase`, `includes`, `String(n)`, `padStart`, with digit-string lemmas.
- `Sequences`: order-preserving `filter` and the subsequence relation.
- `Records`: the records, the five statuses and the audit action names.
- `RequestIds`: `REQ-NNNNNN` generation and its inverse.
- `StatusClass`: the CSS class derived from a status.
- `Sla`: days since creation and the over-SLA predicate.
- `Permissions`: the `can*` checks and the comment rule.
- `AuditLog`: construction of an audit entry.
- `Lifecycle`: submission, save changes and add comment, plus the request invariant `Valid`.
- `LifecycleProperties`: properties that span several operations, including replay of any sequence of user actions.
- `Filters`: the three list filters.
- `UserAdmin`: editing a user and classifying the audit entry.

Behaviours of the code that the model keeps as written, although a reader might expect otherwise:

- Days since creation are rounded **up** (`Math.ceil`, app.js:525), not truncated.
- Assignee changes and comments add **no** status-history entry. Only status changes do.
- A comment is a separate action from saving status and assignee.
- Concurrent saves from the same stale copy do **not** both survive in the history. The later write replaces the whole record (`StaleSavesLastWriteWins`).
- Required form fields are checked **before** trimming. A department, role or justification of white space alone is accepted and stored empty (`BlankRequiredFieldsStoredEmpty`).
- Request ids are drawn at random and never checked against the store. The store is keyed by id and `put` overwrites, so a submission whose drawn number is already in use silently replaces the stored request (`IdCollisionReplacesRequest`). `GenerateInjective` says only that different numbers give different ids.
- When the current assignee is no longer an active IAM user, no assignee option is marked selected (app.js:1210-1213), so the drop-down opens on "Unassigned". Any save, even one that only changes the status, then clears the assignee and logs REQUEST_ASSIGN (`StaleAssigneeDroppedOnSave`).

## Model

| member | source | states |
|---|---|---|
| Strings.Trim | app.js:905 | the result is a contiguous piece of the input that neither starts nor ends with white space, and it is empty exactly when the input is all white space |
| Strings.TrimRemovesOnlyEnds | app.js:905 | only leading and trailing white space is removed: the result sits in the input with nothing but white space before and after it |
| Strings.NatToDecimal | app.js:499 | `String(n)` yields digits whose decimal value is `n`, with no leading zero except in "0" itself |
| RequestIds.GenerateRequestId | app.js:497-500 | for a number in 1..999999 the id is `REQ-` followed by six digits, and parsing it gives the number back |
| RequestIds.ParseThenGenerate | app.js:497-500 | every well-formed id with a non-zero number is exactly the id generated for that number, so generation is a bijection onto those ids |
| RequestIds.GenerateInjective | app.js:497-500 | different numbers give different ids |
| StatusClass.GetStatusClass | app.js:533-535 | the class contains no white space, is no longer than the status, and is the lower-cased status when the status has no white space |
| StatusClass.ReplaceWhitespaceRuns | app.js:534 | replacing `\s+` runs leaves no white space and leaves white-space-free text unchanged |
| StatusClass.ReplaceCopiesWord | app.js:534 | a white-space-free prefix is copied unchanged ahead of the replaced rest |
| StatusClass.ReplaceCollapsesRun | app.js:534 | a maximal white-space run at the front becomes exactly one separator, followed by the replaced rest |
| StatusClass.ReplaceWhitespaceRun | app.js:534 | word, maximal white-space run, rest becomes word, one separator, replaced rest: each run collapses to one separator and all other characters keep their order |
| StatusClass.StatusClassJoinsRun | app.js:533-535 | the class of "word, white-space run, rest" is the lower-cased word, '-', then the class of the rest |
| StatusClass.StatusClassValues | app.js:533-535 | the five statuses map to `new`, `in-review`, `need-info`, `declined`, `completed` |
| StatusClass.StatusClassInjective | app.js:533-535 | distinct statuses get distinct classes |
| Records.StatusNameRoundTrip | app.js:40 | each status name parses back to its status |
| Records.ActionNameInjective | app.js:42-55 | distinct audit actions have distinct stored names |
| Sla.DaysSinceCreation | app.js:522-526 | the day count is the least number of whole days covering the absolute elapsed time |
| Sla.IsOverSla | app.js:528-531 | never over SLA when Completed or Declined; otherwise over SLA exactly when more than 7 × 86 400 000 ms separate creation from now |
| Permissions.AdminHoldsAllCapabilities | app.js:559-573 | an admin holds every capability; with nobody signed in there is none |
| Permissions.CommentWindow | app.js:1201-1203 | staff may always comment; a non-staff user may comment exactly on their own request while it is Need Info |
| AuditLog.LogAudit | app.js:273-284 | the entry carries the action, target, success flag and detail; the actor id is present exactly when a user with a non-empty id is signed in; the actor name is the user's name, or "System" when nobody is signed in or the name is empty; the actor email is present exactly when a signed-in user has a non-empty email, and is that email |
| Lifecycle.SubmitNewRequest | app.js:897-946 | an invalid form or a blank "Other" system is refused, and nothing else is; an accepted request is New, with createdAt = updatedAt = now, no assignee, no comments, and one history entry "Request submitted" by the requester; its other-system text is the trimmed "Other" text when the system is Other and empty otherwise; its id parses to the drawn number; one REQUEST_CREATE audit is written; the result satisfies `Valid` |
| Lifecycle.IamUsers | app.js:1210 | the assignable users are a subsequence of the stored users, all of them active IAM users, and every active IAM user is among them |
| Lifecycle.IamUsersCounts | app.js:1210 | each active IAM user is offered as many times as it is stored, and no other user is offered |
| Lifecycle.InitialAssigneeSelection | app.js:1210-1213 | the drop-down opens on the current assignee's id exactly when an active IAM user has that non-empty id, and on "Unassigned" otherwise |
| Lifecycle.FindIamUser | app.js:1387 | looking an id up among the assignable users (filtered at app.js:1210) succeeds exactly when some active IAM user has that id |
| Lifecycle.FindUser | app.js:1387 | a found user is in the list and has the wanted id; when none is found, no user in the list has it |
| Lifecycle.FindUserIsFirst | app.js:1387 | when `users[k]` is the first user with the wanted id, the user found is exactly `users[k]` |
| Lifecycle.SaveChanges | app.js:1384-1432 | non-staff are refused; it is a no-op exactly when status and assignee id are unchanged; otherwise updatedAt becomes now once; a changed status appends one entry (new status, actor, now, note naming old and new status); a changed assignee sets the id and the matching IAM user's name or null and adds no history entry; audits are status first, then assignee; submission fields and comments are untouched |
| Lifecycle.AddComment | app.js:1438-1462 | refused unless the comment rule allows it; refused when the text is all white space; otherwise the trimmed comment is appended to the staff list for staff and to the employee list for everyone else, updatedAt becomes now, status, assignee and history are unchanged, and one COMMENT_ADD audit is written |
| Lifecycle.AppendComment | app.js:1452-1458 | the comment goes to exactly one list; no other field except updatedAt changes |
| LifecycleProperties.SavePreservesValid | app.js:1392-1427 | a save keeps the request invariant, given the clock does not go backwards |
| LifecycleProperties.CommentPreservesValid | app.js:1446-1458 | adding a comment keeps the request invariant, given the clock does not go backwards |
| LifecycleProperties.SaveIsIdempotent | app.js:1390-1408 | saving the same selections again right after a save finds nothing to save |
| LifecycleProperties.TerminalSaveClearsSla | app.js:1392-1406 | after a save to Completed or Declined the request is never over SLA |
| LifecycleProperties.StaleSavesLastWriteWins | app.js:1418-1421 | two saves from the same stale copy each write one audit; the later write leaves the old status and drops the earlier status entry from the history |
| LifecycleProperties.IdCollisionReplacesRequest | app.js:235 | the store is keyed by id (app.js:181) and ids are drawn at random (app.js:497-500), so a submission whose drawn number gives the id of a stored request overwrites it: the store keeps the same ids, holds the new request under that id, and no longer holds the earlier request |
| LifecycleProperties.StaleAssigneeDroppedOnSave | app.js:1211-1213 | with an assignee who is no longer an active IAM user, a save from the detail view's initial selection is saved, clears the assignee id and name, and logs REQUEST_ASSIGN last (the save handler at app.js:1385-1415) |
| LifecycleProperties.SlaScenario | app.js:522-531 | a request left New is over SLA eight days after submission; declining it then clears the flag |
| LifecycleProperties.BlankRequiredFieldsStoredEmpty | app.js:921-927 | white-space-only department, role and justification pass the form check and are stored empty |
| LifecycleProperties.StepPreserves | app.js:1384-1458 | one user action keeps the invariant and the submission fields, and extends the history and comment lists without rewriting them |
| LifecycleProperties.ReplayPreserves | app.js:1384-1458 | over any time-ordered run of saves and comments the invariant holds, the submission fields never change, and the history and comment lists are append-only |
| LifecycleProperties.SubmittedThenReplayed | app.js:907-941 | every request built by submission and then acted on satisfies the invariant and still opens with its submission entry |
| Filters.FilterMyRequests | app.js:994-1002 | the result is a subsequence of the input; every kept request matches the status and search filters; every matching request is kept as many times as it occurs; with both filters empty the input is returned unchanged |
| Filters.FilterStaffRequests | app.js:1130-1139 | the result is a subsequence; every kept request matches the status, urgency and search filters; every matching request is kept as many times as it occurs; with all filters empty the input is returned unchanged |
| Filters.FilterAudit | app.js:1766-1772 | the result is a subsequence; every kept entry matches the action, actor and success filters; every matching entry is kept as many times as it occurs, identical entries included; with all filters empty the input is returned unchanged |
| Filters.FiltersAreIdempotent | app.js:994-1002 | filtering a filtered list again changes nothing |
| Filters.AnonymousEntriesHiddenByActorFilter | app.js:1769 | with an actor filter set, entries logged with nobody signed in are dropped |
| UserAdmin.ClassifyUserEdit | app.js:1634-1640 | USER_DEACTIVATE exactly when an active user is deactivated, USER_REACTIVATE exactly when an inactive user is reactivated, USER_UPDATE exactly when the active flag is unchanged |
| UserAdmin.EditUser | app.js:1608-1640 | refused with `CannotManageUsers` when the signed-in user may not manage users (the view is shown only to them, app.js:1475); otherwise refused with `NameMissing` when the name box is empty, since it is `required` (app.js:1563) and `checkValidity` stops the save (app.js:1610-1612); saved exactly when neither holds; then id, email and creation time are kept, the trimmed name and department and the three flags come from the form, and the audit is written by the admin, targets the user and uses the classified action with the matching detail, and equals what `logAudit` builds from these values |
| UserAdmin.ReEditIsPlainUpdate | app.js:1620-1640 | re-saving the same form only refreshes updatedAt and logs USER_UPDATE |

## Left out

- IndexedDB access, the `db*` wrappers and storage failure (app.js:147-270). The model has no failed writes. The in-memory record is mutated before `dbPut` and is not rolled back on failure; the model makes no atomicity claim. The store is modelled only as a map, to state last-write-wins.
- Password salts and hashing (app.js:80-144) and the login lock-out. These are Web Crypto foreign calls and session logic.
- Sessions, login/logout, BroadcastChannel sync and the change broadcast (app.js:363-486, 595-685). These are browser I/O.
- HTML rendering, modals, toasts and navigation. They are UI. The handlers' reachability is kept: the save handler exists only for staff (app.js:1363, 1369), modelled as `NotPermitted`. The comment handler exists only when the comment rule allows it (app.js:1336), modelled as `CommentNotAllowed`. The user edit form exists only in the user-management view, which is shown only when `canManageUsers()` holds (app.js:1475), modelled as `CannotManageUsers`.
- The newest-first sort of the My Requests list (app.js:958-960). It is presentation order.
- Import, export and sample data (app.js:1816-2023). These are file I/O and wall-clock dates.
- User creation (app.js:1642-1645). It depends on password hashing. On edit the form's only required control is the name, because the email box is read-only (app.js:1567); that check is modelled as `NameMissing`.
- `Math.random` in id generation. The drawn number is a parameter in 1..999999.
- ISO date strings and locale formatting. Times are integer milliseconds.
- Sla.DaysSinceCreation: computes with exact integers. The source divides in double precision; the two agree for any elapsed time under about 10^5 days.
- Lifecycle.SaveChanges: gives every audit entry of a save the save's `now`. The source reads the clock again inside each `logAudit` call (app.js:275).
- Lifecycle.AddComment: uses one `now` for the comment timestamp, `updatedAt` and the COMMENT_ADD audit. The source reads the clock twice (app.js:1449, 1458) and again inside `logAudit`, after `dbPut` (app.js:1461-1462).
- Lifecycle.SubmitNewRequest: gives the REQUEST_CREATE audit the submission's `now`. The source reads the clock at app.js:912 and again inside `logAudit`, after `dbPut` (app.js:944, 946).
- UserAdmin.EditUser: gives `updatedAt` and the audit entry the same `now`. The source reads the clock at app.js:1630 and again inside `logAudit`, after `dbPut` (app.js:1632-1639).
- LifecycleProperties.Step: treats each handler as one atomic step. The save handler awaits `logAudit` (app.js:1401) after pushing the history entry and before setting `request.status` (app.js:1405). A second click in that window still sees the old status, so it pushes a second entry with the same status and note, stamped by its own clock read (app.js:1389), and writes a second audit. The model does not cover such interleavings, and "one history entry per status change" holds only for handlers that run to completion one at a time.
- Strings.ToLower: lower-cases ASCII letters only. JavaScript `toLowerCase` also maps non-ASCII letters, which affects search and status classes only for non-ASCII text.
- supabaseClient.js is not part of this model. It wraps the hosted backend's SDK and has no logic of its own.
