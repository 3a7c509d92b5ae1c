/** The list filters of the My Requests view (app.js:995-1002), the staff
    request list (app.js:1131-1139) and the audit log (app.js:1767-1772).
    An empty filter value means "any". */
module Filters {
  import opened Results
  import opened Strings
  import opened Sequences
  import opened Records

  /** Filter values held by the view. `search` is stored already lower-cased
      by the search box's input handler. */
  datatype ListFilters = ListFilters(status: string, urgency: string, search: string)

  datatype AuditFilters = AuditFilters(action: string, actorUserId: string, success: string)

  /** JavaScript `String(b)` for a boolean. */
  function BoolString(b: bool): string {
    if b then "true" else "false"
  }

  predicate StatusMatches(r: Request, status: string) {
    status == "" || StatusName(r.status) == status
  }

  predicate UrgencyMatches(r: Request, urgency: string) {
    urgency == "" || r.urgency == urgency
  }

  /** The requester's view searches id, system, request type and status. */
  function MySearchText(r: Request): string {
    ToLower(r.id + " " + r.applicationOrSystem + " " + r.requestType + " " + StatusName(r.status))
  }

  /** The staff view searches id, requester name and email, system and department. */
  function StaffSearchText(r: Request): string {
    ToLower(r.id + " " + r.requesterName + " " + r.requesterEmail + " " + r.applicationOrSystem + " " + r.department)
  }

  predicate MyRequestMatches(r: Request, f: ListFilters) {
    StatusMatches(r, f.status) && (f.search == "" || Contains(MySearchText(r), f.search))
  }

  predicate StaffRequestMatches(r: Request, f: ListFilters) {
    && StatusMatches(r, f.status) && UrgencyMatches(r, f.urgency)
    && (f.search == "" || Contains(StaffSearchText(r), f.search))
  }

  predicate AuditMatches(e: AuditEntry, f: AuditFilters) {
    && (f.action == "" || ActionName(e.actionType) == f.action)
    && (f.actorUserId == "" || e.actorUserId == Some(f.actorUserId))
    && (f.success == "" || BoolString(e.success) == f.success)
  }

  /** The requester's list ignores the urgency filter. */
  function FilterMyRequests(rs: seq<Request>, f: ListFilters): (out: seq<Request>)
    ensures IsSubsequence(out, rs)
    ensures forall i :: 0 <= i < |out| ==> StatusMatches(out[i], f.status)
    ensures forall i :: 0 <= i < |out| ==> f.search == "" || Contains(MySearchText(out[i]), f.search)
    ensures forall i :: 0 <= i < |rs| && MyRequestMatches(rs[i], f) ==> rs[i] in out
    ensures forall q :: multiset(out)[q] == if MyRequestMatches(q, f) then multiset(rs)[q] else 0
    ensures f.status == "" && f.search == "" ==> out == rs
  {
    Keep(rs, (r: Request) => MyRequestMatches(r, f))
  }

  function FilterStaffRequests(rs: seq<Request>, f: ListFilters): (out: seq<Request>)
    ensures IsSubsequence(out, rs)
    ensures forall i :: 0 <= i < |out| ==> StatusMatches(out[i], f.status) && UrgencyMatches(out[i], f.urgency)
    ensures forall i :: 0 <= i < |out| ==> f.search == "" || Contains(StaffSearchText(out[i]), f.search)
    ensures forall i :: 0 <= i < |rs| && StaffRequestMatches(rs[i], f) ==> rs[i] in out
    ensures forall q :: multiset(out)[q] == if StaffRequestMatches(q, f) then multiset(rs)[q] else 0
    ensures f.status == "" && f.urgency == "" && f.search == "" ==> out == rs
  {
    Keep(rs, (r: Request) => StaffRequestMatches(r, f))
  }

  function FilterAudit(logs: seq<AuditEntry>, f: AuditFilters): (out: seq<AuditEntry>)
    ensures IsSubsequence(out, logs)
    ensures forall i :: 0 <= i < |out| ==> f.action == "" || ActionName(out[i].actionType) == f.action
    ensures forall i :: 0 <= i < |out| ==> f.actorUserId == "" || out[i].actorUserId == Some(f.actorUserId)
    ensures forall i :: 0 <= i < |out| ==> f.success == "" || BoolString(out[i].success) == f.success
    ensures forall i :: 0 <= i < |logs| && AuditMatches(logs[i], f) ==> logs[i] in out
    ensures forall e :: multiset(out)[e] == if AuditMatches(e, f) then multiset(logs)[e] else 0
    ensures f.action == "" && f.actorUserId == "" && f.success == "" ==> out == logs
  {
    Keep(logs, (e: AuditEntry) => AuditMatches(e, f))
  }

  /** Entries logged with nobody signed in never pass a non-empty actor filter. */
  lemma AnonymousEntriesHiddenByActorFilter(logs: seq<AuditEntry>, f: AuditFilters)
    requires f.actorUserId != ""
    ensures forall i :: 0 <= i < |FilterAudit(logs, f)| ==> FilterAudit(logs, f)[i].actorUserId.Some?
  {
  }

  /** Applying a filter to its own output changes nothing. */
  lemma FiltersAreIdempotent(rs: seq<Request>, logs: seq<AuditEntry>, f: ListFilters, g: AuditFilters)
    ensures FilterMyRequests(FilterMyRequests(rs, f), f) == FilterMyRequests(rs, f)
    ensures FilterStaffRequests(FilterStaffRequests(rs, f), f) == FilterStaffRequests(rs, f)
    ensures FilterAudit(FilterAudit(logs, g), g) == FilterAudit(logs, g)
  {
  }
}
