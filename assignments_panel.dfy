/** The assignments panel of the mail detail page (frontend/src/components/AssignmentsPanel.jsx):
    which view a user gets, who may revoke, the status counts of the supervisor table and the
    guards on the forms of the isolated view. */
module AssignmentsPanel {
  import opened Wrappers
  import opened Text
  import opened Org
  import opened Records
  import opened Client
  import Query

  /** What the panel renders: a spinner while loading, nothing, one assignee's own
      assignment, or the table of every assignment. */
  datatype PanelView = Spinner | Hidden | Isolated(assignment: AssignmentView) | Table(assignments: seq<AssignmentView>)

  /** AG, DAG and the mail's creator see every assignment. */
  predicate IsSupervisor(u: ClientUser, createdBy: Option<Id>) {
    u.role == AG || u.role == DAG || createdBy == Some(u.id)
  }

  predicate AssignedToUser(u: ClientUser, a: AssignmentView) { a.assignedTo == u.id }

  /** The panel for the signed-in user, the mail's creator and the assignments loaded. */
  function Panel(u: ClientUser, createdBy: Option<Id>, assignments: seq<AssignmentView>, loading: bool): (v: PanelView)
    ensures loading ==> v == Spinner
    ensures !loading && |assignments| == 0 ==> v == Hidden
    ensures !loading && |assignments| > 0 && IsSupervisor(u, createdBy) ==> v == Table(assignments)
    ensures v.Table? ==> IsSupervisor(u, createdBy) && v.assignments == assignments
    ensures v.Isolated? ==>
      (!IsSupervisor(u, createdBy)
       && exists i :: 0 <= i < |assignments| && assignments[i] == v.assignment && v.assignment.assignedTo == u.id
                      && forall j :: 0 <= j < i ==> assignments[j].assignedTo != u.id)
    ensures !loading && |assignments| > 0 && !IsSupervisor(u, createdBy) ==>
      (v.Isolated? <==> exists i :: 0 <= i < |assignments| && assignments[i].assignedTo == u.id)
  {
    if loading then Spinner
    else if |assignments| == 0 then Hidden
    else if IsSupervisor(u, createdBy) then Table(assignments)
    else
      match Query.First(assignments, a => AssignedToUser(u, a))
      case None => Hidden
      case Some(a) => Isolated(a)
  }

  /** Someone who is neither AG, DAG nor the creator sees at most their own assignment. */
  lemma AssigneeSeesOnlyOwn(u: ClientUser, createdBy: Option<Id>, assignments: seq<AssignmentView>, loading: bool)
    requires !IsSupervisor(u, createdBy)
    ensures var v := Panel(u, createdBy, assignments, loading);
      !v.Table? && (v.Isolated? ==> v.assignment in assignments && v.assignment.assignedTo == u.id)
  {
  }

  /** The Revoke button of a table row: an AG, or the DAG who made the assignment, on an
      Active assignment. */
  predicate CanRevoke(u: ClientUser, a: AssignmentView) {
    (u.role == AG || (u.role == DAG && u.id == a.assignedBy)) && a.status == Active
  }

  /** Revoke is offered on Active rows only, and to a DAG only for their own assignments;
      no other role is offered it. */
  lemma RevokeRule(u: ClientUser, a: AssignmentView)
    ensures CanRevoke(u, a) ==> a.status == Active
    ensures CanRevoke(u, a) && u.role != AG ==> u.role == DAG && a.assignedBy == u.id
    ensures u.role != AG && u.role != DAG ==> !CanRevoke(u, a)
    ensures a.status == Active && u.role == AG ==> CanRevoke(u, a)
  {
  }

  predicate IsActive(a: AssignmentView) { a.status == Active }
  predicate IsCompleted(a: AssignmentView) { a.status == Completed }
  predicate IsRevoked(a: AssignmentView) { a.status == Revoked }
  predicate AwaitsResponse(a: AssignmentView) { a.status == Active && !a.hasResponded }
  predicate ActiveOrCompleted(a: AssignmentView) { a.status == Active || a.status == Completed }

  function ActiveCount(s: seq<AssignmentView>): nat { |Query.Filter(s, IsActive)| }
  function CompletedCount(s: seq<AssignmentView>): nat { |Query.Filter(s, IsCompleted)| }
  function NotRespondedCount(s: seq<AssignmentView>): nat { |Query.Filter(s, AwaitsResponse)| }
  function RevokedCount(s: seq<AssignmentView>): nat { |Query.Filter(s, IsRevoked)| }

  /** The header counts: Active and Completed together are the assignments that are not
      Revoked, so at most all of them, and the ones awaiting a response are among the Active. */
  lemma StatusCounts(s: seq<AssignmentView>)
    ensures ActiveCount(s) + CompletedCount(s) + RevokedCount(s) == |s|
    ensures ActiveCount(s) + CompletedCount(s) <= |s|
    ensures NotRespondedCount(s) <= ActiveCount(s)
  {
    Query.CountDisjoint(s, IsActive, IsCompleted, ActiveOrCompleted);
    Query.FilterPartition(s, ActiveOrCompleted, IsRevoked);
    Query.CountMonotone(s, AwaitsResponse, IsActive);
  }

  // ----- the isolated view -----

  /** `assignment.remarks_timeline || []`. */
  function TimelineOf(a: AssignmentView): seq<RemarkView> {
    if a.timeline.Some? then a.timeline.value else []
  }

  /** The Add Remark, Mark Complete and Reassign buttons appear on an Active assignment only. */
  predicate ActionsShown(a: AssignmentView) { a.status == Active }

  /** The completion dialog warns that a remark is needed first. */
  predicate NeedsRemarkFirst(a: AssignmentView) { |TimelineOf(a)| == 0 && !TruthyText(a.userRemarks) }

  /** The Complete button of the completion dialog is enabled. */
  predicate CompleteEnabled(a: AssignmentView, loading: bool) { !loading && !NeedsRemarkFirst(a) }

  /** Completion is possible exactly when the assignment has a timeline entry or its own
      remarks and no request is in flight; the warning and the enabled button never show
      together. */
  lemma CompleteRule(a: AssignmentView, loading: bool)
    ensures CompleteEnabled(a, loading) <==> !loading && (|TimelineOf(a)| > 0 || TruthyText(a.userRemarks))
    ensures CompleteEnabled(a, loading) ==> !NeedsRemarkFirst(a)
  {
  }

  /** `handleAddRemark`: a remark that is blank after trimming is refused; otherwise the
      trimmed remark is sent. */
  function SubmitRemark(text: string): (r: Result<string, string>)
    ensures r.Failure? <==> JsBlank(text)
    ensures r.Failure? ==> r.error == "Please provide remarks"
    ensures r.Success? ==> r.value == JsTrim(text) && r.value != "" && JsTrim(r.value) == r.value
  {
    JsTrimIdempotent(text);
    if JsTrim(text) == "" then Failure("Please provide remarks") else Success(JsTrim(text))
  }

  datatype ReassignRequest = ReassignRequest(newAssignee: Id, remarks: string)

  /** `handleReassign`: without a chosen officer or with blank remarks nothing is sent;
      otherwise the officer's id and the trimmed reason. */
  function SubmitReassign(newAssignee: Option<ClientUser>, remarks: string): (r: Result<ReassignRequest, string>)
    ensures r.Failure? <==> newAssignee.None? || JsBlank(remarks)
    ensures r.Failure? ==> r.error == "Please select a user and provide remarks"
    ensures r.Success? ==> r.value.newAssignee == newAssignee.value.id && r.value.remarks == JsTrim(remarks) && r.value.remarks != ""
  {
    if newAssignee.None? || JsTrim(remarks) == "" then Failure("Please select a user and provide remarks")
    else Success(ReassignRequest(newAssignee.value.id, JsTrim(remarks)))
  }

  datatype RevokeRequest = RevokeRequest(assignment: Id, remarks: string)

  /** `handleRevoke`: a blank reason is refused; otherwise the selected assignment and the
      trimmed reason. */
  function SubmitRevoke(selected: AssignmentView, remarks: string): (r: Result<RevokeRequest, string>)
    ensures r.Failure? <==> JsBlank(remarks)
    ensures r.Failure? ==> r.error == "Please provide reason for revoking"
    ensures r.Success? ==> r.value.assignment == selected.id && r.value.remarks == JsTrim(remarks) && r.value.remarks != ""
  {
    if JsTrim(remarks) == "" then Failure("Please provide reason for revoking")
    else Success(RevokeRequest(selected.id, JsTrim(remarks)))
  }
}
