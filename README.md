# Mail tracker: authorization and workflow model

This project models the core of a mail-tracking system used by an accounts office. It is
written in Dafny and its properties are proved.

- **Mail records.** A mail is entered with a serial number of the form `YEAR/NNN` and assigned
  to an officer. It then moves through the statuses Received, Assigned, In Progress and Closed.
- **The workflow.** The current handler updates the remarks. A mail can be reassigned to
  another officer. It can be closed, and it can be reopened by the AG (labelled "Additional General" in the role choices).
- **The audit trail.** Every workflow step appends rows to an append-only audit trail.
- **Who may do what.** This depends on the user's role:
  - AG;
  - DAG ("Deputy Additional General"), who manages one or more sections;
  - SrAO and AAO, the staff officers;
  - auditor;
  - clerk.

  It also depends on the user's relation to the mail: handler, assignee, creator, holder of a
  parallel assignment, or appearing in the audit trail.

The model follows the program's structure. There is one module per source file and three
helper modules:

| module | models |
|---|---|
| `Org` | users, roles, `get_dag` (backend/users/models.py) |
| `PrimaryAg` | the primary-AG data migration and the unique constraint it must respect |
| `Permissions` | `MailRecordPermission`: the action allow-list, the per-role visibility rule with its per-request cache of touched mail ids, and the object-level gate (backend/config/permissions.py) |
| `Records` | the mail record and parallel assignment, `save` and the serial-number generator, `time_in_current_stage`, `is_overdue`, the older `can_*` tests, `update_consolidated_remarks`, the one-Active-assignment constraint |
| `Audit` | audit rows, their action tags and order; `AuditTrail` is a class whose table only grows |
| `Serializers` | the request validation of the mail endpoints |
| `Views` | the viewset: `get_queryset`, the `get_object` lookup, and `create`, `update`, `reassign`, `close` and `reopen` as steps from a state (mail table, audit table) to a response and a new state; `MailDesk` is a class over the mail table and the `AuditTrail` whose methods are proved equal to those steps and to keep the table's invariant |
| `Client`, `DetailPage`, `AssignmentsPanel`, `MultiAssignDialog`, `MailListPage`, `CreateMailPage` | the browser side: what the pages offer to whom, and the data they derive |
| `Wrappers`, `Text`, `Query` | `Option`/`Result`; Python and JavaScript string semantics; first-match, filter and stable sort |

Conventions:

- **Time.** "now" (seconds) and "today" (days) are parameters.
- **Tables.** A table is a sequence in the database's default order. `.first()` is the first
  matching element.
- **Errors.** Every refusal is an error value (`Failure(...)`). No precondition stands in for
  one.

## Model

| member | source | states |
|---|---|---|
| Org.RoleTestsExclusive | backend/users/models.py:33-40 | `is_ag`, `is_dag` and `is_staff_officer` never hold together; none holds exactly for an auditor or a clerk |
| Org.GetDag | backend/users/models.py:42-62 | an AG gets themself; a DAG gets the first active AG, None exactly when there is none; another role without a section gets None; with a section, the first active DAG of that section in the table's default order, None exactly when there is none |
| Org.UserById | backend/users/models.py:53 | the first user with the key, None exactly when no user has it |
| Permissions.HasPermissionRule | backend/config/permissions.py:48-76 | an anonymous request is refused every action; a signed-in one is refused exactly `destroy` and actions outside the allow-list |
| Permissions.TouchedLookup | backend/config/permissions.py:103-111 | with a sound cache, the answer is whether the user appears on the mail in the audit trail; an empty cache is filled with the user's touched ids, and a filled one is kept |
| Permissions.CanViewCached | backend/config/permissions.py:78-166 | `_can_view_mail` with the cache equals the reference visibility rule `CanView` and leaves the cache sound |
| Permissions.StaffViewCached | backend/config/permissions.py:113-134 | the SrAO/AAO branch with the cache equals its reference rule and leaves the cache sound |
| Permissions.CacheDoesNotChangeDecision | backend/config/permissions.py:104-110 | the decision is the same with an empty or a filled cache, and a second mail checked with the cache the first check filled gets the uncached decision |
| Permissions.ClerkViewOnlyIf | backend/config/permissions.py:136-147 | a clerk sees a mail only as handler, assignee, creator or holder of an Active assignment on it |
| Permissions.AuditorVisibility | backend/config/permissions.py:149-164 | an auditor with no subsections sees nothing; a mail in one of their subsections is seen; a mail without subsection is seen when its section holds one of their subsections |
| Permissions.DagVisibility | backend/config/permissions.py:80-111 | a DAG sees a mail exactly when it is in one of their sections, they hold an Active assignment on it, an officer of their sections holds an Active or Completed one, or they appear on it in the audit trail |
| Permissions.ObjectPermissionCached | backend/config/permissions.py:172-242 | `has_object_permission` with the cache equals the reference gate `ObjectPermission` and leaves the cache sound |
| Permissions.AgPassesObjectChecks | backend/config/permissions.py:176-178 | an AG passes every object-level check, whatever the action |
| Permissions.NonAgObjectRules | backend/config/permissions.py:180-242 | for anyone else: the following rules hold. <br>• `reopen` is refused. <br>• `multi_assign` needs a DAG of the mail's section. <br>• Update, partial update, update-current-action and close need the current handler. <br>• `reassign` needs the section's DAG or the handler. <br>• The view actions follow the visibility rule. <br>• `list`, `create`, `destroy` and unknown actions are refused. |
| Permissions.UnrelatedUserDenied | backend/config/permissions.py:78-242 | a user who is not AG, DAG or auditor, is neither handler, assignee nor creator, holds no Active assignment on the mail, is not in its subsection and is not on its audit trail is refused every action on it |
| Records.FormatSlNo | backend/records/models.py:113 | the serial number starts with `YEAR/` |
| Records.SlNoNumberRoundTrip | backend/records/models.py:108-113 | reading the number back out of `f"{year}/{n:03d}"` gives n |
| Records.LexMax | backend/records/models.py:103-105 | `order_by('-sl_no').first()`: None exactly for no rows; otherwise a row no other row sorts after |
| Records.NextSlNoSpec | backend/records/models.py:100-113 | the generator as written gives `YEAR/001` to the year's first mail, otherwise one more than the number in the lexicographically last serial number of the year |
| Records.MaxSlNumberSpec | backend/records/models.py:103-111 | the greatest number that parses, missing exactly when none parses |
| Records.NumberAfter | backend/records/models.py:107-111 | at least 1 and above the greatest number in use |
| Records.NextSlNoNumeric | backend/records/models.py:100-113 | the corrected generator yields a serial number of the year |
| Records.NextSlNoNumericIsFresh | backend/records/models.py:100-113 | the corrected generator never yields a serial number already in use |
| Records.ThreeDigitOrder | backend/records/models.py:103-105 | three-digit renderings sort as their numbers |
| Records.SlNoOrderIsNumericBelow1000 | backend/records/models.py:103-105 | below 1000 the string order of a year's serial numbers is their numeric order |
| Records.LexMaxIsNumericMax | backend/records/models.py:103-111 | among generated serial numbers below 1000 the lexicographically last one carries the greatest number |
| Records.NextSlNoAgreesBelow1000 | backend/records/models.py:100-113 | while the year's serial numbers are all generated ones below 1000, the generator as written and the corrected one agree |
| Records.NextSlNoNumericAfter | backend/records/models.py:107-113 | the corrected generator formats one more than the year's greatest number |
| Records.NextSlNoRepeatsAfter1000 | backend/records/models.py:103-113 | with `Y/999` and `Y/1000` stored, the generator as written proposes `Y/1000` again |
| Records.ThousandSortsFirst | backend/records/models.py:103-105 | `Y/1000` sorts before `Y/999` |
| Records.Save | backend/records/models.py:99-123 | a set serial number, handler or monitoring officer is kept. <br>• A missing serial number gets the corrected generator's fresh one. <br>• A missing handler becomes the assignee. <br>• A missing monitoring officer becomes the assignee's DAG. <br>• No other field changes. |
| Records.SaveIdempotent | backend/records/models.py:99-123 | saving a saved record again changes nothing |
| Records.SplitDelta | backend/records/models.py:141-144 | hours below 24, minutes below 60, and days, hours and minutes together are the whole minutes of the interval |
| Records.SplitDeltaUnique | backend/records/models.py:141-144 | the split is the only one within those bounds |
| Records.TimeInCurrentStage | backend/records/models.py:125-151 | days and hours when a day has passed, else hours and minutes when an hour has, else minutes; measured from creation to the end of the completion day for a closed mail, else from the last status change to now |
| Records.LegacyAgPasses | backend/records/models.py:159-225 | an AG passes `can_view`, `can_edit`, `can_reassign` and `can_close`; `can_reopen` exactly on a Closed mail; `can_multi_assign` exactly on an open one |
| Records.LegacyCloseAndEdit | backend/records/models.py:185-215 | `can_close` is AG or current handler; `can_edit` is AG or the section's DAG; a staff officer never edits |
| Records.LegacyStaffViewOnlyIf | backend/records/models.py:175-183 | a user neither AG nor DAG sees a mail only as handler, assignee, or through the audit trail |
| Records.LegacyReopenAndMultiAssign | backend/records/models.py:217-225 | `can_reopen` exactly for AG on a Closed mail; no multi-assign on a Closed mail; multi-assign implies edit |
| Records.StatusLabel | backend/records/models.py:240 | `[DONE]` exactly for a Completed assignment |
| Records.Contributing | backend/records/models.py:229-239 | only Active or Completed assignments with non-empty remarks, in creation order; every such assignment is kept, each as often as it occurs; empty exactly when none qualifies |
| Records.Parts | backend/records/models.py:238-243 | one labelled part per contributing assignment, in order |
| Records.ConsolidatedRemarks | backend/records/models.py:227-246 | None exactly when no assignment contributes; otherwise the parts joined by `\n---\n` |
| Records.ConsolidatedRemarksIgnoreOthers | backend/records/models.py:229-231 | dropping the assignments that do not contribute (Revoked, or with empty remarks) does not change the result |
| Records.BuildConsolidatedRemarks | backend/records/models.py:227-246 | the loop computes `ConsolidatedRemarks` |
| Records.CollectParts | backend/records/models.py:238-243 | the loop appends exactly the labelled parts |
| Records.WithConsolidatedRemarks | backend/records/models.py:227-246 | only the consolidated remarks change; they become the consolidated remarks of the mail's own assignments, None exactly when none of them contributes |
| Records.AtMostOneActive | backend/records/models.py:290-297 | under the unique constraint at most one Active assignment exists per (mail, assignee) |
| Records.InsertAssignment | backend/records/models.py:290-297 | an insert is refused exactly when it would add a second Active assignment for the pair; otherwise the row is appended and the constraint still holds |
| Audit.Tag | backend/audit/models.py:7-14 | every action has a non-empty stored tag |
| Audit.ParseTag | backend/audit/models.py:7-14 | a tag read back renders as itself |
| Audit.TagRoundTrip | backend/audit/models.py:7-14 | every action's tag reads back as that action |
| Audit.TagInjective | backend/audit/models.py:7-14 | the six tags are distinct |
| Audit.TouchedIds | backend/config/permissions.py:107-109 | exactly the mails the user appears on as performer |
| Audit.TouchedIdsAppend | backend/config/permissions.py:107-109 | a new row adds its mail to its performer's touched ids and changes no one else's |
| Audit.History | backend/audit/models.py:33 | one mail's rows, in ascending timestamp order, none lost or added |
| Audit.HistoryOfChronological | backend/audit/models.py:33 | when rows were written in time order the history is the mail's rows as written |
| Audit.AuditTrail.constructor | backend/audit/models.py:26-33 | an empty audit table |
| Audit.AuditTrail.Record | backend/audit/models.py:50-57 | exactly one row with the given fields is appended |
| Audit.AuditTrail.LogAction | backend/audit/models.py:45-57 | `log_action` appends exactly one row with the given mail, action, performer, remarks and values |
| Audit.AuditTrail.LogActionWithDefaults | backend/audit/models.py:46 | left out, remarks default to `''` and the values to NULL |
| PrimaryAg.LeastIdActiveAg | backend/users/migrations/0006_set_primary_ag.py:9 | None exactly when there is no active AG; otherwise an active AG whose id is least |
| PrimaryAg.Promote | backend/users/migrations/0006_set_primary_ag.py:10-12 | only the chosen row changes, and only its flag |
| PrimaryAg.SetPrimaryAgRows | backend/users/migrations/0006_set_primary_ag.py:4-12 | nothing changes when an active primary AG exists or there is no active AG; otherwise exactly the least-id active AG is promoted |
| PrimaryAg.SetPrimaryAgGuardedRows | backend/users/migrations/0006_set_primary_ag.py:4-12 | the corrected guard: nothing changes when any AG holds the flag or there is no active AG; otherwise the least-id active AG is promoted |
| PrimaryAg.UnsetPrimaryAgRows | backend/users/migrations/0006_set_primary_ag.py:15-17 | no AG keeps the flag; nothing else changes |
| PrimaryAg.PromoteGivesActivePrimary | backend/users/migrations/0006_set_primary_ag.py:10-12 | promoting an active AG gives an active primary AG |
| PrimaryAg.SetPrimaryAgEstablishesPrimary | backend/users/migrations/0006_set_primary_ag.py:4-12 | afterwards there is an active primary AG whenever there is an active AG |
| PrimaryAg.SetPrimaryAgIdempotent | backend/users/migrations/0006_set_primary_ag.py:6-12 | a second run is a no-op |
| PrimaryAg.PromoteKeepsUnique | backend/users/migrations/0005_user_is_primary_ag.py:19-25 | promoting one AG when no other AG holds the flag keeps the unique constraint |
| PrimaryAg.SetPrimaryAgKeepsUniqueWithoutStaleFlag | backend/users/migrations/0006_set_primary_ag.py:4-12 | the migration as written keeps the constraint when no inactive AG holds the flag |
| PrimaryAg.SetPrimaryAgStaleFlagBreaksUnique | backend/users/migrations/0006_set_primary_ag.py:6-12 | an inactive primary AG beside an active AG: the table the migration writes has two primary AGs |
| PrimaryAg.SetPrimaryAgGuardedKeepsUnique | backend/users/migrations/0005_user_is_primary_ag.py:19-25 | the corrected migration always keeps the constraint |
| PrimaryAg.SetPrimaryAgGuardedIdempotent | backend/users/migrations/0006_set_primary_ag.py:6-12 | a second corrected run is a no-op |
| PrimaryAg.UnsetThenSetLeavesOnePrimary | backend/users/migrations/0006_set_primary_ag.py:4-17 | unapplying and reapplying leaves exactly one active primary AG when any AG is active, and the constraint holds |
| PrimaryAg.UserTable.constructor | backend/users/migrations/0005_user_is_primary_ag.py:19-25 | a table that satisfies the unique constraint |
| PrimaryAg.UserTable.SaveRow | backend/users/migrations/0006_set_primary_ag.py:12 | the write succeeds exactly when the new table keeps the constraint; a refused write changes nothing |
| PrimaryAg.UserTable.SetPrimaryAg | backend/users/migrations/0006_set_primary_ag.py:4-12 | the migration as written succeeds exactly when the table it writes keeps the constraint, and then stores that table |
| PrimaryAg.UserTable.SetPrimaryAgGuarded | backend/users/migrations/0006_set_primary_ag.py:4-12 | the corrected migration always succeeds and stores the corrected table |
| PrimaryAg.UserTable.UnsetPrimaryAg | backend/users/migrations/0006_set_primary_ag.py:15-17 | the bulk update stores the unset table and keeps the constraint |
| Serializers.RequiredText | backend/records/serializers.py:93 | absent, null and blank-after-strip are each refused with their error; a boolean, array or object is refused as invalid; a stripped text holding U+0000 is refused with "Null characters are not allowed."; otherwise the stripped text, which is non-empty |
| Serializers.RequiredInt | backend/records/serializers.py:92 | an integer or an integer text, whose digits single underscores may group, is accepted as its value; absent and null are refused; a boolean, array or object is refused as invalid; over-long text is refused |
| Serializers.ValidateReassign | backend/records/serializers.py:90-93 | accepted exactly when both fields are; then a non-empty stripped reason; otherwise each failing field, and only those, is reported |
| Serializers.ValidateClose | backend/records/serializers.py:96-98 | accepted exactly when `remarks` is non-blank; the error is reported under `remarks` |
| Serializers.ValidateUpdate | backend/records/serializers.py:82-87 | `remarks` is optional and nullable; a text is stripped; a boolean, array or object is refused as invalid |
| Serializers.ValidateCreate | backend/records/serializers.py:65-79 | a due date before today is refused first; then `Other` without its text; otherwise the data comes back unchanged |
| Serializers.ValidateCreateStable | backend/records/serializers.py:65-79 | accepted data is accepted again on any earlier day |
| Views.StatusTag | backend/records/models.py:8-13 | every status has a non-empty stored text |
| Views.ResaveFills | backend/records/models.py:115-121 | saving a row that has a serial number and a handler only fills the monitoring officer in |
| Views.ReplaceKeepsWellFormed | backend/records/models.py:25 | replacing a row by one with the same id, serial number and assignee and a handler keeps ids in place and serial numbers unique |
| Views.StatusTagInjective | backend/records/models.py:8-13 | the four stored status texts are distinct |
| Views.ListMails | backend/records/views.py:36-86 | a non-integer section filter fails. <br>• Otherwise every listed row is a row of the table that the role's queryset holds and that passes the status, section and overdue filters. <br>• Every such row is listed, as often as it occurs in the table. <br>• Rows come newest first. |
| Views.NewestFirst | backend/records/views.py:86 | the same rows (as a multiset), newest first |
| Views.OverdueFilterIsOverdue | backend/records/views.py:80-84 | the `overdue=true` filter keeps exactly the rows `is_overdue` reports |
| Views.AgListsEverything | backend/records/views.py:44-45 | an AG without filters lists every row |
| Views.ListedOnlyIfRelated | backend/records/views.py:47-69 | apart from a DAG's section, a row is listed only for its handler, its assignee or a user on its audit trail |
| Views.GetObject | backend/records/views.py:36-69 | found rows carry the id, are in the user's queryset and pass the object gate; 404 exactly when no row with the id is in the queryset; otherwise 403 |
| Views.GetObjectPosition | backend/records/views.py:149 | in a well-formed table the lookup finds the row at position `pk - 1` |
| Views.Updated | backend/records/views.py:158-167 | an Assigned row moves to In Progress, any other status is kept, and the remarks change only when the form gives them |
| Views.CreateFieldErrors | backend/records/views.py:90-91 | an error is reported exactly when a required field is missing or names no section or user |
| Views.CreateChecks | backend/records/views.py:90-106 | a pass happens exactly when the fields are present, `validate` passes and the user is AG or the DAG of the chosen section, and yields the stored assignee. <br>• Otherwise, in order: missing fields give field errors, a failed `validate` its error, any other role a 403 "You do not have permission to create mail records.", and a DAG choosing another section a 403 "You can only create mails for your section." |
| Views.CreateRefusesOtherRoles | backend/records/views.py:95-100 | a valid create by a user neither AG nor DAG answers 403 "You do not have permission to create mail records." and writes nothing |
| Views.CreateRefusesForeignSection | backend/records/views.py:102-107 | a valid create by a DAG for another section answers 403 "You can only create mails for your section." and writes nothing |
| Views.CreateStep | backend/records/views.py:88-141 | a refused create changes nothing |
| Views.CreateStepSpec | backend/records/views.py:88-141 | a create succeeds exactly when the fields are present, `validate` passes and the user is AG or the DAG of the chosen section; missing fields are reported as field errors. <br>• Success adds one row with the next id, a fresh serial number of the year, status Assigned, the assignee as handler and the assignee's DAG as monitoring officer. <br>• Then a CREATE and an ASSIGN row by the creator follow. |
| Views.CreateKeepsWellFormed | backend/records/views.py:109-119 | a create keeps every row saved and the serial numbers unique |
| Views.UpdateChecks | backend/records/views.py:146-160 | a failed lookup is the answer; then a user who is not the current handler gets 403 "Only the current handler can update this mail."; then a failed form gives its field errors; the handler's valid form passes |
| Views.UpdateStepSpec | backend/records/views.py:146-177 | a successful update was made by the current handler. <br>• It moves an Assigned row to In Progress, stamping the change, and keeps any other status. <br>• The remarks change only when given. <br>• Apart from the monitoring officer `save` fills in, no other field changes. <br>• Exactly one UPDATE row by the handler, with the old and new remarks, follows. |
| Views.UpdateStep | backend/records/views.py:146-177 | a refused update changes nothing |
| Views.UpdateRefused | backend/records/views.py:146-160 | a failed check is the response and the tables are untouched |
| Views.UpdateGranted | backend/records/views.py:146-177 | once the checks pass, the update is the apply step on the row found |
| Views.UpdateApplyRow | backend/records/views.py:162-177 | the apply step writes the updated row in place and appends its UPDATE row |
| Views.UpdateKeepsWellFormed | backend/records/views.py:146-177 | an update keeps the table well formed |
| Views.ActiveUserById | backend/records/views.py:193 | the first active user with the key, None when there is none |
| Views.ReassignRoleChecks | backend/records/views.py:201-220 | no refusal exactly when a DAG keeps to their section for both the mail and the target and a staff officer is the handler; otherwise 403 "You can only reassign mails within your section.", then "You can only reassign to users in your section.", then "You can only reassign mails assigned to you.", in that order |
| Views.ReassignRowChecks | backend/records/views.py:187-220 | a pass keeps the row's position, the validated form, an active target and no role refusal; otherwise, in order, a failed form gives field errors, a target that is no active user 400 "Invalid user selected.", and a role refusal its 403; when every check passes, the grant carries the form and the target |
| Views.ReassignChecks | backend/records/views.py:185-220 | a pass means the lookup found the row and the form, the active target and the role checks passed; a failed lookup is the answer, otherwise the row checks decide |
| Views.ReassignRefusesUnknownTarget | backend/records/views.py:193-199 | once the lookup and the form pass, a target that is no active user answers 400 "Invalid user selected." and writes nothing |
| Views.ReassignStepSpec | backend/records/views.py:182-239 | a successful reassign hands the row to an active user In Progress, whatever its status was, keeping its completion date. <br>• A DAG may do so only within their section and to a user of it. <br>• A staff officer may do so only as the handler. <br>• Exactly one REASSIGN row with both handler names and the reason follows. |
| Views.ReassignStep | backend/records/views.py:182-239 | a refused reassign changes nothing |
| Views.ReassignRefused | backend/records/views.py:182-220 | a failed check is the response and the tables are untouched |
| Views.ReassignGranted | backend/records/views.py:182-239 | once the checks pass, the reassign is the apply step on the row found |
| Views.ReassignApplyRow | backend/records/views.py:222-239 | the apply step writes the handed-over row in place and appends its REASSIGN row |
| Views.ReassignKeepsWellFormed | backend/records/views.py:222-229 | a reassign keeps the table well formed |
| Views.ReassignerStillListsMail | backend/records/views.py:60-69 | whoever reassigns a row away still finds it in their list, through the REASSIGN row |
| Views.CloseChecks | backend/records/views.py:247-258 | a failed lookup is the answer; then a failed form gives its field errors; then a Closed row gives 400 "This mail is already closed."; an open row with a valid form passes with its position and the stripped reason |
| Views.ClosePermittedSucceeds | backend/records/views.py:244-276 | a close the object gate lets through, of an open row with a non-blank reason, succeeds: the row is Closed today with the reason as its remarks, and exactly its CLOSE row is appended |
| Views.AgClosesOpenRow | backend/records/views.py:244-276 | an AG closes any open row of a well-formed table when the reason is not blank: it is Closed today with the reason as its remarks, and exactly its CLOSE row is appended |
| Views.CloseStepSpec | backend/records/views.py:244-276 | a successful close was of an open row with a non-blank reason: it is Closed today with the stripped reason as remarks, nothing else but the monitoring officer changes, and exactly one CLOSE row with the old status follows |
| Views.CloseStep | backend/records/views.py:244-276 | a refused close changes nothing |
| Views.CloseRefused | backend/records/views.py:244-258 | a failed check is the response and the tables are untouched |
| Views.CloseGranted | backend/records/views.py:244-276 | once the checks pass, the close is the apply step on the row found |
| Views.CloseApplyRow | backend/records/views.py:260-276 | the apply step writes the closed row in place and appends its CLOSE row |
| Views.CloseKeepsWellFormed | backend/records/views.py:260-266 | a close keeps the table well formed |
| Views.CloseRejectsClosed | backend/records/views.py:254-258 | closing a Closed row answers 400 and writes nothing |
| Views.ReopenChecks | backend/records/views.py:284-305 | a failed lookup is the answer; then any role but AG gets 403 "Only AG can reopen closed mails."; then a row that is not Closed gets 400 "This mail is not closed."; then remarks that are falsy in Python (absent, null, 0, "", false, [] or {}) get 400 "Remarks are required for reopening." |
| Views.TruthyRemarksStoredNonEmpty | backend/records/views.py:299-320 | remarks that pass `if not remarks` are stored as a non-empty `str(remarks)`: the text itself, or an array's or object's bracketed repr |
| Views.ReopenErrorOrder | backend/records/views.py:293-305 | for an AG whose lookup succeeds, a row that is not Closed answers "This mail is not closed." whatever the remarks, and a Closed row without truthy remarks answers "Remarks are required for reopening."; neither writes anything |
| Views.ReopenStepSpec | backend/records/views.py:281-322 | a successful reopen was by an AG, of a Closed row, with truthy remarks: the row is In Progress without a completion date, its remarks untouched; exactly one REOPEN row carrying the raw remarks follows |
| Views.ReopenStep | backend/records/views.py:281-322 | a refused reopen changes nothing |
| Views.ReopenRefused | backend/records/views.py:281-305 | a failed check is the response and the tables are untouched |
| Views.ReopenGranted | backend/records/views.py:281-322 | once the checks pass, the reopen is the apply step on the row found |
| Views.ReopenApplyRow | backend/records/views.py:307-322 | the apply step writes the reopened row in place and appends its REOPEN row |
| Views.ReopenRowOfClosed | backend/records/views.py:314-321 | the reopened row of a Closed row is In Progress without a completion date, remarks and handler kept |
| Views.ReopenApplyKeeps | backend/records/views.py:307-322 | reopening a saved row succeeds, keeps its remarks and handler and appends one REOPEN row |
| Views.ReopenChecksAfterLookup | backend/records/views.py:286-305 | after a successful lookup, an AG with truthy remarks on a Closed row passes every reopen check |
| Views.ReopenKeepsWellFormed | backend/records/views.py:307-312 | a reopen keeps the table well formed |
| Views.ReopenOnlyByAg | backend/records/views.py:284-291 | every other role's reopen fails and changes nothing; the answer is the lookup's 404 exactly when no row with the id is in the user's queryset, else its 403, since the object gate refuses reopen to every role but AG before the view's own check |
| Views.AgFindsEveryRow | backend/records/views.py:43-45 | an AG's lookup finds every row of a well-formed table |
| Views.CloseThenReopen | backend/records/views.py:244-322 | an AG's close then reopen leaves the row In Progress without a completion date, with the close reason as remarks, and adds a CLOSE then a REOPEN row |
| Views.CloseOutcome | backend/records/views.py:260-276 | a successful close leaves the row Closed for the next request |
| Views.ReopenAfterClose | backend/records/views.py:281-322 | an AG reopens any Closed row of a well-formed table when the remarks are truthy |
| Views.MailDesk.constructor | backend/records/views.py:20-21 | an empty mail table beside the given audit trail, well formed |
| Views.MailDesk.Create | backend/records/views.py:88-144 | the response and the new tables are those of `CreateStep`; the table stays well formed |
| Views.MailDesk.ApplyCreate | backend/records/views.py:113-141 | one new row, then its CREATE and ASSIGN rows |
| Views.MailDesk.Update | backend/records/views.py:146-180 | the response and the new tables are those of `UpdateStep`; the table stays well formed |
| Views.MailDesk.ApplyUpdate | backend/records/views.py:162-177 | the row updated and saved in place, then its UPDATE row |
| Views.MailDesk.Reassign | backend/records/views.py:182-242 | the response and the new tables are those of `ReassignStep`; the table stays well formed |
| Views.MailDesk.ApplyReassign | backend/records/views.py:222-239 | the row handed over and saved in place, then its REASSIGN row |
| Views.MailDesk.Close | backend/records/views.py:244-279 | the response and the new tables are those of `CloseStep`; the table stays well formed |
| Views.MailDesk.ApplyClose | backend/records/views.py:260-276 | the row closed and saved in place, then its CLOSE row |
| Views.MailDesk.Reopen | backend/records/views.py:281-325 | the response and the new tables are those of `ReopenStep`; the table stays well formed |
| Views.MailDesk.ApplyReopen | backend/records/views.py:307-322 | the row reopened and saved in place, then its REOPEN row |
| Client.OrId | frontend/src/pages/MailDetailPage.jsx:197 | `a \|\| b` on ids: a when it is present and not 0, else b |
| Client.OrText | frontend/src/pages/MailDetailPage.jsx:305 | `a \|\| b` on texts: a when it is present and not empty, else b |
| Client.OrTime | frontend/src/pages/MailDetailPage.jsx:327 | `a \|\| b` on times: a when it is present, else b |
| Client.UserOf | frontend/src/pages/MailDetailPage.jsx:198 | the browser's copy of a user keeps the id, role and sections |
| Client.MailOf | frontend/src/pages/MailDetailPage.jsx:197-206 | the nested `*_details` ids equal the plain fields |
| DetailPage.CloseButtonRule | frontend/src/pages/MailDetailPage.jsx:211-218 | never on a Closed mail; on a multi-assigned mail exactly for AG; otherwise exactly for AG and the current handler |
| DetailPage.MultiAssignButtonRule | frontend/src/pages/MailDetailPage.jsx:222-235 | never on a Closed mail. <br>• On an open mail, it is shown for AG. <br>• It is shown for a DAG of the mail's section. <br>• It is shown for a DAG who is the current person on an Active assignment. <br>• No role other than AG and DAG is ever shown it. |
| DetailPage.ReopenButtonRule | frontend/src/pages/MailDetailPage.jsx:220 | exactly for AG on a Closed mail |
| DetailPage.ReassignButtonMatchesGate | frontend/src/pages/MailDetailPage.jsx:201-209 | for a mail whose section id is not 0, the button shows exactly when the server's gate lets the reassign through |
| DetailPage.CloseButtonWithinGate | frontend/src/pages/MailDetailPage.jsx:211-218 | the button shows only on an open mail the gate lets the user close; on a mail that is not multi-assigned the two agree exactly |
| DetailPage.ReopenButtonWithinGate | frontend/src/pages/MailDetailPage.jsx:220 | the button shows only when the gate allows the reopen and the mail is Closed |
| DetailPage.EditRemarksMatchesHandler | frontend/src/pages/MailDetailPage.jsx:196-199 | the editor shows exactly to the current handler, whom the gate lets update the current action |
| DetailPage.MultiAssignGateShowsButton | frontend/src/pages/MailDetailPage.jsx:222-235 | every open mail the gate lets a user multi-assign shows the button |
| DetailPage.MultiAssignButtonBeyondGate | frontend/src/pages/MailDetailPage.jsx:227-233 | a DAG outside the mail's section who holds its Active assignment is shown the button, which the gate refuses |
| DetailPage.AssignmentsPartition | frontend/src/pages/MailDetailPage.jsx:270-276 | top-level and child lists split the assignments by `assigned_by == created_by`, each in order, sizes adding up |
| DetailPage.SpacesFromSpec | frontend/src/pages/MailDetailPage.jsx:283 | the run of `\s` found is all spaces and maximal |
| DetailPage.ColonFromSpec | frontend/src/pages/MailDetailPage.jsx:283 | the lazy `(.+?):` stops at the first colon the rest can follow; none is found only when every such colon comes after a line break |
| DetailPage.SoundAtColon | frontend/src/pages/MailDetailPage.jsx:283 | a match at the first usable colon is a split of the pattern |
| DetailPage.SoundGivingBack | frontend/src/pages/MailDetailPage.jsx:283 | a match where `\s+` gives back its last space is a split of the pattern |
| DetailPage.RestMatchIsSound | frontend/src/pages/MailDetailPage.jsx:283 | a match found after the prefix is a split of the pattern with the groups where the split puts them |
| DetailPage.RestMatchIsComplete | frontend/src/pages/MailDetailPage.jsx:283 | whenever a split after the prefix fits the pattern, a match is found |
| DetailPage.MatchIsSound | frontend/src/pages/MailDetailPage.jsx:283-288 | a match found is a match of `/^Reassigned to\s+(.+?):\s*(.*)$/i` |
| DetailPage.MatchIsComplete | frontend/src/pages/MailDetailPage.jsx:283-288 | whenever the pattern matches, a match is found |
| DetailPage.MatchExactly | frontend/src/pages/MailDetailPage.jsx:283-288 | the model finds a match exactly when the pattern matches |
| DetailPage.NextOfficer | frontend/src/pages/MailDetailPage.jsx:300 | the next officer's name is never empty |
| DetailPage.TargetOf | frontend/src/pages/MailDetailPage.jsx:288-300 | a reassignment remark names one officer, any other remark none |
| DetailPage.ReassignTargets | frontend/src/pages/MailDetailPage.jsx:286-311 | the officers named are never empty |
| DetailPage.TargetsOfPrefix | frontend/src/pages/MailDetailPage.jsx:286-311 | one more remark adds its target |
| DetailPage.TargetsCount | frontend/src/pages/MailDetailPage.jsx:286-311 | one target per reassignment remark |
| DetailPage.FirstOfficer | frontend/src/pages/MailDetailPage.jsx:284 | the starting officer's name is never empty |
| DetailPage.RemarkOr | frontend/src/pages/MailDetailPage.jsx:305 | a non-empty fallback gives non-empty remarks |
| DetailPage.ReassignRow | frontend/src/pages/MailDetailPage.jsx:302-309 | the row names the current officer and the next, has no officer id and the remark's date; its remarks are the officer's latest remark, else the trimmed reason, else '-' |
| DetailPage.AbsorbRemark | frontend/src/pages/MailDetailPage.jsx:286-311 | a reassignment remark adds exactly one row from the current officer to the named one, with the remark map as it stood, and moves the current officer on; any other remark leaves rows and officer alone and becomes the latest remark of its author, or of the current officer when it has none |
| DetailPage.ChainExtend | frontend/src/pages/MailDetailPage.jsx:302-310 | a handover row from the current officer extends the chain of rows |
| DetailPage.ChainClose | frontend/src/pages/MailDetailPage.jsx:317-328 | the final row closes the chain from the original assignee to the last officer named |
| DetailPage.WalkTimeline | frontend/src/pages/MailDetailPage.jsx:284-311 | the loop computes the handover rows, the per-officer remark map and the officer holding the assignment after the timeline; the rows form a chain from the original assignee along the timeline's targets |
| DetailPage.HandoverChain | frontend/src/pages/MailDetailPage.jsx:284-311 | the handover rows of any timeline hand the assignment from the original assignee along the officers the reassignment remarks name, each row with remarks and no officer id |
| DetailPage.HandoverRowAt | frontend/src/pages/MailDetailPage.jsx:300-310 | the handover row of the reassignment remark at a position: the officer holding the assignment then, their latest remark then (else the trimmed reason, else '-'), the officer named, and the remark's date |
| DetailPage.FinalRow | frontend/src/pages/MailDetailPage.jsx:313-328 | the current officer with remarks. <br>• The officer id is `reassigned_to`, else `assigned_to`, else null. <br>• An untouched Active assignment shows 'Still Working' with no date. <br>• Otherwise the remarks are the officer's latest remark, else '-', and the date is completion, else update, else creation. |
| DetailPage.BuildBranchRows | frontend/src/pages/MailDetailPage.jsx:277-330 | one row per reassignment remark plus a final row. <br>• The first officer is the original assignee. <br>• Each row's `reassignedTo` is the next row's officer. <br>• Every row has remarks; the rows before the last are exactly the handover rows of the sorted timeline, and the last row's remarks, unless the assignment is untouched, are its officer's latest remark or '-'. <br>• An untouched Active assignment gives the single row 'Still Working'. |
| AssignmentsPanel.Panel | frontend/src/components/AssignmentsPanel.jsx:609-649 | a spinner while loading, nothing without assignments. <br>• AG, DAG and the creator get the table of all assignments. <br>• Anyone else gets their first own assignment, or nothing when they have none. |
| AssignmentsPanel.AssigneeSeesOnlyOwn | frontend/src/components/AssignmentsPanel.jsx:622-640 | a non-supervisor never gets the table, and at most their own assignment |
| AssignmentsPanel.RevokeRule | frontend/src/components/AssignmentsPanel.jsx:516 | revoke only on Active rows, to an AG or to the DAG who made the assignment |
| AssignmentsPanel.StatusCounts | frontend/src/components/AssignmentsPanel.jsx:364-366 | Active plus Completed plus Revoked is all; Active plus Completed at most all; not-responded at most Active |
| AssignmentsPanel.CompleteRule | frontend/src/components/AssignmentsPanel.jsx:252-268 | Complete is enabled exactly when nothing is loading and there is a timeline entry or own remarks; the warning and the enabled button never show together |
| AssignmentsPanel.SubmitRemark | frontend/src/components/AssignmentsPanel.jsx:79-87 | a blank remark is refused with its message; otherwise the trimmed remark is sent |
| AssignmentsPanel.SubmitReassign | frontend/src/components/AssignmentsPanel.jsx:112-123 | refused exactly without an officer or with blank remarks; otherwise the officer's id and the trimmed reason |
| AssignmentsPanel.SubmitRevoke | frontend/src/components/AssignmentsPanel.jsx:333-341 | a blank reason is refused; otherwise the selected assignment and the trimmed reason |
| MultiAssignDialog.Candidates | frontend/src/components/MultiAssignDialog.jsx:51-71 | never the current user, order kept. <br>• For a DAG: exactly the eligible users, meaning those in a subsection of the DAG's sections and DAGs sharing a section. <br>• For anyone else: every other user. |
| MultiAssignDialog.SelectionOf | frontend/src/components/MultiAssignDialog.jsx:80-83 | a text is split on commas and each piece read as a number; a list is kept |
| MultiAssignDialog.IdTexts | frontend/src/components/MultiAssignDialog.jsx:82 | each id's decimal text |
| MultiAssignDialog.SplitOfJoin | frontend/src/components/MultiAssignDialog.jsx:82 | joining pieces without commas and splitting again gives the pieces back |
| MultiAssignDialog.SelectionRoundTrip | frontend/src/components/MultiAssignDialog.jsx:82 | a comma-separated list of ids reads back as those ids |
| MultiAssignDialog.EmptyTextSelectsZero | frontend/src/components/MultiAssignDialog.jsx:82-86 | an empty text is one selection, the id 0, which passes the empty-selection check |
| MultiAssignDialog.Submit | frontend/src/components/MultiAssignDialog.jsx:85-102 | an empty selection is refused first, then blank instructions; otherwise the selection and the trimmed instructions |
| MailListPage.InitialState | frontend/src/pages/MailListPage.jsx:44-58 | status `all`, no other filter, page 1 of 25 |
| MailListPage.FilterChange | frontend/src/pages/MailListPage.jsx:119-134 | back to page 1; a new section clears the subsection; every other field changes only itself |
| MailListPage.SearchSettled | frontend/src/pages/MailListPage.jsx:67-76 | a changed search text is applied and the page reset; otherwise nothing changes |
| MailListPage.SearchSettledIdempotent | frontend/src/pages/MailListPage.jsx:67-76 | firing the timer again changes nothing |
| MailListPage.PageSizeChange | frontend/src/pages/MailListPage.jsx:324 | the new size, back to page 1, filters kept |
| MailListPage.SectionOptions | frontend/src/pages/MailListPage.jsx:161-172 | none when signed out or for other roles; every section for AG; exactly the DAG's own sections, in order, for a DAG |
| MailListPage.Choices | frontend/src/pages/MailListPage.jsx:183-188 | no sections give no choices |
| MailListPage.ChoicesSound | frontend/src/pages/MailListPage.jsx:183-188 | every choice is a subsection of one of the sections, under that section's name |
| MailListPage.ChoicesComplete | frontend/src/pages/MailListPage.jsx:183-188 | every subsection of every section is a choice |
| MailListPage.ChoiceBase | frontend/src/pages/MailListPage.jsx:177-181 | the section options, narrowed to the chosen section for an AG who chose one |
| MailListPage.SubsectionOptions | frontend/src/pages/MailListPage.jsx:174-189 | none for other roles; for a DAG and for an AG without a chosen section, those of every section option |
| MailListPage.SubsectionOptionsSound | frontend/src/pages/MailListPage.jsx:174-189 | each subsection offered belongs to a section option, and to the chosen section when an AG chose one |
| MailListPage.SubsectionOptionsComplete | frontend/src/pages/MailListPage.jsx:174-189 | every subsection of a section option is offered unless an AG chose another section |
| MailListPage.NumberOfId | frontend/src/pages/MailListPage.jsx:197 | `Number(null)` is 0, an id its value |
| MailListPage.VisibleMails | frontend/src/pages/MailListPage.jsx:192-206 | exactly the loaded rows matching the section and subsection filters; all rows without filters |
| MailListPage.VisibleMailsInOrder | frontend/src/pages/MailListPage.jsx:192-206 | the rows shown keep the loaded order |
| MailListPage.TotalPages | frontend/src/pages/MailListPage.jsx:232 | the ceiling of total over page size: 0 exactly for no rows, enough pages and not one too many |
| MailListPage.ShowingFrom | frontend/src/pages/MailListPage.jsx:233 | 0 exactly when there are no rows, else at least 1 |
| MailListPage.ShowingTo | frontend/src/pages/MailListPage.jsx:234 | the smaller of the total and the page's end: at most each of them, and equal to one of them |
| MailListPage.ShowingRange | frontend/src/pages/MailListPage.jsx:232-234 | on an existing page the range shown is non-empty, within the total and at most a page long |
| MailListPage.ReadPage | frontend/src/pages/MailListPage.jsx:102-104 | `results` and `count` of a page object; an array has neither |
| MailListPage.ServiceAsWritten | frontend/src/services/mailService.js:17-19 | a paginated reply is unwrapped to its bare array |
| MailListPage.LoadedPageAlwaysEmpty | frontend/src/pages/MailListPage.jsx:102-104 | through the service as written the page reads no rows from any reply, and a total of 0 |
| MailListPage.LoadedPageDropsMail | frontend/src/pages/MailListPage.jsx:102-104 | a paginated reply with one mail shows none |
| MailListPage.LoadedPageKeepsRows | frontend/src/pages/MailListPage.jsx:102-104 | with the corrected service the page reads the server's rows and total |
| MailListPage.RequestAsWritten | frontend/src/services/mailService.js:9-14 | status and section are sent exactly when non-empty, `all` included, and sent as given; no `overdue` filter |
| MailListPage.NoStatusIsAll | backend/records/models.py:7-12 | no stored status reads `all` |
| MailListPage.InitialRequestListsNothing | backend/records/views.py:70-73 | the page's first request, with status `all`, lists no row for any user and any table |
| MailListPage.Request | frontend/src/services/mailService.js:12-13 | as the request written, except that `all` sends no status filter |
| MailListPage.InitialRequestListsVisibleRows | backend/records/views.py:70-73 | with `all` read as no filter, the first request is the unfiltered list; an AG sees every row |
| CreateMailPage.ChooseFile | frontend/src/pages/CreateMailPage.jsx:84-105 | no file clears quietly. <br>• A non-PDF is refused with its message and the input emptied. <br>• A PDF over 10 MB is refused with its message and the input emptied. <br>• Otherwise the file is kept. |
| CreateMailPage.PdfSizeBoundary | frontend/src/pages/CreateMailPage.jsx:97-98 | exactly 10 MB is kept, one byte more is refused |
| CreateMailPage.PdfErrorShownIffRefused | frontend/src/pages/CreateMailPage.jsx:84-105 | a message appears exactly when a file is refused, and exactly then the input is emptied |
| CreateMailPage.AssignableUsers | frontend/src/pages/CreateMailPage.jsx:321-323 | every user for AG; for anyone else exactly the users of their section, in order |
| CreateMailPage.AssigneeError | frontend/src/pages/CreateMailPage.jsx:315-316 | an empty choice is refused with the `required` message |
| CreateMailPage.PayloadOf | frontend/src/pages/CreateMailPage.jsx:113-125 | the chosen ids in order; no section for an empty or 0 choice; the due date as picked; `''` for missing instructions; the other fields copied |
| Text.NatToStringRoundTrip | backend/records/models.py:108 | `int(str(n)) == n` |
| Text.ZeroPadThreeDigits | backend/records/models.py:113 | below 1000, `{n:03d}` is exactly three digits |
| Text.FormatInt03 | backend/records/models.py:113 | never empty |
| Text.JsTrimIdempotent | frontend/src/components/AssignmentsPanel.jsx:80-87 | trimming the trimmed text changes nothing |
| Text.PyInt | backend/records/models.py:108 | a value exactly for surrounding whitespace, an optional sign and ASCII digits that single underscores may group; a digit string reads as its value, and a grouped one as the value of its digits |
| Text.JsNumber | frontend/src/pages/MailListPage.jsx:196 | blank reads as 0, a digit string as its value |
| Text.Split | frontend/src/components/MultiAssignDialog.jsx:82 | at least one piece, none containing the separator |
| Text.SplitJoin | frontend/src/components/MultiAssignDialog.jsx:82 | joining the pieces gives the text back; one piece more than separators |
| Text.StrLessTotal | backend/records/models.py:105 | the string order is total |
| Text.StrLessTransitive | backend/records/models.py:105 | the string order is transitive |
| Text.StrLessCommonPrefix | backend/records/models.py:104-105 | a shared `YEAR/` prefix does not change the order |
| Query.FirstIndex | backend/users/models.py:53 | `.first()`: None exactly when nothing matches, otherwise the earliest match |
| Query.Filter | backend/records/views.py:56-69 | exactly the matching elements, in order: a subsequence whose length is the number of matches |
| Query.FilterMultiset | backend/records/views.py:56-69 | each matching element is kept as often as it occurs, every other element is dropped |
| Query.FilterPartition | frontend/src/pages/MailDetailPage.jsx:271-276 | complementary filters split a sequence |
| Query.SortBy | backend/records/views.py:86 | sorted by key, a permutation |
| Query.SortByStable | backend/audit/models.py:33 | the elements sharing a key come out in their input order |
| Query.SortBySorted | backend/audit/models.py:33 | sorting a sorted sequence changes nothing |

## Left out

- **Revision drift.** The source files come from different revisions.
  - `backend/records/views.py:95` limits create to AG and DAG. The permission class lets every
    role through `has_permission` for create.
  - Both are modelled as written: `has_permission` in `Permissions`, the view's check in
    `Views.CreateChecks`.
  - `CreateMailPage.jsx:119-121` sends `assigned_to` as a list of user ids, while the serializer
    (`serializers.py:61`) and the view (`views.py:109`) take one user. The page's payload is
    modelled as the page builds it and the view's input as one user.
  - `users/models.py` knows four roles and one section. The permission class uses six roles,
    section sets, subsections and auditor subsections. The one `User` type carries all of these,
    and each module reads the fields its file reads.
- **Endpoints whose bodies are not part of this model.** These are `multi_assign`, the
  assignment-level actions, the assignments listing, and the PDF upload and view. Only their
  permission gate is modelled. `close` does not touch assignments.
- **`has_permission` itself.** It gates requests before the viewset runs. `HasPermissionRule`
  states it, but the `Views` steps assume a signed-in user.
- **ORM, HTTP and storage.**
  - Querysets are sequences, responses are `Result` values, and status codes are error values.
  - The selection of related rows, transactions and serialization to JSON are not modelled.
  - The race between two concurrent `save` calls computing the same `sl_no` is a concurrency
    matter and is not modelled.
- **`pk` is an integer.** A non-integer `pk` in the URL, which Django's router refuses, is not
  modelled.
- **Integers are unbounded.** Python's integers are unbounded too. For JavaScript's
  `Number(...)`, the model covers decimal integer text only (exponents, fractions, hex and
  `Infinity` are read as NaN).
- **Character classes.** Python's `str.isspace`, JavaScript's `\s` and the `i` flag are modelled
  over the characters the model lists. Case folding applies to ASCII letters only.
- **Collation, locale and time zone.**
  - The string order is code-point order.
  - Query.SortBy: a database `ORDER BY` leaves the order of rows with equal keys unspecified
    (`views.py:86`, `models.py:239` and the audit ordering); the model breaks such ties by table
    order, so `SortByStable` states the model's choice, not a promise of the database.
  - CreateMailPage.AssignableUsers: the locale sort of the AG's list (`CreateMailPage.jsx:327`) is
    left out, so the model gives the AG the users in table order; the members are the right ones.
  - The list page's column sort (`MailListPage.jsx:210-230`) compares mixed JavaScript values with `<` and `>` and is left out; `VisibleMails` is what it sorts.
  - Times are integers with no time zone.
  - `toISOString().split('T')[0]` is the date as given.
- **Descriptive fields** of the mail, such as subject, letter number and sender office, are
  carried only where a check reads them.
- **Partial create parsing.** The field types Django REST framework checks before `validate`
  (dates, choices, foreign keys) are summarized as `CreateFieldErrors`.
- **`Records.Save` and the `Views` steps use the corrected serial-number generator.** The
  generator as written is kept beside it (see Findings).
- **A multi-assigned close guard.** The permission class's docstring (`permissions.py:43-44`)
  describes one for auditors and clerks, but `close` in this revision (`views.py:244-279`) has
  none, so the model has none either.
- **The browser's state.** React state is modelled as pure transitions (`MailListPage`) or as the
  values the handlers compute (`Submit*`). The dialogs' open and closed flags and the network
  calls are left out.
- **`assigned_to` that is not an array.** The create form's fallback for this
  (`CreateMailPage.jsx:121`) cannot arise from the multiple-choice control and is left out.
- **MailListPage.TotalPages**, **ShowingFrom** and **ShowingTo**: these require a page size of at
  least 1 and a page of at least 1, which the page's controls guarantee.
- **The list service ignores the page arguments** the page passes (`mailService.js:9`). The model's
  `Service` does not model paging at all.
- **The assignments panel's API fallback** (`AssignmentsPanel.jsx:581-598`) is taken as the
  fetched list.
- **"Please select at least one officer"** (`CreateMailPage.jsx:316`) cannot show, because the
  `required` rule above it refuses the empty choice first. `AssigneeError` models the message
  that does show.
- **DetailPage.MultiAssignButtonBeyondGate** is an observation, not a defect: the page shows the
  button more widely than the server allows, and the server refuses the request.
- Views.GetObject: the detail actions are modelled without a query string. Django REST framework's
  `get_object` searches `get_queryset`, which applies the `status`, `section` and `overdue`
  parameters (`views.py:71-84`) to every action, so `?status=Closed` on an open mail would give
  404 and a non-integer `?section=` a server error; the model's lookup has no parameters.
- Serializers.JsonIn: JSON numbers with a fraction or an exponent are not modelled. CharField
  would take `str(x)` of such a float, IntegerField would read `5.0` as 5 and refuse `5.5`, and
  `reopen` would treat `0.0` as missing remarks.
- Serializers.PyRepr: the `repr` of an array or object stored by `reopen` quotes each text in
  single quotes as it is; Python's choice of double quotes and its escapes are not modelled.
- Serializers.RequiredInt: non-ASCII decimal digits, which Python's `int()` also reads, are refused.
- Text.PyInt: non-ASCII decimal digits, which Python's `int()` reads, give None.
- **Records.IsOverdue** is a predicate and is stated through `Views.OverdueFilterIsOverdue`.
- **The sections of a user** are sets. The order of JavaScript arrays is not read anywhere the
  model covers.

## Findings

| source | as written | input that shows it | evidently intended | confidence | as-written member | corrected member |
|---|---|---|---|---|---|---|
| backend/records/models.py:103-113 | the year's last serial number is chosen by string order (`order_by('-sl_no')`), and its number plus one is used | a year holding `Y/999` and `Y/1000`: `Y/999` sorts last, so the next number is `Y/1000` again, which the unique `sl_no` column refuses | one more than the greatest number used in the year | not executed | Records.NextSlNoRepeatsAfter1000 | Records.NextSlNoNumeric, with Records.NextSlNoNumericIsFresh |
| backend/users/migrations/0006_set_primary_ag.py:6-12 | the guard looks only for an ACTIVE primary AG before promoting the first active AG | an inactive AG still flagged primary and an active AG without the flag: both end up primary, breaking `unique_primary_ag_user` (0005_user_is_primary_ag.py:19-25); migration 0005 adds the flag as false everywhere, so this state arises only when the flag is set, or its holder deactivated, between the two migrations | leave the table alone when any AG holds the flag | not executed | PrimaryAg.SetPrimaryAgStaleFlagBreaksUnique, on PrimaryAg.SetPrimaryAgRows | PrimaryAg.SetPrimaryAgGuardedRows, with PrimaryAg.SetPrimaryAgGuardedKeepsUnique |
| frontend/src/services/mailService.js:9-20 | `getAllMails` returns `response.data.results \|\| response.data`, and the list page then reads `data.results` and `data.count` (MailListPage.jsx:102-104) | a paginated reply `{results: [mail], count: 1}` becomes the array `[mail]`, whose `results` is undefined, so the page shows no mail and a total of 0 | return the paginated body so the page can read its rows and total | not executed | MailListPage.LoadedPageAlwaysEmpty, on MailListPage.ServiceAsWritten | MailListPage.LoadedPageKeepsRows, on the corrected MailListPage.Service |
| frontend/src/services/mailService.js:12 | the page starts with the status filter `all` (MailListPage.jsx:45), which the service sends as `?status=all`; the list view then filters on `status='all'` (views.py:71-73) | the first load, for any user and any table, lists no mail | `all` means no status filter | not executed | MailListPage.InitialRequestListsNothing, on MailListPage.RequestAsWritten | MailListPage.InitialRequestListsVisibleRows, on MailListPage.Request |
