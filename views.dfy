/** The mail endpoints (backend/records/views.py): which records a user's list holds, the
    record lookup behind every detail action, and the create, update, reassign, close and
    reopen workflow steps with the audit rows each one writes. Each step is a function from
    the stored state to the response and the next state; the class `MailDesk` performs the
    steps on its own rows and audit table and is proved to agree with those functions. */
module Views {
  import opened Wrappers
  import opened Text
  import opened Org
  import opened Records
  import opened Serializers
  import Query
  import Audit
  import Permissions

  /** The error responses: 404, 403 and 400 with their messages, the serializer's field
      errors and `validate` errors (both 400), and a 500 for a query Django cannot run. */
  datatype HttpError =
    | NotFound
    | Forbidden(message: string)
    | BadRequest(message: string)
    | FieldErrors(errors: Errors)
    | CreateInvalid(error: CreateError)
    | ServerError

  const PermissionDenied: string := "You do not have permission to perform this action."

  /** The stored text of a status (STATUS_CHOICES). */
  function StatusTag(s: Status): (t: string)
    ensures t != []
  {
    match s
    case Received => "Received"
    case Assigned => "Assigned"
    case InProgress => "In Progress"
    case Closed => "Closed"
  }

  lemma StatusTagInjective(a: Status, b: Status)
    requires StatusTag(a) == StatusTag(b)
    ensures a == b
  {
  }

  // ----- what the viewset reads and writes -----

  /** What the workflow steps read and never change: the users, the parallel assignments,
      the section of each subsection, and the ids of the existing sections. */
  datatype Env = Env(
    users: seq<User>,
    assignments: seq<MailAssignment>,
    subsectionSection: map<Id, Id>,
    sectionIds: set<Id>)

  /** What the workflow steps change: the mail rows and the audit table. */
  datatype State = State(mails: seq<MailRecord>, audit: seq<Audit.AuditEntry>)

  function DbOf(env: Env, st: State): Permissions.Db {
    Permissions.Db(env.users, env.assignments, st.audit, env.subsectionSection)
  }

  function SlNos(mails: seq<MailRecord>): (r: seq<string>)
    ensures |r| == |mails| && forall i :: 0 <= i < |mails| ==> r[i] == mails[i].slNo
  {
    seq(|mails|, i requires 0 <= i < |mails| => mails[i].slNo)
  }

  /** A saved row: its id is its position plus one, it has a serial number and a current
      handler, and its assignee exists. */
  predicate Stored(env: Env, m: MailRecord, i: nat) {
    m.id == i + 1 && m.slNo != "" && m.currentHandler.Some? && UserById(env.users, m.assignedTo).Some?
  }

  /** Rows i and j carry different serial numbers. */
  predicate SlNosDiffer(mails: seq<MailRecord>, i: nat, j: nat)
    requires i < |mails| && j < |mails|
  {
    mails[i].slNo != mails[j].slNo
  }

  /** The table's invariant: every row is saved and no two rows share a serial number
      (`sl_no` is unique). */
  predicate WellFormed(env: Env, st: State) {
    (forall i {:trigger Stored(env, st.mails[i], i)} :: 0 <= i < |st.mails| ==> Stored(env, st.mails[i], i)) &&
    (forall i, j :: 0 <= i < j < |st.mails| ==> SlNosDiffer(st.mails, i, j))
  }

  // ----- the list (get_queryset) -----

  /** The role part of `get_queryset`: an AG sees every row; a DAG the rows of their section
      (both unset counts as equal) and the rows they appear on in the audit log; every other
      role the rows they handle, are assigned or appear on in the audit log. */
  predicate InQueryset(u: User, m: MailRecord, audit: seq<Audit.AuditEntry>) {
    if u.role == AG then true
    else if u.role == DAG then m.section == u.section || m.id in Audit.TouchedIds(audit, u.id)
    else m.currentHandler == Some(u.id) || m.assignedTo == u.id || m.id in Audit.TouchedIds(audit, u.id)
  }

  /** The query parameters `status`, `section` and `overdue`, each possibly absent. */
  datatype ListParams = ListParams(status: Option<string>, section: Option<string>, overdue: Option<string>)

  predicate Supplied(p: Option<string>) { p.Some? && p.value != "" }

  /** The section filter cannot run when its value is not an integer. */
  predicate BadSectionFilter(p: ListParams) { Supplied(p.section) && PyInt(p.section.value).None? }

  /** The filters a row must pass. */
  predicate MatchesFilters(m: MailRecord, p: ListParams, today: int) {
    (Supplied(p.status) ==> StatusTag(m.status) == p.status.value) &&
    (Supplied(p.section) ==>
       PyInt(p.section.value).Some? && m.section.Some? && m.section.value as int == PyInt(p.section.value).value) &&
    (p.overdue == Some("true") ==> m.dueDate < today && m.status != Closed)
  }

  function NewestFirstKey(m: MailRecord): int { 0 - m.createdAt }

  /** `get_queryset` for the list: the role's rows, then the filters, newest first. */
  function ListMails(u: User, p: ListParams, mails: seq<MailRecord>, audit: seq<Audit.AuditEntry>, today: int)
    : (r: Result<seq<MailRecord>, HttpError>)
    ensures r.Failure? <==> BadSectionFilter(p)
    ensures r.Failure? ==> r.error == ServerError
    ensures r.Success? ==> forall i :: 0 <= i < |r.value| ==>
      r.value[i] in mails && InQueryset(u, r.value[i], audit) && MatchesFilters(r.value[i], p, today)
    ensures r.Success? ==> forall i :: 0 <= i < |mails| && InQueryset(u, mails[i], audit) && MatchesFilters(mails[i], p, today) ==>
      mails[i] in r.value
    ensures r.Success? ==> forall i, j :: 0 <= i < j < |r.value| ==> r.value[i].createdAt >= r.value[j].createdAt
    ensures r.Success? ==> forall m | m in mails ::
      multiset(r.value)[m] == (if InQueryset(u, m, audit) && MatchesFilters(m, p, today) then multiset(mails)[m] else 0)
    ensures r.Success? ==> multiset(r.value) <= multiset(mails)
  {
    if BadSectionFilter(p) then Failure(ServerError)
    else
      var keep := (m: MailRecord) => InQueryset(u, m, audit) && MatchesFilters(m, p, today);
      var chosen := Query.Filter(mails, keep);
      Query.FilterMultiset(mails, keep);
      var sorted := NewestFirst(chosen);
      Success(sorted)
  }

  /** `order_by('-created_at')`: the same rows, newest first. */
  function NewestFirst(s: seq<MailRecord>): (r: seq<MailRecord>)
    ensures forall i :: 0 <= i < |r| ==> r[i] in s
    ensures forall i :: 0 <= i < |s| ==> s[i] in r
    ensures multiset(r) == multiset(s)
    ensures forall i, j :: 0 <= i < j < |r| ==> r[i].createdAt >= r[j].createdAt
  {
    var r := Query.SortBy(s, NewestFirstKey);
    assert forall i :: 0 <= i < |r| ==> r[i] in multiset(s);
    assert forall i :: 0 <= i < |s| ==> s[i] in multiset(r);
    assert forall i, j :: 0 <= i < j < |r| ==> NewestFirstKey(r[i]) <= NewestFirstKey(r[j]);
    r
  }

  /** The overdue filter keeps exactly the rows `is_overdue` reports. */
  lemma OverdueFilterIsOverdue(m: MailRecord, today: int)
    ensures MatchesFilters(m, ListParams(None, None, Some("true")), today) == IsOverdue(m, today)
  {
  }

  /** An AG without filters lists every row. */
  lemma AgListsEverything(u: User, mails: seq<MailRecord>, audit: seq<Audit.AuditEntry>, today: int)
    requires u.role == AG
    ensures var r := ListMails(u, ListParams(None, None, None), mails, audit, today);
      r.Success? && multiset(r.value) == multiset(mails)
  {
    var p := (m: MailRecord) => InQueryset(u, m, audit) && MatchesFilters(m, ListParams(None, None, None), today);
    Query.FilterAll(mails, p);
  }

  /** Apart from a DAG's section, a row is listed only for a user who handles it, is
      assigned it or has acted on it. */
  lemma ListedOnlyIfRelated(u: User, p: ListParams, mails: seq<MailRecord>, audit: seq<Audit.AuditEntry>, today: int, i: nat)
    requires u.role != AG
    requires var r := ListMails(u, p, mails, audit, today); r.Success? && i < |r.value|
    ensures var m := ListMails(u, p, mails, audit, today).value[i];
      (u.role == DAG && m.section == u.section) || m.currentHandler == Some(u.id) || m.assignedTo == u.id ||
      exists k :: 0 <= k < |audit| && audit[k].performedBy == u.id && audit[k].mailId == m.id
  {
  }

  // ----- the record lookup of the detail actions (get_object) -----

  /** `get_object`: the row with the id among the user's queryset (404 when there is none),
      then `has_object_permission` with a fresh cache (403 when it refuses). */
  function GetObject(u: User, a: Permissions.Action, pk: int, mails: seq<MailRecord>, db: Permissions.Db)
    : (r: Result<nat, HttpError>)
    ensures r.Success? ==>
      (r.value < |mails| && mails[r.value].id == pk &&
       InQueryset(u, mails[r.value], db.audit) && Permissions.ObjectPermission(u, a, mails[r.value], db))
    ensures (r.Failure? && r.error == NotFound) <==>
      forall i :: 0 <= i < |mails| && mails[i].id == pk ==> !InQueryset(u, mails[i], db.audit)
    ensures r.Failure? ==> r.error == NotFound || r.error == Forbidden(PermissionDenied)
  {
    match Query.FirstIndex(mails, (m: MailRecord) => m.id == pk && InQueryset(u, m, db.audit))
    case None => Failure(NotFound)
    case Some(k) =>
      var out := Permissions.ObjectPermissionCached(u, a, mails[k], db, None);
      if out.allowed then Success(k) else Failure(Forbidden(PermissionDenied))
  }

  /** In a well-formed table the lookup finds the row at position `pk - 1`. */
  lemma GetObjectPosition(env: Env, st: State, u: User, a: Permissions.Action, pk: int)
    requires WellFormed(env, st)
    ensures var r := GetObject(u, a, pk, st.mails, DbOf(env, st));
      r.Success? ==> r.value as int == pk - 1
  {
    var r := GetObject(u, a, pk, st.mails, DbOf(env, st));
    if r.Success? {
      StoredAt(env, st, r.value);
    }
  }

  // ----- the workflow steps -----

  /** A response and the state after it. */
  datatype Step = Step(result: Result<MailRecord, HttpError>, next: State)

  function JsonText(v: Option<string>): Audit.JsonVal {
    match v
    case None => Audit.JNull
    case Some(s) => Audit.JStr(s)
  }

  /** The update's changes to a row: a row still Assigned moves on to In Progress, and the
      remarks change when the form gives them. */
  function Updated(m: MailRecord, given: Provided<Option<string>>, now: int): (r: MailRecord)
    ensures r == m.(status := r.status, lastStatusChange := r.lastStatusChange, remarks := r.remarks)
    ensures r.status == (if m.status == Assigned then InProgress else m.status)
    ensures r.remarks == (match given case Omitted => m.remarks case Given(v) => v)
  {
    var advanced := if m.status == Assigned then m.(status := InProgress, lastStatusChange := now) else m;
    match given
    case Omitted => advanced
    case Given(v) => advanced.(remarks := v)
  }

  /** The field-level errors of the create form: an unknown section or assignee, a missing
      due date or action. */
  predicate CreateFieldsMissing(env: Env, data: CreateData) {
    data.dueDate.None? || data.actionRequired.None? || data.section !in env.sectionIds ||
    UserById(env.users, data.assignedTo).None?
  }

  function CreateFieldErrors(env: Env, data: CreateData): (e: Errors)
    ensures e != map[] <==> CreateFieldsMissing(env, data)
  {
    var e: Errors :=
      (if data.dueDate.None? then map["due_date" := Required] else map[]) +
      (if data.actionRequired.None? then map["action_required" := Required] else map[]) +
      (if data.section !in env.sectionIds then map["section" := DoesNotExist] else map[]) +
      (if UserById(env.users, data.assignedTo).None? then map["assigned_to" := DoesNotExist] else map[]);
    assert data.dueDate.None? ==> "due_date" in e;
    assert data.actionRequired.None? ==> "action_required" in e;
    assert data.section !in env.sectionIds ==> "section" in e;
    assert UserById(env.users, data.assignedTo).None? ==> "assigned_to" in e;
    e
  }

  /** The checks of `create`: field errors (an unknown section or assignee, a missing due
      date or action), then `validate`, then the role (AG or DAG) and a DAG's own section.
      A pass yields the assignee. */
  function CreateChecks(env: Env, u: User, data: CreateData, today: int): (r: Result<User, HttpError>)
    ensures r.Success? ==>
      (data.dueDate.Some? && data.actionRequired.Some? && UserById(env.users, data.assignedTo) == Some(r.value))
    ensures r.Success? <==>
      !CreateFieldsMissing(env, data) && ValidateCreate(data, today).Success? &&
      (u.role == AG || (u.role == DAG && u.section == Some(data.section)))
    ensures CreateFieldsMissing(env, data) ==> r == Failure(FieldErrors(CreateFieldErrors(env, data)))
    ensures !CreateFieldsMissing(env, data) && ValidateCreate(data, today).Failure? ==>
      r == Failure(CreateInvalid(ValidateCreate(data, today).error))
    ensures !CreateFieldsMissing(env, data) && ValidateCreate(data, today).Success? && u.role != AG && u.role != DAG ==>
      r == Failure(Forbidden("You do not have permission to create mail records."))
    ensures !CreateFieldsMissing(env, data) && ValidateCreate(data, today).Success? && u.role == DAG && u.section != Some(data.section) ==>
      r == Failure(Forbidden("You can only create mails for your section."))
  {
    if CreateFieldsMissing(env, data) then Failure(FieldErrors(CreateFieldErrors(env, data)))
    else if ValidateCreate(data, today).Failure? then Failure(CreateInvalid(ValidateCreate(data, today).error))
    else if u.role != AG && u.role != DAG then Failure(Forbidden("You do not have permission to create mail records."))
    else if u.role == DAG && Some(data.section) != u.section then Failure(Forbidden("You can only create mails for your section."))
    else Success(UserById(env.users, data.assignedTo).value)
  }

  /** The row `serializer.save(...)` writes: Assigned to the assignee, who is also its
      handler, with the assignee's DAG as monitoring officer; `save` gives it the next serial
      number of the year. */
  function CreatedMail(env: Env, st: State, u: User, data: CreateData, assignee: User, year: nat, now: int): MailRecord
    requires data.dueDate.Some? && data.actionRequired.Some? && UserById(env.users, data.assignedTo) == Some(assignee)
  {
    var draft := MailRecord(
      id := |st.mails| + 1, slNo := "", actionRequired := data.actionRequired.value,
      actionRequiredOther := data.actionRequiredOther, assignedTo := data.assignedTo,
      currentHandler := Some(data.assignedTo), monitoringOfficer := MonitoringOfficerOf(assignee, env.users),
      section := Some(data.section), subsection := None, dueDate := data.dueDate.value,
      status := Assigned, dateOfCompletion := None, lastStatusChange := now,
      remarks := (match data.remarks case Omitted => None case Given(v) => v),
      isMultiAssigned := false, consolidatedRemarks := None, createdBy := u.id, createdAt := now);
    Save(draft, year, SlNos(st.mails), env.users)
  }

  /** The CREATE row: the serial number, the assignee's name and the status; the form's
      remarks, the empty text when it gave none. */
  function CreateRow(m: MailRecord, u: User, data: CreateData, assignee: User, now: int): Audit.AuditEntry {
    Audit.AuditEntry(m.id, Audit.Create, u.id, now, None,
      Some(map["sl_no" := Audit.JStr(m.slNo), "assigned_to" := Audit.JStr(assignee.fullName),
               "status" := Audit.JStr("Assigned")]),
      (match data.remarks case Omitted => Some("") case Given(v) => v))
  }

  /** The ASSIGN row that follows it. */
  function AssignRow(m: MailRecord, u: User, assignee: User, now: int): Audit.AuditEntry {
    Audit.AuditEntry(m.id, Audit.Assign, u.id, now, None,
      Some(map["assigned_to" := Audit.JStr(assignee.fullName)]), Some("Assigned to " + assignee.fullName))
  }

  /** `create`: after its checks one row is added, then a CREATE and an ASSIGN audit row. */
  function CreateStep(env: Env, st: State, u: User, data: CreateData, year: nat, now: int, today: int): (r: Step)
    requires WellFormed(env, st)
    ensures r.result.Failure? ==> r.next == st
  {
    match CreateChecks(env, u, data, today)
    case Failure(e) => Step(Failure(e), st)
    case Success(assignee) =>
      var m := CreatedMail(env, st, u, data, assignee, year, now);
      Step(Success(m), State(st.mails + [m], st.audit + [CreateRow(m, u, data, assignee, now), AssignRow(m, u, assignee, now)]))
  }

  /** What the checks of `update` establish: the row's position and the form's remarks. */
  datatype UpdateGrant = UpdateGrant(k: nat, given: Provided<Option<string>>)

  function UpdateAction(partial: bool): Permissions.Action {
    if partial then Permissions.PartialUpdate else Permissions.Update
  }

  /** The checks of `update` (PUT, or PATCH when `partial`): the lookup, then only the
      current handler may update, then the form. */
  function UpdateChecks(env: Env, st: State, u: User, pk: int, partial: bool, remarks: JsonIn)
    : (r: Result<UpdateGrant, HttpError>)
    ensures r.Success? ==>
      (r.value.k < |st.mails| && GetObject(u, UpdateAction(partial), pk, st.mails, DbOf(env, st)) == Success(r.value.k) &&
       st.mails[r.value.k].currentHandler == Some(u.id) && ValidateUpdate(remarks) == Success(r.value.given))
    ensures var g := GetObject(u, UpdateAction(partial), pk, st.mails, DbOf(env, st));
      g.Failure? ==> r == Failure(g.error)
    ensures var g := GetObject(u, UpdateAction(partial), pk, st.mails, DbOf(env, st));
      g.Success? && st.mails[g.value].currentHandler != Some(u.id) ==>
        r == Failure(Forbidden("Only the current handler can update this mail."))
    ensures var g := GetObject(u, UpdateAction(partial), pk, st.mails, DbOf(env, st));
      var v := ValidateUpdate(remarks);
      g.Success? && st.mails[g.value].currentHandler == Some(u.id) ==>
        (v.Failure? ==> r == Failure(FieldErrors(v.error))) &&
        (v.Success? ==> r == Success(UpdateGrant(g.value, v.value)))
  {
    match GetObject(u, UpdateAction(partial), pk, st.mails, DbOf(env, st))
    case Failure(e) => Failure(e)
    case Success(k) =>
      if st.mails[k].currentHandler != Some(u.id) then Failure(Forbidden("Only the current handler can update this mail."))
      else match ValidateUpdate(remarks)
        case Failure(e) => Failure(FieldErrors(e))
        case Success(given) => Success(UpdateGrant(k, given))
  }

  /** `update`: after its checks the row is updated and saved; an UPDATE row records the
      remarks before and after. */
  function UpdateStep(env: Env, st: State, u: User, pk: int, partial: bool, remarks: JsonIn, now: int): (r: Step)
    requires WellFormed(env, st)
    ensures r.result.Failure? ==> r.next == st
  {
    match UpdateChecks(env, st, u, pk, partial, remarks)
    case Failure(e) => Step(Failure(e), st)
    case Success(g) =>
      StoredAt(env, st, g.k);
      UpdateApply(env, st, u, g, now)
  }

  /** The UPDATE row: the remarks before and after, and the new status. */
  function UpdateRow(m: MailRecord, saved: MailRecord, u: User, now: int): Audit.AuditEntry {
    Audit.AuditEntry(m.id, Audit.Update, u.id, now, Some(map["remarks" := JsonText(m.remarks)]),
      Some(map["remarks" := JsonText(saved.remarks), "status" := Audit.JStr(StatusTag(saved.status))]),
      Some("Updated remarks"))
  }

  /** The write of a granted update: the row updated and saved, then its UPDATE row. */
  function UpdateApply(env: Env, st: State, u: User, g: UpdateGrant, now: int): Step
    requires g.k < |st.mails| && UserById(env.users, st.mails[g.k].assignedTo).Some?
  {
    var m := st.mails[g.k];
    var saved := Save(Updated(m, g.given, now), 0, [], env.users);
    Step(Success(saved), State(st.mails[g.k := saved], st.audit + [UpdateRow(m, saved, u, now)]))
  }

  lemma UpdateRefused(env: Env, st: State, u: User, pk: int, partial: bool, remarks: JsonIn, now: int)
    requires WellFormed(env, st) && UpdateChecks(env, st, u, pk, partial, remarks).Failure?
    ensures UpdateStep(env, st, u, pk, partial, remarks, now) == Step(Failure(UpdateChecks(env, st, u, pk, partial, remarks).error), st)
  {
  }

  lemma UpdateGranted(env: Env, st: State, u: User, pk: int, partial: bool, remarks: JsonIn, now: int, g: UpdateGrant)
    requires WellFormed(env, st) && UpdateChecks(env, st, u, pk, partial, remarks) == Success(g)
    ensures g.k < |st.mails| && UserById(env.users, st.mails[g.k].assignedTo).Some?
    ensures UpdateStep(env, st, u, pk, partial, remarks, now) == UpdateApply(env, st, u, g, now)
  {
    StoredAt(env, st, g.k);
  }

  /** The row a granted update saves, field by field. */
  lemma UpdateApplyRow(env: Env, st: State, u: User, g: UpdateGrant, now: int)
    requires g.k < |st.mails| && UserById(env.users, st.mails[g.k].assignedTo).Some?
    requires st.mails[g.k].slNo != "" && st.mails[g.k].currentHandler.Some?
    ensures var m := st.mails[g.k];
      var r := UpdateApply(env, st, u, g, now);
      r.result.Success? &&
      r.result.value == m.(status := (if m.status == Assigned then InProgress else m.status),
                           lastStatusChange := (if m.status == Assigned then now else m.lastStatusChange),
                           remarks := (match g.given case Omitted => m.remarks case Given(v) => v),
                           monitoringOfficer := FilledMonitor(m, env.users)) &&
      r.next == State(st.mails[g.k := r.result.value], st.audit + [UpdateRow(m, r.result.value, u, now)])
  {
    var m := st.mails[g.k];
    var e := Updated(m, g.given, now);
    ResaveFills(e, env.users);
    assert FilledMonitor(e, env.users) == FilledMonitor(m, env.users);
  }

  /** `User.objects.get(id=..., is_active=True)`. */
  function ActiveUserById(users: seq<User>, id: int): (r: Option<User>)
    ensures r.Some? ==> r.value in users && r.value.id as int == id && r.value.isActive
    ensures r.None? <==> forall i :: 0 <= i < |users| ==> !(users[i].id as int == id && users[i].isActive)
  {
    Query.First(users, (v: User) => v.id as int == id && v.isActive)
  }

  /** What the checks of `reassign` establish: the row's position, the form and the target. */
  datatype ReassignGrant = ReassignGrant(k: nat, input: ReassignInput, target: User)

  /** The role checks of `reassign` on the row `m` and the target: a DAG keeps to their
      section for both, a staff officer reassigns only as the handler. */
  function ReassignRoleChecks(u: User, m: MailRecord, target: User): (r: Option<HttpError>)
    ensures r.None? <==>
      (u.role == DAG ==> m.section == u.section && target.section == u.section) &&
      ((u.role == SrAO || u.role == AAO) ==> m.currentHandler == Some(u.id))
    ensures u.role == DAG && m.section != u.section ==>
      r == Some(Forbidden("You can only reassign mails within your section."))
    ensures u.role == DAG && m.section == u.section && target.section != u.section ==>
      r == Some(Forbidden("You can only reassign to users in your section."))
    ensures (u.role == SrAO || u.role == AAO) && m.currentHandler != Some(u.id) ==>
      r == Some(Forbidden("You can only reassign mails assigned to you."))
  {
    if u.role == DAG && m.section != u.section then
      Some(Forbidden("You can only reassign mails within your section."))
    else if u.role == DAG && target.section != u.section then
      Some(Forbidden("You can only reassign to users in your section."))
    else if (u.role == SrAO || u.role == AAO) && m.currentHandler != Some(u.id) then
      Some(Forbidden("You can only reassign mails assigned to you."))
    else None
  }

  /** The checks of `reassign` after the lookup found the row `m` at position `k` and the
      form was validated to `form`: the form, then an active target user (400 otherwise),
      then the role checks. */
  function ReassignRowChecks(users: seq<User>, u: User, m: MailRecord, k: nat, form: Result<ReassignInput, Errors>)
    : (r: Result<ReassignGrant, HttpError>)
    ensures r.Success? ==>
      (r.value.k == k && form == Success(r.value.input) &&
       ActiveUserById(users, r.value.input.newHandler) == Some(r.value.target) &&
       ReassignRoleChecks(u, m, r.value.target).None?)
    ensures form.Failure? ==> r == Failure(FieldErrors(form.error))
    ensures form.Success? && ActiveUserById(users, form.value.newHandler).None? ==>
      r == Failure(BadRequest("Invalid user selected."))
    ensures form.Success? && ActiveUserById(users, form.value.newHandler).Some? ==>
      var c := ReassignRoleChecks(u, m, ActiveUserById(users, form.value.newHandler).value);
      (c.Some? ==> r == Failure(c.value)) &&
      (c.None? ==> r == Success(ReassignGrant(k, form.value, ActiveUserById(users, form.value.newHandler).value)))
  {
    match form
    case Failure(e) => Failure(FieldErrors(e))
    case Success(input) =>
      match ActiveUserById(users, input.newHandler)
      case None => Failure(BadRequest("Invalid user selected."))
      case Some(target) =>
        match ReassignRoleChecks(u, m, target)
        case Some(e) => Failure(e)
        case None => Success(ReassignGrant(k, input, target))
  }

  /** The checks of `reassign`: the lookup, then the checks on the row it found. */
  function ReassignChecks(env: Env, st: State, u: User, pk: int, newHandler: JsonIn, remarks: JsonIn)
    : (r: Result<ReassignGrant, HttpError>)
    ensures r.Success? ==>
      (r.value.k < |st.mails| && ValidateReassign(newHandler, remarks) == Success(r.value.input) &&
       ActiveUserById(env.users, r.value.input.newHandler) == Some(r.value.target) &&
       GetObject(u, Permissions.Reassign, pk, st.mails, DbOf(env, st)) == Success(r.value.k) &&
       (u.role == DAG ==> st.mails[r.value.k].section == u.section && r.value.target.section == u.section) &&
       ((u.role == SrAO || u.role == AAO) ==> st.mails[r.value.k].currentHandler == Some(u.id)))
    ensures var g := GetObject(u, Permissions.Reassign, pk, st.mails, DbOf(env, st));
      g.Failure? ==> r == Failure(g.error)
    ensures var g := GetObject(u, Permissions.Reassign, pk, st.mails, DbOf(env, st));
      g.Success? ==> r == ReassignRowChecks(env.users, u, st.mails[g.value], g.value, ValidateReassign(newHandler, remarks))
  {
    match GetObject(u, Permissions.Reassign, pk, st.mails, DbOf(env, st))
    case Failure(e) => Failure(e)
    case Success(k) => ReassignRowChecks(env.users, u, st.mails[k], k, ValidateReassign(newHandler, remarks))
  }

  /** `reassign`: after its checks the row goes to the target In Progress, whatever its
      status was, and a REASSIGN row follows. */
  function ReassignStep(env: Env, st: State, u: User, pk: int, newHandler: JsonIn, remarks: JsonIn, now: int): (r: Step)
    requires WellFormed(env, st)
    ensures r.result.Failure? ==> r.next == st
  {
    match ReassignChecks(env, st, u, pk, newHandler, remarks)
    case Failure(e) => Step(Failure(e), st)
    case Success(g) =>
      StoredAt(env, st, g.k);
      ReassignApply(env, st, u, g, now)
  }

  /** The row handed to the target: In Progress from now on. */
  function Reassigned(m: MailRecord, target: User, now: int): MailRecord {
    m.(currentHandler := Some(target.id), status := InProgress, lastStatusChange := now)
  }

  /** The REASSIGN row: the handler's name before and after, and the reason. */
  function ReassignRow(env: Env, m: MailRecord, g: ReassignGrant, u: User, now: int): Audit.AuditEntry
    requires m.currentHandler.Some?
  {
    Audit.AuditEntry(m.id, Audit.Reassign, u.id, now,
      Some(map["current_handler" := Audit.JStr(FullName(env.users, m.currentHandler.value))]),
      Some(map["current_handler" := Audit.JStr(g.target.fullName), "status" := Audit.JStr("In Progress")]),
      Some(g.input.remarks))
  }

  /** The write of a granted reassign: the row handed over and saved, then its REASSIGN row. */
  function ReassignApply(env: Env, st: State, u: User, g: ReassignGrant, now: int): Step
    requires g.k < |st.mails| && UserById(env.users, st.mails[g.k].assignedTo).Some?
    requires st.mails[g.k].currentHandler.Some?
  {
    var m := st.mails[g.k];
    var saved := Save(Reassigned(m, g.target, now), 0, [], env.users);
    Step(Success(saved), State(st.mails[g.k := saved], st.audit + [ReassignRow(env, m, g, u, now)]))
  }

  lemma ReassignRefused(env: Env, st: State, u: User, pk: int, newHandler: JsonIn, remarks: JsonIn, now: int)
    requires WellFormed(env, st) && ReassignChecks(env, st, u, pk, newHandler, remarks).Failure?
    ensures ReassignStep(env, st, u, pk, newHandler, remarks, now) ==
      Step(Failure(ReassignChecks(env, st, u, pk, newHandler, remarks).error), st)
  {
  }

  lemma ReassignGranted(env: Env, st: State, u: User, pk: int, newHandler: JsonIn, remarks: JsonIn, now: int, g: ReassignGrant)
    requires WellFormed(env, st) && ReassignChecks(env, st, u, pk, newHandler, remarks) == Success(g)
    ensures g.k < |st.mails| && UserById(env.users, st.mails[g.k].assignedTo).Some? && st.mails[g.k].currentHandler.Some?
    ensures ReassignStep(env, st, u, pk, newHandler, remarks, now) == ReassignApply(env, st, u, g, now)
  {
    StoredAt(env, st, g.k);
  }

  /** The row a granted reassign saves, field by field. */
  lemma ReassignApplyRow(env: Env, st: State, u: User, g: ReassignGrant, now: int)
    requires g.k < |st.mails| && UserById(env.users, st.mails[g.k].assignedTo).Some?
    requires st.mails[g.k].slNo != "" && st.mails[g.k].currentHandler.Some?
    ensures var m := st.mails[g.k];
      var r := ReassignApply(env, st, u, g, now);
      r.result.Success? &&
      r.result.value == m.(currentHandler := Some(g.target.id), status := InProgress, lastStatusChange := now,
                           monitoringOfficer := FilledMonitor(m, env.users)) &&
      r.next == State(st.mails[g.k := r.result.value], st.audit + [ReassignRow(env, m, g, u, now)])
  {
    var m := st.mails[g.k];
    var e := Reassigned(m, g.target, now);
    ResaveFills(e, env.users);
    assert FilledMonitor(e, env.users) == FilledMonitor(m, env.users);
  }

  /** What the checks of `close` establish: the row's position and the stripped reason. */
  datatype CloseGrant = CloseGrant(k: nat, reason: string)

  /** The checks of `close`: the lookup, the form, 400 when already Closed. */
  function CloseChecks(env: Env, st: State, u: User, pk: int, remarks: JsonIn): (r: Result<CloseGrant, HttpError>)
    ensures r.Success? ==>
      (r.value.k < |st.mails| && GetObject(u, Permissions.Close, pk, st.mails, DbOf(env, st)) == Success(r.value.k) &&
       ValidateClose(remarks) == Success(r.value.reason) && st.mails[r.value.k].status != Closed)
    ensures var g := GetObject(u, Permissions.Close, pk, st.mails, DbOf(env, st));
      g.Failure? ==> r == Failure(g.error)
    ensures var g := GetObject(u, Permissions.Close, pk, st.mails, DbOf(env, st));
      var v := ValidateClose(remarks);
      g.Success? && v.Failure? ==> r == Failure(FieldErrors(v.error))
    ensures var g := GetObject(u, Permissions.Close, pk, st.mails, DbOf(env, st));
      var v := ValidateClose(remarks);
      g.Success? && v.Success? ==>
        (st.mails[g.value].status == Closed ==> r == Failure(BadRequest("This mail is already closed."))) &&
        (st.mails[g.value].status != Closed ==> r == Success(CloseGrant(g.value, v.value)))
  {
    match GetObject(u, Permissions.Close, pk, st.mails, DbOf(env, st))
    case Failure(e) => Failure(e)
    case Success(k) =>
      match ValidateClose(remarks)
      case Failure(e) => Failure(FieldErrors(e))
      case Success(reason) =>
        if st.mails[k].status == Closed then Failure(BadRequest("This mail is already closed."))
        else Success(CloseGrant(k, reason))
  }

  /** `close`: after its checks the row is Closed today with the reason as its remarks, and
      a CLOSE row follows. */
  function CloseStep(env: Env, st: State, u: User, pk: int, remarks: JsonIn, now: int, today: int): (r: Step)
    requires WellFormed(env, st)
    ensures r.result.Failure? ==> r.next == st
  {
    match CloseChecks(env, st, u, pk, remarks)
    case Failure(e) => Step(Failure(e), st)
    case Success(g) =>
      StoredAt(env, st, g.k);
      CloseApply(env, st, u, g, now, today)
  }

  /** The closed row: Closed today, with the reason as its remarks. */
  function Closes(m: MailRecord, reason: string, now: int, today: int): MailRecord {
    m.(status := Closed, dateOfCompletion := Some(today), lastStatusChange := now, remarks := Some(reason))
  }

  /** The CLOSE row: the status before and after, the completion date and the reason. */
  function CloseRow(m: MailRecord, reason: string, u: User, now: int, today: int): Audit.AuditEntry {
    Audit.AuditEntry(m.id, Audit.Close, u.id, now,
      Some(map["status" := Audit.JStr(StatusTag(m.status))]),
      Some(map["status" := Audit.JStr("Closed"), "date_of_completion" := Audit.JDate(today)]),
      Some(reason))
  }

  /** The write of a granted close: the row closed and saved, then its CLOSE row. */
  function CloseApply(env: Env, st: State, u: User, g: CloseGrant, now: int, today: int): Step
    requires g.k < |st.mails| && UserById(env.users, st.mails[g.k].assignedTo).Some?
  {
    var m := st.mails[g.k];
    var saved := Save(Closes(m, g.reason, now, today), 0, [], env.users);
    Step(Success(saved), State(st.mails[g.k := saved], st.audit + [CloseRow(m, g.reason, u, now, today)]))
  }

  lemma CloseRefused(env: Env, st: State, u: User, pk: int, remarks: JsonIn, now: int, today: int)
    requires WellFormed(env, st) && CloseChecks(env, st, u, pk, remarks).Failure?
    ensures CloseStep(env, st, u, pk, remarks, now, today) == Step(Failure(CloseChecks(env, st, u, pk, remarks).error), st)
  {
  }

  lemma CloseGranted(env: Env, st: State, u: User, pk: int, remarks: JsonIn, now: int, today: int, g: CloseGrant)
    requires WellFormed(env, st) && CloseChecks(env, st, u, pk, remarks) == Success(g)
    ensures g.k < |st.mails| && UserById(env.users, st.mails[g.k].assignedTo).Some?
    ensures CloseStep(env, st, u, pk, remarks, now, today) == CloseApply(env, st, u, g, now, today)
  {
    StoredAt(env, st, g.k);
  }

  /** The row a granted close saves, field by field. */
  lemma CloseApplyRow(env: Env, st: State, u: User, g: CloseGrant, now: int, today: int)
    requires g.k < |st.mails| && UserById(env.users, st.mails[g.k].assignedTo).Some?
    requires st.mails[g.k].slNo != "" && st.mails[g.k].currentHandler.Some?
    ensures var m := st.mails[g.k];
      var r := CloseApply(env, st, u, g, now, today);
      r.result.Success? &&
      r.result.value == m.(status := Closed, dateOfCompletion := Some(today), lastStatusChange := now,
                           remarks := Some(g.reason), monitoringOfficer := FilledMonitor(m, env.users)) &&
      r.next == State(st.mails[g.k := r.result.value], st.audit + [CloseRow(m, g.reason, u, now, today)])
  {
    var m := st.mails[g.k];
    var e := Closes(m, g.reason, now, today);
    ResaveFills(e, env.users);
    assert FilledMonitor(e, env.users) == FilledMonitor(m, env.users);
  }

  /** Python truthiness of `request.data.get('remarks', '')`. */
  predicate Truthy(v: JsonIn) {
    match v
    case Absent => false
    case JNull => false
    case JInt(i) => i != 0
    case JText(s) => s != ""
    case JBool(b) => b
    case JArray(items) => items != []
    case JObject(members) => members != []
  }

  /** Remarks that pass `reopen`'s `if not remarks` are stored as a non-empty text: the
      audit row's TextField keeps `str(remarks)`. */
  lemma TruthyRemarksStoredNonEmpty(v: JsonIn)
    requires Truthy(v)
    ensures PyStr(v) != "" && (v.JText? ==> PyStr(v) == v.s)
    ensures v.JArray? ==> PyStr(v)[0] == '[' && PyStr(v)[|PyStr(v)| - 1] == ']'
    ensures v.JObject? ==> PyStr(v)[0] == '{' && PyStr(v)[|PyStr(v)| - 1] == '}'
  {
  }

  /** The checks of `reopen`: the lookup, then AG only, then Closed only, then remarks
      required (taken as sent, not stripped). */
  function ReopenChecks(env: Env, st: State, u: User, pk: int, remarks: JsonIn): (r: Result<nat, HttpError>)
    ensures r.Success? ==>
      (r.value < |st.mails| && GetObject(u, Permissions.Reopen, pk, st.mails, DbOf(env, st)) == Success(r.value) &&
       u.role == AG && st.mails[r.value].status == Closed && Truthy(remarks))
    ensures var g := GetObject(u, Permissions.Reopen, pk, st.mails, DbOf(env, st));
      g.Failure? ==> r == Failure(g.error)
    ensures var g := GetObject(u, Permissions.Reopen, pk, st.mails, DbOf(env, st));
      g.Success? && u.role != AG ==> r == Failure(Forbidden("Only AG can reopen closed mails."))
    ensures var g := GetObject(u, Permissions.Reopen, pk, st.mails, DbOf(env, st));
      g.Success? && u.role == AG && st.mails[g.value].status != Closed ==> r == Failure(BadRequest("This mail is not closed."))
    ensures var g := GetObject(u, Permissions.Reopen, pk, st.mails, DbOf(env, st));
      g.Success? && u.role == AG && st.mails[g.value].status == Closed && !Truthy(remarks) ==>
        r == Failure(BadRequest("Remarks are required for reopening."))
  {
    match GetObject(u, Permissions.Reopen, pk, st.mails, DbOf(env, st))
    case Failure(e) => Failure(e)
    case Success(k) =>
      if u.role != AG then Failure(Forbidden("Only AG can reopen closed mails."))
      else if st.mails[k].status != Closed then Failure(BadRequest("This mail is not closed."))
      else if !Truthy(remarks) then Failure(BadRequest("Remarks are required for reopening."))
      else Success(k)
  }

  /** `reopen`: after its checks the row goes back to In Progress without a completion date,
      and a REOPEN row follows. */
  function ReopenStep(env: Env, st: State, u: User, pk: int, remarks: JsonIn, now: int): (r: Step)
    requires WellFormed(env, st)
    ensures r.result.Failure? ==> r.next == st
  {
    match ReopenChecks(env, st, u, pk, remarks)
    case Failure(e) => Step(Failure(e), st)
    case Success(k) =>
      StoredAt(env, st, k);
      ReopenApply(env, st, u, k, remarks, now)
  }

  /** The reopened row: In Progress again, without a completion date. */
  function Reopened(m: MailRecord, now: int): MailRecord {
    m.(status := InProgress, dateOfCompletion := None, lastStatusChange := now)
  }

  /** The REOPEN row: the status before and after, and the remarks as sent. */
  function ReopenRow(m: MailRecord, remarks: JsonIn, u: User, now: int): Audit.AuditEntry {
    Audit.AuditEntry(m.id, Audit.Reopen, u.id, now,
      Some(map["status" := Audit.JStr(StatusTag(m.status))]),
      Some(map["status" := Audit.JStr("In Progress")]),
      Some(PyStr(remarks)))
  }

  /** The REOPEN row of a Closed row records "Closed" as the status before. */
  lemma ReopenRowOfClosed(m: MailRecord, remarks: JsonIn, u: User, now: int)
    requires m.status == Closed
    ensures ReopenRow(m, remarks, u, now) == Audit.AuditEntry(m.id, Audit.Reopen, u.id, now,
      Some(map["status" := Audit.JStr("Closed")]), Some(map["status" := Audit.JStr("In Progress")]),
      Some(PyStr(remarks)))
  {
  }

  /** The write of a granted reopen: the row reopened and saved, then its REOPEN row. */
  function ReopenApply(env: Env, st: State, u: User, k: nat, remarks: JsonIn, now: int): Step
    requires k < |st.mails| && UserById(env.users, st.mails[k].assignedTo).Some?
  {
    var m := st.mails[k];
    var saved := Save(Reopened(m, now), 0, [], env.users);
    Step(Success(saved), State(st.mails[k := saved], st.audit + [ReopenRow(m, remarks, u, now)]))
  }

  lemma ReopenRefused(env: Env, st: State, u: User, pk: int, remarks: JsonIn, now: int)
    requires WellFormed(env, st) && ReopenChecks(env, st, u, pk, remarks).Failure?
    ensures ReopenStep(env, st, u, pk, remarks, now) == Step(Failure(ReopenChecks(env, st, u, pk, remarks).error), st)
  {
  }

  lemma ReopenGranted(env: Env, st: State, u: User, pk: int, remarks: JsonIn, now: int, k: nat)
    requires WellFormed(env, st) && ReopenChecks(env, st, u, pk, remarks) == Success(k)
    ensures k < |st.mails| && UserById(env.users, st.mails[k].assignedTo).Some?
    ensures ReopenStep(env, st, u, pk, remarks, now) == ReopenApply(env, st, u, k, remarks, now)
  {
    StoredAt(env, st, k);
  }

  /** The row a granted reopen saves, field by field. */
  lemma ReopenApplyRow(env: Env, st: State, u: User, k: nat, remarks: JsonIn, now: int)
    requires k < |st.mails| && UserById(env.users, st.mails[k].assignedTo).Some?
    requires st.mails[k].slNo != "" && st.mails[k].currentHandler.Some?
    ensures var m := st.mails[k];
      var r := ReopenApply(env, st, u, k, remarks, now);
      r.result.Success? &&
      r.result.value == m.(status := InProgress, dateOfCompletion := None, lastStatusChange := now,
                           monitoringOfficer := FilledMonitor(m, env.users)) &&
      r.next == State(st.mails[k := r.result.value], st.audit + [ReopenRow(m, remarks, u, now)])
  {
    var m := st.mails[k];
    var e := Reopened(m, now);
    ResaveFills(e, env.users);
    assert FilledMonitor(e, env.users) == FilledMonitor(m, env.users);
  }

  // ----- what the steps guarantee -----

  /** The monitoring officer a re-save leaves on a row: an unset one becomes the assignee's
      DAG. */
  function FilledMonitor(m: MailRecord, users: seq<User>): Option<Id> {
    if m.monitoringOfficer.Some? then m.monitoringOfficer
    else match UserById(users, m.assignedTo)
      case Some(a) => MonitoringOfficerOf(a, users)
      case None => None
  }

  /** Saving a row that already has a serial number and a handler only fills in its
      monitoring officer. */
  lemma ResaveFills(m: MailRecord, users: seq<User>)
    requires m.slNo != "" && m.currentHandler.Some? && UserById(users, m.assignedTo).Some?
    ensures Save(m, 0, [], users) == m.(monitoringOfficer := FilledMonitor(m, users))
  {
  }

  lemma StoredAt(env: Env, st: State, k: nat)
    requires WellFormed(env, st) && k < |st.mails|
    ensures Stored(env, st.mails[k], k)
  {
  }

  /** Replacing a row by one with the same id, serial number and assignee and a handler keeps
      the table well formed. */
  lemma ReplaceKeepsWellFormed(env: Env, st: State, k: nat, m: MailRecord, audit: seq<Audit.AuditEntry>)
    requires WellFormed(env, st) && k < |st.mails|
    requires m.id == st.mails[k].id && m.slNo == st.mails[k].slNo && m.assignedTo == st.mails[k].assignedTo
    requires m.currentHandler.Some?
    ensures WellFormed(env, State(st.mails[k := m], audit))
  {
    var after := st.mails[k := m];
    forall i | 0 <= i < |after| ensures Stored(env, after[i], i) {
      StoredAt(env, st, i);
    }
    forall i, j | 0 <= i < j < |after| ensures SlNosDiffer(after, i, j) {
      assert after[i].slNo == st.mails[i].slNo && after[j].slNo == st.mails[j].slNo;
      assert SlNosDiffer(st.mails, i, j);
    }
  }

  /** A successful create appends one row, with the next id, a serial number of the year no
      row has, status Assigned and the assignee as handler, followed by a CREATE and an ASSIGN
      row by the creator; the form is checked before the role. */
  lemma CreateStepSpec(env: Env, st: State, u: User, data: CreateData, year: nat, now: int, today: int)
    requires WellFormed(env, st)
    ensures var r := CreateStep(env, st, u, data, year, now, today);
      r.result.Success? <==>
        !CreateFieldsMissing(env, data) && ValidateCreate(data, today).Success? &&
        (u.role == AG || (u.role == DAG && u.section == Some(data.section)))
    ensures var r := CreateStep(env, st, u, data, year, now, today);
      CreateFieldsMissing(env, data) ==> r.result == Failure(FieldErrors(CreateFieldErrors(env, data)))
    ensures var r := CreateStep(env, st, u, data, year, now, today);
      r.result.Success? ==>
        var m := r.result.value;
        m.id == |st.mails| + 1 && m.status == Assigned && m.assignedTo == data.assignedTo &&
        m.currentHandler == Some(data.assignedTo) && m.section == Some(data.section) && m.createdBy == u.id &&
        m.monitoringOfficer == MonitoringOfficerOf(UserById(env.users, data.assignedTo).value, env.users) &&
        m.slNo == NextSlNoNumeric(year, SlNos(st.mails)) && InYear(year, m.slNo) &&
        (forall i :: 0 <= i < |st.mails| ==> st.mails[i].slNo != m.slNo) &&
        r.next.mails == st.mails + [m] &&
        |r.next.audit| == |st.audit| + 2 && r.next.audit[..|st.audit|] == st.audit &&
        r.next.audit[|st.audit|].action == Audit.Create && r.next.audit[|st.audit| + 1].action == Audit.Assign &&
        r.next.audit[|st.audit|].mailId == m.id && r.next.audit[|st.audit| + 1].mailId == m.id &&
        r.next.audit[|st.audit|].performedBy == u.id && r.next.audit[|st.audit| + 1].performedBy == u.id
  {
    var r := CreateStep(env, st, u, data, year, now, today);
    if r.result.Success? {
      var m := r.result.value;
      assert m.slNo !in SlNos(st.mails);
      forall i | 0 <= i < |st.mails| ensures st.mails[i].slNo != m.slNo {
        assert SlNos(st.mails)[i] == st.mails[i].slNo;
      }
    }
  }

  /** A create keeps the table well formed: in particular the new serial number is unique. */
  lemma CreateKeepsWellFormed(env: Env, st: State, u: User, data: CreateData, year: nat, now: int, today: int)
    requires WellFormed(env, st)
    ensures WellFormed(env, CreateStep(env, st, u, data, year, now, today).next)
  {
    var r := CreateStep(env, st, u, data, year, now, today);
    CreateStepSpec(env, st, u, data, year, now, today);
    if r.result.Success? {
      var m := r.result.value;
      var after := r.next.mails;
      assert UserById(env.users, m.assignedTo).Some?;
      assert |YearPrefix(year)| >= 1 && InYear(year, m.slNo);
      forall i | 0 <= i < |after| ensures Stored(env, after[i], i) {
        if i < |st.mails| { assert after[i] == st.mails[i]; }
      }
      forall i, j | 0 <= i < j < |after| ensures SlNosDiffer(after, i, j) {
        if j < |st.mails| {
          assert after[i] == st.mails[i] && after[j] == st.mails[j];
          assert SlNosDiffer(st.mails, i, j);
        } else {
          assert after[j] == m && after[i] == st.mails[i];
        }
      }
    }
  }

  /** A successful update was made by the current handler (an AG included), moves a row
      still Assigned to In Progress, sets the remarks the form gave and changes nothing else
      of the row; one UPDATE row by the handler follows. */
  lemma UpdateStepSpec(env: Env, st: State, u: User, pk: int, partial: bool, remarks: JsonIn, now: int)
    requires WellFormed(env, st)
    ensures var r := UpdateStep(env, st, u, pk, partial, remarks, now);
      r.result.Success? ==>
        1 <= pk <= |st.mails| && ValidateUpdate(remarks).Success? &&
        var m := st.mails[pk - 1];
        var given := ValidateUpdate(remarks).value;
        var n := r.result.value;
        m.currentHandler == Some(u.id) &&
        n == m.(status := (if m.status == Assigned then InProgress else m.status),
                lastStatusChange := (if m.status == Assigned then now else m.lastStatusChange),
                remarks := (match given case Omitted => m.remarks case Given(v) => v),
                monitoringOfficer := FilledMonitor(m, env.users)) &&
        r.next.mails == st.mails[pk - 1 := n] &&
        r.next.audit == st.audit + [Audit.AuditEntry(m.id, Audit.Update, u.id, now,
          Some(map["remarks" := JsonText(m.remarks)]),
          Some(map["remarks" := JsonText(n.remarks), "status" := Audit.JStr(StatusTag(n.status))]),
          Some("Updated remarks"))]
  {
    var g := UpdateChecks(env, st, u, pk, partial, remarks);
    if g.Failure? {
      UpdateRefused(env, st, u, pk, partial, remarks, now);
    } else {
      var k := g.value.k;
      UpdateGranted(env, st, u, pk, partial, remarks, now, g.value);
      GetObjectPosition(env, st, u, UpdateAction(partial), pk);
      StoredAt(env, st, k);
      assert k as int == pk - 1 && ValidateUpdate(remarks).value == g.value.given;
      UpdateApplyRow(env, st, u, g.value, now);
    }
  }

  lemma UpdateKeepsWellFormed(env: Env, st: State, u: User, pk: int, partial: bool, remarks: JsonIn, now: int)
    requires WellFormed(env, st)
    ensures WellFormed(env, UpdateStep(env, st, u, pk, partial, remarks, now).next)
  {
    var g := UpdateChecks(env, st, u, pk, partial, remarks);
    if g.Failure? {
      UpdateRefused(env, st, u, pk, partial, remarks, now);
    } else {
      UpdateGranted(env, st, u, pk, partial, remarks, now, g.value);
      var r := UpdateApply(env, st, u, g.value, now);
      StoredAt(env, st, g.value.k);
      UpdateApplyRow(env, st, u, g.value, now);
      ReplaceKeepsWellFormed(env, st, g.value.k, r.result.value, r.next.audit);
    }
  }

  /** A successful reassign hands the row to an active user In Progress, whatever its status
      was (a Closed row keeps its completion date); a DAG did it within their section to a
      user of their section, a staff officer only as the handler; one REASSIGN row follows. */
  lemma ReassignStepSpec(env: Env, st: State, u: User, pk: int, newHandler: JsonIn, remarks: JsonIn, now: int)
    requires WellFormed(env, st)
    ensures var r := ReassignStep(env, st, u, pk, newHandler, remarks, now);
      r.result.Success? ==>
        1 <= pk <= |st.mails| && ValidateReassign(newHandler, remarks).Success? &&
        var m := st.mails[pk - 1];
        var input := ValidateReassign(newHandler, remarks).value;
        var target := ActiveUserById(env.users, input.newHandler);
        var n := r.result.value;
        target.Some? && target.value.isActive && m.currentHandler.Some? &&
        (u.role == DAG ==> m.section == u.section && target.value.section == u.section) &&
        ((u.role == SrAO || u.role == AAO) ==> m.currentHandler == Some(u.id)) &&
        n == m.(currentHandler := Some(target.value.id), status := InProgress, lastStatusChange := now,
                monitoringOfficer := FilledMonitor(m, env.users)) &&
        n.dateOfCompletion == m.dateOfCompletion &&
        r.next.mails == st.mails[pk - 1 := n] &&
        r.next.audit == st.audit + [Audit.AuditEntry(m.id, Audit.Reassign, u.id, now,
          Some(map["current_handler" := Audit.JStr(FullName(env.users, m.currentHandler.value))]),
          Some(map["current_handler" := Audit.JStr(target.value.fullName), "status" := Audit.JStr("In Progress")]),
          Some(input.remarks))]
  {
    var g := ReassignChecks(env, st, u, pk, newHandler, remarks);
    if g.Failure? {
      ReassignRefused(env, st, u, pk, newHandler, remarks, now);
    } else {
      var k := g.value.k;
      ReassignGranted(env, st, u, pk, newHandler, remarks, now, g.value);
      GetObjectPosition(env, st, u, Permissions.Reassign, pk);
      StoredAt(env, st, k);
      assert k as int == pk - 1 && ValidateReassign(newHandler, remarks).value == g.value.input;
      assert ActiveUserById(env.users, g.value.input.newHandler) == Some(g.value.target);
      ReassignApplyRow(env, st, u, g.value, now);
    }
  }

  lemma ReassignKeepsWellFormed(env: Env, st: State, u: User, pk: int, newHandler: JsonIn, remarks: JsonIn, now: int)
    requires WellFormed(env, st)
    ensures WellFormed(env, ReassignStep(env, st, u, pk, newHandler, remarks, now).next)
  {
    var g := ReassignChecks(env, st, u, pk, newHandler, remarks);
    if g.Failure? {
      ReassignRefused(env, st, u, pk, newHandler, remarks, now);
    } else {
      ReassignGranted(env, st, u, pk, newHandler, remarks, now, g.value);
      var r := ReassignApply(env, st, u, g.value, now);
      StoredAt(env, st, g.value.k);
      ReassignApplyRow(env, st, u, g.value, now);
      ReplaceKeepsWellFormed(env, st, g.value.k, r.result.value, r.next.audit);
    }
  }

  /** A successful close was of a row not yet Closed: it is Closed today with the stripped
      reason as remarks; one CLOSE row follows. */
  lemma CloseStepSpec(env: Env, st: State, u: User, pk: int, remarks: JsonIn, now: int, today: int)
    requires WellFormed(env, st)
    ensures var r := CloseStep(env, st, u, pk, remarks, now, today);
      r.result.Success? ==>
        1 <= pk <= |st.mails| && ValidateClose(remarks).Success? &&
        var m := st.mails[pk - 1];
        var reason := ValidateClose(remarks).value;
        var n := r.result.value;
        m.status != Closed && reason != "" &&
        n == m.(status := Closed, dateOfCompletion := Some(today), lastStatusChange := now, remarks := Some(reason),
                monitoringOfficer := FilledMonitor(m, env.users)) &&
        r.next.mails == st.mails[pk - 1 := n] &&
        r.next.audit == st.audit + [Audit.AuditEntry(m.id, Audit.Close, u.id, now,
          Some(map["status" := Audit.JStr(StatusTag(m.status))]),
          Some(map["status" := Audit.JStr("Closed"), "date_of_completion" := Audit.JDate(today)]),
          Some(reason))]
  {
    var g := CloseChecks(env, st, u, pk, remarks);
    if g.Failure? {
      CloseRefused(env, st, u, pk, remarks, now, today);
    } else {
      var k := g.value.k;
      CloseGranted(env, st, u, pk, remarks, now, today, g.value);
      GetObjectPosition(env, st, u, Permissions.Close, pk);
      StoredAt(env, st, k);
      assert k as int == pk - 1 && ValidateClose(remarks).value == g.value.reason;
      CloseApplyRow(env, st, u, g.value, now, today);
    }
  }

  lemma CloseKeepsWellFormed(env: Env, st: State, u: User, pk: int, remarks: JsonIn, now: int, today: int)
    requires WellFormed(env, st)
    ensures WellFormed(env, CloseStep(env, st, u, pk, remarks, now, today).next)
  {
    var g := CloseChecks(env, st, u, pk, remarks);
    if g.Failure? {
      CloseRefused(env, st, u, pk, remarks, now, today);
    } else {
      CloseGranted(env, st, u, pk, remarks, now, today, g.value);
      var r := CloseApply(env, st, u, g.value, now, today);
      StoredAt(env, st, g.value.k);
      CloseApplyRow(env, st, u, g.value, now, today);
      ReplaceKeepsWellFormed(env, st, g.value.k, r.result.value, r.next.audit);
    }
  }

  /** Closing a row that is already Closed answers 400 and writes nothing. */
  lemma CloseRejectsClosed(env: Env, st: State, u: User, pk: int, remarks: JsonIn, now: int, today: int)
    requires WellFormed(env, st)
    requires GetObject(u, Permissions.Close, pk, st.mails, DbOf(env, st)).Success?
    requires st.mails[GetObject(u, Permissions.Close, pk, st.mails, DbOf(env, st)).value].status == Closed
    requires ValidateClose(remarks).Success?
    ensures CloseStep(env, st, u, pk, remarks, now, today) == Step(Failure(BadRequest("This mail is already closed.")), st)
  {
  }

  /** A successful reopen was by an AG, of a Closed row, with truthy remarks: the row is In
      Progress again without a completion date; one REOPEN row follows. */
  lemma ReopenStepSpec(env: Env, st: State, u: User, pk: int, remarks: JsonIn, now: int)
    requires WellFormed(env, st)
    ensures var r := ReopenStep(env, st, u, pk, remarks, now);
      r.result.Success? ==>
        1 <= pk <= |st.mails| && u.role == AG && Truthy(remarks) &&
        var m := st.mails[pk - 1];
        var n := r.result.value;
        m.status == Closed &&
        n == m.(status := InProgress, dateOfCompletion := None, lastStatusChange := now,
                monitoringOfficer := FilledMonitor(m, env.users)) &&
        r.next.mails == st.mails[pk - 1 := n] &&
        r.next.audit == st.audit + [Audit.AuditEntry(m.id, Audit.Reopen, u.id, now,
          Some(map["status" := Audit.JStr("Closed")]), Some(map["status" := Audit.JStr("In Progress")]),
          Some(PyStr(remarks)))]
  {
    var g := ReopenChecks(env, st, u, pk, remarks);
    if g.Failure? {
      ReopenRefused(env, st, u, pk, remarks, now);
    } else {
      var k := g.value;
      ReopenGranted(env, st, u, pk, remarks, now, k);
      GetObjectPosition(env, st, u, Permissions.Reopen, pk);
      StoredAt(env, st, k);
      assert k as int == pk - 1 && u.role == AG && Truthy(remarks);
      ReopenRowOfClosed(st.mails[k], remarks, u, now);
      ReopenApplyRow(env, st, u, k, remarks, now);
    }
  }

  lemma ReopenKeepsWellFormed(env: Env, st: State, u: User, pk: int, remarks: JsonIn, now: int)
    requires WellFormed(env, st)
    ensures WellFormed(env, ReopenStep(env, st, u, pk, remarks, now).next)
  {
    var g := ReopenChecks(env, st, u, pk, remarks);
    if g.Failure? {
      ReopenRefused(env, st, u, pk, remarks, now);
    } else {
      ReopenGranted(env, st, u, pk, remarks, now, g.value);
      var r := ReopenApply(env, st, u, g.value, remarks, now);
      StoredAt(env, st, g.value);
      ResaveFills(Reopened(st.mails[g.value], now), env.users);
      ReplaceKeepsWellFormed(env, st, g.value, r.result.value, r.next.audit);
    }
  }

  /** Only an AG reopens: every other role's reopen fails and changes nothing. */
  lemma ReopenOnlyByAg(env: Env, st: State, u: User, pk: int, remarks: JsonIn, now: int)
    requires WellFormed(env, st) && u.role != AG
    ensures var r := ReopenStep(env, st, u, pk, remarks, now);
      r.result.Failure? && r.next == st
    ensures var r := ReopenStep(env, st, u, pk, remarks, now);
      r.result == Failure(NotFound) || r.result == Failure(Forbidden(PermissionDenied))
    ensures var r := ReopenStep(env, st, u, pk, remarks, now);
      r.result == Failure(NotFound) <==>
        forall i :: 0 <= i < |st.mails| && st.mails[i].id == pk ==> !InQueryset(u, st.mails[i], st.audit)
  {
    var g := GetObject(u, Permissions.Reopen, pk, st.mails, DbOf(env, st));
    if g.Success? {
      Permissions.NonAgObjectRules(u, st.mails[g.value], DbOf(env, st));
      assert false;
    }
  }

  /** A valid create form from a user who is neither AG nor DAG is refused with 403 and
      writes nothing. */
  lemma CreateRefusesOtherRoles(env: Env, st: State, u: User, data: CreateData, year: nat, now: int, today: int)
    requires WellFormed(env, st) && u.role != AG && u.role != DAG
    requires !CreateFieldsMissing(env, data) && ValidateCreate(data, today).Success?
    ensures CreateStep(env, st, u, data, year, now, today) ==
      Step(Failure(Forbidden("You do not have permission to create mail records.")), st)
  {
  }

  /** A DAG creating a mail for another section is refused with 403 and writes nothing. */
  lemma CreateRefusesForeignSection(env: Env, st: State, u: User, data: CreateData, year: nat, now: int, today: int)
    requires WellFormed(env, st) && u.role == DAG && u.section != Some(data.section)
    requires !CreateFieldsMissing(env, data) && ValidateCreate(data, today).Success?
    ensures CreateStep(env, st, u, data, year, now, today) ==
      Step(Failure(Forbidden("You can only create mails for your section.")), st)
  {
  }

  /** A reassign to an unknown or inactive user is refused with 400 and writes nothing. */
  lemma ReassignRefusesUnknownTarget(env: Env, st: State, u: User, pk: int, newHandler: JsonIn, remarks: JsonIn, now: int)
    requires WellFormed(env, st)
    requires GetObject(u, Permissions.Reassign, pk, st.mails, DbOf(env, st)).Success?
    requires ValidateReassign(newHandler, remarks).Success?
    requires ActiveUserById(env.users, ValidateReassign(newHandler, remarks).value.newHandler).None?
    ensures ReassignStep(env, st, u, pk, newHandler, remarks, now) == Step(Failure(BadRequest("Invalid user selected.")), st)
  {
    ReassignRefused(env, st, u, pk, newHandler, remarks, now);
  }

  /** After an AG's lookup, a reopen of a row that is not Closed is refused first, then one
      without remarks; both with 400 and nothing written. */
  lemma ReopenErrorOrder(env: Env, st: State, u: User, pk: int, remarks: JsonIn, now: int)
    requires WellFormed(env, st) && u.role == AG
    requires GetObject(u, Permissions.Reopen, pk, st.mails, DbOf(env, st)).Success?
    ensures var k := GetObject(u, Permissions.Reopen, pk, st.mails, DbOf(env, st)).value;
      st.mails[k].status != Closed ==>
        ReopenStep(env, st, u, pk, remarks, now) == Step(Failure(BadRequest("This mail is not closed.")), st)
    ensures var k := GetObject(u, Permissions.Reopen, pk, st.mails, DbOf(env, st)).value;
      st.mails[k].status == Closed && !Truthy(remarks) ==>
        ReopenStep(env, st, u, pk, remarks, now) == Step(Failure(BadRequest("Remarks are required for reopening.")), st)
  {
    if ReopenChecks(env, st, u, pk, remarks).Failure? {
      ReopenRefused(env, st, u, pk, remarks, now);
    }
  }

  /** An AG finds every row of a well-formed table. */
  lemma AgFindsEveryRow(env: Env, st: State, u: User, a: Permissions.Action, pk: int)
    requires WellFormed(env, st) && u.role == AG && 1 <= pk <= |st.mails|
    ensures GetObject(u, a, pk, st.mails, DbOf(env, st)) == Success(pk - 1)
  {
    StoredAt(env, st, pk - 1);
    GetObjectPosition(env, st, u, a, pk);
    Permissions.AgPassesObjectChecks(u, a, st.mails[pk - 1], DbOf(env, st), None);
  }

  /** An AG's close followed by an AG's reopen with remarks leaves the row In Progress
      without a completion date, with the close reason as its remarks and the same handler;
      the audit table gains a CLOSE row and then a REOPEN row. */
  lemma CloseThenReopen(env: Env, st: State, u: User, pk: int, closeRemarks: JsonIn, reopenRemarks: JsonIn,
                        closedAt: int, today: int, reopenedAt: int)
    requires WellFormed(env, st) && u.role == AG
    requires CloseStep(env, st, u, pk, closeRemarks, closedAt, today).result.Success?
    requires Truthy(reopenRemarks)
    ensures var c := CloseStep(env, st, u, pk, closeRemarks, closedAt, today);
      WellFormed(env, c.next) && 1 <= pk <= |st.mails| &&
      var o := ReopenStep(env, c.next, u, pk, reopenRemarks, reopenedAt);
      o.result.Success? && o.result.value.status == InProgress && o.result.value.dateOfCompletion.None? &&
      o.result.value.remarks == Some(ValidateClose(closeRemarks).value) &&
      o.result.value.currentHandler == st.mails[pk - 1].currentHandler &&
      |o.next.audit| == |st.audit| + 2 &&
      o.next.audit[|st.audit|].action == Audit.Close && o.next.audit[|st.audit| + 1].action == Audit.Reopen
  {
    CloseOutcome(env, st, u, pk, closeRemarks, closedAt, today);
    var c := CloseStep(env, st, u, pk, closeRemarks, closedAt, today);
    ReopenAfterClose(env, c.next, u, pk, reopenRemarks, reopenedAt);
    var o := ReopenStep(env, c.next, u, pk, reopenRemarks, reopenedAt);
    assert o.next.audit[|st.audit|] == o.next.audit[..|c.next.audit|][|st.audit|];
  }

  /** A close the object gate lets through, of an open row, with a non-blank reason,
      succeeds: the row is Closed today with the reason as its remarks, and exactly its
      CLOSE row follows. */
  lemma ClosePermittedSucceeds(env: Env, st: State, u: User, pk: int, remarks: JsonIn, now: int, today: int, k: nat)
    requires WellFormed(env, st)
    requires GetObject(u, Permissions.Close, pk, st.mails, DbOf(env, st)) == Success(k)
    requires k < |st.mails| && st.mails[k].status != Closed
    requires ValidateClose(remarks).Success?
    ensures var m := st.mails[k];
      var reason := ValidateClose(remarks).value;
      var r := CloseStep(env, st, u, pk, remarks, now, today);
      r.result.Success? &&
      r.result.value == m.(status := Closed, dateOfCompletion := Some(today), lastStatusChange := now,
                           remarks := Some(reason), monitoringOfficer := FilledMonitor(m, env.users)) &&
      r.next.mails == st.mails[k := r.result.value]
    ensures CloseStep(env, st, u, pk, remarks, now, today).next.audit ==
      st.audit + [CloseRow(st.mails[k], ValidateClose(remarks).value, u, now, today)]
  {
    var g := CloseGrant(k, ValidateClose(remarks).value);
    CloseGranted(env, st, u, pk, remarks, now, today, g);
    StoredAt(env, st, k);
    CloseApplyRow(env, st, u, g, now, today);
  }

  /** An AG closes any open row of a well-formed table when the reason is not blank: the row
      with id `k + 1` is Closed today with the reason as its remarks, and one CLOSE row follows. */
  lemma AgClosesOpenRow(env: Env, st: State, u: User, k: nat, remarks: JsonIn, now: int, today: int)
    requires WellFormed(env, st) && u.role == AG && k < |st.mails|
    requires st.mails[k].status != Closed && ValidateClose(remarks).Success?
    ensures var r := CloseStep(env, st, u, k + 1, remarks, now, today);
      r.result.Success? && r.result.value.status == Closed && r.result.value.dateOfCompletion == Some(today) &&
      r.result.value.remarks == Some(ValidateClose(remarks).value) &&
      r.next.audit == st.audit + [CloseRow(st.mails[k], ValidateClose(remarks).value, u, now, today)]
  {
    AgFindsEveryRow(env, st, u, Permissions.Close, k + 1);
    ClosePermittedSucceeds(env, st, u, k + 1, remarks, now, today, k);
  }

  /** What a successful close leaves for the next request. */
  lemma CloseOutcome(env: Env, st: State, u: User, pk: int, remarks: JsonIn, now: int, today: int)
    requires WellFormed(env, st)
    requires CloseStep(env, st, u, pk, remarks, now, today).result.Success?
    ensures var c := CloseStep(env, st, u, pk, remarks, now, today);
      WellFormed(env, c.next) && 1 <= pk <= |c.next.mails| && |c.next.mails| == |st.mails| &&
      c.next.mails[pk - 1].status == Closed &&
      c.next.mails[pk - 1].remarks == Some(ValidateClose(remarks).value) &&
      c.next.mails[pk - 1].currentHandler == st.mails[pk - 1].currentHandler &&
      |c.next.audit| == |st.audit| + 1 && c.next.audit[|st.audit|].action == Audit.Close
  {
    CloseStepSpec(env, st, u, pk, remarks, now, today);
    CloseKeepsWellFormed(env, st, u, pk, remarks, now, today);
  }

  /** An AG reopens any Closed row of a well-formed table when the remarks are truthy. */
  lemma ReopenAfterClose(env: Env, st: State, u: User, pk: int, remarks: JsonIn, now: int)
    requires WellFormed(env, st) && u.role == AG && 1 <= pk <= |st.mails|
    requires st.mails[pk - 1].status == Closed && Truthy(remarks)
    ensures var o := ReopenStep(env, st, u, pk, remarks, now);
      var m := st.mails[pk - 1];
      o.result.Success? && o.result.value.status == InProgress && o.result.value.dateOfCompletion.None? &&
      o.result.value.remarks == m.remarks && o.result.value.currentHandler == m.currentHandler &&
      |o.next.audit| == |st.audit| + 1 && o.next.audit[..|st.audit|] == st.audit &&
      o.next.audit[|st.audit|].action == Audit.Reopen
  {
    AgFindsEveryRow(env, st, u, Permissions.Reopen, pk);
    ReopenChecksAfterLookup(env, st, u, pk, remarks, pk - 1);
    ReopenGranted(env, st, u, pk, remarks, now, pk - 1);
    StoredAt(env, st, pk - 1);
    ReopenApplyKeeps(env, st, u, pk - 1, remarks, now);
  }

  /** A granted reopen keeps the row's remarks and handler and appends one REOPEN row. */
  lemma ReopenApplyKeeps(env: Env, st: State, u: User, k: nat, remarks: JsonIn, now: int)
    requires k < |st.mails| && UserById(env.users, st.mails[k].assignedTo).Some?
    requires st.mails[k].slNo != "" && st.mails[k].currentHandler.Some?
    ensures var o := ReopenApply(env, st, u, k, remarks, now);
      var m := st.mails[k];
      o.result.Success? && o.result.value.status == InProgress && o.result.value.dateOfCompletion.None? &&
      o.result.value.remarks == m.remarks && o.result.value.currentHandler == m.currentHandler &&
      |o.next.audit| == |st.audit| + 1 && o.next.audit[..|st.audit|] == st.audit &&
      o.next.audit[|st.audit|].action == Audit.Reopen
  {
    ReopenApplyRow(env, st, u, k, remarks, now);
    var o := ReopenApply(env, st, u, k, remarks, now);
    assert o.next.audit[..|st.audit|] == st.audit;
  }

  /** Once the lookup has found row k, an AG's reopen of a Closed row with truthy remarks
      passes the remaining checks. */
  lemma ReopenChecksAfterLookup(env: Env, st: State, u: User, pk: int, remarks: JsonIn, k: nat)
    requires GetObject(u, Permissions.Reopen, pk, st.mails, DbOf(env, st)) == Success(k) && k < |st.mails|
    requires u.role == AG && st.mails[k].status == Closed && Truthy(remarks)
    ensures ReopenChecks(env, st, u, pk, remarks) == Success(k)
  {
  }

  /** Whoever reassigns a row away keeps it in their list: the REASSIGN row names them. */
  lemma ReassignerStillListsMail(env: Env, st: State, u: User, pk: int, newHandler: JsonIn, remarks: JsonIn, now: int)
    requires WellFormed(env, st)
    requires ReassignStep(env, st, u, pk, newHandler, remarks, now).result.Success?
    ensures var r := ReassignStep(env, st, u, pk, newHandler, remarks, now);
      InQueryset(u, r.result.value, r.next.audit)
  {
    var r := ReassignStep(env, st, u, pk, newHandler, remarks, now);
    ReassignStepSpec(env, st, u, pk, newHandler, remarks, now);
    var last := |r.next.audit| - 1;
    assert r.next.audit[last].performedBy == u.id && r.next.audit[last].mailId == r.result.value.id;
  }

  // ----- the viewset on its tables -----

  /** The mail table and the audit table the viewset works on, with what it only reads. */
  class MailDesk {
    const env: Env
    var mails: seq<MailRecord>
    const trail: Audit.AuditTrail

    function StateOf(): State
      reads this, trail
    {
      State(mails, trail.entries)
    }

    ghost predicate Valid()
      reads this, trail
    {
      WellFormed(env, StateOf())
    }

    /** An empty mail table beside an existing audit table. */
    constructor(env: Env, trail: Audit.AuditTrail)
      ensures this.env == env && this.trail == trail && mails == []
      ensures Valid()
    {
      this.env := env;
      this.trail := trail;
      mails := [];
    }

    method Create(u: User, data: CreateData, year: nat, now: int, today: int) returns (r: Result<MailRecord, HttpError>)
      requires Valid()
      modifies this, trail
      ensures Valid()
      ensures var step := CreateStep(env, old(StateOf()), u, data, year, now, today);
        r == step.result && StateOf() == step.next
    {
      CreateKeepsWellFormed(env, StateOf(), u, data, year, now, today);
      var g := CreateChecks(env, u, data, today);
      if g.Failure? {
        return Failure(g.error);
      }
      var m := ApplyCreate(u, data, g.value, year, now);
      r := Success(m);
    }

    /** The write of a granted create: the new row, then its CREATE and ASSIGN rows. */
    method ApplyCreate(u: User, data: CreateData, assignee: User, year: nat, now: int) returns (m: MailRecord)
      requires data.dueDate.Some? && data.actionRequired.Some? && UserById(env.users, data.assignedTo) == Some(assignee)
      modifies this, trail
      ensures m == CreatedMail(env, old(StateOf()), u, data, assignee, year, now)
      ensures StateOf() == State(old(mails) + [m],
        old(trail.entries) + [CreateRow(m, u, data, assignee, now), AssignRow(m, u, assignee, now)])
    {
      m := CreatedMail(env, StateOf(), u, data, assignee, year, now);
      mails := mails + [m];
      var c := CreateRow(m, u, data, assignee, now);
      var createEntry := trail.Record(c.mailId, c.action, c.performedBy, c.timestamp, c.oldValue, c.newValue, c.remarks);
      var d := AssignRow(m, u, assignee, now);
      var assignEntry := trail.Record(d.mailId, d.action, d.performedBy, d.timestamp, d.oldValue, d.newValue, d.remarks);
      assert trail.entries == old(trail.entries) + [c, d];
    }

    method Update(u: User, pk: int, partial: bool, remarks: JsonIn, now: int) returns (r: Result<MailRecord, HttpError>)
      requires Valid()
      modifies this, trail
      ensures Valid()
      ensures var step := UpdateStep(env, old(StateOf()), u, pk, partial, remarks, now);
        r == step.result && StateOf() == step.next
    {
      UpdateKeepsWellFormed(env, StateOf(), u, pk, partial, remarks, now);
      var g := UpdateChecks(env, StateOf(), u, pk, partial, remarks);
      if g.Failure? {
        UpdateRefused(env, StateOf(), u, pk, partial, remarks, now);
        return Failure(g.error);
      }
      UpdateGranted(env, StateOf(), u, pk, partial, remarks, now, g.value);
      var saved := ApplyUpdate(u, g.value, now);
      r := Success(saved);
    }

    /** The write of a granted update: the row updated and saved, then its UPDATE row. */
    method ApplyUpdate(u: User, g: UpdateGrant, now: int) returns (saved: MailRecord)
      requires g.k < |mails| && UserById(env.users, mails[g.k].assignedTo).Some?
      modifies this, trail
      ensures var step := UpdateApply(env, old(StateOf()), u, g, now);
        step.result == Success(saved) && StateOf() == step.next
    {
      var m := mails[g.k];
      saved := Save(Updated(m, g.given, now), 0, [], env.users);
      mails := mails[g.k := saved];
      var x := UpdateRow(m, saved, u, now);
      var e := trail.Record(x.mailId, x.action, x.performedBy, x.timestamp, x.oldValue, x.newValue, x.remarks);
      assert e == x;
    }

    method Reassign(u: User, pk: int, newHandler: JsonIn, remarks: JsonIn, now: int) returns (r: Result<MailRecord, HttpError>)
      requires Valid()
      modifies this, trail
      ensures Valid()
      ensures var step := ReassignStep(env, old(StateOf()), u, pk, newHandler, remarks, now);
        r == step.result && StateOf() == step.next
    {
      ReassignKeepsWellFormed(env, StateOf(), u, pk, newHandler, remarks, now);
      var g := ReassignChecks(env, StateOf(), u, pk, newHandler, remarks);
      if g.Failure? {
        ReassignRefused(env, StateOf(), u, pk, newHandler, remarks, now);
        return Failure(g.error);
      }
      ReassignGranted(env, StateOf(), u, pk, newHandler, remarks, now, g.value);
      var saved := ApplyReassign(u, g.value, now);
      r := Success(saved);
    }

    /** The write of a granted reassign: the row handed over and saved, then its REASSIGN row. */
    method ApplyReassign(u: User, g: ReassignGrant, now: int) returns (saved: MailRecord)
      requires g.k < |mails| && UserById(env.users, mails[g.k].assignedTo).Some? && mails[g.k].currentHandler.Some?
      modifies this, trail
      ensures var step := ReassignApply(env, old(StateOf()), u, g, now);
        step.result == Success(saved) && StateOf() == step.next
    {
      var m := mails[g.k];
      saved := Save(Reassigned(m, g.target, now), 0, [], env.users);
      mails := mails[g.k := saved];
      var x := ReassignRow(env, m, g, u, now);
      var e := trail.Record(x.mailId, x.action, x.performedBy, x.timestamp, x.oldValue, x.newValue, x.remarks);
      assert e == x;
    }

    method Close(u: User, pk: int, remarks: JsonIn, now: int, today: int) returns (r: Result<MailRecord, HttpError>)
      requires Valid()
      modifies this, trail
      ensures Valid()
      ensures var step := CloseStep(env, old(StateOf()), u, pk, remarks, now, today);
        r == step.result && StateOf() == step.next
    {
      CloseKeepsWellFormed(env, StateOf(), u, pk, remarks, now, today);
      var g := CloseChecks(env, StateOf(), u, pk, remarks);
      if g.Failure? {
        CloseRefused(env, StateOf(), u, pk, remarks, now, today);
        return Failure(g.error);
      }
      CloseGranted(env, StateOf(), u, pk, remarks, now, today, g.value);
      var saved := ApplyClose(u, g.value, now, today);
      r := Success(saved);
    }

    /** The write of a granted close: the row closed and saved, then its CLOSE row. */
    method ApplyClose(u: User, g: CloseGrant, now: int, today: int) returns (saved: MailRecord)
      requires g.k < |mails| && UserById(env.users, mails[g.k].assignedTo).Some?
      modifies this, trail
      ensures var step := CloseApply(env, old(StateOf()), u, g, now, today);
        step.result == Success(saved) && StateOf() == step.next
    {
      var m := mails[g.k];
      saved := Save(Closes(m, g.reason, now, today), 0, [], env.users);
      mails := mails[g.k := saved];
      var x := CloseRow(m, g.reason, u, now, today);
      var e := trail.Record(x.mailId, x.action, x.performedBy, x.timestamp, x.oldValue, x.newValue, x.remarks);
      assert e == x;
    }

    method Reopen(u: User, pk: int, remarks: JsonIn, now: int) returns (r: Result<MailRecord, HttpError>)
      requires Valid()
      modifies this, trail
      ensures Valid()
      ensures var step := ReopenStep(env, old(StateOf()), u, pk, remarks, now);
        r == step.result && StateOf() == step.next
    {
      ReopenKeepsWellFormed(env, StateOf(), u, pk, remarks, now);
      var g := ReopenChecks(env, StateOf(), u, pk, remarks);
      if g.Failure? {
        ReopenRefused(env, StateOf(), u, pk, remarks, now);
        return Failure(g.error);
      }
      ReopenGranted(env, StateOf(), u, pk, remarks, now, g.value);
      var saved := ApplyReopen(u, g.value, remarks, now);
      r := Success(saved);
    }

    /** The write of a granted reopen: the row reopened and saved, then its REOPEN row. */
    method ApplyReopen(u: User, k: nat, remarks: JsonIn, now: int) returns (saved: MailRecord)
      requires k < |mails| && UserById(env.users, mails[k].assignedTo).Some?
      modifies this, trail
      ensures var step := ReopenApply(env, old(StateOf()), u, k, remarks, now);
        step.result == Success(saved) && StateOf() == step.next
    {
      var m := mails[k];
      saved := Save(Reopened(m, now), 0, [], env.users);
      mails := mails[k := saved];
      var x := ReopenRow(m, remarks, u, now);
      var e := trail.Record(x.mailId, x.action, x.performedBy, x.timestamp, x.oldValue, x.newValue, x.remarks);
      assert e == x;
    }
  }
}
