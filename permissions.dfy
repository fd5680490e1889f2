/** The permission class of the mail endpoints (backend/config/permissions.py): an
    endpoint-level allow-list, a per-role visibility rule with a per-request cache of the
    mails the user appears on in the audit log, and the per-action object-level gate. */
module Permissions {
  import opened Wrappers
  import opened Org
  import opened Records
  import Audit

  /** The view action of a request. `OtherAction` is any action name not listed here. */
  datatype Action =
    | List | Retrieve | Create | Update | PartialUpdate | Destroy | Close | Reassign | Reopen
    | MultiAssign | Assignments | UpdateAssignment | CompleteAssignment | AddAssignmentRemark
    | ReassignAssignment | UpdateCurrentAction | ReassignCandidates
    | UploadPdf | GetPdfMetadata | ViewPdf
    | OtherAction(name: string)

  datatype Requester = Anonymous | Authenticated(user: User)

  /** What the permission layer reads from the database: users, parallel assignments, the
      audit log, and the section each subsection belongs to. */
  datatype Db = Db(
    users: seq<User>,
    assignments: seq<MailAssignment>,
    audit: seq<Audit.AuditEntry>,
    subsectionSection: map<Id, Id>)

  /** The actions `has_permission` lets through for a signed-in user. */
  predicate Allowed(a: Action) {
    a in {List, Retrieve}
    || a == Create
    || a in {Update, PartialUpdate, Close, Reassign, Reopen}
    || a in {MultiAssign, Assignments, UpdateAssignment, CompleteAssignment, AddAssignmentRemark,
             ReassignAssignment, UpdateCurrentAction, ReassignCandidates,
             UploadPdf, GetPdfMetadata, ViewPdf}
  }

  /** `has_permission`. */
  predicate HasPermission(req: Requester, a: Action) {
    match req
    case Anonymous => false
    case Authenticated(_) => Allowed(a)
  }

  /** An anonymous request is refused everything; a signed-in one is refused exactly the
      actions outside the allow-list (destroy and any unlisted action). */
  lemma HasPermissionRule(req: Requester, a: Action)
    ensures req.Anonymous? ==> !HasPermission(req, a)
    ensures req.Authenticated? ==> (HasPermission(req, a) <==> !(a.Destroy? || a.OtherAction?))
  {
  }

  // ----- visibility -----

  predicate ManagesSection(u: User, m: MailRecord) {
    m.section.Some? && m.section.value in u.sections
  }

  predicate IsHandler(u: User, m: MailRecord) { m.currentHandler == Some(u.id) }

  predicate HoldsActiveAssignment(db: Db, m: MailRecord, uid: Id) {
    exists i :: 0 <= i < |db.assignments| && ActiveFor(db.assignments[i], m.id, uid)
  }

  /** An active user whose subsection belongs to one of the given sections. */
  predicate IsSectionOfficer(db: Db, v: User, sections: set<Id>) {
    v.isActive && v.subsection.Some? && v.subsection.value in db.subsectionSection
    && db.subsectionSection[v.subsection.value] in sections
  }

  predicate OpenOrDone(a: MailAssignment) { a.status == Active || a.status == Completed }

  /** One of the DAG's section officers holds an Active or Completed assignment on the mail. */
  predicate OfficerAssignment(db: Db, m: MailRecord, u: User) {
    u.sections != {}
    && (exists i, j :: 0 <= i < |db.assignments| && 0 <= j < |db.users|
          && db.assignments[i].mailId == m.id && OpenOrDone(db.assignments[i])
          && db.users[j].id == db.assignments[i].assignedTo && IsSectionOfficer(db, db.users[j], u.sections))
  }

  predicate Touched(db: Db, m: MailRecord, u: User) {
    m.id in Audit.TouchedIds(db.audit, u.id)
  }

  predicate DagCanView(u: User, m: MailRecord, db: Db) {
    ManagesSection(u, m) || HoldsActiveAssignment(db, m, u.id) || OfficerAssignment(db, m, u) || Touched(db, m, u)
  }

  predicate StaffCanView(u: User, m: MailRecord, db: Db) {
    (u.subsection.Some? && m.subsection == u.subsection)
    || IsHandler(u, m) || m.assignedTo == u.id
    || HoldsActiveAssignment(db, m, u.id) || Touched(db, m, u)
  }

  predicate ClerkCanView(u: User, m: MailRecord, db: Db) {
    IsHandler(u, m) || m.assignedTo == u.id || m.createdBy == u.id || HoldsActiveAssignment(db, m, u.id)
  }

  /** A configured subsection of the auditor that belongs to the mail's section. */
  predicate AuditorSectionMatch(u: User, m: MailRecord, db: Db) {
    m.section.Some? && exists s :: s in u.auditorSubsections && s in db.subsectionSection && db.subsectionSection[s] == m.section.value
  }

  predicate AuditorCanView(u: User, m: MailRecord, db: Db) {
    u.auditorSubsections != {}
    && ((m.subsection.Some? && m.subsection.value in u.auditorSubsections)
        || (m.subsection.None? && AuditorSectionMatch(u, m, db)))
  }

  /** `_can_view_mail` without its cache: the reference definition. It is False for AG, which
      is decided before it is consulted. */
  predicate CanView(u: User, m: MailRecord, db: Db) {
    match u.role
    case DAG => DagCanView(u, m, db)
    case SrAO => StaffCanView(u, m, db)
    case AAO => StaffCanView(u, m, db)
    case Clerk => ClerkCanView(u, m, db)
    case Auditor => AuditorCanView(u, m, db)
    case AG => false
  }

  /** The request's touched-ids cache is sound when it is empty or holds the true set. */
  predicate CacheSound(cache: Option<set<Id>>, db: Db, u: User) {
    cache.None? || cache.value == Audit.TouchedIds(db.audit, u.id)
  }

  datatype Outcome = Outcome(allowed: bool, cache: Option<set<Id>>)

  /** The touched ids, read from the cache when present, otherwise computed and stored. */
  function TouchedLookup(m: MailRecord, db: Db, u: User, cache: Option<set<Id>>): (r: Outcome)
    ensures CacheSound(cache, db, u) ==> r.allowed == Touched(db, m, u) && CacheSound(r.cache, db, u)
    ensures r.cache.Some? && (cache.Some? ==> r.cache == cache)
    ensures cache.None? ==> r.cache == Some(Audit.TouchedIds(db.audit, u.id))
  {
    var ids := if cache.Some? then cache.value else Audit.TouchedIds(db.audit, u.id);
    Outcome(m.id in ids, Some(ids))
  }

  /** `_can_view_mail` as written: the audit log is consulted last, through the cache. */
  function CanViewCached(u: User, m: MailRecord, db: Db, cache: Option<set<Id>>): (r: Outcome)
    ensures CacheSound(cache, db, u) ==> r.allowed == CanView(u, m, db) && CacheSound(r.cache, db, u)
    ensures cache.Some? ==> r.cache == cache
    ensures r.cache == cache || (cache.None? && r.cache == Some(Audit.TouchedIds(db.audit, u.id)))
  {
    match u.role
    case DAG =>
      if ManagesSection(u, m) || HoldsActiveAssignment(db, m, u.id) || OfficerAssignment(db, m, u) then
        Outcome(true, cache)
      else TouchedLookup(m, db, u, cache)
    case SrAO => StaffViewCached(u, m, db, cache)
    case AAO => StaffViewCached(u, m, db, cache)
    case Clerk => Outcome(ClerkCanView(u, m, db), cache)
    case Auditor => Outcome(AuditorCanView(u, m, db), cache)
    case AG => Outcome(false, cache)
  }

  function StaffViewCached(u: User, m: MailRecord, db: Db, cache: Option<set<Id>>): (r: Outcome)
    ensures CacheSound(cache, db, u) ==> r.allowed == StaffCanView(u, m, db) && CacheSound(r.cache, db, u)
    ensures cache.Some? ==> r.cache == cache
    ensures r.cache == cache || (cache.None? && r.cache == Some(Audit.TouchedIds(db.audit, u.id)))
  {
    if (u.subsection.Some? && m.subsection == u.subsection) || IsHandler(u, m) || m.assignedTo == u.id
       || HoldsActiveAssignment(db, m, u.id) then
      Outcome(true, cache)
    else TouchedLookup(m, db, u, cache)
  }

  /** The decision is the same whether the cache was filled or not, and a later check in the same
      request that reuses the cache left by an earlier one still decides by the reference rule. */
  lemma CacheDoesNotChangeDecision(u: User, m1: MailRecord, m2: MailRecord, db: Db)
    ensures CanViewCached(u, m1, db, None).allowed == CanViewCached(u, m1, db, Some(Audit.TouchedIds(db.audit, u.id))).allowed
    ensures CanViewCached(u, m2, db, CanViewCached(u, m1, db, None).cache).allowed == CanView(u, m2, db)
  {
    var c := CanViewCached(u, m1, db, None).cache;
    assert CacheSound(c, db, u);
  }

  /** A clerk sees a mail only as its handler, assignee or creator, or through an Active
      assignment. */
  lemma ClerkViewOnlyIf(u: User, m: MailRecord, db: Db)
    requires u.role == Clerk && CanView(u, m, db)
    ensures IsHandler(u, m) || m.assignedTo == u.id || m.createdBy == u.id
      || exists i :: 0 <= i < |db.assignments| && db.assignments[i].status == Active
           && db.assignments[i].mailId == m.id && db.assignments[i].assignedTo == u.id
  {
    if !(IsHandler(u, m) || m.assignedTo == u.id || m.createdBy == u.id) {
      var i :| 0 <= i < |db.assignments| && ActiveFor(db.assignments[i], m.id, u.id);
    }
  }

  /** An auditor with no subsections sees nothing; one sees a mail in a configured subsection,
      and a mail with no subsection in a section one of the configured subsections belongs to. */
  lemma AuditorVisibility(u: User, m: MailRecord, db: Db)
    requires u.role == Auditor
    ensures u.auditorSubsections == {} ==> !CanView(u, m, db)
    ensures m.subsection.Some? && m.subsection.value in u.auditorSubsections ==> CanView(u, m, db)
    ensures forall s :: (s in u.auditorSubsections && s in db.subsectionSection
      && m.section == Some(db.subsectionSection[s]) && m.subsection.None?) ==> CanView(u, m, db)
  {
  }

  /** A DAG sees the mails of their sections, the mails they hold an Active assignment on, the
      mails their section officers work on, and the mails they appear on in the audit log. */
  lemma DagVisibility(u: User, m: MailRecord, db: Db, i: nat, j: nat)
    requires u.role == DAG
    ensures ManagesSection(u, m) ==> CanView(u, m, db)
    ensures i < |db.assignments| && ActiveFor(db.assignments[i], m.id, u.id) ==> CanView(u, m, db)
    ensures (i < |db.assignments| && j < |db.users| && db.assignments[i].mailId == m.id
      && OpenOrDone(db.assignments[i]) && db.users[j].id == db.assignments[i].assignedTo
      && IsSectionOfficer(db, db.users[j], u.sections)) ==> CanView(u, m, db)
    ensures i < |db.audit| && db.audit[i].performedBy == u.id && db.audit[i].mailId == m.id ==> CanView(u, m, db)
    ensures CanView(u, m, db) ==> (ManagesSection(u, m) || HoldsActiveAssignment(db, m, u.id)
      || OfficerAssignment(db, m, u) || Touched(db, m, u))
  {
    if i < |db.assignments| && j < |db.users| && db.assignments[i].mailId == m.id
      && OpenOrDone(db.assignments[i]) && db.users[j].id == db.assignments[i].assignedTo
      && IsSectionOfficer(db, db.users[j], u.sections) {
      assert db.subsectionSection[db.users[j].subsection.value] in u.sections;
      assert OfficerAssignment(db, m, u);
    }
  }

  // ----- object-level gate -----

  /** `_is_dag_for_section`. */
  predicate IsDagForSection(u: User, m: MailRecord) {
    u.role == DAG && ManagesSection(u, m)
  }

  /** `has_object_permission` without the cache: the reference definition. */
  predicate ObjectPermission(u: User, a: Action, m: MailRecord, db: Db) {
    if u.role == AG then true
    else match a
      case Retrieve => CanView(u, m, db)
      case Assignments => CanView(u, m, db)
      case Update => IsHandler(u, m)
      case PartialUpdate => IsHandler(u, m)
      case UpdateCurrentAction => IsHandler(u, m)
      case Close => IsHandler(u, m)
      case Reassign => IsDagForSection(u, m) || IsHandler(u, m)
      case ReassignCandidates => IsDagForSection(u, m) || IsHandler(u, m)
      case MultiAssign => IsDagForSection(u, m)
      case Reopen => false
      case UpdateAssignment => CanView(u, m, db)
      case CompleteAssignment => CanView(u, m, db)
      case AddAssignmentRemark => CanView(u, m, db)
      case ReassignAssignment => CanView(u, m, db)
      case UploadPdf =>
        if u.role == DAG then IsDagForSection(u, m)
        else if u.role in {SrAO, AAO} then IsHandler(u, m)
        else if u.role in {Auditor, Clerk} then IsHandler(u, m)
        else false
      case GetPdfMetadata => CanView(u, m, db)
      case ViewPdf => CanView(u, m, db)
      case _ => false
  }

  predicate IsViewAction(a: Action) {
    a in {Retrieve, Assignments, UpdateAssignment, CompleteAssignment, AddAssignmentRemark, ReassignAssignment,
          GetPdfMetadata, ViewPdf}
  }

  /** `has_object_permission` as written, threading the request's cache. */
  function ObjectPermissionCached(u: User, a: Action, m: MailRecord, db: Db, cache: Option<set<Id>>): (r: Outcome)
    ensures CacheSound(cache, db, u) ==> r.allowed == ObjectPermission(u, a, m, db) && CacheSound(r.cache, db, u)
    ensures cache.Some? ==> r.cache == cache
  {
    if u.role == AG then Outcome(true, cache)
    else if IsViewAction(a) then CanViewCached(u, m, db, cache)
    else Outcome(ObjectPermission(u, a, m, db), cache)
  }

  /** An AG passes every object-level check. */
  lemma AgPassesObjectChecks(u: User, a: Action, m: MailRecord, db: Db, cache: Option<set<Id>>)
    requires u.role == AG
    ensures ObjectPermissionCached(u, a, m, db, cache).allowed
  {
  }

  /** For anyone but AG: reopen is refused; multi-assign needs a DAG of the mail's section;
      update, partial update, current-action update and close need the current handler;
      reassign needs a DAG of the section or the current handler. */
  lemma NonAgObjectRules(u: User, m: MailRecord, db: Db)
    requires u.role != AG
    ensures !ObjectPermission(u, Reopen, m, db)
    ensures ObjectPermission(u, MultiAssign, m, db) <==> u.role == DAG && m.section.Some? && m.section.value in u.sections
    ensures forall a :: a in {Update, PartialUpdate, UpdateCurrentAction, Close} ==>
      (ObjectPermission(u, a, m, db) <==> m.currentHandler == Some(u.id))
    ensures ObjectPermission(u, Reassign, m, db) <==> IsDagForSection(u, m) || m.currentHandler == Some(u.id)
    ensures ObjectPermission(u, UploadPdf, m, db) <==>
      if u.role == DAG then IsDagForSection(u, m) else m.currentHandler == Some(u.id)
    ensures forall a :: IsViewAction(a) ==> (ObjectPermission(u, a, m, db) <==> CanView(u, m, db))
    ensures forall a :: a in {List, Create, Destroy} || a.OtherAction? ==> !ObjectPermission(u, a, m, db)
  {
    forall a | IsViewAction(a) ensures ObjectPermission(u, a, m, db) <==> CanView(u, m, db) {
      assert a in {Retrieve, Assignments, UpdateAssignment, CompleteAssignment, AddAssignmentRemark, ReassignAssignment,
                   GetPdfMetadata, ViewPdf};
    }
  }

  /** A user who is neither AG nor DAG, and neither handler, assignee, creator, holder of an
      Active assignment, member of the mail's subsection, nor present in its audit log, passes
      no object-level check. */
  lemma UnrelatedUserDenied(u: User, a: Action, m: MailRecord, db: Db)
    requires u.role != AG && u.role != DAG && u.role != Auditor
    requires !IsHandler(u, m) && m.assignedTo != u.id && m.createdBy != u.id
    requires forall i :: 0 <= i < |db.assignments| ==> !ActiveFor(db.assignments[i], m.id, u.id)
    requires !(u.subsection.Some? && m.subsection == u.subsection)
    requires forall i :: 0 <= i < |db.audit| ==> db.audit[i].performedBy != u.id || db.audit[i].mailId != m.id
    ensures !ObjectPermission(u, a, m, db)
  {
    assert m.id !in Audit.TouchedIds(db.audit, u.id);
  }
}
