/** What the browser holds: the signed-in user of the auth context and the mail, assignment
    and remark objects the API returns, as the pages read them. JavaScript's `a || b`
    falls through on a falsy left side: a missing value, `null`, the number 0 and the empty
    string. */
module Client {
  import opened Wrappers
  import opened Org
  import opened Records

  /** A user as the client sees one. `sections` is the DAG's list of section ids, read only by
      membership; `subsectionSection` is the section of the user's subsection, when the user
      has one. */
  datatype ClientUser = ClientUser(
    id: Id,
    role: Role,
    fullName: string,
    section: Option<Id>,
    sections: Option<set<Id>>,
    subsectionSection: Option<Id>)

  /** One entry of an assignment's remarks timeline; `createdAt` is its time in milliseconds. */
  datatype RemarkView = RemarkView(content: Option<string>, createdAt: int, authorName: Option<string>)

  /** A parallel assignment as the mail detail returns it. */
  datatype AssignmentView = AssignmentView(
    id: Id,
    assignedTo: Id,
    reassignedTo: Option<Id>,
    assignedBy: Id,
    status: AssignmentStatus,
    hasResponded: bool,
    userRemarks: Option<string>,
    assigneeName: Option<string>,
    timeline: Option<seq<RemarkView>>,
    createdAt: Option<int>,
    updatedAt: Option<int>,
    completedAt: Option<int>)

  /** A mail as the detail page reads it: the plain ids and the ids inside the nested
      `*_details` objects, which the page consults first. */
  datatype MailView = MailView(
    id: Id,
    status: Status,
    isMultiAssigned: bool,
    currentHandler: Option<Id>,
    handlerDetailsId: Option<Id>,
    section: Option<Id>,
    sectionDetailsId: Option<Id>,
    createdBy: Id,
    assignments: Option<seq<AssignmentView>>)

  /** An id that is present and not 0. */
  predicate TruthyId(a: Option<Id>) { a.Some? && a.value != 0 }

  /** A text that is present and not empty. */
  predicate TruthyText(s: Option<string>) { s.Some? && s.value != "" }

  /** `a || b` on two ids. */
  function OrId(a: Option<Id>, b: Option<Id>): (r: Option<Id>)
    ensures TruthyId(a) ==> r == a
    ensures !TruthyId(a) ==> r == b
  {
    if TruthyId(a) then a else b
  }

  /** `a || b` on a text and a fallback. */
  function OrText(a: Option<string>, b: string): (r: string)
    ensures TruthyText(a) ==> r == a.value
    ensures !TruthyText(a) ==> r == b
  {
    if TruthyText(a) then a.value else b
  }

  /** `a || b` on two optional times. */
  function OrTime(a: Option<int>, b: Option<int>): (r: Option<int>)
    ensures a.Some? ==> r == a
    ensures a.None? ==> r == b
  {
    if a.Some? then a else b
  }

  /** The client copy of a stored user. */
  function UserOf(u: User): (c: ClientUser)
    ensures c.id == u.id && c.role == u.role && c.sections == Some(u.sections)
  {
    ClientUser(u.id, u.role, u.fullName, u.section, Some(u.sections), None)
  }

  /** The detail the API returns for a stored mail: the nested objects carry the same ids as
      the plain fields. */
  function MailOf(m: MailRecord, assignments: seq<AssignmentView>): (v: MailView)
    ensures v.id == m.id && v.status == m.status && v.createdBy == m.createdBy
    ensures v.currentHandler == m.currentHandler && v.handlerDetailsId == m.currentHandler
    ensures v.section == m.section && v.sectionDetailsId == m.section
  {
    MailView(m.id, m.status, m.isMultiAssigned, m.currentHandler, m.currentHandler,
             m.section, m.section, m.createdBy, Some(assignments))
  }
}
