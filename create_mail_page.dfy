/** The create-mail form (frontend/src/pages/CreateMailPage.jsx): the check on the attached
    PDF, the officers a user may assign, and the request built from the form. */
module CreateMailPage {
  import opened Wrappers
  import opened Org
  import opened Client
  import Query

  // ----- the attached PDF -----

  /** The chosen file: its MIME type and its size in bytes. */
  datatype FileInfo = FileInfo(mime: string, size: nat)

  /** The outcome of choosing a file: the file kept, the message shown, and whether the file
      input was emptied. */
  datatype PdfChoice = PdfChoice(selected: Option<FileInfo>, error: string, inputCleared: bool)

  const PdfMime: string := "application/pdf"

  /** 10 MB. */
  const MaxPdfBytes: nat := 10 * 1024 * 1024

  /** `handleFileChange`: no file clears the choice quietly; a file that is not a PDF, or a
      PDF over 10 MB, is refused with its message and the input emptied; otherwise the file
      is kept. */
  function ChooseFile(file: Option<FileInfo>): (r: PdfChoice)
    ensures file.None? ==> r == PdfChoice(None, "", false)
    ensures r.selected.Some? <==> file.Some? && file.value.mime == PdfMime && file.value.size <= MaxPdfBytes
    ensures r.selected.Some? ==> r.selected == file && r.error == "" && !r.inputCleared
    ensures file.Some? && file.value.mime != PdfMime ==> r == PdfChoice(None, "Only PDF files are accepted.", true)
    ensures file.Some? && file.value.mime == PdfMime && file.value.size > MaxPdfBytes ==>
      r == PdfChoice(None, "PDF must be 10 MB or smaller.", true)
  {
    if file.None? then PdfChoice(None, "", false)
    else if file.value.mime != PdfMime then PdfChoice(None, "Only PDF files are accepted.", true)
    else if file.value.size > MaxPdfBytes then PdfChoice(None, "PDF must be 10 MB or smaller.", true)
    else PdfChoice(file, "", false)
  }

  /** The limit is inclusive: a PDF of exactly 10 MB is kept and one byte more is refused. */
  lemma PdfSizeBoundary()
    ensures MaxPdfBytes == 10485760
    ensures ChooseFile(Some(FileInfo(PdfMime, 10485760))).selected.Some?
    ensures ChooseFile(Some(FileInfo(PdfMime, 10485761))).selected.None?
  {
  }

  /** A refused file always comes with a message; a kept or cleared choice never does. */
  lemma PdfErrorShownIffRefused(file: Option<FileInfo>)
    ensures var r := ChooseFile(file);
      (r.error != "") <==> (file.Some? && r.selected.None?)
    ensures var r := ChooseFile(file); r.inputCleared <==> r.error != ""
  {
  }

  // ----- the assignee list -----

  predicate SameSection(me: ClientUser, v: ClientUser) { v.section == me.section }

  /** The officers offered: everyone to an AG, and to anyone else the users of their own
      section. */
  function AssignableUsers(me: ClientUser, users: seq<ClientUser>): (r: seq<ClientUser>)
    ensures me.role == AG ==> r == users
    ensures me.role != AG ==> Query.IsSubsequence(r, users)
    ensures me.role != AG ==> forall i :: 0 <= i < |r| ==> r[i].section == me.section
    ensures me.role != AG ==> forall i :: 0 <= i < |users| && users[i].section == me.section ==> users[i] in r
  {
    if me.role == AG then users else Query.Filter(users, v => SameSection(me, v))
  }

  /** The check on the assignee field: an empty choice is refused by the field's `required`
      rule, whose message comes first. */
  function AssigneeError(chosen: seq<ClientUser>): (e: Option<string>)
    ensures e.None? <==> |chosen| > 0
    ensures e.Some? ==> e.value == "At least one assignee is required"
  {
    if |chosen| == 0 then Some("At least one assignee is required") else None
  }

  // ----- the request -----

  /** The form's values: the section control holds None for '' or the chosen id; dates are
      days. */
  datatype CreateForm = CreateForm(
    letterNo: string,
    dateReceived: int,
    subject: string,
    fromOffice: string,
    actionRequired: string,
    section: Option<int>,
    assignedTo: seq<ClientUser>,
    dueDate: Option<int>,
    instructions: Option<string>)

  /** The body of the create request. */
  datatype CreatePayload = CreatePayload(
    letterNo: string,
    dateReceived: int,
    subject: string,
    fromOffice: string,
    actionRequired: string,
    assignedTo: seq<Id>,
    section: Option<int>,
    dueDate: Option<int>,
    instructions: string)

  /** `onSubmit`'s request: the chosen officers' ids in order, no section for an empty or 0
      choice, no due date when none was picked, and '' for missing instructions. */
  function PayloadOf(form: CreateForm): (p: CreatePayload)
    ensures |p.assignedTo| == |form.assignedTo| && forall i :: 0 <= i < |p.assignedTo| ==> p.assignedTo[i] == form.assignedTo[i].id
    ensures p.section.None? <==> form.section.None? || form.section.value == 0
    ensures p.section.Some? ==> p.section == form.section
    ensures p.dueDate == form.dueDate
    ensures p.instructions == OrText(form.instructions, "")
    ensures p.letterNo == form.letterNo && p.dateReceived == form.dateReceived && p.subject == form.subject
    ensures p.fromOffice == form.fromOffice && p.actionRequired == form.actionRequired
  {
    var ids := seq(|form.assignedTo|, i requires 0 <= i < |form.assignedTo| => form.assignedTo[i].id);
    var section := if form.section.Some? && form.section.value != 0 then form.section else None;
    CreatePayload(form.letterNo, form.dateReceived, form.subject, form.fromOffice, form.actionRequired,
                  ids, section, form.dueDate, OrText(form.instructions, ""))
  }
}
