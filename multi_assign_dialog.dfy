/** The multi-assign dialog (frontend/src/components/MultiAssignDialog.jsx): the officers a
    user may pick, how a text selection is read, and the checks before the request is made. */
module MultiAssignDialog {
  import opened Wrappers
  import opened Text
  import opened Org
  import opened Client
  import Query

  /** `currentUser.sections || []`. */
  function DagSections(me: ClientUser): set<Id> {
    if me.sections.Some? then me.sections.value else {}
  }

  /** A user a DAG may pick: one in a subsection of the DAG's sections, or a DAG whose
      sections meet the DAG's. */
  predicate DagEligible(dagSections: set<Id>, v: ClientUser) {
    (v.subsectionSection.Some? && v.subsectionSection.value in dagSections)
    || (v.role == DAG && v.sections.Some? && exists s :: s in v.sections.value && s in dagSections)
  }

  predicate Offered(me: ClientUser, v: ClientUser) {
    v.id != me.id && (me.role != DAG || DagEligible(DagSections(me), v))
  }

  /** `loadUsers`: everyone but the current user; a DAG sees only the users of their sections. */
  function Candidates(users: seq<ClientUser>, me: ClientUser): (r: seq<ClientUser>)
    ensures Query.IsSubsequence(r, users)
    ensures forall i :: 0 <= i < |r| ==> r[i].id != me.id
    ensures me.role != DAG ==> forall i :: 0 <= i < |users| && users[i].id != me.id ==> users[i] in r
    ensures me.role == DAG ==> forall i :: 0 <= i < |r| ==> DagEligible(DagSections(me), r[i])
    ensures me.role == DAG ==>
      forall i :: 0 <= i < |users| && users[i].id != me.id && DagEligible(DagSections(me), users[i]) ==> users[i] in r
  {
    Query.Filter(users, v => Offered(me, v))
  }

  /** The selection as the select control reports it: a list of ids, or a comma-separated text. */
  datatype SelectValue = Ids(ids: seq<int>) | Text(text: string)

  /** `handleUserChange`: a text is split on commas and each piece read as a number (None for
      NaN); a list is taken as it is. */
  function SelectionOf(value: SelectValue): (r: seq<Option<int>>)
    ensures value.Text? ==> |r| == |Split(value.text, ',')| && forall i :: 0 <= i < |r| ==> r[i] == JsNumber(Split(value.text, ',')[i])
    ensures value.Ids? ==> |r| == |value.ids| && forall i :: 0 <= i < |r| ==> r[i] == Some(value.ids[i])
  {
    match value
    case Ids(ids) => seq(|ids|, i requires 0 <= i < |ids| => Some(ids[i]))
    case Text(t) =>
      var parts := Split(t, ',');
      seq(|parts|, i requires 0 <= i < |parts| => JsNumber(parts[i]))
  }

  /** The decimal texts of some ids. */
  function IdTexts(ids: seq<nat>): (r: seq<string>)
    ensures |r| == |ids| && forall i :: 0 <= i < |r| ==> r[i] == NatToString(ids[i])
  {
    seq(|ids|, i requires 0 <= i < |ids| => NatToString(ids[i]))
  }

  /** Joining pieces without the separator and splitting again gives the pieces back. */
  lemma {:induction false} SplitOfJoin(parts: seq<string>, c: char)
    requires |parts| >= 1
    requires forall i :: 0 <= i < |parts| ==> c !in parts[i]
    ensures Split(Join(parts, c), c) == parts
    decreases |parts|
  {
    if |parts| == 1 {
      SplitWithoutSeparator(parts[0], c);
    } else {
      SplitOfJoin(parts[1..], c);
      SplitAfterFirst(parts[0], c, Join(parts[1..], c));
      assert parts == [parts[0]] + parts[1..];
    }
  }

  /** A comma-separated list of ids reads back as those ids. */
  lemma SelectionRoundTrip(ids: seq<nat>)
    requires |ids| >= 1
    ensures var r := SelectionOf(Text(Join(IdTexts(ids), ',')));
      |r| == |ids| && forall i :: 0 <= i < |ids| ==> r[i] == Some(ids[i] as int)
  {
    var texts := IdTexts(ids);
    forall i | 0 <= i < |texts| ensures ',' !in texts[i] {
      assert AllDigits(texts[i]);
    }
    SplitOfJoin(texts, ',');
    forall i | 0 <= i < |ids| ensures JsNumber(texts[i]) == Some(ids[i] as int) {
      NatToStringRoundTrip(ids[i]);
    }
  }

  /** An empty text is one piece, read as the id 0: it passes the check for a selection. */
  lemma EmptyTextSelectsZero()
    ensures SelectionOf(Text("")) == [Some(0)]
  {
    assert Split("", ',') == [""];
    assert JsBlank("");
  }

  datatype MultiAssignRequest = MultiAssignRequest(userIds: seq<Option<int>>, remarks: string)

  /** `handleSubmit`: an empty selection is refused first, then blank instructions; otherwise
      the selection as it stands and the trimmed instructions are sent. */
  function Submit(selected: seq<Option<int>>, remarks: string): (r: Result<MultiAssignRequest, string>)
    ensures |selected| == 0 ==> r == Failure("Please select at least one user")
    ensures |selected| > 0 && JsBlank(remarks) ==> r == Failure("Please provide assignment instructions/remarks")
    ensures r.Success? <==> |selected| > 0 && !JsBlank(remarks)
    ensures r.Success? ==> r.value.userIds == selected && r.value.remarks == JsTrim(remarks) && r.value.remarks != ""
  {
    if |selected| == 0 then Failure("Please select at least one user")
    else if JsTrim(remarks) == "" then Failure("Please provide assignment instructions/remarks")
    else Success(MultiAssignRequest(selected, JsTrim(remarks)))
  }
}
