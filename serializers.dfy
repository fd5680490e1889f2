/** Input validation of the mail endpoints (backend/records/serializers.py) with the field
    semantics of Django REST framework it relies on: character fields strip surrounding
    whitespace and, unless blank is allowed, refuse what is empty after stripping; integer
    fields accept integers and integer text; a required field that is absent or null is an
    error. Every field's error is reported, not only the first. */
module Serializers {
  import opened Wrappers
  import opened Text
  import opened Records
  import opened Org

  /** A JSON request value for one field, as the parser hands it over: an object is its
      members in the order they were sent. */
  datatype JsonIn =
    | Absent | JNull | JInt(i: int) | JText(s: string) | JBool(b: bool)
    | JArray(items: seq<JsonIn>) | JObject(members: seq<(string, JsonIn)>)

  datatype FieldError = Required | NullNotAllowed | Blank | Invalid | MaxStringLength | DoesNotExist | NullCharacters

  type Errors = map<string, FieldError>

  /** `str(i)` for an integer. */
  function IntText(i: int): (s: string)
    ensures i >= 0 ==> s == NatToString(i)
    ensures s != [] && PyStrip(s) == s
  {
    var s := if i >= 0 then NatToString(i) else "-" + NatToString(-i);
    assert IsDigit(s[|s| - 1]);
    StripOfStripped(s, IsPySpace);
    s
  }

  /** A required CharField with allow_blank=False and trim_whitespace=True. Its validators
      refuse a text holding U+0000 once it is stripped. */
  function RequiredText(v: JsonIn): (r: Result<string, FieldError>)
    ensures r.Success? ==> r.value != [] && r.value == PyStrip(r.value) && '\0' !in r.value
    ensures v.Absent? ==> r == Failure(Required)
    ensures v.JNull? ==> r == Failure(NullNotAllowed)
    ensures v.JBool? || v.JArray? || v.JObject? ==> r == Failure(Invalid)
    ensures v.JText? && PyStrip(v.s) == [] ==> r == Failure(Blank)
    ensures v.JText? && PyStrip(v.s) != [] && '\0' in PyStrip(v.s) ==> r == Failure(NullCharacters)
    ensures v.JText? && PyStrip(v.s) != [] && '\0' !in PyStrip(v.s) ==> r == Success(PyStrip(v.s))
  {
    match v
    case Absent => Failure(Required)
    case JNull => Failure(NullNotAllowed)
    case JBool(_) => Failure(Invalid)
    case JArray(_) => Failure(Invalid)
    case JObject(_) => Failure(Invalid)
    case JInt(i) => IntTextHasNoNul(i); Success(IntText(i))
    case JText(s) =>
      var t := PyStrip(s);
      StripIsIdempotent(s);
      if t == [] then Failure(Blank)
      else if '\0' in t then Failure(NullCharacters)
      else Success(t)
  }

  lemma IntTextHasNoNul(i: int)
    ensures '\0' !in IntText(i)
  {
    var s := IntText(i);
    if i >= 0 {
      assert forall k :: 0 <= k < |s| ==> IsDigit(s[k]);
    } else {
      var d := NatToString(-i);
      assert s == "-" + d;
      assert forall k :: 0 <= k < |d| ==> IsDigit(d[k]);
    }
  }

  /** Python's `repr` of a parsed JSON value: `None`, `True`, `False`, the integer, the text
      in single quotes, and lists and dicts with their items joined by ", ". */
  function PyRepr(v: JsonIn): string
    decreases v
  {
    match v
    case Absent => ""
    case JNull => "None"
    case JBool(b) => if b then "True" else "False"
    case JInt(i) => IntText(i)
    case JText(s) => "'" + s + "'"
    case JArray(items) =>
      "[" + JoinWith(seq(|items|, k requires 0 <= k < |items| => PyRepr(items[k])), ", ") + "]"
    case JObject(members) =>
      "{" + JoinWith(seq(|members|, k requires 0 <= k < |members| =>
                       "'" + members[k].0 + "': " + PyRepr(members[k].1)), ", ") + "}"
  }

  /** Python's `str` of a parsed JSON value: a text as it is, anything else its `repr`. */
  function PyStr(v: JsonIn): string {
    if v.JText? then v.s else PyRepr(v)
  }

  lemma StripIsIdempotent(s: string)
    ensures PyStrip(PyStrip(s)) == PyStrip(s)
  {
    StripOfStripped(PyStrip(s), IsPySpace);
  }

  /** IntegerField's removal of a trailing `\.0*\s*`. */
  function DropDecimalSuffix(s: string): string {
    var t := StripRight(s, IsPySpace);
    var u := StripRight(t, (c: char) => c == '0');
    if u != [] && u[|u| - 1] == '.' then u[..|u| - 1] else s
  }

  const MaxIntegerText: nat := 1000

  /** A required IntegerField. */
  function RequiredInt(v: JsonIn): (r: Result<int, FieldError>)
    ensures v.JInt? ==> r == Success(v.i)
    ensures v.Absent? ==> r == Failure(Required)
    ensures v.JNull? ==> r == Failure(NullNotAllowed)
    ensures v.JBool? || v.JArray? || v.JObject? ==> r == Failure(Invalid)
    ensures v.JText? && AllDigits(v.s) && 1 <= |v.s| <= MaxIntegerText ==> r == Success(DigitsToNat(v.s))
    ensures v.JText? && PyDigitGroups(v.s) && |v.s| <= MaxIntegerText ==> r == Success(GroupsValue(v.s))
    ensures v.JText? && |v.s| > MaxIntegerText ==> r == Failure(MaxStringLength)
  {
    match v
    case Absent => Failure(Required)
    case JNull => Failure(NullNotAllowed)
    case JBool(_) => Failure(Invalid)
    case JArray(_) => Failure(Invalid)
    case JObject(_) => Failure(Invalid)
    case JInt(i) => Success(i)
    case JText(s) =>
      if |s| > MaxIntegerText then Failure(MaxStringLength)
      else
        assert PyDigitGroups(s) ==> DropDecimalSuffix(s) == s && PyInt(s) == Some(GroupsValue(s)) by {
          if PyDigitGroups(s) { GroupsParse(s); }
        }
        assert AllDigits(s) && s != [] ==> PyDigitGroups(s) && GroupsValue(s) == DigitsToNat(s);
        match PyInt(DropDecimalSuffix(s))
        case Some(n) => Success(n)
        case None => Failure(Invalid)
  }

  /** Grouped digits keep no decimal suffix and read as their value. */
  lemma GroupsParse(s: string)
    requires PyDigitGroups(s)
    ensures DropDecimalSuffix(s) == s && PyInt(s) == Some(GroupsValue(s))
  {
    assert !IsPySpace(s[|s| - 1]);
    assert StripRight(s, IsPySpace) == s;
    var u := StripRight(s, (c: char) => c == '0');
    if u != [] {
      assert u == s[..|u|];
      assert u[|u| - 1] == s[|u| - 1];
    }
    StripOfStripped(s, IsPySpace);
  }

  /** The reassign input: the new handler's id and the reason. */
  datatype ReassignInput = ReassignInput(newHandler: int, remarks: string)

  /** MailRecordReassignSerializer: an integer `new_handler` and non-blank `remarks`, both
      required. */
  function ValidateReassign(newHandler: JsonIn, remarks: JsonIn): (r: Result<ReassignInput, Errors>)
    ensures r.Success? <==> RequiredInt(newHandler).Success? && RequiredText(remarks).Success?
    ensures r.Success? ==> r.value.remarks != [] && r.value.remarks == PyStrip(r.value.remarks)
    ensures r.Success? ==> r.value.newHandler == RequiredInt(newHandler).value
    ensures r.Failure? ==>
      ("new_handler" in r.error <==> RequiredInt(newHandler).Failure?) && ("remarks" in r.error <==> RequiredText(remarks).Failure?)
  {
    var h := RequiredInt(newHandler);
    var t := RequiredText(remarks);
    if h.Success? && t.Success? then Success(ReassignInput(h.value, t.value))
    else
      var e1: Errors := if h.Failure? then map["new_handler" := h.error] else map[];
      var e2: Errors := if t.Failure? then map["remarks" := t.error] else map[];
      Failure(e1 + e2)
  }

  /** MailRecordCloseSerializer: non-blank `remarks`, required. */
  function ValidateClose(remarks: JsonIn): (r: Result<string, Errors>)
    ensures r.Success? <==> RequiredText(remarks).Success?
    ensures r.Success? ==> r.value != [] && r.value == RequiredText(remarks).value
    ensures r.Failure? ==> r.error == map["remarks" := RequiredText(remarks).error]
  {
    match RequiredText(remarks)
    case Success(t) => Success(t)
    case Failure(e) => Failure(map["remarks" := e])
  }

  /** What the update form supplies for `remarks`: nothing, NULL, or a text. */
  datatype Provided<T> = Omitted | Given(value: T)

  /** MailRecordUpdateSerializer: `remarks` is optional, nullable and may be blank; a text is
      stripped. */
  function ValidateUpdate(remarks: JsonIn): (r: Result<Provided<Option<string>>, Errors>)
    ensures remarks.Absent? ==> r == Success(Omitted)
    ensures remarks.JNull? ==> r == Success(Given(None))
    ensures remarks.JText? && '\0' !in PyStrip(remarks.s) ==> r == Success(Given(Some(PyStrip(remarks.s))))
    ensures remarks.JText? && '\0' in PyStrip(remarks.s) ==> r == Failure(map["remarks" := NullCharacters])
    ensures remarks.JBool? || remarks.JArray? || remarks.JObject? ==> r == Failure(map["remarks" := Invalid])
  {
    match remarks
    case Absent => Success(Omitted)
    case JNull => Success(Given(None))
    case JText(s) =>
      if '\0' in PyStrip(s) then Failure(map["remarks" := NullCharacters]) else Success(Given(Some(PyStrip(s))))
    case JInt(i) => Success(Given(Some(IntText(i))))
    case JBool(_) => Failure(map["remarks" := Invalid])
    case JArray(_) => Failure(map["remarks" := Invalid])
    case JObject(_) => Failure(map["remarks" := Invalid])
  }

  /** The create form after its fields were read: the due date, the action and its free
      text (stripped, possibly NULL), the section and the assignee, and the optional remarks. */
  datatype CreateData = CreateData(
    dueDate: Option<int>,
    actionRequired: Option<ActionRequired>,
    actionRequiredOther: Option<string>,
    section: Id,
    assignedTo: Id,
    remarks: Provided<Option<string>>)

  datatype CreateError = DueDateInPast | OtherNeedsText

  /** True when `action_required == 'Other'` comes without a text for it. */
  predicate OtherWithoutText(data: CreateData) {
    data.actionRequired == Some(Other) && (data.actionRequiredOther.None? || data.actionRequiredOther.value == "")
  }

  /** `MailRecordCreateSerializer.validate`: a due date before today is refused first; then an
      "Other" action without its text; otherwise the data passes unchanged. */
  function ValidateCreate(data: CreateData, today: int): (r: Result<CreateData, CreateError>)
    ensures data.dueDate.Some? && data.dueDate.value < today ==> r == Failure(DueDateInPast)
    ensures !(data.dueDate.Some? && data.dueDate.value < today) && OtherWithoutText(data) ==> r == Failure(OtherNeedsText)
    ensures r.Success? ==> r.value == data
    ensures r.Success? <==> !(data.dueDate.Some? && data.dueDate.value < today) && !OtherWithoutText(data)
  {
    if data.dueDate.Some? && data.dueDate.value < today then Failure(DueDateInPast)
    else if OtherWithoutText(data) then Failure(OtherNeedsText)
    else Success(data)
  }

  /** Accepted data passes a second validation, on the same day or any earlier one. */
  lemma ValidateCreateStable(data: CreateData, today: int, earlier: int)
    requires ValidateCreate(data, today).Success? && earlier <= today
    ensures ValidateCreate(data, earlier) == Success(data)
  {
  }
}
