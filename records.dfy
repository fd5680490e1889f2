/** Mail records and their parallel assignments (backend/records/models.py): the serial
    number generated on first save, the defaults `save` fills in, the time spent in the
    current stage, the overdue test, the older per-record permission predicates, the
    consolidated remarks of the parallel assignments and the one-Active-assignment rule.
    Dates are day numbers and date-times are seconds, both on one local clock. */
module Records {
  import opened Wrappers
  import opened Text
  import Query
  import opened Org
  import Audit

  datatype Status = Received | Assigned | InProgress | Closed

  datatype ActionRequired = Review | Approve | Process | File | Reply | Other

  datatype AssignmentStatus = Active | Completed | Revoked

  /** A mail record. The foreign keys are ids; `currentHandler` and `monitoringOfficer` are
      None until `save` fills them; `section` may be unset in the permission layer's
      revision. */
  datatype MailRecord = MailRecord(
    id: Id,
    slNo: string,
    actionRequired: ActionRequired,
    actionRequiredOther: Option<string>,
    assignedTo: Id,
    currentHandler: Option<Id>,
    monitoringOfficer: Option<Id>,
    section: Option<Id>,
    subsection: Option<Id>,
    dueDate: int,
    status: Status,
    dateOfCompletion: Option<int>,
    lastStatusChange: int,
    remarks: Option<string>,
    isMultiAssigned: bool,
    consolidatedRemarks: Option<string>,
    createdBy: Id,
    createdAt: int)

  /** One parallel assignment of a mail to a user. */
  datatype MailAssignment = MailAssignment(
    id: Id,
    mailId: Id,
    assignedTo: Id,
    assignedBy: Id,
    assignmentRemarks: Option<string>,
    userRemarks: Option<string>,
    status: AssignmentStatus,
    createdAt: int,
    updatedAt: int,
    completedAt: Option<int>)

  // ----- serial numbers -----

  function YearPrefix(year: nat): string { NatToString(year) + "/" }

  predicate InYear(year: nat, slNo: string) { StartsWith(slNo, YearPrefix(year)) }

  /** `f"{year}/{n:03d}"`. */
  function FormatSlNo(year: nat, n: int): (s: string)
    ensures InYear(year, s)
  {
    assert (YearPrefix(year) + FormatInt03(n))[..|YearPrefix(year)|] == YearPrefix(year);
    YearPrefix(year) + FormatInt03(n)
  }

  /** `int(sl_no.split('/')[1])`; None stands for the IndexError or ValueError it raises. */
  function SlNoNumber(slNo: string): Option<int> {
    var parts := Split(slNo, '/');
    if |parts| < 2 then None else PyInt(parts[1])
  }

  lemma DigitsHaveNoSlash(s: string)
    requires AllDigits(s)
    ensures '/' !in s
  {
    assert forall i :: 0 <= i < |s| ==> s[i] != '/';
  }

  /** Reading the number back out of a generated serial number gives the number. */
  lemma SlNoNumberRoundTrip(year: nat, n: nat)
    ensures SlNoNumber(FormatSlNo(year, n)) == Some(n)
  {
    var a := NatToString(year);
    var b := ZeroPad(n, 3);
    DigitsHaveNoSlash(a);
    DigitsHaveNoSlash(b);
    assert FormatSlNo(year, n) == a + ['/'] + b;
    SplitAfterFirst(a, '/', b);
    SplitWithoutSeparator(b, '/');
  }

  /** The lexicographically greatest string (`order_by('-sl_no').first()`). */
  function LexMax(s: seq<string>): (r: Option<string>)
    ensures r.None? <==> s == []
    ensures r.Some? ==> r.value in s && forall i :: 0 <= i < |s| ==> !StrLess(r.value, s[i])
  {
    if s == [] then None
    else
      match LexMax(s[1..])
      case None =>
        StrLessIrreflexive(s[0]);
        Some(s[0])
      case Some(m) =>
        if StrLess(m, s[0]) then
          LexMaxStep(s, m);
          Some(s[0])
        else
          StrLessIrreflexive(s[0]);
          assert forall i :: 1 <= i < |s| ==> s[i] == s[1..][i - 1];
          Some(m)
  }

  lemma LexMaxStep(s: seq<string>, m: string)
    requires s != [] && StrLess(m, s[0])
    requires forall i :: 0 <= i < |s[1..]| ==> !StrLess(m, s[1..][i])
    ensures forall i :: 0 <= i < |s| ==> !StrLess(s[0], s[i])
  {
    StrLessIrreflexive(s[0]);
    forall i | 1 <= i < |s| ensures !StrLess(s[0], s[i]) {
      assert s[i] == s[1..][i - 1];
      if StrLess(s[0], s[i]) {
        StrLessTransitive(m, s[0], s[i]);
      }
    }
  }

  function YearSlNos(year: nat, existing: seq<string>): seq<string> {
    Query.Filter(existing, (x: string) => InYear(year, x))
  }

  /** The serial number that follows the year's last one: 1 when there is none, otherwise
      one more than the number inside it; Failure stands for the error `int` raises when
      that number is not an integer. */
  function SlNoAfter(year: nat, last: Option<string>): Result<string, string> {
    match last
    case None => Success(FormatSlNo(year, 1))
    case Some(l) =>
      match SlNoNumber(l)
      case None => Failure("ValueError")
      case Some(n) => Success(FormatSlNo(year, n + 1))
  }

  /** The serial number `save` generates, as written: the successor of the year's
      lexicographically last serial number. */
  function NextSlNo(year: nat, existing: seq<string>): Result<string, string> {
    SlNoAfter(year, LexMax(YearSlNos(year, existing)))
  }

  /** The year's first mail is numbered 1; otherwise the generator reads the number inside
      a serial number of the year that no other one of the year follows in string order. */
  lemma NextSlNoSpec(year: nat, existing: seq<string>)
    ensures (forall i :: 0 <= i < |existing| ==> !InYear(year, existing[i])) ==>
      NextSlNo(year, existing) == Success(FormatSlNo(year, 1))
    ensures (exists i :: 0 <= i < |existing| && InYear(year, existing[i])) ==>
      exists last :: last in existing && InYear(year, last)
        && (forall j :: 0 <= j < |existing| && InYear(year, existing[j]) ==> !StrLess(last, existing[j]))
        && NextSlNo(year, existing) == SlNoAfter(year, Some(last))
  {
    var ys := YearSlNos(year, existing);
    if exists i :: 0 <= i < |existing| && InYear(year, existing[i]) {
      var i :| 0 <= i < |existing| && InYear(year, existing[i]);
      assert existing[i] in ys;
      var last := LexMax(ys).value;
      assert last in existing && InYear(year, last);
      forall j | 0 <= j < |existing| && InYear(year, existing[j]) ensures !StrLess(last, existing[j]) {
        assert existing[j] in ys;
      }
    } else {
      assert ys == [];
    }
  }

  /** The greatest serial number that parses, if any does. */
  function MaxSlNumber(s: seq<string>): Option<int> {
    Query.MaxOf(s, SlNoNumber)
  }

  /** MaxSlNumber is the greatest parsed number, and it is missing only when none parses. */
  lemma MaxSlNumberSpec(s: seq<string>)
    ensures MaxSlNumber(s).None? <==> forall i :: 0 <= i < |s| ==> SlNoNumber(s[i]).None?
    ensures MaxSlNumber(s).Some? ==> exists i :: 0 <= i < |s| && SlNoNumber(s[i]) == MaxSlNumber(s)
    ensures MaxSlNumber(s).Some? ==>
      forall i :: 0 <= i < |s| && SlNoNumber(s[i]).Some? ==> SlNoNumber(s[i]).value <= MaxSlNumber(s).value
  {
    Query.MaxOfSpec(s, SlNoNumber);
  }

  /** The number after the greatest one in use, at least 1. */
  function NumberAfter(mx: Option<int>): (n: nat)
    ensures n >= 1
    ensures mx.Some? ==> n > mx.value
  {
    match mx
    case None => 1
    case Some(k) => if k + 1 >= 1 then k + 1 else 1
  }

  /** The corrected generator: one more than the greatest number used in the year (at least
      1). */
  function NextSlNoNumeric(year: nat, existing: seq<string>): (r: string)
    ensures InYear(year, r)
  {
    FormatSlNo(year, NumberAfter(MaxSlNumber(YearSlNos(year, existing))))
  }

  /** The corrected generator never repeats a serial number already in use. */
  lemma NextSlNoNumericIsFresh(year: nat, existing: seq<string>)
    ensures NextSlNoNumeric(year, existing) !in existing
  {
    var ys := YearSlNos(year, existing);
    var n := NumberAfter(MaxSlNumber(ys));
    var r := FormatSlNo(year, n);
    SlNoNumberRoundTrip(year, n);
    MaxSlNumberSpec(ys);
    assert forall j :: 0 <= j < |ys| ==> SlNoNumber(ys[j]) != SlNoNumber(r);
    assert r !in ys;
  }

  /** Three-character strings compare character by character. */
  lemma ThreeCharLess(a: string, b: string)
    requires |a| == 3 && |b| == 3
    ensures StrLess(a, b) <==>
      a[0] < b[0] || (a[0] == b[0] && (a[1] < b[1] || (a[1] == b[1] && a[2] < b[2])))
  {
    assert a[1..][1..] == a[2..] && b[1..][1..] == b[2..];
    assert a[2..][1..] == [] && b[2..][1..] == [];
    assert StrLess(a, b) == (if a[0] != b[0] then a[0] < b[0] else StrLess(a[1..], b[1..]));
    assert StrLess(a[1..], b[1..]) == (if a[1] != b[1] then a[1] < b[1] else StrLess(a[2..], b[2..]));
    assert StrLess(a[2..], b[2..]) == (if a[2] != b[2] then a[2] < b[2] else StrLess([], []));
  }

  /** Three-digit renderings compare as their numbers. */
  lemma ThreeDigitOrder(m: nat, n: nat)
    requires m < 1000 && n < 1000
    ensures StrLess(ZeroPad(m, 3), ZeroPad(n, 3)) <==> m < n
  {
    ZeroPadThreeDigits(m);
    ZeroPadThreeDigits(n);
    ThreeCharLess(ZeroPad(m, 3), ZeroPad(n, 3));
    DigitsOfThree(m);
    DigitsOfThree(n);
    DigitwiseOrder(m / 100, m / 10 % 10, m % 10, n / 100, n / 10 % 10, n % 10);
  }

  lemma DigitsOfThree(m: nat)
    requires m < 1000
    ensures m / 100 < 10 && m == 100 * (m / 100) + 10 * (m / 10 % 10) + m % 10
  {
  }

  /** Comparing digit characters from the left is comparing the numbers they spell. */
  lemma DigitwiseOrder(m2: nat, m1: nat, m0: nat, n2: nat, n1: nat, n0: nat)
    requires m2 < 10 && m1 < 10 && m0 < 10 && n2 < 10 && n1 < 10 && n0 < 10
    ensures (DigitChar(m2) < DigitChar(n2) || (DigitChar(m2) == DigitChar(n2) &&
              (DigitChar(m1) < DigitChar(n1) || (DigitChar(m1) == DigitChar(n1) && DigitChar(m0) < DigitChar(n0)))))
            <==> 100 * m2 + 10 * m1 + m0 < 100 * n2 + 10 * n1 + n0
  {
    assert DigitChar(m2) < DigitChar(n2) <==> m2 < n2;
    assert DigitChar(m1) < DigitChar(n1) <==> m1 < n1;
    assert DigitChar(m0) < DigitChar(n0) <==> m0 < n0;
    assert DigitChar(m2) == DigitChar(n2) <==> m2 == n2;
    assert DigitChar(m1) == DigitChar(n1) <==> m1 == n1;
  }

  /** Below 1000 the string order of a year's serial numbers is their numeric order. */
  lemma SlNoOrderIsNumericBelow1000(year: nat, m: nat, n: nat)
    requires m < 1000 && n < 1000
    ensures StrLess(FormatSlNo(year, m), FormatSlNo(year, n)) <==> m < n
  {
    StrLessCommonPrefix(YearPrefix(year), ZeroPad(m, 3), ZeroPad(n, 3));
    ThreeDigitOrder(m, n);
  }

  /** A serial number generated below 1000. */
  ghost predicate GeneratedBelow1000(year: nat, s: string) {
    exists k: nat :: k < 1000 && s == FormatSlNo(year, k)
  }

  /** The number inside a serial number generated below 1000. */
  lemma GeneratedNumber(year: nat, s: string) returns (k: nat)
    requires GeneratedBelow1000(year, s)
    ensures k < 1000 && s == FormatSlNo(year, k) && SlNoNumber(s) == Some(k)
  {
    k :| k < 1000 && s == FormatSlNo(year, k);
    SlNoNumberRoundTrip(year, k);
  }

  /** Among generated serial numbers below 1000, the lexicographically last one carries the
      greatest number. */
  lemma LexMaxIsNumericMax(year: nat, ys: seq<string>)
    requires ys != []
    requires forall i :: 0 <= i < |ys| ==> GeneratedBelow1000(year, ys[i])
    ensures SlNoNumber(LexMax(ys).value) == MaxSlNumber(ys)
    ensures MaxSlNumber(ys).Some? && MaxSlNumber(ys).value >= 0
  {
    var last := LexMax(ys).value;
    var il :| 0 <= il < |ys| && ys[il] == last;
    var kl := GeneratedNumber(year, last);
    MaxSlNumberSpec(ys);
    var mx := MaxSlNumber(ys);
    assert mx.Some? && kl <= mx.value by {
      assert SlNoNumber(ys[il]) == Some(kl);
    }
    var j :| 0 <= j < |ys| && SlNoNumber(ys[j]) == mx;
    var kx := GeneratedNumber(year, ys[j]);
    assert !StrLess(last, ys[j]);
    SlNoOrderIsNumericBelow1000(year, kl, kx);
    assert kx == mx.value;
    assert kl == kx;
  }

  /** While every serial number of the year is a generated one below 1000, the generator as
      written agrees with the corrected one. */
  lemma NextSlNoAgreesBelow1000(year: nat, existing: seq<string>)
    requires forall i :: 0 <= i < |existing| && InYear(year, existing[i]) ==> GeneratedBelow1000(year, existing[i])
    ensures NextSlNo(year, existing) == Success(NextSlNoNumeric(year, existing))
  {
    var ys := YearSlNos(year, existing);
    if ys != [] {
      YearEntriesGenerated(year, existing);
      LexMaxIsNumericMax(year, ys);
      var n := MaxSlNumber(ys).value;
      NextSlNoOfLast(year, existing, LexMax(ys).value, n);
      NextSlNoNumericAfter(year, existing, n);
    }
  }

  lemma YearEntriesGenerated(year: nat, existing: seq<string>)
    requires forall i :: 0 <= i < |existing| && InYear(year, existing[i]) ==> GeneratedBelow1000(year, existing[i])
    ensures var ys := YearSlNos(year, existing);
      forall i :: 0 <= i < |ys| ==> GeneratedBelow1000(year, ys[i])
  {
    var ys := YearSlNos(year, existing);
    forall i | 0 <= i < |ys| ensures GeneratedBelow1000(year, ys[i]) {
      assert ys[i] in existing;
    }
  }

  /** The corrected generator reads the greatest number of the year. */
  lemma NextSlNoNumericAfter(year: nat, existing: seq<string>, n: int)
    requires MaxSlNumber(YearSlNos(year, existing)) == Some(n) && n >= 0
    ensures NextSlNoNumeric(year, existing) == FormatSlNo(year, n + 1)
  {
    var k := NumberAfter(MaxSlNumber(YearSlNos(year, existing)));
    assert k == n + 1;
  }

  /** At the thousandth mail of a year the lexicographic maximum is still "YEAR/999", so the
      generator as written hands out "YEAR/1000" a second time. */
  lemma NextSlNoRepeatsAfter1000(year: nat)
    ensures var existing := [FormatSlNo(year, 999), FormatSlNo(year, 1000)];
      NextSlNo(year, existing) == Success(FormatSlNo(year, 1000)) && FormatSlNo(year, 1000) in existing
  {
    var a := FormatSlNo(year, 999);
    var b := FormatSlNo(year, 1000);
    ThousandSortsFirst(year);
    YearSlNosOfPair(year, a, b);
    LexMaxPair(a, b);
    SlNoNumberRoundTrip(year, 999);
    NextSlNoOfLast(year, [a, b], a, 999);
  }

  lemma YearSlNosOfPair(year: nat, a: string, b: string)
    requires InYear(year, a) && InYear(year, b)
    ensures YearSlNos(year, [a, b]) == [a, b]
  {
    Query.FilterAll([a, b], (x: string) => InYear(year, x));
  }

  /** The generator as written reads the number inside the year's last serial number. */
  lemma NextSlNoOfLast(year: nat, existing: seq<string>, last: string, n: int)
    requires LexMax(YearSlNos(year, existing)) == Some(last) && SlNoNumber(last) == Some(n)
    ensures NextSlNo(year, existing) == Success(FormatSlNo(year, n + 1))
  {
    assert NextSlNo(year, existing) == SlNoAfter(year, Some(last));
    SlNoAfterNumber(year, last, n);
  }

  lemma SlNoAfterNumber(year: nat, last: string, n: int)
    requires SlNoNumber(last) == Some(n)
    ensures SlNoAfter(year, Some(last)) == Success(FormatSlNo(year, n + 1))
  {
  }

  /** Of two strings, LexMax picks the one the other sorts before. */
  lemma LexMaxPair(a: string, b: string)
    requires StrLess(b, a)
    ensures LexMax([a, b]) == Some(a)
  {
    assert [a, b][1..] == [b];
    assert [b][1..] == [];
    assert LexMax([b]) == Some(b);
  }

  /** "Y/1000" sorts before "Y/999". */
  lemma ThousandSortsFirst(year: nat)
    ensures StrLess(FormatSlNo(year, 1000), FormatSlNo(year, 999))
  {
    var t := NatToString(1000);
    assert t == NatToString(100) + ['0'];
    assert NatToString(100) == NatToString(10) + ['0'];
    assert NatToString(10) == NatToString(1) + ['0'];
    assert ZeroPad(1000, 3) == t;
    ZeroPadThreeDigits(999);
    StrLessCommonPrefix(YearPrefix(year), ZeroPad(1000, 3), ZeroPad(999, 3));
  }

  // ----- save() -----

  /** `get_dag()` of the assignee, as an id. */
  function MonitoringOfficerOf(assignee: User, users: seq<User>): Option<Id> {
    match GetDag(assignee, users)
    case Some(d) => Some(d.id)
    case None => None
  }

  /** The record `save` stores: a serial number when it has none (from the corrected
      generator), the assignee as current handler when none is set, and the assignee's DAG
      as monitoring officer when none is set. Nothing else changes. */
  function Save(m: MailRecord, year: nat, existing: seq<string>, users: seq<User>): (r: MailRecord)
    requires UserById(users, m.assignedTo).Some?
    ensures m.slNo != "" ==> r.slNo == m.slNo
    ensures m.slNo == "" ==> r.slNo == NextSlNoNumeric(year, existing) && r.slNo !in existing
    ensures m.currentHandler.Some? ==> r.currentHandler == m.currentHandler
    ensures m.currentHandler.None? ==> r.currentHandler == Some(m.assignedTo)
    ensures m.monitoringOfficer.Some? ==> r.monitoringOfficer == m.monitoringOfficer
    ensures m.monitoringOfficer.None? ==>
      r.monitoringOfficer == MonitoringOfficerOf(UserById(users, m.assignedTo).value, users)
    ensures r == m.(slNo := r.slNo, currentHandler := r.currentHandler, monitoringOfficer := r.monitoringOfficer)
  {
    NextSlNoNumericIsFresh(year, existing);
    var slNo := if m.slNo == "" then NextSlNoNumeric(year, existing) else m.slNo;
    var handler := if m.currentHandler.None? then Some(m.assignedTo) else m.currentHandler;
    var monitor := if m.monitoringOfficer.None? then MonitoringOfficerOf(UserById(users, m.assignedTo).value, users)
                   else m.monitoringOfficer;
    m.(slNo := slNo, currentHandler := handler, monitoringOfficer := monitor)
  }

  /** Saving a second time changes nothing. */
  lemma SaveIdempotent(m: MailRecord, year: nat, existing: seq<string>, users: seq<User>)
    requires UserById(users, m.assignedTo).Some?
    ensures var s := Save(m, year, existing, users);
      Save(s, year, existing + [s.slNo], users) == s
  {
    var s := Save(m, year, existing, users);
    ZeroPadNonEmpty(s, year, existing, m);
  }

  lemma ZeroPadNonEmpty(s: MailRecord, year: nat, existing: seq<string>, m: MailRecord)
    requires m.slNo == "" ==> s.slNo == NextSlNoNumeric(year, existing)
    requires m.slNo != "" ==> s.slNo == m.slNo
    ensures s.slNo != ""
  {
    if m.slNo == "" {
      assert InYear(year, s.slNo);
      assert |YearPrefix(year)| >= 1;
    }
  }

  // ----- time in the current stage -----

  const SecondsPerDay: int := 86400

  /** A timedelta as `days`, `seconds // 3600` and `(seconds % 3600) // 60`. */
  datatype Elapsed = Elapsed(days: int, hours: nat, minutes: nat)

  function SplitDelta(delta: int): (e: Elapsed)
    ensures e.hours < 24 && e.minutes < 60
    ensures e.days * SecondsPerDay + e.hours * 3600 + e.minutes * 60 <= delta
    ensures delta < e.days * SecondsPerDay + e.hours * 3600 + e.minutes * 60 + 60
  {
    var secs := delta % SecondsPerDay;
    Elapsed(delta / SecondsPerDay, secs / 3600, secs % 3600 / 60)
  }

  /** The split is the only one within those bounds. */
  lemma SplitDeltaUnique(delta: int, e: Elapsed)
    requires e.hours < 24 && e.minutes < 60
    requires e.days * SecondsPerDay + e.hours * 3600 + e.minutes * 60 <= delta
    requires delta < e.days * SecondsPerDay + e.hours * 3600 + e.minutes * 60 + 60
    ensures e == SplitDelta(delta)
  {
    var r := delta - e.days * SecondsPerDay;
    assert 0 <= r < SecondsPerDay;
    assert delta / SecondsPerDay == e.days;
    assert delta % SecondsPerDay == r;
    var q := r - e.hours * 3600;
    assert 0 <= q < 3600;
    assert r / 3600 == e.hours;
    assert r % 3600 / 60 == e.minutes;
  }

  /** The interval measured: creation to the end of the completion day for a closed mail with a
      completion date, otherwise the last status change to now. */
  function StageStart(m: MailRecord): int {
    if m.status == Closed && m.dateOfCompletion.Some? then m.createdAt else m.lastStatusChange
  }

  function StageEnd(m: MailRecord, now: int): int {
    if m.status == Closed && m.dateOfCompletion.Some? then m.dateOfCompletion.value * SecondsPerDay + SecondsPerDay - 1
    else now
  }

  /** `time_in_current_stage`: days and hours when at least a day has passed, else hours and
      minutes when at least an hour has, else minutes. */
  function TimeInCurrentStage(m: MailRecord, now: int): (r: string)
    ensures var e := SplitDelta(StageEnd(m, now) - StageStart(m));
      (e.days > 0 ==> r == NatToString(e.days) + " days " + NatToString(e.hours) + " hours")
      && (e.days <= 0 && e.hours > 0 ==> r == NatToString(e.hours) + " hours " + NatToString(e.minutes) + " mins")
      && (e.days <= 0 && e.hours == 0 ==> r == NatToString(e.minutes) + " mins")
  {
    var e := SplitDelta(StageEnd(m, now) - StageStart(m));
    if e.days > 0 then NatToString(e.days) + " days " + NatToString(e.hours) + " hours"
    else if e.hours > 0 then NatToString(e.hours) + " hours " + NatToString(e.minutes) + " mins"
    else NatToString(e.minutes) + " mins"
  }

  /** `is_overdue`: never for a closed mail, otherwise once today is past the due date. */
  predicate IsOverdue(m: MailRecord, today: int) {
    m.status != Closed && today > m.dueDate
  }

  // ----- the per-record predicates of the model class -----

  /** `can_view`: other roles than AG and DAG are treated as staff officers. */
  predicate CanViewLegacy(m: MailRecord, u: User, audit: seq<Audit.AuditEntry>) {
    if IsAg(u) then true
    else if IsDag(u) then m.section == u.section || m.id in Audit.TouchedIds(audit, u.id)
    else m.currentHandler == Some(u.id) || m.assignedTo == u.id || m.id in Audit.TouchedIds(audit, u.id)
  }

  predicate CanEditLegacy(m: MailRecord, u: User) {
    if IsAg(u) then true else if IsDag(u) then m.section == u.section else false
  }

  predicate CanReassignLegacy(m: MailRecord, u: User) {
    if IsAg(u) then true
    else if IsDag(u) && m.section == u.section then true
    else m.currentHandler == Some(u.id)
  }

  predicate CanCloseLegacy(m: MailRecord, u: User) {
    if IsAg(u) then true
    else if IsDag(u) && m.currentHandler == Some(u.id) then true
    else m.currentHandler == Some(u.id)
  }

  predicate CanReopenLegacy(m: MailRecord, u: User) {
    IsAg(u) && m.status == Closed
  }

  predicate CanMultiAssignLegacy(m: MailRecord, u: User) {
    if m.status == Closed then false else IsAg(u) || (IsDag(u) && m.section == u.section)
  }

  /** An AG passes every per-record test except reopening an open mail or multi-assigning a
      closed one. */
  lemma LegacyAgPasses(m: MailRecord, u: User, audit: seq<Audit.AuditEntry>)
    requires IsAg(u)
    ensures CanViewLegacy(m, u, audit) && CanEditLegacy(m, u) && CanReassignLegacy(m, u) && CanCloseLegacy(m, u)
    ensures CanReopenLegacy(m, u) <==> m.status == Closed
    ensures CanMultiAssignLegacy(m, u) <==> m.status != Closed
  {
  }

  /** The DAG branch of `can_close` adds nothing: AG or current handler. Staff officers can
      never edit. */
  lemma LegacyCloseAndEdit(m: MailRecord, u: User)
    ensures CanCloseLegacy(m, u) <==> IsAg(u) || m.currentHandler == Some(u.id)
    ensures CanEditLegacy(m, u) <==> IsAg(u) || (IsDag(u) && m.section == u.section)
    ensures IsStaffOfficer(u) ==> !CanEditLegacy(m, u)
  {
  }

  /** A user who is not AG or DAG, neither handler nor assignee, and absent from the audit log
      of the mail cannot view it. */
  lemma LegacyStaffViewOnlyIf(m: MailRecord, u: User, audit: seq<Audit.AuditEntry>)
    requires !IsAg(u) && !IsDag(u) && CanViewLegacy(m, u, audit)
    ensures m.currentHandler == Some(u.id) || m.assignedTo == u.id
      || exists i :: 0 <= i < |audit| && audit[i].performedBy == u.id && audit[i].mailId == m.id
  {
  }

  /** Reopen needs AG and a closed mail; multi-assign is impossible on a closed mail. */
  lemma LegacyReopenAndMultiAssign(m: MailRecord, u: User)
    ensures CanReopenLegacy(m, u) <==> IsAg(u) && m.status == Closed
    ensures m.status == Closed ==> !CanMultiAssignLegacy(m, u)
    ensures CanMultiAssignLegacy(m, u) ==> CanEditLegacy(m, u)
  {
  }

  // ----- consolidated remarks -----

  predicate ContributesRemark(a: MailAssignment) {
    (a.status == Active || a.status == Completed) && a.userRemarks.Some? && a.userRemarks.value != ""
  }

  function StatusLabel(a: MailAssignment): (s: string)
    ensures s == "[DONE]" <==> a.status == Completed
  {
    if a.status == Completed then "[DONE]" else "[IN PROGRESS]"
  }

  function RemarkPart(a: MailAssignment, users: seq<User>): string {
    StatusLabel(a) + " " + FullName(users, a.assignedTo) + ": " + a.userRemarks.GetOr("")
  }

  function AssignmentCreatedAt(a: MailAssignment): int { a.createdAt }

  /** The assignments that contribute, oldest first. */
  function Contributing(mine: seq<MailAssignment>): (r: seq<MailAssignment>)
    ensures r == [] <==> forall i :: 0 <= i < |mine| ==> !ContributesRemark(mine[i])
    ensures forall i :: 0 <= i < |r| ==> ContributesRemark(r[i])
    ensures forall i, j :: 0 <= i < j < |r| ==> r[i].createdAt <= r[j].createdAt
    ensures multiset(r) == multiset(Query.Filter(mine, ContributesRemark))
  {
    var f := Query.Filter(mine, ContributesRemark);
    var r := Query.SortBy(f, AssignmentCreatedAt);
    assert forall i :: 0 <= i < |r| ==> r[i] in multiset(f);
    r
  }

  function Parts(chosen: seq<MailAssignment>, users: seq<User>): (r: seq<string>)
    ensures |r| == |chosen|
    ensures forall i :: 0 <= i < |r| ==> r[i] == RemarkPart(chosen[i], users)
  {
    seq(|chosen|, i requires 0 <= i < |chosen| => RemarkPart(chosen[i], users))
  }

  const RemarkSeparator: string := "\n---\n"

  /** The consolidated remarks of a mail given its own assignments: None when none of them
      is Active or Completed with a non-empty response, otherwise one labelled part per such
      assignment in creation order, separated by a dashed line. */
  function ConsolidatedRemarks(mine: seq<MailAssignment>, users: seq<User>): (r: Option<string>)
    ensures r.None? <==> forall i :: 0 <= i < |mine| ==> !ContributesRemark(mine[i])
    ensures r.Some? ==> r.value == JoinWith(Parts(Contributing(mine), users), RemarkSeparator)
  {
    var chosen := Contributing(mine);
    if chosen == [] then None else Some(JoinWith(Parts(chosen, users), RemarkSeparator))
  }

  /** Revoked assignments and empty responses have no effect on the result. */
  lemma ConsolidatedRemarksIgnoreOthers(mine: seq<MailAssignment>, users: seq<User>)
    ensures ConsolidatedRemarks(Query.Filter(mine, ContributesRemark), users) == ConsolidatedRemarks(mine, users)
  {
    var f := Query.Filter(mine, ContributesRemark);
    Query.FilterAll(f, ContributesRemark);
    assert Contributing(f) == Contributing(mine);
  }

  /** `update_consolidated_remarks`: collect the labelled parts one by one, then join them. */
  method BuildConsolidatedRemarks(mine: seq<MailAssignment>, users: seq<User>) returns (r: Option<string>)
    ensures r == ConsolidatedRemarks(mine, users)
  {
    var chosen := Contributing(mine);
    if chosen == [] {
      return None;
    }
    var parts := CollectParts(chosen, users);
    r := Some(JoinWith(parts, RemarkSeparator));
  }

  /** The loop of `update_consolidated_remarks` that labels each contributing assignment. */
  method CollectParts(chosen: seq<MailAssignment>, users: seq<User>) returns (parts: seq<string>)
    ensures parts == Parts(chosen, users)
  {
    parts := [];
    var i := 0;
    while i < |chosen|
      invariant 0 <= i <= |chosen|
      invariant |parts| == i
      invariant forall k :: 0 <= k < i ==> parts[k] == RemarkPart(chosen[k], users)
    {
      parts := parts + [RemarkPart(chosen[i], users)];
      i := i + 1;
    }
  }

  /** The mail with its consolidated remarks recomputed from all assignments. */
  function WithConsolidatedRemarks(m: MailRecord, assignments: seq<MailAssignment>, users: seq<User>): (r: MailRecord)
    ensures r == m.(consolidatedRemarks := r.consolidatedRemarks)
    ensures r.consolidatedRemarks.None? <==>
      forall i :: 0 <= i < |assignments| && assignments[i].mailId == m.id ==> !ContributesRemark(assignments[i])
    ensures r.consolidatedRemarks == ConsolidatedRemarks(Query.Filter(assignments, (a: MailAssignment) => a.mailId == m.id), users)
  {
    var mine := Query.Filter(assignments, (a: MailAssignment) => a.mailId == m.id);
    m.(consolidatedRemarks := ConsolidatedRemarks(mine, users))
  }

  // ----- one Active assignment per mail and user -----

  predicate ActiveFor(a: MailAssignment, mailId: Id, user: Id) {
    a.status == Active && a.mailId == mailId && a.assignedTo == user
  }

  /** The unique constraint `unique_active_assignment_per_user`. */
  predicate UniqueActive(s: seq<MailAssignment>) {
    forall i, j :: 0 <= i < j < |s| && s[i].status == Active && s[j].status == Active ==>
      s[i].mailId != s[j].mailId || s[i].assignedTo != s[j].assignedTo
  }

  lemma {:induction false} AtMostOneActive(s: seq<MailAssignment>, mailId: Id, user: Id)
    requires UniqueActive(s)
    ensures Query.Count(s, (a: MailAssignment) => ActiveFor(a, mailId, user)) <= 1
  {
    if s != [] {
      var p := (a: MailAssignment) => ActiveFor(a, mailId, user);
      var rest := s[1..];
      assert UniqueActive(rest) by {
        forall i, j | 0 <= i < j < |rest| && rest[i].status == Active && rest[j].status == Active
          ensures rest[i].mailId != rest[j].mailId || rest[i].assignedTo != rest[j].assignedTo
        {
          assert rest[i] == s[i + 1] && rest[j] == s[j + 1];
        }
      }
      if p(s[0]) {
        forall i | 0 <= i < |rest| ensures !p(rest[i]) {
          assert rest[i] == s[i + 1];
        }
        Query.CountNone(rest, p);
      } else {
        AtMostOneActive(rest, mailId, user);
      }
    }
  }

  /** Inserting a row: refused by the database when it would be a second Active assignment of
      the same mail to the same user; the constraint holds afterwards. */
  function InsertAssignment(s: seq<MailAssignment>, a: MailAssignment): (r: Result<seq<MailAssignment>, string>)
    ensures r.Failure? <==> a.status == Active && exists i :: 0 <= i < |s| && ActiveFor(s[i], a.mailId, a.assignedTo)
    ensures r.Success? ==> r.value == s + [a]
    ensures r.Success? && UniqueActive(s) ==> UniqueActive(r.value)
  {
    if a.status == Active && exists i :: 0 <= i < |s| && ActiveFor(s[i], a.mailId, a.assignedTo) then
      Failure("IntegrityError")
    else
      assert forall i :: 0 <= i < |s| ==> (s + [a])[i] == s[i];
      Success(s + [a])
  }
}
