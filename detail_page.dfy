/** The decisions of the mail detail page (frontend/src/pages/MailDetailPage.jsx): which
    workflow buttons it offers, how it splits the assignments into top-level and child
    branches, and the branch table it builds from an assignment's remarks timeline. */
module DetailPage {
  import opened Wrappers
  import opened Text
  import opened Org
  import opened Records
  import opened Client
  import Query
  import Permissions

  // ----- buttons -----

  /** `current_handler_details?.id || current_handler`. */
  function HandlerId(m: MailView): Option<Id> { OrId(m.handlerDetailsId, m.currentHandler) }

  /** `section_details?.id || section`. */
  function SectionId(m: MailView): Option<Id> { OrId(m.sectionDetailsId, m.section) }

  /** A DAG whose section list holds the mail's (truthy) section id. */
  predicate DagOfSection(u: ClientUser, m: MailView) {
    u.role == DAG && TruthyId(SectionId(m)) && u.sections.Some? && SectionId(m).value in u.sections.value
  }

  predicate IsHandler(u: ClientUser, m: MailView) { HandlerId(m) == Some(u.id) }

  /** `canEditRemarks`. */
  predicate CanEditRemarks(mail: Option<MailView>, u: ClientUser) {
    mail.Some? && IsHandler(u, mail.value)
  }

  /** `canReassignMail`. */
  predicate CanReassignMail(mail: Option<MailView>, u: ClientUser) {
    mail.Some? && (u.role == AG || DagOfSection(u, mail.value) || IsHandler(u, mail.value))
  }

  /** `canCloseMail`. */
  predicate CanCloseMail(mail: Option<MailView>, u: ClientUser) {
    if mail.None? || mail.value.status == Closed then false
    else if mail.value.isMultiAssigned then u.role == AG
    else u.role == AG || IsHandler(u, mail.value)
  }

  /** `canReopenMail`: `canReopen()` of the auth context, which is the AG role, and a Closed
      mail. */
  predicate CanReopenMail(mail: Option<MailView>, u: ClientUser) {
    u.role == AG && mail.Some? && mail.value.status == Closed
  }

  /** The person an assignment is with now: `reassigned_to || assigned_to`. */
  function CurrentAssignee(a: AssignmentView): Option<Id> { OrId(a.reassignedTo, Some(a.assignedTo)) }

  predicate HoldsActive(u: ClientUser, m: MailView) {
    m.assignments.Some?
    && exists i :: 0 <= i < |m.assignments.value| && m.assignments.value[i].status == Active
         && CurrentAssignee(m.assignments.value[i]) == Some(u.id)
  }

  /** `canMultiAssign`. */
  predicate CanMultiAssign(mail: Option<MailView>, u: ClientUser) {
    if mail.None? || mail.value.status == Closed then false
    else u.role == AG || DagOfSection(u, mail.value) || (u.role == DAG && HoldsActive(u, mail.value))
  }

  /** The close button: never on a Closed mail; on a multi-assigned mail exactly for AG;
      otherwise for AG and the current handler. */
  lemma CloseButtonRule(mail: Option<MailView>, u: ClientUser)
    ensures mail.Some? && mail.value.status == Closed ==> !CanCloseMail(mail, u)
    ensures mail.Some? && mail.value.status != Closed && mail.value.isMultiAssigned ==> (CanCloseMail(mail, u) <==> u.role == AG)
    ensures mail.Some? && mail.value.status != Closed && !mail.value.isMultiAssigned ==>
      (CanCloseMail(mail, u) <==> u.role == AG || HandlerId(mail.value) == Some(u.id))
  {
  }

  /** The multi-assign button: never on a Closed mail; on an open one for AG, for a DAG of the
      mail's section, and for a DAG who is the current person on an Active assignment. */
  lemma MultiAssignButtonRule(mail: Option<MailView>, u: ClientUser, i: nat)
    ensures mail.Some? && mail.value.status == Closed ==> !CanMultiAssign(mail, u)
    ensures mail.Some? && mail.value.status != Closed && u.role == AG ==> CanMultiAssign(mail, u)
    ensures mail.Some? && mail.value.status != Closed && DagOfSection(u, mail.value) ==> CanMultiAssign(mail, u)
    ensures (mail.Some? && mail.value.status != Closed && u.role == DAG && mail.value.assignments.Some?
      && i < |mail.value.assignments.value| && mail.value.assignments.value[i].status == Active
      && CurrentAssignee(mail.value.assignments.value[i]) == Some(u.id)) ==> CanMultiAssign(mail, u)
    ensures CanMultiAssign(mail, u) && u.role != AG ==> u.role == DAG
  {
  }

  /** The reopen button is shown exactly to AG on a Closed mail. */
  lemma ReopenButtonRule(mail: Option<MailView>, u: ClientUser)
    ensures CanReopenMail(mail, u) <==> (u.role == AG && mail.Some? && mail.value.status == Closed)
  {
  }

  // ----- buttons against the server's gate -----

  /** For a stored mail, the reassign button is offered exactly when the object-level gate
      lets the reassign request through (section ids are never 0). */
  lemma ReassignButtonMatchesGate(u: User, m: MailRecord, db: Permissions.Db, av: seq<AssignmentView>)
    requires m.section != Some(0)
    ensures CanReassignMail(Some(MailOf(m, av)), UserOf(u)) <==> Permissions.ObjectPermission(u, Permissions.Reassign, m, db)
  {
  }

  /** The close button is offered only on an open mail the gate lets its user close; on a mail
      that is not multi-assigned the two agree exactly. */
  lemma CloseButtonWithinGate(u: User, m: MailRecord, db: Permissions.Db, av: seq<AssignmentView>)
    ensures CanCloseMail(Some(MailOf(m, av)), UserOf(u)) ==>
      m.status != Closed && Permissions.ObjectPermission(u, Permissions.Close, m, db)
    ensures !m.isMultiAssigned && m.status != Closed ==>
      (CanCloseMail(Some(MailOf(m, av)), UserOf(u)) <==> Permissions.ObjectPermission(u, Permissions.Close, m, db))
  {
  }

  /** The reopen button is offered only when the gate lets the request through, and the mail
      is Closed as the reopen action demands. */
  lemma ReopenButtonWithinGate(u: User, m: MailRecord, db: Permissions.Db, av: seq<AssignmentView>)
    ensures CanReopenMail(Some(MailOf(m, av)), UserOf(u)) ==>
      m.status == Closed && Permissions.ObjectPermission(u, Permissions.Reopen, m, db)
  {
  }

  /** The remarks editor is offered exactly to the current handler, whom the gate lets update
      the current action. */
  lemma EditRemarksMatchesHandler(u: User, m: MailRecord, db: Permissions.Db, av: seq<AssignmentView>)
    ensures CanEditRemarks(Some(MailOf(m, av)), UserOf(u)) <==> Permissions.IsHandler(u, m)
    ensures CanEditRemarks(Some(MailOf(m, av)), UserOf(u)) ==> Permissions.ObjectPermission(u, Permissions.UpdateCurrentAction, m, db)
  {
  }

  /** Every open mail the gate lets a user multi-assign shows the button (section ids are never
      0). */
  lemma MultiAssignGateShowsButton(u: User, m: MailRecord, db: Permissions.Db, av: seq<AssignmentView>)
    requires m.section != Some(0) && m.status != Closed
    requires Permissions.ObjectPermission(u, Permissions.MultiAssign, m, db)
    ensures CanMultiAssign(Some(MailOf(m, av)), UserOf(u))
  {
  }

  /** The converse fails: a DAG outside the mail's section who holds its Active assignment is
      shown the button, while the gate refuses the request. */
  lemma MultiAssignButtonBeyondGate()
    ensures var u := User(7, DAG, true, "D", None, {1}, None, {}, false);
      var m := Records.MailRecord(3, "1/2026", Review, None, 9, Some(9), Some(9), Some(2), None, 0,
                                  Assigned, None, 0, None, true, None, 9, 0);
      var a := AssignmentView(1, 7, None, 9, Active, false, None, None, None, None, None, None);
      CanMultiAssign(Some(MailOf(m, [a])), UserOf(u))
      && !Permissions.ObjectPermission(u, Permissions.MultiAssign, m, Permissions.Db([u], [], [], map[]))
  {
    var u := User(7, DAG, true, "D", None, {1}, None, {}, false);
    var m := Records.MailRecord(3, "1/2026", Review, None, 9, Some(9), Some(9), Some(2), None, 0,
                                Assigned, None, 0, None, true, None, 9, 0);
    var a := AssignmentView(1, 7, None, 9, Active, false, None, None, None, None, None, None);
    assert MailOf(m, [a]).assignments.value[0] == a;
  }

  // ----- top-level and child assignments -----

  function Assignments(m: MailView): seq<AssignmentView> {
    if m.assignments.Some? then m.assignments.value else []
  }

  predicate ByCreator(m: MailView, a: AssignmentView) { a.assignedBy == m.createdBy }

  /** The assignments the mail's creator made, in order. */
  function TopLevel(m: MailView): seq<AssignmentView> {
    Query.Filter(Assignments(m), (a: AssignmentView) => ByCreator(m, a))
  }

  /** The assignments anyone else made, in order. */
  function Children(m: MailView): seq<AssignmentView> {
    Query.Filter(Assignments(m), (a: AssignmentView) => !ByCreator(m, a))
  }

  /** The two lists partition the assignments: every assignment is in exactly one of them,
      each keeps the original order, and their sizes add up. */
  lemma AssignmentsPartition(m: MailView)
    ensures |TopLevel(m)| + |Children(m)| == |Assignments(m)|
    ensures multiset(TopLevel(m)) + multiset(Children(m)) == multiset(Assignments(m))
    ensures forall i :: 0 <= i < |TopLevel(m)| ==> TopLevel(m)[i].assignedBy == m.createdBy
    ensures forall i :: 0 <= i < |Children(m)| ==> Children(m)[i].assignedBy != m.createdBy
    ensures Query.IsSubsequence(TopLevel(m), Assignments(m)) && Query.IsSubsequence(Children(m), Assignments(m))
  {
    Query.FilterPartition(Assignments(m), (a: AssignmentView) => ByCreator(m, a), (a: AssignmentView) => !ByCreator(m, a));
  }

  // ----- the reassignment pattern -----

  /** The literal start of `/^Reassigned to\s+(.+?):\s*(.*)$/i`, compared ignoring case. */
  const ReassignPrefix: string := "reassigned to"

  /** The two groups of a match: the officer's name and the reason, as matched. */
  datatype ReassignMatch = ReassignMatch(officer: string, reason: string)

  /** Every character of s[a..b] is one `\s` matches. */
  predicate AllSpaceIn(s: string, a: nat, b: nat)
    requires a <= b <= |s|
  {
    forall i :: a <= i < b ==> IsJsSpace(s[i])
  }

  /** No character of s[a..b] is one `.` refuses. */
  predicate NoBreakIn(s: string, a: nat, b: nat)
    requires a <= b <= |s|
  {
    forall i :: a <= i < b ==> !IsJsLineTerminator(s[i])
  }

  /** The length of the run of spaces that starts at position p. */
  function SpacesFrom(s: string, p: nat): (n: nat)
    requires p <= |s|
    ensures p + n <= |s|
    decreases |s| - p
  {
    if p < |s| && IsJsSpace(s[p]) then 1 + SpacesFrom(s, p + 1) else 0
  }

  /** The run holds only spaces and stops before a character that is not one. */
  lemma {:induction false} SpacesFromSpec(s: string, p: nat)
    requires p <= |s|
    ensures AllSpaceIn(s, p, p + SpacesFrom(s, p))
    ensures p + SpacesFrom(s, p) < |s| ==> !IsJsSpace(s[p + SpacesFrom(s, p)])
    decreases |s| - p
  {
    if p < |s| && IsJsSpace(s[p]) { SpacesFromSpec(s, p + 1); }
  }

  /** `\s*(.*)$` matches from position p on: once the spaces are passed, no line break is
      left. */
  predicate TailAt(s: string, p: nat)
    requires p <= |s|
  {
    NoBreakIn(s, p + SpacesFrom(s, p), |s|)
  }

  /** The lazy `(.+?):` tried at ever larger colon positions from `c`: the first colon the
      rest of the text can follow, unless a line break comes first. */
  function ColonFrom(rest: string, c: nat): (r: Option<nat>)
    requires c <= |rest|
    ensures r.Some? ==> c <= r.value < |rest|
    decreases |rest| - c
  {
    if c == |rest| then None
    else if rest[c] == ':' && TailAt(rest, c + 1) then Some(c)
    else if IsJsLineTerminator(rest[c]) then None
    else ColonFrom(rest, c + 1)
  }

  /** With the officer's text starting at w, a found colon ends a text free of line breaks
      and is followed by a matching tail; when none is found, every colon with a matching
      tail comes after a line break. */
  lemma {:induction false} ColonFromSpec(rest: string, w: nat, c: nat)
    requires w < c <= |rest| && NoBreakIn(rest, w, c)
    ensures var r := ColonFrom(rest, c);
      r.Some? ==> rest[r.value] == ':' && TailAt(rest, r.value + 1) && NoBreakIn(rest, w, r.value)
    ensures ColonFrom(rest, c).None? ==>
      (forall k :: c <= k < |rest| && rest[k] == ':' && TailAt(rest, k + 1) ==> !NoBreakIn(rest, w, k))
    decreases |rest| - c
  {
    if c < |rest| && !(rest[c] == ':' && TailAt(rest, c + 1)) && !IsJsLineTerminator(rest[c]) {
      ColonFromSpec(rest, w, c + 1);
    }
  }

  /** The pattern's match on the text after the prefix. `\s+` first takes every leading
      space and the officer's text starts after them, its colon the first one the rest of the
      text can follow; failing that, `\s+` gives back its last space, which becomes the
      officer's text when a colon follows the spaces at once. */
  function MatchRest(rest: string): (r: Option<ReassignMatch>)
  {
    var w := SpacesFrom(rest, 0);
    if w == 0 || w == |rest| then None
    else
      match ColonFrom(rest, w + 1)
      case Some(c) => Some(ReassignMatch(rest[w..c], rest[c + 1 + SpacesFrom(rest, c + 1)..]))
      case None =>
        if w >= 2 && rest[w] == ':' && !IsJsLineTerminator(rest[w - 1]) && TailAt(rest, w + 1) then
          Some(ReassignMatch(rest[w - 1..w], rest[w + 1 + SpacesFrom(rest, w + 1)..]))
        else None
  }

  /** The pattern's match, when there is one: the prefix in any letter case, then the rest. */
  function MatchReassign(content: string): (r: Option<ReassignMatch>)
  {
    if |content| < |ReassignPrefix| || !EqualsIgnoringCase(content[..|ReassignPrefix|], ReassignPrefix) then None
    else MatchRest(content[|ReassignPrefix|..])
  }

  /** The text after the prefix splits as `\s+` up to j, then `(.+?)` from j to c, then the
      colon at c, then `\s*` up to d, then `(.*)` to the end. */
  ghost predicate Splits(rest: string, j: nat, c: nat, d: nat) {
    1 <= j < c < d <= |rest|
    && AllSpaceIn(rest, 0, j) && NoBreakIn(rest, j, c) && rest[c] == ':'
    && AllSpaceIn(rest, c + 1, d) && NoBreakIn(rest, d, |rest|)
  }

  /** Some split of the text after the prefix fits the pattern. */
  ghost predicate RestMatches(rest: string) {
    exists j: nat, c: nat, d: nat :: Splits(rest, j, c, d)
  }

  /** The regular expression matches the whole text. */
  ghost predicate PatternMatches(content: string) {
    |content| >= |ReassignPrefix| && EqualsIgnoringCase(content[..|ReassignPrefix|], ReassignPrefix)
    && RestMatches(content[|ReassignPrefix|..])
  }

  /** The split a match found after the prefix stands for. */
  ghost predicate SplitsAs(rest: string, g: ReassignMatch) {
    exists j: nat, c: nat, d: nat :: Splits(rest, j, c, d) && g.officer == rest[j..c] && g.reason == rest[d..]
  }

  /** A match at the first usable colon is a split of the pattern. */
  lemma SoundAtColon(rest: string, w: nat, c: nat)
    requires 0 < w < |rest| && w == SpacesFrom(rest, 0) && ColonFrom(rest, w + 1) == Some(c)
    ensures c + 1 <= |rest| && SplitsAs(rest, ReassignMatch(rest[w..c], rest[c + 1 + SpacesFrom(rest, c + 1)..]))
  {
    SpacesFromSpec(rest, 0);
    assert !IsJsLineTerminator(rest[w]);
    ColonFromSpec(rest, w, w + 1);
    SpacesFromSpec(rest, c + 1);
    var d := c + 1 + SpacesFrom(rest, c + 1);
    assert Splits(rest, w, c, d);
  }

  /** A match where `\s+` gives back its last space is a split of the pattern. */
  lemma SoundGivingBack(rest: string, w: nat)
    requires 2 <= w < |rest| && w == SpacesFrom(rest, 0) && rest[w] == ':' && TailAt(rest, w + 1)
    requires !IsJsLineTerminator(rest[w - 1])
    ensures SplitsAs(rest, ReassignMatch(rest[w - 1..w], rest[w + 1 + SpacesFrom(rest, w + 1)..]))
  {
    SpacesFromSpec(rest, 0);
    SpacesFromSpec(rest, w + 1);
    var d := w + 1 + SpacesFrom(rest, w + 1);
    assert Splits(rest, w - 1, w, d);
  }

  /** A match found after the prefix is a split of the pattern, with the groups where the
      split puts them. */
  lemma RestMatchIsSound(rest: string)
    requires MatchRest(rest).Some?
    ensures RestMatches(rest) && SplitsAs(rest, MatchRest(rest).value)
  {
    var w := SpacesFrom(rest, 0);
    match ColonFrom(rest, w + 1)
    case Some(c) =>
      SoundAtColon(rest, w, c);
    case None =>
      SoundGivingBack(rest, w);
  }

  /** A match found is a match of the pattern, with the groups where the split puts them. */
  lemma MatchIsSound(content: string)
    requires MatchReassign(content).Some?
    ensures PatternMatches(content)
    ensures SplitsAs(content[|ReassignPrefix|..], MatchReassign(content).value)
  {
    RestMatchIsSound(content[|ReassignPrefix|..]);
  }

  /** Whenever a split of the text after the prefix fits the pattern, a match is found. */
  lemma RestMatchIsComplete(rest: string, j: nat, c: nat, d: nat)
    requires Splits(rest, j, c, d)
    ensures MatchRest(rest).Some?
  {
    var w := SpacesFrom(rest, 0);
    SpacesFromSpec(rest, 0);
    assert IsJsSpace(rest[j - 1]);
    assert !IsJsSpace(rest[c]);
    assert j <= w <= c;
    SpacesFromSpec(rest, c + 1);
    assert TailAt(rest, c + 1);
    assert !IsJsLineTerminator(rest[w]);
    ColonFromSpec(rest, w, w + 1);
    if c == w {
      assert !IsJsLineTerminator(rest[w - 1]);
    }
  }

  /** Whenever the pattern matches, a match is found. */
  lemma MatchIsComplete(content: string)
    requires PatternMatches(content)
    ensures MatchReassign(content).Some?
  {
    var rest := content[|ReassignPrefix|..];
    var j: nat, c: nat, d: nat :| Splits(rest, j, c, d);
    RestMatchIsComplete(rest, j, c, d);
  }

  /** The pattern matches exactly when the model finds a match. */
  lemma MatchExactly(content: string)
    ensures MatchReassign(content).Some? <==> PatternMatches(content)
  {
    if MatchReassign(content).Some? { MatchIsSound(content); }
    if PatternMatches(content) { MatchIsComplete(content); }
  }

  /** `parsed[1]?.trim() || '-'`. */
  function NextOfficer(g: ReassignMatch): (s: string)
    ensures s != ""
  {
    var t := JsTrim(g.officer);
    if t == "" then "-" else t
  }

  // ----- the branch table -----

  /** One row of an assignment's branch table. */
  datatype BranchRow = BranchRow(officerId: Option<Id>, officer: string, remarks: string, reassignedTo: string, on: Option<int>)

  function RemarkTime(r: RemarkView): int { r.createdAt }

  /** The timeline by ascending creation time, equal times in their original order. */
  function SortedTimeline(a: AssignmentView): seq<RemarkView> {
    Query.SortBy(if a.timeline.Some? then a.timeline.value else [], RemarkTime)
  }

  /** `remark.content || ''`. */
  function ContentOf(r: RemarkView): string { if r.content.Some? then r.content.value else "" }

  predicate IsReassignRemark(r: RemarkView) { MatchReassign(ContentOf(r)).Some? }

  /** The officer a reassignment remark names, and nothing for any other remark. */
  function TargetOf(r: RemarkView): (t: seq<string>)
    ensures |t| == (if IsReassignRemark(r) then 1 else 0)
    ensures IsReassignRemark(r) ==> t == [NextOfficer(MatchReassign(ContentOf(r)).value)]
  {
    var parsed := MatchReassign(ContentOf(r));
    if parsed.Some? then [NextOfficer(parsed.value)] else []
  }

  /** The officers the timeline's reassignment remarks name, in timeline order. */
  function ReassignTargets(s: seq<RemarkView>): (r: seq<string>)
    ensures forall i :: 0 <= i < |r| ==> r[i] != ""
  {
    if s == [] then []
    else
      ReassignTargets(s[..|s| - 1]) + TargetOf(s[|s| - 1])
  }

  /** Taking one more remark of the timeline adds its target. */
  lemma TargetsOfPrefix(s: seq<RemarkView>, i: nat)
    requires i < |s|
    ensures ReassignTargets(s[..i + 1]) == ReassignTargets(s[..i]) + TargetOf(s[i])
  {
    assert s[..i + 1][..i] == s[..i];
  }

  /** There is one target per reassignment remark. */
  lemma {:induction false} TargetsCount(s: seq<RemarkView>)
    ensures |ReassignTargets(s)| == Query.Count(s, IsReassignRemark)
  {
    if s != [] {
      TargetsCount(s[..|s| - 1]);
      CountSnoc(s[..|s| - 1], s[|s| - 1], IsReassignRemark);
      assert s[..|s| - 1] + [s[|s| - 1]] == s;
    }
  }

  lemma {:induction false} CountSnoc<T>(s: seq<T>, x: T, p: T -> bool)
    ensures Query.Count(s + [x], p) == Query.Count(s, p) + (if p(x) then 1 else 0)
  {
    if s != [] {
      assert (s + [x])[1..] == s[1..] + [x];
      CountSnoc(s[1..], x, p);
    }
  }

  /** `assignment.assigned_to_details?.full_name || '-'`. */
  function FirstOfficer(a: AssignmentView): (s: string)
    ensures s != ""
  {
    OrText(a.assigneeName, "-")
  }

  /** An Active assignment nobody has written on. */
  predicate Untouched(a: AssignmentView) { a.status == Active && |SortedTimeline(a)| == 0 }

  /** `remarkByOfficer[officer] || fallback`. */
  function RemarkOr(byOfficer: map<string, string>, officer: string, fallback: string): (r: string)
    ensures fallback != "" ==> r != ""
  {
    if officer in byOfficer && byOfficer[officer] != "" then byOfficer[officer] else fallback
  }

  /** The row a reassignment remark adds: the officer who held the assignment, their latest
      remark or else the reason given, and the officer named. */
  function ReassignRow(byOfficer: map<string, string>, officer: string, g: ReassignMatch, at: int): (row: BranchRow)
    ensures row.officer == officer && row.reassignedTo == NextOfficer(g) && row.remarks != ""
    ensures row.remarks == RemarkOr(byOfficer, officer, if JsTrim(g.reason) != "" then JsTrim(g.reason) else "-")
    ensures row.officerId.None? && row.on == Some(at)
  {
    var reason := JsTrim(g.reason);
    BranchRow(None, officer, RemarkOr(byOfficer, officer, if reason != "" then reason else "-"), NextOfficer(g), Some(at))
  }

  /** Who holds the assignment after the remarks `s`: the last officer they name, or `first`. */
  function Holder(s: seq<RemarkView>, first: string): string {
    var t := ReassignTargets(s);
    if t == [] then first else t[|t| - 1]
  }

  /** `remarkByOfficer` after the remarks `s`: a remark that is no reassignment becomes the
      latest word of its author, or of whoever held the assignment then when it has none. */
  function RemarkMap(s: seq<RemarkView>, first: string): map<string, string>
    decreases |s|
  {
    if s == [] then map[]
    else
      var p := s[..|s| - 1];
      var r := s[|s| - 1];
      var m := RemarkMap(p, first);
      if IsReassignRemark(r) then m
      else m[(if TruthyText(r.authorName) then r.authorName.value else Holder(p, first)) := ContentOf(r)]
  }

  /** The handover rows the remarks `s` give: one per reassignment remark, for the officer
      holding the assignment then, with the remark map as it stood then. */
  function HandoverRows(s: seq<RemarkView>, first: string): seq<BranchRow>
    decreases |s|
  {
    if s == [] then []
    else
      var p := s[..|s| - 1];
      var r := s[|s| - 1];
      HandoverRows(p, first) +
        (if IsReassignRemark(r) then [ReassignRow(RemarkMap(p, first), Holder(p, first), MatchReassign(ContentOf(r)).value, r.createdAt)]
         else [])
  }

  /** The handover rows of a prefix of the timeline begin the handover rows of the whole. */
  lemma {:induction false} HandoverRowsPrefix(s: seq<RemarkView>, first: string, i: nat)
    requires i <= |s|
    ensures |HandoverRows(s[..i], first)| <= |HandoverRows(s, first)|
    ensures HandoverRows(s[..i], first) == HandoverRows(s, first)[..|HandoverRows(s[..i], first)|]
    decreases |s| - i
  {
    if i == |s| {
      assert s[..i] == s;
    } else {
      HandoverRowsPrefix(s, first, i + 1);
      var a := HandoverRows(s[..i], first);
      var b := HandoverRows(s[..i + 1], first);
      var c := HandoverRows(s, first);
      assert s[..i + 1][..i] == s[..i];
      assert b[..|a|] == a;
      assert c[..|a|] == c[..|b|][..|a|];
    }
  }

  /** The handover row of the reassignment remark at `j`: the officer who held the
      assignment, their latest remark or else the trimmed reason or '-', the officer named,
      and the remark's date. */
  lemma HandoverRowAt(s: seq<RemarkView>, first: string, j: nat)
    requires j < |s| && IsReassignRemark(s[j])
    ensures |HandoverRows(s[..j], first)| < |HandoverRows(s, first)|
    ensures var k := |HandoverRows(s[..j], first)|;
      var g := MatchReassign(ContentOf(s[j])).value;
      var reason := JsTrim(g.reason);
      var row := HandoverRows(s, first)[k];
      row.officer == Holder(s[..j], first) && row.reassignedTo == NextOfficer(g) &&
      row.remarks == RemarkOr(RemarkMap(s[..j], first), Holder(s[..j], first), if reason != "" then reason else "-") &&
      row.on == Some(s[j].createdAt)
  {
    HandoverRowsPrefix(s, first, j + 1);
    WalkStep(s, first, j);
    var a := HandoverRows(s[..j], first);
    var b := HandoverRows(s[..j + 1], first);
    var row := ReassignRow(RemarkMap(s[..j], first), Holder(s[..j], first), MatchReassign(ContentOf(s[j])).value, s[j].createdAt);
    assert b == a + [row];
    assert HandoverRows(s, first)[|a|] == b[|a|] == row;
  }

  /** The specification functions one remark further along the timeline. */
  lemma WalkStep(s: seq<RemarkView>, first: string, i: nat)
    requires i < |s|
    ensures var p := s[..i];
      var r := s[i];
      RemarkMap(s[..i + 1], first) ==
        (if IsReassignRemark(r) then RemarkMap(p, first)
         else RemarkMap(p, first)[(if TruthyText(r.authorName) then r.authorName.value else Holder(p, first)) := ContentOf(r)]) &&
      HandoverRows(s[..i + 1], first) == HandoverRows(p, first) +
        (if IsReassignRemark(r) then [ReassignRow(RemarkMap(p, first), Holder(p, first), MatchReassign(ContentOf(r)).value, r.createdAt)]
         else []) &&
      Holder(s[..i + 1], first) == (if IsReassignRemark(r) then NextOfficer(MatchReassign(ContentOf(r)).value) else Holder(p, first))
  {
    assert s[..i + 1][..i] == s[..i] && s[..i + 1][i] == s[i];
    TargetsOfPrefix(s, i);
  }

  /** One step of the walk over the timeline: a reassignment remark adds the row of the
      officer who held the assignment and hands it to the officer named; any other remark is
      remembered as its author's latest word, or the current officer's when it has no author. */
  method AbsorbRemark(rows: seq<BranchRow>, byOfficer: map<string, string>, current: string, remark: RemarkView)
    returns (rows': seq<BranchRow>, byOfficer': map<string, string>, current': string, reassigned: bool)
    ensures TargetOf(remark) == (if reassigned then [current'] else [])
    ensures reassigned <==> IsReassignRemark(remark)
    ensures !reassigned ==> rows' == rows && current' == current
    ensures !reassigned ==>
      byOfficer' == byOfficer[(if TruthyText(remark.authorName) then remark.authorName.value else current) := ContentOf(remark)]
    ensures reassigned ==>
      (byOfficer' == byOfficer &&
       rows' == rows + [ReassignRow(byOfficer, current, MatchReassign(ContentOf(remark)).value, remark.createdAt)])
    ensures reassigned ==>
      (|rows'| == |rows| + 1 && rows' == rows + [rows'[|rows|]]
       && rows'[|rows|].officer == current && rows'[|rows|].reassignedTo == current'
       && rows'[|rows|].remarks != "" && rows'[|rows|].officerId.None?)
  {
    var content := ContentOf(remark);
    var parsed := MatchReassign(content);
    reassigned := parsed.Some?;
    if parsed.None? {
      rows', current' := rows, current;
      if TruthyText(remark.authorName) {
        byOfficer' := byOfficer[remark.authorName.value := content];
      } else {
        byOfficer' := byOfficer[current := content];
      }
    } else {
      byOfficer' := byOfficer;
      current' := NextOfficer(parsed.value);
      rows' := rows + [ReassignRow(byOfficer, current, parsed.value, remark.createdAt)];
    }
  }

  /** The rows so far hand the assignment from `first` along `targets`, ending with `current`;
      each row names a target, has remarks and no officer id. */
  ghost predicate Chain(rows: seq<BranchRow>, targets: seq<string>, first: string, current: string) {
    && |rows| == |targets|
    && first != "" && current != ""
    && (forall k :: 0 <= k < |targets| ==> targets[k] != "")
    && (forall k :: 0 <= k < |rows| ==> rows[k].reassignedTo == targets[k])
    && (|rows| > 0 ==> rows[0].officer == first)
    && (forall k :: 1 <= k < |rows| ==> rows[k].officer == rows[k - 1].reassignedTo)
    && current == (if |rows| == 0 then first else rows[|rows| - 1].reassignedTo)
    && (forall k :: 0 <= k < |rows| ==> rows[k].remarks != "")
    && (forall k :: 0 <= k < |rows| ==> rows[k].officerId.None?)
    && (forall k :: 0 <= k < |rows| ==> rows[k].officer != "")
  }

  /** A handover row from the current officer to a new one extends the chain. */
  lemma ChainExtend(rows: seq<BranchRow>, targets: seq<string>, first: string, current: string, row: BranchRow)
    requires Chain(rows, targets, first, current)
    requires row.officer == current && row.reassignedTo != "" && row.remarks != "" && row.officerId.None?
    ensures Chain(rows + [row], targets + [row.reassignedTo], first, row.reassignedTo)
  {
  }

  /** The final row, for whoever holds the assignment now, closes the chain. */
  lemma ChainClose(rows: seq<BranchRow>, targets: seq<string>, first: string, current: string, last: BranchRow)
    requires Chain(rows, targets, first, current)
    requires last.officer == current && last.remarks != ""
    ensures var all := rows + [last];
      |all| == |targets| + 1
      && all[0].officer == first
      && (forall i :: 0 <= i < |targets| ==> all[i].reassignedTo == targets[i] && all[i + 1].officer == targets[i])
      && all[|all| - 1].officer == (if |targets| == 0 then first else targets[|targets| - 1])
      && (forall i :: 0 <= i < |all| ==> all[i].remarks != "" && all[i].officer != "")
      && (forall i :: 0 <= i < |all| - 1 ==> all[i].officerId.None? && all[i].reassignedTo != "")
  {
  }

  /** The handover rows of any timeline form a chain from the original assignee to whoever
      holds the assignment after it. */
  lemma {:induction false} HandoverChain(s: seq<RemarkView>, first: string)
    requires first != ""
    ensures Chain(HandoverRows(s, first), ReassignTargets(s), first, Holder(s, first))
    decreases |s|
  {
    if s != [] {
      var p := s[..|s| - 1];
      var r := s[|s| - 1];
      HandoverChain(p, first);
      if IsReassignRemark(r) {
        var row := ReassignRow(RemarkMap(p, first), Holder(p, first), MatchReassign(ContentOf(r)).value, r.createdAt);
        ChainExtend(HandoverRows(p, first), ReassignTargets(p), first, Holder(p, first), row);
      }
    }
  }

  /** The walk over the sorted timeline, from the original assignee. */
  method WalkTimeline(timeline: seq<RemarkView>, first: string) returns (rows: seq<BranchRow>, byOfficer: map<string, string>, current: string)
    requires first != ""
    ensures Chain(rows, ReassignTargets(timeline), first, current)
    ensures rows == HandoverRows(timeline, first) && byOfficer == RemarkMap(timeline, first)
    ensures current == Holder(timeline, first)
  {
    byOfficer := map[];
    current := first;
    rows := [];
    assert timeline[..0] == [];
    var i := 0;
    while i < |timeline|
      invariant 0 <= i <= |timeline|
      invariant rows == HandoverRows(timeline[..i], first) && byOfficer == RemarkMap(timeline[..i], first)
      invariant current == Holder(timeline[..i], first)
    {
      var remark := timeline[i];
      WalkStep(timeline, first, i);
      var reassigned;
      rows, byOfficer, current, reassigned := AbsorbRemark(rows, byOfficer, current, remark);
      i := i + 1;
    }
    assert timeline[..|timeline|] == timeline;
    HandoverChain(timeline, first);
  }

  /** The row for whoever holds the assignment now: 'Still Working' on an untouched Active
      assignment, else their latest remark or '-', dated by completion, update or creation. */
  function FinalRow(a: AssignmentView, byOfficer: map<string, string>, current: string): (row: BranchRow)
    ensures row.officer == current && row.remarks != ""
    ensures row.officerId == (if TruthyId(a.reassignedTo) then a.reassignedTo
                              else if a.assignedTo != 0 then Some(a.assignedTo) else None)
    ensures Untouched(a) ==> row.remarks == "Still Working" && row.reassignedTo == "" && row.on.None?
    ensures !Untouched(a) ==> row.reassignedTo == "-" && row.on == OrTime(a.completedAt, OrTime(a.updatedAt, a.createdAt))
    ensures !Untouched(a) ==> row.remarks == RemarkOr(byOfficer, current, "-")
  {
    var officerId := if TruthyId(a.reassignedTo) then a.reassignedTo
                     else if a.assignedTo != 0 then Some(a.assignedTo) else None;
    if Untouched(a) then BranchRow(officerId, current, "Still Working", "", None)
    else BranchRow(officerId, current, RemarkOr(byOfficer, current, "-"), "-",
                   OrTime(a.completedAt, OrTime(a.updatedAt, a.createdAt)))
  }

  /** `buildAssignmentBranchRows`: one row for each reassignment remark of the sorted timeline,
      naming the officer who held the assignment and the one it went to, then a final row for
      whoever holds it now. Every other remark is remembered as the latest word of its author.
      The rows form a chain from the original assignee; every row has remarks, and an
      untouched Active assignment gives the single row 'Still Working'. */
  method BuildBranchRows(a: AssignmentView) returns (rows: seq<BranchRow>)
    ensures var targets := ReassignTargets(SortedTimeline(a));
      |rows| == |targets| + 1
      && rows[0].officer == FirstOfficer(a)
      && (forall i :: 0 <= i < |targets| ==> rows[i].reassignedTo == targets[i] && rows[i + 1].officer == targets[i])
      && rows[|rows| - 1].officer == (if |targets| == 0 then FirstOfficer(a) else targets[|targets| - 1])
    ensures forall i :: 0 <= i < |rows| ==> rows[i].remarks != "" && rows[i].officer != ""
    ensures forall i :: 0 <= i < |rows| - 1 ==> rows[i].officerId.None? && rows[i].reassignedTo != ""
    ensures rows[|rows| - 1].officerId == (if TruthyId(a.reassignedTo) then a.reassignedTo
                                           else if a.assignedTo != 0 then Some(a.assignedTo) else None)
    ensures Untouched(a) ==>
      (|rows| == 1 && rows[0].officer == FirstOfficer(a) && rows[0].remarks == "Still Working"
       && rows[0].reassignedTo == "" && rows[0].on.None?)
    ensures !Untouched(a) ==>
      (rows[|rows| - 1].reassignedTo == "-" && rows[|rows| - 1].on == OrTime(a.completedAt, OrTime(a.updatedAt, a.createdAt)))
    ensures rows[..|rows| - 1] == HandoverRows(SortedTimeline(a), FirstOfficer(a))
    ensures !Untouched(a) ==>
      rows[|rows| - 1].remarks == RemarkOr(RemarkMap(SortedTimeline(a), FirstOfficer(a)), rows[|rows| - 1].officer, "-")
  {
    var timeline := SortedTimeline(a);
    var byOfficer, current;
    rows, byOfficer, current := WalkTimeline(timeline, FirstOfficer(a));
    var last := FinalRow(a, byOfficer, current);
    ChainClose(rows, ReassignTargets(timeline), FirstOfficer(a), current, last);
    rows := rows + [last];
  }
}
