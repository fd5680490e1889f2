/** The audit log (backend/audit/models.py): one row per workflow action on a mail, created
    through `AuditTrail.objects.create` or the `log_action` helper and read back in
    timestamp order. */
module Audit {
  import opened Wrappers
  import Query

  type Id = nat

  datatype AuditAction = Create | Assign | Reassign | Update | Close | Reopen

  /** The stored tag of each action (ACTION_CHOICES). */
  function Tag(a: AuditAction): (s: string)
    ensures |s| > 0
  {
    match a
    case Create => "CREATE"
    case Assign => "ASSIGN"
    case Reassign => "REASSIGN"
    case Update => "UPDATE"
    case Close => "CLOSE"
    case Reopen => "REOPEN"
  }

  /** Reading a stored tag back; anything outside the six choices is refused. */
  function ParseTag(s: string): (r: Option<AuditAction>)
    ensures r.Some? ==> Tag(r.value) == s
  {
    if s == "CREATE" then Some(Create)
    else if s == "ASSIGN" then Some(Assign)
    else if s == "REASSIGN" then Some(Reassign)
    else if s == "UPDATE" then Some(Update)
    else if s == "CLOSE" then Some(Close)
    else if s == "REOPEN" then Some(Reopen)
    else None
  }

  /** Every action's tag reads back as that action, so the six tags are distinct. */
  lemma TagRoundTrip(a: AuditAction)
    ensures ParseTag(Tag(a)) == Some(a)
  {
  }

  lemma TagInjective(a: AuditAction, b: AuditAction)
    requires Tag(a) == Tag(b)
    ensures a == b
  {
    TagRoundTrip(a);
    TagRoundTrip(b);
  }

  /** A value inside the JSON objects kept in old_value and new_value. A date is kept as its
      day number and stands for its ISO text. */
  datatype JsonVal = JNull | JStr(s: string) | JDate(day: int)

  type JsonObj = map<string, JsonVal>

  /** One audit row. `timestamp` is the creation time in seconds; `remarks` may be NULL. */
  datatype AuditEntry = AuditEntry(
    mailId: Id,
    action: AuditAction,
    performedBy: Id,
    timestamp: int,
    oldValue: Option<JsonObj>,
    newValue: Option<JsonObj>,
    remarks: Option<string>)

  /** Ids of the mails a user appears on as performer (`values_list('mail_record_id').distinct()`). */
  function TouchedIds(entries: seq<AuditEntry>, user: Id): (r: set<Id>)
    ensures forall i :: 0 <= i < |entries| && entries[i].performedBy == user ==> entries[i].mailId in r
    ensures forall m :: m in r ==> exists i :: 0 <= i < |entries| && entries[i].performedBy == user && entries[i].mailId == m
  {
    set i | 0 <= i < |entries| && entries[i].performedBy == user :: entries[i].mailId
  }

  /** Appending an entry adds its mail to its performer's touched ids and touches nothing
      else. */
  lemma TouchedIdsAppend(entries: seq<AuditEntry>, e: AuditEntry, user: Id)
    ensures TouchedIds(entries + [e], user) ==
      TouchedIds(entries, user) + (if e.performedBy == user then {e.mailId} else {})
  {
    var l := TouchedIds(entries + [e], user);
    var r := TouchedIds(entries, user) + (if e.performedBy == user then {e.mailId} else {});
    forall m | m in l ensures m in r {
      var i :| 0 <= i < |entries + [e]| && (entries + [e])[i].performedBy == user && (entries + [e])[i].mailId == m;
      if i < |entries| {
        assert entries[i] == (entries + [e])[i];
      }
    }
    forall m | m in r ensures m in l {
      if m in TouchedIds(entries, user) {
        var i :| 0 <= i < |entries| && entries[i].performedBy == user && entries[i].mailId == m;
        assert (entries + [e])[i] == entries[i];
      } else {
        assert (entries + [e])[|entries|] == e;
      }
    }
  }

  predicate IsForMail(e: AuditEntry, mailId: Id) { e.mailId == mailId }

  function Timestamp(e: AuditEntry): int { e.timestamp }

  /** The history of one mail as the default ordering returns it: its entries by ascending
      timestamp, entries with equal timestamps in insertion order. */
  function History(entries: seq<AuditEntry>, mailId: Id): (r: seq<AuditEntry>)
    ensures forall i, j :: 0 <= i < j < |r| ==> r[i].timestamp <= r[j].timestamp
    ensures multiset(r) == multiset(Query.Filter(entries, (e: AuditEntry) => IsForMail(e, mailId)))
    ensures forall i :: 0 <= i < |r| ==> r[i].mailId == mailId
  {
    var mine := Query.Filter(entries, (e: AuditEntry) => IsForMail(e, mailId));
    var r := Query.SortBy(mine, Timestamp);
    forall i | 0 <= i < |r| ensures r[i].mailId == mailId {
      assert r[i] in multiset(mine);
      assert r[i] in mine;
    }
    r
  }

  predicate Chronological(entries: seq<AuditEntry>) {
    forall i, j :: 0 <= i < j < |entries| ==> entries[i].timestamp <= entries[j].timestamp
  }

  /** When rows were written in time order the history is the mail's rows as written. */
  lemma {:induction false} HistoryOfChronological(entries: seq<AuditEntry>, mailId: Id)
    requires Chronological(entries)
    ensures History(entries, mailId) == Query.Filter(entries, (e: AuditEntry) => IsForMail(e, mailId))
  {
    var p := (e: AuditEntry) => IsForMail(e, mailId);
    assert Query.SortedBy(entries, Timestamp);
    Query.FilterSorted(entries, p, Timestamp);
    Query.SortBySorted(Query.Filter(entries, p), Timestamp);
  }

  /** The audit table. Rows are only ever added. */
  class AuditTrail {
    var entries: seq<AuditEntry>

    constructor()
      ensures entries == []
    {
      entries := [];
    }

    /** `AuditTrail.objects.create(...)`: one row with exactly the given fields, stamped
        with the current time. */
    method Record(mailId: Id, action: AuditAction, performedBy: Id, now: int,
                  oldValue: Option<JsonObj>, newValue: Option<JsonObj>, remarks: Option<string>)
      returns (e: AuditEntry)
      modifies this
      ensures e == AuditEntry(mailId, action, performedBy, now, oldValue, newValue, remarks)
      ensures entries == old(entries) + [e]
    {
      e := AuditEntry(mailId, action, performedBy, now, oldValue, newValue, remarks);
      entries := entries + [e];
    }

    /** `log_action`: remarks default to the empty text, old and new values to NULL. */
    method LogAction(mailId: Id, action: AuditAction, performedBy: Id, now: int,
                     remarks: Option<string> := Some(""),
                     oldValue: Option<JsonObj> := None, newValue: Option<JsonObj> := None)
      returns (e: AuditEntry)
      modifies this
      ensures e == AuditEntry(mailId, action, performedBy, now, oldValue, newValue, remarks)
      ensures entries == old(entries) + [e]
    {
      e := Record(mailId, action, performedBy, now, oldValue, newValue, remarks);
    }

    /** A call that leaves the optional arguments out gets the defaults. */
    method LogActionWithDefaults(mailId: Id, action: AuditAction, performedBy: Id, now: int)
      returns (e: AuditEntry)
      modifies this
      ensures e.remarks == Some("") && e.oldValue.None? && e.newValue.None?
      ensures e.mailId == mailId && e.action == action && e.performedBy == performedBy
      ensures entries == old(entries) + [e]
    {
      e := LogAction(mailId, action, performedBy, now);
    }
  }
}
