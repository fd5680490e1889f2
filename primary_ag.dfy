/** The data migration that picks a primary AG (backend/users/migrations/0006_set_primary_ag.py)
    over the user table, together with the unique constraint of the migration before it
    (backend/users/migrations/0005_user_is_primary_ag.py): at most one row has role AG and
    the primary flag set. */
module PrimaryAg {
  import opened Wrappers
  import opened Org

  /** The rows the unique constraint ranges over. */
  predicate IsPrimaryAgRow(u: User) { u.role == AG && u.isPrimaryAg }

  predicate IsActivePrimaryAg(u: User) { u.role == AG && u.isActive && u.isPrimaryAg }

  /** The unique constraint `unique_primary_ag_user`. */
  predicate AtMostOnePrimaryAg(rows: seq<User>) {
    forall i, j :: 0 <= i < j < |rows| && IsPrimaryAgRow(rows[i]) ==> !IsPrimaryAgRow(rows[j])
  }

  predicate HasActivePrimaryAg(rows: seq<User>) {
    exists i :: 0 <= i < |rows| && IsActivePrimaryAg(rows[i])
  }

  predicate HasPrimaryAg(rows: seq<User>) {
    exists i :: 0 <= i < |rows| && IsPrimaryAgRow(rows[i])
  }

  predicate HasActiveAg(rows: seq<User>) {
    exists i :: 0 <= i < |rows| && IsActiveAg(rows[i])
  }

  /** Position of the active AG with the smallest id (`order_by('id').first()`); among equal
      ids the earlier row. */
  function LeastIdActiveAg(rows: seq<User>): (r: Option<nat>)
    ensures r.None? <==> !HasActiveAg(rows)
    ensures r.Some? ==> r.value < |rows| && IsActiveAg(rows[r.value])
    ensures r.Some? ==> forall j :: 0 <= j < |rows| && IsActiveAg(rows[j]) ==> rows[r.value].id <= rows[j].id
  {
    if rows == [] then None
    else
      var rest := LeastIdActiveAg(rows[1..]);
      assert forall j :: 1 <= j < |rows| ==> rows[j] == rows[1..][j - 1];
      match rest
      case None => if IsActiveAg(rows[0]) then Some(0) else None
      case Some(k) => if IsActiveAg(rows[0]) && rows[0].id <= rows[k + 1].id then Some(0) else Some(k + 1)
  }

  /** Row k with the primary flag raised. */
  function Promote(rows: seq<User>, k: nat): (r: seq<User>)
    requires k < |rows|
    ensures |r| == |rows| && r[k].isPrimaryAg
    ensures forall i :: 0 <= i < |rows| && i != k ==> r[i] == rows[i]
    ensures r[k].(isPrimaryAg := rows[k].isPrimaryAg) == rows[k]
  {
    rows[k := rows[k].(isPrimaryAg := true)]
  }

  /** The table `set_primary_ag` asks the database to store, as written: nothing when an
      ACTIVE primary AG exists, otherwise the least-id active AG promoted, if there is one. */
  function SetPrimaryAgRows(rows: seq<User>): (r: seq<User>)
    ensures |r| == |rows|
    ensures HasActivePrimaryAg(rows) || !HasActiveAg(rows) ==> r == rows
    ensures !HasActivePrimaryAg(rows) && HasActiveAg(rows) ==>
      exists k :: 0 <= k < |rows| && r == Promote(rows, k) && IsActiveAg(rows[k])
        && forall j :: 0 <= j < |rows| && IsActiveAg(rows[j]) ==> rows[k].id <= rows[j].id
  {
    if HasActivePrimaryAg(rows) then rows
    else match LeastIdActiveAg(rows)
      case None => rows
      case Some(k) => Promote(rows, k)
  }

  /** The same migration with the guard the constraint calls for: any AG row that already
      holds the flag stops it. */
  function SetPrimaryAgGuardedRows(rows: seq<User>): (r: seq<User>)
    ensures |r| == |rows|
    ensures HasPrimaryAg(rows) || !HasActiveAg(rows) ==> r == rows
    ensures !HasPrimaryAg(rows) && HasActiveAg(rows) ==>
      exists k :: 0 <= k < |rows| && r == Promote(rows, k) && IsActiveAg(rows[k])
        && forall j :: 0 <= j < |rows| && IsActiveAg(rows[j]) ==> rows[k].id <= rows[j].id
  {
    if HasPrimaryAg(rows) then rows
    else match LeastIdActiveAg(rows)
      case None => rows
      case Some(k) => Promote(rows, k)
  }

  /** `unset_primary_ag`: the flag cleared on every AG row, nothing else touched. */
  function UnsetPrimaryAgRows(rows: seq<User>): (r: seq<User>)
    ensures |r| == |rows|
    ensures forall i :: 0 <= i < |r| ==> !IsPrimaryAgRow(r[i])
    ensures forall i :: 0 <= i < |r| ==> r[i].(isPrimaryAg := rows[i].isPrimaryAg) == rows[i]
    ensures forall i :: 0 <= i < |r| && rows[i].role != AG ==> r[i] == rows[i]
  {
    if rows == [] then []
    else
      var head := if rows[0].role == AG then rows[0].(isPrimaryAg := false) else rows[0];
      [head] + UnsetPrimaryAgRows(rows[1..])
  }

  // ----- properties -----

  /** Promoting an active AG gives an active primary AG. */
  lemma PromoteGivesActivePrimary(rows: seq<User>, k: nat)
    requires k < |rows| && IsActiveAg(rows[k])
    ensures HasActivePrimaryAg(Promote(rows, k))
  {
    assert IsActivePrimaryAg(Promote(rows, k)[k]);
  }

  /** After the migration there is an active primary AG whenever there is an active AG. */
  lemma SetPrimaryAgEstablishesPrimary(rows: seq<User>)
    requires HasActiveAg(rows)
    ensures HasActivePrimaryAg(SetPrimaryAgRows(rows))
  {
    if !HasActivePrimaryAg(rows) {
      var k :| 0 <= k < |rows| && SetPrimaryAgRows(rows) == Promote(rows, k) && IsActiveAg(rows[k]);
      PromoteGivesActivePrimary(rows, k);
    }
  }

  /** A second run changes nothing. */
  lemma SetPrimaryAgIdempotent(rows: seq<User>)
    ensures SetPrimaryAgRows(SetPrimaryAgRows(rows)) == SetPrimaryAgRows(rows)
  {
    if HasActiveAg(rows) {
      SetPrimaryAgEstablishesPrimary(rows);
    }
  }

  /** Promoting one row keeps the constraint when no other row is an AG holding the flag. */
  lemma PromoteKeepsUnique(rows: seq<User>, k: nat)
    requires k < |rows| && rows[k].role == AG
    requires forall i :: 0 <= i < |rows| && i != k ==> !IsPrimaryAgRow(rows[i])
    ensures AtMostOnePrimaryAg(Promote(rows, k))
  {
  }

  /** As written, the constraint survives the migration provided no INACTIVE AG holds the flag. */
  lemma SetPrimaryAgKeepsUniqueWithoutStaleFlag(rows: seq<User>)
    requires AtMostOnePrimaryAg(rows)
    requires forall i :: 0 <= i < |rows| && IsPrimaryAgRow(rows[i]) ==> rows[i].isActive
    ensures AtMostOnePrimaryAg(SetPrimaryAgRows(rows))
  {
    if !HasActivePrimaryAg(rows) && HasActiveAg(rows) {
      var k :| 0 <= k < |rows| && SetPrimaryAgRows(rows) == Promote(rows, k) && IsActiveAg(rows[k]);
      forall i | 0 <= i < |rows| && i != k ensures !IsPrimaryAgRow(rows[i]) {
        if IsPrimaryAgRow(rows[i]) {
          assert IsActivePrimaryAg(rows[i]);
        }
      }
      PromoteKeepsUnique(rows, k);
    }
  }

  /** An inactive AG that holds the flag, next to an active AG: the table meets the
      constraint, but the table the migration tries to store does not, so the save fails. */
  lemma SetPrimaryAgStaleFlagBreaksUnique()
    ensures var rows := [
        User(1, AG, false, "Former AG", None, {}, None, {}, true),
        User(2, AG, true, "Current AG", None, {}, None, {}, false)];
      AtMostOnePrimaryAg(rows) && !AtMostOnePrimaryAg(SetPrimaryAgRows(rows))
  {
    var rows := [
        User(1, AG, false, "Former AG", None, {}, None, {}, true),
        User(2, AG, true, "Current AG", None, {}, None, {}, false)];
    assert !HasActivePrimaryAg(rows);
    assert IsActiveAg(rows[1]);
    var r := SetPrimaryAgRows(rows);
    var k :| 0 <= k < |rows| && r == Promote(rows, k) && IsActiveAg(rows[k]);
    assert k == 1;
    assert IsPrimaryAgRow(r[0]) && IsPrimaryAgRow(r[1]);
  }

  /** With the corrected guard the constraint always survives. */
  lemma SetPrimaryAgGuardedKeepsUnique(rows: seq<User>)
    requires AtMostOnePrimaryAg(rows)
    ensures AtMostOnePrimaryAg(SetPrimaryAgGuardedRows(rows))
  {
    if !HasPrimaryAg(rows) && HasActiveAg(rows) {
      var k :| 0 <= k < |rows| && SetPrimaryAgGuardedRows(rows) == Promote(rows, k) && IsActiveAg(rows[k]);
      PromoteKeepsUnique(rows, k);
    }
  }

  /** The corrected migration is idempotent as well and still gives an active primary AG. */
  lemma SetPrimaryAgGuardedIdempotent(rows: seq<User>)
    ensures SetPrimaryAgGuardedRows(SetPrimaryAgGuardedRows(rows)) == SetPrimaryAgGuardedRows(rows)
    ensures HasActiveAg(rows) && !HasPrimaryAg(rows) ==> HasActivePrimaryAg(SetPrimaryAgGuardedRows(rows))
  {
    if !HasPrimaryAg(rows) && HasActiveAg(rows) {
      var r := SetPrimaryAgGuardedRows(rows);
      var k :| 0 <= k < |rows| && r == Promote(rows, k) && IsActiveAg(rows[k]);
      assert IsPrimaryAgRow(r[k]);
      PromoteGivesActivePrimary(rows, k);
    }
  }

  /** Rolling back and then migrating again leaves exactly the least-id active AG primary. */
  lemma UnsetThenSetLeavesOnePrimary(rows: seq<User>)
    requires HasActiveAg(rows)
    ensures var r := SetPrimaryAgRows(UnsetPrimaryAgRows(rows));
      AtMostOnePrimaryAg(r) && HasActivePrimaryAg(r)
  {
    var u := UnsetPrimaryAgRows(rows);
    var i :| 0 <= i < |rows| && IsActiveAg(rows[i]);
    assert u[i].(isPrimaryAg := rows[i].isPrimaryAg) == rows[i];
    assert IsActiveAg(u[i]);
    SetPrimaryAgKeepsUniqueWithoutStaleFlag(u);
    SetPrimaryAgEstablishesPrimary(u);
  }

  /** The user table the migration runs against; the database enforces the unique constraint
      on every write. */
  class UserTable {
    var rows: seq<User>

    ghost predicate Valid()
      reads this
    {
      AtMostOnePrimaryAg(rows)
    }

    constructor(initial: seq<User>)
      requires AtMostOnePrimaryAg(initial)
      ensures Valid() && rows == initial
    {
      rows := initial;
    }

    /** `save(update_fields=[...])` of row k: refused, with nothing written, when the new
        table would break the unique constraint. */
    method SaveRow(k: nat, u: User) returns (ok: bool)
      requires Valid() && k < |rows|
      modifies this
      ensures Valid()
      ensures ok == AtMostOnePrimaryAg(old(rows)[k := u])
      ensures rows == if ok then old(rows)[k := u] else old(rows)
    {
      ok := AtMostOnePrimaryAg(rows[k := u]);
      if ok {
        rows := rows[k := u];
      }
    }

    /** `set_primary_ag` as written. It fails (the database raises an integrity error) exactly
        when the table it tries to store breaks the constraint. */
    method SetPrimaryAg() returns (ok: bool)
      requires Valid()
      modifies this
      ensures Valid()
      ensures ok == AtMostOnePrimaryAg(SetPrimaryAgRows(old(rows)))
      ensures rows == if ok then SetPrimaryAgRows(old(rows)) else old(rows)
    {
      if HasActivePrimaryAg(rows) {
        return true;
      }
      var first := LeastIdActiveAg(rows);
      if first.Some? {
        var k := first.value;
        ok := SaveRow(k, rows[k].(isPrimaryAg := true));
      } else {
        ok := true;
      }
    }

    /** `set_primary_ag` with the corrected guard: it never fails. */
    method SetPrimaryAgGuarded()
      requires Valid()
      modifies this
      ensures Valid()
      ensures rows == SetPrimaryAgGuardedRows(old(rows))
    {
      if HasPrimaryAg(rows) {
        return;
      }
      var first := LeastIdActiveAg(rows);
      if first.Some? {
        var k := first.value;
        SetPrimaryAgGuardedKeepsUnique(rows);
        var ok := SaveRow(k, rows[k].(isPrimaryAg := true));
        assert ok;
      }
    }

    /** `unset_primary_ag`: one bulk update, which cannot break the constraint. */
    method UnsetPrimaryAg()
      requires Valid()
      modifies this
      ensures Valid()
      ensures rows == UnsetPrimaryAgRows(old(rows))
    {
      rows := UnsetPrimaryAgRows(rows);
    }
  }
}
