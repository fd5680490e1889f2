/** Users, roles and the organisational hierarchy (backend/users/models.py,
    backend/sections/models.py). The one User value carries every org-scope field
    that some file of the system reads: the single `section` of users/models.py and
    views.py, and the `sections`, `subsection` and `auditorSubsections` sets of the
    permission class and the front end. */
module Org {
  import opened Wrappers
  import Query

  /** A database primary key. */
  type Id = nat

  datatype Role = AG | DAG | SrAO | AAO | Auditor | Clerk

  datatype User = User(
    id: Id,
    role: Role,
    isActive: bool,
    fullName: string,
    section: Option<Id>,
    sections: set<Id>,
    subsection: Option<Id>,
    auditorSubsections: set<Id>,
    isPrimaryAg: bool)

  datatype Subsection = Subsection(id: Id, section: Id, name: string)

  datatype Section = Section(id: Id, name: string, directlyUnderAg: bool, subsections: seq<Subsection>)

  predicate IsAg(u: User) { u.role == AG }

  predicate IsDag(u: User) { u.role == DAG }

  predicate IsStaffOfficer(u: User) { u.role == SrAO || u.role == AAO }

  /** At most one of the three role tests holds, and none holds for an auditor or a clerk. */
  lemma RoleTestsExclusive(u: User)
    ensures !(IsAg(u) && IsDag(u)) && !(IsAg(u) && IsStaffOfficer(u)) && !(IsDag(u) && IsStaffOfficer(u))
    ensures (u.role == Auditor || u.role == Clerk) <==> !IsAg(u) && !IsDag(u) && !IsStaffOfficer(u)
  {
  }

  predicate IsActiveAg(v: User) { v.role == AG && v.isActive }

  predicate IsActiveDagOf(v: User, section: Id) {
    v.role == DAG && v.section == Some(section) && v.isActive
  }

  /** `User.get_dag`: the monitoring officer of u. `users` is the user table in its default
      order (by full name), so "first" is the first matching row of that sequence. */
  function GetDag(u: User, users: seq<User>): (r: Option<User>)
    ensures u.role == AG ==> r == Some(u)
    ensures u.role == DAG ==> (r.None? <==> forall i :: 0 <= i < |users| ==> !IsActiveAg(users[i]))
    ensures u.role == DAG && r.Some? ==>
      exists i :: 0 <= i < |users| && users[i] == r.value && IsActiveAg(r.value)
        && forall j :: 0 <= j < i ==> !IsActiveAg(users[j])
    ensures u.role != AG && u.role != DAG && u.section.None? ==> r.None?
    ensures u.role != AG && u.role != DAG && u.section.Some? ==>
      (r.None? <==> forall i :: 0 <= i < |users| ==> !IsActiveDagOf(users[i], u.section.value))
    ensures u.role != AG && u.role != DAG && r.Some? ==>
      r.value in users && r.value.role == DAG && r.value.isActive && r.value.section == u.section
    ensures u.role != AG && u.role != DAG && r.Some? ==>
      u.section.Some? &&
      exists i :: 0 <= i < |users| && users[i] == r.value && IsActiveDagOf(r.value, u.section.value)
        && forall j :: 0 <= j < i ==> !IsActiveDagOf(users[j], u.section.value)
  {
    match u.role
    case AG => Some(u)
    case DAG => Query.First(users, IsActiveAg)
    case _ =>
      if u.section.Some? then
        var s := u.section.value;
        Query.First(users, (v: User) => IsActiveDagOf(v, s))
      else None
  }

  /** The first user with the given primary key. */
  function UserById(users: seq<User>, id: Id): (r: Option<User>)
    ensures r.Some? ==> r.value in users && r.value.id == id
    ensures r.None? <==> forall i :: 0 <= i < |users| ==> users[i].id != id
  {
    Query.First(users, (v: User) => v.id == id)
  }

  /** `full_name` of the user with the given key ('' when there is none). */
  function FullName(users: seq<User>, id: Id): string {
    match UserById(users, id)
    case Some(u) => u.fullName
    case None => ""
  }
}
