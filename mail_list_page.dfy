/** The mail list page (frontend/src/pages/MailListPage.jsx): the filter state and how it
    changes, the section and subsection choices a supervisor gets, the filter applied to the
    loaded page of mails, and the pagination figures. */
module MailListPage {
  import opened Wrappers
  import opened Text
  import opened Org
  import opened Client
  import Query
  import Records
  import Audit
  import Views

  /** The filter state; each value is the text of its control, "" for no choice. */
  datatype Filters = Filters(status: string, section: string, subsection: string, search: string)

  datatype Field = StatusField | SectionField | SubsectionField | SearchField

  /** The page's state: the filters, the search box (applied after typing pauses), the page
      shown and the page size. */
  datatype ListState = ListState(filters: Filters, searchInput: string, page: int, pageSize: nat)

  const PageSizes: seq<nat> := [25, 50, 100]

  /** The state the page opens with. */
  function InitialState(): (st: ListState)
    ensures st.filters.status == "all" && st.filters.section == "" && st.filters.subsection == "" && st.filters.search == ""
    ensures st.searchInput == "" && st.page == 1 && st.pageSize == 25 && st.pageSize in PageSizes
  {
    ListState(Filters("all", "", "", ""), "", 1, 25)
  }

  /** `handleFilterChange`: back to page 1; a new section also clears the subsection. */
  function FilterChange(st: ListState, field: Field, value: string): (r: ListState)
    ensures r.page == 1 && r.pageSize == st.pageSize && r.searchInput == st.searchInput
    ensures field == SectionField ==> r.filters == st.filters.(section := value, subsection := "")
    ensures field == StatusField ==> r.filters == st.filters.(status := value)
    ensures field == SubsectionField ==> r.filters == st.filters.(subsection := value)
    ensures field == SearchField ==> r.filters == st.filters.(search := value)
  {
    var f := st.filters;
    var g := match field
      case SectionField => Filters(f.status, value, "", f.search)
      case StatusField => Filters(value, f.section, f.subsection, f.search)
      case SubsectionField => Filters(f.status, f.section, value, f.search)
      case SearchField => Filters(f.status, f.section, f.subsection, value);
    ListState(g, st.searchInput, 1, st.pageSize)
  }

  /** The search box's timer firing: a search text that differs from the applied one is
      applied and the page goes back to 1; otherwise nothing changes. */
  function SearchSettled(st: ListState): (r: ListState)
    ensures r.filters.search == st.searchInput && r.searchInput == st.searchInput
    ensures r.filters.status == st.filters.status && r.filters.section == st.filters.section
    ensures r.filters.subsection == st.filters.subsection && r.pageSize == st.pageSize
    ensures st.searchInput != st.filters.search ==> r.page == 1
    ensures st.searchInput == st.filters.search ==> r == st
  {
    if st.searchInput != st.filters.search then ListState(st.filters.(search := st.searchInput), st.searchInput, 1, st.pageSize)
    else st
  }

  /** Once the timer has fired, firing again changes nothing. */
  lemma SearchSettledIdempotent(st: ListState)
    ensures SearchSettled(SearchSettled(st)) == SearchSettled(st)
  {
  }

  /** Choosing a page size sets it and goes back to page 1. */
  function PageSizeChange(st: ListState, size: nat): (r: ListState)
    ensures r.pageSize == size && r.page == 1 && r.filters == st.filters && r.searchInput == st.searchInput
  {
    st.(pageSize := size, page := 1)
  }

  // ----- section and subsection choices -----

  datatype SubsectionInfo = SubsectionInfo(id: Id, name: string)

  datatype SectionInfo = SectionInfo(id: Id, name: string, subsections: Option<seq<SubsectionInfo>>)

  /** A subsection choice, labelled with its section's name. */
  datatype SubsectionChoice = SubsectionChoice(subsection: SubsectionInfo, sectionName: string)

  /** `section.subsections || []`. */
  function SubsOf(s: SectionInfo): seq<SubsectionInfo> {
    if s.subsections.Some? then s.subsections.value else []
  }

  /** `user.sections || []`. */
  function OwnSections(u: ClientUser): set<Id> {
    if u.sections.Some? then u.sections.value else {}
  }

  predicate InOwnSections(u: ClientUser, s: SectionInfo) { s.id in OwnSections(u) }

  /** `sectionOptions`: every section for an AG, a DAG's own sections for a DAG, and none for
      anyone else or when nobody is signed in. */
  function SectionOptions(user: Option<ClientUser>, sections: seq<SectionInfo>): (r: seq<SectionInfo>)
    ensures user.None? || (user.value.role != AG && user.value.role != DAG) ==> r == []
    ensures user.Some? && user.value.role == AG ==> r == sections
    ensures user.Some? && user.value.role == DAG ==>
      (Query.IsSubsequence(r, sections)
       && (forall i :: 0 <= i < |r| ==> r[i].id in OwnSections(user.value))
       && (forall i :: 0 <= i < |sections| && sections[i].id in OwnSections(user.value) ==> sections[i] in r))
  {
    if user.None? then []
    else if user.value.role == AG then sections
    else if user.value.role == DAG then Query.Filter(sections, s => InOwnSections(user.value, s))
    else []
  }

  /** The subsections of some sections, in order, each labelled with its section's name. */
  function Choices(base: seq<SectionInfo>): (r: seq<SubsectionChoice>)
    ensures base == [] ==> r == []
  {
    if base == [] then []
    else
      var head := SubsOf(base[0]);
      seq(|head|, j requires 0 <= j < |head| => SubsectionChoice(head[j], base[0].name)) + Choices(base[1..])
  }

  /** Every choice is a subsection of one of the sections, under that section's name. */
  lemma {:induction false} ChoicesSound(base: seq<SectionInfo>, k: nat) returns (i: nat)
    requires k < |Choices(base)|
    ensures i < |base| && Choices(base)[k].sectionName == base[i].name && Choices(base)[k].subsection in SubsOf(base[i])
  {
    var head := SubsOf(base[0]);
    if k < |head| {
      i := 0;
    } else {
      var i' := ChoicesSound(base[1..], k - |head|);
      i := i' + 1;
    }
  }

  /** Every subsection of every section is a choice. */
  lemma {:induction false} ChoicesComplete(base: seq<SectionInfo>, i: nat, j: nat)
    requires i < |base| && j < |SubsOf(base[i])|
    ensures SubsectionChoice(SubsOf(base[i])[j], base[i].name) in Choices(base)
  {
    var head := SubsOf(base[0]);
    var local := seq(|head|, j requires 0 <= j < |head| => SubsectionChoice(head[j], base[0].name));
    if i == 0 {
      assert local[j] == SubsectionChoice(SubsOf(base[i])[j], base[i].name);
    } else {
      ChoicesComplete(base[1..], i - 1, j);
      assert base[1..][i - 1] == base[i];
    }
    assert Choices(base) == local + Choices(base[1..]);
  }

  predicate SectionMatches(filterSection: string, s: SectionInfo) { Some(s.id as int) == JsNumber(filterSection) }

  /** An AG who has chosen a section sees only that section's subsections. */
  predicate Narrowed(user: ClientUser, filterSection: string) { user.role == AG && filterSection != "" }

  /** The sections whose subsections are offered. */
  function ChoiceBase(user: ClientUser, options: seq<SectionInfo>, filterSection: string): (base: seq<SectionInfo>)
    ensures forall b :: 0 <= b < |base| ==> base[b] in options && (Narrowed(user, filterSection) ==> SectionMatches(filterSection, base[b]))
    ensures forall i :: 0 <= i < |options| && (Narrowed(user, filterSection) ==> SectionMatches(filterSection, options[i])) ==> options[i] in base
  {
    if Narrowed(user, filterSection) then Query.Filter(options, s => SectionMatches(filterSection, s)) else options
  }

  /** `subsectionOptions`: nothing unless the user is AG or DAG; an AG with a section chosen
      gets that section's subsections, otherwise the subsections of every section option. */
  function SubsectionOptions(user: Option<ClientUser>, options: seq<SectionInfo>, filterSection: string)
    : (r: seq<SubsectionChoice>)
    ensures user.None? || (user.value.role != AG && user.value.role != DAG) ==> r == []
    ensures user.Some? && user.value.role == DAG ==> r == Choices(options)
    ensures user.Some? && user.value.role == AG && filterSection == "" ==> r == Choices(options)
  {
    if user.None? || (user.value.role != AG && user.value.role != DAG) then []
    else Choices(ChoiceBase(user.value, options, filterSection))
  }

  /** Each subsection offered to a supervisor belongs to one of the section options, and to
      the chosen section when an AG has chosen one. */
  lemma SubsectionOptionsSound(user: ClientUser, options: seq<SectionInfo>, filterSection: string, k: nat) returns (i: nat)
    requires user.role == AG || user.role == DAG
    requires k < |SubsectionOptions(Some(user), options, filterSection)|
    ensures var c := SubsectionOptions(Some(user), options, filterSection)[k];
      i < |options| && c.sectionName == options[i].name && c.subsection in SubsOf(options[i])
      && (Narrowed(user, filterSection) ==> SectionMatches(filterSection, options[i]))
  {
    var base := ChoiceBase(user, options, filterSection);
    var b := ChoicesSound(base, k);
    assert base[b] in options;
    i :| i < |options| && options[i] == base[b];
  }

  /** Each subsection of a section option is offered to a supervisor, unless an AG has chosen
      another section. */
  lemma SubsectionOptionsComplete(user: ClientUser, options: seq<SectionInfo>, filterSection: string, i: nat, j: nat)
    requires user.role == AG || user.role == DAG
    requires i < |options| && j < |SubsOf(options[i])|
    requires Narrowed(user, filterSection) ==> SectionMatches(filterSection, options[i])
    ensures SubsectionChoice(SubsOf(options[i])[j], options[i].name) in SubsectionOptions(Some(user), options, filterSection)
  {
    var base := ChoiceBase(user, options, filterSection);
    assert options[i] in base;
    var b :| 0 <= b < |base| && base[b] == options[i];
    ChoicesComplete(base, b, j);
  }

  // ----- the mails shown -----

  /** A row of the loaded page, with the ids of its section and subsection. */
  datatype ListMail = ListMail(id: Id, section: Option<Id>, subsection: Option<Id>)

  /** `Number(id)` for an id that may be null: null is 0. */
  function NumberOfId(o: Option<Id>): (n: Option<int>)
    ensures n.Some? && (o.Some? ==> n.value == o.value as int) && (o.None? ==> n.value == 0)
  {
    Some(if o.Some? then o.value as int else 0)
  }

  predicate SectionFilterKeeps(filters: Filters, m: ListMail) {
    filters.section == "" || NumberOfId(m.section) == JsNumber(filters.section)
  }

  predicate SubsectionFilterKeeps(filters: Filters, m: ListMail) {
    filters.subsection == "" || NumberOfId(m.subsection) == JsNumber(filters.subsection)
  }

  /** `visibleMails`: the loaded rows narrowed by the section filter, then by the subsection
      filter, order kept. */
  function VisibleMails(mails: seq<ListMail>, filters: Filters): (r: seq<ListMail>)
    ensures |r| <= |mails|
    ensures forall k :: 0 <= k < |r| ==> r[k] in mails && SectionFilterKeeps(filters, r[k]) && SubsectionFilterKeeps(filters, r[k])
    ensures forall i :: 0 <= i < |mails| && SectionFilterKeeps(filters, mails[i]) && SubsectionFilterKeeps(filters, mails[i]) ==> mails[i] in r
    ensures filters.section == "" && filters.subsection == "" ==> r == mails
  {
    var bySection := if filters.section != "" then Query.Filter(mails, m => SectionFilterKeeps(filters, m)) else mails;
    var r := if filters.subsection != "" then Query.Filter(bySection, m => SubsectionFilterKeeps(filters, m)) else bySection;
    r
  }

  /** The rows shown keep the order of the loaded page. */
  lemma {:induction false} VisibleMailsInOrder(mails: seq<ListMail>, filters: Filters)
    ensures Query.IsSubsequence(VisibleMails(mails, filters), mails)
  {
    var bySection := if filters.section != "" then Query.Filter(mails, m => SectionFilterKeeps(filters, m)) else mails;
    SubsequenceReflexive(mails);
    if filters.subsection != "" {
      SubsequenceTransitive(Query.Filter(bySection, m => SubsectionFilterKeeps(filters, m)), bySection, mails);
    }
  }

  lemma {:induction false} SubsequenceReflexive<T>(s: seq<T>)
    ensures Query.IsSubsequence(s, s)
  {
    if s != [] {
      SubsequenceReflexive(s[1..]);
    }
  }

  lemma {:induction false} SubsequenceTransitive<T>(a: seq<T>, b: seq<T>, c: seq<T>)
    requires Query.IsSubsequence(a, b) && Query.IsSubsequence(b, c)
    ensures Query.IsSubsequence(a, c)
    decreases |c|
  {
    if a != [] && b != [] && c != [] {
      if b[0] == c[0] && Query.IsSubsequence(b[1..], c[1..]) {
        if a[0] == b[0] && Query.IsSubsequence(a[1..], b[1..]) {
          SubsequenceTransitive(a[1..], b[1..], c[1..]);
        } else {
          SubsequenceTransitive(a, b[1..], c[1..]);
        }
      } else {
        SubsequenceTransitive(a, b, c[1..]);
      }
    }
  }

  // ----- pagination -----

  /** `Math.ceil(totalCount / pageSize)`. */
  function TotalPages(total: nat, size: nat): (pages: nat)
    requires size >= 1
    ensures (pages == 0) <==> (total == 0)
    ensures pages * size >= total
    ensures pages > 0 ==> (pages - 1) * size < total
  {
    (total + size - 1) / size
  }

  /** The number of the first row shown, 0 when there are none. */
  function ShowingFrom(total: nat, page: int, size: nat): (from: int)
    requires page >= 1
    ensures (from == 0) <==> (total == 0)
    ensures total > 0 ==> from >= 1
  {
    if total == 0 then 0 else (page - 1) * size + 1
  }

  /** The number of the last row shown. */
  function ShowingTo(total: nat, page: int, size: nat): (to: int)
    requires page >= 1
    ensures to <= total && to <= page * size
    ensures to == total || to == page * size
  {
    if page * size < total then page * size else total
  }

  /** On a page that exists, the range shown is non-empty, within the total, and no longer
      than a page. */
  lemma ShowingRange(total: nat, page: int, size: nat)
    requires size >= 1 && 1 <= page <= TotalPages(total, size)
    ensures 1 <= ShowingFrom(total, page, size) <= ShowingTo(total, page, size) <= total
    ensures ShowingTo(total, page, size) - ShowingFrom(total, page, size) < size
  {
    var pages := TotalPages(total, size);
    assert (page - 1) * size <= (pages - 1) * size by {
      MulMonotone(page - 1, pages - 1, size);
    }
  }

  lemma MulMonotone(a: int, b: int, size: nat)
    requires 0 <= a <= b
    ensures a * size <= b * size
  {
  }

  // ----- loading a page -----

  /** The body of the list response as the page reads it: a paginated object with
      `results` and `count`, or a bare array. */
  datatype ListBody = PageObject(results: Option<seq<ListMail>>, count: Option<nat>) | BareArray(items: seq<ListMail>)

  /** `data.results || []` and `data.count || 0` on what the service returns; an array has no
      such fields. */
  function ReadPage(data: ListBody): (r: (seq<ListMail>, nat))
    ensures data.BareArray? ==> r == ([], 0)
    ensures data.PageObject? && data.results.Some? ==> r.0 == data.results.value
    ensures data.PageObject? && data.count.Some? ==> r.1 == data.count.value
  {
    match data
    case BareArray(_) => ([], 0)
    case PageObject(results, count) =>
      (if results.Some? then results.value else [], if count.Some? then count.value else 0)
  }

  /** `getAllMails` as written in frontend/src/services/mailService.js: it unwraps
      `response.data.results || response.data`, so a paginated reply becomes a bare array. */
  function ServiceAsWritten(body: ListBody): (r: ListBody)
    ensures body.PageObject? && body.results.Some? ==> r == BareArray(body.results.value)
    ensures body.BareArray? ==> r == body
  {
    match body
    case PageObject(results, _) => if results.Some? then BareArray(results.value) else body
    case BareArray(_) => body
  }

  /** Whatever the server sends, the page reads no rows from it, and a total of 0 from any
      reply that has rows. */
  lemma LoadedPageAlwaysEmpty(body: ListBody)
    ensures ReadPage(ServiceAsWritten(body)).0 == []
    ensures body.PageObject? && body.results.Some? ==> ReadPage(ServiceAsWritten(body)) == ([], 0)
  {
  }

  /** A concrete reply: one mail on a paginated body is not shown. */
  lemma LoadedPageDropsMail()
    ensures var body := PageObject(Some([ListMail(1, Some(2), None)]), Some(1));
      ReadPage(ServiceAsWritten(body)) == ([], 0) && ReadPage(body) == ([ListMail(1, Some(2), None)], 1)
  {
  }

  /** The service returning the body unchanged, as the page expects. */
  function Service(body: ListBody): (r: ListBody)
    ensures r == body
  {
    body
  }

  /** With the body passed through, the page reads the server's rows and total. */
  lemma LoadedPageKeepsRows(results: seq<ListMail>, count: nat)
    ensures ReadPage(Service(PageObject(Some(results), Some(count)))) == (results, count)
  {
  }
  // ----- the list request -----

  /** The query string `getAllMails` builds from the filters as written: each filter is sent
      when it is non-empty, `all` included. The list view reads `status` and `section`; the
      page never sends `overdue`. */
  function RequestAsWritten(f: Filters): (p: Views.ListParams)
    ensures Views.Supplied(p.status) <==> f.status != ""
    ensures Views.Supplied(p.status) ==> p.status.value == f.status
    ensures Views.Supplied(p.section) <==> f.section != ""
    ensures Views.Supplied(p.section) ==> p.section.value == f.section
    ensures p.overdue.None?
  {
    Views.ListParams(if f.status != "" then Some(f.status) else None,
                     if f.section != "" then Some(f.section) else None, None)
  }

  /** No stored status reads `all`. */
  lemma NoStatusIsAll(s: Records.Status)
    ensures Views.StatusTag(s) != "all"
  {
  }

  /** The page's first request asks for the status `all`, which no row has: for every user
      and every table the list view answers with no rows. */
  lemma InitialRequestListsNothing(u: User, mails: seq<Records.MailRecord>, audit: seq<Audit.AuditEntry>, today: int)
    ensures Views.ListMails(u, RequestAsWritten(InitialState().filters), mails, audit, today) == Success([])
  {
    var p := RequestAsWritten(InitialState().filters);
    var r := Views.ListMails(u, p, mails, audit, today);
    assert r.Success?;
    if r.value != [] {
      NoStatusIsAll(r.value[0].status);
    }
  }

  /** The request the page evidently means: `all` stands for no status filter. */
  function Request(f: Filters): (p: Views.ListParams)
    ensures Views.Supplied(p.status) <==> f.status != "" && f.status != "all"
    ensures Views.Supplied(p.status) ==> p.status.value == f.status
    ensures Views.Supplied(p.section) <==> f.section != ""
    ensures Views.Supplied(p.section) ==> p.section.value == f.section
    ensures p.overdue.None?
  {
    Views.ListParams(if f.status != "" && f.status != "all" then Some(f.status) else None,
                     if f.section != "" then Some(f.section) else None, None)
  }

  /** With `all` read as no filter, the first request lists every row the user may see;
      for an AG that is the whole table. */
  lemma InitialRequestListsVisibleRows(u: User, mails: seq<Records.MailRecord>, audit: seq<Audit.AuditEntry>, today: int)
    ensures Views.ListMails(u, Request(InitialState().filters), mails, audit, today) ==
      Views.ListMails(u, Views.ListParams(None, None, None), mails, audit, today)
    ensures u.role == AG ==>
      var r := Views.ListMails(u, Request(InitialState().filters), mails, audit, today);
      r.Success? && multiset(r.value) == multiset(mails)
  {
    assert Request(InitialState().filters) == Views.ListParams(None, None, None);
    if u.role == AG {
      Views.AgListsEverything(u, mails, audit, today);
    }
  }
}
