/**
  The incident list page: case-insensitive search over title, description and,
  when present, device name and assignee; optional priority and status
  filters; the visible page; and the handlers that send the view back to page 0.
 */
module IncidentListPage {
  import opened Domain
  import opened Text
  import Listing

  datatype IncidentList = IncidentList(
    incidents: seq<IncidentRow>,
    page: nat,
    rowsPerPage: nat,
    searchTerm: string,
    priorityFilter: string,
    statusFilter: string)

  /** A null column never matches; a present one matches by case-insensitive substring. */
  predicate OptionalContains(s: Option<string>, term: string) {
    s.Some? && |s.value| > 0 && ContainsIgnoreCase(s.value, term)
  }

  predicate MatchesSearch(i: IncidentRow, term: string) {
    || ContainsIgnoreCase(i.incident.title, term)
    || ContainsIgnoreCase(i.incident.description, term)
    || OptionalContains(i.deviceName, term)
    || OptionalContains(i.incident.assignedTo, term)
  }

  /** The test `filteredIncidents` applies to one incident. */
  predicate Shown(l: IncidentList, i: IncidentRow) {
    && MatchesSearch(i, l.searchTerm)
    && FilterAccepts(l.priorityFilter, PriorityName(i.incident.priority))
    && FilterAccepts(l.statusFilter, IncidentStatusName(i.incident.status))
  }

  /** `filteredIncidents`: the incidents passing search and filters, in list order. */
  function Filtered(l: IncidentList): (r: seq<IncidentRow>)
    ensures forall i :: i in r <==> i in l.incidents && Shown(l, i)
    ensures forall i :: multiset(r)[i] == if Shown(l, i) then multiset(l.incidents)[i] else 0
    ensures Listing.SubsequenceOf(r, l.incidents)
  {
    Listing.Filter(l.incidents, (i: IncidentRow) => Shown(l, i))
  }

  /** `paginatedIncidents`: one page of the filtered incidents, from offset `page * rowsPerPage`. */
  function Paginated(l: IncidentList): (r: seq<IncidentRow>)
    ensures |r| <= l.rowsPerPage
    ensures Listing.Offset(l.page, l.rowsPerPage) >= |Filtered(l)| ==> r == []
    ensures Listing.Offset(l.page, l.rowsPerPage) < |Filtered(l)| ==> |r| == Listing.Min(l.rowsPerPage, |Filtered(l)| - Listing.Offset(l.page, l.rowsPerPage))
    ensures forall k :: 0 <= k < |r| ==> Listing.Offset(l.page, l.rowsPerPage) + k < |Filtered(l)| && r[k] == Filtered(l)[Listing.Offset(l.page, l.rowsPerPage) + k]
  {
    Listing.Page(Filtered(l), l.page, l.rowsPerPage)
  }

  /** With no search term and no filters, every incident is listed. */
  lemma NoCriteriaShowsAll(l: IncidentList)
    requires l.searchTerm == "" && l.priorityFilter == "" && l.statusFilter == ""
    ensures Filtered(l) == l.incidents
  {
    forall i | i in l.incidents
      ensures Shown(l, i)
    {
      EmptyIsContained(Lower(i.incident.title));
    }
    Listing.FilterKeepsAll(l.incidents, (i: IncidentRow) => Shown(l, i));
  }

  /** Typing another character into the search box can only remove incidents from the list. */
  lemma LongerSearchNarrows(l: IncidentList, x: string, i: IncidentRow)
    requires i in Filtered(l.(searchTerm := l.searchTerm + x))
    ensures i in Filtered(l)
  {
    var t := l.searchTerm;
    if ContainsIgnoreCase(i.incident.title, t + x) {
      ContainsIgnoreCaseExtended(i.incident.title, t, x);
    } else if ContainsIgnoreCase(i.incident.description, t + x) {
      ContainsIgnoreCaseExtended(i.incident.description, t, x);
    } else if OptionalContains(i.deviceName, t + x) {
      ContainsIgnoreCaseExtended(i.deviceName.value, t, x);
    } else {
      ContainsIgnoreCaseExtended(i.incident.assignedTo.value, t, x);
    }
  }

  /** On page 0 the view shows the first rows of the filtered list. */
  lemma FirstPageOfFiltered(l: IncidentList)
    requires l.page == 0
    ensures Paginated(l) == Filtered(l)[..Listing.Min(l.rowsPerPage, |Filtered(l)|)]
  {
    Listing.FirstPageIsPrefix(Filtered(l), l.rowsPerPage);
  }

  /** Two views of the same incidents under the same criteria list the same rows, whatever their paging. */
  lemma SameCriteriaSameRows(l: IncidentList, m: IncidentList)
    requires l.incidents == m.incidents && l.searchTerm == m.searchTerm && l.priorityFilter == m.priorityFilter && l.statusFilter == m.statusFilter
    ensures Filtered(l) == Filtered(m)
  {
    Listing.FilterSameTest(l.incidents, (i: IncidentRow) => Shown(l, i), (i: IncidentRow) => Shown(m, i));
  }

  /** `handleChangePage`: only the page moves; the filtered incidents stay as they were. */
  function ChangePage(l: IncidentList, page: nat): (r: IncidentList)
    ensures r == l.(page := page)
    ensures Filtered(r) == Filtered(l)
  {
    SameCriteriaSameRows(l, l.(page := page));
    l.(page := page)
  }

  /** Paging alone reaches every listed incident: row i is on page i / rowsPerPage, at position i % rowsPerPage. */
  lemma PagingReachesEveryRow(l: IncidentList, i: nat)
    requires l.rowsPerPage > 0 && i < |Filtered(l)|
    ensures var r := ChangePage(l, Listing.PageOf(i, l.rowsPerPage));
            && Listing.SlotOf(i, l.rowsPerPage) < |Paginated(r)|
            && Paginated(r)[Listing.SlotOf(i, l.rowsPerPage)] == Filtered(l)[i]
  {
    var xs := Filtered(l);
    var r := ChangePage(l, Listing.PageOf(i, l.rowsPerPage));
    assert Paginated(r) == Listing.Page(xs, Listing.PageOf(i, l.rowsPerPage), l.rowsPerPage);
    Listing.PageCovers(xs, l.rowsPerPage, i);
  }

  /** `handleChangeRowsPerPage`: back to page 0 with the same incidents, now `n` to a page. */
  function SetRowsPerPage(l: IncidentList, n: nat): (r: IncidentList)
    ensures r.page == 0 && r.rowsPerPage == n
    ensures r == l.(rowsPerPage := r.rowsPerPage, page := r.page)
    ensures Filtered(r) == Filtered(l)
    ensures |Paginated(r)| == Listing.Min(n, |Filtered(l)|)
    ensures Paginated(r) == Filtered(r)[..Listing.Min(r.rowsPerPage, |Filtered(r)|)]
  {
    var r := l.(rowsPerPage := n, page := 0);
    SameCriteriaSameRows(l, r);
    FirstPageOfFiltered(r);
    r
  }

  /** `handleSearch`: back to page 0, listing the incidents that match the new term under the current filters. */
  function SetSearch(l: IncidentList, term: string): (r: IncidentList)
    ensures r.page == 0
    ensures forall i :: i in Filtered(r) <==>
              && i in l.incidents && MatchesSearch(i, term)
              && FilterAccepts(l.priorityFilter, PriorityName(i.incident.priority))
              && FilterAccepts(l.statusFilter, IncidentStatusName(i.incident.status))
    ensures r.searchTerm == term && r == l.(searchTerm := r.searchTerm, page := 0)
    ensures Paginated(r) == Filtered(r)[..Listing.Min(r.rowsPerPage, |Filtered(r)|)]
  {
    var r := l.(searchTerm := term, page := 0);
    FirstPageOfFiltered(r);
    r
  }

  /** `handlePriorityFilterChange`: back to page 0, listing the incidents that pass the new priority filter. */
  function SetPriorityFilter(l: IncidentList, f: string): (r: IncidentList)
    ensures r.page == 0
    ensures forall i :: i in Filtered(r) <==>
              && i in l.incidents && MatchesSearch(i, l.searchTerm)
              && FilterAccepts(f, PriorityName(i.incident.priority))
              && FilterAccepts(l.statusFilter, IncidentStatusName(i.incident.status))
    ensures r.priorityFilter == f && r == l.(priorityFilter := r.priorityFilter, page := 0)
    ensures Paginated(r) == Filtered(r)[..Listing.Min(r.rowsPerPage, |Filtered(r)|)]
  {
    var r := l.(priorityFilter := f, page := 0);
    FirstPageOfFiltered(r);
    r
  }

  /** `handleStatusFilterChange`: back to page 0, listing the incidents that pass the new status filter. */
  function SetStatusFilter(l: IncidentList, f: string): (r: IncidentList)
    ensures r.page == 0
    ensures forall i :: i in Filtered(r) <==>
              && i in l.incidents && MatchesSearch(i, l.searchTerm)
              && FilterAccepts(l.priorityFilter, PriorityName(i.incident.priority))
              && FilterAccepts(f, IncidentStatusName(i.incident.status))
    ensures r.statusFilter == f && r == l.(statusFilter := r.statusFilter, page := 0)
    ensures Paginated(r) == Filtered(r)[..Listing.Min(r.rowsPerPage, |Filtered(r)|)]
  {
    var r := l.(statusFilter := f, page := 0);
    FirstPageOfFiltered(r);
    r
  }

  /** `handleClearFilters`: back to page 0 with every incident listed. */
  function ClearFilters(l: IncidentList): (r: IncidentList)
    ensures r.page == 0
    ensures Filtered(r) == l.incidents
    ensures r.searchTerm == "" && r.priorityFilter == "" && r.statusFilter == ""
    ensures r == l.(searchTerm := r.searchTerm, priorityFilter := r.priorityFilter, statusFilter := r.statusFilter, page := 0)
    ensures Paginated(r) == Filtered(r)[..Listing.Min(r.rowsPerPage, |Filtered(r)|)]
  {
    var r := l.(searchTerm := "", priorityFilter := "", statusFilter := "", page := 0);
    NoCriteriaShowsAll(r);
    FirstPageOfFiltered(r);
    r
  }
}
