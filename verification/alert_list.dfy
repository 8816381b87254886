/**
  The alert list page: case-insensitive search over message, device name and
  source, optional severity and status filters, the visible page, the
  Acknowledge action, and the handlers that send the view back to page 0.
 */
module AlertListPage {
  import opened Domain
  import opened Text
  import Listing

  datatype AlertList = AlertList(
    alerts: seq<AlertRow>,
    page: nat,
    rowsPerPage: nat,
    searchTerm: string,
    severityFilter: string,
    statusFilter: string)

  predicate MatchesSearch(a: AlertRow, term: string) {
    || ContainsIgnoreCase(a.alert.message, term)
    || ContainsIgnoreCase(a.deviceName, term)
    || ContainsIgnoreCase(a.alert.source, term)
  }

  /** The test `filteredAlerts` applies to one alert. */
  predicate Shown(l: AlertList, a: AlertRow) {
    && MatchesSearch(a, l.searchTerm)
    && FilterAccepts(l.severityFilter, SeverityName(a.alert.severity))
    && FilterAccepts(l.statusFilter, AlertStatusName(a.alert.status))
  }

  /** `filteredAlerts`: the alerts passing search and filters, in list order. */
  function Filtered(l: AlertList): (r: seq<AlertRow>)
    ensures forall a :: a in r <==> a in l.alerts && Shown(l, a)
    ensures forall a :: multiset(r)[a] == if Shown(l, a) then multiset(l.alerts)[a] else 0
    ensures Listing.SubsequenceOf(r, l.alerts)
  {
    Listing.Filter(l.alerts, (a: AlertRow) => Shown(l, a))
  }

  /** `paginatedAlerts`: one page of the filtered alerts, from offset `page * rowsPerPage`. */
  function Paginated(l: AlertList): (r: seq<AlertRow>)
    ensures |r| <= l.rowsPerPage
    ensures Listing.Offset(l.page, l.rowsPerPage) >= |Filtered(l)| ==> r == []
    ensures Listing.Offset(l.page, l.rowsPerPage) < |Filtered(l)| ==> |r| == Listing.Min(l.rowsPerPage, |Filtered(l)| - Listing.Offset(l.page, l.rowsPerPage))
    ensures forall k :: 0 <= k < |r| ==> Listing.Offset(l.page, l.rowsPerPage) + k < |Filtered(l)| && r[k] == Filtered(l)[Listing.Offset(l.page, l.rowsPerPage) + k]
  {
    Listing.Page(Filtered(l), l.page, l.rowsPerPage)
  }

  /** With no search term and no filters, every alert is listed. */
  lemma NoCriteriaShowsAll(l: AlertList)
    requires l.searchTerm == "" && l.severityFilter == "" && l.statusFilter == ""
    ensures Filtered(l) == l.alerts
  {
    forall a | a in l.alerts
      ensures Shown(l, a)
    {
      EmptyIsContained(Lower(a.alert.message));
    }
    Listing.FilterKeepsAll(l.alerts, (a: AlertRow) => Shown(l, a));
  }

  /** Typing another character into the search box can only remove alerts from the list. */
  lemma LongerSearchNarrows(l: AlertList, x: string, a: AlertRow)
    requires a in Filtered(l.(searchTerm := l.searchTerm + x))
    ensures a in Filtered(l)
  {
    var t := l.searchTerm;
    if ContainsIgnoreCase(a.alert.message, t + x) {
      ContainsIgnoreCaseExtended(a.alert.message, t, x);
    } else if ContainsIgnoreCase(a.deviceName, t + x) {
      ContainsIgnoreCaseExtended(a.deviceName, t, x);
    } else {
      ContainsIgnoreCaseExtended(a.alert.source, t, x);
    }
  }

  /** `handleAcknowledgeAlert`: the alerts with that id become Acknowledged; order, length and the others are kept. */
  function Acknowledge(l: AlertList, id: Id): (r: AlertList)
    ensures |r.alerts| == |l.alerts|
    ensures forall i :: 0 <= i < |l.alerts| && l.alerts[i].alert.alertId == id ==>
              r.alerts[i] == l.alerts[i].(alert := l.alerts[i].alert.(status := Acknowledged))
    ensures forall i :: 0 <= i < |l.alerts| && l.alerts[i].alert.alertId != id ==> r.alerts[i] == l.alerts[i]
    ensures r == l.(alerts := r.alerts)
  {
    l.(alerts := Listing.Map(l.alerts, (a: AlertRow) =>
                   if a.alert.alertId == id then a.(alert := a.alert.(status := Acknowledged)) else a))
  }

  /** Acknowledging twice is acknowledging once, and the alert then passes an "acknowledged" status filter. */
  lemma AcknowledgeIdempotent(l: AlertList, id: Id)
    ensures Acknowledge(Acknowledge(l, id), id) == Acknowledge(l, id)
    ensures forall i :: 0 <= i < |l.alerts| && l.alerts[i].alert.alertId == id ==>
              FilterAccepts("acknowledged", AlertStatusName(Acknowledge(l, id).alerts[i].alert.status))
  {
    assert Lower("Acknowledged") == "acknowledged";
  }

  /** On page 0 the view shows the first rows of the filtered list. */
  lemma FirstPageOfFiltered(l: AlertList)
    requires l.page == 0
    ensures Paginated(l) == Filtered(l)[..Listing.Min(l.rowsPerPage, |Filtered(l)|)]
  {
    Listing.FirstPageIsPrefix(Filtered(l), l.rowsPerPage);
  }

  /** Two views of the same alerts under the same criteria list the same rows, whatever their paging. */
  lemma SameCriteriaSameRows(l: AlertList, m: AlertList)
    requires l.alerts == m.alerts && l.searchTerm == m.searchTerm && l.severityFilter == m.severityFilter && l.statusFilter == m.statusFilter
    ensures Filtered(l) == Filtered(m)
  {
    Listing.FilterSameTest(l.alerts, (a: AlertRow) => Shown(l, a), (a: AlertRow) => Shown(m, a));
  }

  /** `handleChangePage`: only the page moves; the filtered alerts stay as they were. */
  function ChangePage(l: AlertList, page: nat): (r: AlertList)
    ensures r == l.(page := page)
    ensures Filtered(r) == Filtered(l)
  {
    SameCriteriaSameRows(l, l.(page := page));
    l.(page := page)
  }

  /** Paging alone reaches every listed alert: row i is on page i / rowsPerPage, at position i % rowsPerPage. */
  lemma PagingReachesEveryRow(l: AlertList, i: nat)
    requires l.rowsPerPage > 0 && i < |Filtered(l)|
    ensures var r := ChangePage(l, Listing.PageOf(i, l.rowsPerPage));
            && Listing.SlotOf(i, l.rowsPerPage) < |Paginated(r)|
            && Paginated(r)[Listing.SlotOf(i, l.rowsPerPage)] == Filtered(l)[i]
  {
    var xs := Filtered(l);
    var r := ChangePage(l, Listing.PageOf(i, l.rowsPerPage));
    assert Paginated(r) == Listing.Page(xs, Listing.PageOf(i, l.rowsPerPage), l.rowsPerPage);
    Listing.PageCovers(xs, l.rowsPerPage, i);
  }

  /** `handleChangeRowsPerPage`: back to page 0 with the same alerts, now `n` to a page. */
  function SetRowsPerPage(l: AlertList, n: nat): (r: AlertList)
    ensures r.page == 0 && r.rowsPerPage == n
    ensures r == l.(rowsPerPage := r.rowsPerPage, page := r.page)
    ensures Filtered(r) == Filtered(l)
    ensures |Paginated(r)| == Listing.Min(n, |Filtered(l)|)
    ensures Paginated(r) == Filtered(r)[..Listing.Min(r.rowsPerPage, |Filtered(r)|)]
  {
    var r := l.(rowsPerPage := n, page := 0);
    SameCriteriaSameRows(l, r);
    FirstPageOfFiltered(r);
    r
  }

  /** `handleSearch`: back to page 0, listing the alerts that match the new term under the current filters. */
  function SetSearch(l: AlertList, term: string): (r: AlertList)
    ensures r.page == 0
    ensures forall a :: a in Filtered(r) <==>
              && a in l.alerts && MatchesSearch(a, term)
              && FilterAccepts(l.severityFilter, SeverityName(a.alert.severity))
              && FilterAccepts(l.statusFilter, AlertStatusName(a.alert.status))
    ensures r.searchTerm == term && r == l.(searchTerm := r.searchTerm, page := 0)
    ensures Paginated(r) == Filtered(r)[..Listing.Min(r.rowsPerPage, |Filtered(r)|)]
  {
    var r := l.(searchTerm := term, page := 0);
    FirstPageOfFiltered(r);
    r
  }

  /** `handleSeverityFilterChange`: back to page 0, listing the alerts that pass the new severity filter. */
  function SetSeverityFilter(l: AlertList, f: string): (r: AlertList)
    ensures r.page == 0
    ensures forall a :: a in Filtered(r) <==>
              && a in l.alerts && MatchesSearch(a, l.searchTerm)
              && FilterAccepts(f, SeverityName(a.alert.severity))
              && FilterAccepts(l.statusFilter, AlertStatusName(a.alert.status))
    ensures r.severityFilter == f && r == l.(severityFilter := r.severityFilter, page := 0)
    ensures Paginated(r) == Filtered(r)[..Listing.Min(r.rowsPerPage, |Filtered(r)|)]
  {
    var r := l.(severityFilter := f, page := 0);
    FirstPageOfFiltered(r);
    r
  }

  /** `handleStatusFilterChange`: back to page 0, listing the alerts that pass the new status filter. */
  function SetStatusFilter(l: AlertList, f: string): (r: AlertList)
    ensures r.page == 0
    ensures forall a :: a in Filtered(r) <==>
              && a in l.alerts && MatchesSearch(a, l.searchTerm)
              && FilterAccepts(l.severityFilter, SeverityName(a.alert.severity))
              && FilterAccepts(f, AlertStatusName(a.alert.status))
    ensures r.statusFilter == f && r == l.(statusFilter := r.statusFilter, page := 0)
    ensures Paginated(r) == Filtered(r)[..Listing.Min(r.rowsPerPage, |Filtered(r)|)]
  {
    var r := l.(statusFilter := f, page := 0);
    FirstPageOfFiltered(r);
    r
  }

  /** `handleClearFilters`: back to page 0 with every alert listed. */
  function ClearFilters(l: AlertList): (r: AlertList)
    ensures r.page == 0
    ensures Filtered(r) == l.alerts
    ensures r.searchTerm == "" && r.severityFilter == "" && r.statusFilter == ""
    ensures r == l.(searchTerm := r.searchTerm, severityFilter := r.severityFilter, statusFilter := r.statusFilter, page := 0)
    ensures Paginated(r) == Filtered(r)[..Listing.Min(r.rowsPerPage, |Filtered(r)|)]
  {
    var r := l.(searchTerm := "", severityFilter := "", statusFilter := "", page := 0);
    NoCriteriaShowsAll(r);
    FirstPageOfFiltered(r);
    r
  }
}
