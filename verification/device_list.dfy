/**
  The device list page: the add-device form's validation, including the
  dotted-quad shape test `/^(\d{1,3}\.){3}\d{1,3}$/` on the IP address, adding
  and deleting devices in the local list, and search with paging.
 */
module DeviceListPage {
  import opened Domain
  import opened Text
  import opened Forms
  import Listing

  datatype DeviceForm = DeviceForm(
    name: string,
    deviceType: DeviceType,
    ipAddress: string,
    location: string,
    status: DeviceStatus)

  datatype DeviceList = DeviceList(
    devices: seq<Device>,
    page: nat,
    rowsPerPage: nat,
    searchTerm: string,
    form: DeviceForm,
    formErrors: set<FormError>,
    dialogOpen: bool)

  /** `\d` without the Unicode flag: an ASCII digit. */
  predicate IsDigit(c: char) {
    '0' <= c <= '9'
  }

  predicate AllDigits(g: string) {
    forall i :: 0 <= i < |g| ==> IsDigit(g[i])
  }

  /** `s.split('.')`: the pieces between dots, empty pieces included. */
  function SplitDots(s: string): (r: seq<string>)
    ensures |r| >= 1
  {
    if |s| == 0 then [""]
    else
      var rest := SplitDots(s[1..]);
      if s[0] == '.' then [""] + rest else [[s[0]] + rest[0]] + rest[1..]
  }

  /** `\d{1,3}`. */
  predicate IsOctetShape(g: string) {
    1 <= |g| <= 3 && AllDigits(g)
  }

  /** Four groups of one to three digits separated by single dots, and nothing else. */
  predicate IsDottedQuad(s: string) {
    var groups := SplitDots(s);
    |groups| == 4 && forall i :: 0 <= i < 4 ==> IsOctetShape(groups[i])
  }

  /**
    The regular expression run left to right: `digits` digits have been read in
    the current group and `dots` dots before it.
   */
  function Scan(s: string, digits: nat, dots: nat): bool
    decreases |s|
  {
    if |s| == 0 then 1 <= digits && dots == 3
    else if IsDigit(s[0]) then digits < 3 && Scan(s[1..], digits + 1, dots)
    else if s[0] == '.' then 1 <= digits && dots < 3 && Scan(s[1..], 0, dots + 1)
    else false
  }

  /** The scan accepts the rest of the input exactly when its split completes the four groups. */
  lemma {:induction false} ScanMatchesSplit(s: string, digits: nat, dots: nat)
    requires digits <= 3 && dots <= 3
    ensures Scan(s, digits, dots) <==>
              var g := SplitDots(s);
              && |g| == 4 - dots
              && 1 <= digits + |g[0]| <= 3 && AllDigits(g[0])
              && forall i :: 1 <= i < |g| ==> IsOctetShape(g[i])
    decreases |s|
  {
    if |s| > 0 {
      var rest := SplitDots(s[1..]);
      var g := SplitDots(s);
      if IsDigit(s[0]) {
        var h := [s[0]] + rest[0];
        assert g == [h] + rest[1..];
        assert AllDigits(h) <==> AllDigits(rest[0]) by {
          assert forall i :: 0 <= i < |rest[0]| ==> rest[0][i] == h[i + 1];
          assert forall i :: 1 <= i < |h| ==> h[i] == rest[0][i - 1];
        }
        assert forall i :: 1 <= i < |g| ==> g[i] == rest[i];
        if digits < 3 {
          ScanMatchesSplit(s[1..], digits + 1, dots);
        }
      } else if s[0] == '.' {
        assert g == [""] + rest;
        assert forall i :: 1 <= i < |g| ==> g[i] == rest[i - 1];
        assert forall i :: 0 <= i < |rest| ==> rest[i] == g[i + 1];
        if dots < 3 {
          ScanMatchesSplit(s[1..], 0, dots + 1);
          if Scan(s[1..], 0, dots + 1) && 1 <= digits {
            forall i | 1 <= i < |g|
              ensures IsOctetShape(g[i])
            {
              assert g[i] == rest[i - 1];
            }
          }
        }
      } else {
        assert g[0][0] == s[0];
      }
    }
  }

  /** `ipPattern.test(ipAddress)`. */
  function MatchesIpPattern(s: string): (r: bool)
    ensures r <==> IsDottedQuad(s)
  {
    ScanMatchesSplit(s, 0, 0);
    Scan(s, 0, 0)
  }

  /** The pattern checks shape only: an octet above 255 passes; a missing group or a leading space does not. */
  lemma OctetRangeNotChecked()
    ensures IsDottedQuad("999.1.1.1")
    ensures !IsDottedQuad("1.2.3")
    ensures !IsDottedQuad(" 1.2.3.4")
  {
    assert Scan("1", 0, 3);
    assert Scan(".1", 1, 2);
    assert Scan("1.1", 0, 2);
    assert Scan(".1.1", 1, 1);
    assert Scan("1.1.1", 0, 1);
    assert Scan(".1.1.1", 3, 0);
    assert Scan("999.1.1.1", 0, 0);
    assert MatchesIpPattern("999.1.1.1");
    assert !Scan("3", 0, 2);
    assert !Scan(".3", 1, 1);
    assert !Scan("2.3", 0, 1);
    assert !Scan(".2.3", 1, 0);
    assert !MatchesIpPattern("1.2.3");
    assert !MatchesIpPattern(" 1.2.3.4");
  }

  ghost predicate AllSpace(s: string) {
    forall i :: 0 <= i < |s| ==> IsJsSpace(s[i])
  }

  /** The device form's error set, from which fields are blank and whether the IP address has the right shape. */
  function DeviceErrorSet(nameBlank: bool, ipBlank: bool, ipShaped: bool, locationBlank: bool): (r: set<FormError>)
    ensures NameRequired in r <==> nameBlank
    ensures IpRequired in r <==> ipBlank
    ensures IpInvalid in r <==> !ipBlank && !ipShaped
    ensures LocationRequired in r <==> locationBlank
    ensures TitleRequired !in r && DescriptionRequired !in r
  {
    (if nameBlank then {NameRequired} else {})
    + (if ipBlank then {IpRequired} else if !ipShaped then {IpInvalid} else {})
    + (if locationBlank then {LocationRequired} else {})
  }

  /**
    `validateForm`: name and location must not be blank; the IP address must not
    be blank and, untrimmed, must have the dotted-quad shape.
   */
  function DeviceFormErrors(f: DeviceForm): (r: set<FormError>)
    ensures NameRequired in r <==> AllSpace(f.name)
    ensures IpRequired in r <==> AllSpace(f.ipAddress)
    ensures IpInvalid in r <==> !AllSpace(f.ipAddress) && !IsDottedQuad(f.ipAddress)
    ensures LocationRequired in r <==> AllSpace(f.location)
    ensures TitleRequired !in r && DescriptionRequired !in r
  {
    BlankIffAllSpace(f.name);
    BlankIffAllSpace(f.ipAddress);
    BlankIffAllSpace(f.location);
    DeviceErrorSet(IsBlank(f.name), IsBlank(f.ipAddress), MatchesIpPattern(f.ipAddress), IsBlank(f.location))
  }

  /** An accepted form always carries an IP address of the dotted-quad shape. */
  lemma AcceptedIpHasShape(f: DeviceForm)
    requires DeviceFormErrors(f) == {}
    ensures IsDottedQuad(f.ipAddress)
  {
  }

  /** The new device's row, with the given id. */
  function NewDevice(id: Id, f: DeviceForm, now: Time): Device {
    Device(id, f.name, f.deviceType, f.ipAddress, f.location, f.status, now)
  }

  /**
    `handleAddDevice` as the source writes it: a valid form appends one device
    whose id is the list's length plus one.
   */
  function AddDeviceAsWritten(l: DeviceList, now: Time): (r: DeviceList)
    ensures r.formErrors == DeviceFormErrors(l.form)
    ensures r.formErrors != {} ==> r == l.(formErrors := r.formErrors)
    ensures r.formErrors == {} ==> && r.devices == l.devices + [NewDevice(|l.devices| + 1, l.form, now)]
                                   && !r.dialogOpen
    ensures r == l.(formErrors := r.formErrors, devices := r.devices, dialogOpen := r.dialogOpen)
  {
    var errors := DeviceFormErrors(l.form);
    if errors != {} then l.(formErrors := errors)
    else l.(formErrors := errors, devices := l.devices + [NewDevice(|l.devices| + 1, l.form, now)], dialogOpen := false)
  }

  /** The largest id in the list, 0 for an empty list. */
  function MaxId(devices: seq<Device>): (r: Id)
    ensures forall i :: 0 <= i < |devices| ==> devices[i].deviceId <= r
    ensures |devices| > 0 ==> exists i :: 0 <= i < |devices| && devices[i].deviceId == r
    ensures |devices| == 0 ==> r == 0
  {
    if |devices| == 0 then 0
    else
      var m := MaxId(devices[1..]);
      assert forall i :: 1 <= i < |devices| ==> devices[i] == devices[1..][i - 1];
      if devices[0].deviceId >= m then devices[0].deviceId
      else
        var j :| 0 <= j < |devices[1..]| && devices[1..][j].deviceId == m;
        assert devices[j + 1].deviceId == m;
        m
  }

  /**
    `handleAddDevice` with a fresh id: a valid form appends one device whose id
    is above every id in the list; an invalid one changes only the errors.
   */
  function AddDevice(l: DeviceList, now: Time): (r: DeviceList)
    ensures r.formErrors == DeviceFormErrors(l.form)
    ensures r.formErrors != {} ==> r == l.(formErrors := r.formErrors)
    ensures r.formErrors == {} ==> && |r.devices| == |l.devices| + 1
                                   && r.devices[..|l.devices|] == l.devices
                                   && r.devices[|l.devices|] == NewDevice(r.devices[|l.devices|].deviceId, l.form, now)
                                   && (forall i :: 0 <= i < |l.devices| ==> l.devices[i].deviceId < r.devices[|l.devices|].deviceId)
                                   && !r.dialogOpen
    ensures r == l.(formErrors := r.formErrors, devices := r.devices, dialogOpen := r.dialogOpen)
  {
    var errors := DeviceFormErrors(l.form);
    if errors != {} then l.(formErrors := errors)
    else
      var d := NewDevice(MaxId(l.devices) + 1, l.form, now);
      assert (l.devices + [d])[..|l.devices|] == l.devices;
      l.(formErrors := errors, devices := l.devices + [d], dialogOpen := false)
  }

  /** No two devices in the list share an id. */
  predicate UniqueIds(devices: seq<Device>) {
    forall i, j :: 0 <= i < j < |devices| ==> devices[i].deviceId != devices[j].deviceId
  }

  /**
    Once the list holds a device whose id is one more than the list's length,
    the length-based id repeats it.
   */
  lemma AsWrittenRepeatsId(l: DeviceList, now: Time)
    requires DeviceFormErrors(l.form) == {}
    requires exists i :: 0 <= i < |l.devices| && l.devices[i].deviceId == |l.devices| + 1
    ensures !UniqueIds(AddDeviceAsWritten(l, now).devices)
  {
    var i :| 0 <= i < |l.devices| && l.devices[i].deviceId == |l.devices| + 1;
    var r := AddDeviceAsWritten(l, now);
    assert r.devices[i] == l.devices[i] && r.devices[|l.devices|].deviceId == |l.devices| + 1;
  }

  /** Deleting the middle one of three devices 1, 2 and 3 leaves devices 1 and 3. */
  lemma DeleteMiddleOfThree(l: DeviceList)
    requires |l.devices| == 3 && forall i :: 0 <= i < 3 ==> l.devices[i].deviceId == i + 1
    ensures DeleteDevice(l, 2, true).devices == [l.devices[0], l.devices[2]]
  {
    var d := l.devices;
    var keep := (x: Device) => x.deviceId != 2;
    assert d[1..][1..] == [d[2]];
    assert Listing.Filter(d[1..][1..], keep) == [d[2]];
    assert Listing.Filter(d[1..], keep) == [d[2]];
  }

  /** Devices 1, 2 and 3 with device 2 deleted: the next add gets id 3 a second time. */
  lemma DeleteThenAddRepeatsId(l: DeviceList, now: Time)
    requires |l.devices| == 3 && forall i :: 0 <= i < 3 ==> l.devices[i].deviceId == i + 1
    requires DeviceFormErrors(l.form) == {}
    ensures UniqueIds(l.devices)
    ensures !UniqueIds(AddDeviceAsWritten(DeleteDevice(l, 2, true), now).devices)
  {
    DeleteMiddleOfThree(l);
    var deleted := DeleteDevice(l, 2, true);
    assert deleted.form == l.form;
    assert deleted.devices[1].deviceId == |deleted.devices| + 1;
    AsWrittenRepeatsId(deleted, now);
  }

  /** Appending a device whose id is above every listed id keeps ids unique. */
  lemma AppendFreshKeepsUnique(xs: seq<Device>, d: Device)
    requires UniqueIds(xs) && forall i :: 0 <= i < |xs| ==> xs[i].deviceId < d.deviceId
    ensures UniqueIds(xs + [d])
  {
  }

  /** With fresh ids, adding keeps device ids unique. */
  lemma AddKeepsIdsUnique(l: DeviceList, now: Time)
    requires UniqueIds(l.devices)
    ensures UniqueIds(AddDevice(l, now).devices)
  {
    var r := AddDevice(l, now);
    if r.formErrors == {} {
      assert r.devices == l.devices + [r.devices[|l.devices|]];
      AppendFreshKeepsUnique(l.devices, r.devices[|l.devices|]);
    }
  }

  /** `handleDeleteDevice`: once confirmed, exactly the devices with that id go, the rest keep their order. */
  function DeleteDevice(l: DeviceList, id: Id, confirmed: bool): (r: DeviceList)
    ensures !confirmed ==> r == l
    ensures confirmed ==> && (forall d :: d in r.devices <==> d in l.devices && d.deviceId != id)
                          && (forall d :: multiset(r.devices)[d] == if d.deviceId != id then multiset(l.devices)[d] else 0)
                          && Listing.SubsequenceOf(r.devices, l.devices)
    ensures r == l.(devices := r.devices)
  {
    if confirmed then l.(devices := Listing.Filter(l.devices, (d: Device) => d.deviceId != id)) else l
  }

  /** A subsequence of a list with unique ids has unique ids. */
  lemma {:induction false} SubsequenceKeepsIdsUnique(a: seq<Device>, b: seq<Device>)
    requires Listing.SubsequenceOf(a, b) && UniqueIds(b)
    ensures UniqueIds(a)
    ensures forall x :: x in a ==> x in b
    decreases |b|
  {
    if |a| > 0 {
      assert UniqueIds(b[1..]) by {
        forall i, j | 0 <= i < j < |b[1..]|
          ensures b[1..][i].deviceId != b[1..][j].deviceId
        {
          assert b[1..][i] == b[i + 1] && b[1..][j] == b[j + 1];
        }
      }
      if a[0] == b[0] && Listing.SubsequenceOf(a[1..], b[1..]) {
        SubsequenceKeepsIdsUnique(a[1..], b[1..]);
        forall i, j | 0 <= i < j < |a|
          ensures a[i].deviceId != a[j].deviceId
        {
          if i == 0 {
            assert a[j] == a[1..][j - 1];
            assert a[j] in a[1..];
            var k :| 0 <= k < |b[1..]| && b[1..][k] == a[j];
            assert b[k + 1] == a[j];
          } else {
            assert a[i] == a[1..][i - 1] && a[j] == a[1..][j - 1];
          }
        }
        assert forall x :: x in a ==> x == a[0] || x in a[1..];
      } else {
        SubsequenceKeepsIdsUnique(a, b[1..]);
      }
    }
  }

  /** Deleting keeps device ids unique and removes every device with that id. */
  lemma DeleteKeepsIdsUnique(l: DeviceList, id: Id)
    requires UniqueIds(l.devices)
    ensures UniqueIds(DeleteDevice(l, id, true).devices)
    ensures forall i :: 0 <= i < |DeleteDevice(l, id, true).devices| ==> DeleteDevice(l, id, true).devices[i].deviceId != id
  {
    var r := DeleteDevice(l, id, true);
    SubsequenceKeepsIdsUnique(r.devices, l.devices);
    assert forall i :: 0 <= i < |r.devices| ==> r.devices[i] in r.devices;
  }

  predicate MatchesSearch(d: Device, term: string) {
    || ContainsIgnoreCase(d.name, term)
    || ContainsIgnoreCase(d.ipAddress, term)
    || ContainsIgnoreCase(DeviceTypeName(d.deviceType), term)
    || ContainsIgnoreCase(d.location, term)
  }

  /** `filteredDevices`: the devices matching the search term, in list order. */
  function Filtered(l: DeviceList): (r: seq<Device>)
    ensures forall d :: d in r <==> d in l.devices && MatchesSearch(d, l.searchTerm)
    ensures forall d :: multiset(r)[d] == if MatchesSearch(d, l.searchTerm) then multiset(l.devices)[d] else 0
    ensures Listing.SubsequenceOf(r, l.devices)
  {
    Listing.Filter(l.devices, (d: Device) => MatchesSearch(d, l.searchTerm))
  }

  /** `paginatedDevices`: one page of the filtered devices, from offset `page * rowsPerPage`. */
  function Paginated(l: DeviceList): (r: seq<Device>)
    ensures |r| <= l.rowsPerPage
    ensures Listing.Offset(l.page, l.rowsPerPage) >= |Filtered(l)| ==> r == []
    ensures Listing.Offset(l.page, l.rowsPerPage) < |Filtered(l)| ==> |r| == Listing.Min(l.rowsPerPage, |Filtered(l)| - Listing.Offset(l.page, l.rowsPerPage))
    ensures forall k :: 0 <= k < |r| ==> Listing.Offset(l.page, l.rowsPerPage) + k < |Filtered(l)| && r[k] == Filtered(l)[Listing.Offset(l.page, l.rowsPerPage) + k]
  {
    Listing.Page(Filtered(l), l.page, l.rowsPerPage)
  }

  /** An empty search lists every device. */
  lemma EmptySearchShowsAll(l: DeviceList)
    requires l.searchTerm == ""
    ensures Filtered(l) == l.devices
  {
    forall d | d in l.devices
      ensures MatchesSearch(d, "")
    {
      EmptyIsContained(Lower(d.name));
    }
    Listing.FilterKeepsAll(l.devices, (d: Device) => MatchesSearch(d, l.searchTerm));
  }

  /** On page 0 the view shows the first rows of the filtered list. */
  lemma FirstPageOfFiltered(l: DeviceList)
    requires l.page == 0
    ensures Paginated(l) == Filtered(l)[..Listing.Min(l.rowsPerPage, |Filtered(l)|)]
  {
    Listing.FirstPageIsPrefix(Filtered(l), l.rowsPerPage);
  }

  /** Two views of the same devices under the same criteria list the same rows, whatever their paging. */
  lemma SameCriteriaSameRows(l: DeviceList, m: DeviceList)
    requires l.devices == m.devices && l.searchTerm == m.searchTerm
    ensures Filtered(l) == Filtered(m)
  {
    Listing.FilterSameTest(l.devices, (d: Device) => MatchesSearch(d, l.searchTerm), (d: Device) => MatchesSearch(d, m.searchTerm));
  }

  /** `handleChangePage`: only the page moves; the filtered devices stay as they were. */
  function ChangePage(l: DeviceList, page: nat): (r: DeviceList)
    ensures r == l.(page := page)
    ensures Filtered(r) == Filtered(l)
  {
    SameCriteriaSameRows(l, l.(page := page));
    l.(page := page)
  }

  /** Paging alone reaches every listed device: row i is on page i / rowsPerPage, at position i % rowsPerPage. */
  lemma PagingReachesEveryRow(l: DeviceList, i: nat)
    requires l.rowsPerPage > 0 && i < |Filtered(l)|
    ensures var r := ChangePage(l, Listing.PageOf(i, l.rowsPerPage));
            && Listing.SlotOf(i, l.rowsPerPage) < |Paginated(r)|
            && Paginated(r)[Listing.SlotOf(i, l.rowsPerPage)] == Filtered(l)[i]
  {
    var xs := Filtered(l);
    var r := ChangePage(l, Listing.PageOf(i, l.rowsPerPage));
    assert Paginated(r) == Listing.Page(xs, Listing.PageOf(i, l.rowsPerPage), l.rowsPerPage);
    Listing.PageCovers(xs, l.rowsPerPage, i);
  }

  /** `handleChangeRowsPerPage`: back to page 0 with the same devices, now `n` to a page. */
  function SetRowsPerPage(l: DeviceList, n: nat): (r: DeviceList)
    ensures r.page == 0 && r.rowsPerPage == n
    ensures r == l.(rowsPerPage := r.rowsPerPage, page := r.page)
    ensures Filtered(r) == Filtered(l)
    ensures |Paginated(r)| == Listing.Min(n, |Filtered(l)|)
    ensures Paginated(r) == Filtered(r)[..Listing.Min(r.rowsPerPage, |Filtered(r)|)]
  {
    var r := l.(rowsPerPage := n, page := 0);
    SameCriteriaSameRows(l, r);
    FirstPageOfFiltered(r);
    r
  }

  /** `handleSearch`: back to page 0, listing the devices that match the new term. */
  function SetSearch(l: DeviceList, term: string): (r: DeviceList)
    ensures r.page == 0
    ensures forall d :: d in Filtered(r) <==> d in l.devices && MatchesSearch(d, term)
    ensures r.searchTerm == term && r == l.(searchTerm := r.searchTerm, page := 0)
    ensures Paginated(r) == Filtered(r)[..Listing.Min(r.rowsPerPage, |Filtered(r)|)]
  {
    var r := l.(searchTerm := term, page := 0);
    FirstPageOfFiltered(r);
    r
  }
}
