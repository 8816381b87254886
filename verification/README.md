# NOC incidents and alerts — a Dafny model

This project models the core of a network-operations-centre web application.
Operators see **alerts** raised against network **devices** and open
**incidents**, which may be linked to one or more alerts. They also comment on
incidents and move incidents and alerts through their statuses.

The model covers two parts.

- **The server routes for incidents and alerts.** The store is a set of
  immutable maps: incidents, alerts and device names; a set of incident–alert
  link rows; a sequence of comments; and the identity counters. Each route is a
  pure transition that returns `Ok(newStore, value)` or `Err(oldStore)`.
  Creating an incident is one transaction: insert the incident, then for each
  alert insert a link row and force the alert to In Progress, then commit. Any
  statement of it can raise, and that is modelled as an input (`failAt`) naming
  the statement that raises. The single-statement routes, reads included,
  take a `fault` flag; a read that raises answers 500 and changes nothing.
- **The client pages' local state transitions.** These are the incident detail
  page (edit, resolve, close, comment, button guards), the alert detail page
  (default priority, status change, incident creation, button guards), the
  incident creation form (device/alert selection), and the alert, incident and
  device lists (search, filters, paging, acknowledge, add and delete device,
  IP validation).

Shared pieces are JavaScript's `trim` (exact whitespace set),
`toLowerCase().includes(...)` (ASCII case folding, substring search), `filter`
and `slice`. They live in the `Text` and `Listing` modules. The `ClientServer`
module compares a page's local update with what the server stores for the same
request.

The clock is a parameter `now: nat`. `GETDATE()` and `new Date()` both become
`now`. Statuses, priorities, severities and device types are enumerations.
Their display strings (`"In Progress"`, `"Critical"`, …) are given by name
functions and are used where the pages compare strings.

Where the code departs from what the application is documented to do, the model follows the code:

- The incident update compares the new status with the stored one only. An
  incident that is resolved, reopened and resolved again gets a new
  `ResolvedAt` (`IncidentRoutes.ReopenThenResolveRefreshes`). It is not
  "set exactly once".
- The server routes do not validate titles or descriptions. Only the client
  forms do.
- The alert detail query joins devices with an inner join. An alert whose
  device row is missing reads as not found.

## Model

| member | source | states |
|---|---|---|
| IncidentRoutes.LinkAlerts | noc-app/server/routes/incidents.js:86-104 | The linking loop succeeds iff no statement in it raises, the ids are distinct and none is already linked. On success the link rows grow by exactly one per alert id, every listed alert that exists is In Progress whatever its prior status, every other alert is unchanged, and nothing else in the store changes. |
| IncidentRoutes.ForceInProgress | noc-app/server/routes/incidents.js:99-103 | The status update changes only that alert's status, to In Progress; an absent id changes nothing. |
| IncidentRoutes.CreateIncident | noc-app/server/routes/incidents.js:60-121 | All or nothing: on failure the store is exactly the one the call started from. On success the new id is the next identity value; the row is Open whatever the caller sent; the links are exactly the old ones plus one per alert id; the linked alerts are In Progress and no other alert changes; nothing else changes. |
| IncidentRoutes.CreateSucceedsIff | noc-app/server/routes/incidents.js:86-116 | On a valid store, creation commits iff no statement up to the commit raises and the alert ids are distinct. A repeated id is a key violation that rolls everything back. |
| IncidentRoutes.CreateWithoutAlerts | noc-app/server/routes/incidents.js:86 | An empty alert list commits, leaves alerts and links as they were, and adds exactly one incident. |
| IncidentRoutes.CreatePreservesValid | noc-app/server/routes/incidents.js:60-121 | Creation keeps the store invariant (keys match row ids, ids below the counters, resolved rows have a resolution time, link rows name issued incident ids, comment ids increase), and the new id was unused. |
| IncidentRoutes.UpdateIncident | noc-app/server/routes/incidents.js:124-155 | The update overwrites title, description, priority, status, device and assignee and stamps `UpdatedAt`. `ResolvedAt` changes only when the new status is Resolved and the stored one is not, and then becomes `now`. No other row changes, and an absent id changes nothing. |
| IncidentRoutes.ResolveTwiceKeepsFirstTime | noc-app/server/routes/incidents.js:146 | Submitting Resolved twice keeps the first resolution time. |
| IncidentRoutes.ReopenThenResolveRefreshes | noc-app/server/routes/incidents.js:146 | Resolved, reopened, then resolved again, the incident carries the latest resolution time. |
| IncidentRoutes.UpdatePreservesValid | noc-app/server/routes/incidents.js:124-155 | An update keeps the store invariant and never clears a resolution time. |
| IncidentRoutes.AddComment | noc-app/server/routes/incidents.js:158-181 | A comment insert appends exactly one comment with the next id, this incident and `now`. It touches nothing else, the incident row included. |
| IncidentRoutes.AddCommentPreservesValid | noc-app/server/routes/incidents.js:158-181 | Appending a comment keeps the store invariant (comment ids increase). |
| IncidentRoutes.InsertByTime | noc-app/server/routes/incidents.js:192 | Inserting into a time-ordered list keeps it ordered and adds exactly that comment. |
| IncidentRoutes.InsertByTimeAddsOne | noc-app/server/routes/incidents.js:192 | The insertion adds one occurrence of the comment to the multiset and nothing else. |
| IncidentRoutes.SortByTime | noc-app/server/routes/incidents.js:192 | `ORDER BY CreatedAt ASC`: the result is ordered by time and is a permutation of its input. |
| IncidentRoutes.SortKeepsOrderedInput | noc-app/server/routes/incidents.js:192 | Comments already in time order are listed in insertion order. |
| IncidentRoutes.InsertAtEnd | noc-app/server/routes/incidents.js:192 | A comment no earlier than all listed ones goes to the end. |
| IncidentRoutes.ListComments | noc-app/server/routes/incidents.js:184-200 | A raising query answers 500 iff the fault input is set; the route never answers not found. Otherwise the listing holds exactly this incident's comments, each as often as stored, oldest first. |
| IncidentRoutes.AddedCommentIsListed | noc-app/server/routes/incidents.js:158-200 | A posted comment appears in its incident's listing and not in any other incident's, whose listing is unchanged. |
| IncidentRoutes.FilterAppendSkipped | noc-app/server/routes/incidents.js:190-191 | Appending a comment for another incident does not change this incident's selection. |
| IncidentRoutes.DeviceNameOf | noc-app/server/routes/incidents.js:28-31 | `LEFT JOIN Devices`: a name iff the incident has a device id and that device row exists, and then it is that row's name; otherwise null. |
| IncidentRoutes.GetIncident | noc-app/server/routes/incidents.js:23-57 | A raising query answers 500 iff the fault input is set. Otherwise not found iff the id is absent; else the stored row, its device name as the LEFT JOIN gives it, and exactly the existing alerts joined through its link rows. |
| IncidentRoutes.CreatedIncidentShowsItsAlerts | noc-app/server/routes/incidents.js:23-121 | Reading back a created incident shows it Open. Its related alerts are exactly the listed alerts that exist, and all of them are In Progress. |
| AlertRoutes.CreateAlert | noc-app/server/routes/alerts.js:68-92 | A new alert gets the next id, status New, timestamp `now` and no resolution time; nothing else changes. |
| AlertRoutes.UpdateAlertStatus | noc-app/server/routes/alerts.js:95-115 | The status becomes exactly the value sent. The resolution time becomes `now` whenever that value is Resolved, whatever the prior status, and is kept otherwise. No other alert changes. |
| AlertRoutes.ResolveTwiceRefreshes | noc-app/server/routes/alerts.js:106 | Two Resolved updates at increasing times leave the later time, unlike the incident rule. |
| AlertRoutes.GetAlert | noc-app/server/routes/alerts.js:44-65 | A raising query answers 500 iff the fault input is set. Otherwise not found iff the id is absent or its device row is missing (inner join); else the stored alert and its device's name. |
| AlertRoutes.DeleteAlert | noc-app/server/routes/alerts.js:118-130 | Removes exactly that alert's key; every other alert and the rest of the store are unchanged. |
| AlertRoutes.CreatedAlertReadsBack | noc-app/server/routes/alerts.js:68-92 | A created alert on an existing device reads back as New, stamped `now`, with no resolution time. |
| AlertRoutes.DeletedAlertIsGone | noc-app/server/routes/alerts.js:118-130 | After a delete, reading that alert is not found. |
| AlertRoutes.AlertRoutesPreserveValid | noc-app/server/routes/alerts.js:68-130 | Create, status update and delete keep the store invariant; a resolved alert always has a resolution time. |
| Forms.TitleDescriptionErrors | noc-app/src/components/incidents/IncidentDetail.tsx:252-265 | Title and description are each reported exactly when they consist of whitespace only; no other error is reported. |
| Text.TrimStart | noc-app/src/components/incidents/IncidentDetail.tsx:201 | `trim` start: the result is a suffix whose dropped part is all whitespace and that does not start with whitespace. |
| Text.TrimEnd | noc-app/src/components/incidents/IncidentDetail.tsx:201 | `trim` end: the result is a prefix whose dropped part is all whitespace and that does not end with whitespace. |
| Text.BlankIffAllSpace | noc-app/src/components/incidents/IncidentDetail.tsx:201 | `!s.trim()` holds exactly when every character is whitespace. |
| Text.ContainsIffOccurs | noc-app/src/components/alerts/AlertList.tsx:264 | `includes` holds exactly when the term occurs at some offset. |
| Text.ContainsIgnoreCaseExtended | noc-app/src/components/alerts/AlertList.tsx:263-266 | If a string contains a longer term ignoring case, it contains every prefix of it. |
| Listing.Filter | noc-app/src/components/alerts/AlertList.tsx:262 | `filter` keeps exactly the elements passing the test, each as often as in the input, as an order-preserving subsequence; a failing element does not occur at all. |
| Listing.FilterIdempotent | noc-app/src/components/alerts/AlertList.tsx:262 | Filtering twice with the same test is filtering once. |
| Listing.FilterSameTest | noc-app/src/components/alerts/AlertList.tsx:262 | Two tests that agree on every element of the list select the same list. |
| Listing.Page | noc-app/src/components/alerts/AlertList.tsx:275-278 | `slice(start, start + rpp)` with clamped bounds: at most rpp elements, empty past the end, element k is element start + k. |
| Listing.PageCovers | noc-app/src/components/alerts/AlertList.tsx:275-278 | Every element appears on page i / rpp at offset i % rpp, so paging loses nothing. |
| IncidentDetailPage.Edited | noc-app/src/components/incidents/IncidentDetail.tsx:284-296 | The edit overwrites title, description, priority and status, maps an empty assignee to null, and keeps id, device and creation time. The resolution time changes only on the first arrival at Resolved, and then becomes `now`. |
| IncidentDetailPage.UpdateIncident | noc-app/src/components/incidents/IncidentDetail.tsx:267-305 | A blank title or description is reported and nothing else changes; otherwise the incident is edited and the dialog closes. No other page field changes. |
| IncidentDetailPage.Resolve | noc-app/src/components/incidents/IncidentDetail.tsx:307-334 | Resolve sets Resolved and overwrites the resolution time with `now`, even if one was set, and moves the edit form's status to Resolved. No other page field changes. |
| IncidentDetailPage.Close | noc-app/src/components/incidents/IncidentDetail.tsx:336-363 | Close sets Closed and keeps an existing resolution time, or else takes exactly `now`, so a closed incident always has one. The edit form's status follows, and no other page field changes. |
| IncidentDetailPage.AddComment | noc-app/src/components/incidents/IncidentDetail.tsx:200-226 | A blank comment changes nothing. Otherwise exactly one comment is appended, with id length + 1, this route's incident and the current user, earlier comments are unchanged, and the entry is cleared. |
| IncidentDetailPage.AddCommentKeepsNumbering | noc-app/src/components/incidents/IncidentDetail.tsx:213-221 | If comments are numbered 1..n in order, they still are after adding one. |
| IncidentDetailPage.ButtonsFollowActions | noc-app/src/components/incidents/IncidentDetail.tsx:560-580 | After Resolve only Close is offered; after Close neither button is. |
| IncidentDetailPage.CanResolve | noc-app/src/components/incidents/IncidentDetail.tsx:560 | Resolve's guard holds exactly for an Open or In Progress incident; wherever it holds, Close's does too. The guard also holds for a missing incident, but the page never reaches the button then: it renders the spinner (:429) or the not-found block (:437). |
| IncidentDetailPage.CanClose | noc-app/src/components/incidents/IncidentDetail.tsx:571 | Close's guard holds exactly for an Open, In Progress or Resolved incident. It also holds for a missing incident, a state in which the page renders the spinner (:429) or the not-found block (:437) instead. |
| IncidentDetailPage.ActionsKeepCoherent | noc-app/src/components/incidents/IncidentDetail.tsx:267-363 | Edit, resolve and close each keep "a Resolved incident has a resolution time". |
| IncidentDetailPage.EditResolveTwiceKeepsFirstTime | noc-app/src/components/incidents/IncidentDetail.tsx:284-296 | Saving Resolved twice in the edit dialog keeps the first resolution time. |
| IncidentDetailPage.ResolveButtonOverwrites | noc-app/src/components/incidents/IncidentDetail.tsx:316-321 | The Resolve button replaces an existing resolution time with the new `now`. |
| AlertDetailPage.DefaultPriority | noc-app/src/components/alerts/AlertDetail.tsx:154 | The prefilled priority is Medium exactly for Warning, Minor and Info alerts, and is never Low. |
| AlertDetailPage.DefaultPriorityOrdered | noc-app/src/components/alerts/AlertDetail.tsx:154 | The proposed priority is Critical exactly for Critical alerts and High exactly for Major ones. It is never Low, and a more severe alert never gets a lower priority. |
| AlertDetailPage.UpdateStatus | noc-app/src/components/alerts/AlertDetail.tsx:166-178 | A status change changes only the alert's status, to the given value; no alert, no change. |
| AlertDetailPage.CreateIncident | noc-app/src/components/alerts/AlertDetail.tsx:204-247 | A blank title or description is reported and nothing else changes. Otherwise the alert becomes In Progress with every other field kept, and the dialog closes. |
| AlertDetailPage.CanAcknowledge | noc-app/src/components/alerts/AlertDetail.tsx:448 | Acknowledge is shown exactly for an alert that is not Acknowledged, In Progress or Resolved, and never while there is none; wherever it is shown, Create Incident is too. |
| AlertDetailPage.CanCreateIncident | noc-app/src/components/alerts/AlertDetail.tsx:458 | Create Incident is shown exactly for an alert that is neither In Progress nor Resolved; wherever it is shown, Mark as Resolved is too. |
| AlertDetailPage.CanMarkResolved | noc-app/src/components/alerts/AlertDetail.tsx:469 | Mark as Resolved's guard holds exactly for a New, Acknowledged or In Progress alert. It also holds for a missing alert, but the page never reaches the button then: it renders the spinner (AlertDetail.tsx:313) or the not-found block (AlertDetail.tsx:321). |
| AlertDetailPage.ButtonsFollowActions | noc-app/src/components/alerts/AlertDetail.tsx:166-247 | Each action removes its own button and the ones nested in it, and keeps the rest. |
| IncidentCreatePage.FindDevice | noc-app/src/components/incidents/IncidentCreate.tsx:213 | `find`: none iff no device has the id; otherwise the first device with it. |
| IncidentCreatePage.IdOrNull | noc-app/src/components/incidents/IncidentCreate.tsx:215 | The `or null` fallback after `x?.DeviceID`: a missing device and the falsy id 0 both give null. |
| IncidentCreatePage.ChangeDevice | noc-app/src/components/incidents/IncidentCreate.tsx:170-199 | Choosing a device keeps exactly the selected alerts on it, each as often as selected, in order, with the form's ids following. Clearing it sets the device to null and leaves the alerts. |
| IncidentCreatePage.ChangeAlerts | noc-app/src/components/incidents/IncidentCreate.tsx:201-219 | The selection and the form's ids become the given alerts and their ids in order. With no device chosen, a non-empty selection adopts its first alert's device as found in the list. |
| IncidentCreatePage.OfferedAlerts | noc-app/src/components/incidents/IncidentCreate.tsx:271-276 | With a device chosen, the offered alerts are exactly that device's, each as often as listed, in order; otherwise all alerts. |
| IncidentCreatePage.Submit | noc-app/src/components/incidents/IncidentCreate.tsx:221-269 | A blank title or description is reported and blocks submission with nothing else changed; otherwise submission starts. |
| IncidentCreatePage.HandlersKeepSelectionCoherent | noc-app/src/components/incidents/IncidentCreate.tsx:170-219 | Both selection handlers keep the form's alert ids equal to the selected alerts' ids. |
| IncidentCreatePage.ChosenDeviceOwnsSelection | noc-app/src/components/incidents/IncidentCreate.tsx:178-191 | After choosing a device, every alert the form would link belongs to it. |
| IncidentCreatePage.AlertChoiceAdoptsDevice | noc-app/src/components/incidents/IncidentCreate.tsx:209-218 | Picking alerts with no device chosen adopts the first alert's device when it is listed under a non-zero id. |
| AlertListPage.Filtered | noc-app/src/components/alerts/AlertList.tsx:262-272 | An alert is listed iff the term is in its message, device name or source (ignoring case) and each non-empty filter equals its severity and status (ignoring case). The list is an order-preserving subsequence holding each such alert as often as the input does. |
| AlertListPage.Paginated | noc-app/src/components/alerts/AlertList.tsx:275-278 | Empty past the end; otherwise exactly min(rowsPerPage, count − page·rowsPerPage) alerts, the k-th being filtered alert page·rowsPerPage + k. |
| AlertListPage.NoCriteriaShowsAll | noc-app/src/components/alerts/AlertList.tsx:262-272 | No search and no filters lists every alert in order. |
| AlertListPage.LongerSearchNarrows | noc-app/src/components/alerts/AlertList.tsx:262-272 | Typing more of the search term only removes alerts. |
| AlertListPage.Acknowledge | noc-app/src/components/alerts/AlertList.tsx:198-210 | The alerts with that id become Acknowledged. Length, order and every other alert are kept. |
| AlertListPage.AcknowledgeIdempotent | noc-app/src/components/alerts/AlertList.tsx:204-206 | Acknowledging twice is acknowledging once, and the alert then passes an "acknowledged" status filter. |
| AlertListPage.ChangePage | noc-app/src/components/alerts/AlertList.tsx:167-169 | Only the page moves; the filtered alerts are unchanged. |
| AlertListPage.PagingReachesEveryRow | noc-app/src/components/alerts/AlertList.tsx:167-169 | Every filtered alert i is reached by moving to page i / rowsPerPage, where it sits at position i % rowsPerPage. |
| AlertListPage.SetRowsPerPage | noc-app/src/components/alerts/AlertList.tsx:171-174 | Sets rows per page to n and goes back to page 0, with the alerts and every criterion unchanged. The same filtered alerts are listed, and the first min(n, count) of them are shown. |
| AlertListPage.SetSearch | noc-app/src/components/alerts/AlertList.tsx:176-179 | Stores the new term and goes back to page 0, changing nothing else; the listed alerts are exactly those matching the new term under the current filters, and the first page of them is shown. |
| AlertListPage.SetSeverityFilter | noc-app/src/components/alerts/AlertList.tsx:181-184 | Stores the new severity filter and goes back to page 0, changing nothing else; the listed alerts are exactly those passing the new severity filter under the current search and other filter, and the first page of them is shown. |
| AlertListPage.SetStatusFilter | noc-app/src/components/alerts/AlertList.tsx:186-189 | Stores the new status filter and goes back to page 0, changing nothing else; the listed alerts are exactly those passing the new status filter under the current search and other filter, and the first page of them is shown. |
| AlertListPage.ClearFilters | noc-app/src/components/alerts/AlertList.tsx:191-196 | Empties the search and both filters and goes back to page 0, changing nothing else, with every alert listed, in order, and the first page of them shown. |
| IncidentListPage.Filtered | noc-app/src/components/incidents/IncidentList.tsx:216-227 | An incident is listed iff the term is in its title or description, or in a non-null device name or assignee (ignoring case), and each non-empty filter equals its priority and status (ignoring case). The list is an order-preserving subsequence holding each such incident as often as the input does. |
| IncidentListPage.Paginated | noc-app/src/components/incidents/IncidentList.tsx:230-233 | Empty past the end; otherwise exactly min(rowsPerPage, count − page·rowsPerPage) incidents, the k-th being filtered incident page·rowsPerPage + k. |
| IncidentListPage.NoCriteriaShowsAll | noc-app/src/components/incidents/IncidentList.tsx:216-227 | No search and no filters lists every incident in order. |
| IncidentListPage.LongerSearchNarrows | noc-app/src/components/incidents/IncidentList.tsx:216-227 | Typing more of the search term only removes incidents. |
| IncidentListPage.ChangePage | noc-app/src/components/incidents/IncidentList.tsx:154-156 | Only the page moves; the filtered incidents are unchanged. |
| IncidentListPage.PagingReachesEveryRow | noc-app/src/components/incidents/IncidentList.tsx:154-156 | Every filtered incident i is reached by moving to page i / rowsPerPage, where it sits at position i % rowsPerPage. |
| IncidentListPage.SetRowsPerPage | noc-app/src/components/incidents/IncidentList.tsx:158-161 | Sets rows per page to n and goes back to page 0, with the incidents and every criterion unchanged. The same filtered incidents are listed, and the first min(n, count) of them are shown. |
| IncidentListPage.SetSearch | noc-app/src/components/incidents/IncidentList.tsx:163-166 | Stores the new term and goes back to page 0, changing nothing else; the listed incidents are exactly those matching the new term under the current filters, and the first page of them is shown. |
| IncidentListPage.SetPriorityFilter | noc-app/src/components/incidents/IncidentList.tsx:168-171 | Stores the new priority filter and goes back to page 0, changing nothing else; the listed incidents are exactly those passing the new priority filter under the current search and other filter, and the first page of them is shown. |
| IncidentListPage.SetStatusFilter | noc-app/src/components/incidents/IncidentList.tsx:173-176 | Stores the new status filter and goes back to page 0, changing nothing else; the listed incidents are exactly those passing the new status filter under the current search and other filter, and the first page of them is shown. |
| IncidentListPage.ClearFilters | noc-app/src/components/incidents/IncidentList.tsx:178-183 | Empties the search and both filters and goes back to page 0, changing nothing else, with every incident listed, in order, and the first page of them shown. |
| DeviceListPage.ScanMatchesSplit | noc-app/src/components/devices/DeviceList.tsx:255 | The left-to-right scan of `/^(\d{1,3}\.){3}\d{1,3}$/` accepts the rest of the input exactly when splitting it at dots completes four groups of one to three digits. |
| DeviceListPage.MatchesIpPattern | noc-app/src/components/devices/DeviceList.tsx:255-256 | The pattern accepts exactly four dot-separated groups of one to three ASCII digits. |
| DeviceListPage.OctetRangeNotChecked | noc-app/src/components/devices/DeviceList.tsx:255 | `999.1.1.1` passes; a missing group or a leading space fails. |
| DeviceListPage.DeviceFormErrors | noc-app/src/components/devices/DeviceList.tsx:244-267 | Name and location are each required iff blank. The IP is required iff blank, and invalid iff not blank and, untrimmed, not a dotted quad. |
| DeviceListPage.AcceptedIpHasShape | noc-app/src/components/devices/DeviceList.tsx:251-259 | An accepted form's IP address is a dotted quad. |
| DeviceListPage.AddDeviceAsWritten | noc-app/src/components/devices/DeviceList.tsx:269-300 | As written: a valid form appends one device with id length + 1 and closes the dialog; an invalid one changes only the errors. No other page field changes. |
| DeviceListPage.AsWrittenRepeatsId | noc-app/src/components/devices/DeviceList.tsx:286 | Once some device has id length + 1, the length-based id duplicates it. |
| DeviceListPage.DeleteMiddleOfThree | noc-app/src/components/devices/DeviceList.tsx:302-314 | Deleting device 2 from devices 1, 2, 3 leaves devices 1 and 3, in that order. |
| DeviceListPage.DeleteThenAddRepeatsId | noc-app/src/components/devices/DeviceList.tsx:286-309 | Devices 1, 2, 3, delete 2, add: id 3 appears twice. |
| DeviceListPage.MaxId | noc-app/src/components/devices/DeviceList.tsx:286 | The largest id in the list, 0 when empty. |
| DeviceListPage.AddDevice | noc-app/src/components/devices/DeviceList.tsx:269-300 | Corrected add: a valid form appends one device carrying the form's fields under an id above every existing id; an invalid one changes only the errors. No other page field changes. |
| DeviceListPage.AppendFreshKeepsUnique | noc-app/src/components/devices/DeviceList.tsx:286-297 | Appending a device whose id is above every listed id keeps ids unique. |
| DeviceListPage.AddKeepsIdsUnique | noc-app/src/components/devices/DeviceList.tsx:286 | With the corrected id, adding keeps device ids unique. |
| DeviceListPage.DeleteDevice | noc-app/src/components/devices/DeviceList.tsx:302-314 | Unconfirmed, nothing changes. Confirmed, exactly the devices with that id go, every other device stays as often as it was listed, and the rest keep their order. |
| DeviceListPage.SubsequenceKeepsIdsUnique | noc-app/src/components/devices/DeviceList.tsx:309 | Removing devices keeps ids unique. |
| DeviceListPage.DeleteKeepsIdsUnique | noc-app/src/components/devices/DeviceList.tsx:309 | Deleting keeps ids unique and leaves no device with the deleted id. |
| DeviceListPage.Filtered | noc-app/src/components/devices/DeviceList.tsx:349-354 | A device is listed iff the term is in its name, IP address, type or location (ignoring case), as an order-preserving subsequence holding each such device as often as the input does. |
| DeviceListPage.Paginated | noc-app/src/components/devices/DeviceList.tsx:357-360 | Empty past the end; otherwise exactly min(rowsPerPage, count − page·rowsPerPage) devices, the k-th being filtered device page·rowsPerPage + k. |
| DeviceListPage.EmptySearchShowsAll | noc-app/src/components/devices/DeviceList.tsx:349-354 | An empty search lists every device. |
| DeviceListPage.ChangePage | noc-app/src/components/devices/DeviceList.tsx:198-200 | Only the page moves; the filtered devices are unchanged. |
| DeviceListPage.PagingReachesEveryRow | noc-app/src/components/devices/DeviceList.tsx:198-200 | Every filtered device i is reached by moving to page i / rowsPerPage, where it sits at position i % rowsPerPage. |
| DeviceListPage.SetRowsPerPage | noc-app/src/components/devices/DeviceList.tsx:202-205 | Sets rows per page to n and goes back to page 0, with the devices and every criterion unchanged. The same filtered devices are listed, and the first min(n, count) of them are shown. |
| DeviceListPage.SetSearch | noc-app/src/components/devices/DeviceList.tsx:207-210 | Stores the new term and goes back to page 0, changing nothing else; the listed devices are exactly those matching the new term, and the first page of them is shown. |
| ClientServer.EditMatchesServer | noc-app/src/components/incidents/IncidentDetail.tsx:272-296 | For an incident without a device, an accepted edit leaves the page showing the row the update route stores for the request the dialog sends. |
| ClientServer.EditDropsDevice | noc-app/src/components/incidents/IncidentDetail.tsx:274-287 | For an incident with a device, the edit request carries no device id, so the server stores none while the page keeps the old one: the two disagree. |
| ClientServer.ResolveMatchesServerWhenOffered | noc-app/src/components/incidents/IncidentDetail.tsx:307-334 | Where Resolve is offered, the page's resolved incident equals the server's. |
| ClientServer.CloseDivergesFromServer | noc-app/src/components/incidents/IncidentDetail.tsx:345-350 | Closing a never-resolved incident: the page invents a resolution time and the server keeps none. |
| ClientServer.AcknowledgeMatchesServer | noc-app/src/components/alerts/AlertList.tsx:198-206 | Acknowledging in the list agrees with the status route's Acknowledged update. |
| ClientServer.AlertIncidentMatchesServer | noc-app/src/components/alerts/AlertDetail.tsx:219-247 | When the server's create commits with the alert as its one link, the stored alert is the one the page shows. |

## Left out

- HTTP, JSON, Express routing and the database pool are left out. Each route's effect is a pure transition, and a failure is an input (`fault`, `failAt`); a failed read answers `Failed`, the model's 500.
- The list routes (`GET /incidents`, `GET /alerts`, `GET /alerts/device/:id`) are left out: they are single queries with no rule beyond ordering.
- The devices and reports routes, the dashboard, reports, device detail and not-found pages are outside this model.
- Concurrency and isolation levels are left out; the model is sequential.
- Real clocks and ISO timestamps are left out; the time is a `nat` parameter.
- The floating-point resolution-hours display is left out.
- Case folding is ASCII-only; JavaScript's full Unicode `toLowerCase` is not modelled.
- React rendering, mock data, `setTimeout` loading, dialogs' open/close and field-change handlers, and error banners are left out. Where one handler calls a state setter several times, the model gives the state after the last call, which is the one React keeps.
- Statuses and priorities are enumerations. The routes accept any string, and SQL Server's case-insensitive collation would compare `'resolved'` equal to `'Resolved'`; neither is modelled.
- A rolled-back create also restores the identity counter. SQL Server would leave a gap in the ids.
- Foreign-key constraints on `DeviceID`, `AlertID` and `IncidentID` are not visible in the source, so inserts never fail on them. Only a repeated link row fails, as a primary-key violation.
- `ORDER BY CreatedAt` leaves the order of equal times to the database. The model keeps insertion order for ties.
- The pages' API calls are commented out in the source. `ClientServer` compares local updates with the request the comments describe. The edit request is modelled as written, without a device id.
- ClientServer.ResolveMatchesServerWhenOffered: the Resolve comment sends only a status, which the route would store with NULL title, description, priority, device and assignee. The model sends the incident's own values for those fields instead, so the lemma compares only the status and time rules. ClientServer.CloseDivergesFromServer uses the same request.
- IncidentCreatePage.Submit: models validation and the submitting flag only. The API call and the navigation afterwards are left out.
- AlertDetailPage.CreateIncident: after a valid create the page navigates to the incident list (AlertDetail.tsx:241); the model keeps the page, with the alert In Progress and the dialog closed, and leaves the navigation out.
- IncidentDetailPage.CanResolve, IncidentDetailPage.CanClose, AlertDetailPage.CanMarkResolved: the missing-record case is a value of the guard expression, not a rendered state; the loading spinner and the not-found block that the page renders instead are not modelled.
- The create-incident dialog on the alert page is prefilled from the alert. Only the priority rule is modelled; the title and description text is not.

## Findings

| source | as written | input that shows it | evidently intended | confidence | as-written member | corrected member |
|---|---|---|---|---|---|---|
| noc-app/src/components/devices/DeviceList.tsx:286 | A new device's id is the list's length plus one. | Devices with ids 1, 2 and 3; delete device 2; add a device. The new device gets id 3, which device 3 already has. | A fresh id, above every id in the list. | high (not executed) | DeviceListPage.DeleteThenAddRepeatsId | DeviceListPage.AddKeepsIdsUnique |
