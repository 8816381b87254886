/**
  The `/incidents` routes of the API server: create (one transaction that
  inserts the incident, links the given alerts and forces them to In Progress),
  full-overwrite update with the first-resolution `ResolvedAt` rule, comment
  append and listing, and the detail read with its related alerts.

  A database failure is an input. `fault` says that a route's single statement
  raises; for the create transaction, `failAt` names the statement that raises,
  numbered in execution order: 0 inserts the incident, 2k+1 inserts the link
  for the k-th alert id, 2k+2 updates that alert's status, and 2n+1 is the
  commit, n being the number of alert ids. Inserting a link row that already
  exists violates the (IncidentID, AlertID) key and raises as well.
 */
module IncidentRoutes {
  import opened Domain
  import opened Store
  import Listing

  /** The body of `POST /incidents`; `alertIds` absent is the empty list. */
  datatype IncidentDraft = IncidentDraft(
    title: string,
    description: string,
    priority: Priority,
    deviceId: Option<Id>,
    assignedTo: Option<string>,
    alertIds: seq<Id>)

  /** The body of `PUT /incidents/:id`. */
  datatype IncidentFields = IncidentFields(
    title: string,
    description: string,
    priority: Priority,
    status: IncidentStatus,
    deviceId: Option<Id>,
    assignedTo: Option<string>)

  /** What `GET /incidents/:id` returns: the row, its device's name, and its linked alerts. */
  datatype IncidentView = IncidentView(incident: Incident, deviceName: Option<string>, relatedAlerts: set<Alert>)

  predicate Distinct(xs: seq<Id>) {
    forall i, j :: 0 <= i < j < |xs| ==> xs[i] != xs[j]
  }

  /** No statement numbered in [lo, hi) raises. */
  predicate NoFaultIn(failAt: Option<nat>, lo: nat, hi: nat) {
    failAt.None? || !(lo <= failAt.value < hi)
  }

  /** The link rows an incident gets from a list of alert ids. */
  ghost function LinkSet(id: Id, alertIds: seq<Id>): set<(Id, Id)> {
    set a | a in alertIds :: (id, a)
  }

  /** When the linking loop, starting at statement `step`, runs to its end. */
  ghost predicate LinkingSucceeds(links: set<(Id, Id)>, id: Id, alertIds: seq<Id>, step: nat, failAt: Option<nat>) {
    && NoFaultIn(failAt, step, step + 2 * |alertIds|)
    && Distinct(alertIds)
    && (forall a :: a in alertIds ==> (id, a) !in links)
  }

  /** `UPDATE Alerts SET Status = 'In Progress' WHERE AlertID = @alertId`; no row matches an absent id. */
  function ForceInProgress(db: Db, a: Id): (r: Db)
    ensures r == db.(alerts := r.alerts)
    ensures r.alerts.Keys == db.alerts.Keys
    ensures a in db.alerts ==> r.alerts[a] == db.alerts[a].(status := AlertInProgress)
    ensures forall k :: k in db.alerts && k != a ==> r.alerts[k] == db.alerts[k]
  {
    if a in db.alerts then db.(alerts := db.alerts[a := db.alerts[a].(status := AlertInProgress)]) else db
  }

  /**
    The `for (const alertId of alertIds)` loop inside the transaction: for each id,
    insert the link row, then force the alert to In Progress. None when a statement raises.
   */
  function LinkAlerts(db: Db, id: Id, alertIds: seq<Id>, step: nat, failAt: Option<nat>): (r: Option<Db>)
    ensures r.Some? <==> LinkingSucceeds(db.links, id, alertIds, step, failAt)
    ensures r.Some? ==> r.value == db.(links := r.value.links, alerts := r.value.alerts)
    ensures r.Some? ==> r.value.links == db.links + LinkSet(id, alertIds)
    ensures r.Some? ==> r.value.alerts.Keys == db.alerts.Keys
    ensures r.Some? ==> forall k :: k in db.alerts ==>
              r.value.alerts[k] == if k in alertIds then db.alerts[k].(status := AlertInProgress) else db.alerts[k]
    decreases |alertIds|
  {
    if |alertIds| == 0 then Some(db)
    else
      var a := alertIds[0];
      var rest := alertIds[1..];
      assert alertIds == [a] + rest;
      assert Distinct(alertIds) <==> a !in rest && Distinct(rest) by {
        if a !in rest && Distinct(rest) {
          forall i, j | 0 <= i < j < |alertIds|
            ensures alertIds[i] != alertIds[j]
          {
            if i > 0 {
              assert alertIds[i] == rest[i - 1] && alertIds[j] == rest[j - 1];
            } else {
              assert alertIds[j] == rest[j - 1];
            }
          }
        }
        if Distinct(alertIds) {
          assert forall i, j :: 0 <= i < j < |rest| ==> rest[i] == alertIds[i + 1] && rest[j] == alertIds[j + 1];
          assert forall j :: 0 <= j < |rest| ==> rest[j] == alertIds[j + 1];
        }
      }
      if failAt == Some(step) || (id, a) in db.links then None
      else
        var linked := db.(links := db.links + {(id, a)});
        if failAt == Some(step + 1) then None
        else
          var r := LinkAlerts(ForceInProgress(linked, a), id, rest, step + 2, failAt);
          assert LinkSet(id, alertIds) == {(id, a)} + LinkSet(id, rest);
          r
  }

  /** The statement number of the commit. */
  function CommitStep(draft: IncidentDraft): nat {
    2 * |draft.alertIds| + 1
  }

  /** The row the first INSERT of the transaction writes. */
  function NewIncidentRow(id: Id, draft: IncidentDraft, now: Time): Incident {
    Incident(id, draft.title, draft.description, draft.priority, Open,
             draft.deviceId, draft.assignedTo, now, None, None)
  }

  /**
    `POST /incidents`: all-or-nothing. On success the new incident is Open (no
    caller status is read), it is linked to exactly the given alerts, and each
    of those alerts is In Progress whatever its prior status; on failure the
    store is the one the call started from.
   */
  function CreateIncident(db: Db, draft: IncidentDraft, now: Time, failAt: Option<nat>): (r: Outcome<Id>)
    ensures r.Err? ==> r.db == db
    ensures r.Ok? <==> && failAt != Some(0) && failAt != Some(CommitStep(draft))
                       && LinkingSucceeds(db.links, db.nextIncidentId, draft.alertIds, 1, failAt)
    ensures r.Ok? ==> && r.value == db.nextIncidentId
                      && r.db.incidents == db.incidents[r.value := NewIncidentRow(r.value, draft, now)]
                      && r.db.incidents[r.value].status == Open
                      && r.db.links == db.links + LinkSet(r.value, draft.alertIds)
                      && r.db.alerts.Keys == db.alerts.Keys
                      && (forall a :: a in draft.alertIds && a in db.alerts ==> r.db.alerts[a].status == AlertInProgress)
                      && (forall k :: k in db.alerts ==> r.db.alerts[k] == db.alerts[k].(status := r.db.alerts[k].status))
                      && (forall k :: k in db.alerts && k !in draft.alertIds ==> r.db.alerts[k] == db.alerts[k])
                      && r.db == db.(incidents := r.db.incidents, links := r.db.links, alerts := r.db.alerts,
                                     nextIncidentId := db.nextIncidentId + 1)
  {
    if failAt == Some(0) then Err(db)
    else
      var id := db.nextIncidentId;
      var inserted := db.(incidents := db.incidents[id := NewIncidentRow(id, draft, now)], nextIncidentId := id + 1);
      match LinkAlerts(inserted, id, draft.alertIds, 1, failAt)
      case None => Err(db)
      case Some(linked) =>
        if failAt == Some(CommitStep(draft)) then Err(db) else Ok(linked, id)
  }

  /** On a valid store the fresh incident has no link rows yet, so creation fails only by a raised statement or a repeated alert id. */
  lemma CreateSucceedsIff(db: Db, draft: IncidentDraft, now: Time, failAt: Option<nat>)
    requires Valid(db)
    ensures CreateIncident(db, draft, now, failAt).Ok? <==> NoFaultIn(failAt, 0, CommitStep(draft) + 1) && Distinct(draft.alertIds)
  {
    var id := db.nextIncidentId;
    assert forall a :: (id, a) !in db.links;
  }

  /** An empty alert list touches neither alerts nor links and adds exactly one incident. */
  lemma CreateWithoutAlerts(db: Db, draft: IncidentDraft, now: Time)
    requires draft.alertIds == []
    ensures var r := CreateIncident(db, draft, now, None);
            && r.Ok?
            && r.db.alerts == db.alerts
            && r.db.links == db.links
            && r.db.incidents.Keys == db.incidents.Keys + {r.value}
  {
    assert LinkSet(db.nextIncidentId, []) == {};
  }

  /** Creation keeps the store valid, and the new id was not in use. */
  lemma CreatePreservesValid(db: Db, draft: IncidentDraft, now: Time, failAt: Option<nat>)
    requires Valid(db)
    ensures var r := CreateIncident(db, draft, now, failAt);
            Valid(r.db) && (r.Ok? ==> r.value !in db.incidents)
  {
    var r := CreateIncident(db, draft, now, failAt);
    if r.Ok? {
      var d := r.db;
      forall k | k in d.alerts
        ensures d.alerts[k].alertId == k && k < d.nextAlertId && AlertCoherent(d.alerts[k])
      {
        assert d.alerts[k] == db.alerts[k].(status := d.alerts[k].status);
      }
      forall l | l in d.links
        ensures l.0 < d.nextIncidentId
      {
        if l !in db.links {
          assert l in LinkSet(r.value, draft.alertIds);
        }
      }
    }
  }

  /**
    `PUT /incidents/:id`: overwrites every mutable column and `UpdatedAt`.
    `ResolvedAt` becomes `now` when the new status is Resolved and the stored one
    is not, and is kept otherwise. No row matches an absent id.
   */
  function UpdateIncident(db: Db, id: Id, fields: IncidentFields, now: Time, fault: bool): (r: Outcome<()>)
    ensures r.Err? <==> fault
    ensures r.Err? ==> r.db == db
    ensures r.Ok? ==> r.db == db.(incidents := r.db.incidents)
    ensures r.Ok? ==> r.db.incidents.Keys == db.incidents.Keys
    ensures r.Ok? ==> forall k :: k in db.incidents && k != id ==> r.db.incidents[k] == db.incidents[k]
    ensures r.Ok? && id in db.incidents ==>
              var old_ := db.incidents[id];
              var new_ := r.db.incidents[id];
              && new_.incidentId == old_.incidentId && new_.createdAt == old_.createdAt
              && new_.title == fields.title && new_.description == fields.description
              && new_.priority == fields.priority && new_.status == fields.status
              && new_.deviceId == fields.deviceId && new_.assignedTo == fields.assignedTo
              && new_.updatedAt == Some(now)
              && (new_.resolvedAt != old_.resolvedAt ==> fields.status == Resolved && old_.status != Resolved)
              && (fields.status == Resolved && old_.status != Resolved ==> new_.resolvedAt == Some(now))
  {
    if fault then Err(db)
    else if id !in db.incidents then Ok(db, ())
    else
      var row := db.incidents[id];
      var resolvedAt := if fields.status == Resolved && row.status != Resolved then Some(now) else row.resolvedAt;
      var updated := row.(title := fields.title, description := fields.description, priority := fields.priority,
                          status := fields.status, deviceId := fields.deviceId, assignedTo := fields.assignedTo,
                          updatedAt := Some(now), resolvedAt := resolvedAt);
      Ok(db.(incidents := db.incidents[id := updated]), ())
  }

  /** Submitting Resolved twice keeps the time of the first resolution. */
  lemma ResolveTwiceKeepsFirstTime(db: Db, id: Id, fields: IncidentFields, t1: Time, t2: Time)
    requires id in db.incidents && db.incidents[id].status != Resolved
    requires fields.status == Resolved
    ensures var d1 := UpdateIncident(db, id, fields, t1, false).db;
            var d2 := UpdateIncident(d1, id, fields, t2, false).db;
            d1.incidents[id].resolvedAt == Some(t1) && d2.incidents[id].resolvedAt == Some(t1)
  {
  }

  /** An update keeps the store valid: a resolved incident always carries a resolution time, and it is never cleared. */
  lemma UpdatePreservesValid(db: Db, id: Id, fields: IncidentFields, now: Time, fault: bool)
    requires Valid(db)
    ensures var r := UpdateIncident(db, id, fields, now, fault);
            && Valid(r.db)
            && (id in db.incidents && db.incidents[id].resolvedAt.Some? ==> r.db.incidents[id].resolvedAt.Some?)
  {
  }

  /**
    The rule compares against the stored status only: an incident resolved,
    reopened and resolved again gets a new resolution time.
   */
  lemma ReopenThenResolveRefreshes(db: Db, id: Id, reopen: IncidentFields, resolve: IncidentFields, t1: Time, t2: Time, t3: Time)
    requires id in db.incidents && db.incidents[id].status != Resolved
    requires reopen.status == Open && resolve.status == Resolved
    ensures var d1 := UpdateIncident(db, id, resolve, t1, false).db;
            var d2 := UpdateIncident(d1, id, reopen, t2, false).db;
            var d3 := UpdateIncident(d2, id, resolve, t3, false).db;
            d2.incidents[id].resolvedAt == Some(t1) && d3.incidents[id].resolvedAt == Some(t3)
  {
  }

  /** `POST /incidents/:id/comments`: inserts one comment with the next id; the incident row is not read or written. */
  function AddComment(db: Db, incidentId: Id, text: string, author: string, now: Time, fault: bool): (r: Outcome<Id>)
    ensures r.Err? <==> fault
    ensures r.Err? ==> r.db == db
    ensures r.Ok? ==> && r.value == db.nextCommentId
                      && r.db.comments == db.comments + [Comment(r.value, incidentId, text, author, now)]
                      && r.db == db.(comments := r.db.comments, nextCommentId := db.nextCommentId + 1)
  {
    if fault then Err(db)
    else
      var c := Comment(db.nextCommentId, incidentId, text, author, now);
      Ok(db.(comments := db.comments + [c], nextCommentId := db.nextCommentId + 1), c.commentId)
  }

  /** Appending a comment keeps the store valid. */
  lemma AddCommentPreservesValid(db: Db, incidentId: Id, text: string, author: string, now: Time, fault: bool)
    requires Valid(db)
    ensures Valid(AddComment(db, incidentId, text, author, now, fault).db)
  {
  }

  predicate SortedByTime(cs: seq<Comment>) {
    forall i, j :: 0 <= i < j < |cs| ==> cs[i].createdAt <= cs[j].createdAt
  }

  /** Inserts c after every comment not later than it. */
  function InsertByTime(c: Comment, cs: seq<Comment>): (r: seq<Comment>)
    requires SortedByTime(cs)
    ensures SortedByTime(r)
    ensures forall k :: 0 <= k < |r| ==> r[k] == c || r[k] in cs
    ensures |r| == |cs| + 1
  {
    if |cs| == 0 then [c]
    else if c.createdAt < cs[0].createdAt then
      ConsSorted(c, cs);
      [c] + cs
    else
      var tail := InsertByTime(c, cs[1..]);
      assert cs == [cs[0]] + cs[1..];
      assert forall k :: 0 <= k < |tail| ==> cs[0].createdAt <= tail[k].createdAt by {
        forall k | 0 <= k < |tail|
          ensures cs[0].createdAt <= tail[k].createdAt
        {
          if tail[k] != c {
            var j :| 0 <= j < |cs[1..]| && cs[1..][j] == tail[k];
            assert cs[j + 1] == tail[k];
          }
        }
      }
      ConsSorted(cs[0], tail);
      var r := [cs[0]] + tail;
      assert forall k :: 0 < k < |r| ==> r[k] == tail[k - 1];
      r
  }

  /** Insertion adds exactly the one comment. */
  lemma {:induction false} InsertByTimeAddsOne(c: Comment, cs: seq<Comment>)
    requires SortedByTime(cs)
    ensures multiset(InsertByTime(c, cs)) == multiset(cs) + multiset{c}
  {
    if |cs| > 0 && c.createdAt >= cs[0].createdAt {
      InsertByTimeAddsOne(c, cs[1..]);
      assert cs == [cs[0]] + cs[1..];
    }
  }

  /** Putting a comment not later than any of a sorted list in front keeps it sorted. */
  lemma ConsSorted(x: Comment, cs: seq<Comment>)
    requires SortedByTime(cs)
    requires forall k :: 0 <= k < |cs| ==> x.createdAt <= cs[k].createdAt
    ensures SortedByTime([x] + cs)
  {
    var r := [x] + cs;
    forall i, j | 0 <= i < j < |r|
      ensures r[i].createdAt <= r[j].createdAt
    {
      assert r[j] == cs[j - 1];
      if i > 0 {
        assert r[i] == cs[i - 1];
      }
    }
  }

  /** A stable insertion sort on `CreatedAt`: equal times keep insertion order. */
  function SortByTime(cs: seq<Comment>): (r: seq<Comment>)
    ensures SortedByTime(r)
    ensures multiset(r) == multiset(cs)
    ensures |r| == |cs|
  {
    if |cs| == 0 then []
    else
      assert cs == cs[..|cs| - 1] + [cs[|cs| - 1]];
      InsertByTimeAddsOne(cs[|cs| - 1], SortByTime(cs[..|cs| - 1]));
      InsertByTime(cs[|cs| - 1], SortByTime(cs[..|cs| - 1]))
  }

  /** Comments already in time order, as when the clock never goes back, are listed in insertion order. */
  lemma {:induction false} SortKeepsOrderedInput(cs: seq<Comment>)
    requires SortedByTime(cs)
    ensures SortByTime(cs) == cs
  {
    if |cs| > 0 {
      var init := cs[..|cs| - 1];
      assert SortedByTime(init);
      SortKeepsOrderedInput(init);
      InsertAtEnd(cs[|cs| - 1], init);
      assert init + [cs[|cs| - 1]] == cs;
    }
  }

  /** A comment not earlier than every listed one goes to the end. */
  lemma {:induction false} InsertAtEnd(c: Comment, cs: seq<Comment>)
    requires SortedByTime(cs)
    requires forall k :: 0 <= k < |cs| ==> cs[k].createdAt <= c.createdAt
    ensures InsertByTime(c, cs) == cs + [c]
  {
    if |cs| > 0 {
      InsertAtEnd(c, cs[1..]);
      assert [cs[0]] + (cs[1..] + [c]) == cs + [c];
    }
  }

  /** `GET /incidents/:id/comments`: that incident's comments, oldest first. */
  function ListComments(db: Db, incidentId: Id, fault: bool): (r: Lookup<seq<Comment>>)
    ensures r.Failed? <==> fault
    ensures !r.NotFound?
    ensures r.Found? ==> SortedByTime(r.value)
    ensures r.Found? ==> forall c :: c in r.value <==> c in db.comments && c.incidentId == incidentId
    ensures r.Found? ==> forall c :: multiset(r.value)[c] == if c.incidentId == incidentId then multiset(db.comments)[c] else 0
  {
    if fault then Failed
    else
      var mine := Listing.Filter(db.comments, (c: Comment) => c.incidentId == incidentId);
      var r := SortByTime(mine);
      forall c
        ensures c in r <==> c in mine
      {
        calc {
          c in r;
          c in multiset(r);
          c in multiset(mine);
          c in mine;
        }
      }
      Found(r)
  }

  /** A comment added to an incident is listed for it, and only for it. */
  lemma AddedCommentIsListed(db: Db, incidentId: Id, other: Id, text: string, author: string, now: Time)
    requires other != incidentId
    ensures var r := AddComment(db, incidentId, text, author, now, false);
            && Comment(r.value, incidentId, text, author, now) in ListComments(r.db, incidentId, false).value
            && Comment(r.value, incidentId, text, author, now) !in ListComments(r.db, other, false).value
            && ListComments(r.db, other, false) == ListComments(db, other, false)
  {
    var r := AddComment(db, incidentId, text, author, now, false);
    var keep := (c: Comment) => c.incidentId == other;
    FilterAppendSkipped(db.comments, Comment(r.value, incidentId, text, author, now), keep);
  }

  /** Appending an element the filter rejects leaves the filtered list as it was. */
  lemma {:induction false} FilterAppendSkipped(xs: seq<Comment>, x: Comment, keep: Comment -> bool)
    requires !keep(x)
    ensures Listing.Filter(xs + [x], keep) == Listing.Filter(xs, keep)
    decreases |xs|
  {
    if |xs| == 0 {
      assert Listing.Filter([x][1..], keep) == [];
    } else {
      assert (xs + [x])[1..] == xs[1..] + [x];
      FilterAppendSkipped(xs[1..], x, keep);
    }
  }

  /** The `LEFT JOIN Devices` of the detail query: the device's name when the incident has a device that exists. */
  function DeviceNameOf(db: Db, deviceId: Option<Id>): (r: Option<string>)
    ensures r.Some? <==> deviceId.Some? && deviceId.value in db.deviceNames
    ensures r.Some? ==> r.value == db.deviceNames[deviceId.value]
  {
    if deviceId.Some? && deviceId.value in db.deviceNames then Some(db.deviceNames[deviceId.value]) else None
  }

  /** `GET /incidents/:id`: not found for an absent id; otherwise the row with the alerts joined through its link rows. */
  function GetIncident(db: Db, id: Id, fault: bool): (r: Lookup<IncidentView>)
    ensures r.Failed? <==> fault
    ensures r.NotFound? <==> !fault && id !in db.incidents
    ensures r.Found? ==> r.value.incident == db.incidents[id]
    ensures r.Found? ==> r.value.deviceName == DeviceNameOf(db, db.incidents[id].deviceId)
    ensures r.Found? ==> forall k :: k in db.alerts && (id, db.alerts[k].alertId) in db.links ==> db.alerts[k] in r.value.relatedAlerts
    ensures r.Found? ==> forall a :: a in r.value.relatedAlerts ==> a in db.alerts.Values && (id, a.alertId) in db.links
  {
    if fault then Failed
    else if id !in db.incidents then NotFound
    else
      var related := set a | a in db.alerts.Values && (id, a.alertId) in db.links;
      Found(IncidentView(db.incidents[id], DeviceNameOf(db, db.incidents[id].deviceId), related))
  }

  /**
    Reading back a freshly created incident shows it Open, with exactly the
    linked alerts that exist, every one of them In Progress.
   */
  lemma CreatedIncidentShowsItsAlerts(db: Db, draft: IncidentDraft, now: Time, failAt: Option<nat>)
    requires Valid(db)
    requires CreateIncident(db, draft, now, failAt).Ok?
    ensures var r := CreateIncident(db, draft, now, failAt);
            var v := GetIncident(r.db, r.value, false);
            && v.Found?
            && v.value.incident.status == Open
            && (forall a :: a in v.value.relatedAlerts ==> a.alertId in draft.alertIds && a.status == AlertInProgress)
            && (forall k :: k in draft.alertIds && k in db.alerts ==> r.db.alerts[k] in v.value.relatedAlerts)
  {
    var r := CreateIncident(db, draft, now, failAt);
    var id := r.value;
    var d := r.db;
    assert forall k :: k in d.alerts ==> d.alerts[k].alertId == k by {
      forall k | k in d.alerts
        ensures d.alerts[k].alertId == k
      {
        assert d.alerts[k] == db.alerts[k].(status := d.alerts[k].status);
      }
    }
    forall a | a in GetIncident(d, id, false).value.relatedAlerts
      ensures a.alertId in draft.alertIds && a.status == AlertInProgress
    {
      var k :| k in d.alerts && d.alerts[k] == a;
      assert (id, k) in d.links;
      assert (id, k) !in db.links;
      assert (id, k) in LinkSet(id, draft.alertIds);
    }
    forall k | k in draft.alertIds && k in db.alerts
      ensures d.alerts[k] in GetIncident(d, id, false).value.relatedAlerts
    {
      assert (id, k) in LinkSet(id, draft.alertIds);
    }
  }
}
