/**
  How the client pages' local updates line up with what the server routes
  would store for the same request. The pages update local state only; these
  lemmas compare that state with the server's row after the request the page
  describes in its comments.
 */
module ClientServer {
  import opened Domain
  import opened Store
  import opened Forms
  import IncidentRoutes
  import IncidentDetailPage
  import AlertDetailPage
  import AlertListPage
  import AlertRoutes

  /** The page shows exactly the row the store holds for its route id. */
  predicate InSync(db: Db, p: IncidentDetailPage.IncidentPage) {
    p.incident.Some? && p.routeId in db.incidents && db.incidents[p.routeId] == p.incident.value
  }

  /**
    The `PUT` body the edit dialog sends: title, description, priority, status
    and assignee. It carries no `deviceId`, which the route therefore binds as NULL.
   */
  function EditFields(f: IncidentDetailPage.EditForm): IncidentRoutes.IncidentFields {
    IncidentRoutes.IncidentFields(f.title, f.description, f.priority, f.status, None, OrNull(f.assignedTo))
  }

  /** The `PUT` body that changes only the status of incident `i`. */
  function StatusFields(i: Incident, status: IncidentStatus): IncidentRoutes.IncidentFields {
    IncidentRoutes.IncidentFields(i.title, i.description, i.priority, status, i.deviceId, i.assignedTo)
  }

  /** For an incident without a device, an accepted edit leaves the page showing what the server stores. */
  lemma EditMatchesServer(db: Db, p: IncidentDetailPage.IncidentPage, now: Time)
    requires InSync(db, p) && p.incident.value.deviceId.None?
    requires TitleDescriptionErrors(p.editForm.title, p.editForm.description) == {}
    ensures var s := IncidentRoutes.UpdateIncident(db, p.routeId, EditFields(p.editForm), now, false);
            InSync(s.db, IncidentDetailPage.UpdateIncident(p, now))
  {
  }

  /**
    For an incident with a device, the edit request drops it: the server
    stores no device while the page keeps the old one, so the two disagree.
   */
  lemma EditDropsDevice(db: Db, p: IncidentDetailPage.IncidentPage, now: Time)
    requires InSync(db, p) && p.incident.value.deviceId.Some?
    requires TitleDescriptionErrors(p.editForm.title, p.editForm.description) == {}
    ensures var s := IncidentRoutes.UpdateIncident(db, p.routeId, EditFields(p.editForm), now, false);
            && s.db.incidents[p.routeId].deviceId == None
            && IncidentDetailPage.UpdateIncident(p, now).incident.value.deviceId == p.incident.value.deviceId
            && !InSync(s.db, IncidentDetailPage.UpdateIncident(p, now))
  {
  }

  /** Where the Resolve button is shown, the page's resolution agrees with the server's. */
  lemma ResolveMatchesServerWhenOffered(db: Db, p: IncidentDetailPage.IncidentPage, now: Time)
    requires InSync(db, p) && IncidentDetailPage.CanResolve(p.incident)
    ensures var s := IncidentRoutes.UpdateIncident(db, p.routeId, StatusFields(p.incident.value, Resolved), now, false);
            InSync(s.db, IncidentDetailPage.Resolve(p, now))
  {
  }

  /**
    Closing an incident that was never resolved: the page invents a resolution
    time, the server keeps none, so the two no longer agree.
   */
  lemma CloseDivergesFromServer(db: Db, p: IncidentDetailPage.IncidentPage, now: Time)
    requires InSync(db, p) && p.incident.value.resolvedAt.None?
    ensures var s := IncidentRoutes.UpdateIncident(db, p.routeId, StatusFields(p.incident.value, Closed), now, false);
            && s.db.incidents[p.routeId].resolvedAt == None
            && IncidentDetailPage.Close(p, now).incident.value.resolvedAt == Some(now)
            && !InSync(s.db, IncidentDetailPage.Close(p, now))
  {
  }

  /** Every listed alert is the stored row for its id. */
  predicate ListInSync(db: Db, l: AlertListPage.AlertList) {
    forall i :: 0 <= i < |l.alerts| ==>
      l.alerts[i].alert.alertId in db.alerts && db.alerts[l.alerts[i].alert.alertId] == l.alerts[i].alert
  }

  /** Acknowledging in the list agrees with `PUT /alerts/:id/status` to Acknowledged. */
  lemma AcknowledgeMatchesServer(db: Db, l: AlertListPage.AlertList, id: Id, now: Time)
    requires ListInSync(db, l)
    ensures ListInSync(AlertRoutesAcknowledge(db, id, now), AlertListPage.Acknowledge(l, id))
  {
  }

  function AlertRoutesAcknowledge(db: Db, id: Id, now: Time): Db {
    AlertRoutes.UpdateAlertStatus(db, id, Acknowledged, now, false).db
  }

  /**
    Creating an incident from an alert: when the server's transaction commits
    with that alert as the only link, the stored alert is what the page shows.
   */
  lemma AlertIncidentMatchesServer(db: Db, p: AlertDetailPage.AlertPage, draft: IncidentRoutes.IncidentDraft, now: Time)
    requires p.alert.Some? && p.alert.value.alertId in db.alerts && db.alerts[p.alert.value.alertId] == p.alert.value
    requires draft.alertIds == [p.alert.value.alertId]
    requires TitleDescriptionErrors(p.incidentForm.title, p.incidentForm.description) == {}
    requires IncidentRoutes.CreateIncident(db, draft, now, None).Ok?
    ensures IncidentRoutes.CreateIncident(db, draft, now, None).db.alerts[p.alert.value.alertId]
              == AlertDetailPage.CreateIncident(p).alert.value
  {
  }
}
