/**
  The `/alerts` routes of the API server: create (status New), status update
  whose `ResolutionTimestamp` is refreshed on every Resolved submission, the
  detail read, and delete. `fault` says that the route's one statement raises.
 */
module AlertRoutes {
  import opened Domain
  import opened Store

  /** What `GET /alerts/:id` returns: the row with its device's name. */
  datatype AlertView = AlertView(alert: Alert, deviceName: string)

  /** `POST /alerts`: inserts an alert stamped `now` with status New and no resolution time. */
  function CreateAlert(db: Db, deviceId: Id, severity: Severity, message: string, source: string, now: Time, fault: bool): (r: Outcome<Id>)
    ensures r.Err? <==> fault
    ensures r.Err? ==> r.db == db
    ensures r.Ok? ==> && r.value == db.nextAlertId
                      && r.db.alerts == db.alerts[r.value := Alert(r.value, deviceId, severity, message, source, now, New, None)]
                      && r.db == db.(alerts := r.db.alerts, nextAlertId := db.nextAlertId + 1)
  {
    if fault then Err(db)
    else
      var id := db.nextAlertId;
      Ok(db.(alerts := db.alerts[id := Alert(id, deviceId, severity, message, source, now, New, None)],
             nextAlertId := id + 1), id)
  }

  /**
    `PUT /alerts/:id/status`: sets the status to exactly the value given, and
    `ResolutionTimestamp` to `now` whenever that value is Resolved, whatever the
    prior status; otherwise the timestamp is kept. Other alerts are untouched.
   */
  function UpdateAlertStatus(db: Db, id: Id, status: AlertStatus, now: Time, fault: bool): (r: Outcome<()>)
    ensures r.Err? <==> fault
    ensures r.Err? ==> r.db == db
    ensures r.Ok? ==> r.db == db.(alerts := r.db.alerts)
    ensures r.Ok? ==> r.db.alerts.Keys == db.alerts.Keys
    ensures r.Ok? ==> forall k :: k in db.alerts && k != id ==> r.db.alerts[k] == db.alerts[k]
    ensures r.Ok? && id in db.alerts ==>
              && r.db.alerts[id].status == status
              && r.db.alerts[id] == db.alerts[id].(status := status, resolutionTimestamp := r.db.alerts[id].resolutionTimestamp)
              && (status == AlertResolved ==> r.db.alerts[id].resolutionTimestamp == Some(now))
              && (status != AlertResolved ==> r.db.alerts[id].resolutionTimestamp == db.alerts[id].resolutionTimestamp)
  {
    if fault then Err(db)
    else if id !in db.alerts then Ok(db, ())
    else
      var row := db.alerts[id];
      var stamp := if status == AlertResolved then Some(now) else row.resolutionTimestamp;
      Ok(db.(alerts := db.alerts[id := row.(status := status, resolutionTimestamp := stamp)]), ())
  }

  /**
    Unlike an incident's `ResolvedAt`, an alert's resolution time moves forward
    with each Resolved submission.
   */
  lemma ResolveTwiceRefreshes(db: Db, id: Id, t1: Time, t2: Time)
    requires id in db.alerts && t1 < t2
    ensures var d1 := UpdateAlertStatus(db, id, AlertResolved, t1, false).db;
            var d2 := UpdateAlertStatus(d1, id, AlertResolved, t2, false).db;
            && d1.alerts[id].resolutionTimestamp == Some(t1)
            && d2.alerts[id].resolutionTimestamp == Some(t2)
            && d1.alerts[id].resolutionTimestamp.value < d2.alerts[id].resolutionTimestamp.value
  {
  }

  /** `GET /alerts/:id`: the query joins Devices, so an alert whose device is gone reads as not found too. */
  function GetAlert(db: Db, id: Id, fault: bool): (r: Lookup<AlertView>)
    ensures r.Failed? <==> fault
    ensures r.NotFound? <==> !fault && (id !in db.alerts || db.alerts[id].deviceId !in db.deviceNames)
    ensures r.Found? ==> r.value.alert == db.alerts[id] && r.value.deviceName == db.deviceNames[db.alerts[id].deviceId]
  {
    if fault then Failed
    else if id in db.alerts && db.alerts[id].deviceId in db.deviceNames
    then Found(AlertView(db.alerts[id], db.deviceNames[db.alerts[id].deviceId]))
    else NotFound
  }

  /** `DELETE /alerts/:id`: removes that one alert; link rows that name it are left as they are. */
  function DeleteAlert(db: Db, id: Id, fault: bool): (r: Outcome<()>)
    ensures r.Err? <==> fault
    ensures r.Err? ==> r.db == db
    ensures r.Ok? ==> r.db.alerts.Keys == db.alerts.Keys - {id}
    ensures r.Ok? ==> forall k :: k in r.db.alerts ==> r.db.alerts[k] == db.alerts[k]
    ensures r.Ok? ==> r.db == db.(alerts := r.db.alerts)
  {
    if fault then Err(db) else Ok(db.(alerts := db.alerts - {id}), ())
  }

  /** A created alert reads back as New with no resolution time, when its device exists. */
  lemma CreatedAlertReadsBack(db: Db, deviceId: Id, severity: Severity, message: string, source: string, now: Time)
    requires deviceId in db.deviceNames
    ensures var r := CreateAlert(db, deviceId, severity, message, source, now, false);
            var v := GetAlert(r.db, r.value, false);
            v.Found? && v.value.alert.status == New && v.value.alert.timestamp == now && v.value.alert.resolutionTimestamp == None
  {
  }

  /** After a delete the alert reads as not found. */
  lemma DeletedAlertIsGone(db: Db, id: Id)
    ensures GetAlert(DeleteAlert(db, id, false).db, id, false).NotFound?
  {
  }

  /** Every alert route keeps the store valid; in particular a resolved alert always carries a resolution time. */
  lemma AlertRoutesPreserveValid(db: Db, id: Id, deviceId: Id, severity: Severity, message: string, source: string,
                                 status: AlertStatus, now: Time, fault: bool)
    requires Valid(db)
    ensures Valid(CreateAlert(db, deviceId, severity, message, source, now, fault).db)
    ensures Valid(UpdateAlertStatus(db, id, status, now, fault).db)
    ensures Valid(DeleteAlert(db, id, fault).db)
  {
  }
}
