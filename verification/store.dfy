/**
  The relational store behind the API routes, as immutable maps. Each identity
  column is a counter that hands out the next id; a route's result is either
  the store it commits together with the value it returns, or, when the
  database raises, the store it started from.
 */
module Store {
  import opened Domain

  datatype Db = Db(
    deviceNames: map<Id, string>,     // Devices.Name, for the joins
    alerts: map<Id, Alert>,
    incidents: map<Id, Incident>,
    links: set<(Id, Id)>,             // IncidentAlerts rows (IncidentID, AlertID)
    comments: seq<Comment>,           // IncidentComments rows, in insertion order
    nextAlertId: Id,
    nextIncidentId: Id,
    nextCommentId: Id)

  datatype Outcome<T> = Ok(db: Db, value: T) | Err(db: Db)

  /**
    What a read route answers: the rows it found, 404 for an absent row, or 500
    when the query raises. A read never changes the store.
   */
  datatype Lookup<T> = Found(value: T) | NotFound | Failed

  /** Keys agree with the ids in the rows, identities are below their counters, and resolved rows carry their times. */
  ghost predicate Valid(db: Db) {
    && (forall k :: k in db.alerts ==> db.alerts[k].alertId == k && k < db.nextAlertId && AlertCoherent(db.alerts[k]))
    && (forall k :: k in db.incidents ==> db.incidents[k].incidentId == k && k < db.nextIncidentId && IncidentCoherent(db.incidents[k]))
    && (forall l :: l in db.links ==> l.0 < db.nextIncidentId)
    && (forall i :: 0 <= i < |db.comments| ==> db.comments[i].commentId < db.nextCommentId)
    && (forall i, j :: 0 <= i < j < |db.comments| ==> db.comments[i].commentId < db.comments[j].commentId)
  }
}
