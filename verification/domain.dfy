/**
  The entities of the NOC application: devices, alerts, incidents and incident
  comments, with the enumerations their status and priority columns take.
  Clock readings (`GETDATE()` on the server, `new Date()` in the browser) are
  abstract natural numbers.
 */
module Domain {

  type Id = nat
  type Time = nat

  datatype Option<T> = None | Some(value: T)

  datatype Severity = Critical | Major | Warning | Minor | Info
  datatype AlertStatus = New | Acknowledged | AlertInProgress | AlertResolved
  datatype Priority = PCritical | High | Medium | Low
  datatype IncidentStatus = Open | InProgress | Resolved | Closed
  datatype DeviceType = Router | Switch | Firewall | Server | Workstation | OtherType
  datatype DeviceStatus = Active | DeviceWarning | DeviceCritical | Maintenance | Offline

  /** The text each enumeration value is stored and displayed as. */
  function SeverityName(s: Severity): string {
    match s
    case Critical => "Critical"
    case Major => "Major"
    case Warning => "Warning"
    case Minor => "Minor"
    case Info => "Info"
  }

  function AlertStatusName(s: AlertStatus): string {
    match s
    case New => "New"
    case Acknowledged => "Acknowledged"
    case AlertInProgress => "In Progress"
    case AlertResolved => "Resolved"
  }

  function PriorityName(p: Priority): string {
    match p
    case PCritical => "Critical"
    case High => "High"
    case Medium => "Medium"
    case Low => "Low"
  }

  function IncidentStatusName(s: IncidentStatus): string {
    match s
    case Open => "Open"
    case InProgress => "In Progress"
    case Resolved => "Resolved"
    case Closed => "Closed"
  }

  function DeviceTypeName(t: DeviceType): string {
    match t
    case Router => "Router"
    case Switch => "Switch"
    case Firewall => "Firewall"
    case Server => "Server"
    case Workstation => "Workstation"
    case OtherType => "Other"
  }

  /** A row of the Alerts table. */
  datatype Alert = Alert(
    alertId: Id,
    deviceId: Id,
    severity: Severity,
    message: string,
    source: string,
    timestamp: Time,
    status: AlertStatus,
    resolutionTimestamp: Option<Time>)

  /** A row of the Incidents table. */
  datatype Incident = Incident(
    incidentId: Id,
    title: string,
    description: string,
    priority: Priority,
    status: IncidentStatus,
    deviceId: Option<Id>,
    assignedTo: Option<string>,
    createdAt: Time,
    updatedAt: Option<Time>,
    resolvedAt: Option<Time>)

  /** A row of the IncidentComments table. */
  datatype Comment = Comment(
    commentId: Id,
    incidentId: Id,
    text: string,
    author: string,
    createdAt: Time)

  /** A row of the Devices table. */
  datatype Device = Device(
    deviceId: Id,
    name: string,
    deviceType: DeviceType,
    ipAddress: string,
    location: string,
    status: DeviceStatus,
    lastUpdated: Time)

  /** An alert as the list and detail endpoints return it, joined with its device's name. */
  datatype AlertRow = AlertRow(alert: Alert, deviceName: string)

  /** An incident as the list endpoint returns it, left-joined with its device's name. */
  datatype IncidentRow = IncidentRow(incident: Incident, deviceName: Option<string>)

  /** An incident that has been resolved carries a resolution time. */
  predicate IncidentCoherent(i: Incident) {
    i.status == Resolved ==> i.resolvedAt.Some?
  }

  /** An alert that has been resolved carries a resolution time. */
  predicate AlertCoherent(a: Alert) {
    a.status == AlertResolved ==> a.resolutionTimestamp.Some?
  }

  /** `value || null` for an optional text field: the empty string becomes null. */
  function OrNull(s: string): (r: Option<string>)
    ensures r.None? <==> s == ""
    ensures r.Some? ==> r.value == s
  {
    if s == "" then None else Some(s)
  }
}
