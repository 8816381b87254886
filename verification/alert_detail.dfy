/**
  The alert detail page's local state transitions: the incident priority it
  proposes from the alert's severity, status updates, creating an incident
  from the alert, and the guards that decide which action buttons are shown.
  `alert` is None until the page has data.
 */
module AlertDetailPage {
  import opened Domain
  import opened Forms

  /** The create-incident dialog's fields. */
  datatype IncidentForm = IncidentForm(title: string, description: string, priority: Priority, assignedTo: string)

  datatype AlertPage = AlertPage(
    alert: Option<Alert>,
    incidentForm: IncidentForm,
    formErrors: set<FormError>,
    incidentDialogOpen: bool)

  /** The incident priority the dialog is prefilled with: Critical and Major alerts map up, every other severity to Medium. */
  function DefaultPriority(s: Severity): (r: Priority)
    ensures s in {Warning, Minor, Info} <==> r == Medium
    ensures r in {PCritical, High, Medium}
  {
    match s
    case Critical => PCritical
    case Major => High
    case Warning | Minor | Info => Medium
  }

  function SeverityRank(s: Severity): nat {
    match s
    case Info => 0
    case Minor => 1
    case Warning => 2
    case Major => 3
    case Critical => 4
  }

  function PriorityRank(p: Priority): nat {
    match p
    case Low => 0
    case Medium => 1
    case High => 2
    case PCritical => 3
  }

  /**
    The proposed priority is Critical exactly for Critical alerts, High exactly
    for Major ones, never Low, and never lower for a more severe alert.
   */
  lemma DefaultPriorityOrdered(s: Severity, t: Severity)
    ensures DefaultPriority(s) == PCritical <==> s == Critical
    ensures DefaultPriority(s) == High <==> s == Major
    ensures DefaultPriority(s) != Low
    ensures SeverityRank(s) <= SeverityRank(t) ==> PriorityRank(DefaultPriority(s)) <= PriorityRank(DefaultPriority(t))
  {
  }

  /** `handleUpdateStatus`: only the status changes, to the value given. */
  function UpdateStatus(p: AlertPage, status: AlertStatus): (r: AlertPage)
    ensures p.alert.None? ==> r == p
    ensures p.alert.Some? ==> r.alert == Some(p.alert.value.(status := status))
    ensures r == p.(alert := r.alert)
  {
    match p.alert
    case None => p
    case Some(a) => p.(alert := Some(a.(status := status)))
  }

  /**
    `handleCreateIncident`: a blank title or description is reported and the
    alert is left alone; otherwise the alert moves to In Progress, nothing else
    about it changes, and the dialog closes.
   */
  function CreateIncident(p: AlertPage): (r: AlertPage)
    ensures r.formErrors == TitleDescriptionErrors(p.incidentForm.title, p.incidentForm.description)
    ensures r.formErrors != {} ==> r == p.(formErrors := r.formErrors)
    ensures r.formErrors == {} ==> && r.alert.Some? == p.alert.Some?
                                   && (p.alert.Some? ==> r.alert.value == p.alert.value.(status := AlertInProgress))
                                   && !r.incidentDialogOpen
    ensures r.incidentForm == p.incidentForm
  {
    var errors := TitleDescriptionErrors(p.incidentForm.title, p.incidentForm.description);
    if errors != {} then p.(formErrors := errors)
    else
      var alert := if p.alert.Some? then Some(p.alert.value.(status := AlertInProgress)) else None;
      p.(formErrors := errors, alert := alert, incidentDialogOpen := false)
  }

  /** The Acknowledge button: shown for a New alert only; with no alert `alert?.Status` is undefined and it is hidden. */
  function CanAcknowledge(alert: Option<Alert>): (r: bool)
    ensures r <==> alert.Some? && alert.value.status !in {Acknowledged, AlertInProgress, AlertResolved}
    ensures r ==> CanCreateIncident(alert)
  {
    alert.Some? && alert.value.status == New
  }

  /** The Create Incident button: shown for a New or Acknowledged alert, never for one In Progress or Resolved. */
  function CanCreateIncident(alert: Option<Alert>): (r: bool)
    ensures r <==> alert.Some? && alert.value.status !in {AlertInProgress, AlertResolved}
    ensures r ==> CanMarkResolved(alert)
  {
    alert.Some? && (alert.value.status == New || alert.value.status == Acknowledged)
  }

  /**
    The Mark as Resolved button's guard: it holds unless the alert is Resolved,
    so for New, Acknowledged and In Progress alerts. Since
    `undefined !== 'Resolved'` it also holds for a missing alert, but the page
    never renders the button then: it shows the spinner while loading and the
    not-found block when there is no alert.
   */
  function CanMarkResolved(alert: Option<Alert>): (r: bool)
    ensures alert.Some? ==> (r <==> alert.value.status in {New, Acknowledged, AlertInProgress})
    ensures alert.None? ==> r
  {
    alert.None? || alert.value.status != AlertResolved
  }

  /**
    Each action removes its own button: after Acknowledge only Create Incident
    and Mark as Resolved remain, after creating an incident only Mark as
    Resolved remains, and after Mark as Resolved none remains.
   */
  lemma ButtonsFollowActions(p: AlertPage)
    requires CanAcknowledge(p.alert)
    requires TitleDescriptionErrors(p.incidentForm.title, p.incidentForm.description) == {}
    ensures var a := UpdateStatus(p, Acknowledged).alert;
            !CanAcknowledge(a) && CanCreateIncident(a) && CanMarkResolved(a)
    ensures var a := CreateIncident(p).alert;
            !CanAcknowledge(a) && !CanCreateIncident(a) && CanMarkResolved(a)
    ensures var a := UpdateStatus(p, AlertResolved).alert;
            !CanAcknowledge(a) && !CanCreateIncident(a) && !CanMarkResolved(a)
  {
  }
}
