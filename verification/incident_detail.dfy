/**
  The incident detail page's local state transitions: the edit dialog's
  update (with the same first-resolution rule as the server), the Resolve and
  Close buttons (with rules of their own), comment entry, and the guards that
  decide which buttons are shown. `incident` is None until the page has data.
 */
module IncidentDetailPage {
  import opened Domain
  import opened Text
  import opened Forms

  /** The edit dialog's fields. */
  datatype EditForm = EditForm(
    title: string,
    description: string,
    priority: Priority,
    status: IncidentStatus,
    assignedTo: string)

  datatype IncidentPage = IncidentPage(
    routeId: Id,                     // the `:id` of the page's route
    incident: Option<Incident>,
    comments: seq<Comment>,
    newComment: string,
    editForm: EditForm,
    formErrors: set<FormError>,
    editDialogOpen: bool)

  /** The author the page stamps on new comments. */
  const CurrentUser: string := "Current User"

  /** The incident the edit dialog produces from an incident and the form. */
  function Edited(i: Incident, f: EditForm, now: Time): (r: Incident)
    ensures r.title == f.title && r.description == f.description && r.priority == f.priority && r.status == f.status
    ensures r.assignedTo == OrNull(f.assignedTo) && r.updatedAt == Some(now)
    ensures r.incidentId == i.incidentId && r.deviceId == i.deviceId && r.createdAt == i.createdAt
    ensures r.resolvedAt != i.resolvedAt ==> f.status == Resolved && i.status != Resolved
    ensures f.status == Resolved && i.status != Resolved ==> r.resolvedAt == Some(now)
  {
    var wasResolved := i.status == Resolved;
    var isNowResolved := f.status == Resolved;
    i.(title := f.title, description := f.description, priority := f.priority, status := f.status,
       assignedTo := OrNull(f.assignedTo), updatedAt := Some(now),
       resolvedAt := if isNowResolved && !wasResolved then Some(now) else i.resolvedAt)
  }

  /**
    `handleUpdateIncident`: a blank title or description is reported and nothing
    else changes; otherwise the incident is edited and the dialog closes.
   */
  function UpdateIncident(p: IncidentPage, now: Time): (r: IncidentPage)
    ensures r.formErrors == TitleDescriptionErrors(p.editForm.title, p.editForm.description)
    ensures r.formErrors != {} ==> r == p.(formErrors := r.formErrors)
    ensures r.formErrors == {} ==> && r.incident.Some? == p.incident.Some?
                                   && (p.incident.Some? ==> r.incident.value == Edited(p.incident.value, p.editForm, now))
                                   && !r.editDialogOpen
    ensures r == p.(formErrors := r.formErrors, incident := r.incident, editDialogOpen := r.editDialogOpen)
  {
    var errors := TitleDescriptionErrors(p.editForm.title, p.editForm.description);
    if errors != {} then p.(formErrors := errors)
    else
      var incident := if p.incident.Some? then Some(Edited(p.incident.value, p.editForm, now)) else None;
      p.(formErrors := errors, incident := incident, editDialogOpen := false)
  }

  /** `handleResolveIncident`: Resolved, stamped `now` both as update and as resolution time. */
  function Resolve(p: IncidentPage, now: Time): (r: IncidentPage)
    ensures p.incident.None? ==> r == p
    ensures p.incident.Some? ==> && r.incident.Some?
                                 && r.incident.value == p.incident.value.(status := Resolved, updatedAt := Some(now), resolvedAt := Some(now))
                                 && r.editForm == p.editForm.(status := Resolved)
    ensures r == p.(incident := r.incident, editForm := r.editForm)
  {
    match p.incident
    case None => p
    case Some(i) =>
      p.(incident := Some(i.(status := Resolved, updatedAt := Some(now), resolvedAt := Some(now))),
         editForm := p.editForm.(status := Resolved))
  }

  /** `handleCloseIncident`: Closed, keeping a resolution time it has or taking `now`, so it always has one. */
  function Close(p: IncidentPage, now: Time): (r: IncidentPage)
    ensures p.incident.None? ==> r == p
    ensures p.incident.Some? ==> && r.incident.Some?
                                 && r.incident.value.status == Closed
                                 && r.incident.value.resolvedAt.Some?
                                 && (p.incident.value.resolvedAt.Some? ==> r.incident.value.resolvedAt == p.incident.value.resolvedAt)
                                 && (p.incident.value.resolvedAt.None? ==> r.incident.value.resolvedAt == Some(now))
                                 && r.incident.value == p.incident.value.(status := Closed, updatedAt := Some(now),
                                                                          resolvedAt := r.incident.value.resolvedAt)
                                 && r.editForm == p.editForm.(status := Closed)
    ensures r == p.(incident := r.incident, editForm := r.editForm)
  {
    match p.incident
    case None => p
    case Some(i) =>
      var resolvedAt := if i.resolvedAt.Some? then i.resolvedAt else Some(now);
      p.(incident := Some(i.(status := Closed, updatedAt := Some(now), resolvedAt := resolvedAt)),
         editForm := p.editForm.(status := Closed))
  }

  /**
    `handleAddComment`: a blank entry does nothing; otherwise one comment is
    appended with id `length + 1` and the entry is cleared.
   */
  function AddComment(p: IncidentPage, now: Time): (r: IncidentPage)
    ensures (forall i :: 0 <= i < |p.newComment| ==> IsJsSpace(p.newComment[i])) ==> r == p
    ensures !(forall i :: 0 <= i < |p.newComment| ==> IsJsSpace(p.newComment[i])) ==>
              && r.comments == p.comments + [Comment(|p.comments| + 1, p.routeId, p.newComment, CurrentUser, now)]
              && r.newComment == ""
              && r == p.(comments := r.comments, newComment := "")
  {
    BlankIffAllSpace(p.newComment);
    if IsBlank(p.newComment) then p
    else
      var c := Comment(|p.comments| + 1, p.routeId, p.newComment, CurrentUser, now);
      p.(comments := p.comments + [c], newComment := "")
  }

  /** The comment ids run 1, 2, 3, ... in list order. */
  predicate NumberedInOrder(cs: seq<Comment>) {
    forall i :: 0 <= i < |cs| ==> cs[i].commentId == i + 1
  }

  /** Comment entry keeps the ids numbered in order, so they stay distinct. */
  lemma AddCommentKeepsNumbering(p: IncidentPage, now: Time)
    requires NumberedInOrder(p.comments)
    ensures NumberedInOrder(AddComment(p, now).comments)
    ensures forall i, j :: 0 <= i < j < |AddComment(p, now).comments| ==>
              AddComment(p, now).comments[i].commentId != AddComment(p, now).comments[j].commentId
  {
  }

  /**
    The Resolve button's guard: it holds unless the incident is Resolved or
    Closed, so for an Open or In Progress incident. Wherever it holds, Close's
    guard holds too. The expression also holds for a missing incident, but the
    page never renders the button then: it shows the spinner while loading and
    the not-found block when there is no incident.
   */
  function CanResolve(incident: Option<Incident>): (r: bool)
    ensures incident.Some? ==> (r <==> incident.value.status in {Open, InProgress})
    ensures incident.None? ==> r
    ensures r ==> CanClose(incident)
  {
    incident.None? || (incident.value.status != Resolved && incident.value.status != Closed)
  }

  /**
    The Close button's guard: it holds unless the incident is Closed, so for
    every other status. Like Resolve's, it also holds for a missing incident,
    a value the page never renders the button with.
   */
  function CanClose(incident: Option<Incident>): (r: bool)
    ensures incident.Some? ==> (r <==> incident.value.status in {Open, InProgress, Resolved})
    ensures incident.None? ==> r
  {
    incident.None? || incident.value.status != Closed
  }

  /** After Resolve only Close is offered; after Close neither is. */
  lemma ButtonsFollowActions(p: IncidentPage, now: Time)
    requires p.incident.Some?
    ensures !CanResolve(Resolve(p, now).incident) && CanClose(Resolve(p, now).incident)
    ensures !CanResolve(Close(p, now).incident) && !CanClose(Close(p, now).incident)
  {
  }

  /** Every local action keeps a resolved incident carrying its resolution time. */
  lemma ActionsKeepCoherent(p: IncidentPage, now: Time)
    requires p.incident.Some? && IncidentCoherent(p.incident.value)
    ensures IncidentCoherent(UpdateIncident(p, now).incident.value)
    ensures IncidentCoherent(Resolve(p, now).incident.value)
    ensures IncidentCoherent(Close(p, now).incident.value)
  {
  }

  /** Resubmitting the edit form with Resolved keeps the first resolution time. */
  lemma EditResolveTwiceKeepsFirstTime(p: IncidentPage, t1: Time, t2: Time)
    requires p.incident.Some? && p.incident.value.status != Resolved
    requires p.editForm.status == Resolved
    requires TitleDescriptionErrors(p.editForm.title, p.editForm.description) == {}
    ensures var p1 := UpdateIncident(p, t1);
            var p2 := UpdateIncident(p1, t2);
            p1.incident.value.resolvedAt == Some(t1) && p2.incident.value.resolvedAt == Some(t1)
  {
  }

  /** The Resolve button, unlike the edit dialog, overwrites an earlier resolution time. */
  lemma ResolveButtonOverwrites(p: IncidentPage, t0: Time, now: Time)
    requires p.incident.Some? && p.incident.value.resolvedAt == Some(t0) && t0 != now
    ensures Resolve(p, now).incident.value.resolvedAt == Some(now) != p.incident.value.resolvedAt
  {
  }
}
