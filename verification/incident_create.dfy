/**
  The incident creation form: choosing a device narrows the selected alerts to
  that device, choosing alerts with no device chosen adopts the first alert's
  device, and submission is blocked by a blank title or description.

  Each handler calls `setFormData` more than once from the same render; React
  applies the last call, so the model gives the state after the last call.
 */
module IncidentCreatePage {
  import opened Domain
  import opened Forms
  import Listing

  datatype CreateForm = CreateForm(
    title: string,
    description: string,
    priority: Priority,
    deviceId: Option<Id>,
    assignedTo: string,
    alertIds: seq<Id>)

  datatype CreatePage = CreatePage(
    form: CreateForm,
    devices: seq<Device>,
    alerts: seq<AlertRow>,
    selectedDevice: Option<Device>,
    selectedAlerts: seq<AlertRow>,
    formErrors: set<FormError>,
    submitting: bool)

  /** `alerts.map(alert => alert.AlertID)`. */
  function AlertIds(rows: seq<AlertRow>): (r: seq<Id>)
    ensures |r| == |rows|
    ensures forall i :: 0 <= i < |rows| ==> r[i] == rows[i].alert.alertId
  {
    Listing.Map(rows, (a: AlertRow) => a.alert.alertId)
  }

  function OnDevice(rows: seq<AlertRow>, deviceId: Id): (r: seq<AlertRow>)
    ensures forall a :: a in r <==> a in rows && a.alert.deviceId == deviceId
    ensures forall a :: multiset(r)[a] == if a.alert.deviceId == deviceId then multiset(rows)[a] else 0
    ensures Listing.SubsequenceOf(r, rows)
  {
    Listing.Filter(rows, (a: AlertRow) => a.alert.deviceId == deviceId)
  }

  /** `devices.find(device => device.DeviceID === id)`: the first device with that id. */
  function FindDevice(devices: seq<Device>, id: Id): (r: Option<Device>)
    ensures r.None? <==> forall i :: 0 <= i < |devices| ==> devices[i].deviceId != id
    ensures r.Some? ==> exists i :: 0 <= i < |devices| && devices[i] == r.value
                                    && r.value.deviceId == id
                                    && forall j :: 0 <= j < i ==> devices[j].deviceId != id
  {
    if |devices| == 0 then None
    else if devices[0].deviceId == id then Some(devices[0])
    else
      var r := FindDevice(devices[1..], id);
      if r.Some? then
        var i :| 0 <= i < |devices[1..]| && devices[1..][i] == r.value && r.value.deviceId == id
                 && forall j :: 0 <= j < i ==> devices[1..][j].deviceId != id;
        assert devices[i + 1] == r.value;
        r
      else
        r
  }

  /** `x?.DeviceID || null`: a missing device, or the falsy id 0, gives null. */
  function IdOrNull(d: Option<Device>): (r: Option<Id>)
    ensures r.Some? <==> d.Some? && d.value.deviceId != 0
    ensures r.Some? ==> r.value == d.value.deviceId
  {
    if d.Some? && d.value.deviceId != 0 then Some(d.value.deviceId) else None
  }

  /**
    `handleDeviceChange`: choosing a device keeps only the selected alerts on
    that device, in order, and the form's ids follow; clearing the device sets
    it to null and leaves the alert selection as it was.
   */
  function ChangeDevice(p: CreatePage, d: Option<Device>): (r: CreatePage)
    ensures r.selectedDevice == d
    ensures d.Some? ==> && r.form.deviceId == Some(d.value.deviceId)
                        && (forall a :: a in r.selectedAlerts <==> a in p.selectedAlerts && a.alert.deviceId == d.value.deviceId)
                        && (forall a :: multiset(r.selectedAlerts)[a] == if a.alert.deviceId == d.value.deviceId then multiset(p.selectedAlerts)[a] else 0)
                        && Listing.SubsequenceOf(r.selectedAlerts, p.selectedAlerts)
                        && r.form.alertIds == AlertIds(r.selectedAlerts)
    ensures d.None? ==> r.form.deviceId == None && r.form.alertIds == p.form.alertIds && r.selectedAlerts == p.selectedAlerts
    ensures r.form == p.form.(deviceId := r.form.deviceId, alertIds := r.form.alertIds)
    ensures r == p.(form := r.form, selectedDevice := d, selectedAlerts := r.selectedAlerts)
  {
    match d
    case Some(dev) =>
      var kept := OnDevice(p.selectedAlerts, dev.deviceId);
      p.(selectedDevice := d, selectedAlerts := kept,
         form := p.form.(deviceId := Some(dev.deviceId), alertIds := AlertIds(kept)))
    case None =>
      p.(selectedDevice := None, form := p.form.(deviceId := None))
  }

  /**
    `handleAlertChange`: the selection becomes the given alerts and the form's
    ids their ids, in order. With no device chosen, a non-empty selection
    adopts the device of its first alert when that device is listed.
   */
  function ChangeAlerts(p: CreatePage, chosen: seq<AlertRow>): (r: CreatePage)
    ensures r.selectedAlerts == chosen
    ensures r.form.alertIds == AlertIds(chosen)
    ensures |chosen| > 0 && p.selectedDevice.None? ==>
              && r.selectedDevice == FindDevice(p.devices, chosen[0].alert.deviceId)
              && r.form.deviceId == IdOrNull(r.selectedDevice)
    ensures !(|chosen| > 0 && p.selectedDevice.None?) ==> r.selectedDevice == p.selectedDevice && r.form.deviceId == p.form.deviceId
    ensures r.form == p.form.(deviceId := r.form.deviceId, alertIds := r.form.alertIds)
    ensures r == p.(form := r.form, selectedDevice := r.selectedDevice, selectedAlerts := chosen)
  {
    var ids := AlertIds(chosen);
    if |chosen| > 0 && p.selectedDevice.None? then
      var dev := FindDevice(p.devices, chosen[0].alert.deviceId);
      p.(selectedAlerts := chosen, selectedDevice := dev, form := p.form.(deviceId := IdOrNull(dev), alertIds := ids))
    else
      p.(selectedAlerts := chosen, form := p.form.(alertIds := ids))
  }

  /** `getFilteredAlerts`: the alerts offered for selection. */
  function OfferedAlerts(p: CreatePage): (r: seq<AlertRow>)
    ensures p.selectedDevice.None? ==> r == p.alerts
    ensures p.selectedDevice.Some? ==> forall a :: a in r <==> a in p.alerts && a.alert.deviceId == p.selectedDevice.value.deviceId
    ensures p.selectedDevice.Some? ==> forall a :: multiset(r)[a] == if a.alert.deviceId == p.selectedDevice.value.deviceId then multiset(p.alerts)[a] else 0
    ensures Listing.SubsequenceOf(r, p.alerts)
  {
    if p.selectedDevice.Some? then OnDevice(p.alerts, p.selectedDevice.value.deviceId)
    else
      Listing.FilterKeepsAll(p.alerts, (a: AlertRow) => true);
      p.alerts
  }

  /** `handleSubmit`: a blank title or description blocks submission. */
  function Submit(p: CreatePage): (r: CreatePage)
    ensures r.formErrors == TitleDescriptionErrors(p.form.title, p.form.description)
    ensures r.formErrors == {} ==> r.submitting
    ensures r.formErrors != {} ==> r == p.(formErrors := r.formErrors)
    ensures r == p.(formErrors := r.formErrors, submitting := r.submitting)
  {
    var errors := TitleDescriptionErrors(p.form.title, p.form.description);
    if errors != {} then p.(formErrors := errors) else p.(formErrors := errors, submitting := true)
  }

  /** The form's alert ids are the ids of the selected alerts, in order. */
  predicate SelectionCoherent(p: CreatePage) {
    p.form.alertIds == AlertIds(p.selectedAlerts)
  }

  /** Both selection handlers keep the form's ids in step with the selection. */
  lemma HandlersKeepSelectionCoherent(p: CreatePage, d: Option<Device>, chosen: seq<AlertRow>)
    requires SelectionCoherent(p)
    ensures SelectionCoherent(ChangeDevice(p, d))
    ensures SelectionCoherent(ChangeAlerts(p, chosen))
  {
  }

  /** After a device is chosen, every alert the form would link belongs to it. */
  lemma ChosenDeviceOwnsSelection(p: CreatePage, d: Device)
    ensures var r := ChangeDevice(p, Some(d));
            forall i :: 0 <= i < |r.selectedAlerts| ==> r.selectedAlerts[i].alert.deviceId == d.deviceId && r.form.alertIds[i] == r.selectedAlerts[i].alert.alertId
  {
    var r := ChangeDevice(p, Some(d));
    assert forall i :: 0 <= i < |r.selectedAlerts| ==> r.selectedAlerts[i] in r.selectedAlerts;
  }

  /** Choosing alerts from one device with none chosen, the page adopts that device when it is listed under a non-zero id. */
  lemma AlertChoiceAdoptsDevice(p: CreatePage, chosen: seq<AlertRow>, d: Device)
    requires p.selectedDevice.None? && |chosen| > 0
    requires d in p.devices && d.deviceId == chosen[0].alert.deviceId && d.deviceId != 0
    ensures ChangeAlerts(p, chosen).form.deviceId == Some(d.deviceId)
  {
    var i :| 0 <= i < |p.devices| && p.devices[i] == d;
  }
}
