/**
  Form validation shared by the client pages. The incident edit dialog, the
  create-incident dialog on an alert and the incident creation form all
  require a title and a description that are not blank once trimmed.
 */
module Forms {
  import opened Text

  datatype FormError = TitleRequired | DescriptionRequired | NameRequired | IpRequired | IpInvalid | LocationRequired

  /** The errors a title/description form reports; the form is accepted when there are none. */
  function TitleDescriptionErrors(title: string, description: string): (r: set<FormError>)
    ensures TitleRequired in r <==> forall i :: 0 <= i < |title| ==> IsJsSpace(title[i])
    ensures DescriptionRequired in r <==> forall i :: 0 <= i < |description| ==> IsJsSpace(description[i])
    ensures r <= {TitleRequired, DescriptionRequired}
  {
    BlankIffAllSpace(title);
    BlankIffAllSpace(description);
    (if IsBlank(title) then {TitleRequired} else {}) + (if IsBlank(description) then {DescriptionRequired} else {})
  }
}
