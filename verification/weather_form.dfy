/** The search form's submit handler: it calls `onSearch` with the raw field
    text when the text is not blank, and then clears the field. */
module WeatherForm {
  import opened Records
  import opened Text

  /** The field's text after a submit and the argument of the `onSearch`
      call made, if any. */
  datatype SubmitResult = SubmitResult(location: string, searched: Option<string>)

  /** `handleSubmit`: `location.trim()` is truthy exactly when it is not the
      empty string. A search happens exactly when the text holds a
      non-whitespace character; it is handed over untrimmed and the field
      is reset. A blank submit changes nothing. */
  function Submit(location: string): (r: SubmitResult)
    ensures r.searched.Some? <==> !AllSpace(JavaScript, location)
    ensures r.searched.Some? ==> r.searched.value == location && r.location == ""
    ensures r.searched.None? ==> r.location == location
  {
    TrimEmptyIff(JavaScript, location);
    if Trim(JavaScript, location) != [] then SubmitResult("", Some(location))
    else SubmitResult(location, None)
  }

  /** Submitting again after a search is a blank submit and does nothing. */
  lemma ResubmitIsInert(location: string)
    ensures Submit(Submit(location).location).searched.None?
  {
    assert AllSpace(JavaScript, "");
    TrimEmptyIff(JavaScript, location);
  }
}
