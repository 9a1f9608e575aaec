/** What the task and project forms share: their two modes and the error map, whose entry
    for a field is cleared when that field is edited. */
module Forms {
  import Strings

  datatype Mode = Create | Edit

  /** `errors[field]` is truthy: the field has a non-empty error text. */
  predicate ErrorShown(errors: map<string, string>, field: string) {
    field in errors && errors[field] != ""
  }

  /** The error update of `handleInputChange`: a shown error of the edited field becomes
      the empty text; every other entry stays. */
  function ClearedError(errors: map<string, string>, field: string): (r: map<string, string>)
    ensures !ErrorShown(r, field)
    ensures r.Keys == errors.Keys
    ensures forall k :: k in r && k != field ==> r[k] == errors[k]
  {
    if ErrorShown(errors, field) then errors[field := ""] else errors
  }

  /** A blank text: what `!text.trim()` tests. */
  predicate Blank(s: string) {
    forall i :: 0 <= i < |s| ==> Strings.IsSpace(s[i])
  }
}
