/** The error messages a form shows, one per field name, and how editing a
    field dismisses its message. A validation pass records a message only for
    the fields that fail; a dismissed message is kept as the empty string. */
module FormErrors {

  type Errors = map<string, string>

  /** A message is showing for the field. */
  predicate Showing(errs: Errors, name: string) {
    name in errs && errs[name] != ""
  }

  /** What editing field `name` does to the messages: a showing message for
      that field is replaced by the empty string; nothing else changes. */
  function Dismiss(errs: Errors, name: string): (r: Errors)
    ensures r.Keys == errs.Keys
    ensures !Showing(r, name)
  {
    if Showing(errs, name) then errs[name := ""] else errs
  }

  /** Editing one field leaves every other field's message alone. */
  lemma DismissOnlyThatField(errs: Errors, name: string, other: string)
    requires other != name
    ensures other in Dismiss(errs, name) <==> other in errs
    ensures other in errs ==> Dismiss(errs, name)[other] == errs[other]
  {
  }

  /** Editing the same field twice dismisses no more than editing it once. */
  lemma DismissIdempotent(errs: Errors, name: string)
    ensures Dismiss(Dismiss(errs, name), name) == Dismiss(errs, name)
  {
  }

  /** The fields with a message showing after an edit are those showing
      before, less the edited one. */
  lemma DismissShowing(errs: Errors, name: string, k: string)
    ensures Showing(Dismiss(errs, name), k) <==> Showing(errs, k) && k != name
  {
  }

  /** Adds the message for a failing field to a validation pass's result. */
  function Flag(errs: Errors, failing: bool, name: string, message: string): (r: Errors)
    ensures name in r <==> failing || name in errs
    ensures forall k :: k != name ==> (k in r <==> k in errs)
    ensures failing ==> r[name] == message
    ensures forall k :: k in errs && k != name ==> r[k] == errs[k]
  {
    if failing then errs[name := message] else errs
  }
}
