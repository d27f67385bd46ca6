/**
 * The change-of-email form of the profile page (`components/profile/Email.tsx`):
 * the button gate, the rule that the new address must differ from the current
 * one, the error reset on typing and the validation gate in front of the
 * update request.
 */
module Email {
  import opened Wrappers

  /** What was typed as the new address, and the error shown under it (`""` for none). */
  datatype EmailForm = EmailForm(newEmail: string, error: string)

  /** The form after a click on the button, and the address sent, if any. */
  datatype Submitted = Submitted(form: EmailForm, request: Option<string>)

  const Initial := EmailForm("", "")

  /** The schema's message for an unchanged address. */
  const SameAsCurrent := "新しいメールアドレスは現在のメールアドレスと異なるものにしてください"

  /** `isDisabled`: the button is off while the new address is empty. */
  function IsDisabled(form: EmailForm): (r: bool)
    ensures r <==> form.newEmail == []
  {
    |form.newEmail| == 0
  }

  /** The schema with its refinement: the only issue is an address equal to the current one. */
  function Validate(newEmail: string, current: string): (r: Option<string>)
    ensures r.Some? <==> newEmail == current
    ensures r.Some? ==> r.value == SameAsCurrent
  {
    if newEmail == current then Some(SameAsCurrent) else None
  }

  /** `handleInputChange`: the typed value replaces the address and the error is cleared. */
  function ChangeInput(form: EmailForm, value: string): (r: EmailForm)
    ensures r.newEmail == value && r.error == ""
  {
    EmailForm(value, "")
  }

  /** `update`: an unchanged address shows the error and sends nothing; any other is sent as typed. */
  function Update(form: EmailForm, current: string): (r: Submitted)
    ensures r.request.None? <==> form.newEmail == current
    ensures r.request.None? ==> r.form == form.(error := SameAsCurrent)
    ensures r.request.Some? ==> r.request.value == form.newEmail && r.form == form
  {
    match Validate(form.newEmail, current)
    case Some(msg) => Submitted(form.(error := msg), None)
    case None => Submitted(form, Some(form.newEmail))
  }

  /** Through the enabled button, only a non-empty address different from the current one is ever sent. */
  lemma SentAddressIsNew(form: EmailForm, current: string)
    requires !IsDisabled(form)
    requires Update(form, current).request.Some?
    ensures Update(form, current).request.value != current
    ensures Update(form, current).request.value != []
  {
  }

  /** After a rejected update, typing a different address clears the error, and the next update sends it. */
  lemma RetryAfterRejection(form: EmailForm, current: string, value: string)
    requires Update(form, current).request.None?
    requires value != current
    ensures ChangeInput(Update(form, current).form, value).error == ""
    ensures Update(ChangeInput(Update(form, current).form, value), current).request == Some(value)
  {
  }

  /** Clicking again without typing is rejected again with the same message. */
  lemma RejectionRepeats(form: EmailForm, current: string)
    requires Update(form, current).request.None?
    ensures Update(Update(form, current).form, current) == Update(form, current)
  {
  }
}
