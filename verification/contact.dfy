/** The contact form: its four fields, the on-submit validator with its
    per-field messages, the submit-button readiness check, clearing a field's
    message on edit, and the submission state machine around the e-mail relay. */
module Contact {
  import opened Text
  import opened EmailShape

  datatype FormData = FormData(fromName: string, replyTo: string, subject: string, message: string)

  const EmptyForm: FormData := FormData("", "", "", "")

  /** Per-field messages; "" means no message. The subject has none. */
  datatype FormErrors = FormErrors(fromName: string, replyTo: string, message: string)

  const NoErrors: FormErrors := FormErrors("", "", "")

  const NameRequired: string := "Full name is required"
  const EmailRequired: string := "Email address is required"
  const EmailInvalid: string := "Please enter a valid email address"
  const MessageRequired: string := "Message is required"
  const SendFailed: string := "Failed to send message. Please try again later."

  /** `!value.trim()`: the trimmed value is the empty, falsy string. */
  predicate Blank(s: string) {
    Trim(s) == []
  }

  lemma BlankIffAllSpace(s: string)
    ensures Blank(s) <==> AllSpace(s)
  {
    TrimEmptyIffAllSpace(s);
  }

  /** The validator's verdict together with the messages it sets. */
  datatype Validation = Validation(valid: bool, errors: FormErrors)

  function NameError(name: string): string {
    if Blank(name) then NameRequired else ""
  }

  /** The "required" message takes priority over the "invalid" one. */
  function EmailError(email: string): string {
    if Blank(email) then EmailRequired
    else if !ValidateEmail(email) then EmailInvalid
    else ""
  }

  function MessageError(message: string): string {
    if Blank(message) then MessageRequired else ""
  }

  /** `validateForm`: each required field is checked on its own, so several
      messages can be set by one call; the subject is never checked. */
  function ValidateForm(d: FormData): (v: Validation)
    ensures v.valid <==> v.errors == NoErrors
    ensures v.valid <==> !AllSpace(d.fromName) && Shaped(d.replyTo) && !AllSpace(d.message)
    ensures v.errors.fromName != "" <==> AllSpace(d.fromName)
    ensures v.errors.fromName in {"", NameRequired}
    ensures v.errors.replyTo == EmailRequired <==> AllSpace(d.replyTo)
    ensures v.errors.replyTo == EmailInvalid <==> !AllSpace(d.replyTo) && !Shaped(d.replyTo)
    ensures v.errors.replyTo in {"", EmailRequired, EmailInvalid}
    ensures v.errors.message != "" <==> AllSpace(d.message)
    ensures v.errors.message in {"", MessageRequired}
  {
    BlankIffAllSpace(d.fromName);
    BlankIffAllSpace(d.replyTo);
    BlankIffAllSpace(d.message);
    assert Shaped(d.replyTo) ==> !AllSpace(d.replyTo) by {
      if Shaped(d.replyTo) {
        ValidNotBlank(d.replyTo);
      }
    }
    var errors := FormErrors(NameError(d.fromName), EmailError(d.replyTo), MessageError(d.message));
    Validation(errors == NoErrors, errors)
  }

  /** The subject plays no part in validation. */
  lemma SubjectNeverValidated(d: FormData, subject: string)
    ensures ValidateForm(d.(subject := subject)) == ValidateForm(d)
  {
  }

  /** `isFormValid`, which enables the submit button: a non-blank name, an
      address of the right shape and a non-blank message. */
  predicate IsFormValid(d: FormData) {
    !Blank(d.fromName) && ValidateEmail(d.replyTo) && !Blank(d.message)
  }

  /** The button's readiness check and the on-submit validator accept exactly
      the same forms, although the former never asks whether the address is
      blank: an address of the right shape is never blank. */
  lemma FormValidIffValidates(d: FormData)
    ensures IsFormValid(d) <==> ValidateForm(d).valid
  {
    BlankIffAllSpace(d.fromName);
    BlankIffAllSpace(d.message);
    if ValidateEmail(d.replyTo) {
      ValidNotBlank(d.replyTo);
    }
  }

  datatype Field = FromNameField | ReplyToField | SubjectField | MessageField

  function FieldValue(d: FormData, f: Field): string {
    match f
    case FromNameField => d.fromName
    case ReplyToField => d.replyTo
    case SubjectField => d.subject
    case MessageField => d.message
  }

  /** `{ ...prev, [name]: value }` on the form data. */
  function SetField(d: FormData, f: Field, value: string): (d': FormData)
    ensures FieldValue(d', f) == value
    ensures forall g :: g != f ==> FieldValue(d', g) == FieldValue(d, g)
  {
    match f
    case FromNameField => d.(fromName := value)
    case ReplyToField => d.(replyTo := value)
    case SubjectField => d.(subject := value)
    case MessageField => d.(message := value)
  }

  /** `formErrors[name]`; the subject has no entry, which reads as falsy. */
  function ErrorOf(e: FormErrors, f: Field): string {
    match f
    case FromNameField => e.fromName
    case ReplyToField => e.replyTo
    case SubjectField => ""
    case MessageField => e.message
  }

  /** `{ ...prev, [name]: '' }` on the messages. */
  function ClearError(e: FormErrors, f: Field): (e': FormErrors)
    ensures ErrorOf(e', f) == ""
    ensures forall g :: g != f ==> ErrorOf(e', g) == ErrorOf(e, g)
  {
    match f
    case FromNameField => e.(fromName := "")
    case ReplyToField => e.(replyTo := "")
    case SubjectField => e
    case MessageField => e.(message := "")
  }

  /** The component's state. `isSubmitted` drives the success banner and a
      non-empty `submitError` the failure banner. */
  datatype ContactState = ContactState(
    data: FormData,
    errors: FormErrors,
    isSubmitting: bool,
    isSubmitted: bool,
    submitError: string)

  const InitialState: ContactState := ContactState(EmptyForm, NoErrors, false, false, "")

  /** `handleChange`: the edited field takes the new value and loses its
      message, if it had one; nothing else changes. */
  function HandleChange(s: ContactState, f: Field, value: string): (s': ContactState)
    ensures FieldValue(s'.data, f) == value
    ensures forall g :: g != f ==> FieldValue(s'.data, g) == FieldValue(s.data, g)
    ensures ErrorOf(s'.errors, f) == ""
    ensures forall g :: g != f ==> ErrorOf(s'.errors, g) == ErrorOf(s.errors, g)
    ensures s'.isSubmitting == s.isSubmitting && s'.isSubmitted == s.isSubmitted
    ensures s'.submitError == s.submitError
  {
    var errors := if ErrorOf(s.errors, f) != "" then ClearError(s.errors, f) else s.errors;
    s.(data := SetField(s.data, f, value), errors := errors)
  }

  /** The synchronous part of `handleSubmit`, up to the relay call: the failure
      banner is cleared, the validator's messages are shown, and only a valid
      form enters the submitting state. */
  function Submit(s: ContactState): (s': ContactState)
    ensures s'.data == s.data && s'.isSubmitted == s.isSubmitted
    ensures s'.submitError == ""
    ensures s'.errors == ValidateForm(s.data).errors
    ensures !IsFormValid(s.data) ==> s'.isSubmitting == s.isSubmitting && s'.errors != NoErrors
    ensures IsFormValid(s.data) ==> s'.isSubmitting && s'.errors == NoErrors
  {
    FormValidIffValidates(s.data);
    var v := ValidateForm(s.data);
    if !v.valid then
      s.(submitError := "", errors := v.errors)
    else
      s.(submitError := "", errors := v.errors, isSubmitting := true)
  }

  /** How the relay call ended. `NoFormElement` is the case where the form
      element was not mounted, so no call was made and no branch ran. */
  datatype RelayOutcome = Sent | Failed | NoFormElement

  /** The asynchronous part of `handleSubmit`, after the relay call settles. */
  function Resolve(s: ContactState, outcome: RelayOutcome): (s': ContactState)
    ensures outcome == Sent ==>
      && s'.data == EmptyForm && s'.errors == NoErrors
      && !s'.isSubmitting && s'.isSubmitted && s'.submitError == s.submitError
    ensures outcome == Failed ==>
      && s'.data == s.data && s'.errors == s.errors
      && !s'.isSubmitting && s'.isSubmitted == s.isSubmitted && s'.submitError == SendFailed
    ensures outcome == NoFormElement ==> s' == s
  {
    match outcome
    case Sent => s.(isSubmitting := false, isSubmitted := true, data := EmptyForm, errors := NoErrors)
    case Failed => s.(isSubmitting := false, submitError := SendFailed)
    case NoFormElement => s
  }

  /** The five-second timer after a successful send hides the success banner. */
  function SuccessTimerFired(s: ContactState): (s': ContactState)
    ensures !s'.isSubmitted
    ensures s'.data == s.data && s'.errors == s.errors
    ensures s'.isSubmitting == s.isSubmitting && s'.submitError == s.submitError
  {
    s.(isSubmitted := false)
  }

  /** The five-second timer after a failed send hides the failure banner. */
  function ErrorTimerFired(s: ContactState): (s': ContactState)
    ensures s'.submitError == ""
    ensures s'.data == s.data && s'.errors == s.errors
    ensures s'.isSubmitting == s.isSubmitting && s'.isSubmitted == s.isSubmitted
  {
    s.(submitError := "")
  }

  /** `disabled={isSubmitting || !isFormValid()}`. */
  predicate SubmitDisabled(s: ContactState) {
    s.isSubmitting || !IsFormValid(s.data)
  }

  /** The section starts with an empty form, no messages, no banners, and the
      button disabled. */
  lemma InitialDisabled()
    ensures InitialState.errors == NoErrors && !InitialState.isSubmitted && InitialState.submitError == ""
    ensures SubmitDisabled(InitialState)
  {
    EmptyAddressInvalid();
  }

  /** The button is enabled exactly when nothing is in flight and the
      validator would accept the form. */
  lemma SubmitEnabledIff(s: ContactState)
    ensures !SubmitDisabled(s) <==> !s.isSubmitting && ValidateForm(s.data).valid
  {
    FormValidIffValidates(s.data);
  }

  /** The forms the validator accepts, with the address written as its three
      parts: a name and a message that are not blank and an address A@B.C. */
  predicate AcceptedForm(d: FormData, a: string, b: string, c: string) {
    && !AllSpace(d.fromName) && !AllSpace(d.message)
    && Part(a) && Part(b) && Part(c) && d.replyTo == a + "@" + b + "." + c
  }

  /** Every form the validator accepts can be written as an accepted form. */
  lemma AcceptedFormIff(d: FormData)
    ensures IsFormValid(d) <==> exists a, b, c :: AcceptedForm(d, a, b, c)
  {
    FormValidIffValidates(d);
    if IsFormValid(d) {
      var a: string, b: string, c: string :|
        Part(a) && Part(b) && Part(c) && d.replyTo == a + "@" + b + "." + c;
      assert AcceptedForm(d, a, b, c);
    }
    if exists a, b, c :: AcceptedForm(d, a, b, c) {
      var a: string, b: string, c: string :| AcceptedForm(d, a, b, c);
      PartsAccepted(a, b, c);
    }
  }

  /** A successful send from an accepted form clears every field and message,
      leaves nothing in flight and shows the success banner, which the timer
      later hides. The emptied form disables the button again. */
  lemma SendSucceeds(s: ContactState, a: string, b: string, c: string)
    requires AcceptedForm(s.data, a, b, c)
    ensures var r := Resolve(Submit(s), Sent);
      && r.data == EmptyForm && r.errors == NoErrors
      && !r.isSubmitting && r.isSubmitted && r.submitError == ""
      && SubmitDisabled(r)
      && !SuccessTimerFired(r).isSubmitted
  {
    AcceptedFormIff(s.data);
    EmptyAddressInvalid();
  }

  /** A failed send keeps what the visitor typed, leaves nothing in flight and
      shows the fixed failure message, which the timer later clears. */
  lemma SendFails(s: ContactState, a: string, b: string, c: string)
    requires AcceptedForm(s.data, a, b, c)
    ensures var r := Resolve(Submit(s), Failed);
      && r.data == s.data && r.errors == NoErrors
      && !r.isSubmitting && r.submitError == SendFailed
      && ErrorTimerFired(r).submitError == ""
  {
    AcceptedFormIff(s.data);
  }

  /** While a send is in flight the button is disabled, so at most one send is
      in flight at a time. */
  lemma InFlightDisablesSubmit(s: ContactState, a: string, b: string, c: string)
    requires AcceptedForm(s.data, a, b, c)
    ensures Submit(s).isSubmitting && SubmitDisabled(Submit(s))
  {
    AcceptedFormIff(s.data);
  }

  lemma EmptyAddressInvalid()
    ensures !ValidateEmail("")
  {
    assert !Shaped("");
  }

  /** An empty name is reported as missing while the other fields pass. */
  lemma MissingNameExample()
    ensures var v := ValidateForm(FormData("", "a@b.com", "", "hi"));
      && !v.valid && v.errors.fromName == NameRequired
      && v.errors.replyTo == "" && v.errors.message == ""
  {
    var d := FormData("", "a@b.com", "", "hi");
    assert AllSpace(d.fromName);
    PartsAccepted("a", "b", "com");
    assert d.replyTo == "a" + "@" + "b" + "." + "com";
    assert Shaped(d.replyTo);
    assert !IsSpace(d.message[0]);
    assert !AllSpace(d.message);
  }

  /** Every address assembled as A + "@" + B + "." + C from three valid parts is accepted. */
  lemma PartsAccepted(a: string, b: string, c: string)
    requires Part(a) && Part(b) && Part(c)
    ensures ValidateEmail(a + "@" + b + "." + c)
  {
  }

  lemma ShortAddressAccepted()
    ensures ValidateEmail("a@b.co")
  {
    PartsAccepted("a", "b", "co");
    assert "a" + "@" + "b" + "." + "co" == "a@b.co";
  }

  /** A string with no '@' is rejected with the "invalid" message. */
  lemma NoAtRejected(email: string)
    requires !AllSpace(email)
    requires forall k :: 0 <= k < |email| ==> email[k] != '@'
    ensures !ValidateEmail(email)
    ensures EmailError(email) == EmailInvalid
  {
    BlankIffAllSpace(email);
    ShapedHasAt(email);
  }

  lemma NotAnEmailRejected()
    ensures EmailError("not-an-email") == EmailInvalid
  {
    assert !IsSpace("not-an-email"[0]);
    NoAtRejected("not-an-email");
  }
}
