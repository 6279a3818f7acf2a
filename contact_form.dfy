/**
 * Contact-form gating and the submit button: `validateForm`, `updateLabel`,
 * the guard at the top of `handleFormSubmit`, and the button changes made by
 * `setSubmitButtonState`, `handleFormError` and the error timer.
 */
module ContactForm {
  import opened Email

  /** What `validateForm` writes: the `visible` class of the message group,
      the `moved-down` class of the button, and the button's `disabled`. */
  datatype FormGate = FormGate(messageGroupVisible: bool, submitMovedDown: bool, submitDisabled: bool)

  /** A text with at least one non-whitespace character. */
  predicate HasContent(text: string) {
    exists i :: 0 <= i < |text| && !IsJsWhitespace(text[i])
  }

  /** `validateForm` on the two field values: both are trimmed, the message
      group shows exactly when the trimmed email is valid, and the button is
      enabled exactly when, in addition, the message has some content. */
  function ValidateForm(email: string, message: string): (g: FormGate)
    ensures g.messageGroupVisible <==> IsValidEmail(Trim(email))
    ensures g.submitMovedDown == g.messageGroupVisible
    ensures !g.submitDisabled <==> IsValidEmail(Trim(email)) && HasContent(message)
  {
    TrimEmptyIffBlank(message);
    var emailValid := IsValidEmail(Trim(email));
    var messageValid := |Trim(message)| > 0;
    FormGate(emailValid, emailValid, !(emailValid && messageValid))
  }

  /** `updateLabel`: a label floats while its field has text or focus. */
  function LabelFloats(value: string, focused: bool): (floating: bool)
    ensures value != [] ==> floating
    ensures value == [] ==> (floating <==> focused)
  {
    |value| > 0 || focused
  }

  /** The guard of `handleFormSubmit`: the raw (untrimmed) email must be valid
      and the trimmed message non-empty, or nothing is sent. */
  function SubmitAccepted(email: string, message: string): (ok: bool)
    ensures ok <==> IsValidEmail(email) && HasContent(message)
  {
    TrimEmptyIffBlank(message);
    IsValidEmail(email) && |Trim(message)| > 0
  }

  /** Whatever `handleFormSubmit` sends, `validateForm` had enabled: the
      submit guard is at least as strict as the button gate. */
  lemma SubmitAcceptedImpliesEnabled(email: string, message: string)
    requires SubmitAccepted(email, message)
    ensures !ValidateForm(email, message).submitDisabled
    ensures ValidateForm(email, message).messageGroupVisible
  {
    ValidEmailTrimmed(email);
  }

  /** The converse fails: the gate trims the email and the submit guard does
      not, so a trailing no-break space enables the button yet the submit
      is dropped. */
  lemma EnabledButNotAccepted()
    ensures !ValidateForm("a@b.co\U{A0}", "hi").submitDisabled
    ensures !SubmitAccepted("a@b.co\U{A0}", "hi")
  {
    TrailingSpaceExample();
    EmailExamples();
    assert !IsJsWhitespace("hi"[0]);
  }

  /** The two field values after `contactForm.reset()`: the message group is
      hidden and the button disabled. */
  lemma EmptyFormIsGated()
    ensures ValidateForm("", "") == FormGate(false, false, true)
  {
    EmailExamples();
  }

  /** The text of the submit button: 'SEND', 'SENDING...' or 'ERROR - TRY AGAIN'. */
  datatype ButtonLabel = Send | Sending | Error

  /** The submit button as the controller sets it: text, `disabled` and the
      `moved-down` class. Colours and border styles are not modelled. */
  datatype SubmitButton = SubmitButton(text: ButtonLabel, disabled: bool, movedDown: bool)

  /** The two arguments `setSubmitButtonState` understands. */
  datatype ButtonRequest = Loading | Normal

  /** `setSubmitButtonState`: 'loading' disables the button and shows
      SENDING; 'normal' enables it and turns SENDING back into SEND, leaving
      any other text, in particular the error text, as it is. */
  function SetButtonState(b: SubmitButton, request: ButtonRequest): (r: SubmitButton)
    ensures r.movedDown == b.movedDown
    ensures r.disabled <==> request == Loading
    ensures r.text == Sending <==> request == Loading
    ensures request == Normal && b.text != Sending ==> r.text == b.text
    ensures request == Normal && b.text == Sending ==> r.text == Send
  {
    match request
    case Loading => b.(disabled := true, text := Sending)
    case Normal => b.(disabled := false, text := if b.text == Sending then Send else b.text)
  }

  /** `validateForm` applied to the button: only `disabled` and `moved-down` change. */
  function ApplyGate(b: SubmitButton, g: FormGate): (r: SubmitButton)
    ensures r.text == b.text
    ensures r.disabled == g.submitDisabled && r.movedDown == g.submitMovedDown
  {
    b.(disabled := g.submitDisabled, movedDown := g.submitMovedDown)
  }

  /** `handleFormError`: the error text; `disabled` is left as it is. */
  function ShowError(b: SubmitButton): (r: SubmitButton)
    ensures r.text == Error && r.disabled == b.disabled && r.movedDown == b.movedDown
  {
    b.(text := Error)
  }

  /** The timer that `handleFormError` sets: SEND, whatever the text is by then. */
  function ClearError(b: SubmitButton): (r: SubmitButton)
    ensures r.text == Send && r.disabled == b.disabled && r.movedDown == b.movedDown
  {
    b.(text := Send)
  }

  /** 'normal' is idempotent. */
  lemma NormalIdempotent(b: SubmitButton)
    ensures SetButtonState(SetButtonState(b, Normal), Normal) == SetButtonState(b, Normal)
  {
  }

  /** A failed submission: after 'loading', the error and the 1000 ms
      'normal', the error text survives on an enabled button. */
  lemma ErrorSurvivesCooldown(b: SubmitButton)
    ensures var r := SetButtonState(ShowError(SetButtonState(b, Loading)), Normal);
      r.text == Error && !r.disabled
  {
  }

  /** A successful submission: 'loading', then the form is reset and
      revalidated (which disables the button), then the 1000 ms 'normal'
      enables it again with SEND although the emptied form is not valid. */
  lemma SuccessCooldownEnablesEmptyForm(b: SubmitButton)
    ensures var r := SetButtonState(ApplyGate(SetButtonState(b, Loading), ValidateForm("", "")), Normal);
      r.text == Send && !r.disabled && ValidateForm("", "").submitDisabled
  {
    EmptyFormIsGated();
  }

  /** The error timer is not cancelled by a new submission: firing while a
      second request is in flight shows SEND on the still-disabled button. */
  lemma ClearErrorDuringResend(b: SubmitButton)
    ensures var r := ClearError(SetButtonState(ShowError(b), Loading));
      r.text == Send && r.disabled
  {
  }
}
