/**
  The events the rendered form and its timers deliver to `SignUpForm`, one
  transition per event, and runs of events from a state.
 */
module FormEvents {
  import opened OtpText
  import opened Decimal
  import opened SignUpForm

  datatype Event =
    | EditField(field: Field, value: string)  // `onChange` of a text input
    | EditSlot(index: nat, value: string)     // `onChange` of OTP input `index`
    | PasteText(text: string)                 // `onPaste` of an OTP input
    | PasteKey(clipboard: string)             // Ctrl/Cmd+V pressed in an OTP input
    | SendOtpClick                            // "Send OTP"
    | Submit                                  // `onSubmit` of the form
    | SubmitTimer                             // the simulated request completes
    | FallbackDue(draw: Draw)                 // a fallback timer of the OTP effect fires
    | SimulateClick(draw: Draw)               // "Simulate OTP (Fallback)"
    | AutofillTimer(draw: Draw)               // the delayed body of `simulateOtpAutofill`
    | WebOtpCode(code: string)                // the browser credential resolves

  /**
    The transition of one event. An OTP input exists only for a slot the form
    holds, so an edit of any other index changes nothing. Each part of the
    state is changed only by the events whose handlers write it.
   */
  function Step(s: State, e: Event): (r: State)
    ensures e.EditSlot? && e.index >= |s.form.otp| ==> r == s
    ensures r.form != s.form ==>
      e.EditField? || e.EditSlot? || e.PasteText? || e.PasteKey? ||
      e.SubmitTimer? || e.AutofillTimer? || e.WebOtpCode?
    ensures r.showOtp != s.showOtp ==> e.SendOtpClick? || e.SubmitTimer?
    ensures r.isSubmitting != s.isSubmitting ==> e.Submit? || e.SubmitTimer?
    ensures r.generatedOtp != s.generatedOtp ==> e.FallbackDue? || e.SimulateClick?
  {
    match e
    case EditField(field, value) => InputChange(s, field, value)
    case EditSlot(index, value) => if index < |s.form.otp| then OtpChange(s, index, value) else s
    case PasteText(text) => Paste(s, text)
    case PasteKey(clipboard) => KeyPaste(s, clipboard)
    case SendOtpClick => SendOtp(s)
    case Submit => SubmitStart(s)
    case SubmitTimer => SubmitComplete(s)
    case FallbackDue(draw) => FallbackTimer(s, draw)
    case SimulateClick(draw) => SimulateAutofill(s, draw)
    case AutofillTimer(draw) => AutofillDelivered(s, draw)
    case WebOtpCode(code) => WebOtpReceived(s, code)
  }

  /** Every event except a malformed browser code. */
  predicate Trusted(e: Event) {
    e.WebOtpCode? ==> WellFormedWebCode(e.code)
  }

  /** From a state satisfying the invariant, a step keeps it exactly when its event is trusted. */
  lemma StepKeepsInvIff(s: State, e: Event)
    requires Inv(s)
    ensures Inv(Step(s, e)) <==> Trusted(e)
  {
  }

  /** The state after the events `es`, in order. */
  function Run(s: State, es: seq<Event>): State
    decreases |es|
  {
    if es == [] then s else Run(Step(s, es[0]), es[1..])
  }

  /** Any run of trusted events keeps the slot invariant. */
  lemma {:induction false} RunKeepsInv(s: State, es: seq<Event>)
    requires Inv(s)
    requires forall i :: 0 <= i < |es| ==> Trusted(es[i])
    ensures Inv(Run(s, es))
    decreases |es|
  {
    if es != [] {
      StepKeepsInvIff(s, es[0]);
      assert forall i :: 0 <= i < |es[1..]| ==> es[1..][i] == es[i + 1];
      RunKeepsInv(Step(s, es[0]), es[1..]);
    }
  }

  /**
    The sign-up walk-through: with the four fields filled in and the six
    digits typed, a submit starts the request, and its completion puts the
    form back in its initial state with the success message.
   */
  lemma SignUpScenario()
    ensures
      var filled := Initial.(form := FormData("Ann", "Lee", "a@x.com", "5551234567",
                                              ["1", "2", "3", "4", "5", "6"]),
                             showOtp := true);
      && Step(filled, Submit).isSubmitting
      && Step(Step(filled, Submit), SubmitTimer) == Initial.(message := MsgCreated)
  {
    assert Join(["1", "2", "3", "4", "5", "6"]) == "123456";
  }
}
