/**
  The state logic of the `SignUpForm` component: its state as one immutable
  record and each event handler (or the body of each delayed callback) as a
  pure transition from a state and the event's input to a new state.
 */
module SignUpForm {
  import opened OtpText
  import opened Decimal

  /** `formData`: the four text fields and the OTP slots. */
  datatype FormData = FormData(
    firstName: string,
    lastName: string,
    email: string,
    phone: string,
    otp: seq<string>)

  /** Everything the component keeps in state. */
  datatype State = State(
    form: FormData,
    message: string,
    isSubmitting: bool,
    showOtp: bool,
    generatedOtp: string)

  /** The text inputs the form renders, by their `name` attribute. */
  datatype Field = FirstName | LastName | Email | Phone

  const EmptyOtp: seq<string> := ["", "", "", "", "", ""]
  const EmptyForm: FormData := FormData("", "", "", "", EmptyOtp)
  const Initial: State := State(EmptyForm, "", false, false, "")

  const MsgMissingFields := "Please fill in all required fields"
  const MsgBadOtp := "Please enter a valid 6-digit OTP"
  const MsgCreated := "Account created successfully!"
  const MsgNeedContact := "Please enter email or phone number first"
  const MsgOtpSent := "OTP sent to your registered phone number. Please check your SMS."
  const MsgAutoFilled := "OTP auto-filled from SMS!"

  /** The state invariant: the OTP slots are six, each empty or one digit. */
  predicate Inv(s: State) {
    SlotsOk(s.form.otp)
  }

  /** The value of the input named `field`. */
  function FieldValue(f: FormData, field: Field): string {
    match field
    case FirstName => f.firstName
    case LastName => f.lastName
    case Email => f.email
    case Phone => f.phone
  }

  /** Some required text field is blank. */
  predicate MissingField(f: FormData) {
    exists field :: FieldValue(f, field) == ""
  }

  /** The initial state satisfies the invariant and has every field blank. */
  lemma InitialOk()
    ensures Inv(Initial)
    ensures AllEmpty(Initial.form.otp)
    ensures forall field :: FieldValue(Initial.form, field) == ""
    ensures !Initial.showOtp && !Initial.isSubmitting
  {
  }

  // ---------------------------------------------------------------------
  // handleInputChange

  /** Typing `value` into the input named `field`: that field changes, nothing else. */
  function InputChange(s: State, field: Field, value: string): (r: State)
    ensures FieldValue(r.form, field) == value
    ensures forall g :: g != field ==> FieldValue(r.form, g) == FieldValue(s.form, g)
    ensures r.form.otp == s.form.otp
    ensures r.(form := s.form) == s
  {
    var f := s.form;
    var f' := match field
      case FirstName => f.(firstName := value)
      case LastName => f.(lastName := value)
      case Email => f.(email := value)
      case Phone => f.(phone := value);
    s.(form := f')
  }

  /** Re-entering a field's current value changes nothing; a later edit overrides an earlier one. */
  lemma InputChangeOverwrites(s: State, field: Field, a: string, b: string)
    ensures InputChange(s, field, FieldValue(s.form, field)) == s
    ensures InputChange(InputChange(s, field, a), field, b) == InputChange(s, field, b)
  {
  }

  // ---------------------------------------------------------------------
  // handleOtpChange

  /** The two guards of `handleOtpChange`: at most one character, and `/^\d*$/`. */
  predicate OtpValueAccepted(value: string) {
    !(|value| > 1) && AllDigits(value)
  }

  /** The guards accept exactly the values a slot may hold. */
  lemma OtpValueAcceptedIffValidSlot(value: string)
    ensures OtpValueAccepted(value) <==> ValidSlot(value)
  {
  }

  /**
    Typing `value` into slot `index`. A rejected value leaves the whole state
    alone; an accepted one is written to that slot and nowhere else.
   */
  function OtpChange(s: State, index: nat, value: string): (r: State)
    requires index < |s.form.otp|
    ensures !OtpValueAccepted(value) ==> r == s
    ensures OtpValueAccepted(value) ==>
      && |r.form.otp| == |s.form.otp|
      && r.form.otp[index] == value
      && forall j :: 0 <= j < |s.form.otp| && j != index ==> r.form.otp[j] == s.form.otp[j]
    ensures r.form.(otp := s.form.otp) == s.form
    ensures r.(form := s.form) == s
    ensures Inv(s) ==> Inv(r)
  {
    if |value| > 1 then s
    else if !AllDigits(value) then s
    else s.(form := s.form.(otp := s.form.otp[index := value]))
  }

  // ---------------------------------------------------------------------
  // handlePaste

  /** `pastedData.replace(/\D/g, "").slice(0, 6)`. */
  function PastedDigits(text: string): (d: string)
    ensures AllDigits(d) && |d| <= SlotCount
    ensures d <= KeepDigits(text)
    ensures |d| == SlotCount <==> |KeepDigits(text)| >= SlotCount
  {
    Take(KeepDigits(text), SlotCount)
  }

  /**
    Pasting `text`: with at least six digits in it, the slots become its first
    six digits in order; otherwise nothing changes.
   */
  function Paste(s: State, text: string): (r: State)
    ensures |KeepDigits(text)| < SlotCount ==> r == s
    ensures |KeepDigits(text)| >= SlotCount ==>
      && SlotsOk(r.form.otp)
      && AllFilled(r.form.otp)
      && Join(r.form.otp) == KeepDigits(text)[..SlotCount]
    ensures r.form.(otp := s.form.otp) == s.form
    ensures r.(form := s.form) == s
    ensures Inv(s) ==> Inv(r)
  {
    var digits := PastedDigits(text);
    if |digits| == SlotCount then
      JoinSplit(digits);
      s.(form := s.form.(otp := Split(digits)))
    else
      s
  }

  /** Pasting the code already in a fully filled form reproduces the same state. */
  lemma PasteOwnCode(s: State)
    requires Inv(s) && AllFilled(s.form.otp)
    ensures Paste(s, Join(s.form.otp)) == s
  {
    var code := Join(s.form.otp);
    JoinDigits(s.form.otp);
    JoinLength(s.form.otp);
    KeepDigitsOfDigits(code);
    SplitJoin(s.form.otp);
    assert PastedDigits(code) == code;
  }

  /** Separators around the digits are ignored: `"123-456"` fills all six slots. */
  lemma PasteSkipsSeparators(s: State)
    ensures Paste(s, "123-456").form.otp == ["1", "2", "3", "4", "5", "6"]
  {
    KeepDigitsSample();
    var otp := Paste(s, "123-456").form.otp;
    assert Join(otp) == "123456";
    SplitJoin(otp);
    assert otp == Split("123456");
  }

  /**
    Ctrl/Cmd+V in an OTP input, as written: the keydown handler cancels the
    browser's paste and hands the keyboard event to `handlePaste`, which has
    no clipboard to read and throws before any state update. Whatever the
    clipboard holds, the state stays as it was.
   */
  function KeyPasteAsWritten(s: State, clipboard: string): (r: State)
    ensures r == s
  {
    s
  }

  /** A keyboard paste of a six-digit code leaves the slots blank, where an ordinary paste fills them. */
  lemma KeyPasteDropsCode()
    ensures KeyPasteAsWritten(Initial, "123456").form.otp == EmptyOtp
    ensures Paste(Initial, "123456").form.otp == ["1", "2", "3", "4", "5", "6"]
  {
    KeepDigitsOfDigits("123456");
    var otp := Paste(Initial, "123456").form.otp;
    SplitJoin(otp);
    assert otp == Split("123456");
  }

  /**
    Ctrl/Cmd+V in an OTP input as evidently intended: the clipboard text is
    pasted exactly as by the paste event.
   */
  function KeyPaste(s: State, clipboard: string): (r: State)
    ensures |KeepDigits(clipboard)| < SlotCount ==> r == s
    ensures |KeepDigits(clipboard)| >= SlotCount ==>
      && SlotsOk(r.form.otp)
      && AllFilled(r.form.otp)
      && Join(r.form.otp) == KeepDigits(clipboard)[..SlotCount]
    ensures r.form.(otp := s.form.otp) == s.form
    ensures r.(form := s.form) == s
    ensures Inv(s) ==> Inv(r)
  {
    Paste(s, clipboard)
  }

  // ---------------------------------------------------------------------
  // handleSubmit

  /**
    Pressing "Create Account", up to the simulated request. The field check
    runs first; then the joined code must be six characters long. A failing
    check shows its message and clears `isSubmitting`; a passing submit
    clears the message and sets `isSubmitting`. The form data is never
    touched here.
   */
  function SubmitStart(s: State): (r: State)
    ensures r.form == s.form && r.showOtp == s.showOtp && r.generatedOtp == s.generatedOtp
    ensures MissingField(s.form) ==> r.message == MsgMissingFields && !r.isSubmitting
    ensures !MissingField(s.form) && |Join(s.form.otp)| != SlotCount ==>
      r.message == MsgBadOtp && !r.isSubmitting
    ensures r.isSubmitting <==> !MissingField(s.form) && |Join(s.form.otp)| == SlotCount
    ensures r.isSubmitting ==> r.message == ""
  {
    var f := s.form;
    if f.firstName == "" || f.lastName == "" || f.email == "" || f.phone == "" then
      assert FieldValue(f, if f.firstName == "" then FirstName
                           else if f.lastName == "" then LastName
                           else if f.email == "" then Email
                           else Phone) == "";
      s.(message := MsgMissingFields, isSubmitting := false)
    else if |Join(f.otp)| != SlotCount then
      s.(message := MsgBadOtp, isSubmitting := false)
    else
      s.(message := "", isSubmitting := true)
  }

  /**
    Under the slot invariant the code check rejects exactly when some slot is
    blank, and a submit proceeds exactly when every field and every slot is
    filled.
   */
  lemma SubmitStartUnderInv(s: State)
    requires Inv(s)
    ensures !MissingField(s.form) ==>
      (SubmitStart(s).message == MsgBadOtp <==> exists i :: 0 <= i < SlotCount && s.form.otp[i] == "")
    ensures SubmitStart(s).isSubmitting <==> !MissingField(s.form) && AllFilled(s.form.otp)
  {
    JoinLength(s.form.otp);
  }

  /**
    The simulated request completes: success message, `isSubmitting` and
    `showOtp` cleared, and the form back to its initial contents. The demo
    code shown by the fallback is not cleared.
   */
  function SubmitComplete(s: State): (r: State)
    ensures r == Initial.(message := MsgCreated, generatedOtp := s.generatedOtp)
    ensures Inv(r) && AllEmpty(r.form.otp)
    ensures forall field :: FieldValue(r.form, field) == ""
  {
    s.(form := FormData("", "", "", "", ["", "", "", "", "", ""]),
       message := MsgCreated,
       isSubmitting := false,
       showOtp := false)
  }

  /** A rejected submit leaves the form for correction; only a completed one resets it. */
  lemma SubmitResetsOnlyOnSuccess(s: State)
    ensures !SubmitStart(s).isSubmitting ==> SubmitStart(s).form == s.form
    ensures SubmitStart(s).isSubmitting ==>
      SubmitComplete(SubmitStart(s)) == Initial.(message := MsgCreated, generatedOtp := s.generatedOtp)
  {
  }

  // ---------------------------------------------------------------------
  // handleSendOtp

  /** Pressing "Send OTP": needs an email or a phone number, then reveals the OTP inputs. */
  function SendOtp(s: State): (r: State)
    ensures r.form == s.form && r.isSubmitting == s.isSubmitting && r.generatedOtp == s.generatedOtp
    ensures s.form.email == "" && s.form.phone == "" ==>
      r.message == MsgNeedContact && r.showOtp == s.showOtp
    ensures s.form.email != "" || s.form.phone != "" ==>
      r.message == MsgOtpSent && r.showOtp
  {
    if s.form.email == "" && s.form.phone == "" then
      s.(message := MsgNeedContact)
    else
      s.(showOtp := true, message := MsgOtpSent)
  }

  /** Sending twice is the same as sending once; the OTP inputs show afterwards exactly when they did before or a contact was given. */
  lemma SendOtpIdempotent(s: State)
    ensures SendOtp(SendOtp(s)) == SendOtp(s)
    ensures SendOtp(s).showOtp <==> s.showOtp || s.form.email != "" || s.form.phone != ""
  {
  }

  // ---------------------------------------------------------------------
  // simulateOtpAutofill and the fallback timers

  /** `simulateOtpAutofill` up to its timer: draw a code and show it as the demo value. */
  function SimulateAutofill(s: State, draw: Draw): (r: State)
    ensures |r.generatedOtp| == SlotCount && AllDigits(r.generatedOtp)
    ensures ParseDecimal(r.generatedOtp) == 100000 + draw
    ensures r.(generatedOtp := s.generatedOtp) == s
  {
    s.(generatedOtp := GenerateOtp(draw))
  }

  /**
    The delayed body of `simulateOtpAutofill`: the slots receive the digits of
    the code drawn for `draw`, and the auto-fill message shows. The slot
    invariant holds afterwards whatever the state before.
   */
  function AutofillDelivered(s: State, draw: Draw): (r: State)
    ensures Inv(r) && AllFilled(r.form.otp)
    ensures AllDigits(Join(r.form.otp)) && ParseDecimal(Join(r.form.otp)) == 100000 + draw
    ensures r.message == MsgAutoFilled
    ensures r.form.(otp := s.form.otp) == s.form
    ensures r.(form := s.form, message := s.message) == s
  {
    var code := GenerateOtp(draw);
    JoinSplit(code);
    s.(form := s.form.(otp := Split(code)), message := MsgAutoFilled)
  }

  /** The demo panel shows the same code the delayed fill writes into the slots. */
  lemma SimulatedCodeShown(s: State, draw: Draw)
    ensures Join(AutofillDelivered(SimulateAutofill(s, draw), draw).form.otp)
            == SimulateAutofill(s, draw).generatedOtp
  {
    JoinSplit(GenerateOtp(draw));
  }

  /**
    The fallback timer of the OTP effect: it starts the simulation only while
    every slot is still blank, and never edits the form itself.
   */
  function FallbackTimer(s: State, draw: Draw): (r: State)
    ensures !AllEmpty(s.form.otp) ==> r == s
    ensures AllEmpty(s.form.otp) ==>
      && |r.generatedOtp| == SlotCount
      && AllDigits(r.generatedOtp) && ParseDecimal(r.generatedOtp) == 100000 + draw
    ensures r.(generatedOtp := s.generatedOtp) == s
  {
    if AllEmpty(s.form.otp) then SimulateAutofill(s, draw) else s
  }

  // ---------------------------------------------------------------------
  // WebOTP result

  /**
    A code delivered by the browser's one-time-code credential (`""` stands
    for a missing credential or code). A non-empty code replaces the slots by
    its first six characters, one per slot, whatever they are.
   */
  function WebOtpReceived(s: State, code: string): (r: State)
    ensures code == "" ==> r == s
    ensures code != "" ==>
      && |r.form.otp| == (if |code| < SlotCount then |code| else SlotCount)
      && (forall i :: 0 <= i < |r.form.otp| ==> r.form.otp[i] == [code[i]])
      && r.message == MsgAutoFilled
    ensures r.form.(otp := s.form.otp) == s.form
    ensures r.(form := s.form, message := s.message) == s
  {
    if code == "" then s
    else s.(form := s.form.(otp := Take(Split(code), SlotCount)), message := MsgAutoFilled)
  }

  /** A browser code keeps the slot invariant. */
  predicate WellFormedWebCode(code: string) {
    code == "" || (|code| >= SlotCount && AllDigits(code[..SlotCount]))
  }

  /**
    The credential path keeps the slot invariant exactly for an empty code or
    one that starts with six digits; a shorter code leaves fewer slots and a
    non-digit lands in a slot as it is.
   */
  lemma WebOtpKeepsInvIff(s: State, code: string)
    requires Inv(s)
    ensures Inv(WebOtpReceived(s, code)) <==> WellFormedWebCode(code)
  {
  }

  /** A five-character code from the browser leaves the form with five slots. */
  lemma WebOtpShortCode()
    ensures |WebOtpReceived(Initial, "12345").form.otp| == 5
    ensures !Inv(WebOtpReceived(Initial, "12345"))
  {
  }
}
