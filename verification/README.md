# Sign-up form with OTP entry: a Dafny model

This project models the state logic of `SignUpForm`, a client-side registration form. The form has four text fields (first name, last name, email, phone). It also has six one-character boxes for a one-time passcode (OTP). The OTP can be typed, pasted, delivered by the browser's one-time-code credential, or filled in automatically by a local "demo" simulation. Submitting validates the form and, after a simulated request, resets it.

The component's state is one immutable record, `SignUpForm.State`. It holds the form data (`firstName`, `lastName`, `email`, `phone`, `otp`), `message`, `isSubmitting`, `showOtp` and `generatedOtp`. Each event handler, and each body of a delayed callback, is a pure transition. The transition takes a state and the event's input and returns the next state. The central invariant, `SignUpForm.Inv`, says the form holds exactly six OTP slots and each slot is `""` or one decimal digit.

Modules:

- `OtpText`: the `\d` class, the slot invariant, and the JavaScript operations applied to slots. These are `replace(/\D/g, "")`, `slice(0, n)`, `split("")` and `join("")`.
- `Decimal`: `generateOTP`, as decimal rendering of 100000 plus a random draw, with its reference reading `ParseDecimal`.
- `SignUpForm`: the state record and one transition per handler.
- `FormEvents`: the events the rendered form and its timers deliver, the dispatch `Step`, runs of events, and the invariant over runs.

The form is submitted in two steps. `SubmitStart` is the synchronous part of `handleSubmit`. `SubmitComplete` is the body of its 1500 ms timer. `simulateOtpAutofill` is also split in two. `SimulateAutofill` draws and shows the demo code. `AutofillDelivered` is its 2000 ms timer, which writes the code into the slots.

The credential path does not keep the invariant. At `src/components/SignUpForm.jsx:187` the slots become `code.split("").slice(0, 6)`. A code shorter than six characters leaves fewer than six slots. A non-digit lands in a slot unchanged. `WebOtpKeepsInvIff` proves the invariant is kept exactly when the code is empty or begins with six digits. `WebOtpShortCode` exhibits a five-slot result. `FormEvents.RunKeepsInv` proves every other event keeps the invariant.

Two behaviours of the code are easy to misread:

- Paste fills the slots whenever the clipboard holds at least six digits. Line 72 slices the digits to six before line 74 tests the length.
- A rejected OTP keystroke (lines 36, 39) leaves the whole state unchanged.

The keyboard paste path does not paste (see "## Findings"). `handleOtpKeyDown` cancels the keydown for Ctrl/Cmd+V (line 63), so the browser never fires the paste event. It then passes the keyboard event to `handlePaste`. A keyboard event has no `clipboardData`, so line 71 throws before any state update. `KeyPasteAsWritten` models this as the identity. `KeyPaste` is the evidently intended behaviour, the same as `Paste`, and `FormEvents.Step` uses it.

## Model

| member | source | states |
|---|---|---|
| `OtpText.KeepDigits` | src/components/SignUpForm.jsx:72 | stripping non-digits yields a digit string no longer than the input |
| `OtpText.KeepDigitsConcat` | src/components/SignUpForm.jsx:72 | stripping non-digits from a concatenation strips each part separately |
| `OtpText.KeepDigitsOfDigits` | src/components/SignUpForm.jsx:72 | a string of digits passes through unchanged |
| `OtpText.KeepDigitsOfChar` | src/components/SignUpForm.jsx:72 | a single character is kept exactly when it is a digit |
| `OtpText.Take` | src/components/SignUpForm.jsx:187 | `slice(0, n)` yields a prefix of length min(n, length) |
| `OtpText.Split` | src/components/SignUpForm.jsx:75 | `split("")` yields one single-character string per character, in order |
| `OtpText.JoinSplit` | src/components/SignUpForm.jsx:122 | `Join` (`join("")`) of the pieces of a split string gives the string back |
| `OtpText.SplitJoin` | src/components/SignUpForm.jsx:122 | splitting the `Join` of one-character slots gives the slots back |
| `OtpText.AllEmptyIffJoinEmpty` | src/components/SignUpForm.jsx:169 | `AllEmpty` (`every(digit => digit === "")`) holds exactly when the `Join` of the slots is empty |
| `OtpText.JoinLength` | src/components/SignUpForm.jsx:122-123 | for valid slots, the `Join` of the slots is never longer than the slot count, and it equals the slot count exactly when no slot is blank |
| `OtpText.JoinDigits` | src/components/SignUpForm.jsx:122 | the join of valid slots is a digit string |
| `Decimal.ToDecimal` | src/components/SignUpForm.jsx:21 | the decimal rendering `toString` gives for the six-digit values of line 21: a non-empty digit string with no leading zero, unless the number is 0 |
| `Decimal.ParseDecimal` | src/components/SignUpForm.jsx:21 | the value of a k-digit string is below 10^k |
| `Decimal.DecimalRoundTrip` | src/components/SignUpForm.jsx:21 | reading back the rendered number gives the number |
| `Decimal.DecimalLength` | src/components/SignUpForm.jsx:21 | a number in [10^(k-1), 10^k) renders as exactly k characters |
| `Decimal.GenerateOtp` | src/components/SignUpForm.jsx:20-22 | the generated code has six digits and no leading zero, and it denotes 100000 + draw |
| `SignUpForm.InitialOk` | src/components/SignUpForm.jsx:4-15 | the initial state has six blank slots, blank fields, and both flags false |
| `SignUpForm.InputChange` | src/components/SignUpForm.jsx:25-31 | the named field takes the typed value, and every other field, the slots and the flags are unchanged |
| `SignUpForm.InputChangeOverwrites` | src/components/SignUpForm.jsx:25-31 | re-entering the current value is a no-op, and the last edit of a field wins |
| `SignUpForm.OtpValueAcceptedIffValidSlot` | src/components/SignUpForm.jsx:36-39 | the two guards accept exactly the values a slot may hold: `""` or one digit |
| `SignUpForm.OtpChange` | src/components/SignUpForm.jsx:34-47 | an over-long or non-digit value leaves the whole state unchanged. An accepted value is written to that slot only; `""` clears it. The slot invariant is preserved. |
| `SignUpForm.PastedDigits` | src/components/SignUpForm.jsx:72 | the kept digits are a prefix of the clipboard's digits, at most six, and exactly six iff the clipboard has at least six |
| `SignUpForm.Paste` | src/components/SignUpForm.jsx:69-84 | with at least six digits, the slots become the first six digits in order. With fewer, the state is unchanged. Nothing else changes, and the invariant is preserved. |
| `SignUpForm.PasteOwnCode` | src/components/SignUpForm.jsx:69-84 | pasting the joined code of a filled form reproduces the same state |
| `OtpText.KeepDigitsSample` | src/components/SignUpForm.jsx:72 | stripping non-digits from `"123-456"` gives `"123456"` |
| `SignUpForm.PasteSkipsSeparators` | src/components/SignUpForm.jsx:71-79 | pasting `"123-456"` fills the slots with 1 to 6 |
| `SignUpForm.KeyPasteAsWritten` | src/components/SignUpForm.jsx:62-71 | Ctrl/Cmd+V in an OTP input leaves the state unchanged, whatever the clipboard holds |
| `SignUpForm.KeyPasteDropsCode` | src/components/SignUpForm.jsx:62-79 | a keyboard paste of "123456" leaves the slots blank, while a paste event fills them with 1 to 6 |
| `SignUpForm.KeyPaste` | src/components/SignUpForm.jsx:61-65 | the intended keyboard paste: with at least six digits, the slots become the first six digits in order. With fewer, the state is unchanged. The text fields, message and flags never change, and the invariant is preserved. |
| `SignUpForm.SubmitStart` | src/components/SignUpForm.jsx:105-128 | a blank field gives the missing-fields message, whatever the code. Otherwise a joined code whose length is not 6 gives the OTP message. Either error clears `isSubmitting`. Submit proceeds iff both checks pass. The form data is not touched. |
| `SignUpForm.SubmitStartUnderInv` | src/components/SignUpForm.jsx:122-127 | under the slot invariant, the OTP message fires exactly when some slot is blank, and submit proceeds exactly when all fields and all slots are filled |
| `SignUpForm.SubmitComplete` | src/components/SignUpForm.jsx:130-143 | after completion the state is the initial one with the success message; `generatedOtp` is kept |
| `SignUpForm.SubmitResetsOnlyOnSuccess` | src/components/SignUpForm.jsx:110-143 | a rejected submit keeps the form data, and a proceeding submit followed by completion returns to the initial state |
| `SignUpForm.SendOtp` | src/components/SignUpForm.jsx:147-158 | with both email and phone blank, the error message shows and `showOtp` is unchanged. Otherwise `showOtp` becomes true with the sent message. The form data is untouched. |
| `SignUpForm.SendOtpIdempotent` | src/components/SignUpForm.jsx:147-158 | sending twice equals sending once, and the OTP inputs show afterwards iff they did before or a contact was given |
| `SignUpForm.SimulateAutofill` | src/components/SignUpForm.jsx:87-89 | the demo code becomes a six-digit string denoting 100000 + draw, and nothing else changes |
| `SignUpForm.AutofillDelivered` | src/components/SignUpForm.jsx:92-99 | the slots hold the drawn code's six digits and the auto-fill message shows. The invariant holds afterwards from any state. |
| `SignUpForm.SimulatedCodeShown` | src/components/SignUpForm.jsx:87-99 | the demo code shown (line 89) is the code the delayed fill joins into the slots |
| `SignUpForm.FallbackTimer` | src/components/SignUpForm.jsx:165-172 | the fallback draws a code only while every slot is blank, and otherwise changes nothing |
| `SignUpForm.WebOtpReceived` | src/components/SignUpForm.jsx:186-194 | an empty code changes nothing. Otherwise the slots become the code's first min(6, length) characters, one per slot, and the auto-fill message shows. |
| `SignUpForm.WebOtpKeepsInvIff` | src/components/SignUpForm.jsx:186-191 | the credential path keeps the slot invariant iff the code is empty or starts with six digits |
| `SignUpForm.WebOtpShortCode` | src/components/SignUpForm.jsx:187 | a five-character code leaves five slots, which breaks the invariant |
| `FormEvents.Step` | src/components/SignUpForm.jsx:220-303 | each event is routed to its handler; the Ctrl/Cmd+V event goes to the corrected `KeyPaste` (see "## Findings"). An edit of a slot that does not exist changes nothing. The form data, `showOtp`, `isSubmitting` and `generatedOtp` each change only on the events whose handlers write them. |
| `FormEvents.StepKeepsInvIff` | src/components/SignUpForm.jsx:283-303 | from an invariant state, an event keeps the invariant iff it is not a malformed browser code |
| `FormEvents.RunKeepsInv` | src/components/SignUpForm.jsx:9 | every run of trusted events from a state with six valid slots keeps six valid slots |
| `FormEvents.SignUpScenario` | src/components/SignUpForm.jsx:105-143 | Ann Lee, with contacts and code 123456, submits, and completion returns the form to its initial state with the success message |

## Left out

- Rendering, CSS classes, the conditional display of inputs, and the demo-code panel (lines 216-341) are left out. Apart from the browser-side validation noted below, they produce no state.
- Focus movement through `otpRefs` (lines 49-51, 57-59, 82) is left out, and so is the Backspace branch of `handleOtpKeyDown`. These are DOM side effects with no state consequence.
- Timer delays are left out, including the 3-second message auto-clear (lines 100, 157, 194) and `clearTimeout` on unmount. Delayed bodies are separate transitions, and the model does not fix when they run or whether they still run after unmount.
- React's batching of state updates is assumed. Each handler's updates land together, so the model shows only their combined result.
- Stale closures are not modelled. The handlers and the effect's timers read `formData` captured at render time (lines 41, 169, 200), but the model reads the current state.
- The effect's scheduling (lines 161-214) is left out: when `showOtp` becoming true starts the credential request or a fallback timer. `FallbackTimer` and `WebOtpReceived` model what those callbacks do, not when they fire.
- `navigator.credentials.get` is a foreign browser API. Its result is an arbitrary string. A null credential or missing code is the empty string, since both are falsy at line 186. The catch branch is the same guarded fallback as `FallbackTimer`.
- `Math.random` and floating-point arithmetic in `generateOTP` are replaced by a draw `k < 900000`, standing for `Math.floor(Math.random() * 900000)`. The code is then `toString(100000 + k)`.
- `console.log` calls are left out.
- Browser-side gating of submit is left out. This covers the `disabled` state of the submit button (line 317), the `required` attributes (lines 229, 241, 253, 265) and `type="email"` (line 248). With that validation, the browser blocks the submit event while a field is blank or the email is malformed. So the missing-fields branch of `SubmitStart` is reachable only when that validation is bypassed. The model lets a `Submit` event arrive in any state, as `handleSubmit` itself does.
- JavaScript strings are UTF-16; the model's `char` is a Unicode scalar value. In `handleOtpChange` and `handlePaste` the difference does not show: a character outside the Basic Multilingual Plane is never a digit, so line 36 or 39 rejects it and line 72 drops it either way. It does show on the credential path (see the next line).
- SignUpForm.WebOtpReceived: splits the code per Unicode scalar, not per UTF-16 code unit as `split("")` does at line 187. A character outside the Basic Multilingual Plane becomes one slot in the model but two lone-surrogate slots in JavaScript. For example, "1\u{1F600}" gives 2 slots in the model and 3 in JavaScript. The joined length checked at line 123 differs for such slots too.
- Decimal.ToDecimal: is plain decimal rendering over all of `nat`. It agrees with `Number#toString` only below 2^53, since JavaScript uses exponent form from 10^21 and is inexact above 2^53. `GenerateOtp` only applies it to six-digit values.
- FormEvents.Step: routes the Ctrl/Cmd+V event to the corrected `KeyPaste`, not to `KeyPasteAsWritten`. As written, lines 62-71 leave the state unchanged (see "## Findings"). The invariant results `StepKeepsInvIff` and `RunKeepsInv` would hold with either handler, since the identity keeps the invariant.
- SignUpForm.InputChange: `handleInputChange` writes whatever `name` the event target carries. The model names only the four inputs the form renders.
- SignUpForm.OtpChange: requires `index` to be below the slot count, because its only caller passes the index of a rendered slot (lines 283-290). `FormEvents.Step` treats any other index as a no-op instead of growing the array as JavaScript would.

## Findings

| source | as written | input that shows it | evidently intended | confidence | as-written member | corrected member |
|---|---|---|---|---|---|---|
| src/components/SignUpForm.jsx:62-71 | Ctrl/Cmd+V cancels the keydown, so no paste event follows. It then calls `handlePaste` with the keyboard event, whose missing `clipboardData` makes line 71 throw before any state update. | Ctrl/Cmd+V in an OTP input with "123456" on the clipboard: the slots stay blank (`KeyPasteDropsCode`) | the clipboard text is pasted as by the paste event | medium, not executed | `SignUpForm.KeyPasteAsWritten` | `SignUpForm.KeyPaste` |
