# Contact form controller

A model of the contact form of a small static site (`script.js`): the field
validation that runs when the form is submitted, the error marks it puts on
the page, the submit button that is locked while a submission is in flight,
the status line, and the submit handler. The handler either sends the form to
a relay endpoint or simulates the submission when no endpoint is set.

The model has three modules:

- `Strings` (`strings.dfy`) holds the white-space class that `\s` and
  `String.prototype.trim` share, and `Trim` itself, as a forward and a
  backward scan over the string. `Trim` is proved to strip
  exactly the surrounding white space, to have a unique result, and to be
  idempotent.
- `Validation` (`validation.dfy`) holds `isValidEmail`, written as what the
  regular expression denotes (`IsValidEmail`), and proves it equal to a
  description without a pattern (`EmailShape`). It also holds the three
  per-field rules of `validateForm` and their combination `Validate`. Each
  rule returns an optional error, and a separate lemma states which inputs
  each rule rejects.
- `ContactForm` (`contact_form.dfy`) holds the page as a class `Form`. Its
  fields are the three input values, the set of inputs marked
  `aria-invalid`, the text of each error node the page has, the button's
  disabled flag and label, the status line, and the configured endpoint.
  Its methods are `showError`, `clearError`, `clearAllErrors` (a loop over
  the three ids), `validateForm`, `setSubmitting`, `form.reset()` and the
  submit handler. The handler is split at its suspension point:
  - `StartSubmit` is the synchronous part up to the request. After it, the
    locked "Sending..." state can be observed.
  - `Settle` is the rest.
  - `HandleSubmit` runs both.

  How the request ends is a parameter, `Outcome`: an HTTP success, an HTTP
  failure (with the server's `error` text, if any), or a network error.
  `IsLive` decides between the live and the simulated branch, as the
  `FORM_POST_URL` test does. The deployed page's endpoint is proved live
  (`DeployedPageIsLive`).

The class invariant `Valid` has two parts:

- The button's label always matches its disabled flag.
- Each error node the page has shows a text exactly when its input is marked
  invalid.

`Shows(v)` says that the page displays verdict `v`: exactly the rejected
fields are marked, and each error node holds its field's message or nothing.
`ValidateForm` is proved to leave the page in `Shows(Validate(entries))`, and
its answer is `Validate(entries).Accepted()`. `ValidateSpec` then says which
entries are accepted, in terms of white space, the e-mail shape and the
message length.

The model follows the code on three points where the comments or the
documented behaviour say something different:

- The message limit applies to the untrimmed length. The comment at
  `script.js:93` speaks of the trimmed length, but line 94 tests
  `message.value.length`.
- The last part of an address excludes '@' as well as white space. The
  pattern is `[^\s@]+` on both sides of the '.'.
- A failed live submission always shows the generic failure text. The
  server's `error` text is only carried by the exception that lines 133-137
  catch and log.

## Model

| member | source | states |
|---|---|---|
| Strings.SkipLeading | script.js:80 | the forward scan of `trim` stops at the first character that is not white space, or at the end, and skips only white space |
| Strings.SkipTrailing | script.js:80 | the backward scan of `trim` stops just after the last character that is not white space, or at its lower bound, and skips only white space |
| Strings.SkipLeadingAt | script.js:80 | the forward scan can stop at only one index |
| Strings.SkipTrailingAt | script.js:80 | the backward scan can stop at only one index |
| Strings.Trim | script.js:80 | the result neither starts nor ends with white space, and it is empty exactly when the input is all white space |
| Strings.TrimSplits | script.js:80 | every input is white space, then its trimmed value, then white space |
| Strings.TrimOfPadded | script.js:80 | uniqueness: white space around a string whose edges are not white space trims back to that string |
| Strings.TrimIgnoresSurroundingWs | script.js:85-88 | added white space around a value never changes what it trims to |
| Strings.TrimIdempotent | script.js:88 | trimming an already trimmed value changes nothing |
| Validation.ErrorMessage | script.js:81-95 | every field error has a non-empty message, the texts the page writes |
| Validation.MatchHasShape | script.js:41-44 | a match of the e-mail pattern has the shape: no white space, a single '@' that is not first, and then a '.' that is neither next to the '@' nor last |
| Validation.ShapeMatches | script.js:41-44 | a string of that shape is matched by the pattern, with the '@' and the chosen '.' as the split points |
| Validation.IsValidEmailIffShape | script.js:41-44 | `isValidEmail` accepts exactly the strings of that shape |
| Validation.AcceptedAddresses | script.js:43 | the pattern accepts "ana@x.com", and also "a@b.c.d" and "a@..c", because the domain part may contain dots |
| Validation.RejectedAddresses | script.js:43 | the pattern rejects an address without '@', with two '@', with nothing between '@' and the only '.', or with a space inside |
| Validation.NameRuleSpec | script.js:80-83 | the name is rejected, only ever as required, exactly when it is all white space |
| Validation.EmailRuleSpec | script.js:85-91 | the address is "required" exactly when it is all white space; it is "invalid" exactly when it is not blank and its trimmed value lacks the e-mail shape; it is accepted exactly when its trimmed value has the shape |
| Validation.EmailRuleIgnoresSurroundingWs | script.js:85-91 | white space around the address never changes its verdict |
| Validation.MessageRuleSpec | script.js:93-97 | the message is rejected, only ever as too long, exactly when its untrimmed length exceeds 2000; an empty message is accepted |
| Validation.ValidateSpec | script.js:72-100 | each field gets at most one error, and only of its own kinds; the form is accepted exactly when the name is not blank, the trimmed address has the e-mail shape, and the message is within the limit |
| Validation.VerdictIsFieldwise | script.js:80-97 | the verdict on a field depends only on that field's value, so there is no short cut between fields |
| Validation.ScenarioEntriesAccepted | script.js:72-100 | the entries "Ana", "ana@x.com" and an empty message pass every rule |
| ContactForm.IsLive | script.js:120 | the live branch is taken exactly when the endpoint is not all white space |
| ContactForm.DeployedPageIsLive | script.js:38 | the configured endpoint selects the live branch |
| ContactForm.ErrorText | script.js:46-56 | an error node holds text exactly when its field has an error |
| ContactForm.Form.constructor | script.js:28-30 | the page handles the script looks up, in the starting state assumed of the markup: a freshly loaded page has no error marks, empty error nodes, an enabled "Send message" button and an empty status |
| ContactForm.Form.ShowError | script.js:46-50 | the input becomes marked; its error node, if the page has one, reads the message; nothing else changes |
| ContactForm.Form.ClearError | script.js:52-56 | the mark is removed; the error node, if any, is emptied; nothing else changes |
| ContactForm.Form.ClearAllErrors | script.js:58-63 | afterwards no input is marked and every error node is empty; values, button and status are unchanged |
| ContactForm.Form.Report | script.js:80-97 | for a field just cleared: the answer is whether its rule accepted it; a rejected field is marked and shows its error, an accepted one stays clear; other fields, values, button and status are unchanged |
| ContactForm.Form.ValidateForm | script.js:72-100 | the answer is whether the current entries are accepted; the page then shows exactly their verdict; values, button and status are unchanged |
| ContactForm.Form.ValidateTwice | script.js:72-73 | a second validation gives the same answer and leaves the same marks and texts, so errors do not pile up; values, button and status are unchanged |
| ContactForm.Form.SetSubmitting | script.js:66-70 | the button is disabled with "Sending..." while submitting, and enabled with "Send message" otherwise; nothing else changes |
| ContactForm.Form.Reset | script.js:130 | the three inputs are emptied; error marks, button and status are kept |
| ContactForm.Form.StartSubmit | script.js:104-117 | rejected entries get the fix-errors status and leave the button alone; accepted entries lock the button with "Sending..." and clear the status; the page shows the verdict either way |
| ContactForm.Form.Settle | script.js:119-151 | a request is sent exactly when live; the button always ends enabled with "Send message"; the status is the thank-you text, and the inputs are emptied, exactly when the attempt is simulated or the response is an HTTP success; otherwise the status is the failure text and the inputs are kept |
| ContactForm.Form.HandleSubmit | script.js:103-152 | invalid entries: nothing is sent, the fix-errors status is shown, and inputs and button are kept; valid entries: the result of `Settle` |
| ContactForm.SimulatedHappyPath | script.js:146-151 | with no endpoint, a valid submission keeps the button disabled and reading "Sending..." while in flight; then, whatever outcome is given, it thanks the user, empties the inputs, unlocks the button and sends no request |
| ContactForm.FailedDelivery | script.js:131-140 | on the deployed endpoint, an HTTP failure or a network error reports the failure, keeps the inputs and unlocks the button |
| ContactForm.MissingNameAndEmail | script.js:103-110 | blank name and e-mail: nothing is sent, the fix-errors status is shown, the button stays enabled, and exactly those two inputs are marked with their "required" texts |

## Left out

- The network request itself (`fetch`, the `FormData` body, the `Accept` header, parsing the JSON error body) is not modelled. Its result is the `Outcome` parameter.
- The server's error text in `HttpError` has no effect in the model. In the code it only reaches `console.error`.
- The 900 ms `setTimeout` of the simulated branch is not modelled, because the model has no clock. The branch is modelled as completing in `Settle`.
- Console logging and the status colours (`style.color`) are not modelled, because they are presentation only.
- Interleaving of events while a submission is in flight is not modelled. The browser ignores a disabled button; the model only proves that the button is disabled from `StartSubmit` until `Settle`.
- `preventDefault` is not modelled, because there is no native form submission to suppress.
- The handler's lookups of the form, the button, the status line and the three inputs are assumed to succeed. The model only lets error nodes be missing, as `if(errEl)` allows.
- ContactForm.Form.Reset: assumes the three inputs' default values are empty. `form.reset()` restores the default values that the page markup sets, and the markup is not part of this model.
- ContactForm.Form.constructor: the starting state is an assumption about the page markup, which is not part of this model. The button is assumed enabled and labelled "Send message", the status empty, every error node empty, and no input marked `aria-invalid`. `script.js` only looks these nodes up (lines 28-30), and every method relies on the button's label matching its disabled flag from then on.
- Validation.MessageRuleSpec: lengths are counted in code points. JavaScript's `length` counts UTF-16 code units, so the 2000 limit differs for characters outside the Basic Multilingual Plane.
- The year footer, skip link, smooth scrolling, navigation toggle and the resize handler (`script.js:1-22`, `script.js:154-180`, `script.js:195-226`) are not modelled, because they do not touch the contact form.
- The package buttons (`script.js:182-193`) are not modelled. They only overwrite the message input's value and scroll to the form, and the model already takes the input values as arbitrary entries.
