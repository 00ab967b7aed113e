/**
 * The contact form controller: the page state it writes (error nodes and
 * `aria-invalid` marks, the submit button, the status line, the three input
 * values) and the submit handler that validates, locks the button, sends and
 * reconciles. The network is not modelled: how the request ends is a
 * parameter.
 */
module ContactForm {
  import opened Strings
  import opened Validation

  const SendLabel := "Send message"
  const SendingLabel := "Sending..."
  const FixErrorsStatus := "Please fix the errors above and try again."
  const ThanksStatus := "Thank you! We will be in touch soon."
  const FailedStatus := "Sending failed. Please try again later."

  /** The endpoint the page is deployed with. */
  const FormPostUrl := "https://formspree.io/f/mkonkbre"

  /** How the request to the form relay ends: an HTTP success status, an HTTP
      failure status (with the `error` text of its JSON body, if any), or no
      response at all. */
  datatype Outcome = Ok | HttpError(errorText: Option<string>) | NetworkError

  /** Whether a submission attempt is in flight. */
  datatype Phase = Idle | Submitting

  /** The label `setSubmitting` gives the submit button. */
  function ButtonLabel(submitting: bool): string {
    if submitting then SendingLabel else SendLabel
  }

  /** An endpoint is configured: the string is non-empty and not all white
      space. Otherwise the submission is only simulated. */
  predicate IsLive(url: string)
    ensures IsLive(url) <==> !AllWs(url)
  {
    url != "" && Trim(url) != ""
  }

  /** The attempt ends in the thank-you state: always when simulated, and on an
      HTTP success when live. */
  predicate Delivered(url: string, outcome: Outcome) {
    !IsLive(url) || outcome.Ok?
  }

  /** The deployed page talks to a real endpoint. */
  lemma DeployedPageIsLive()
    ensures IsLive(FormPostUrl)
  {
    assert !IsWs(FormPostUrl[0]);
  }

  /** What a field's error node reads for a verdict. */
  function ErrorText(e: Option<FieldError>): (t: string)
    ensures t == "" <==> e == None
  {
    match e
    case None => ""
    case Some(x) => ErrorMessage(x)
  }

  class Form {
    // the three input values
    var name: string
    var email: string
    var message: string
    // the inputs carrying aria-invalid="true"
    var invalid: set<Field>
    // the error nodes `error-<id>` the page has, and the text of each
    const errorNodes: set<Field>
    var errorText: map<Field, string>
    // the submit button and the status line
    var disabled: bool
    var buttonText: string
    var status: string
    // the configured endpoint; empty selects the simulated submission
    const endpoint: string

    /** The button's label follows its disabled flag, and each input's error
        node, if the page has one, shows a text exactly when the input is
        marked invalid. */
    ghost predicate Valid()
      reads this
    {
      buttonText == ButtonLabel(disabled) &&
      Consistent(Name) && Consistent(Email) && Consistent(Message)
    }

    ghost predicate Consistent(f: Field)
      reads this
    {
      (f in errorText <==> f in errorNodes) &&
      (f in errorNodes ==> (f in invalid <==> errorText[f] != ""))
    }

    /** The three input values as they stand. */
    function Current(): Entries
      reads this
    {
      Entries(name, email, message)
    }

    /** Submitting exactly while the button is disabled. */
    function CurrentPhase(): Phase
      reads this
    {
      if disabled then Submitting else Idle
    }

    /** The page shows verdict `v`: exactly its rejected fields are marked, and
        every error node reads the error of its field, or nothing. */
    ghost predicate Shows(v: Verdict)
      reads this
    {
      ShowsAt(Name, v.name) && ShowsAt(Email, v.email) && ShowsAt(Message, v.message)
    }

    ghost predicate ShowsAt(f: Field, e: Option<FieldError>)
      reads this
    {
      (f in invalid <==> e.Some?) &&
      (f in errorText ==> errorText[f] == ErrorText(e))
    }

    /** A freshly loaded page: no errors, the button enabled, no status. */
    constructor (endpoint: string, entries: Entries, errorNodes: set<Field>)
      ensures Valid()
      ensures this.endpoint == endpoint && this.errorNodes == errorNodes && Current() == entries
      ensures Shows(Verdict(None, None, None))
      ensures CurrentPhase() == Idle && status == ""
    {
      this.endpoint := endpoint;
      this.errorNodes := errorNodes;
      name, email, message := entries.name, entries.email, entries.message;
      invalid := {};
      errorText := map f | f in errorNodes :: "";
      disabled := false;
      buttonText := SendLabel;
      status := "";
    }

    /** `showError`: marks the input invalid and writes the message into its
        error node, if the page has one; nothing else changes. */
    method ShowError(f: Field, e: FieldError)
      requires Valid()
      modifies this
      ensures Valid()
      ensures forall g :: g in invalid <==> g == f || g in old(invalid)
      ensures forall g :: g in errorText ==> errorText[g] == if g == f then ErrorMessage(e) else old(errorText)[g]
      ensures Current() == old(Current()) && disabled == old(disabled) && buttonText == old(buttonText) && status == old(status)
    {
      invalid := invalid + {f};
      if f in errorText {
        errorText := errorText[f := ErrorMessage(e)];
      }
    }

    /** `clearError`: removes the mark and empties the error node, if any;
        nothing else changes. */
    method ClearError(f: Field)
      requires Valid()
      modifies this
      ensures Valid()
      ensures forall g :: g in invalid <==> g != f && g in old(invalid)
      ensures forall g :: g in errorText ==> errorText[g] == if g == f then "" else old(errorText)[g]
      ensures Current() == old(Current()) && disabled == old(disabled) && buttonText == old(buttonText) && status == old(status)
    {
      invalid := invalid - {f};
      if f in errorText {
        errorText := errorText[f := ""];
      }
    }

    /** `clearAllErrors`: afterwards the page shows no error at all. */
    method ClearAllErrors()
      requires Valid()
      modifies this
      ensures Valid()
      ensures Shows(Verdict(None, None, None))
      ensures Current() == old(Current()) && disabled == old(disabled) && buttonText == old(buttonText) && status == old(status)
    {
      var ids := [Name, Email, Message];
      for n := 0 to |ids|
        invariant Valid()
        invariant forall f :: f in ids[..n] ==> f !in invalid && (f in errorText ==> errorText[f] == "")
        invariant Current() == old(Current()) && disabled == old(disabled) && buttonText == old(buttonText) && status == old(status)
      {
        ClearError(ids[n]);
        assert ids[..n + 1] == ids[..n] + [ids[n]];
      }
      assert ids[..|ids|] == ids;
      forall f: Field ensures f in ids {
        match f {
          case Name => assert ids[0] == f;
          case Email => assert ids[1] == f;
          case Message => assert ids[2] == f;
        }
      }
    }

    /** One rule's outcome on the page, for a field whose error was just
        cleared: a rejected field gets its error shown, an accepted one stays
        clear. Answers whether the field was accepted; other fields are left
        alone. */
    method Report(f: Field, e: Option<FieldError>) returns (accepted: bool)
      requires Valid()
      requires f !in invalid && (f in errorText ==> errorText[f] == "")
      modifies this
      ensures Valid()
      ensures accepted == e.None? && ShowsAt(f, e)
      ensures forall g :: g != f ==> (g in invalid <==> g in old(invalid))
      ensures forall g :: g != f && g in errorText ==> errorText[g] == old(errorText)[g]
      ensures Current() == old(Current()) && disabled == old(disabled) && buttonText == old(buttonText) && status == old(status)
    {
      accepted := true;
      if e.Some? {
        ShowError(f, e.value);
        accepted := false;
      }
    }

    /** `validateForm`: clears every error, then applies each field's rule to
        that field's current value and shows the error of each rejected field,
        and answers whether the form may be sent. What the page shows
        afterwards depends on the input values alone. */
    method ValidateForm() returns (valid: bool)
      requires Valid()
      modifies this
      ensures Valid()
      ensures valid == Validate(Current()).Accepted()
      ensures Shows(Validate(Current()))
      ensures Current() == old(Current()) && disabled == old(disabled) && buttonText == old(buttonText) && status == old(status)
    {
      ClearAllErrors();
      var nameOk := Report(Name, NameRule(name));
      var emailOk := Report(Email, EmailRule(email));
      var messageOk := Report(Message, MessageRule(message));
      valid := nameOk && emailOk && messageOk;
    }

    /** Validating twice in a row gives the same answer and leaves the page as
        the first validation left it: errors do not accumulate. */
    method ValidateTwice() returns (first: bool, second: bool, ghost marked: set<Field>, ghost texts: map<Field, string>)
      requires Valid()
      modifies this
      ensures Valid()
      ensures first == second
      ensures invalid == marked && errorText == texts
      ensures Shows(Validate(old(Current())))
      ensures Current() == old(Current()) && disabled == old(disabled) && buttonText == old(buttonText) && status == old(status)
    {
      first := ValidateForm();
      marked, texts := invalid, errorText;
      second := ValidateForm();
      forall f: Field
        ensures (f in invalid <==> f in marked) && (f in errorText <==> f in texts)
        ensures f in errorText ==> errorText[f] == texts[f]
      {
        match f {
          case Name =>
          case Email =>
          case Message =>
        }
      }
    }

    /** `setSubmitting`: the button is disabled and reads "Sending..." while
        submitting, and is enabled and reads "Send message" otherwise. */
    method SetSubmitting(submitting: bool)
      requires Valid()
      modifies this
      ensures Valid()
      ensures disabled == submitting && buttonText == ButtonLabel(submitting)
      ensures Current() == old(Current()) && invalid == old(invalid) && errorText == old(errorText) && status == old(status)
    {
      disabled := submitting;
      if submitting {
        buttonText := SendingLabel;
      } else {
        buttonText := SendLabel;
      }
    }

    /** `form.reset()`: every input back to its (empty) default value. The
        error marks stay as they are. */
    method Reset()
      requires Valid()
      modifies this
      ensures Valid()
      ensures Current() == Entries("", "", "")
      ensures invalid == old(invalid) && errorText == old(errorText) && disabled == old(disabled) && buttonText == old(buttonText) && status == old(status)
    {
      name, email, message := "", "", "";
    }

    /** The synchronous part of the submit handler. Rejected input leaves the
        button alone and asks for corrections; accepted input locks the button
        and clears the status before anything is sent. */
    method StartSubmit() returns (started: bool)
      requires Valid()
      modifies this
      ensures Valid()
      ensures started == Validate(old(Current())).Accepted()
      ensures Shows(Validate(old(Current())))
      ensures Current() == old(Current())
      ensures !started ==> status == FixErrorsStatus && disabled == old(disabled) && buttonText == old(buttonText)
      ensures started ==> CurrentPhase() == Submitting && buttonText == SendingLabel && status == ""
    {
      var valid := ValidateForm();
      if !valid {
        status := FixErrorsStatus;
        return false;
      }
      SetSubmitting(true);
      status := "";
      started := true;
    }

    /** The rest of the submit handler, once the request (or, without an
        endpoint, the simulated delay) is over. Returns whether a request was
        sent. Success thanks the user and resets the inputs; an HTTP failure
        and a network failure alike report the failure and keep the inputs.
        Either way the button ends enabled, exactly once. */
    method Settle(outcome: Outcome) returns (requested: bool)
      requires Valid()
      modifies this
      ensures Valid()
      ensures requested == IsLive(endpoint)
      ensures CurrentPhase() == Idle && buttonText == SendLabel
      ensures status == if Delivered(endpoint, outcome) then ThanksStatus else FailedStatus
      ensures Current() == if Delivered(endpoint, outcome) then Entries("", "", "") else old(Current())
      ensures invalid == old(invalid) && errorText == old(errorText)
    {
      if IsLive(endpoint) {
        requested := true;
        match outcome {
          case Ok =>
            status := ThanksStatus;
            Reset();
          case HttpError(_) =>
            status := FailedStatus;
          case NetworkError =>
            status := FailedStatus;
        }
        SetSubmitting(false);
        return;
      }
      requested := false;
      status := ThanksStatus;
      Reset();
      SetSubmitting(false);
    }

    /** `handleSubmit`, with the way the request ends given as `outcome`.
        Returns whether a request was sent. */
    method HandleSubmit(outcome: Outcome) returns (requested: bool)
      requires Valid()
      modifies this
      ensures Valid()
      ensures Shows(Validate(old(Current())))
      ensures !Validate(old(Current())).Accepted() ==>
        !requested && status == FixErrorsStatus && Current() == old(Current()) &&
        disabled == old(disabled) && buttonText == old(buttonText)
      ensures Validate(old(Current())).Accepted() ==>
        requested == IsLive(endpoint) && CurrentPhase() == Idle && buttonText == SendLabel &&
        status == (if Delivered(endpoint, outcome) then ThanksStatus else FailedStatus) &&
        Current() == (if Delivered(endpoint, outcome) then Entries("", "", "") else old(Current()))
    {
      var started := StartSubmit();
      if !started {
        return false;
      }
      requested := Settle(outcome);
    }
  }

  /** The simulated happy path: with no endpoint, a valid submission locks the
      button while "sending", then, however a request would have ended, thanks
      the user, clears every input and unlocks the button, without any
      request. */
  method SimulatedHappyPath(outcome: Outcome) returns (lockedCaption: string, lockedWhileSending: bool, requested: bool, finalStatus: string, after: Entries, caption: string, locked: bool)
    ensures lockedCaption == SendingLabel && lockedWhileSending
    ensures !requested && finalStatus == ThanksStatus && after == Entries("", "", "")
    ensures caption == SendLabel && !locked
  {
    var form := new Form("", Entries("Ana", "ana@x.com", ""), {Name, Email, Message});
    ScenarioEntriesAccepted();
    var started := form.StartSubmit();
    lockedCaption, lockedWhileSending := form.buttonText, form.disabled;
    requested := form.Settle(outcome);
    finalStatus, after, caption, locked := form.status, form.Current(), form.buttonText, form.disabled;
  }

  /** A live submission that the relay refuses, or that never gets a response,
      reports the failure, keeps the inputs and unlocks the button. */
  method FailedDelivery(outcome: Outcome) returns (requested: bool, finalStatus: string, after: Entries, caption: string, locked: bool)
    requires !outcome.Ok?
    ensures requested && finalStatus == FailedStatus && after == Entries("Ana", "ana@x.com", "")
    ensures caption == SendLabel && !locked
  {
    var form := new Form(FormPostUrl, Entries("Ana", "ana@x.com", ""), {Name, Email, Message});
    ScenarioEntriesAccepted();
    DeployedPageIsLive();
    requested := form.HandleSubmit(outcome);
    finalStatus, after, caption, locked := form.status, form.Current(), form.buttonText, form.disabled;
  }

  /** A submission with neither name nor e-mail sends nothing, leaves the
      button enabled, asks for corrections and shows both "required" errors. */
  method MissingNameAndEmail(outcome: Outcome) returns (requested: bool, finalStatus: string, caption: string, locked: bool, marked: set<Field>, nameText: string, emailText: string)
    ensures !requested && finalStatus == FixErrorsStatus && caption == SendLabel && !locked
    ensures marked == {Name, Email}
    ensures nameText == "Name is required" && emailText == "Email is required"
  {
    var form := new Form(FormPostUrl, Entries("", "", ""), {Name, Email, Message});
    requested := form.HandleSubmit(outcome);
    finalStatus, caption, locked, marked := form.status, form.buttonText, form.disabled, form.invalid;
    nameText, emailText := form.errorText[Name], form.errorText[Email];
    forall f: Field ensures f in marked <==> f in {Name, Email} {
      match f {
        case Name =>
        case Email =>
        case Message =>
      }
    }
  }
}
