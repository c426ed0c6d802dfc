/**
 The SendGrid email service (shared/SGEmailService.js): the message fields,
 the error state with its `false` sentinel, address validation, the provider
 payload and the `sendEmail` sequence. The fields and their getters and
 setters are one immutable record; each operation returns the updated record.
 The SendGrid client is not modelled: `sendEmail` receives the provider's
 outcome as a parameter and reports the payload it would hand to the provider.
 */
module SGEmailService {
  import opened JsValues
  import EmailPattern

  // ---------------------------------------------------------------------------
  // State

  /** `_errors`: the `false` sentinel, or a list of error values (possibly empty). */
  datatype Errors = NoErrors | ErrList(items: seq<Value>)

  /** The errors recorded so far; the sentinel records none. */
  function Items(e: Errors): seq<Value>
  {
    if e.NoErrors? then [] else e.items
  }

  datatype Service = Service(
    toEmail: Value,
    toName: Value,
    fromEmail: Value,
    fromName: Value,
    subject: Value,
    textBody: Value,
    htmlBody: Value,
    errors: Errors)

  /** `inError()`: the error state is anything but the sentinel, an empty list included. */
  predicate InError(s: Service): (r: bool)
    ensures !r ==> Items(s.errors) == []
    ensures s.errors == ErrList([]) ==> r
  {
    s.errors != NoErrors
  }

  /** `new SGEmailService(data)`: the fields are read from a truthy `data`; the
      error state starts at the sentinel. */
  function NewService(data: Value): (s: Service)
    ensures !InError(s)
    ensures !Truthy(data) ==> s == Service(Undef, Undef, Undef, Undef, Undef, Undef, Undef, NoErrors)
  {
    if Truthy(data) then
      Service(Prop(data, "to"), Prop(data, "to_name"), Prop(data, "from"), Prop(data, "from_name"),
              Prop(data, "subject"), Prop(data, "text"), Prop(data, "html"), NoErrors)
    else
      Service(Undef, Undef, Undef, Undef, Undef, Undef, Undef, NoErrors)
  }

  /** `addError(e)`: starts a one-element list on the sentinel, otherwise pushes. */
  function AddError(errs: Errors, e: Value): (r: Errors)
    ensures r.ErrList? && r.items == Items(errs) + [e]
  {
    match errs
    case NoErrors => ErrList([e])
    case ErrList(items) => ErrList(items + [e])
  }

  /** Several `addError` calls in a row; none at all leaves the sentinel alone. */
  function AppendAll(errs: Errors, es: seq<Value>): Errors
  {
    if |es| == 0 then errs else ErrList(Items(errs) + es)
  }

  lemma AppendAllTwice(errs: Errors, a: seq<Value>, b: seq<Value>)
    ensures AppendAll(AppendAll(errs, a), b) == AppendAll(errs, a + b)
  {
    if |a| > 0 && |b| > 0 {
      assert Items(errs) + a + b == Items(errs) + (a + b);
    } else if |a| == 0 {
      assert a + b == b;
    } else {
      assert a + b == a;
    }
  }

  // ---------------------------------------------------------------------------
  // validateEmail

  const InvalidToText: string := "Unable to send email(s). Invalid argument passed for 'To Email'."

  /** The error recorded for a malformed element of an address array. */
  function BadAddressError(address: Value): Value
  {
    MessageObject("Failed to send email to " + ToJsString(address) + ". Email improperly formatted.")
  }

  /** `re.test(String(address).toLowerCase())` */
  predicate WellFormed(address: Value)
  {
    EmailPattern.Matches(ToJsString(address))
  }

  /** The `forEach` over an address array: one `addError` per malformed element. */
  function CheckEach(errs: Errors, addresses: seq<Value>): (r: Errors)
    ensures Items(errs) <= Items(r)
    ensures |Items(errs)| <= |Items(r)| <= |Items(errs)| + |addresses|
    ensures errs.ErrList? ==> r.ErrList?
    decreases |addresses|
  {
    if |addresses| == 0 then errs
    else
      var next := if WellFormed(addresses[0]) then errs else AddError(errs, BadAddressError(addresses[0]));
      CheckEach(next, addresses[1..])
  }

  /** The errors an address array gives rise to: one per malformed element, in order. */
  function BadAddressErrors(addresses: seq<Value>): seq<Value>
    decreases |addresses|
  {
    if |addresses| == 0 then []
    else (if WellFormed(addresses[0]) then [] else [BadAddressError(addresses[0])]) + BadAddressErrors(addresses[1..])
  }

  /** Walking the array appends exactly the errors of its malformed elements. */
  lemma {:induction false} CheckEachAppendsBadAddresses(errs: Errors, addresses: seq<Value>)
    ensures CheckEach(errs, addresses) == AppendAll(errs, BadAddressErrors(addresses))
    decreases |addresses|
  {
    if |addresses| > 0 {
      var a := addresses[0];
      var rest := BadAddressErrors(addresses[1..]);
      if WellFormed(a) {
        CheckEachAppendsBadAddresses(errs, addresses[1..]);
        assert BadAddressErrors(addresses) == [] + rest;
        assert [] + rest == rest;
      } else {
        var next := AddError(errs, BadAddressError(a));
        CheckEachAppendsBadAddresses(next, addresses[1..]);
        assert BadAddressErrors(addresses) == [BadAddressError(a)] + rest;
        AppendAllTwice(errs, [BadAddressError(a)], rest);
      }
    }
  }

  /** Every error of an address array names one of its malformed elements, and a
      well-formed element gives rise to none. */
  lemma {:induction false} BadAddressErrorsNameMalformed(addresses: seq<Value>)
    ensures forall e :: e in BadAddressErrors(addresses) ==>
      exists k :: 0 <= k < |addresses| && !WellFormed(addresses[k]) && e == BadAddressError(addresses[k])
    ensures (forall k :: 0 <= k < |addresses| ==> WellFormed(addresses[k])) ==> BadAddressErrors(addresses) == []
    ensures (forall k :: 0 <= k < |addresses| ==> !WellFormed(addresses[k])) ==>
      BadAddressErrors(addresses) == seq(|addresses|, k requires 0 <= k < |addresses| => BadAddressError(addresses[k]))
    decreases |addresses|
  {
    if |addresses| > 0 {
      BadAddressErrorsNameMalformed(addresses[1..]);
      forall e | e in BadAddressErrors(addresses)
        ensures exists k :: 0 <= k < |addresses| && !WellFormed(addresses[k]) && e == BadAddressError(addresses[k])
      {
        if e !in BadAddressErrors(addresses[1..]) {
          assert !WellFormed(addresses[0]) && e == BadAddressError(addresses[0]);
        } else {
          var k :| 0 <= k < |addresses[1..]| && !WellFormed(addresses[1..][k]) && e == BadAddressError(addresses[1..][k]);
          assert addresses[k + 1] == addresses[1..][k];
        }
      }
    }
  }

  datatype Checked = Checked(errors: Errors, ok: bool)

  /** `validateEmail(email)`: a string is checked against the pattern and records
      nothing; an array records one error per malformed element and always
      passes; anything else records one error and fails. */
  function ValidateEmail(errs: Errors, email: Value): (r: Checked)
    ensures email.Str? ==> r == Checked(errs, EmailPattern.Matches(email.s))
    ensures email.Arr? ==> r.ok && r.errors == AppendAll(errs, BadAddressErrors(email.items))
    ensures !email.Str? && !email.Arr? ==> !r.ok && r.errors == ErrList(Items(errs) + [MessageObject(InvalidToText)])
  {
    match email
    case Str(s) => Checked(errs, EmailPattern.Matches(s))
    case Arr(items) =>
      CheckEachAppendsBadAddresses(errs, items);
      Checked(CheckEach(errs, items), true)
    case _ => Checked(AddError(errs, MessageObject(InvalidToText)), false)
  }

  /** The recipient shape the constructor documents, an array of
      `{email, name}` objects, converts each element to "[object Object]",
      which holds no `@`: every element is reported as malformed. */
  lemma AddressObjectsAlwaysReported(errs: Errors, recipients: seq<Value>)
    requires forall k :: 0 <= k < |recipients| ==> recipients[k].Obj?
    ensures ValidateEmail(errs, Arr(recipients)).ok
    ensures ValidateEmail(errs, Arr(recipients)).errors ==
      AppendAll(errs, seq(|recipients|, k requires 0 <= k < |recipients| => BadAddressError(recipients[k])))
  {
    forall k | 0 <= k < |recipients| ensures !WellFormed(recipients[k]) {
      assert ToJsString(recipients[k]) == "[object Object]";
      EmailPattern.MatchHasAt("[object Object]");
    }
    BadAddressErrorsNameMalformed(recipients);
  }

  // ---------------------------------------------------------------------------
  // buildEmailMessage

  datatype ContentPart = ContentPart(mimeType: string, value: Value)

  /** The provider payload; `sandbox` is the presence of `mail_settings.sandbox_mode`. */
  datatype Payload = Payload(to: seq<Value>, from: Value, subject: Value, content: seq<ContentPart>, sandbox: bool)

  /** The object literal `{email, name}`. */
  function AddressObject(email: Value, name: Value): Value
  {
    Obj(map["email" := email, "name" := name])
  }

  /** `buildEmailMessage()`, with `process.env.IS_DEV` passed in as `isDev`. */
  function BuildEmailMessage(s: Service, isDev: Value): (r: Completion<Payload>)
    ensures r.Normal? <==> s.toEmail.Str? || s.toEmail.Arr?
    ensures r.Threw? ==> r.exception == Str(InvalidToText)
    ensures s.toEmail.Str? ==> r.Normal? && r.value.to == [AddressObject(s.toEmail, s.toName)]
    ensures s.toEmail.Arr? ==> r.Normal? && r.value.to == s.toEmail.items
    ensures r.Normal? ==> r.value.from == AddressObject(s.fromEmail, s.fromName) && r.value.subject == s.subject
    ensures r.Normal? ==>
              && |r.value.content| == 2
              && r.value.content[0] == ContentPart("text/plain", s.textBody)
              && r.value.content[1] == ContentPart("text/html", s.htmlBody)
    ensures r.Normal? ==> (r.value.sandbox <==> isDev == Bool(true))
  {
    var to :=
      if s.toEmail.Str? then Normal([AddressObject(s.toEmail, s.toName)])
      else if s.toEmail.Arr? then Normal(s.toEmail.items)
      else Threw(Str(InvalidToText));
    match to
    case Threw(e) => Threw(e)
    case Normal(recipients) =>
      Normal(Payload(
        recipients,
        AddressObject(s.fromEmail, s.fromName),
        s.subject,
        [ContentPart("text/plain", s.textBody), ContentPart("text/html", s.htmlBody)],
        isDev == Bool(true)))
  }

  /** Environment variables are strings or absent, so the strict comparison
      with `true` never holds and sandbox mode is never requested. */
  lemma SandboxNeverRequested(s: Service, isDev: Value)
    requires isDev.Str? || isDev.Undef?
    ensures BuildEmailMessage(s, isDev).Normal? ==> !BuildEmailMessage(s, isDev).value.sandbox
  {
  }

  // ---------------------------------------------------------------------------
  // sendEmail

  /** What `sgMail.send` does: resolve with a result whose `errors` field is
      absent/falsy (`None`) or an array, or throw. A result of `null` or
      `undefined` makes the read of `errors` throw inside the same `try`,
      which is the `Rejected` case. */
  datatype ProviderOutcome = Accepted(errors: Option<seq<Value>>) | Rejected(thrown: Value)

  /** The service after the call, and the payload handed to the provider, if any. */
  datatype SendResult = SendResult(service: Service, request: Option<Payload>)

  const MissingFieldsText: string :=
    "Failed to send email. \"To email\", \"To Name\", \"From email\", \"From Name\", \"Subject\", \"Email Text Body\", and \"Email HTML Body\" are required"

  /** The seven fields `sendEmail` requires to be truthy. */
  predicate AllFieldsPresent(s: Service)
  {
    Truthy(s.toEmail) && Truthy(s.toName) && Truthy(s.fromEmail) && Truthy(s.fromName) &&
    Truthy(s.subject) && Truthy(s.textBody) && Truthy(s.htmlBody)
  }

  /** The addresses `validateEmail` lets through: a well-formed string, or any array. */
  predicate AddressAccepted(v: Value)
  {
    (v.Str? && EmailPattern.Matches(v.s)) || v.Arr?
  }

  /** The errors validation records for an address that passes it. */
  function AddressErrors(v: Value): seq<Value>
  {
    if v.Arr? then BadAddressErrors(v.items) else []
  }

  /** `sendEmail()`. */
  function SendEmail(s: Service, outcome: ProviderOutcome, isDev: Value): (r: SendResult)
    ensures r.service == s.(errors := r.service.errors)
    ensures r.request.Some? <==> AddressAccepted(s.toEmail) && AddressAccepted(s.fromEmail) && AllFieldsPresent(s)
    ensures r.request.Some? ==> BuildEmailMessage(s, isDev) == Normal(r.request.value)
  {
    var reset := s.(errors := NoErrors);
    var to := ValidateEmail(reset.errors, s.toEmail);
    if !to.ok then SendResult(reset.(errors := to.errors), None)
    else
      var from := ValidateEmail(to.errors, s.fromEmail);
      var validated := reset.(errors := from.errors);
      if !from.ok then SendResult(validated, None)
      else if AllFieldsPresent(s) then
        match BuildEmailMessage(s, isDev)
        case Threw(e) => SendResult(validated.(errors := AddError(validated.errors, e)), None)
        case Normal(payload) =>
          match outcome
          case Accepted(None) => SendResult(validated, Some(payload))
          case Accepted(Some(es)) => SendResult(validated.(errors := ErrList(es)), Some(payload))
          case Rejected(e) => SendResult(validated.(errors := AddError(validated.errors, e)), Some(payload))
      else
        SendResult(validated.(errors := AddError(validated.errors, MessageObject(MissingFieldsText))), None)
  }

  /** Every call starts from the sentinel: errors of an earlier call never carry over. */
  lemma SendEmailResets(s: Service, earlier: Errors, outcome: ProviderOutcome, isDev: Value)
    ensures SendEmail(s.(errors := earlier), outcome, isDev) == SendEmail(s, outcome, isDev)
  {
  }

  /** A malformed single `to`, or a well-formed one with a malformed single
      `from`, ends the call with no error recorded and no send. */
  lemma MalformedAddressIsSilent(s: Service, outcome: ProviderOutcome, isDev: Value)
    requires s.toEmail.Str?
    requires !EmailPattern.Matches(s.toEmail.s) || (s.fromEmail.Str? && !EmailPattern.Matches(s.fromEmail.s))
    ensures SendEmail(s, outcome, isDev) == SendResult(s.(errors := NoErrors), None)
  {
  }

  /** A `to` that passes and a `from` that does not: the call ends with no
      send, keeping the errors of malformed `to` elements and adding the
      "Invalid argument" error only when `from` is not a string. */
  lemma FromRejectedKeepsToErrors(s: Service, outcome: ProviderOutcome, isDev: Value)
    requires AddressAccepted(s.toEmail) && !AddressAccepted(s.fromEmail)
    ensures SendEmail(s, outcome, isDev) == SendResult(
      s.(errors := AppendAll(NoErrors, AddressErrors(s.toEmail) +
                                       (if s.fromEmail.Str? then [] else [MessageObject(InvalidToText)]))),
      None)
  {
  }

  /** A `to` of the wrong type records exactly one error: `from` is not
      validated after `to` fails, whatever its type. */
  lemma InvalidToShortCircuits(s: Service, outcome: ProviderOutcome, isDev: Value)
    requires !s.toEmail.Str? && !s.toEmail.Arr?
    ensures SendEmail(s, outcome, isDev) == SendResult(s.(errors := ErrList([MessageObject(InvalidToText)])), None)
  {
  }

  /** Past validation, the errors held are those of malformed array elements of
      `to` and then of `from`. */
  lemma ValidatedErrors(s: Service)
    requires AddressAccepted(s.toEmail) && AddressAccepted(s.fromEmail)
    ensures var to := ValidateEmail(NoErrors, s.toEmail);
            var from := ValidateEmail(to.errors, s.fromEmail);
            to.ok && from.ok &&
            from.errors == AppendAll(NoErrors, AddressErrors(s.toEmail) + AddressErrors(s.fromEmail))
  {
    var to := ValidateEmail(NoErrors, s.toEmail);
    assert to.errors == AppendAll(NoErrors, AddressErrors(s.toEmail));
    AppendAllTwice(NoErrors, AddressErrors(s.toEmail), AddressErrors(s.fromEmail));
  }

  /** Addresses that pass but a missing field: exactly one "missing required
      fields" error is appended and the provider is not called. */
  lemma MissingFieldsRecordOneError(s: Service, outcome: ProviderOutcome, isDev: Value)
    requires AddressAccepted(s.toEmail) && AddressAccepted(s.fromEmail) && !AllFieldsPresent(s)
    ensures SendEmail(s, outcome, isDev) == SendResult(
      s.(errors := ErrList(AddressErrors(s.toEmail) + AddressErrors(s.fromEmail) + [MessageObject(MissingFieldsText)])),
      None)
  {
    ValidatedErrors(s);
    var to := ValidateEmail(NoErrors, s.toEmail);
    var from := ValidateEmail(to.errors, s.fromEmail);
    var validated := AddressErrors(s.toEmail) + AddressErrors(s.fromEmail);
    assert Items(from.errors) == validated;
    assert SendEmail(s, outcome, isDev).service.errors == AddError(from.errors, MessageObject(MissingFieldsText));
  }

  /** Once the payload goes out, the provider's outcome decides the errors: an
      `errors` array replaces the state, a throw is appended, and a plain
      success leaves the validation errors. */
  lemma ProviderOutcomeRecorded(s: Service, outcome: ProviderOutcome, isDev: Value)
    requires AddressAccepted(s.toEmail) && AddressAccepted(s.fromEmail) && AllFieldsPresent(s)
    ensures var r := SendEmail(s, outcome, isDev);
            var validated := AddressErrors(s.toEmail) + AddressErrors(s.fromEmail);
            r.request.Some? &&
            r.service.errors == match outcome
              case Accepted(Some(es)) => ErrList(es)
              case Accepted(None) => AppendAll(NoErrors, validated)
              case Rejected(e) => ErrList(validated + [e])
  {
    ValidatedErrors(s);
    var to := ValidateEmail(NoErrors, s.toEmail);
    var from := ValidateEmail(to.errors, s.fromEmail);
    var validated := AddressErrors(s.toEmail) + AddressErrors(s.fromEmail);
    assert Items(from.errors) == validated;
    assert BuildEmailMessage(s, isDev).Normal?;
    var r := SendEmail(s, outcome, isDev);
    match outcome
    case Accepted(None) =>
      assert r.service.errors == from.errors;
    case Accepted(Some(es)) =>
    case Rejected(e) =>
      assert r.service.errors == AddError(from.errors, e);
  }

  /** A provider result with an empty `errors` array leaves an empty list,
      and the service counts as in error. */
  lemma EmptyProviderErrorsInError(s: Service, isDev: Value)
    requires AddressAccepted(s.toEmail) && AddressAccepted(s.fromEmail) && AllFieldsPresent(s)
    ensures var r := SendEmail(s, Accepted(Some([])), isDev);
            r.service.errors == ErrList([]) && InError(r.service)
  {
    ProviderOutcomeRecorded(s, Accepted(Some([])), isDev);
  }

  /** A send with well-formed single addresses and every field present that the
      provider accepts without an `errors` field leaves the service out of error. */
  lemma CleanSendNotInError(s: Service, isDev: Value)
    requires s.toEmail.Str? && EmailPattern.Matches(s.toEmail.s)
    requires s.fromEmail.Str? && EmailPattern.Matches(s.fromEmail.s)
    requires AllFieldsPresent(s)
    ensures !InError(SendEmail(s, Accepted(None), isDev).service)
  {
  }
}
