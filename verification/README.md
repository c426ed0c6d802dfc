# mth-utilities: email service, response helpers and log-forward handler in Dafny

This project models the decision logic of two serverless HTTP functions and the
helpers they share:

- the SendGrid email service (`shared/SGEmailService.js`): its error state, which
  is either the `false` sentinel or a list of errors; `addError` and `inError`;
  the hand-checkable address pattern of `validateEmail`, including its array
  branch; the provider payload built by `buildEmailMessage`; and the `sendEmail`
  sequence of reset, validation, missing-field check and one provider call;
- the response and logging helpers (`shared/common.js`): `buildResponse`,
  `buildErrorResponse`, the 2xx test `isSuccess`, and the decision part of
  `logMessage` and `setContext`;
- the log-forward handler (`HttpLogMessageHandler/index.js`): it validates the
  body, forwards it, and maps the transport outcome to a status and body.

Files, one module each:

| file | module | contents |
|---|---|---|
| `js_values.dfy` | `JsValues` | the JavaScript value datatype, truthiness, property reads, `String(v)` and the numeric conversion |
| `email_pattern.dfy` | `EmailPattern` | the address pattern: a recogniser, a reference definition shaped like the regular expression, and a proof that they agree |
| `sg_email_service.dfy` | `SGEmailService` | the service record, `addError`, `validateEmail`, `buildEmailMessage`, `sendEmail` |
| `common.dfy` | `Common` | the envelopes, `isSuccess`, `logMessage`, `setContext` |
| `log_message_handler.dfy` | `HttpLogMessageHandler` | the exported handler |

Everything is a pure function over immutable values. The service's fields,
getters and setters are one record, and each operation returns the updated
record. Collaborators the code calls but does not define become parameters:

- `sgMail.send` becomes a `ProviderOutcome`. The provider either accepts, with or
  without an `errors` array, or throws.
- `postMessageHandler` becomes a `Transport`. It is a response with a status, an
  axios error with an upstream status, or an axios error with no response.
- `process.env.IS_DEV` becomes a value parameter.
- The winston logger becomes a `LogEvent`. The event records which level method
  a message reaches.

The address pattern is written out by hand. `EmailPattern.PatternMatch` states
it in the regular expression's own shape. It says that some `@` splits the text
into a local part and a domain, each of which is a join of pieces of the right
classes. `EmailPattern.Recognise` decides the pattern by splitting on `.`.
They are proved equal through the round trips `Join(Split(s)) == s` and
`Split(Join(parts)) == parts`; the second holds for pieces that contain no
separator.

Two consequences of the code as written are proved rather than corrected:

- `validateEmail` turns each array element into a string before matching. The
  constructor's comment documents the array form as `{email, name}` objects, and
  each of those becomes `"[object Object]"`. So every such recipient records an
  error (`SGEmailService.AddressObjectsAlwaysReported`). The array still passes
  validation, so the send goes ahead.
- `buildEmailMessage` compares `process.env.IS_DEV` with the boolean `true`.
  Environment values are strings, so sandbox mode is never requested
  (`SGEmailService.SandboxNeverRequested`).

Three details of the code that the model keeps as written:

- `inError()` compares the error state with the `false` sentinel
  (shared/SGEmailService.js:121-123), so it is true for any list, an empty one
  included.
- `buildErrorResponse` takes `(context, status, messages)` and does not use
  `context` (shared/common.js:51).
- The handler tests only that `log_level` is truthy and not empty
  (HttpLogMessageHandler/index.js:21); the value is never checked against
  `info`/`warn`/`error`.

## Model

| member | source | states |
|---|---|---|
| `EmailPattern.RecogniseIsPatternMatch` | shared/SGEmailService.js:199 | the recogniser accepts a text exactly when some `@` splits it into a local part and a domain of the regular expression's grammar (both directions) |
| `EmailPattern.LocalOkIsLocalForm` | shared/SGEmailService.js:199 | the local-part check holds exactly for one or more dot-joined atoms of allowed characters, or a quoted run of at least one non-line-terminator |
| `EmailPattern.IpLiteralOkIsForm` | shared/SGEmailService.js:199 | the bracketed-literal check holds exactly for `[` four dot-joined groups of 1 to 3 digits `]` |
| `EmailPattern.HostNameOkIsForm` | shared/SGEmailService.js:199 | the host check holds exactly for one or more `[a-zA-Z0-9-]+` labels each followed by `.`, then a top-level label of at least 2 letters |
| `EmailPattern.JoinSplit` | shared/SGEmailService.js:199 | joining the pieces of a split on `.` gives back the text, so the split-based check sees the whole address |
| `EmailPattern.SplitJoin` | shared/SGEmailService.js:199 | splitting a join of dot-free pieces gives back the pieces, so the pieces the regular expression chose are the ones the check tests |
| `EmailPattern.MatchesIsPatternMatch` | shared/SGEmailService.js:199-201 | an address matches exactly when its lower-cased form is in the regular expression's grammar |
| `EmailPattern.MatchHasAt` | shared/SGEmailService.js:199 | every accepted address contains `@` |
| `EmailPattern.MatchIgnoresCase` | shared/SGEmailService.js:201 | an address and its lower-cased form get the same verdict (lower-casing is idempotent) |
| `EmailPattern.MatchExampleDotted` | shared/SGEmailService.js:199-201 | `Jo.Do@Ex.COM` is accepted |
| `EmailPattern.MatchExampleQuoted` | shared/SGEmailService.js:199-201 | a quoted local part with a space, `"j d"@ex.com`, is accepted |
| `EmailPattern.NoMatchExampleBareHost` | shared/SGEmailService.js:199-201 | `john@localhost` is rejected: the domain needs a top-level label |
| `SGEmailService.InError` | shared/SGEmailService.js:121-123 | a service out of error holds no recorded errors, and an empty list still counts as in error |
| `SGEmailService.NewService` | shared/SGEmailService.js:22-35 | a new service starts with errors at the `false` sentinel, so it is not in error; a falsy `data` leaves every field undefined |
| `SGEmailService.AddError` | shared/SGEmailService.js:109-115 | on the sentinel the result is `[e]`; otherwise `e` is appended and all earlier errors are kept in order |
| `SGEmailService.ValidateEmail` | shared/SGEmailService.js:198-214 | a string passes exactly when its lower-cased form matches, and records nothing; an array always passes and appends one error per malformed element, in order; any other value appends one error and fails |
| `SGEmailService.CheckEach` | shared/SGEmailService.js:203-208 | the `forEach` keeps every earlier error as a prefix, adds at most one error per element, and never turns a list back into the sentinel |
| `SGEmailService.CheckEachAppendsBadAddresses` | shared/SGEmailService.js:203-208 | the `forEach` adds exactly the errors of the malformed elements, in element order, and adds nothing (not even an empty list) when all are well formed |
| `SGEmailService.BadAddressErrorsNameMalformed` | shared/SGEmailService.js:203-208 | each recorded error names a malformed element; no error when every element is well formed; one per element when none is |
| `SGEmailService.AddressObjectsAlwaysReported` | shared/SGEmailService.js:202-209 | an array of `{email, name}` objects passes but records one "improperly formatted" error per recipient |
| `SGEmailService.BuildEmailMessage` | shared/SGEmailService.js:125-168 | a string `to` becomes `[{email: to, name: toName}]`; an array `to` passes through unchanged; any other `to` throws; `from` is `{email, name}`; `subject` is copied; the content is plain text then HTML; sandbox is requested exactly when `IS_DEV` is the boolean `true` |
| `SGEmailService.SandboxNeverRequested` | shared/SGEmailService.js:158-165 | for a string or absent `IS_DEV`, no payload requests sandbox mode |
| `SGEmailService.SendEmail` | shared/SGEmailService.js:175-196 | only the error state changes; the provider is called exactly when `to` and `from` pass validation and all seven fields are truthy; the payload sent is the one `buildEmailMessage` builds, which never throws there |
| `SGEmailService.SendEmailResets` | shared/SGEmailService.js:176 | the outcome does not depend on the errors held before the call |
| `SGEmailService.MalformedAddressIsSilent` | shared/SGEmailService.js:178-180 | a malformed string `to`, or a good one with a malformed string `from`, ends the call with errors still `false` and no send |
| `SGEmailService.FromRejectedKeepsToErrors` | shared/SGEmailService.js:178-180 | a `to` that passes and a `from` that fails end the call with no send; the errors of malformed `to` elements are kept, and the "Invalid argument" error is added only when `from` is neither string nor array |
| `SGEmailService.InvalidToShortCircuits` | shared/SGEmailService.js:178 | a `to` that is neither string nor array records exactly one error; `from` is not validated |
| `SGEmailService.ValidatedErrors` | shared/SGEmailService.js:178 | once both addresses pass, the errors held are those of malformed `to` elements followed by those of malformed `from` elements |
| `SGEmailService.MissingFieldsRecordOneError` | shared/SGEmailService.js:181-195 | valid addresses with a falsy field append exactly one "required" error, and the provider is not called |
| `SGEmailService.ProviderOutcomeRecorded` | shared/SGEmailService.js:181-191 | a result `errors` array replaces the error state; a throw is appended after the validation errors; a plain success leaves the validation errors |
| `SGEmailService.EmptyProviderErrorsInError` | shared/SGEmailService.js:121-123 | an empty `errors` array from the provider leaves an empty list, and the service counts as in error |
| `SGEmailService.CleanSendNotInError` | shared/SGEmailService.js:175-191 | well-formed single addresses, all fields present and a plain success leave the service out of error |
| `Common.BuildResponse` | shared/common.js:41-49 | the body is returned verbatim with a JSON content-type header; the status is the argument, or 200 when it is undefined |
| `Common.BuildErrorResponse` | shared/common.js:51-64 | the status is kept at both levels; an array of messages is kept as it is; any other value, `undefined` included, is wrapped in a one-element list; the header is JSON |
| `Common.ErrorResponseIdempotent` | shared/common.js:52 | rebuilding from an envelope's own `messages` yields the same envelope |
| `Common.IsSuccess` | shared/common.js:111-119 | an integer status is a success exactly when it is between 200 and 299; an object is judged by its `status` field; `null` throws; arrays, booleans and `undefined` are not successes |
| `Common.StringStatusLikeNumber` | shared/common.js:111-119 | a status given as the decimal string of a number is judged like the number |
| `Common.BuiltResponseSuccess` | shared/common.js:41-49 | an envelope from `buildResponse` passes `isSuccess` exactly when its status is 2xx, and the default status passes |
| `Common.LevelOf` | shared/common.js:74-87 | only the strings `'warn'` and `'error'` select a level other than info, and each selects the level of its own name |
| `Common.LevelOfNames` | shared/common.js:74-87 | `'warn'` reaches warn and `'error'` reaches error; only those two strings avoid info, so the default and every other level reach info |
| `Common.SetContext` | shared/common.js:94-96 | after `setContext(c)`, every call given a falsy context uses `c` |
| `Common.LogMessage` | shared/common.js:66-92 | it logs and returns true exactly when the message is truthy and the argument context or the stored one is truthy; the event carries the message and the selected level |
| `Common.SetContextSupplies` | shared/common.js:66-69 | after `setContext(c)`, a call with no context behaves like a call given `c` |
| `Common.NoContextNoLog` | shared/common.js:66-92 | before any `setContext`, a call with no context returns false and logs nothing |
| `HttpLogMessageHandler.Handle` | HttpLogMessageHandler/index.js:3-61 | the context is stored globally on every path, the throwing one included; the body is forwarded unchanged exactly when it and its `message` and `log_level` are truthy; the handler throws only when a forwarded post fails without a response |
| `HttpLogMessageHandler.MissingBodyRejected` | HttpLogMessageHandler/index.js:9-16 | a missing or empty body gives 400 with `{error: "JSON body is required"}`, one error-level log and no forwarding |
| `HttpLogMessageHandler.MissingFieldsRejected` | HttpLogMessageHandler/index.js:21-28 | a falsy `message` or `log_level` gives 400 with the fixed "must include a message and log_level" body, one error-level log and no forwarding |
| `HttpLogMessageHandler.EmptyStringTestsRedundant` | HttpLogMessageHandler/index.js:9-21 | the `=== ""` tests add nothing: the checks pass exactly for bodies that are truthy and have truthy `message` and `log_level` |
| `HttpLogMessageHandler.ForwardOutcome` | HttpLogMessageHandler/index.js:40-60 | a response gives `{success: true}` with the upstream status and no log; an axios error gives `{success: false}` with the error's response status and one error-level log |
| `HttpLogMessageHandler.NoResponseThrowsAfterSetContext` | HttpLogMessageHandler/index.js:7-46 | a forwarded post that fails without a response throws with the context already stored, before any log call or response |
| `HttpLogMessageHandler.AnyLevelForwarded` | HttpLogMessageHandler/index.js:21 | a `log_level` outside info/warn/error, such as `"verbose"`, is forwarded |
| `JsValues.NumberStringRoundTrip` | shared/common.js:115 | the numeric conversion applied by `status -= 200` undoes `String(n)` for every integer |

## Left out

- `postMessageHandler` (shared/common.js:122-158) is not modelled. Its URL and header assembly from environment variables and its axios call become the `Transport` parameter.
- `getLogger` and the winston and Loggly transports (shared/common.js:10-39) are not modelled. This covers the lazy creation `if (!logger) getLogger()` and the choice of transports by environment. A log call that goes through is a `LogEvent`.
- `sgMail.setApiKey` and `sgMail.send` are not modelled: they are foreign library calls. The send becomes the `ProviderOutcome` parameter.
- A truthy `result.errors` that is not an array cannot be expressed. The error state is modelled as the sentinel or a list.
- `_response`, `setResponse` and `getResponse` are left out. The code only ever sets the response to `null`.
- HTTPSendEmail/index.js is not part of this model. It imports a `validateBody` that shared/common.js neither defines nor exports. It also calls `buildErrorResponse(400, messages)` against the three-parameter signature. The schema validator it relies on is not in the source.
- `async`/`await`, `context.done`, and `JSON.stringify(response.toJSON())` are left out. The serialised axios error is a string carried by `PostFailed`.
- Numbers are integers. `Number()` of a string reads only an optionally signed run of decimal digits, after whitespace trimming. Fractions, exponents, hex/octal/binary literals and `Infinity` are treated as NaN. `String()` of an integer of 21 or more digits prints every digit, where JavaScript uses exponent form.
- `toLowerCase` maps only the ASCII letters. Full Unicode case mapping, such as U+212A KELVIN SIGN to `k`, is not modelled.
- Property reads see only the own properties of plain objects. Prototype properties are not modelled. None of the keys this code reads is one.
- The handler takes `req.body` directly. It requires `context` to be an object, because the runtime always supplies one and the handler assigns `context.res`.
- Thrown `TypeError`s are modelled as one fixed object, without their message text.
