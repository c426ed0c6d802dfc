/**
 The HTTP log-forwarding function (HttpLogMessageHandler/index.js): it checks
 the request body, forwards a valid body to the log aggregator through
 `postMessageHandler`, and maps the outcome to the response it stores in
 `context.res`. The HTTP call is not modelled; its outcome is a parameter.
 */
module HttpLogMessageHandler {
  import opened JsValues
  import Common

  /** What `postMessageHandler(body)` resolves to: the HTTP response, an axios
      error carrying the upstream response (with the text its `toJSON` gives),
      or an axios error without a response (a network failure). A caught
      value that is not an axios error takes the success branch, as a
      `Posted` whose status is that value's `status` property. */
  datatype Transport =
    | Posted(status: Value)
    | PostFailed(status: Value, detail: string)
    | NoResponse

  /** `context.res` */
  datatype Res = Res(status: Value, body: Value)

  /** A run of the handler that completes: the response, the log calls that
      went through, and the body handed to `postMessageHandler` (if it was
      called). */
  datatype Run = Run(res: Res, logs: seq<Common.LogEvent>, forwarded: Option<Value>)

  /** One invocation: the stored global context afterwards, which `setContext`
      sets before anything can throw, and how the run ended. */
  datatype Invocation = Invocation(globals: Common.Globals, result: Completion<Run>)

  const BodyRequiredText: string := "JSON body is required"
  const InvalidBodyText: string := "Unable to validate JSON body"
  const InvalidBodyError: string := "Unable to validate JSON body. JSON body must include a message and log_level."
  const ForwardFailedText: string := "Failed to post to MessageHandler. "

  function ErrorBody(text: string): Value
  {
    Obj(map["error" := Str(text)])
  }

  function SuccessBody(ok: bool): Value
  {
    Obj(map["success" := Bool(ok)])
  }

  /** The log calls a `logMessage` result adds to a run. */
  function Logged(c: Common.LogCall): seq<Common.LogEvent>
  {
    if c.logged.Some? then [c.logged.value] else []
  }

  /** `req.body` present and not the empty string. */
  predicate HasBody(body: Value)
  {
    !(!Truthy(body) || body == Str(""))
  }

  /** The handler's field check, as written: each of `message` and `log_level`
      must be truthy and not the empty string. */
  predicate FieldsPresent(body: Value)
    requires HasBody(body)
  {
    var message := Prop(body, "message");
    var logLevel := Prop(body, "log_level");
    !(!Truthy(message) || message == Str("") || !Truthy(logLevel) || logLevel == Str(""))
  }

  /** The bodies that get forwarded, stated independently of the checks: a
      truthy body with truthy `message` and `log_level`. The level's value is
      not restricted to `info`/`warn`/`error`. */
  predicate Forwardable(body: Value)
  {
    Truthy(body) && Truthy(Prop(body, "message")) && Truthy(Prop(body, "log_level"))
  }

  /** The exported handler, for a request whose `req.body` is `body`. The
      runtime always passes a `context` object, which the handler stores with
      `setContext` and whose `res` it assigns. */
  function Handle(g: Common.Globals, context: Value, body: Value, transport: Transport): (r: Invocation)
    requires context.Obj?
    ensures r.globals == Common.SetContext(g, context)
    ensures r.result.Threw? <==> Forwardable(body) && transport.NoResponse?
    ensures r.result.Normal? ==> (r.result.value.forwarded.Some? <==> Forwardable(body))
    ensures r.result.Normal? && r.result.value.forwarded.Some? ==> r.result.value.forwarded.value == body
  {
    var g' := Common.SetContext(g, context);
    Invocation(g',
      if !HasBody(body) then
        var log := Common.LogMessage(g', context, Str(BodyRequiredText), Str("error"));
        Normal(Run(Res(Num(400), ErrorBody(BodyRequiredText)), Logged(log), None))
      else if !FieldsPresent(body) then
        var log := Common.LogMessage(g', context, Str(InvalidBodyText), Str("error"));
        Normal(Run(Res(Num(400), ErrorBody(InvalidBodyError)), Logged(log), None))
      else
        match transport
        case Posted(status) => Normal(Run(Res(status, SuccessBody(true)), [], Some(body)))
        case PostFailed(status, detail) =>
          var log := Common.LogMessage(g', context, Str(ForwardFailedText + detail), Str("error"));
          Normal(Run(Res(status, SuccessBody(false)), Logged(log), Some(body)))
        case NoResponse => Threw(TypeError))
  }

  /** A missing or empty body: 400 with the fixed body, one error log, no forwarding. */
  lemma MissingBodyRejected(g: Common.Globals, context: Value, body: Value, transport: Transport)
    requires context.Obj?
    requires !Truthy(body)
    ensures Handle(g, context, body, transport) == Invocation(Common.Globals(context), Normal(Run(
      Res(Num(400), ErrorBody(BodyRequiredText)),
      [Common.LogEvent(Common.Error, Str(BodyRequiredText))],
      None)))
  {
  }

  /** A body without a truthy `message` or `log_level`: 400 with the fixed
      body, one error log, no forwarding. */
  lemma MissingFieldsRejected(g: Common.Globals, context: Value, body: Value, transport: Transport)
    requires context.Obj?
    requires Truthy(body) && !Forwardable(body)
    ensures Handle(g, context, body, transport) == Invocation(Common.Globals(context), Normal(Run(
      Res(Num(400), ErrorBody(InvalidBodyError)),
      [Common.LogEvent(Common.Error, Str(InvalidBodyText))],
      None)))
  {
  }

  /** The `=== ""` tests add nothing to the falsiness tests: the handler's
      checks pass exactly for the forwardable bodies. */
  lemma EmptyStringTestsRedundant(body: Value)
    ensures (HasBody(body) && FieldsPresent(body)) <==> Forwardable(body)
  {
  }

  /** A forwarded body's response carries the upstream status: `{success: true}`
      and no log on a response, `{success: false}` and one error log naming
      the failure on an axios error. */
  lemma ForwardOutcome(g: Common.Globals, context: Value, body: Value, transport: Transport)
    requires context.Obj? && Forwardable(body) && !transport.NoResponse?
    ensures var r := Handle(g, context, body, transport).result;
            r.Normal? && r.value.res.status == transport.status &&
            match transport
              case Posted(_) => r.value.res.body == SuccessBody(true) && r.value.logs == []
              case PostFailed(_, detail) =>
                r.value.res.body == SuccessBody(false) &&
                r.value.logs == [Common.LogEvent(Common.Error, Str(ForwardFailedText + detail))]
              case NoResponse => false
  {
  }

  /** A forwarded post that fails without a response throws after the
      context was stored, and before any log call or response. */
  lemma NoResponseThrowsAfterSetContext(g: Common.Globals, context: Value, body: Value)
    requires context.Obj? && Forwardable(body)
    ensures Handle(g, context, body, NoResponse) == Invocation(Common.Globals(context), Threw(TypeError))
  {
  }

  /** Any truthy `log_level` passes, for instance `"verbose"`. */
  lemma AnyLevelForwarded(g: Common.Globals, context: Value, message: string, transport: Transport)
    requires context.Obj? && message != "" && !transport.NoResponse?
    ensures var body := Obj(map["message" := Str(message), "log_level" := Str("verbose")]);
            Handle(g, context, body, transport).result.value.forwarded == Some(body)
  {
  }
}
