/**
 The shared helpers of shared/common.js: the response envelopes, the 2xx
 status test, and the decision part of `logMessage`/`setContext`. The winston
 logger is not modelled; a log call that goes through is reported as a
 `LogEvent` naming the level method it reaches and the message.
 */
module Common {
  import opened JsValues

  // ---------------------------------------------------------------------------
  // Response envelopes

  /** `{status, body, headers}` */
  datatype Envelope = Envelope(status: Value, body: Value, headers: map<string, string>)

  const JsonHeaders: map<string, string> := map["Content-Type" := "application/json"]

  /** The envelope as the JavaScript object the runtime receives. */
  function EnvelopeValue(e: Envelope): Value
  {
    Obj(map["status" := e.status, "body" := e.body,
            "headers" := Obj(map k | k in e.headers :: Str(e.headers[k]))])
  }

  /** `buildResponse(body, status = 200)`: an `undefined` status takes the default. */
  function BuildResponse(body: Value, status: Value): (r: Envelope)
    ensures r.body == body && r.headers == JsonHeaders
    ensures status != Undef ==> r.status == status
    ensures status == Undef ==> r.status == Num(200)
  {
    Envelope(if status.Undef? then Num(200) else status, body, JsonHeaders)
  }

  /** The list `buildErrorResponse` puts under `messages`: an array as it is,
      any other value (`undefined` included) wrapped in a one-element list. */
  function MessageList(messages: Value): seq<Value>
  {
    if messages.Arr? then messages.items else [messages]
  }

  /** `buildErrorResponse(context, status, messages)`; `context` is not used. */
  function BuildErrorResponse(context: Value, status: Value, messages: Value): (r: Envelope)
    ensures r.status == status && r.headers == JsonHeaders
    ensures messages.Arr? ==> r.body == Obj(map["status" := status, "messages" := messages])
    ensures !messages.Arr? ==> r.body == Obj(map["status" := status, "messages" := Arr([messages])])
  {
    var body := Obj(map["status" := status, "messages" := Arr(MessageList(messages))]);
    Envelope(status, body, JsonHeaders)
  }

  /** Feeding an error envelope's `messages` back in builds the same envelope:
      the normalisation is idempotent and keeps order. */
  lemma ErrorResponseIdempotent(context: Value, status: Value, messages: Value)
    ensures var r := BuildErrorResponse(context, status, messages);
            BuildErrorResponse(context, status, Prop(r.body, "messages")) == r
  {
  }

  // ---------------------------------------------------------------------------
  // isSuccess

  /** `status -= 200; status >= 0 && status < 100`, NaN failing both tests. */
  predicate InSuccessRange(status: Option<int>)
  {
    status.Some? && status.value - 200 >= 0 && status.value - 200 < 100
  }

  /** `isSuccess(response)`: an object-typed argument is replaced by its
      `status` property (reading it off `null` throws), then the value is
      converted to a number and tested. */
  function IsSuccess(response: Value): (r: Completion<bool>)
    ensures response.Null? <==> r.Threw?
    ensures response.Num? ==> r == Normal(200 <= response.n < 300)
    ensures response.Obj? && Prop(response, "status").Num? ==>
      r == Normal(200 <= Prop(response, "status").n < 300)
    ensures response.Arr? || response.Undef? || response.Bool? ==> r == Normal(false)
  {
    match response
    case Null => Threw(TypeError)
    case Arr(_) => Normal(InSuccessRange(ToNumber(Prop(response, "status"))))
    case Obj(_) => Normal(InSuccessRange(ToNumber(Prop(response, "status"))))
    case _ => Normal(InSuccessRange(ToNumber(response)))
  }

  /** A status given as the string form of a number is judged as the number. */
  lemma StringStatusLikeNumber(n: int)
    ensures IsSuccess(Str(ToJsString(Num(n)))) == IsSuccess(Num(n))
  {
    NumberStringRoundTrip(n);
  }

  /** An envelope from `buildResponse` is a success exactly when its status is
      2xx; the default status is. */
  lemma BuiltResponseSuccess(body: Value, status: int)
    ensures IsSuccess(EnvelopeValue(BuildResponse(body, Num(status)))) == Normal(200 <= status < 300)
    ensures IsSuccess(EnvelopeValue(BuildResponse(body, Undef))) == Normal(true)
  {
  }

  // ---------------------------------------------------------------------------
  // logMessage and setContext

  /** The winston method a message reaches. */
  datatype Level = Info | Warn | Error

  function LevelName(l: Level): string
  {
    match l
    case Info => "info"
    case Warn => "warn"
    case Error => "error"
  }

  /** The `switch (log_level)` with the default parameter `'info'`: strict
      equality with `'warn'` or `'error'` selects that method; anything else,
      `undefined` included, selects `info`. */
  function LevelOf(logLevel: Value): (r: Level)
    ensures r != Info <==> logLevel == Str("warn") || logLevel == Str("error")
    ensures r != Info ==> logLevel == Str(LevelName(r))
  {
    if logLevel == Str("warn") then Warn
    else if logLevel == Str("error") then Error
    else Info
  }

  /** Each level name selects its own level, and only level names select `warn` or `error`. */
  lemma LevelOfNames(l: Level, logLevel: Value)
    ensures LevelOf(Str(LevelName(l))) == l
    ensures LevelOf(logLevel) != Info ==> logLevel == Str(LevelName(LevelOf(logLevel)))
  {
  }

  datatype LogEvent = LogEvent(level: Level, message: Value)

  /** The module's `globalContext` variable. */
  datatype Globals = Globals(context: Value)

  const InitialGlobals: Globals := Globals(Undef)

  /** `setContext(context)` */
  function SetContext(g: Globals, context: Value): (r: Globals)
    ensures forall ctx :: !Truthy(ctx) ==> EffectiveContext(r, ctx) == context
  {
    Globals(context)
  }

  /** The context `logMessage` uses: its argument, or the stored one when the argument is falsy. */
  function EffectiveContext(g: Globals, context: Value): Value
  {
    if Truthy(context) then context else g.context
  }

  /** The result of `logMessage`: what was logged, and the returned boolean. */
  datatype LogCall = LogCall(logged: Option<LogEvent>, returned: bool)

  /** `logMessage(context, message, log_level)` */
  function LogMessage(g: Globals, context: Value, message: Value, logLevel: Value): (r: LogCall)
    ensures r.returned <==> r.logged.Some?
    ensures r.returned <==> (Truthy(context) || Truthy(g.context)) && Truthy(message)
    ensures r.logged.Some? ==> r.logged.value == LogEvent(LevelOf(logLevel), message)
  {
    var ctx := EffectiveContext(g, context);
    if Truthy(ctx) && Truthy(message) then LogCall(Some(LogEvent(LevelOf(logLevel), message)), true)
    else LogCall(None, false)
  }

  /** After `setContext(c)`, a call without a context behaves as a call given
      `c` explicitly, whatever was stored before. */
  lemma SetContextSupplies(g: Globals, c: Value, context: Value, message: Value, logLevel: Value)
    requires !Truthy(context)
    ensures LogMessage(SetContext(g, c), context, message, logLevel) == LogMessage(InitialGlobals, c, message, logLevel)
  {
  }

  /** Before any `setContext`, a call without a context logs nothing and returns false. */
  lemma NoContextNoLog(context: Value, message: Value, logLevel: Value)
    requires !Truthy(context)
    ensures LogMessage(InitialGlobals, context, message, logLevel) == LogCall(None, false)
  {
  }
}
