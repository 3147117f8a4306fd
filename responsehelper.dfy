/** ResponseHelper: builds the JSON responses of both handlers, always with the same CORS
    headers and a `{ success, message, ... }` envelope. */
module ResponseHelper {
  import opened JsValues
  import opened Http

  const DefaultSuccessMessage := "Operación exitosa"
  const ValidationFailedMessage := "Errores de validación"

  /** getCorsHeaders: JSON content, any origin, and POST and OPTIONS as the allowed
      methods whichever handler answers. */
  function CorsHeaders(): Headers {
    map[
      ContentType := "application/json",
      AllowOrigin := "*",
      AllowHeaders := AllowedRequestHeaders,
      AllowMethods := "POST,OPTIONS"
    ]
  }

  /** `error?.message || error`: the cause's message when it is truthy, otherwise the
      cause itself (undefined when no cause is given). */
  function ErrorDetail(error: JsValue): (r: JsValue)
    ensures Truthy(Get(error, "message")) ==> r == Get(error, "message")
    ensures !Truthy(Get(error, "message")) ==> r == error
  {
    var message := Get(error, "message");
    if Truthy(message) then message else error
  }

  /** success(data, message?, statusCode?); an omitted argument is None and takes its
      default. */
  function Success(data: JsValue, message: Option<string>, statusCode: Option<int>): (r: Response)
    ensures r.headers == CorsHeaders()
    ensures r.statusCode == (if statusCode.Some? then statusCode.value else 200)
    ensures r.body.Envelope? && r.body.success && r.body.payload == Data(data)
    ensures r.body.message == (if message.Some? then message.value else DefaultSuccessMessage)
  {
    var text := if message.Some? then message.value else DefaultSuccessMessage;
    var status := if statusCode.Some? then statusCode.value else 200;
    Response(status, CorsHeaders(), Envelope(true, text, Data(data)))
  }

  /** error(message, statusCode?, error?); an omitted cause is Undefined. */
  function Error(message: string, statusCode: Option<int>, error: JsValue): (r: Response)
    ensures r.headers == CorsHeaders()
    ensures r.statusCode == (if statusCode.Some? then statusCode.value else 500)
    ensures r.body.Envelope? && !r.body.success && r.body.message == message
    ensures r.body.payload == Cause(ErrorDetail(error))
  {
    var status := if statusCode.Some? then statusCode.value else 500;
    Response(status, CorsHeaders(), Envelope(false, message, Cause(ErrorDetail(error))))
  }

  /** validationError(errors) */
  function ValidationError(errors: seq<string>): (r: Response)
    ensures r.headers == CorsHeaders()
    ensures r.statusCode == 400
    ensures r.body.Envelope? && !r.body.success && r.body.message == ValidationFailedMessage
    ensures r.body.payload == ErrorList(errors)
  {
    Response(400, CorsHeaders(), Envelope(false, ValidationFailedMessage, ErrorList(errors)))
  }

  // ---------------------------------------------------------------------------
  // Properties over all three builders

  /** A call of one of the three builders, with its arguments. */
  datatype Call =
    | SuccessCall(data: JsValue, message: Option<string>, statusCode: Option<int>)
    | ErrorCall(text: string, code: Option<int>, cause: JsValue)
    | ValidationErrorCall(errors: seq<string>)

  function Respond(c: Call): Response {
    match c
    case SuccessCall(data, message, statusCode) => Success(data, message, statusCode)
    case ErrorCall(text, code, cause) => Error(text, code, cause)
    case ValidationErrorCall(errors) => ValidationError(errors)
  }

  /** Every helper response carries the same headers, with any origin and POST,OPTIONS
      allowed, and an envelope whose success flag is set exactly by success. */
  lemma SuccessFlagOnlyFromSuccess(c: Call)
    ensures Respond(c).headers == CorsHeaders()
    ensures Respond(c).headers[AllowOrigin] == "*" && Respond(c).headers[AllowMethods] == "POST,OPTIONS"
    ensures Respond(c).body.Envelope?
    ensures Respond(c).body.success <==> c.SuccessCall?
  {
  }

  /** The payload hands back what the caller gave: the data of a success and the error
      list of a rejection unchanged. */
  lemma PayloadKeepsArguments(c: Call)
    ensures c.SuccessCall? ==> Respond(c).body.payload.Data? && Respond(c).body.payload.data == c.data
    ensures c.ValidationErrorCall? ==> Respond(c).body.payload.ErrorList? && Respond(c).body.payload.errors == c.errors
    ensures c.ErrorCall? ==> Respond(c).body.payload.Cause?
  {
  }

  /** For a thrown Error the `error` field is its message, unless the message is empty,
      in which case it is the error object itself; without a cause it is undefined. */
  lemma ErrorDetailOfError(e: JsError)
    ensures ErrorDetail(ErrorValue(e)) == if e.message != "" then Str(e.message) else ErrorValue(e)
    ensures ErrorDetail(Undefined) == Undefined
  {
  }
}
