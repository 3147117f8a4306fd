/** The API Gateway proxy event and result the two Lambda handlers exchange. A body is
    kept as the value JSON.stringify is given, not as the string it produces. */
module Http {
  import opened JsValues

  /** The parts of the incoming event the handlers read. API Gateway gives the body as a
      string or null; `pathParameters` is null when the route has none. */
  datatype Event = Event(httpMethod: string, body: JsValue, pathParameters: Option<map<string, string>>)

  type Headers = map<string, string>

  /** What a response body carries besides the success flag and the message: the `data`
      of a success, the `error` of a failure, the `errors` of a rejected input. */
  datatype Payload = Data(data: JsValue) | Cause(error: JsValue) | ErrorList(errors: seq<string>)

  /** The empty body of a preflight answer, or the `{ success, message, ... }` object. */
  datatype Body = Empty | Envelope(success: bool, message: string, payload: Payload)

  datatype Response = Response(statusCode: int, headers: Headers, body: Body)

  const AllowOrigin := "Access-Control-Allow-Origin"
  const AllowHeaders := "Access-Control-Allow-Headers"
  const AllowMethods := "Access-Control-Allow-Methods"
  const ContentType := "Content-Type"

  /** The request headers a browser may send, as both handlers and the helper list them. */
  const AllowedRequestHeaders := "Content-Type,X-Amz-Date,Authorization,X-Api-Key,X-Amz-Security-Token"

  /** The failure texts both handlers answer with. */
  const UnavailableMessage := "Error al conectar con la base de datos. Por favor, intenta nuevamente."
  const InternalMessage := "Error interno del servidor"

  /** The answer to a CORS preflight: 200, an empty body and the three CORS headers, with
      `methods` as the allowed methods and no Content-Type. */
  function Preflight(methods: string): (r: Response)
    ensures r.statusCode == 200 && r.body == Empty
    ensures r.headers.Keys == {AllowOrigin, AllowHeaders, AllowMethods}
    ensures r.headers[AllowOrigin] == "*" && r.headers[AllowMethods] == methods
  {
    Response(200, map[AllowOrigin := "*", AllowHeaders := AllowedRequestHeaders, AllowMethods := methods], Empty)
  }
}
