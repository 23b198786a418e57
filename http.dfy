/**
 * What one request to the proxy carries and what it answers: the request
 * fields the handlers read, the server's configuration, and a JSON response.
 */
module Http {
  import opened Wrappers
  import opened JsText
  import opened Json

  /** Process configuration: the upstream API token (`API_TOKEN`), read once at start-up. */
  datatype Config = Config(apiToken: Option<JsString>)

  /**
   * The parts of a request the server reads: `auth_email`, `cpf` and `nome`
   * from the JSON body and the `Authorization` header; `None` is undefined.
   */
  datatype Request = Request(
    authEmail: Option<JsString>,
    authorization: Option<JsString>,
    cpf: Option<JsString>,
    nome: Option<JsString>)

  /** `res.status(status).json(body)`. */
  datatype Response = Response(status: int, body: Json)

  const ERROR_KEY: JsString := Units("error")

  /** A response whose body is `{ error: message }`. */
  function ErrorResponse(status: int, message: JsString): (r: Response)
    ensures r.status == status
    ensures r.body.JObject? && Property(r.body, ERROR_KEY) == Some(JString(message))
  {
    Response(status, JObject([(ERROR_KEY, JString(message))]))
  }
}
