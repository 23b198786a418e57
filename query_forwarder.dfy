/**
 * The two query routes behind the guard, `/cpf-basica` and `/nome-basica`:
 * input validation, the upstream URL, and the translation of what the
 * upstream call produced into the client's response. The upstream call
 * itself is a parameter: a function from the URL requested to its outcome.
 */
module QueryForwarder {
  import opened Wrappers
  import opened JsText
  import opened Json
  import opened Http
  import opened AccessGuard
  import opened UriComponent

  /** `API_BASE_URL`. */
  const API_BASE_URL: JsString := Units("https://api.fetchbrasil.pro/")

  const CPF_INVALID: JsString := Units("CPF deve ter 11 dígitos.")
  const NAME_TOO_SHORT: JsString := Units("Nome deve ter pelo menos 5 caracteres (após formatação).")
  const NOT_FOUND_FALLBACK: JsString := Units("Dados não encontrados ou erro na API externa.")
  const UPSTREAM_FAILURE: JsString := Units("Erro interno ao se comunicar com a API de dados.")

  const MESSAGE_KEY: JsString := Units("message")
  const DETAILS_KEY: JsString := Units("details")
  const DADOS_KEY: JsString := Units("DADOS")
  const RESULTADOS_KEY: JsString := Units("RESULTADOS")

  /** V8's TypeError for `req.body.nome.trim()` when `nome` is undefined. */
  const TRIM_OF_UNDEFINED: JsError :=
    JsError(Units("TypeError"), Units("Cannot read properties of undefined (reading 'trim')"))

  /** V8's TypeError message for `data.error` when the upstream body is `null`. */
  const ERROR_OF_NULL: JsString := Units("Cannot read properties of null (reading 'error')")

  datatype Route = CpfBasica | NomeBasico

  /** What awaiting `fetch(url)` and `response.json()` produced: a value, or the message of what they threw. */
  datatype Outcome = Parsed(data: Json) | Threw(message: JsString)

  /** A handler either sends a response or lets an exception escape it (raised outside its `try`). */
  datatype Reply = Sent(response: Response) | Escaped(error: JsError)

  /** One request's handling: the upstream URL fetched, if any, and the reply. */
  datatype Exchange = Exchange(fetched: Option<JsString>, reply: Reply)

  /** The name route's input step: the encoded query, a 400 answer, or an escaping exception. */
  datatype NameInput = NameQuery(query: JsString) | NameRejected(response: Response) | NameRaised(error: JsError)

  /**
   * The CPF check: only the length is examined, so any 11-unit string is
   * accepted and passed on as it is; everything else, absent included, is
   * answered with 400.
   */
  function ValidateCpf(cpf: Option<JsString>): (r: Result<JsString, Response>)
    ensures r.Ok? <==> cpf.Some? && |cpf.value| == 11
    ensures r.Ok? ==> r.value == cpf.value
    ensures r.Err? ==> r.error == ErrorResponse(400, CPF_INVALID)
  {
    if cpf.None? || cpf.value == [] || |cpf.value| != 11 then Err(ErrorResponse(400, CPF_INVALID))
    else Ok(cpf.value)
  }

  /**
   * The name step: `encodeURIComponent(nome.trim())`, then the length check
   * on the encoded text. An absent name or an unpaired surrogate raises
   * before the handler's `try`; an encoding shorter than 5 units gives 400.
   * An accepted query decodes back to the trimmed name, so every trimmed
   * name of 5 or more units without an unpaired surrogate is accepted.
   */
  function PrepareName(nome: Option<JsString>): (r: NameInput)
    ensures nome.None? ==> r == NameRaised(TRIM_OF_UNDEFINED)
    ensures nome.Some? ==> (r.NameRaised? <==> !WellFormedUtf16(Trim(nome.value)))
    ensures nome.Some? && r.NameRaised? ==> r.error == URI_MALFORMED
    ensures r.NameRejected? ==>
              && r.response == ErrorResponse(400, NAME_TOO_SHORT)
              && nome.Some? && Encode(Trim(nome.value)).Ok? && |Encode(Trim(nome.value)).value| < 5
    ensures r.NameQuery? ==>
              && nome.Some? && Encode(Trim(nome.value)) == Ok(r.query)
              && 5 <= |r.query| && UriSafe(r.query)
              && Decode(r.query) == Some(Trim(nome.value))
    ensures nome.Some? && WellFormedUtf16(Trim(nome.value)) && |Trim(nome.value)| >= 5 ==> r.NameQuery?
  {
    if nome.None? then NameRaised(TRIM_OF_UNDEFINED)
    else
      var trimmed := Trim(nome.value);
      EncodeOkIffWellFormed(trimmed);
      match Encode(trimmed)
      case Err(e) => NameRaised(e)
      case Ok(q) =>
        DecodeEncode(trimmed);
        if q == [] || |q| < 5 then NameRejected(ErrorResponse(400, NAME_TOO_SHORT))
        else NameQuery(q)
  }

  /** The CPF route's upstream URL: the token and the CPF are spliced in without encoding. */
  function CpfUrl(token: JsString, cpf: JsString): JsString
  {
    API_BASE_URL + Units("?token=") + token + Units("&api=cpf_basica&query=") + cpf
  }

  /** The name route's upstream URL, carrying the already encoded name. */
  function NameUrl(token: JsString, encodedName: JsString): JsString
  {
    API_BASE_URL + Units("?token=") + token + Units("&api=nome_basico&query=") + encodedName
  }

  /** The 500 answer for a failed upstream call, with the failure's message as `details`. */
  function UpstreamFailure(details: JsString): (r: Response)
    ensures r.status == 500 && r.body.JObject?
    ensures Property(r.body, ERROR_KEY) == Some(JString(UPSTREAM_FAILURE))
    ensures Property(r.body, DETAILS_KEY) == Some(JString(details))
  {
    var members := [(ERROR_KEY, JString(UPSTREAM_FAILURE)), (DETAILS_KEY, JString(details))];
    assert |DETAILS_KEY| != |ERROR_KEY|;
    assert members[..1] == [(ERROR_KEY, JString(UPSTREAM_FAILURE))];
    assert Member(members[..1], ERROR_KEY) == Some(JString(UPSTREAM_FAILURE));
    Response(500, JObject(members))
  }

  /** `data.message || fallback`. */
  function UpstreamMessage(data: Json): (m: Json)
    requires !data.JNull?
    ensures Truthy(m)
    ensures TruthyProperty(data, MESSAGE_KEY) ==> Some(m) == Property(data, MESSAGE_KEY)
    ensures !TruthyProperty(data, MESSAGE_KEY) ==> m == JString(NOT_FOUND_FALLBACK)
  {
    if TruthyProperty(data, MESSAGE_KEY) then Property(data, MESSAGE_KEY).value
    else JString(NOT_FOUND_FALLBACK)
  }

  /** The route's "not found" body: `{DADOS: null, error}` or `{RESULTADOS: [], error}`. */
  function NotFoundBody(route: Route, message: Json): (body: Json)
    ensures body.JObject? && Property(body, ERROR_KEY) == Some(message)
  {
    match route
    case CpfBasica => JObject([(DADOS_KEY, JNull), (ERROR_KEY, message)])
    case NomeBasico => JObject([(RESULTADOS_KEY, JArray([])), (ERROR_KEY, message)])
  }

  /**
   * The response for an upstream outcome. A thrown fetch or parse error, or
   * a `null` body (reading its `error` throws inside the `try`), gives 500
   * with details; a body with a truthy `error` gives 404 with the route's
   * empty payload and a truthy message; any other body is passed through
   * unchanged with 200. The upstream's own HTTP status plays no part.
   */
  function Translate(route: Route, outcome: Outcome): (r: Response)
    ensures r.status in {200, 404, 500}
    ensures outcome.Threw? ==> r == UpstreamFailure(outcome.message)
    ensures outcome == Parsed(JNull) ==> r == UpstreamFailure(ERROR_OF_NULL)
    ensures outcome.Parsed? && !outcome.data.JNull? ==>
              && (r.status == 404 <==> TruthyProperty(outcome.data, ERROR_KEY))
              && (r.status == 200 <==> !TruthyProperty(outcome.data, ERROR_KEY))
              && (r.status == 200 ==> r.body == outcome.data)
              && (r.status == 404 ==> r.body == NotFoundBody(route, UpstreamMessage(outcome.data)))
    ensures r.status == 404 ==> Property(r.body, ERROR_KEY).Some? && Truthy(Property(r.body, ERROR_KEY).value)
  {
    match outcome
    case Threw(message) => UpstreamFailure(message)
    case Parsed(data) =>
      if data.JNull? then UpstreamFailure(ERROR_OF_NULL)
      else if TruthyProperty(data, ERROR_KEY) then Response(404, NotFoundBody(route, UpstreamMessage(data)))
      else Response(200, data)
  }

  /**
   * POST /cpf-basica behind the guard. A request the guard or the CPF check
   * refuses is answered without any upstream call; an accepted one causes
   * exactly one call, to the CPF URL, whose outcome is translated. No
   * exception escapes this route.
   */
  function HandleCpf(cfg: Config, req: Request, upstream: JsString -> Outcome): (x: Exchange)
    ensures x.reply.Sent?
    ensures Authenticate(cfg, req).Deny? ==> x == Exchange(None, Sent(Authenticate(cfg, req).response))
    ensures Authenticate(cfg, req).Proceed? && ValidateCpf(req.cpf).Err? ==>
              x == Exchange(None, Sent(ErrorResponse(400, CPF_INVALID)))
    ensures x.fetched.Some? <==> Authenticate(cfg, req).Proceed? && ValidateCpf(req.cpf).Ok?
    ensures x.fetched.Some? ==>
              && x.fetched.value == CpfUrl(cfg.apiToken.value, req.cpf.value)
              && x.reply == Sent(Translate(CpfBasica, upstream(x.fetched.value)))
  {
    match Authenticate(cfg, req)
    case Deny(response) => Exchange(None, Sent(response))
    case Proceed =>
      match ValidateCpf(req.cpf)
      case Err(response) => Exchange(None, Sent(response))
      case Ok(cpf) =>
        var url := CpfUrl(cfg.apiToken.value, cpf);
        Exchange(Some(url), Sent(Translate(CpfBasica, upstream(url))))
  }

  /**
   * POST /nome-basica behind the guard. The guard answers first, so a
   * refused request never reaches the name step; an absent name or an
   * unpaired surrogate then escapes the handler; a short encoding gives 400;
   * otherwise exactly one call goes to the name URL with the encoded name.
   */
  function HandleNome(cfg: Config, req: Request, upstream: JsString -> Outcome): (x: Exchange)
    ensures Authenticate(cfg, req).Deny? ==> x == Exchange(None, Sent(Authenticate(cfg, req).response))
    ensures Authenticate(cfg, req).Proceed? && req.nome.None? ==> x == Exchange(None, Escaped(TRIM_OF_UNDEFINED))
    ensures Authenticate(cfg, req).Proceed? && PrepareName(req.nome).NameRejected? ==>
              x == Exchange(None, Sent(ErrorResponse(400, NAME_TOO_SHORT)))
    ensures x.reply.Escaped? <==> Authenticate(cfg, req).Proceed? && PrepareName(req.nome).NameRaised?
    ensures x.reply.Escaped? ==> x.fetched.None? && x.reply.error == PrepareName(req.nome).error
    ensures x.fetched.Some? <==> Authenticate(cfg, req).Proceed? && PrepareName(req.nome).NameQuery?
    ensures x.fetched.Some? ==>
              && x.fetched.value == NameUrl(cfg.apiToken.value, PrepareName(req.nome).query)
              && x.reply == Sent(Translate(NomeBasico, upstream(x.fetched.value)))
  {
    match Authenticate(cfg, req)
    case Deny(response) => Exchange(None, Sent(response))
    case Proceed =>
      match PrepareName(req.nome)
      case NameRaised(e) => Exchange(None, Escaped(e))
      case NameRejected(response) => Exchange(None, Sent(response))
      case NameQuery(q) =>
        var url := NameUrl(cfg.apiToken.value, q);
        Exchange(Some(url), Sent(Translate(NomeBasico, upstream(url))))
  }
}
