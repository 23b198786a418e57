/**
 * The access guard that runs before both query routes (`authenticateQuery`):
 * three checks in a fixed order, each with its own status and message.
 */
module AccessGuard {
  import opened Wrappers
  import opened JsText
  import opened Json
  import opened Http

  /** The fixed allow-list of caller e-mails (`MOCK_USERS_EMAIL`). */
  const MOCK_USERS_EMAIL: seq<JsString> :=
    [Units("admin@nasci15k.com"), Units("user@nasci15k.com"), Units("teste@nasci15k.com")]

  const BEARER_PREFIX: JsString := Units("Bearer ")

  const CREDENTIALS_MISSING: JsString := Units("Acesso negado. Credenciais de usuário ausentes.")
  const NOT_AUTHORIZED: JsString := Units("Usuário não autorizado a realizar consultas.")
  const TOKEN_MISSING: JsString := Units("Erro de Configuração: Token da API não fornecido no servidor.")

  /** The guard either lets the request through to its route or answers it itself. */
  datatype Verdict = Proceed | Deny(response: Response)

  /** The shape check: a truthy `auth_email` and a truthy header starting with `Bearer `. */
  predicate HasCredentials(req: Request)
  {
    && req.authEmail.Some? && req.authEmail.value != []
    && req.authorization.Some? && req.authorization.value != []
    && StartsWith(req.authorization.value, BEARER_PREFIX)
  }

  /** `MOCK_USERS_EMAIL.includes(authEmail)`: exact, case-sensitive membership. */
  predicate IsAllowed(email: JsString)
  {
    email in MOCK_USERS_EMAIL
  }

  /** A truthy `API_TOKEN`. */
  predicate TokenConfigured(cfg: Config)
  {
    cfg.apiToken.Some? && cfg.apiToken.value != []
  }

  /**
   * `authenticateQuery`. The first failing check decides the answer: missing
   * credentials (401) before an e-mail off the allow-list (401) before a
   * missing server token (500); a request that passes all three proceeds.
   */
  function Authenticate(cfg: Config, req: Request): (v: Verdict)
    ensures v == Deny(ErrorResponse(401, CREDENTIALS_MISSING)) <==> !HasCredentials(req)
    ensures v == Deny(ErrorResponse(401, NOT_AUTHORIZED))
        <==> HasCredentials(req) && !IsAllowed(req.authEmail.value)
    ensures v == Deny(ErrorResponse(500, TOKEN_MISSING))
        <==> HasCredentials(req) && IsAllowed(req.authEmail.value) && !TokenConfigured(cfg)
    ensures v.Proceed?
        <==> HasCredentials(req) && IsAllowed(req.authEmail.value) && TokenConfigured(cfg)
  {
    if !HasCredentials(req) then Deny(ErrorResponse(401, CREDENTIALS_MISSING))
    else if !IsAllowed(req.authEmail.value) then Deny(ErrorResponse(401, NOT_AUTHORIZED))
    else if !TokenConfigured(cfg) then Deny(ErrorResponse(500, TOKEN_MISSING))
    else Proceed
  }

  /**
   * Only the `Bearer ` prefix of the header is inspected: two headers with
   * that prefix lead to the same verdict, whatever follows it.
   */
  lemma BearerValueIgnored(cfg: Config, req: Request, suffix1: JsString, suffix2: JsString)
    ensures Authenticate(cfg, req.(authorization := Some(BEARER_PREFIX + suffix1)))
         == Authenticate(cfg, req.(authorization := Some(BEARER_PREFIX + suffix2)))
  {
    assert (BEARER_PREFIX + suffix1)[..|BEARER_PREFIX|] == BEARER_PREFIX;
    assert (BEARER_PREFIX + suffix2)[..|BEARER_PREFIX|] == BEARER_PREFIX;
  }

  /** The prefix is case-sensitive: a `bearer ` header is refused as missing credentials. */
  lemma LowerCaseBearerRefused(cfg: Config, email: JsString, rest: JsString)
    ensures Authenticate(cfg, Request(Some(email), Some(Units("bearer ") + rest), None, None))
         == Deny(ErrorResponse(401, CREDENTIALS_MISSING))
  {
    var h := Units("bearer ") + rest;
    assert h[0] != BEARER_PREFIX[0];
  }

  /** The allow-list comparison is exact: a differently cased address is not on it. */
  lemma AllowListCaseSensitive(cfg: Config, header: JsString)
    requires StartsWith(header, BEARER_PREFIX)
    ensures Authenticate(cfg, Request(Some(Units("Admin@nasci15k.com")), Some(header), None, None))
         == Deny(ErrorResponse(401, NOT_AUTHORIZED))
  {
    var e := Units("Admin@nasci15k.com");
    assert e[0] != MOCK_USERS_EMAIL[0][0];
    assert e[0] != MOCK_USERS_EMAIL[1][0];
    assert e[0] != MOCK_USERS_EMAIL[2][0];
  }
}
