# Nasci15k data query proxy — a Dafny model

The proxy (`server.js`) puts two lookups of the FetchBrasil Pro data API
behind an access guard:

- `POST /api/v1/query/cpf-basica` takes a CPF.
- `POST /api/v1/query/nome-basica` takes a name.

For each request the proxy does four things:

1. It checks the caller's credentials against a fixed e-mail allow-list.
2. It validates the input.
3. It builds the upstream URL and splices in the server's API token.
4. It turns whatever the single upstream call produced into a 200, 404 or
   500 answer.

This project models that logic as pure functions and proves properties about
it. The modules are:

- `Wrappers`: `Option` and `Result`.
- `JsText`: JavaScript strings as UTF-16 code-unit sequences. It has
  `String.prototype.trim`, `startsWith`, surrogate pairs and well-formed UTF-16.
- `UriComponent`: `encodeURIComponent`. It is paired with
  `decodeURIComponent` so the model can state what the encoding keeps.
- `Json`: the values `response.json()` yields, with JavaScript truthiness and
  property reads.
- `Http`: the request fields the server reads, its configuration (the API
  token) and the responses `{ error: ... }`.
- `AccessGuard`: `authenticateQuery`.
- `QueryString`: how a receiver splits a URL's query into `name=value` pairs.
  It is a reference reading, used to state what the upstream receives.
- `QueryForwarder`: the two route handlers.
  - Their inputs are the configuration, the request, and the upstream call,
    given as a function from URL to outcome.
  - A handler returns the URL it fetched, if any, and either the response it
    sent or the exception that escaped it.
- `ForwarderProperties`: lemmas that relate several calls or pin down the
  behaviour on particular inputs.

Some of the code's behaviour is easy to misread; the model follows the code:

- A successful lookup is always answered with status 200. The upstream's own
  HTTP status is never consulted.
- An upstream body of `null` ends in the 500 branch. Reading `data.error`
  throws inside the `try`.
- A missing `nome` never reaches the 400 branch. `req.body.nome.trim()`
  runs before the handler's `try`, so the TypeError escapes the handler. A
  name whose trimmed text holds an unpaired surrogate never reaches it
  either: `encodeURIComponent` raises URIError, which escapes the same way.
  What the client then sees is left out (see below).
- The name route checks the length of the encoded name, not of the name
  itself. `"a b"` (3 characters) is accepted as `a%20b`.
- The CPF is spliced into the URL unencoded. `0&api=extra` passes the
  11-character check and adds a second `api` parameter.

## Model

| member | source | states |
|---|---|---|
| JsText.TrimStart | server.js:100 | the result is a suffix of the input; every unit removed in front is whitespace; the result does not start with whitespace |
| JsText.TrimEnd | server.js:100 | the result is a prefix of the input; every unit removed at the end is whitespace; the result does not end with whitespace |
| JsText.Trim | server.js:100 | `nome.trim()` neither starts nor ends with ECMAScript whitespace or a line terminator |
| JsText.TrimIsInnerSlice | server.js:100 | the trimmed name is the contiguous slice of the input that starts after the leading whitespace |
| JsText.TrimDropsOnlyWhitespace | server.js:100 | everything trim removes, before and after the slice, is whitespace |
| JsText.TrimIdempotent | server.js:100 | trimming twice is the same as trimming once |
| JsText.TrimKeepsUnpadded | server.js:100 | a name that neither starts nor ends with whitespace is left unchanged |
| JsText.TrimDropsTrailing | server.js:100 | whitespace appended to an unpadded name is removed again |
| UriComponent.Escape | server.js:100 | one octet becomes `%` and two upper-case hexadecimal digits, and reading the escape back gives the octet |
| UriComponent.Escapes | server.js:100 | n octets become 3n units, each unreserved or `%`; `ReadEscapesRoundTrip` reads the octets back |
| UriComponent.Utf8 | server.js:100 | a code point's UTF-8 form has 1 to 4 octets, and 1 exactly when the code point is ASCII |
| UriComponent.Encode | server.js:100 | `encodeURIComponent`: a success is at least as long as its input and holds only unreserved units and `%`; the only failure is URIError "URI malformed" |
| UriComponent.EncodeOkIffWellFormed | server.js:100 | the encoding succeeds exactly when the trimmed name has no unpaired surrogate |
| UriComponent.DecodeEncode | server.js:100 | `decodeURIComponent` of a successful encoding gives back the original string |
| UriComponent.EncodeInjective | server.js:100 | two names with the same encoding are the same name |
| UriComponent.EncodeKeepsUnreserved | server.js:100 | a string made only of unreserved characters is its own encoding |
| UriComponent.UriSafeHasNoDelimiters | server.js:108 | an encoded name holds no `&`, `#` or `=`, so it cannot add or split a query parameter |
| Json.Member | server.js:80 | reading a member gives undefined exactly when the key is absent; otherwise the value of its last occurrence |
| Json.Property | server.js:80 | reading a property of a non-object, non-null value gives undefined |
| Http.ErrorResponse | server.js:34 | `res.status(s).json({ error: m })` has status `s` and an `error` property equal to `m` |
| AccessGuard.Authenticate | server.js:29-46 | the checks run in order, each as an if-and-only-if: 401 for missing credentials (falsy `auth_email`, or a header that is falsy or lacks the `Bearer ` prefix); 401 for an e-mail off the allow-list; 500 for a missing token; otherwise the request proceeds |
| AccessGuard.BearerValueIgnored | server.js:33 | only the `Bearer ` prefix of the header is looked at; what follows it never changes the verdict |
| AccessGuard.LowerCaseBearerRefused | server.js:33 | the prefix check is case-sensitive: a `bearer ` header counts as missing credentials |
| AccessGuard.AllowListCaseSensitive | server.js:37-39 | the allow-list test is exact: `Admin@nasci15k.com` is refused with 401 |
| QueryForwarder.ValidateCpf | server.js:60-64 | a CPF is accepted exactly when it is present and 11 units long, and is passed on unchanged; anything else gets 400 with the CPF message |
| QueryForwarder.PrepareName | server.js:100-104 | `encodeURIComponent(nome.trim())` and the length check. An absent `nome` raises the TypeError of reading `trim` of undefined. Otherwise the step raises exactly when the trimmed name has an unpaired surrogate, and then with URIError. A 400 means the encoding succeeded with fewer than 5 units. An accepted query is the encoding of the trimmed name, has at least 5 units, is URI-safe and decodes back to the trimmed name. Every well-formed trimmed name of 5 or more units is accepted |
| QueryForwarder.UpstreamFailure | server.js:88-91 | the 500 answer carries the fixed error text and the failure's message as `details` |
| QueryForwarder.UpstreamMessage | server.js:82 | `data.message` when it is truthy, the fallback text otherwise; always truthy |
| QueryForwarder.NotFoundBody | server.js:82 | the 404 body `{DADOS: null, error}` (and `{RESULTADOS: [], error}` at line 121) carries the given message as `error` |
| QueryForwarder.Translate | server.js:77-91 | the status is always 200, 404 or 500. A fetch or parse failure gives 500 with its message, and so does a `null` body. For any other body, 404 exactly when its `error` is truthy, with the route's body and a truthy `error`; otherwise 200 with the body unchanged. Lines 117-130 repeat this code for the name route |
| QueryForwarder.HandleCpf | server.js:59-92 | a guard refusal is sent as is and a bad CPF gets 400, both without an upstream call. A fetch happens exactly when the guard and the CPF check both pass. It goes to the CPF URL, and the reply is the translation of that URL's outcome. No exception escapes |
| QueryForwarder.HandleNome | server.js:98-131 | a guard refusal is sent without an upstream call. Past the guard, a rejected name gets 400 with the name message, without a call. An exception escapes exactly when the guard passes and the name step raises, and it is the name step's error: TypeError for an absent name, URIError for an unpaired surrogate. A fetch happens exactly when the name is accepted. It goes to the name URL with the encoded name, and the reply is the translation of that URL's outcome |
| QueryForwarder.CpfUrl | server.js:68 | the CPF route's URL template; its meaning is stated by `ForwarderProperties.TemplatePairs`, `ForwarderProperties.CpfUrlPairs` and `ForwarderProperties.CpfSplicedUnencoded` |
| QueryForwarder.NameUrl | server.js:108 | the name route's URL template; its meaning is stated by `ForwarderProperties.TemplatePairs`, `ForwarderProperties.NameQueryPairs` and `ForwarderProperties.NameUrlPairs` |
| Json.Truthy | server.js:80 | ECMAScript ToBoolean on a parsed value, as used by `data.error` (line 80) and `data.message \|\| ...` (line 82) |
| JsText.StartsWith | server.js:33 | `authHeader.startsWith('Bearer ')`; `AccessGuard.BearerValueIgnored` and `AccessGuard.LowerCaseBearerRefused` state its effect on the guard |
| AccessGuard.IsAllowed | server.js:37 | `MOCK_USERS_EMAIL.includes(authEmail)`, exact membership; `AccessGuard.AllowListCaseSensitive` states its effect on the guard |
| QueryString.JoinPairs | server.js:68 | reading back a query written from pairs gives those pairs, when every name is non-empty without `&`, `#` or `=` and every value is without `&` or `#` |
| ForwarderProperties.TemplatePairs | server.js:68 | a URL built by either route's template reads as exactly the three parameters `token`, `api`, `query`, as long as the spliced values hold no `&` or `#` |
| ForwarderProperties.CpfUrlPairs | server.js:68 | when neither the token nor the CPF holds `&` or `#`, the CPF URL carries exactly the token, `api=cpf_basica` and the CPF as sent |
| ForwarderProperties.NameQueryPairs | server.js:108 | when the token holds no `&` or `#`, any percent-encoded query leaves the name URL with exactly its three parameters |
| ForwarderProperties.NameUrlPairs | server.js:108 | when the token holds no `&` or `#`, an accepted name gives the upstream exactly three parameters, and `query` decodes to the trimmed name |
| ForwarderProperties.CpfSplicedUnencoded | server.js:62-68 | when the token holds no `&` or `#`, the CPF `0&api=extra` is accepted, and the upstream then reads four parameters: `query=0` and a second `api=extra` |
| ForwarderProperties.CpfLettersAccepted | server.js:62 | `abcdefghijk` passes the CPF check: digits are not required |
| ForwarderProperties.CpfTenUnitsRefused | server.js:62 | a 10-unit CPF gets 400 |
| ForwarderProperties.PreparedQuery | server.js:100-104 | a name whose trimmed encoding has at least 5 units is accepted with that encoding as its query |
| ForwarderProperties.PreparedRejected | server.js:102-104 | a name whose trimmed encoding has fewer than 5 units gets 400 |
| ForwarderProperties.PreparedRaised | server.js:100 | a name whose trimmed form is not well-formed UTF-16 raises URIError |
| ForwarderProperties.ShortNameRefused | server.js:102-104 | a name of fewer than 5 unreserved characters, such as `Ana`, gets 400 |
| ForwarderProperties.ShortNameRouteRefused | server.js:98-104 | at the route, a caller past the guard who sends a name of fewer than 5 unreserved characters, such as `Ana`, gets 400 and no upstream call |
| ForwarderProperties.TrailingSpaceTrimmed | server.js:100-104 | a trailing space (`"Maria "`) is trimmed before encoding, and the name is accepted as `Maria` |
| ForwarderProperties.EncodedLengthCounts | server.js:100-104 | a 3-character name `x y` encodes to the 5 units `x%20y` and is accepted: length is checked after encoding |
| ForwarderProperties.EncodeInnerSpace | server.js:100 | in `x y`, only the space is escaped, as `%20` |
| ForwarderProperties.LoneSurrogateRaises | server.js:100 | a name that is a lone high surrogate raises URIError "URI malformed" |
| ForwarderProperties.GuardAnswersBeforeName | server.js:53 | the guard runs first, so a request with no credentials and no name gets 401, not the name route's TypeError |
| ForwarderProperties.UnfetchedIgnoresUpstream | server.js:59-131 | a request answered without an upstream call is answered the same whatever the upstream would return |
| ForwarderProperties.UpstreamErrorExample | server.js:80-82 | `{error: true, message: "x"}` gives 404 with `{DADOS: null, error: "x"}` or `{RESULTADOS: [], error: "x"}` |
| ForwarderProperties.UpstreamErrorWithoutMessage | server.js:82 | a truthy `error` with an empty `message` gets the fallback text |
| ForwarderProperties.FalsyErrorPassesThrough | server.js:80-86 | `error: false` is not an error: the body goes back unchanged with 200 |

## Left out

- Express wiring is not modelled: the router, CORS, `express.json()`, `app.listen`, the liveness route `GET /` and the port.
- server.js:2 is read as the evidently intended `const cors = require('cors')`. As written, `const cors = require = require('cors')` rebinds the module's `require` to the CORS middleware factory. Then lines 3-4 load that factory instead of `dotenv` and `node-fetch`, and `dotenv.config()` at line 7 throws a TypeError before the server starts. The handlers are modelled as if the modules had loaded; `fetch` is the `upstream` parameter in any case.
- Loading `.env` is not modelled. The token is the `Config` value the handlers receive.
- The network call and JSON parsing are not modelled.
  - `fetch` and `response.json()` are the `upstream` parameter, which yields either a parsed value or the message of what was thrown.
  - The request method and `Content-Type` header sent upstream are not modelled.
  - `node-fetch`'s own URL normalisation is not modelled.
- `console.error` / `console.log` logging is left out.
- `async`/`await` and concurrency are left out. Each request is modelled as one evaluation.
- What Express or Node does with an exception that escapes an async handler is left out. It depends on their versions; the model stops at `Escaped(error)`.
- Request body fields are modelled as strings or absent. JSON numbers, arrays or objects sent as `auth_email`, `cpf` or `nome` are not modelled: they would reach `.length`, `.trim` or `includes` as other types.
- JSON numbers are exact reals, without IEEE-754 rounding. Only their truthiness matters here.
- `Json.JObject` stands for a parsed value: reading a member resolves repeated keys as `JSON.parse` does (the last occurrence wins). The 200 reply returns that value as is. How `res.json()` serialises it is not modelled: one member per key, with integer-like keys first. So `{"b":1,"1":2,"b":3}` reaches the client as `{"1":2,"b":3}`.
- `JsText.Units` turns a Dafny string literal into code units and maps a character outside the Basic Multilingual Plane to U+FFFD. Every literal in the model lies in that plane.
- Exception message texts (`URI malformed`, `Cannot read properties of ...`) are V8's wording. The language standard fixes only the error type.
- `Json.Property` gives the own member of an object and undefined for strings, numbers, booleans and arrays. This is exact for the keys the handlers read (`error`, `message`), which no built-in prototype defines. It is not a general model of JavaScript property lookup.
