/**
 * Properties of the query routes that relate several calls or pin down the
 * behaviour on particular inputs.
 */
module ForwarderProperties {
  import opened Wrappers
  import opened JsText
  import opened Json
  import opened Http
  import opened AccessGuard
  import opened UriComponent
  import opened QueryString
  import opened QueryForwarder

  lemma UnitsAppend(a: string, b: string)
    ensures Units(a + b) == Units(a) + Units(b)
  {
  }

  lemma TokenPrefix()
    ensures Units("?token=") == [QUESTION] + Units("token") + [EQUALS]
  {
    assert "?token=" == "?" + "token" + "=";
    UnitsAppend("?" + "token", "=");
    UnitsAppend("?", "token");
  }

  lemma ApiInfix(api: string)
    ensures Units("&api=" + api + "&query=")
         == [AMPERSAND] + Units("api") + [EQUALS] + Units(api) + [AMPERSAND] + Units("query") + [EQUALS]
  {
    assert "&api=" + api + "&query=" == "&" + "api" + "=" + api + "&" + "query" + "=";
    UnitsAppend("&" + "api" + "=" + api + "&" + "query", "=");
    UnitsAppend("&" + "api" + "=" + api + "&", "query");
    UnitsAppend("&" + "api" + "=" + api, "&");
    UnitsAppend("&" + "api" + "=", api);
    UnitsAppend("&" + "api", "=");
    UnitsAppend("&", "api");
  }

  /** The fixed names of the template contain none of the characters that structure a query. */
  lemma TemplateNamesPlain(api: string)
    requires api == "cpf_basica" || api == "nome_basico"
    ensures QUESTION !in API_BASE_URL
    ensures PlainName(Units("token")) && PlainName(Units("api")) && PlainName(Units("query"))
    ensures PlainValue(Units(api))
  {
  }

  lemma Reassociate(b: JsString, t: JsString, token: JsString, a: JsString, v: JsString,
                    q: JsString, query: JsString)
    ensures b + ([QUESTION] + t + [EQUALS]) + token
              + ([AMPERSAND] + a + [EQUALS] + v + [AMPERSAND] + q + [EQUALS]) + query
         == b + [QUESTION] + (t + [EQUALS] + token + [AMPERSAND]
              + (a + [EQUALS] + v + [AMPERSAND] + (q + [EQUALS] + query)))
  {
  }

  /** Any URL built by the routes' template, as the base, a `?` and a joined list of pairs. */
  lemma TemplateShape(api: string, token: JsString, query: JsString)
    ensures API_BASE_URL + Units("?token=") + token + Units("&api=" + api + "&query=") + query
         == API_BASE_URL + [QUESTION]
              + Join([(Units("token"), token), (Units("api"), Units(api)), (Units("query"), query)])
  {
    var t, a, q, v := Units("token"), Units("api"), Units("query"), Units(api);
    TokenPrefix();
    ApiInfix(api);
    Reassociate(API_BASE_URL, t, token, a, v, q, query);
    var ps := [(t, token), (a, v), (q, query)];
    assert Join(ps[2..]) == q + [EQUALS] + query;
    assert Join(ps[1..]) == a + [EQUALS] + v + [AMPERSAND] + Join(ps[2..]);
  }

  /**
   * The upstream reads a URL built by either route as exactly three
   * parameters, `token`, `api` and `query`, provided neither spliced value
   * holds a `&` or a `#`.
   */
  lemma TemplatePairs(api: string, token: JsString, query: JsString)
    requires api == "cpf_basica" || api == "nome_basico"
    requires PlainValue(token) && PlainValue(query)
    ensures UrlPairs(API_BASE_URL + Units("?token=") + token + Units("&api=" + api + "&query=") + query)
         == [(Units("token"), token), (Units("api"), Units(api)), (Units("query"), query)]
  {
    var ps := [(Units("token"), token), (Units("api"), Units(api)), (Units("query"), query)];
    TemplateShape(api, token, query);
    TemplateNamesPlain(api);
    JoinPairs(ps);
    UrlPairsOf(API_BASE_URL, Join(ps));
  }

  /** The CPF route's URL carries the token, `api=cpf_basica`, and the CPF as it was sent. */
  lemma CpfUrlPairs(token: JsString, cpf: JsString)
    requires PlainValue(token) && PlainValue(cpf)
    ensures UrlPairs(CpfUrl(token, cpf))
         == [(Units("token"), token), (Units("api"), Units("cpf_basica")), (Units("query"), cpf)]
  {
    assert "&api=cpf_basica&query=" == "&api=" + "cpf_basica" + "&query=";
    TemplatePairs("cpf_basica", token, cpf);
  }

  /**
   * For an accepted name the upstream receives three parameters, and the
   * `query` one percent-decodes to the trimmed name: nothing in the name can
   * add or break a parameter.
   */
  lemma NameUrlPairs(token: JsString, nome: JsString)
    requires PlainValue(token)
    requires PrepareName(Some(nome)).NameQuery?
    ensures var q := PrepareName(Some(nome)).query;
      && UrlPairs(NameUrl(token, q))
         == [(Units("token"), token), (Units("api"), Units("nome_basico")), (Units("query"), q)]
      && Decode(q) == Some(Trim(nome))
  {
    NameQueryPairs(token, PrepareName(Some(nome)).query);
  }

  /** A percent-encoded query cannot break the name route's URL apart. */
  lemma NameQueryPairs(token: JsString, q: JsString)
    requires PlainValue(token) && UriSafe(q)
    ensures UrlPairs(NameUrl(token, q))
         == [(Units("token"), token), (Units("api"), Units("nome_basico")), (Units("query"), q)]
  {
    UriSafeHasNoDelimiters(q);
    assert "&api=nome_basico&query=" == "&api=" + "nome_basico" + "&query=";
    TemplatePairs("nome_basico", token, q);
  }

  lemma CpfSplit()
    ensures Units("0&api=extra") == Units("0") + [AMPERSAND] + Units("api") + [EQUALS] + Units("extra")
  {
    assert "0&api=extra" == "0" + "&" + "api" + "=" + "extra";
    UnitsAppend("0" + "&" + "api" + "=", "extra");
    UnitsAppend("0" + "&" + "api", "=");
    UnitsAppend("0" + "&", "api");
    UnitsAppend("0", "&");
  }

  /**
   * The CPF is spliced in unencoded and only its length is checked, so the
   * 11-unit CPF `0&api=extra` is accepted and adds a second `api` parameter
   * to the upstream request.
   */
  lemma CpfSplicedUnencoded(token: JsString)
    requires PlainValue(token)
    ensures ValidateCpf(Some(Units("0&api=extra"))) == Ok(Units("0&api=extra"))
    ensures UrlPairs(CpfUrl(token, Units("0&api=extra")))
         == [(Units("token"), token), (Units("api"), Units("cpf_basica")),
             (Units("query"), Units("0")), (Units("api"), Units("extra"))]
  {
    var cpf := Units("0&api=extra");
    var t, a, q, v := Units("token"), Units("api"), Units("query"), Units("cpf_basica");
    var ps := [(t, token), (a, v), (q, Units("0")), (a, Units("extra"))];
    assert CpfUrl(token, cpf) == API_BASE_URL + [QUESTION] + Join(ps) by {
      assert "&api=cpf_basica&query=" == "&api=" + "cpf_basica" + "&query=";
      TemplateShape("cpf_basica", token, cpf);
      CpfSplit();
      JoinSplitsLast(t, token, a, v, q, Units("0"), a, Units("extra"));
    }
    assert forall i :: 0 <= i < |ps| ==> PlainName(ps[i].0) && PlainValue(ps[i].1) by {
      TemplateNamesPlain("cpf_basica");
      assert PlainValue(Units("0")) && PlainValue(Units("extra"));
    }
    JoinPairs(ps);
    TemplateNamesPlain("cpf_basica");
    UrlPairsOf(API_BASE_URL, Join(ps));
  }

  /** An `&n=y` inside the last value of three pairs reads as a fourth pair. */
  lemma JoinSplitsLast(t: JsString, token: JsString, a: JsString, v: JsString,
                       q: JsString, x: JsString, n: JsString, y: JsString)
    ensures Join([(t, token), (a, v), (q, x + [AMPERSAND] + n + [EQUALS] + y)])
         == Join([(t, token), (a, v), (q, x), (n, y)])
  {
    var ps3 := [(t, token), (a, v), (q, x + [AMPERSAND] + n + [EQUALS] + y)];
    var ps4 := [(t, token), (a, v), (q, x), (n, y)];
    assert Join(ps4[3..]) == n + [EQUALS] + y;
    assert Join(ps4[2..]) == q + [EQUALS] + x + [AMPERSAND] + Join(ps4[3..]);
    assert Join(ps3[2..]) == Join(ps4[2..]);
    assert Join(ps3[1..]) == a + [EQUALS] + v + [AMPERSAND] + Join(ps3[2..]);
    assert Join(ps4[1..]) == a + [EQUALS] + v + [AMPERSAND] + Join(ps4[2..]);
  }

  /** Any 11-unit string passes the CPF check; digits are not required. */
  lemma CpfLettersAccepted()
    ensures ValidateCpf(Some(Units("abcdefghijk"))) == Ok(Units("abcdefghijk"))
  {
  }

  /** Ten units are refused. */
  lemma CpfTenUnitsRefused()
    ensures ValidateCpf(Some(Units("1234567890"))) == Err(ErrorResponse(400, CPF_INVALID))
  {
  }

  /** A name whose trimmed form encodes to `q` of 5 or more units is accepted with that query. */
  lemma PreparedQuery(name: JsString, q: JsString)
    requires Encode(Trim(name)) == Ok(q) && |q| >= 5
    ensures PrepareName(Some(name)) == NameQuery(q)
  {
    EncodeOkIffWellFormed(Trim(name));
    var r := PrepareName(Some(name));
    assert !r.NameRaised? && !r.NameRejected?;
    assert Encode(Trim(name)) == Ok(r.query);
  }

  /** A name whose trimmed form encodes to fewer than 5 units is refused with 400. */
  lemma PreparedRejected(name: JsString, q: JsString)
    requires Encode(Trim(name)) == Ok(q) && |q| < 5
    ensures PrepareName(Some(name)) == NameRejected(ErrorResponse(400, NAME_TOO_SHORT))
  {
    EncodeOkIffWellFormed(Trim(name));
    var r := PrepareName(Some(name));
    assert !r.NameRaised? && !r.NameQuery?;
  }

  /** A name whose trimmed form holds an unpaired surrogate raises URIError. */
  lemma PreparedRaised(name: JsString)
    requires !WellFormedUtf16(Trim(name))
    ensures PrepareName(Some(name)) == NameRaised(URI_MALFORMED)
  {
    var r := PrepareName(Some(name));
    assert r.NameRaised?;
    assert r.error == URI_MALFORMED;
  }

  /** No unreserved unit is whitespace, so trimming never touches one. */
  lemma UnreservedNotWhitespace(c: CodeUnit)
    requires IsUnreserved(c)
    ensures !IsJsWhitespace(c)
  {
  }

  /** A name of fewer than 5 unreserved units, such as `"Ana"`, is refused with 400. */
  lemma ShortNameRefused(s: JsString)
    requires |s| < 5 && forall i :: 0 <= i < |s| ==> IsUnreserved(s[i])
    ensures PrepareName(Some(s)) == NameRejected(ErrorResponse(400, NAME_TOO_SHORT))
  {
    assert Encode(Trim(s)) == Ok(s) by {
      if s != [] {
        UnreservedNotWhitespace(s[0]);
        UnreservedNotWhitespace(s[|s| - 1]);
      }
      TrimKeepsUnpadded(s);
      EncodeKeepsUnreserved(s);
    }
    PreparedRejected(s, s);
  }

  /** At the route: a caller who passes the guard and sends a short name such as `"Ana"` gets 400 and no upstream call. */
  lemma ShortNameRouteRefused(cfg: Config, req: Request, upstream: JsString -> Outcome)
    requires Authenticate(cfg, req).Proceed?
    requires req.nome.Some? && |req.nome.value| < 5
    requires forall i :: 0 <= i < |req.nome.value| ==> IsUnreserved(req.nome.value[i])
    ensures HandleNome(cfg, req, upstream) == Exchange(None, Sent(ErrorResponse(400, NAME_TOO_SHORT)))
  {
    ShortNameRefused(req.nome.value);
  }

  /** A trailing space, as in `"Maria "`, is trimmed off before the name is encoded and accepted. */
  lemma TrailingSpaceTrimmed(m: JsString)
    requires |m| >= 5 && forall i :: 0 <= i < |m| ==> IsUnreserved(m[i])
    ensures PrepareName(Some(m + [0x20])) == NameQuery(m)
  {
    assert Encode(Trim(m + [0x20])) == Ok(m) by {
      UnreservedNotWhitespace(m[0]);
      UnreservedNotWhitespace(m[|m| - 1]);
      TrimDropsTrailing(m, 0x20);
      EncodeKeepsUnreserved(m);
    }
    PreparedQuery(m + [0x20], m);
  }

  /** A space between two unreserved units is the only thing encoded. */
  lemma EncodeInnerSpace(x: CodeUnit, y: CodeUnit)
    requires IsUnreserved(x) && IsUnreserved(y)
    ensures Encode([x, 0x20, y]) == Ok([x, 0x25, 0x32, 0x30, y])
  {
    var s: JsString := [x, 0x20, y];
    var rest: JsString := [0x20, y];
    var last: JsString := [y];
    assert s[1..] == rest && rest[1..] == last;
    EncodeKeepsUnreserved(last);
    assert Utf8(0x20) == [0x20];
    assert Escapes([0x20]) == Escape(0x20) == [0x25, 0x32, 0x30];
    assert Encode(rest) == Ok([0x25, 0x32, 0x30] + last);
    assert Encode(s) == Ok([x] + ([0x25, 0x32, 0x30] + last));
    assert [x] + ([0x25, 0x32, 0x30] + last) == [x, 0x25, 0x32, 0x30, y];
  }

  /** A 3-unit name such as `"a b"` encodes to 5 units, `"a%20b"`, and is accepted: the length is checked after encoding. */
  lemma EncodedLengthCounts(x: CodeUnit, y: CodeUnit)
    requires IsUnreserved(x) && IsUnreserved(y)
    ensures PrepareName(Some([x, 0x20, y])) == NameQuery([x, 0x25, 0x32, 0x30, y])
  {
    var s: JsString := [x, 0x20, y];
    assert Encode(Trim(s)) == Ok([x, 0x25, 0x32, 0x30, y]) by {
      UnreservedNotWhitespace(x);
      UnreservedNotWhitespace(y);
      TrimKeepsUnpadded(s);
      EncodeInnerSpace(x, y);
    }
    PreparedQuery(s, [x, 0x25, 0x32, 0x30, y]);
  }

  /** A name that is a lone high surrogate makes the handler raise URIError. */
  lemma LoneSurrogateRaises(h: CodeUnit)
    requires IsHighSurrogate(h)
    ensures PrepareName(Some([h])) == NameRaised(URI_MALFORMED)
  {
    LoneHighIllFormed(h);
    PreparedRaised([h]);
  }

  /** A lone high surrogate survives trimming and is not well-formed UTF-16. */
  lemma LoneHighIllFormed(h: CodeUnit)
    requires IsHighSurrogate(h)
    ensures !WellFormedUtf16(Trim([h]))
  {
    LoneHighTrimmed(h);
    LoneHighUnpaired(h);
  }

  /** Trimming leaves a lone surrogate alone: it is not whitespace. */
  lemma LoneHighTrimmed(h: CodeUnit)
    requires IsHighSurrogate(h)
    ensures Trim([h]) == [h]
  {
    assert !IsJsWhitespace(h);
    TrimKeepsUnpadded([h]);
  }

  /** A high surrogate with nothing after it is unpaired. */
  lemma LoneHighUnpaired(h: CodeUnit)
    requires IsHighSurrogate(h)
    ensures !WellFormedUtf16([h])
  {
    var s: JsString := [h];
    assert !WellPlaced(s, 0);
  }

  /** With the credentials refused, an absent name never gets to raise: the guard answers 401. */
  lemma GuardAnswersBeforeName(cfg: Config, upstream: JsString -> Outcome)
    ensures HandleNome(cfg, Request(None, None, None, None), upstream)
         == Exchange(None, Sent(ErrorResponse(401, CREDENTIALS_MISSING)))
  {
  }

  /** A request answered without an upstream call is answered the same whatever the upstream would do. */
  lemma UnfetchedIgnoresUpstream(cfg: Config, req: Request, u1: JsString -> Outcome, u2: JsString -> Outcome)
    ensures HandleCpf(cfg, req, u1).fetched.None? ==> HandleCpf(cfg, req, u1) == HandleCpf(cfg, req, u2)
    ensures HandleNome(cfg, req, u1).fetched.None? ==> HandleNome(cfg, req, u1) == HandleNome(cfg, req, u2)
  {
  }

  /** Upstream `{error: true, message: "x"}` gives 404 with the route's empty payload and `"x"`. */
  lemma UpstreamErrorExample()
    ensures var data := JObject([(ERROR_KEY, JBool(true)), (MESSAGE_KEY, JString(Units("x")))]);
      && Translate(CpfBasica, Parsed(data))
         == Response(404, JObject([(DADOS_KEY, JNull), (ERROR_KEY, JString(Units("x")))]))
      && Translate(NomeBasico, Parsed(data))
         == Response(404, JObject([(RESULTADOS_KEY, JArray([])), (ERROR_KEY, JString(Units("x")))]))
  {
    var members := [(ERROR_KEY, JBool(true)), (MESSAGE_KEY, JString(Units("x")))];
    assert members[..1] == [(ERROR_KEY, JBool(true))];
    assert |MESSAGE_KEY| != |ERROR_KEY|;
    assert Member(members, ERROR_KEY) == Some(JBool(true));
    assert Member(members, MESSAGE_KEY) == Some(JString(Units("x")));
  }

  /** A truthy `error` without a truthy `message` gets the fallback text. */
  lemma UpstreamErrorWithoutMessage(route: Route)
    ensures var data := JObject([(ERROR_KEY, JNumber(1.0)), (MESSAGE_KEY, JString([]))]);
      Translate(route, Parsed(data)) == Response(404, NotFoundBody(route, JString(NOT_FOUND_FALLBACK)))
  {
    var members := [(ERROR_KEY, JNumber(1.0)), (MESSAGE_KEY, JString([]))];
    assert members[..1] == [(ERROR_KEY, JNumber(1.0))];
    assert |MESSAGE_KEY| != |ERROR_KEY|;
    assert Member(members, ERROR_KEY) == Some(JNumber(1.0));
    assert Member(members, MESSAGE_KEY) == Some(JString([]));
  }

  /** A falsy `error` is no error: the body goes back unchanged with 200. */
  lemma FalsyErrorPassesThrough(route: Route, message: Json)
    ensures var data := JObject([(ERROR_KEY, JBool(false)), (MESSAGE_KEY, message)]);
      Translate(route, Parsed(data)) == Response(200, data)
  {
    var members := [(ERROR_KEY, JBool(false)), (MESSAGE_KEY, message)];
    assert members[..1] == [(ERROR_KEY, JBool(false))];
    assert |MESSAGE_KEY| != |ERROR_KEY|;
    assert Member(members, ERROR_KEY) == Some(JBool(false));
  }
}
