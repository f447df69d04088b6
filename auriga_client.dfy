/**
 * The two provider calls: the request each one issues (enviarReservaAuriga and
 * cancelarEnAuriga) and how each classifies the answer. The HTTP exchange itself is
 * not modelled: an `Answer` is what the controller sees once it returns.
 */
module AurigaClient {
  import opened Wrappers
  import opened PhpString
  import opened Json
  import opened ReservationPayload
  import opened ReservationSignature

  /** An outgoing request: method, URL, header lines and JSON body. */
  datatype Request = Request(verb: string, url: string, headers: seq<string>, body: seq<(string, Json)>)

  /**
   * What a call returns: the status code parsed from the first response header line
   * (0 when there is none), the body (None when file_get_contents failed), the body as
   * json_decode($body, true) reads it, and error_get_last()'s message, if any.
   */
  datatype Answer = Answer(httpCode: int, raw: Option<string>, decoded: Json, lastError: Option<string>)

  /** The create call; `header` is clientId:signature. */
  function CreateRequest(cfg: AurigaConfig, header: string, p: Payload): (r: Request)
    ensures r.verb == "POST" && r.url == cfg.apiUrl + "bookings"
    ensures "X-Authorization: " + header in r.headers
    ensures Keys(r.body) == BodyKeys
    ensures r.body == PayloadBody(p)
  {
    Request("POST", cfg.apiUrl + "bookings",
            ["Content-Type: application/json", "X-Authorization: " + header, "Accept: */*"],
            PayloadBody(p))
  }

  /** The header name of the cancel call, in lower case as the provider documents it. */
  const CancelAuthName := "x-authorization: "

  /** The cancel call: DELETE on the booking's URL with a lower-case authorization header. */
  function CancelRequest(cfg: AurigaConfig, bookingId: string, digest: string): (r: Request)
    ensures r.verb == "DELETE" && r.url == cfg.apiUrl + "bookings/" + bookingId
    ensures CancelAuthName + AuthHeader(cfg.clientId, digest) in r.headers
    ensures r.body == [("bookingId", JStr(bookingId))]
  {
    Request("DELETE", cfg.apiUrl + "bookings/" + bookingId,
            ["Content-Type: application/json", CancelAuthName + AuthHeader(cfg.clientId, digest),
             "Accept: application/json"],
            [("bookingId", JStr(bookingId))])
  }

  /**
   * What the provider reads from a cancel request: the line after "x-authorization: "
   * splits at ':' into exactly the client id and the digest of the cancel input, when
   * neither holds a ':'.
   */
  lemma CancelCredentialsReadBack(cfg: AurigaConfig, bookingId: string, sha1: string -> string)
    requires ':' !in cfg.clientId && ':' !in sha1(CancelSignatureInput(cfg, bookingId))
    ensures var digest := sha1(CancelSignatureInput(cfg, bookingId));
            exists h :: h in CancelRequest(cfg, bookingId, digest).headers && |h| >= |CancelAuthName| &&
                        h[..|CancelAuthName|] == CancelAuthName &&
                        Split(h[|CancelAuthName|..], ':') == [cfg.clientId, digest]
  {
    var digest := sha1(CancelSignatureInput(cfg, bookingId));
    var h := CancelAuthName + AuthHeader(cfg.clientId, digest);
    assert h in CancelRequest(cfg, bookingId, digest).headers;
    assert h[|CancelAuthName|..] == AuthHeader(cfg.clientId, digest);
    AuthHeaderSplits(cfg.clientId, digest);
  }

  // ---------------------------------------------------------------------------
  // Create
  // ---------------------------------------------------------------------------

  datatype CreateResult =
    | Created(data: Json, httpCode: int)
    | Rejected(error: string, httpCode: int, response: Json, rawResponse: string)
    | Unreachable(error: string, httpCode: int)

  const RejectedMessage := "Error en la respuesta de Auriga"
  const UnreachablePrefix := "Error al conectar con Auriga: "

  /** enviarReservaAuriga's verdict on the provider's answer. */
  function ClassifyCreate(a: Answer): (r: CreateResult)
    ensures r.Created? <==> a.raw.Some? && a.httpCode == 201 && !IsEmptyValue(Get(a.decoded, "bookingId"))
    ensures r.Unreachable? <==> a.raw.None?
    ensures r.httpCode == a.httpCode
    ensures r.Created? ==> r.data == a.decoded
    ensures r.Rejected? ==> r == Rejected(RejectedMessage, a.httpCode, a.decoded, a.raw.value)
    ensures r.Unreachable? ==> r.error == UnreachablePrefix + a.lastError.GetOr("Unknown error")
  {
    if a.raw.None? then Unreachable(UnreachablePrefix + a.lastError.GetOr("Unknown error"), a.httpCode)
    else if a.httpCode == 201 && !IsEmptyValue(Get(a.decoded, "bookingId")) then Created(a.decoded, a.httpCode)
    else Rejected(RejectedMessage, a.httpCode, a.decoded, a.raw.value)
  }

  /** 201 with {"bookingId":"B1","serviceId":"S1"} is a created booking. */
  lemma CreatedExample(raw: string)
    ensures ClassifyCreate(Answer(201, Some(raw), JObj([("bookingId", JStr("B1")), ("serviceId", JStr("S1"))]), None))
            == Created(JObj([("bookingId", JStr("B1")), ("serviceId", JStr("S1"))]), 201)
  {
    var m := [("bookingId", JStr("B1")), ("serviceId", JStr("S1"))];
    assert m[..1] == [("bookingId", JStr("B1"))];
    assert Lookup(m, "bookingId") == Some(JStr("B1"));
    assert !IsEmpty("B1");
  }

  /** A 201 whose body has no usable bookingId is still a rejection, and so is any other code. */
  lemma RejectedCases(a: Answer)
    requires a.raw.Some?
    ensures a.httpCode != 201 ==> ClassifyCreate(a).Rejected?
    ensures IsEmptyValue(Get(a.decoded, "bookingId")) ==> ClassifyCreate(a).Rejected?
    ensures a.httpCode == 400 ==> ClassifyCreate(a).rawResponse == a.raw.value && ClassifyCreate(a).httpCode == 400
  {
  }

  /** A bookingId of "0" counts as missing, as empty() says. */
  lemma ZeroBookingIdRejected(raw: string)
    ensures ClassifyCreate(Answer(201, Some(raw), JObj([("bookingId", JStr("0"))]), None)).Rejected?
  {
    assert Lookup([("bookingId", JStr("0"))], "bookingId") == Some(JStr("0"));
  }

  // ---------------------------------------------------------------------------
  // Cancel
  // ---------------------------------------------------------------------------

  datatype CancelResult =
    | Cancelled(httpCode: int)
    | CancelFailed(error: string, httpCode: int, response: Option<string>)

  const CancelErrorPrefix := "Error al cancelar en Auriga. HTTP Code: "

  /** cancelarEnAuriga's verdict: only 200 counts, whatever the body says. */
  function ClassifyCancel(a: Answer): (r: CancelResult)
    ensures r.Cancelled? <==> a.httpCode == 200
    ensures r.httpCode == a.httpCode
    ensures r.CancelFailed? ==> r.error == CancelErrorPrefix + IntToString(a.httpCode) && r.response == a.raw
  {
    if a.httpCode == 200 then Cancelled(a.httpCode)
    else CancelFailed(CancelErrorPrefix + IntToString(a.httpCode), a.httpCode, a.raw)
  }

  /** The code in a cancel error reads back with an (int) cast of the text after the prefix. */
  lemma CancelErrorCarriesCode(a: Answer)
    requires a.httpCode != 200
    ensures var e := ClassifyCancel(a).error;
            |e| > |CancelErrorPrefix| && IntCast(e[|CancelErrorPrefix|..]) == a.httpCode
  {
    var e := ClassifyCancel(a).error;
    assert e[|CancelErrorPrefix|..] == IntToString(a.httpCode);
    IntCastOfIntToString(a.httpCode);
  }
}
