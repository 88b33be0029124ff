/**
 * The response model of Swifter's `HttpResponse.swift`: the body a handler
 * returns, the response variants, and the pure dispatch that turns a response
 * into a status line, a header map, body content and, for a protocol switch,
 * the session handler that takes over the connection.
 */
module HttpResponses {
  import opened Wrappers
  import opened Utf8

  // ---------------------------------------------------------------------------
  // Opaque values the core only carries around
  // ---------------------------------------------------------------------------

  /** An `AnyObject` payload (the object a JSON or custom body renders). */
  datatype AnyObject = AnyObject(id: nat)

  /** A custom body's `(Any) throws -> String` render closure, by identity. */
  datatype RenderClosure = RenderClosure(id: nat)

  /** A `Socket -> Void` session handler, by identity. */
  datatype SessionHandler = SessionHandler(id: nat)

  /** A `File` handle that a writer may stream. */
  datatype File = File(id: nat)

  /** `HttpServer.VERSION`, defined outside this file: any string. */
  const VERSION: string

  // ---------------------------------------------------------------------------
  // Errors
  // ---------------------------------------------------------------------------

  /** The errors the serialisers report. */
  datatype SerializationError = InvalidObject | NotSupported

  /**
   * What a rendering `throw` can carry: one of the serialisation errors, or
   * any other error a custom closure throws, known by its description.
   */
  datatype RenderError = Serialization(cause: SerializationError) | Thrown(description: string)

  /** Swift's `"\(error)"`: an enum case prints as its case name. */
  function Describe(e: RenderError): (d: string)
    ensures e.Serialization? ==> IsAscii(d) && |d| > 0
    ensures e == Serialization(InvalidObject) ==> d == "InvalidObject"
    ensures e == Serialization(NotSupported) ==> d == "NotSupported"
  {
    match e
    case Serialization(InvalidObject) => "InvalidObject"
    case Serialization(NotSupported) => "NotSupported"
    case Thrown(description) => description
  }

  // ---------------------------------------------------------------------------
  // Writers
  // ---------------------------------------------------------------------------

  /** One call on an `HttpResponseBodyWriter`. */
  datatype WriteCall =
    | WriteFile(file: File)          // write(file: File)
    | WriteData(data: seq<uint8>)    // write(data: [UInt8])
    | WriteSlice(slice: seq<uint8>)  // write(data: ArraySlice<UInt8>)

  /**
   * A `HttpResponseBodyWriter throws -> Void` procedure, as the calls it makes
   * on the writer it is given, in order.
   */
  type Writer = seq<WriteCall>

  /** The `(length, writer?)` pair a response hands to the connection layer. */
  datatype LengthAndWriter = LengthAndWriter(length: int, write: Option<Writer>)

  /** `(-1, nil)`: no body. */
  const NoContent := LengthAndWriter(-1, None)

  /** The content of a buffer written in one `write(data:)` call. */
  function WholeBuffer(bytes: seq<uint8>): LengthAndWriter {
    LengthAndWriter(|bytes|, Some([WriteData(bytes)]))
  }

  /** Content whose writer makes exactly one `write(data:)` call, with `bytes`. */
  predicate WritesExactly(c: LengthAndWriter, bytes: seq<uint8>) {
    c.write == Some([WriteData(bytes)])
  }

  // ---------------------------------------------------------------------------
  // HttpResponseBody
  // ---------------------------------------------------------------------------

  datatype HttpResponseBody =
    | Json(payload: AnyObject)
    | Html(html: string)
    | Text(text: string)
    | Custom(customObject: AnyObject, closure: RenderClosure)

  /**
   * The serialisers that live outside this file: the JSON encoder behind
   * `JsonResponse` and the closure call behind `CustomResponse`. Each either
   * yields the body text or throws.
   */
  datatype Renderers = Renderers(
    json: AnyObject -> Result<string, RenderError>,
    custom: (AnyObject, RenderClosure) -> Result<string, RenderError>)

  /** The text a body serialises to, or the error its serialiser threw. */
  function Render(body: HttpResponseBody, rs: Renderers): (r: Result<string, RenderError>)
    ensures (body.Html? || body.Text?) ==> r.Success?
    ensures body.Html? ==> r.value == body.html
    ensures body.Text? ==> r.value == body.text
    ensures body.Json? ==> r == rs.json(body.payload)
    ensures body.Custom? ==> r == rs.custom(body.customObject, body.closure)
  {
    match body
    case Json(payload) => rs.json(payload)
    case Html(html) => Success(html)
    case Text(text) => Success(text)
    case Custom(payload, closure) => rs.custom(payload, closure)
  }

  /**
   * The body `content()` falls back to when serialisation throws: the fixed
   * 21-character prefix, then the error's description.
   */
  function DiagnosticText(e: RenderError): (t: string)
    ensures |t| == 21 + |Describe(e)|
    ensures t[..21] == "Serialisation error: " && t[21..] == Describe(e)
  {
    "Serialisation error: " + Describe(e)
  }

  /**
   * `HttpResponseBody.content()`: fail-soft. It always yields a writer, and the
   * length it reports is the byte count of the single buffer that writer emits.
   */
  function BodyContent(body: HttpResponseBody, rs: Renderers): (c: LengthAndWriter)
    ensures c.length >= 0 && c.write.Some?
    ensures |c.write.value| == 1 && c.write.value[0].WriteData?
    ensures c.length == |c.write.value[0].data|
  {
    match Render(body, rs)
    case Success(text) => WholeBuffer(Encode(text))
    case Failure(e) => WholeBuffer(Encode(DiagnosticText(e)))
  }

  // ---------------------------------------------------------------------------
  // HttpResponse
  // ---------------------------------------------------------------------------

  datatype HttpResponse =
    | SwitchProtocols(switchHeaders: map<string, string>, handler: SessionHandler)
    | OK(body: HttpResponseBody)
    | Created
    | Accepted
    | MovedPermanently(location: string)
    | BadRequest(badRequestBody: Option<HttpResponseBody>)
    | Unauthorized
    | Forbidden
    | NotFound
    | InternalServerError
    | RAW(code: int, phrase: string, rawHeaders: Option<map<string, string>>, writer: Option<Writer>)

  /** `statusCode()`. */
  function StatusCode(r: HttpResponse): (c: int)
    ensures r.RAW? ==> c == r.code
    ensures !r.RAW? ==> 100 <= c < 600
  {
    match r
    case SwitchProtocols(_, _) => 101
    case OK(_) => 200
    case Created => 201
    case Accepted => 202
    case MovedPermanently(_) => 301
    case BadRequest(_) => 400
    case Unauthorized => 401
    case Forbidden => 403
    case NotFound => 404
    case InternalServerError => 500
    case RAW(code, _, _, _) => code
  }

  /** `reasonPhrase()`. */
  function ReasonPhrase(r: HttpResponse): (p: string)
    ensures r.RAW? ==> p == r.phrase
    ensures !r.RAW? ==> |p| > 0
  {
    match r
    case SwitchProtocols(_, _) => "Switching Protocols"
    case OK(_) => "OK"
    case Created => "Created"
    case Accepted => "Accepted"
    case MovedPermanently(_) => "Moved Permanently"
    case BadRequest(_) => "Bad Request"
    case Unauthorized => "Unauthorized"
    case Forbidden => "Forbidden"
    case NotFound => "Not Found"
    case InternalServerError => "Internal Server Error"
    case RAW(_, phrase, _, _) => phrase
  }

  /**
   * The reason phrases that section 6.1 of RFC 7231 recommends, keyed by code:
   * an independent table the fixed status lines are checked against.
   */
  function StandardReason(code: int): Option<string> {
    if code == 101 then Some("Switching Protocols")
    else if code == 200 then Some("OK")
    else if code == 201 then Some("Created")
    else if code == 202 then Some("Accepted")
    else if code == 301 then Some("Moved Permanently")
    else if code == 400 then Some("Bad Request")
    else if code == 401 then Some("Unauthorized")
    else if code == 403 then Some("Forbidden")
    else if code == 404 then Some("Not Found")
    else if code == 500 then Some("Internal Server Error")
    else None
  }

  /** The value of the default `Server` header. */
  function ServerSignature(): string {
    "Swifter " + VERSION
  }

  /** The map `headers()` starts from. */
  function DefaultHeaders(): (h: map<string, string>)
    ensures |h| == 1 && "Server" in h && h["Server"] == ServerSignature()
  {
    map["Server" := ServerSignature()]
  }

  /** The headers a response's caller supplied: those of a switch or of a `RAW` response. */
  function CallerHeaders(r: HttpResponse): map<string, string> {
    match r
    case SwitchProtocols(switchHeaders, _) => switchHeaders
    case RAW(_, _, Some(rawHeaders), _) => rawHeaders
    case _ => map[]
  }

  /**
   * `headers()`, as a value: the default map with the variant's own entries
   * written over it (caller entries win on a shared key).
   */
  function Headers(r: HttpResponse): (h: map<string, string>)
    ensures "Server" in h
    ensures forall k :: k in CallerHeaders(r) ==> k in h && h[k] == CallerHeaders(r)[k]
    ensures "Server" !in CallerHeaders(r) ==> h["Server"] == ServerSignature()
  {
    var defaults := DefaultHeaders();
    match r
    case SwitchProtocols(switchHeaders, _) => defaults + switchHeaders
    case OK(Json(_)) => defaults["Content-Type" := "application/json"]
    case OK(Html(_)) => defaults["Content-Type" := "text/html"]
    case MovedPermanently(location) => defaults["Location" := location]
    case RAW(_, _, Some(rawHeaders), _) => defaults + rawHeaders
    case _ => defaults
  }

  /**
   * The `for (key, value) in ...` loops of `headers()`: assigns every entry of
   * `entries` into `headers`, one key at a time, in whatever order the
   * dictionary yields them.
   */
  method MergeInto(headers: map<string, string>, entries: map<string, string>)
    returns (merged: map<string, string>)
    ensures merged == headers + entries
  {
    merged := headers;
    var pending := entries.Keys;
    while pending != {}
      invariant pending <= entries.Keys
      invariant merged.Keys == headers.Keys + (entries.Keys - pending)
      invariant forall k :: k in merged ==>
                  merged[k] == if k in entries && k !in pending then entries[k] else headers[k]
      decreases pending
    {
      var key :| key in pending;
      merged := merged[key := entries[key]];
      pending := pending - {key};
    }
  }

  /** `headers()`: builds the header map by updating a local dictionary. */
  method BuildHeaders(r: HttpResponse) returns (headers: map<string, string>)
    ensures headers == Headers(r)
  {
    headers := map["Server" := "Swifter " + VERSION];
    match r {
      case SwitchProtocols(switchHeaders, _) =>
        headers := MergeInto(headers, switchHeaders);
      case OK(body) =>
        match body {
          case Json(_) => headers := headers["Content-Type" := "application/json"];
          case Html(_) => headers := headers["Content-Type" := "text/html"];
          case _ =>
        }
      case MovedPermanently(location) =>
        headers := headers["Location" := location];
      case RAW(_, _, rawHeaders, _) =>
        if rawHeaders.Some? {
          headers := MergeInto(headers, rawHeaders.value);
        }
      case _ =>
    }
  }

  /**
   * `HttpResponse.content()`: only `OK`, `BadRequest` with a body and `RAW`
   * have content; a known length comes only from a rendered body, and content
   * without a writer is exactly "no content".
   */
  function Content(r: HttpResponse, rs: Renderers): (c: LengthAndWriter)
    ensures c.length >= 0 <==> r.OK? || (r.BadRequest? && r.badRequestBody.Some?)
    ensures c.write.None? ==> c == NoContent
    ensures c.write.Some? <==> c.length >= 0 || (r.RAW? && r.writer.Some?)
  {
    match r
    case OK(body) => BodyContent(body, rs)
    case BadRequest(body) => if body.Some? then BodyContent(body.value, rs) else NoContent
    case RAW(_, _, _, writer) => LengthAndWriter(-1, writer)
    case _ => NoContent
  }

  /** `socketSession()`: the handler that takes over a switched connection. */
  function SocketSession(r: HttpResponse): (s: Option<SessionHandler>)
    ensures s.Some? <==> r.SwitchProtocols?
    ensures s.Some? ==> s.value == r.handler
  {
    match r
    case SwitchProtocols(_, handler) => Some(handler)
    case _ => None
  }

  /**
   * `==` on responses: compares status codes and nothing else, so two
   * responses of the same fixed case are equal whatever their payloads.
   */
  function Equal(a: HttpResponse, b: HttpResponse): (eq: bool)
    ensures a == b ==> eq
    ensures SameVariant(a, b) && !a.RAW? ==> eq
  {
    StatusCode(a) == StatusCode(b)
  }

  /** Whether two responses are built with the same case. */
  predicate SameVariant(a: HttpResponse, b: HttpResponse) {
    && a.SwitchProtocols? == b.SwitchProtocols?
    && a.OK? == b.OK?
    && a.Created? == b.Created?
    && a.Accepted? == b.Accepted?
    && a.MovedPermanently? == b.MovedPermanently?
    && a.BadRequest? == b.BadRequest?
    && a.Unauthorized? == b.Unauthorized?
    && a.Forbidden? == b.Forbidden?
    && a.NotFound? == b.NotFound?
    && a.InternalServerError? == b.InternalServerError?
    && a.RAW? == b.RAW?
  }
}
