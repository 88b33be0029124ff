/**
 * What the response model promises across its operations: status lines that
 * agree with the standard table, the header map's shape per variant, the
 * content each variant exposes, the fail-soft body, the protocol-switch escape
 * hatch and the status-only equality.
 */
module HttpResponseProperties {
  import opened Wrappers
  import opened Utf8
  import opened HttpResponses

  // ---------------------------------------------------------------------------
  // Status line
  // ---------------------------------------------------------------------------

  /** Every fixed status line is a standard code with its standard phrase. */
  lemma StatusLineIsStandard(r: HttpResponse)
    requires !r.RAW?
    ensures StandardReason(StatusCode(r)) == Some(ReasonPhrase(r))
  {
  }

  /**
   * Each fixed variant has its own status line, whatever its payload: 101,
   * 200, 201, 202, 301, 400, 401, 403, 404 and 500, with their phrases.
   */
  lemma FixedStatusLines()
    ensures forall h, s :: StatusCode(SwitchProtocols(h, s)) == 101
                        && ReasonPhrase(SwitchProtocols(h, s)) == "Switching Protocols"
    ensures forall b :: StatusCode(OK(b)) == 200 && ReasonPhrase(OK(b)) == "OK"
    ensures StatusCode(Created) == 201 && ReasonPhrase(Created) == "Created"
    ensures StatusCode(Accepted) == 202 && ReasonPhrase(Accepted) == "Accepted"
    ensures forall loc :: StatusCode(MovedPermanently(loc)) == 301
                       && ReasonPhrase(MovedPermanently(loc)) == "Moved Permanently"
    ensures forall b :: StatusCode(BadRequest(b)) == 400 && ReasonPhrase(BadRequest(b)) == "Bad Request"
    ensures StatusCode(Unauthorized) == 401 && ReasonPhrase(Unauthorized) == "Unauthorized"
    ensures StatusCode(Forbidden) == 403 && ReasonPhrase(Forbidden) == "Forbidden"
    ensures StatusCode(NotFound) == 404 && ReasonPhrase(NotFound) == "Not Found"
    ensures StatusCode(InternalServerError) == 500
         && ReasonPhrase(InternalServerError) == "Internal Server Error"
  {
  }

  /** The fixed status line depends on the variant only, never on its payload. */
  lemma StatusLineIgnoresPayload(a: HttpResponse, b: HttpResponse)
    requires SameVariant(a, b) && !a.RAW?
    ensures StatusCode(a) == StatusCode(b) && ReasonPhrase(a) == ReasonPhrase(b)
  {
  }

  /** `RAW` carries its own status line through unchanged. */
  lemma RawStatusLine(code: int, phrase: string, h: Option<map<string, string>>, w: Option<Writer>)
    ensures StatusCode(RAW(code, phrase, h, w)) == code
    ensures ReasonPhrase(RAW(code, phrase, h, w)) == phrase
  {
  }

  // ---------------------------------------------------------------------------
  // Equality
  // ---------------------------------------------------------------------------

  /** Status-only equality is an equivalence relation. */
  lemma EqualIsEquivalence()
    ensures forall a :: Equal(a, a)
    ensures forall a, b :: Equal(a, b) ==> Equal(b, a)
    ensures forall a, b, c :: Equal(a, b) && Equal(b, c) ==> Equal(a, c)
  {
  }

  /** Among the fixed variants, `==` holds exactly when the case is the same. */
  lemma EqualIdentifiesFixedVariant(a: HttpResponse, b: HttpResponse)
    requires !a.RAW? && !b.RAW?
    ensures Equal(a, b) <==> SameVariant(a, b)
  {
  }

  /** A raw 404 compares equal to `NotFound`, whatever else it carries. */
  lemma RawNotFoundEqualsNotFound(phrase: string, h: Option<map<string, string>>, w: Option<Writer>)
    ensures Equal(RAW(404, phrase, h, w), NotFound)
  {
  }

  // ---------------------------------------------------------------------------
  // Headers
  // ---------------------------------------------------------------------------

  /** The variants without entries of their own send only the `Server` header. */
  lemma HeadersDefaultOnly(r: HttpResponse)
    requires || r.Created? || r.Accepted? || r.BadRequest? || r.Unauthorized?
             || r.Forbidden? || r.NotFound? || r.InternalServerError?
             || (r.RAW? && r.rawHeaders.None?)
             || (r.OK? && (r.body.Text? || r.body.Custom?))
    ensures Headers(r) == map["Server" := ServerSignature()]
    ensures |Headers(r)| == 1
  {
  }

  /** `OK` adds a content type for JSON and HTML bodies and for nothing else. */
  lemma HeadersContentType(body: HttpResponseBody)
    ensures "Content-Type" in Headers(OK(body)) <==> body.Json? || body.Html?
    ensures body.Json? ==> Headers(OK(body))["Content-Type"] == "application/json"
    ensures body.Html? ==> Headers(OK(body))["Content-Type"] == "text/html"
    ensures Headers(OK(body)).Keys <= {"Server", "Content-Type"}
  {
  }

  /** A redirect names its target in `Location`, beside the `Server` header. */
  lemma HeadersLocation(location: string)
    ensures Headers(MovedPermanently(location)).Keys == {"Server", "Location"}
    ensures Headers(MovedPermanently(location))["Location"] == location
    ensures Headers(MovedPermanently(location))["Server"] == ServerSignature()
  {
  }

  /**
   * Caller headers of a protocol switch or a raw response are all sent as
   * given, and the only other header is the default `Server` one, which
   * survives unless the caller supplies its own.
   */
  lemma HeadersCallerWins(r: HttpResponse, given: map<string, string>)
    requires (r.SwitchProtocols? && r.switchHeaders == given) || (r.RAW? && r.rawHeaders == Some(given))
    ensures Headers(r).Keys == given.Keys + {"Server"}
    ensures forall k :: k in given ==> Headers(r)[k] == given[k]
    ensures "Server" !in given ==> Headers(r)["Server"] == ServerSignature()
  {
  }

  // ---------------------------------------------------------------------------
  // Content
  // ---------------------------------------------------------------------------

  /** The variants without a body report "no content". */
  lemma ContentAbsent(r: HttpResponse, rs: Renderers)
    requires (!r.OK? && !r.BadRequest? && !r.RAW?) || r == BadRequest(None)
    ensures Content(r, rs) == NoContent
  {
  }

  /** `RAW` passes its writer through with an unknown length. */
  lemma ContentRawPassesWriter(code: int, phrase: string, h: Option<map<string, string>>,
                               w: Option<Writer>, rs: Renderers)
    ensures Content(RAW(code, phrase, h, w), rs).length == -1
    ensures Content(RAW(code, phrase, h, w), rs).write == w
  {
  }

  /** `OK` and `BadRequest` with a body report that body's own content. */
  lemma ContentDelegatesToBody(body: HttpResponseBody, rs: Renderers)
    ensures Content(OK(body), rs) == BodyContent(body, rs)
    ensures Content(BadRequest(Some(body)), rs) == BodyContent(body, rs)
  {
  }

  /**
   * A body that renders is written as the UTF-8 bytes of its text, in one
   * buffer whose size is the reported length; those bytes decode back to the
   * text.
   */
  lemma ContentOfRenderedBody(body: HttpResponseBody, rs: Renderers, text: string)
    requires Render(body, rs) == Success(text)
    ensures WritesExactly(BodyContent(body, rs), Encode(text))
    ensures BodyContent(body, rs).length == |Encode(text)|
    ensures Decode(BodyContent(body, rs).write.value[0].data) == Some(text)
  {
    DecodeEncode(text);
  }

  /** Text and HTML bodies are sent as themselves. */
  lemma ContentOfTextAndHtml(s: string, rs: Renderers)
    ensures WritesExactly(BodyContent(Text(s), rs), Encode(s))
    ensures WritesExactly(BodyContent(Html(s), rs), Encode(s))
    ensures IsAscii(s) ==> BodyContent(Text(s), rs).length == |s|
  {
    if IsAscii(s) {
      EncodeAscii(s);
    }
  }

  /** `Text("abc")` has length 3 and writes exactly the bytes of "abc". */
  lemma ContentOfPlainTextAbc(rs: Renderers)
    ensures BodyContent(Text("abc"), rs) == LengthAndWriter(3, Some([WriteData([97, 98, 99])]))
  {
    assert Encode("abc") == [97, 98, 99] by {
      assert "abc"[1..] == "bc" && "bc"[1..] == "c" && "c"[1..] == "";
    }
  }

  /**
   * Fail-soft: a body whose serialiser throws still has content. Its writer
   * emits, in one buffer, the UTF-8 bytes of "Serialisation error: " followed
   * by the error's description, and the reported length is their count.
   */
  lemma ContentOfFailedBody(body: HttpResponseBody, rs: Renderers, e: RenderError)
    requires Render(body, rs) == Failure(e)
    ensures WritesExactly(BodyContent(body, rs), Encode("Serialisation error: ") + Encode(Describe(e)))
    ensures BodyContent(body, rs).length == 21 + |Encode(Describe(e))|
    ensures Decode(BodyContent(body, rs).write.value[0].data) == Some("Serialisation error: " + Describe(e))
  {
    var prefix, d := "Serialisation error: ", Describe(e);
    assert DiagnosticText(e) == prefix + d;
    EncodeAppend(prefix, d);
    PrefixIsAscii();
    EncodeAscii(prefix);
    DecodeEncode(prefix + d);
  }

  /** The diagnostic prefix is 21 ASCII characters. */
  lemma PrefixIsAscii()
    ensures IsAscii("Serialisation error: ") && |"Serialisation error: "| == 21
  {
  }

  /** The diagnostic text has 21 prefix bytes, then the description's bytes. */
  lemma DiagnosticByteCount(e: RenderError)
    ensures |Encode(DiagnosticText(e))| == 21 + |Encode(Describe(e))|
  {
    var prefix, d := "Serialisation error: ", Describe(e);
    assert DiagnosticText(e) == prefix + d;
    EncodeAppend(prefix, d);
    PrefixIsAscii();
    EncodeAscii(prefix);
  }

  /** The diagnostic bodies of the two serialisation errors have fixed sizes. */
  lemma FailedBodyLengths(body: HttpResponseBody, rs: Renderers)
    ensures Render(body, rs) == Failure(Serialization(InvalidObject)) ==> BodyContent(body, rs).length == 34
    ensures Render(body, rs) == Failure(Serialization(NotSupported)) ==> BodyContent(body, rs).length == 33
  {
    match Render(body, rs)
    case Failure(Serialization(cause)) =>
      var e := Serialization(cause);
      DiagnosticByteCount(e);
      EncodeAscii(Describe(e));
    case _ =>
  }

  /** Whenever a response reports a length, its writer emits exactly that many bytes in one buffer. */
  lemma ContentLengthIsWritten(r: HttpResponse, rs: Renderers)
    ensures Content(r, rs).length >= 0 ==>
              && Content(r, rs).write.Some?
              && |Content(r, rs).write.value| == 1
              && Content(r, rs).write.value[0].WriteData?
              && |Content(r, rs).write.value[0].data| == Content(r, rs).length
  {
  }

  // ---------------------------------------------------------------------------
  // Protocol switch
  // ---------------------------------------------------------------------------

  /**
   * Only a protocol switch hands the connection to a session handler, and such
   * a response is a 101 that carries no body.
   */
  lemma SwitchProtocolsHasNoBody(r: HttpResponse, rs: Renderers)
    ensures SocketSession(r).Some? <==> r.SwitchProtocols?
    ensures SocketSession(r).Some? ==>
              Content(r, rs) == NoContent && StatusCode(r) == 101 && ReasonPhrase(r) == "Switching Protocols"
  {
  }
}
