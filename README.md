# Swifter HTTP response model

A Dafny model of the response side of the Swifter HTTP server
(`Sources/HttpResponse.swift`). A request handler returns an `HttpResponse`.
The server reads four things from it:

- the status line: `statusCode()` and `reasonPhrase()`;
- the header map: `headers()`;
- the body, as a length and an optional writer procedure: `content()`;
- for a protocol switch, the session handler that takes over the socket:
  `socketSession()`.

An `OK` or `BadRequest` body is an `HttpResponseBody`: JSON, HTML, plain text
or a custom-rendered object. Rendering is meant to be fail-soft: when the
serialiser throws, the body becomes the text `Serialisation error: <error>`,
and the reported length is that text's UTF-8 byte count. The model follows
this intended behaviour (see below for how the text differs). Response equality compares status codes
only.

Files:

- `wrappers.dfy`: `Option` (Swift's `T?`) and `Result` (a call that may throw).
- `utf8.dfy`: Swift's `String.utf8` view as an encoder from Unicode scalars to
  bytes, with a decoder and the round-trip lemma.
- `http_response.dfy`: the data model and the dispatch functions. `headers()`
  is also written as a method with the source's loops (`BuildHeaders`, `MergeInto`).
- `http_response_properties.dfy`: lemmas about the model.

Modelling choices:

- A writer procedure (`HttpResponseBodyWriter throws -> Void`) is modelled as
  the calls it makes on the writer, in order (`WriteFile`, `WriteData`, `WriteSlice`).
- The JSON encoder behind `JsonResponse` and the closure call behind
  `CustomResponse` are defined outside this file. Callers supply them as
  `Renderers`: functions that return the rendered text or the thrown error.
- A rendered body is written as the UTF-8 bytes of its text, in one
  `write(data:)` call, and its length is their count. `JsonResponse`,
  `TextResponse`, `HtmlResponse`, `CustomResponse` and `ResponseProtocol` are
  not part of this model, so this is an assumption about them. It agrees with
  how the failure path at lines 54-57 builds its body.
- The `AnyObject` payload, the custom render closure, the `Socket -> Void`
  session handler and `File` are opaque identity tokens.
- `HttpServer.VERSION` is an uninitialised constant: any string.

Where the text and the intent differ:

- Lines 40 and 42 build the `Text` and `Html` responses from `object!`, which
  is not bound in those cases (`body` is).
- Each `let response` inside the switch shadows the outer `let response`
  declared at line 35, which is used at line 49 without being assigned.
- No call in the `do` block at lines 33-52 is marked `try`. That includes
  `JsonResponse(...)`, `CustomResponse(...)` and `response.content()` at lines
  38, 44 and 49. The only `try` is inside the closure at line 51, and that
  closure is not called within the block. Either those calls cannot throw, and
  then nothing reaches the `catch` at line 53, or they can throw, and calling
  them without `try` is one more compile error.
- So the file does not compile as written, and there is no as-written
  behaviour to model. The model follows the evident intent: each body variant
  is rendered from its own payload, `Text` and `Html` render as themselves,
  and a throwing render is caught and replaced by the diagnostic body.

## Model

| member | source | states |
|---|---|---|
| `Utf8.Encode` | Sources/HttpResponse.swift:54 | the UTF-8 view of a string has at least one byte per scalar |
| `Utf8.DecodeEncode` | Sources/HttpResponse.swift:54 | decoding the UTF-8 bytes of any string gives back that string, so the encoding is injective |
| `Utf8.EncodeAppend` | Sources/HttpResponse.swift:54 | the UTF-8 bytes of an interpolated string are the bytes of its parts, in order |
| `Utf8.EncodeAscii` | Sources/HttpResponse.swift:54 | an ASCII string has one byte per character, each equal to its code |
| `HttpResponses.Describe` | Sources/HttpResponse.swift:14-17 | a `SerializationError` prints as its case name, "InvalidObject" or "NotSupported", a non-empty ASCII string |
| `HttpResponses.Render` | Sources/HttpResponse.swift:36-47 | HTML and text bodies always render, to their own payload; a JSON body's outcome is the JSON serialiser's on its object, a custom body's is its closure's on its object |
| `HttpResponses.DiagnosticText` | Sources/HttpResponse.swift:54 | the fallback message is the 21-character prefix "Serialisation error: " followed by the error's description, and nothing else |
| `HttpResponses.BodyContent` | Sources/HttpResponse.swift:32-59 | body content always has a writer; it makes one buffer write whose size is the reported length |
| `HttpResponses.StatusCode` | Sources/HttpResponse.swift:71-85 | `RAW` returns its own code; every other variant has a code in 100..599 |
| `HttpResponses.ReasonPhrase` | Sources/HttpResponse.swift:87-101 | `RAW` returns its own phrase; every other variant has a non-empty fixed phrase |
| `HttpResponses.DefaultHeaders` | Sources/HttpResponse.swift:104 | the starting map has exactly one entry, `Server`, whose value is "Swifter " followed by the version |
| `HttpResponses.Headers` | Sources/HttpResponse.swift:103-127 | the header map always has `Server`; every caller header of a switch or of a `RAW` response is present with the caller's value; `Server` keeps the default signature whenever the caller headers do not name it (for the variants without caller headers, always) |
| `HttpResponses.MergeInto` | Sources/HttpResponse.swift:107-122 | the key-by-key update loop gives the old map overridden by the caller entries, in any iteration order |
| `HttpResponses.BuildHeaders` | Sources/HttpResponse.swift:103-127 | the imperative header construction yields exactly `Headers(r)` |
| `HttpResponses.Content` | Sources/HttpResponse.swift:129-136 | a length is known exactly for `OK` and for `BadRequest` with a body; content without a writer is exactly `(-1, nil)` |
| `HttpResponses.SocketSession` | Sources/HttpResponse.swift:138-143 | a session handler is present exactly for `SwitchProtocols`, and it is that variant's handler |
| `HttpResponses.Equal` | Sources/HttpResponse.swift:157-159 | every response equals itself, and two responses of the same fixed case are equal whatever their payloads; `EqualIsEquivalence`, `EqualIdentifiesFixedVariant` and `RawNotFoundEqualsNotFound` state the rest |
| `HttpResponseProperties.FixedStatusLines` | Sources/HttpResponse.swift:71-101 | whatever the payload, `SwitchProtocols` is 101 "Switching Protocols", `OK` 200 "OK", `Created` 201, `Accepted` 202, `MovedPermanently` 301 "Moved Permanently", `BadRequest` 400 "Bad Request", `Unauthorized` 401, `Forbidden` 403, `NotFound` 404 "Not Found" and `InternalServerError` 500 "Internal Server Error" |
| `HttpResponseProperties.StatusLineIsStandard` | Sources/HttpResponse.swift:71-101 | every fixed code and phrase pair is the one section 6.1 of RFC 7231 lists |
| `HttpResponseProperties.StatusLineIgnoresPayload` | Sources/HttpResponse.swift:71-101 | two responses with the same fixed variant have the same code and phrase, whatever their payloads |
| `HttpResponseProperties.RawStatusLine` | Sources/HttpResponse.swift:83 | `RAW(c, p, _, _)` has status code `c` and phrase `p` |
| `HttpResponseProperties.EqualIsEquivalence` | Sources/HttpResponse.swift:157-159 | `==` is reflexive, symmetric and transitive |
| `HttpResponseProperties.EqualIdentifiesFixedVariant` | Sources/HttpResponse.swift:157-159 | between non-`RAW` responses, `==` holds exactly when they are the same variant |
| `HttpResponseProperties.RawNotFoundEqualsNotFound` | Sources/HttpResponse.swift:157-159 | `RAW(404, …) == NotFound`, whatever the phrase, headers and writer |
| `HttpResponseProperties.HeadersDefaultOnly` | Sources/HttpResponse.swift:104-126 | `Created`, `Accepted`, `BadRequest`, `Unauthorized`, `Forbidden`, `NotFound`, `InternalServerError`, `RAW` without headers and `OK` with a text or custom body send exactly the one `Server` entry |
| `HttpResponseProperties.HeadersContentType` | Sources/HttpResponse.swift:110-115 | `OK` gets a `Content-Type` exactly for JSON (`application/json`) and HTML (`text/html`) bodies, and no other key |
| `HttpResponseProperties.HeadersLocation` | Sources/HttpResponse.swift:116-117 | a redirect sends `Location` equal to its argument, plus the default `Server`, and nothing else |
| `HttpResponseProperties.HeadersCallerWins` | Sources/HttpResponse.swift:106-123 | a protocol switch or a `RAW` response with headers sends every caller header with the caller's value; the only other key is `Server`, which keeps its default unless the caller sets it |
| `HttpResponseProperties.ContentAbsent` | Sources/HttpResponse.swift:132-134 | `BadRequest(nil)` and every variant other than `OK`, `BadRequest` and `RAW` give `(-1, nil)` |
| `HttpResponseProperties.ContentRawPassesWriter` | Sources/HttpResponse.swift:133 | `RAW` gives length -1 and its own writer unchanged |
| `HttpResponseProperties.ContentDelegatesToBody` | Sources/HttpResponse.swift:131-132 | `OK(b)` and `BadRequest(b)` give exactly `b`'s content |
| `HttpResponseProperties.ContentOfRenderedBody` | Sources/HttpResponse.swift:49-52 | a body that renders writes the UTF-8 bytes of its text in one buffer; the length is their count, and the bytes decode back to the text |
| `HttpResponseProperties.ContentOfTextAndHtml` | Sources/HttpResponse.swift:39-42 | text and HTML bodies write their own payload; an ASCII text has as many bytes as characters |
| `HttpResponseProperties.ContentOfPlainTextAbc` | Sources/HttpResponse.swift:39-52 | `Text("abc")` has length 3 and writes exactly the bytes 97, 98, 99 |
| `HttpResponseProperties.ContentOfFailedBody` | Sources/HttpResponse.swift:53-57 | a failed render does not fail: it writes, in one buffer, the bytes of "Serialisation error: " followed by the error's description; the length is 21 plus the description's byte count; the bytes decode to that message |
| `HttpResponseProperties.DiagnosticByteCount` | Sources/HttpResponse.swift:54 | the diagnostic message's UTF-8 bytes are the 21 prefix bytes plus the description's bytes |
| `HttpResponseProperties.FailedBodyLengths` | Sources/HttpResponse.swift:14-17 | the diagnostic body is 34 bytes for `InvalidObject` and 33 bytes for `NotSupported` |
| `HttpResponseProperties.ContentLengthIsWritten` | Sources/HttpResponse.swift:129-136 | for every response with a known length, the writer emits exactly that many bytes in one buffer |
| `HttpResponseProperties.SwitchProtocolsHasNoBody` | Sources/HttpResponse.swift:138-143 | only `SwitchProtocols` exposes a session handler; such a response is `101 Switching Protocols` with no content |

## Left out

- The `print(String(self))` trace at line 34. It writes diagnostic output and does not affect any result.
- The actual I/O of `HttpResponseBodyWriter`, `Socket` and `File`. A writer is only the list of calls it makes. Failures of those calls belong to the connection layer and are not modelled.
- `JsonResponse`, `TextResponse`, `HtmlResponse`, `CustomResponse` and `ResponseProtocol` are not part of this model. JSON and custom rendering are caller-supplied functions (`Renderers`). The rendered content is assumed to be the text's UTF-8 bytes in one buffer.
- The `default` case at lines 45-46 cannot be reached, because the switch already covers all four body variants.
- The order in which Swift iterates a dictionary. `MergeInto` picks keys in any order, and its result is the same for every order.
- `HttpServer.VERSION` is defined elsewhere. The model treats it as an unspecified constant.
- Swift's 64-bit `Int`. Status codes and lengths are unbounded integers. `RAW`'s code is only passed through and lengths are only counted, never computed on, so the missing 64-bit limit changes no result.
- Unicode canonical equivalence of dictionary keys. Swift compares `String` keys up to canonical equivalence, so a precomposed "é" and "e" followed by a combining accent are one key of a `[String: String]`. A Dafny `map<string, string>` keeps them as two keys, so the caller header maps of `SwitchProtocols` and `RAW` admit maps that no Swift dictionary can hold. On every map a Swift dictionary can hold the results agree, because "Server", "Content-Type" and "Location" have no other canonical form.
- `HttpResponses.Describe`: for errors thrown by a custom closure that are not `SerializationError`, the description is whatever text Swift's interpolation produces; the model takes it as given.
