/**
 * The logging interceptor: what it writes to its logger around one call of
 * `Chain.proceed`, and the predicates that decide whether a body is present,
 * encoded, and text.
 */
module HttpLogging {
  import opened Wrappers
  import opened JavaLang
  import opened Okio
  import opened OkHttp
  import opened Slf4j

  const DEFAULT_LOGGER_NAME := "okhttp3.logging.wire"
  const UTF8 := "UTF-8"
  const HTTP_CONTINUE := 100
  const HTTP_NO_CONTENT := 204
  const HTTP_NOT_MODIFIED := 304

  // ---------------------------------------------------------------------------
  // Plaintext detection

  /** `Character.isISOControl(codePoint)`. */
  predicate IsISOControl(codePoint: int) {
    0 <= codePoint <= 0x1F || 0x7F <= codePoint <= 0x9F
  }

  /**
   * `Character.isWhitespace(codePoint)` as in Java 9 and later: the space, line and
   * paragraph separators other than the no-break spaces, and U+0009–U+000D,
   * U+001C–U+001F. Java 8 also counts U+180E; that never changes a plaintext
   * verdict, which only asks about code points that are ISO controls.
   */
  predicate IsWhitespace(codePoint: int) {
    || 0x09 <= codePoint <= 0x0D
    || 0x1C <= codePoint <= 0x20
    || codePoint == 0x1680
    || 0x2000 <= codePoint <= 0x2006
    || 0x2008 <= codePoint <= 0x200A
    || codePoint == 0x2028 || codePoint == 0x2029
    || codePoint == 0x205F || codePoint == 0x3000
  }

  /** A code point that marks a body as binary. */
  predicate IsBinaryControl(codePoint: int) {
    IsISOControl(codePoint) && !IsWhitespace(codePoint)
  }

  /** Whether reading at most `budget` more code points from `prefix` meets neither a binary control nor a truncated sequence. */
  function PlaintextFrom(prefix: seq<bv8>, budget: nat): bool
    decreases budget
  {
    if budget == 0 || prefix == [] then true
    else match DecodeUtf8CodePoint(prefix)
      case Eof => false
      case CodePoint(codePoint, size) =>
        if IsBinaryControl(codePoint) then false else PlaintextFrom(prefix[size..], budget - 1)
  }

  /** The first `min(|data|, 64)` bytes: the sample that plaintext detection reads. */
  function Sample(data: seq<bv8>): (s: seq<bv8>)
    ensures |s| <= 64 && s <= data
    ensures |data| <= 64 ==> s == data
    ensures |s| == if |data| < 64 then |data| else 64
  {
    if |data| < 64 then data else data[..64]
  }

  /** The verdict of `isPlaintext` on a buffer holding `data`. */
  function LooksPlaintext(data: seq<bv8>): bool {
    PlaintextFrom(Sample(data), 16)
  }

  /**
   * `isPlaintext(buffer)`: copies the sample into a scratch buffer and reads up to
   * 16 code points from it. The caller's buffer is not in the frame: it keeps
   * every byte.
   */
  method IsPlaintext(buffer: Buffer) returns (r: bool)
    ensures r == LooksPlaintext(buffer.data)
  {
    var prefix := new Buffer();
    var byteCount := if buffer.Size() < 64 then buffer.Size() else 64;
    buffer.CopyTo(prefix, 0, byteCount);
    assert prefix.data == Sample(buffer.data);
    for i := 0 to 16
      modifies prefix
      invariant PlaintextFrom(prefix.data, 16 - i) == LooksPlaintext(buffer.data)
    {
      var exhausted := prefix.Exhausted();
      if exhausted {
        break;
      }
      ghost var rest := prefix.data;
      var read := prefix.ReadUtf8CodePoint();
      PlaintextFromStep(rest, 16 - i);
      match read
      case Eof =>
        return false; // the input ends inside a multi-byte sequence
      case CodePoint(codePoint, _) =>
        if IsISOControl(codePoint) && !IsWhitespace(codePoint) {
          return false;
        }
    }
    return true;
  }

  /** One step of `PlaintextFrom`: the verdict after reading the first code point of a non-empty prefix. */
  lemma PlaintextFromStep(prefix: seq<bv8>, budget: nat)
    requires prefix != [] && budget > 0
    ensures DecodeUtf8CodePoint(prefix).Eof? ==> !PlaintextFrom(prefix, budget)
    ensures DecodeUtf8CodePoint(prefix).CodePoint? ==>
      var read := DecodeUtf8CodePoint(prefix);
      PlaintextFrom(prefix, budget)
      == (!IsBinaryControl(read.value) && PlaintextFrom(prefix[read.size..], budget - 1))
  {
  }

  // ---------------------------------------------------------------------------
  // Header rules

  /** `stringToLong(s)`: -1 for a missing value or one `Long.parseLong` refuses. */
  function StringToLong(s: Option<string>): (r: int)
    ensures r == -1 || IsLong(r)
    ensures s.None? ==> r == -1
  {
    if s.None? then -1
    else match ParseLong(s.value)
      case None => -1
      case Some(n) => n
  }

  /** `contentLength(headers)`: the Content-Length header as a number, -1 when absent or malformed. */
  function ContentLength(headers: seq<Header>): (r: int)
    ensures r == -1 || IsLong(r)
    ensures Get(headers, "Content-Length").None? ==> r == -1
  {
    StringToLong(Get(headers, "Content-Length"))
  }

  /** `contentLength(response)`. */
  function ResponseContentLength(response: Response): (r: int)
    ensures r == -1 || IsLong(r)
    ensures Get(response.headers, "Content-Length").None? ==> r == -1
  {
    ContentLength(response.headers)
  }

  /** Whether the status code alone promises a body: anything but 1xx, 204 and 304. */
  predicate StatusAllowsBody(code: int) {
    (code < HTTP_CONTINUE || code >= 200) && code != HTTP_NO_CONTENT && code != HTTP_NOT_MODIFIED
  }

  /** Whether Transfer-Encoding is "chunked" ignoring case. */
  predicate IsChunked(headers: seq<Header>) {
    var te := Get(headers, "Transfer-Encoding");
    te.Some? && EqualsIgnoreCase("chunked", te.value)
  }

  /**
   * `hasBody(response)`: never for a HEAD request; otherwise when the status code
   * promises one, or when the headers announce one despite the code.
   */
  function HasBody(response: Response): (r: bool)
    ensures response.request.httpMethod == "HEAD" ==> !r
    ensures r ==> StatusAllowsBody(response.code) || ResponseContentLength(response) != -1 || IsChunked(response.headers)
  {
    if response.request.httpMethod == "HEAD" then false
    else if StatusAllowsBody(response.code) then true
    else if ResponseContentLength(response) != -1 || IsChunked(response.headers) then true
    else false
  }

  /** `bodyEncoded(headers)`: a Content-Encoding other than "identity" ignoring case. */
  function BodyEncoded(headers: seq<Header>): (r: bool)
    ensures Get(headers, "Content-Encoding").None? ==> !r
  {
    var ce := Get(headers, "Content-Encoding");
    ce.Some? && !EqualsIgnoreCase(ce.value, "identity")
  }

  /** The charset a body is read with: its media type's, defaulting to UTF-8. */
  function CharsetOf(contentType: Option<MediaType>): (r: string)
    ensures contentType.None? ==> r == UTF8
    ensures r == UTF8 || (contentType.Some? && contentType.value.charset == Some(r))
    ensures contentType.Some? && contentType.value.charset.Some? ==> r == contentType.value.charset.value
  {
    if contentType.None? then UTF8
    else if contentType.value.charset.Some? then contentType.value.charset.value
    else UTF8
  }

  // ---------------------------------------------------------------------------
  // The lines `intercept` logs

  function InfoLine(s: string): LogCall {
    LogCall(INFO, Text(s))
  }

  function DebugLine(s: string): LogCall {
    LogCall(DEBUG, Text(s))
  }

  /** The protocol named on the request line: the connection's, and HTTP/1.1 when there is no connection. */
  function ProtocolOf(connection: Option<Connection>): (r: Protocol)
    ensures connection.None? ==> r == Http1_1
    ensures connection.Some? ==> r == connection.value.protocol
  {
    if connection.Some? then connection.value.protocol else Http1_1
  }

  function RequestStartLine(request: Request, protocol: Protocol): LogCall {
    InfoLine("--> " + request.httpMethod + " " + request.url + " " + protocol.Name())
  }

  /** The Content-Type and Content-Length lines taken from the request body itself. */
  function BodyHeaderLines(body: Option<RequestBody>): seq<LogCall> {
    if body.None? then []
    else
      (if body.value.contentType.Some? then [InfoLine("Content-Type: " + body.value.contentType.value.text)] else [])
      + (if body.value.contentLength != -1 then [InfoLine("Content-Length: " + LongToString(body.value.contentLength))] else [])
  }

  function HeaderLine(h: Header): LogCall {
    InfoLine(h.name + ": " + h.value)
  }

  /** The request headers already logged from the body: Content-Type and Content-Length. */
  predicate IsBodyHeader(name: string) {
    EqualsIgnoreCase("Content-Type", name) || EqualsIgnoreCase("Content-Length", name)
  }

  /** The header loop on the request side, which skips the body headers. */
  function RequestHeaderLines(headers: seq<Header>): seq<LogCall> {
    if headers == [] then []
    else
      var last := headers[|headers| - 1];
      RequestHeaderLines(headers[..|headers| - 1]) + (if IsBodyHeader(last.name) then [] else [HeaderLine(last)])
  }

  /** The header loop on the response side, which logs every header. */
  function ResponseHeaderLines(headers: seq<Header>): seq<LogCall> {
    if headers == [] then []
    else ResponseHeaderLines(headers[..|headers| - 1]) + [HeaderLine(headers[|headers| - 1])]
  }

  /** What closes the request side when headers are logged. */
  function RequestEndLines(logBody: bool, request: Request): seq<LogCall> {
    var m := request.httpMethod;
    if !logBody || request.body.None? then [InfoLine("--> END " + m)]
    else if BodyEncoded(request.headers) then [InfoLine("--> END " + m + " (encoded body omitted)")]
    else
      var body := request.body.value;
      var size := LongToString(body.contentLength);
      if LooksPlaintext(body.bytes) then
        [DebugLine(""),
         LogCall(DEBUG, Body(DecodedText(CharsetOf(body.contentType), body.bytes))),
         DebugLine("--> END " + m + " (" + size + "-byte body)")]
      else
        [DebugLine(""), DebugLine("--> END " + m + " (binary " + size + "-byte body omitted")]
  }

  /** Every line logged before `proceed` is called. */
  function RequestLog(logBody: bool, logHeaders: bool, request: Request, protocol: Protocol): seq<LogCall> {
    if logHeaders then
      [RequestStartLine(request, protocol)] + BodyHeaderLines(request.body)
      + RequestHeaderLines(request.headers) + RequestEndLines(logBody, request)
    else [RequestStartLine(request, protocol)]
  }

  function FailedLine(e: Exception): LogCall {
    InfoLine("<-- HTTP FAILED: " + e.description)
  }

  function BodySize(contentLength: int): string {
    if contentLength != -1 then LongToString(contentLength) + "-byte" else "unknown-length"
  }

  function StatusLine(logHeaders: bool, response: Response, tookMs: nat): LogCall {
    InfoLine("<-- " + LongToString(response.code) + " " + response.message + " " + response.request.url
             + " (took " + LongToString(tookMs) + " ms "
             + (if !logHeaders then ", " + BodySize(response.body.contentLength) + " body" else "") + ")")
  }

  /** What closes the response side when headers are logged; `content` is the whole body. */
  function ResponseEndLines(logBody: bool, response: Response, content: seq<bv8>): seq<LogCall> {
    if !logBody || !HasBody(response) then [InfoLine("<-- END HTTP")]
    else if BodyEncoded(response.headers) then [InfoLine("<-- END HTTP (encoded body omitted)")]
    else if !LooksPlaintext(content) then
      [DebugLine(""), DebugLine("<-- END HTTP (binary " + LongToString(|content|) + "-byte body omitted)")]
    else if response.body.contentLength != 0 then
      [DebugLine(""),
       LogCall(DEBUG, Body(DecodedText(CharsetOf(response.body.contentType), content))),
       DebugLine("<-- END HTTP (" + LongToString(|content|) + "-byte body)")]
    else [DebugLine("<-- END HTTP (" + LongToString(|content|) + "-byte body)")]
  }

  /** Every line logged after `proceed` returned `response`. */
  function ResponseLog(logBody: bool, logHeaders: bool, response: Response, content: seq<bv8>, tookMs: nat): seq<LogCall> {
    if logHeaders then
      [StatusLine(logHeaders, response, tookMs)] + ResponseHeaderLines(response.headers)
      + ResponseEndLines(logBody, response, content)
    else [StatusLine(logHeaders, response, tookMs)]
  }

  /** What `intercept` logs after `proceed` returns or throws. */
  function OutcomeLog(logBody: bool, logHeaders: bool, outcome: Outcome, content: seq<bv8>, tookMs: nat): seq<LogCall> {
    match outcome
    case Threw(e) => [FailedLine(e)]
    case Responded(response) => ResponseLog(logBody, logHeaders, response, content, tookMs)
  }

  /**
   * Every line one `intercept` call logs, given the logger's two level answers,
   * the chain's request, connection and `proceed` outcome, the full response
   * body and the elapsed milliseconds.
   */
  function InterceptLog(debugEnabled: bool, infoEnabled: bool, request: Request, connection: Option<Connection>,
                        outcome: Outcome, content: seq<bv8>, tookMs: nat): (log: seq<LogCall>)
    ensures |log| >= 2 && log[0] == RequestStartLine(request, ProtocolOf(connection))
  {
    var logBody := debugEnabled;
    var logHeaders := logBody || infoEnabled;
    RequestLog(logBody, logHeaders, request, ProtocolOf(connection))
    + OutcomeLog(logBody, logHeaders, outcome, content, tookMs)
  }

  lemma AppendTwo(a: seq<LogCall>, x: LogCall, y: LogCall)
    ensures a + [x] + [y] == a + [x, y]
  {
  }

  lemma AppendThree(a: seq<LogCall>, x: LogCall, y: LogCall, z: LogCall)
    ensures a + [x] + [y] + [z] == a + [x, y, z]
  {
  }

  lemma AppendThreeParts(a: seq<LogCall>, b: seq<LogCall>, c: seq<LogCall>)
    ensures a + b + c == a + (b + c)
  {
  }

  lemma AppendFourParts(a: seq<LogCall>, b: seq<LogCall>, c: seq<LogCall>, d: seq<LogCall>)
    ensures a + b + c + d == a + (b + c + d)
  {
  }

  lemma AppendAssociative(a: seq<LogCall>, b: seq<LogCall>, c: seq<LogCall>, d: seq<LogCall>, e: seq<LogCall>)
    ensures a + b + c + d + e == a + (b + c + d + e)
  {
  }

  // ---------------------------------------------------------------------------
  // The interceptor

  class HttpLoggingInterceptor {
    const logger: Logger

    constructor (logger: Logger)
      ensures this.logger == logger
    {
      this.logger := logger;
    }

    /** `new HttpLoggingInterceptor(logger)`: refuses a null logger. */
    static method Create(logger: Logger?) returns (r: Result<HttpLoggingInterceptor>)
      ensures r.Failure? <==> logger == null
      ensures r.Failure? ==> r.error == "Can't use null logger"
      ensures r.Success? ==> r.value.logger == logger
    {
      if logger == null {
        return Failure("Can't use null logger");
      }
      var interceptor := new HttpLoggingInterceptor(logger);
      return Success(interceptor);
    }

    /**
     * `new HttpLoggingInterceptor()`: logs to the one shared logger named
     * DEFAULT_LOGGER_NAME, so every interceptor built this way writes to the same log.
     */
    static method CreateDefault(defaultLogger: Logger) returns (r: HttpLoggingInterceptor)
      requires defaultLogger.name == DEFAULT_LOGGER_NAME
      ensures r.logger == defaultLogger
    {
      r := new HttpLoggingInterceptor(defaultLogger);
    }

    /**
     * `intercept(chain)`: logs the request, calls `proceed` once, logs the
     * response or the failure, and hands back exactly what `proceed` produced.
     * `tookMs` is the time `proceed` took, as measured by the clock.
     */
    method Intercept(chain: Chain, tookMs: nat) returns (outcome: Outcome)
      modifies logger, chain, chain.ResponseFrame()
      ensures outcome == chain.outcome
      ensures chain.proceeded == old(chain.proceeded) + [chain.request]
      ensures chain.ResponseContent() == old(chain.ResponseContent())
      ensures logger.calls == old(logger.calls)
        + InterceptLog(logger.debugEnabled, logger.infoEnabled, chain.request, chain.connection,
                       chain.outcome, old(chain.ResponseContent()), tookMs)
    {
      var logBody := logger.debugEnabled;
      var logHeaders := logBody || logger.infoEnabled;

      var request := chain.request;
      var protocol := if chain.connection.Some? then chain.connection.value.protocol else Http1_1;

      LogRequest(request, protocol, logBody, logHeaders);
      ghost var requestLog := RequestLog(logBody, logHeaders, request, protocol);

      var result := chain.Proceed(request);
      if result.Threw? {
        logger.Info("<-- HTTP FAILED: " + result.exception.description);
        AppendThreeParts(old(logger.calls), requestLog, [FailedLine(result.exception)]);
        return result;
      }

      ghost var content := chain.ResponseContent();
      LogResponse(result.response, tookMs, logBody, logHeaders);
      AppendThreeParts(old(logger.calls), requestLog, ResponseLog(logBody, logHeaders, result.response, content, tookMs));
      return result;
    }

    /** The part of `intercept` before `proceed`: the request line, then, when headers are logged, headers and body. */
    method LogRequest(request: Request, protocol: Protocol, logBody: bool, logHeaders: bool)
      modifies logger
      ensures logger.calls == old(logger.calls) + RequestLog(logBody, logHeaders, request, protocol)
    {
      logger.Info("--> " + request.httpMethod + " " + request.url + " " + protocol.Name());
      if logHeaders {
        LogBodyHeaders(request.body);
        LogRequestHeaders(request.headers);
        LogRequestEnd(logBody, request);
        AppendAssociative(old(logger.calls), [RequestStartLine(request, protocol)], BodyHeaderLines(request.body),
                          RequestHeaderLines(request.headers), RequestEndLines(logBody, request));
      }
    }

    /** The Content-Type and Content-Length lines taken from the request body, when there is one. */
    method LogBodyHeaders(requestBody: Option<RequestBody>)
      modifies logger
      ensures logger.calls == old(logger.calls) + BodyHeaderLines(requestBody)
    {
      if requestBody.Some? {
        if requestBody.value.contentType.Some? {
          logger.Info("Content-Type: " + requestBody.value.contentType.value.text);
        }
        if requestBody.value.contentLength != -1 {
          logger.Info("Content-Length: " + LongToString(requestBody.value.contentLength));
        }
      }
    }

    /** The loop over the request headers, skipping those named Content-Type or Content-Length. */
    method LogRequestHeaders(headers: seq<Header>)
      modifies logger
      ensures logger.calls == old(logger.calls) + RequestHeaderLines(headers)
    {
      for i := 0 to |headers|
        invariant logger.calls == old(logger.calls) + RequestHeaderLines(headers[..i])
      {
        var name := headers[i].name;
        assert headers[..i + 1][..i] == headers[..i];
        if !EqualsIgnoreCase("Content-Type", name) && !EqualsIgnoreCase("Content-Length", name) {
          logger.Info(name + ": " + headers[i].value);
        }
      }
      assert headers[..|headers|] == headers;
    }

    /** The line that ends the request, preceded by the body when it is logged. */
    method LogRequestEnd(logBody: bool, request: Request)
      modifies logger
      ensures logger.calls == old(logger.calls) + RequestEndLines(logBody, request)
    {
      var m := request.httpMethod;
      if !logBody || request.body.None? {
        logger.Info("--> END " + m);
      } else if BodyEncoded(request.headers) {
        logger.Info("--> END " + m + " (encoded body omitted)");
      } else {
        var requestBody := request.body.value;
        var buffer := new Buffer();
        buffer.Write(requestBody.bytes);

        var charset := CharsetOf(requestBody.contentType);

        logger.Debug(Text("")); // a blank line before the body
        var plain := IsPlaintext(buffer);
        assert buffer.data == requestBody.bytes;
        if plain {
          var text := buffer.ReadString(charset);
          logger.Debug(Body(text));
          var end := "--> END " + m + " (" + LongToString(requestBody.contentLength) + "-byte body)";
          logger.Debug(Text(end));
          AppendThree(old(logger.calls), DebugLine(""), LogCall(DEBUG, Body(text)), DebugLine(end));
        } else {
          var end := "--> END " + m + " (binary " + LongToString(requestBody.contentLength) + "-byte body omitted";
          logger.Debug(Text(end));
          AppendTwo(old(logger.calls), DebugLine(""), DebugLine(end));
        }
      }
    }

    /** The part of `intercept` after `proceed` returned: the status line, then, when headers are logged, headers and body. */
    method LogResponse(response: Response, tookMs: nat, logBody: bool, logHeaders: bool)
      modifies logger, response.body, response.body.buffer
      ensures response.body.Content() == old(response.body.Content())
      ensures logger.calls == old(logger.calls) + ResponseLog(logBody, logHeaders, response, old(response.body.Content()), tookMs)
    {
      ghost var content := response.body.Content();
      ghost var before := logger.calls;
      var contentLength := response.body.contentLength;
      var bodySize := if contentLength != -1 then LongToString(contentLength) + "-byte" else "unknown-length";
      var status := "<-- " + LongToString(response.code) + " " + response.message + " " + response.request.url
                    + " (took " + LongToString(tookMs) + " ms "
                    + (if !logHeaders then ", " + bodySize + " body" else "") + ")";
      assert InfoLine(status) == StatusLine(logHeaders, response, tookMs);
      logger.Info(status);

      if logHeaders {
        LogResponseHeaders(response.headers);
        LogResponseEnd(logBody, response);
        AppendFourParts(before, [InfoLine(status)], ResponseHeaderLines(response.headers),
                        ResponseEndLines(logBody, response, content));
      }
    }

    /** The loop over the response headers, all of them. */
    method LogResponseHeaders(headers: seq<Header>)
      modifies logger
      ensures logger.calls == old(logger.calls) + ResponseHeaderLines(headers)
    {
      for i := 0 to |headers|
        invariant logger.calls == old(logger.calls) + ResponseHeaderLines(headers[..i])
      {
        assert headers[..i + 1][..i] == headers[..i];
        logger.Info(headers[i].name + ": " + headers[i].value);
      }
      assert headers[..|headers|] == headers;
    }

    /**
     * The line that ends the response, preceded by the body when it is logged.
     * Buffering the body moves its unread bytes into the body's own buffer,
     * which is then only copied: the caller can still read every byte.
     */
    method LogResponseEnd(logBody: bool, response: Response)
      modifies response.body, response.body.buffer
      modifies logger
      ensures response.body.Content() == old(response.body.Content())
      ensures logger.calls == old(logger.calls) + ResponseEndLines(logBody, response, old(response.body.Content()))
    {
      var responseBody := response.body;
      if !logBody || !HasBody(response) {
        logger.Info("<-- END HTTP");
      } else if BodyEncoded(response.headers) {
        logger.Info("<-- END HTTP (encoded body omitted)");
      } else {
        responseBody.RequestAll(); // pull the rest of the body into its buffer
        var buffer := responseBody.buffer;

        var charset := CharsetOf(responseBody.contentType);

        var plain := IsPlaintext(buffer);
        if !plain {
          var end := "<-- END HTTP (binary " + LongToString(buffer.Size()) + "-byte body omitted)";
          logger.Debug(Text(""));
          logger.Debug(Text(end));
          AppendTwo(old(logger.calls), DebugLine(""), DebugLine(end));
          return;
        }

        if responseBody.contentLength != 0 {
          logger.Debug(Text(""));
          var copy := buffer.Clone();
          var text := copy.ReadString(charset);
          logger.Debug(Body(text));
          var end := "<-- END HTTP (" + LongToString(buffer.Size()) + "-byte body)";
          logger.Debug(Text(end));
          AppendThree(old(logger.calls), DebugLine(""), LogCall(DEBUG, Body(text)), DebugLine(end));
        } else {
          logger.Debug(Text("<-- END HTTP (" + LongToString(buffer.Size()) + "-byte body)"));
        }
      }
    }
  }
}
