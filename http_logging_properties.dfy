/**
 * What the interceptor promises, stated about the model in `HttpLogging`:
 * plaintext detection against an independent reading of the code points,
 * the header rules against RFC 7230 and `Long.parseLong`, and the shape of the
 * log one `intercept` call writes.
 */
module HttpLoggingProperties {
  import opened Wrappers
  import opened JavaLang
  import opened Okio
  import opened OkHttp
  import opened Slf4j
  import opened HttpLogging

  // ---------------------------------------------------------------------------
  // Plaintext detection

  /** The code points read from some bytes, and whether reading stopped at a truncated sequence. */
  datatype Scan = Scan(codePoints: seq<int>, truncated: bool)

  /** Reads up to `limit` code points, stopping early at the end of the bytes or at a truncated sequence. */
  function ScanCodePoints(bytes: seq<bv8>, limit: nat): (s: Scan)
    ensures |s.codePoints| <= limit
    ensures s.truncated ==> limit > 0
    decreases limit
  {
    if limit == 0 || bytes == [] then Scan([], false)
    else match DecodeUtf8CodePoint(bytes)
      case Eof => Scan([], true)
      case CodePoint(codePoint, size) =>
        var rest := ScanCodePoints(bytes[size..], limit - 1);
        Scan([codePoint] + rest.codePoints, rest.truncated)
  }

  /** A scan that met neither a truncated sequence nor a binary control character. */
  predicate Clean(s: Scan) {
    !s.truncated && forall i :: 0 <= i < |s.codePoints| ==> !IsBinaryControl(s.codePoints[i])
  }

  lemma {:induction false} PlaintextFromIsCleanScan(prefix: seq<bv8>, budget: nat)
    ensures PlaintextFrom(prefix, budget) == Clean(ScanCodePoints(prefix, budget))
    decreases budget
  {
    if budget > 0 && prefix != [] {
      match DecodeUtf8CodePoint(prefix)
      case Eof =>
      case CodePoint(codePoint, size) =>
        PlaintextFromIsCleanScan(prefix[size..], budget - 1);
        var rest := ScanCodePoints(prefix[size..], budget - 1);
        var all := [codePoint] + rest.codePoints;
        assert ScanCodePoints(prefix, budget) == Scan(all, rest.truncated);
        assert PlaintextFrom(prefix, budget) == (!IsBinaryControl(codePoint) && PlaintextFrom(prefix[size..], budget - 1));
        assert all[0] == codePoint;
        assert forall i :: 0 <= i < |rest.codePoints| ==> all[i + 1] == rest.codePoints[i];
    }
  }

  /**
   * `isPlaintext` is false exactly when, among at most 16 code points read from
   * at most the first 64 bytes, one is an ISO control character that is not
   * whitespace, or a sequence is cut short.
   */
  lemma LooksPlaintextIff(data: seq<bv8>)
    ensures |Sample(data)| <= 64 && |ScanCodePoints(Sample(data), 16).codePoints| <= 16
    ensures LooksPlaintext(data) <==> Clean(ScanCodePoints(Sample(data), 16))
  {
    PlaintextFromIsCleanScan(Sample(data), 16);
  }

  /** The ISO control characters that are not whitespace: U+0000–0008, U+000E–001B and U+007F–009F. */
  lemma BinaryControlRanges(codePoint: int)
    ensures IsBinaryControl(codePoint) <==>
      (0 <= codePoint <= 0x08 || 0x0E <= codePoint <= 0x1B || 0x7F <= codePoint <= 0x9F)
  {
  }

  /** Bytes past the 64th never change the verdict. */
  lemma OnlyTheSampleMatters(data: seq<bv8>, more: seq<bv8>)
    requires |data| >= 64
    ensures LooksPlaintext(data + more) == LooksPlaintext(data)
  {
    assert (data + more)[..64] == data[..64];
  }

  lemma EmptyIsPlaintext()
    ensures LooksPlaintext([])
  {
  }

  /** ASCII bytes that are printable or whitespace. */
  predicate IsTextAscii(b: bv8) {
    b < 0x80 && !IsBinaryControl(b as int)
  }

  lemma {:induction false} TextAsciiFrom(prefix: seq<bv8>, budget: nat)
    requires forall i :: 0 <= i < |prefix| ==> IsTextAscii(prefix[i])
    ensures PlaintextFrom(prefix, budget)
    decreases budget
  {
    if budget > 0 && prefix != [] {
      assert DecodeUtf8CodePoint(prefix) == CodePoint(prefix[0] as int, 1);
      TextAsciiFrom(prefix[1..], budget - 1);
    }
  }

  /** A body of printable ASCII and whitespace is text. */
  lemma TextAsciiIsPlaintext(data: seq<bv8>)
    requires forall i :: 0 <= i < |data| ==> IsTextAscii(data[i])
    ensures LooksPlaintext(data)
  {
    TextAsciiFrom(Sample(data), 16);
  }

  /** A body that opens with a binary control character, such as NUL, is binary. */
  lemma LeadingControlIsBinary(data: seq<bv8>)
    requires |data| > 0 && data[0] < 0x80 && IsBinaryControl(data[0] as int)
    ensures !LooksPlaintext(data)
  {
    assert Sample(data)[0] == data[0];
  }

  lemma {:induction false} TruncatedFrom(text: seq<bv8>, cut: seq<bv8>, budget: nat)
    requires forall i :: 0 <= i < |text| ==> IsTextAscii(text[i])
    requires |text| < budget
    requires cut != [] && |cut| < SequenceLength(cut[0])
    ensures !PlaintextFrom(text + cut, budget)
    decreases budget
  {
    if text == [] {
      assert text + cut == cut;
    } else {
      assert DecodeUtf8CodePoint(text + cut) == CodePoint(text[0] as int, 1);
      assert (text + cut)[1..] == text[1..] + cut;
      TruncatedFrom(text[1..], cut, budget - 1);
    }
  }

  /**
   * A body cut inside a multi-byte sequence is binary, when the cut is among the
   * first 16 code points: here up to 15 ASCII text characters, then a lead byte
   * followed by fewer continuation bytes than it announces.
   */
  lemma TruncatedIsBinary(text: seq<bv8>, cut: seq<bv8>)
    requires forall i :: 0 <= i < |text| ==> IsTextAscii(text[i])
    requires |text| <= 15
    requires cut != [] && |cut| < SequenceLength(cut[0])
    ensures !LooksPlaintext(text + cut)
  {
    assert |cut| <= 4;
    assert Sample(text + cut) == text + cut;
    TruncatedFrom(text, cut, 16);
  }

  lemma TruncatedExamples()
    ensures !LooksPlaintext([0xE2, 0x82])
    ensures !LooksPlaintext([0x68, 0x69, 0xC3])
  {
    TruncatedIsBinary([], [0xE2, 0x82]);
    var text: seq<bv8>, cut: seq<bv8> := [0x68, 0x69], [0xC3];
    assert text + cut == [0x68, 0x69, 0xC3];
    TruncatedIsBinary(text, cut);
  }

  // ---------------------------------------------------------------------------
  // Header rules

  /**
   * Section 3.3.3 of RFC 7230: responses to HEAD, 2xx responses to CONNECT and
   * responses with a 1xx, 204 or 304 status carry no body; every other response does.
   */
  predicate RfcExpectsBody(requestMethod: string, code: int) {
    && requestMethod != "HEAD"
    && !(requestMethod == "CONNECT" && 200 <= code < 300)
    && !(100 <= code < 200) && code != 204 && code != 304
  }

  /** HEAD responses never have a body, whatever the status code and headers. */
  lemma HeadNeverHasBody(response: Response)
    requires response.request.httpMethod == "HEAD"
    ensures !HasBody(response)
  {
  }

  /**
   * `hasBody` agrees with RFC 7230 wherever the RFC expects a body. It departs
   * from it only for a 2xx response to CONNECT, which it treats like any other
   * 2xx, and to honour a Content-Length or chunked Transfer-Encoding that a
   * bodiless status code contradicts.
   */
  lemma HasBodyAgainstRfc(response: Response)
    ensures RfcExpectsBody(response.request.httpMethod, response.code) ==> HasBody(response)
    ensures HasBody(response) && !RfcExpectsBody(response.request.httpMethod, response.code) ==>
      response.request.httpMethod != "HEAD"
      && ((response.request.httpMethod == "CONNECT" && 200 <= response.code < 300)
          || ContentLength(response.headers) != -1 || IsChunked(response.headers))
    ensures response.request.httpMethod != "HEAD" ==>
      (HasBody(response) <==>
         StatusAllowsBody(response.code) || ContentLength(response.headers) != -1 || IsChunked(response.headers))
  {
  }

  lemma HasBodyExamples(get: Request, body: ResponseBody)
    requires get.httpMethod == "GET"
    ensures HasBody(Response(200, "OK", get, [], body))
    ensures !HasBody(Response(204, "No Content", get, [], body))
    ensures !HasBody(Response(304, "Not Modified", get, [], body))
    ensures HasBody(Response(304, "Not Modified", get, [Header("Transfer-Encoding", "chunked")], body))
    ensures HasBody(Response(204, "No Content", get, [Header("Content-Length", "0")], body))
    ensures HasBody(Response(200, "OK", get.(httpMethod := "CONNECT"), [], body))
  {
    assert EqualsIgnoreCase("Transfer-Encoding", "Transfer-Encoding");
    assert EqualsIgnoreCase("chunked", "chunked");
    assert EqualsIgnoreCase("Content-Length", "Content-Length");
    assert "0"[1..] == [];
  }

  /** The last header with a given name, ignoring case, is the one `Headers.get` returns. */
  lemma GetLastHeader(headers: seq<Header>, name: string, value: string, asked: string)
    requires EqualsIgnoreCase(asked, name)
    ensures Get(headers + [Header(name, value)], asked) == Some(value)
  {
    assert (headers + [Header(name, value)])[|headers|] == Header(name, value);
  }

  /** Content-Length: a value `Long.parseLong` accepts is returned as is; anything else gives -1. */
  lemma ContentLengthOfValue(headers: seq<Header>, value: string)
    ensures ContentLength(headers + [Header("Content-Length", value)])
         == (if ParseLong(value).Some? then ParseLong(value).value else -1)
  {
    GetLastHeader(headers, "Content-Length", value, "Content-Length");
  }

  /** Every `long` written as a Content-Length is read back unchanged. */
  lemma ContentLengthRoundTrip(headers: seq<Header>, n: int)
    requires IsLong(n)
    ensures ContentLength(headers + [Header("Content-Length", LongToString(n))]) == n
  {
    ContentLengthOfValue(headers, LongToString(n));
    ParseLongOfLongToString(n);
  }

  lemma ContentLengthExamples()
    ensures ContentLength([]) == -1
    ensures ContentLength([Header("Content-Length", "42")]) == 42
    ensures ContentLength([Header("Content-Length", "abc")]) == -1
    ensures ContentLength([Header("Content-Length", "")]) == -1
  {
    ParseLongExamples();
    ContentLengthOfValue([], "42");
    ContentLengthOfValue([], "abc");
    ContentLengthOfValue([], "");
  }

  /** Content-Encoding: encoded unless absent or "identity" in any case. */
  lemma BodyEncodedOfValue(headers: seq<Header>, value: string)
    ensures BodyEncoded(headers + [Header("Content-Encoding", value)]) == !EqualsIgnoreCase(value, "identity")
  {
    GetLastHeader(headers, "Content-Encoding", value, "Content-Encoding");
  }

  lemma BodyEncodedExamples()
    ensures !BodyEncoded([])
    ensures !BodyEncoded([Header("Content-Encoding", "identity")])
    ensures !BodyEncoded([Header("Content-Encoding", "IDENTITY")])
    ensures BodyEncoded([Header("Content-Encoding", "gzip")])
  {
    BodyEncodedOfValue([], "identity");
    BodyEncodedOfValue([], "IDENTITY");
    BodyEncodedOfValue([], "gzip");
    assert EqualsIgnoreCase("IDENTITY", "identity");
    assert "gzip"[0] != "identity"[0];
  }

  // ---------------------------------------------------------------------------
  // Header loops

  /** The request headers the request-side loop logs: every one but Content-Type and Content-Length, in order. */
  function KeptHeaders(headers: seq<Header>): seq<Header> {
    if headers == [] then []
    else
      var last := headers[|headers| - 1];
      KeptHeaders(headers[..|headers| - 1]) + (if IsBodyHeader(last.name) then [] else [last])
  }

  lemma {:induction false} KeptHeadersMembers(headers: seq<Header>)
    ensures forall h :: h in KeptHeaders(headers) <==> h in headers && !IsBodyHeader(h.name)
  {
    if headers != [] {
      var init, last := headers[..|headers| - 1], headers[|headers| - 1];
      KeptHeadersMembers(init);
      assert headers == init + [last];
    }
  }

  /** The response-side loop logs every header, one line each, in order. */
  lemma {:induction false} ResponseHeaderLinesInOrder(headers: seq<Header>)
    ensures |ResponseHeaderLines(headers)| == |headers|
    ensures forall i :: 0 <= i < |headers| ==> ResponseHeaderLines(headers)[i] == HeaderLine(headers[i])
  {
    if headers != [] {
      ResponseHeaderLinesInOrder(headers[..|headers| - 1]);
    }
  }

  /**
   * The request-side loop logs, in order, exactly the headers that are not
   * Content-Type or Content-Length: the same lines the response-side loop
   * would log for those headers alone.
   */
  lemma {:induction false} RequestHeaderLinesAreKept(headers: seq<Header>)
    ensures RequestHeaderLines(headers) == ResponseHeaderLines(KeptHeaders(headers))
  {
    if headers != [] {
      var init, last := headers[..|headers| - 1], headers[|headers| - 1];
      RequestHeaderLinesAreKept(init);
      if IsBodyHeader(last.name) {
        assert RequestHeaderLines(headers) == RequestHeaderLines(init) + [] == RequestHeaderLines(init);
        assert KeptHeaders(headers) == KeptHeaders(init) + [] == KeptHeaders(init);
      } else {
        var kept := KeptHeaders(init) + [last];
        assert KeptHeaders(headers) == kept;
        assert kept[..|kept| - 1] == KeptHeaders(init);
        calc {
          RequestHeaderLines(headers);
          RequestHeaderLines(init) + [HeaderLine(last)];
          ResponseHeaderLines(kept[..|kept| - 1]) + [HeaderLine(kept[|kept| - 1])];
          ResponseHeaderLines(kept);
        }
      }
    }
  }

  /** Calls logged at INFO with a line of text. */
  predicate AllInfoText(calls: seq<LogCall>) {
    forall c :: c in calls ==> c.level == INFO && c.message.Text?
  }

  lemma {:induction false} HeaderLinesAreInfoText(headers: seq<Header>)
    ensures AllInfoText(RequestHeaderLines(headers))
    ensures AllInfoText(ResponseHeaderLines(headers))
  {
    if headers != [] {
      HeaderLinesAreInfoText(headers[..|headers| - 1]);
    }
  }

  // ---------------------------------------------------------------------------
  // The log of one `intercept` call

  /** The size the status line gives when headers are not logged is "unknown-length" exactly for -1. */
  lemma BodySizeUnknownIff(contentLength: int)
    ensures BodySize(contentLength) == "unknown-length" <==> contentLength == -1
  {
    if contentLength != -1 {
      var digits := LongToString(contentLength);
      assert (digits + "-byte")[0] == digits[0];
      assert digits[0] == '-' || IsDigit(digits[0]);
    }
  }

  /**
   * Everything logged before `proceed` comes first, and a failure logs the same
   * request part a response would, followed by a single FAILED line instead of
   * the response part.
   */
  lemma FailureReplacesResponsePart(debugEnabled: bool, infoEnabled: bool, request: Request,
                                    connection: Option<Connection>, e: Exception, response: Response,
                                    content: seq<bv8>, tookMs: nat)
    ensures var requestLog := RequestLog(debugEnabled, debugEnabled || infoEnabled, request, ProtocolOf(connection));
      var responded := InterceptLog(debugEnabled, infoEnabled, request, connection, Responded(response), content, tookMs);
      var failed := InterceptLog(debugEnabled, infoEnabled, request, connection, Threw(e), content, tookMs);
      |requestLog| < |responded|
      && failed == responded[..|requestLog|] + [FailedLine(e)]
  {
    var requestLog := RequestLog(debugEnabled, debugEnabled || infoEnabled, request, ProtocolOf(connection));
    var responseLog := ResponseLog(debugEnabled, debugEnabled || infoEnabled, response, content, tookMs);
    assert |responseLog| > 0;
    assert (requestLog + responseLog)[..|requestLog|] == requestLog;
  }

  /** With neither INFO nor DEBUG enabled, `intercept` logs the request line and one line for the outcome. */
  lemma QuietLogsTwoLines(request: Request, connection: Option<Connection>, outcome: Outcome,
                          content: seq<bv8>, tookMs: nat)
    ensures var log := InterceptLog(false, false, request, connection, outcome, content, tookMs);
      |log| == 2
      && log[0] == RequestStartLine(request, ProtocolOf(connection))
      && (outcome.Threw? ==> log[1] == FailedLine(outcome.exception))
      && (outcome.Responded? ==> log[1] == StatusLine(false, outcome.response, tookMs))
  {
  }

  /** With DEBUG disabled, every line is a line of text logged at INFO: no body is ever logged. */
  lemma InfoOnlyWithoutDebug(infoEnabled: bool, request: Request, connection: Option<Connection>,
                             outcome: Outcome, content: seq<bv8>, tookMs: nat)
    ensures AllInfoText(InterceptLog(false, infoEnabled, request, connection, outcome, content, tookMs))
  {
    InterceptLogParts(false, infoEnabled, request, connection, outcome, content, tookMs);
    RequestInfoOnlyWithoutDebug(infoEnabled, request, ProtocolOf(connection));
    if outcome.Responded? {
      ResponseInfoOnlyWithoutDebug(infoEnabled, outcome.response, content, tookMs);
    }
  }

  lemma RequestInfoOnlyWithoutDebug(logHeaders: bool, request: Request, protocol: Protocol)
    ensures AllInfoText(RequestLog(false, logHeaders, request, protocol))
  {
    HeaderLinesAreInfoText(request.headers);
  }

  lemma ResponseInfoOnlyWithoutDebug(logHeaders: bool, response: Response, content: seq<bv8>, tookMs: nat)
    ensures AllInfoText(ResponseLog(false, logHeaders, response, content, tookMs))
  {
    HeaderLinesAreInfoText(response.headers);
  }

  /** The request body, logged only when present and not Content-Encoded. */
  predicate RequestBodyText(request: Request, text: DecodedText) {
    request.body.Some? && !BodyEncoded(request.headers)
    && text == DecodedText(CharsetOf(request.body.value.contentType), request.body.value.bytes)
  }

  /** The response body, logged only when `hasBody` holds, it is not Content-Encoded and its length is not 0. */
  predicate ResponseBodyText(outcome: Outcome, content: seq<bv8>, text: DecodedText) {
    outcome.Responded? && HasBody(outcome.response) && !BodyEncoded(outcome.response.headers)
    && outcome.response.body.contentLength != 0
    && text == DecodedText(CharsetOf(outcome.response.body.contentType), content)
  }

  /** The request part logs a body only at DEBUG, only when DEBUG is enabled, and only when it looks like text. */
  lemma RequestBodiesOnlyWhenPlaintext(debugEnabled: bool, logHeaders: bool, request: Request, protocol: Protocol)
    ensures forall c :: c in RequestLog(debugEnabled, logHeaders, request, protocol) && c.message.Body? ==>
      debugEnabled && c.level == DEBUG && LooksPlaintext(c.message.text.bytes) && RequestBodyText(request, c.message.text)
  {
    if logHeaders {
      HeaderLinesAreInfoText(request.headers);
      RequestEndBodies(debugEnabled, request);
      var opening := [RequestStartLine(request, protocol)] + BodyHeaderLines(request.body);
      assert AllInfoText(opening);
      assert RequestLog(debugEnabled, logHeaders, request, protocol)
          == opening + RequestHeaderLines(request.headers) + RequestEndLines(debugEnabled, request);
    }
  }

  /** The only body line on the request side is the one among its closing lines. */
  lemma RequestEndBodies(logBody: bool, request: Request)
    ensures forall c :: c in RequestEndLines(logBody, request) && c.message.Body? ==>
      logBody && c.level == DEBUG && LooksPlaintext(c.message.text.bytes) && RequestBodyText(request, c.message.text)
  {
  }

  /** The response part logs a body only at DEBUG, only when DEBUG is enabled, and only when it looks like text. */
  lemma ResponseBodiesOnlyWhenPlaintext(debugEnabled: bool, logHeaders: bool, response: Response,
                                        content: seq<bv8>, tookMs: nat)
    ensures forall c :: c in ResponseLog(debugEnabled, logHeaders, response, content, tookMs) && c.message.Body? ==>
      debugEnabled && c.level == DEBUG && LooksPlaintext(c.message.text.bytes)
      && ResponseBodyText(Responded(response), content, c.message.text)
  {
    HeaderLinesAreInfoText(response.headers);
  }

  /** A body is logged only at DEBUG, only when DEBUG is enabled, and only when it looks like text. */
  lemma BodiesOnlyWhenPlaintext(debugEnabled: bool, infoEnabled: bool, request: Request,
                                connection: Option<Connection>, outcome: Outcome, content: seq<bv8>, tookMs: nat)
    ensures forall c :: c in InterceptLog(debugEnabled, infoEnabled, request, connection, outcome, content, tookMs)
                        && c.message.Body? ==>
      debugEnabled && c.level == DEBUG && LooksPlaintext(c.message.text.bytes)
      && (RequestBodyText(request, c.message.text) || ResponseBodyText(outcome, content, c.message.text))
  {
    RequestBodiesOnlyWhenPlaintext(debugEnabled, debugEnabled || infoEnabled, request, ProtocolOf(connection));
    if outcome.Responded? {
      ResponseBodiesOnlyWhenPlaintext(debugEnabled, debugEnabled || infoEnabled, outcome.response, content, tookMs);
    }
  }

  /** Conversely, with DEBUG enabled every body that looks like text and is not encoded is logged. */
  lemma PlaintextBodiesAreLogged(infoEnabled: bool, request: Request, connection: Option<Connection>,
                                 outcome: Outcome, content: seq<bv8>, tookMs: nat)
    ensures var log := InterceptLog(true, infoEnabled, request, connection, outcome, content, tookMs);
      request.body.Some? && !BodyEncoded(request.headers) && LooksPlaintext(request.body.value.bytes) ==>
        LogCall(DEBUG, Body(DecodedText(CharsetOf(request.body.value.contentType), request.body.value.bytes))) in log
    ensures var log := InterceptLog(true, infoEnabled, request, connection, outcome, content, tookMs);
      outcome.Responded? && HasBody(outcome.response) && !BodyEncoded(outcome.response.headers)
      && outcome.response.body.contentLength != 0 && LooksPlaintext(content) ==>
        LogCall(DEBUG, Body(DecodedText(CharsetOf(outcome.response.body.contentType), content))) in log
  {
  }

  /** The Content-Type and Content-Length lines appear only for a request body, and only when the value is known. */
  lemma SyntheticHeaderLines(body: Option<RequestBody>)
    ensures body.None? ==> BodyHeaderLines(body) == []
    ensures body.Some? ==>
      |BodyHeaderLines(body)| == (if body.value.contentType.Some? then 1 else 0) + (if body.value.contentLength != -1 then 1 else 0)
      && (body.value.contentType.Some? ==>
            BodyHeaderLines(body)[0] == InfoLine("Content-Type: " + body.value.contentType.value.text))
      && (body.value.contentLength != -1 ==>
            BodyHeaderLines(body)[|BodyHeaderLines(body)| - 1]
              == InfoLine("Content-Length: " + LongToString(body.value.contentLength)))
  {
  }

  lemma PrefixSlice(x: seq<LogCall>, y: seq<LogCall>, i: nat, j: nat)
    requires i <= j <= |x|
    ensures (x + y)[i..j] == x[i..j]
  {
  }

  lemma SuffixSlice(x: seq<LogCall>, y: seq<LogCall>, i: nat, j: nat)
    requires i <= j <= |y|
    ensures (x + y)[|x| + i..|x| + j] == y[i..j]
  {
  }

  /** `x` opens with `first`, then the lines `s1`, then the lines `s2`. */
  predicate OpensWith(x: seq<LogCall>, first: LogCall, s1: seq<LogCall>, s2: seq<LogCall>) {
    1 + |s1| + |s2| <= |x| && x[0] == first && x[1..1 + |s1|] == s1 && x[1 + |s1|..1 + |s1| + |s2|] == s2
  }

  /** What opens `x` still opens `x + y`. */
  lemma SectionsSurviveAppend(x: seq<LogCall>, y: seq<LogCall>, first: LogCall, s1: seq<LogCall>, s2: seq<LogCall>)
    requires OpensWith(x, first, s1, s2)
    ensures OpensWith(x + y, first, s1, s2)
  {
    PrefixSlice(x, y, 1, 1 + |s1|);
    PrefixSlice(x, y, 1 + |s1|, 1 + |s1| + |s2|);
  }

  /** With headers logged, the request part opens with its line, the body's header lines and the kept headers. */
  lemma RequestHeaderSection(logBody: bool, request: Request, protocol: Protocol)
    ensures var requestLog := RequestLog(logBody, true, request, protocol);
      var synthetic := BodyHeaderLines(request.body);
      var kept := ResponseHeaderLines(KeptHeaders(request.headers));
      1 + |synthetic| + |kept| <= |requestLog|
      && requestLog[0] == RequestStartLine(request, protocol)
      && requestLog[1..1 + |synthetic|] == synthetic
      && requestLog[1 + |synthetic|..1 + |synthetic| + |kept|] == kept
  {
    RequestHeaderLinesAreKept(request.headers);
    var start := [RequestStartLine(request, protocol)];
    var synthetic := BodyHeaderLines(request.body);
    var requestHeaders := RequestHeaderLines(request.headers);
    var requestEnd := RequestEndLines(logBody, request);
    PrefixSlice(start + synthetic + requestHeaders, requestEnd, 1, 1 + |synthetic|);
    PrefixSlice(start + synthetic, requestHeaders, 1, 1 + |synthetic|);
    SuffixSlice(start, synthetic, 0, |synthetic|);
    PrefixSlice(start + synthetic + requestHeaders, requestEnd, 1 + |synthetic|, 1 + |synthetic| + |requestHeaders|);
    SuffixSlice(start + synthetic, requestHeaders, 0, |requestHeaders|);
  }

  /** With headers logged, the response part opens with the status line and every response header in order. */
  lemma ResponseHeaderSection(logBody: bool, response: Response, content: seq<bv8>, tookMs: nat)
    ensures var responseLog := ResponseLog(logBody, true, response, content, tookMs);
      1 + |response.headers| <= |responseLog|
      && responseLog[0] == StatusLine(true, response, tookMs)
      && responseLog[1..1 + |response.headers|] == ResponseHeaderLines(response.headers)
  {
    ResponseHeaderLinesInOrder(response.headers);
    var status := [StatusLine(true, response, tookMs)];
    var responseHeaders := ResponseHeaderLines(response.headers);
    PrefixSlice(status + responseHeaders, ResponseEndLines(logBody, response, content), 1, 1 + |responseHeaders|);
    SuffixSlice(status, responseHeaders, 0, |responseHeaders|);
  }

  /** The log of one call is its request part followed by its outcome part. */
  lemma InterceptLogParts(debugEnabled: bool, infoEnabled: bool, request: Request, connection: Option<Connection>,
                          outcome: Outcome, content: seq<bv8>, tookMs: nat)
    ensures InterceptLog(debugEnabled, infoEnabled, request, connection, outcome, content, tookMs)
         == RequestLog(debugEnabled, debugEnabled || infoEnabled, request, ProtocolOf(connection))
            + OutcomeLog(debugEnabled, debugEnabled || infoEnabled, outcome, content, tookMs)
  {
  }

  /**
   * When headers are logged, the request line is followed by the lines from the
   * request body, then by the kept request headers in order.
   */
  lemma RequestHeadersInLog(debugEnabled: bool, infoEnabled: bool, request: Request, connection: Option<Connection>,
                            outcome: Outcome, content: seq<bv8>, tookMs: nat)
    requires debugEnabled || infoEnabled
    ensures var log := InterceptLog(debugEnabled, infoEnabled, request, connection, outcome, content, tookMs);
      var synthetic := BodyHeaderLines(request.body);
      var kept := ResponseHeaderLines(KeptHeaders(request.headers));
      1 + |synthetic| + |kept| <= |log|
      && log[0] == RequestStartLine(request, ProtocolOf(connection))
      && log[1..1 + |synthetic|] == synthetic
      && log[1 + |synthetic|..1 + |synthetic| + |kept|] == kept
  {
    var log := InterceptLog(debugEnabled, infoEnabled, request, connection, outcome, content, tookMs);
    var requestLog := RequestLog(debugEnabled, true, request, ProtocolOf(connection));
    var tail := OutcomeLog(debugEnabled, true, outcome, content, tookMs);
    var first := RequestStartLine(request, ProtocolOf(connection));
    var synthetic := BodyHeaderLines(request.body);
    var kept := ResponseHeaderLines(KeptHeaders(request.headers));
    InterceptLogParts(debugEnabled, infoEnabled, request, connection, outcome, content, tookMs);
    RequestHeaderSection(debugEnabled, request, ProtocolOf(connection));
    assert OpensWith(requestLog, first, synthetic, kept);
    SectionsSurviveAppend(requestLog, tail, first, synthetic, kept);
    assert log == requestLog + tail;
    assert OpensWith(log, first, synthetic, kept);
  }

  /** When headers are logged, the status line follows the request part and precedes every response header, in order. */
  lemma ResponseHeadersInLog(debugEnabled: bool, infoEnabled: bool, request: Request, connection: Option<Connection>,
                             response: Response, content: seq<bv8>, tookMs: nat)
    requires debugEnabled || infoEnabled
    ensures var log := InterceptLog(debugEnabled, infoEnabled, request, connection, Responded(response), content, tookMs);
      var n := |RequestLog(debugEnabled, true, request, ProtocolOf(connection))|;
      n + 1 + |response.headers| <= |log|
      && log[n] == StatusLine(true, response, tookMs)
      && log[n + 1..n + 1 + |response.headers|] == ResponseHeaderLines(response.headers)
  {
    InterceptLogParts(debugEnabled, infoEnabled, request, connection, Responded(response), content, tookMs);
    var requestLog := RequestLog(debugEnabled, true, request, ProtocolOf(connection));
    var responseLog := ResponseLog(debugEnabled, true, response, content, tookMs);
    ResponseHeaderSection(debugEnabled, response, content, tookMs);
    SuffixSlice(requestLog, responseLog, 1, 1 + |response.headers|);
  }

  /** With DEBUG disabled and INFO enabled, each side ends with its plain END line. */
  lemma PlainEndLinesWithoutDebug(request: Request, connection: Option<Connection>, outcome: Outcome,
                                  content: seq<bv8>, tookMs: nat)
    ensures var requestLog := RequestLog(false, true, request, ProtocolOf(connection));
      requestLog[|requestLog| - 1] == InfoLine("--> END " + request.httpMethod)
    ensures var log := InterceptLog(false, true, request, connection, outcome, content, tookMs);
      outcome.Responded? ==> log[|log| - 1] == InfoLine("<-- END HTTP")
  {
  }

  /**
   * The status line carries the ", <size> body" suffix exactly when headers are
   * not logged; otherwise it closes straight after "ms ".
   */
  lemma StatusLineSuffix(response: Response, tookMs: nat)
    ensures var withHeaders := StatusLine(true, response, tookMs).message.s;
      var withoutHeaders := StatusLine(false, response, tookMs).message.s;
      |withHeaders| > 0 && withHeaders[|withHeaders| - 1] == ')'
      && withoutHeaders == withHeaders[..|withHeaders| - 1] + ", " + BodySize(response.body.contentLength) + " body)"
  {
    var head := "<-- " + LongToString(response.code) + " " + response.message + " " + response.request.url
                + " (took " + LongToString(tookMs) + " ms ";
    assert StatusLine(true, response, tookMs).message.s == head + "" + ")";
    assert (head + "" + ")")[..|head|] == head;
  }
}
