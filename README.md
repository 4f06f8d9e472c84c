# SLF4J HTTP logging interceptor for OkHttp, in Dafny

This project models `HttpLoggingInterceptor`, an OkHttp `Interceptor` that writes
one HTTP exchange to an SLF4J `Logger`:

- the request line;
- with INFO or DEBUG enabled, the request headers;
- with DEBUG enabled, the request body when it looks like text;
- the outcome of `Chain.proceed`, which is either a status line or a FAILED line;
- the response headers and the response body, under the same rules as the request.

The model covers the interceptor and the rules it uses:

- `hasBody` decides whether a response carries a body.
- `contentLength` and `stringToLong` read Content-Length.
- `bodyEncoded` checks Content-Encoding.
- `isPlaintext` sniffs up to 16 code points from the first 64 bytes for binary control characters.

Modules:

- `Wrappers`: `Option` and `Result`.
- `JavaLang`: the parts of `java.lang` the interceptor relies on. These are `Long.parseLong`, the decimal rendering of a `long`, and `String.equalsIgnoreCase`.
- `Okio`: `Buffer` as a class over a byte sequence, with `readUtf8CodePoint`, `copyTo`, `clone` and `readString`.
- `OkHttp`: headers and `Headers.get`, requests, responses, the response body, and `Chain` with its single `proceed`.
- `Slf4j`: a `Logger` class. Its two level flags are fixed when it is built. Its `calls` field records every `info`/`debug` call in order.
- `HttpLogging`: the interceptor itself. The class `HttpLoggingInterceptor` has the null-logger check and `Intercept`. The module also holds the specification functions that give the exact list of calls one `intercept` makes (`InterceptLog`).
- `HttpLoggingProperties`: what the interceptor promises, stated as lemmas about those functions.

`Intercept` is an imperative method. It calls `proceed` once, appends to `logger.calls`, and hands back what `proceed` produced. Its postcondition ties the new log to `InterceptLog`, and the lemmas then establish the properties of `InterceptLog`. The request and response halves of `intercept` are written as helper methods of the class (`LogRequest`, `LogResponse` and their parts). Each helper is proved against the part of `InterceptLog` it produces.

The request line names the protocol through `Protocol.toString()`, which gives "http/1.1", "h2" and so on. The default logger is named "okhttp3.logging.wire".

The following quirks are kept as written and are not corrected:

- The binary request END line has no closing parenthesis.
- The request END line reports the declared `contentLength()`, which may be -1. The response side reports the buffered size instead.
- The status line reads "(took N ms )" when headers are logged.

## Model

| member | source | states |
|---|---|---|
| HttpLogging.HttpLoggingInterceptor.Create | src/main/java/devcsrj/okhttp3/logging/HttpLoggingInterceptor.java:96-100 | construction fails with "Can't use null logger" exactly when the logger is null; otherwise the interceptor keeps that logger |
| HttpLogging.HttpLoggingInterceptor.CreateDefault | src/main/java/devcsrj/okhttp3/logging/HttpLoggingInterceptor.java:85-94 | the no-argument constructor logs to the one shared logger named "okhttp3.logging.wire", so every interceptor built this way writes to the same log |
| HttpLogging.HttpLoggingInterceptor.Intercept | src/main/java/devcsrj/okhttp3/logging/HttpLoggingInterceptor.java:103-215 | `proceed` is called exactly once, with the chain's request; the outcome returned, response or exception, is exactly what `proceed` produced (body reads cannot fail in the model, see below); the response body's bytes are left unconsumed; the calls appended to the logger are exactly `InterceptLog` of the two level flags, the request, the connection, the outcome and the body |
| HttpLogging.HttpLoggingInterceptor.LogRequest | src/main/java/devcsrj/okhttp3/logging/HttpLoggingInterceptor.java:104-159 | the request side appends exactly the request line and, when headers are logged, the body header lines, the kept headers and the END lines |
| HttpLogging.HttpLoggingInterceptor.LogBodyHeaders | src/main/java/devcsrj/okhttp3/logging/HttpLoggingInterceptor.java:118-126 | the Content-Type and Content-Length lines come from the body itself, each only when known |
| HttpLogging.HttpLoggingInterceptor.LogRequestHeaders | src/main/java/devcsrj/okhttp3/logging/HttpLoggingInterceptor.java:128-135 | the header loop appends one line per header not named Content-Type or Content-Length, in order |
| HttpLogging.HttpLoggingInterceptor.LogRequestEnd | src/main/java/devcsrj/okhttp3/logging/HttpLoggingInterceptor.java:137-158 | the END line is chosen by logBody, then body presence, then Content-Encoding, then `isPlaintext`; only the text case logs the decoded body |
| HttpLogging.HttpLoggingInterceptor.LogResponse | src/main/java/devcsrj/okhttp3/logging/HttpLoggingInterceptor.java:170-214 | the response side appends the status line and, when headers are logged, every header and the END lines; the body's bytes are unchanged |
| HttpLogging.HttpLoggingInterceptor.LogResponseHeaders | src/main/java/devcsrj/okhttp3/logging/HttpLoggingInterceptor.java:180-183 | every response header is logged, in order, unfiltered |
| HttpLogging.HttpLoggingInterceptor.LogResponseEnd | src/main/java/devcsrj/okhttp3/logging/HttpLoggingInterceptor.java:185-211 | chooses the END line by logBody, `hasBody` and Content-Encoding; only when all three let the body through does it buffer the whole body, then decide by `isPlaintext` and a zero Content-Length; it reads the text from a clone, so the body's bytes stay in place |
| HttpLogging.IsPlaintext | src/main/java/devcsrj/okhttp3/logging/HttpLoggingInterceptor.java:221-237 | the loop over a copied prefix of at most 64 bytes answers `LooksPlaintext` of the buffer, without changing the buffer |
| HttpLogging.Sample | src/main/java/devcsrj/okhttp3/logging/HttpLoggingInterceptor.java:224-225 | the sample is the prefix of exactly min(size, 64) bytes of the buffer |
| HttpLogging.StringToLong | src/main/java/devcsrj/okhttp3/logging/HttpLoggingInterceptor.java:270-278 | the result is -1 or a `long`, and -1 for an absent value |
| HttpLogging.ContentLength | src/main/java/devcsrj/okhttp3/logging/HttpLoggingInterceptor.java:266-268 | the result is -1 or a `long`, and -1 when Content-Length is absent |
| HttpLogging.ResponseContentLength | src/main/java/devcsrj/okhttp3/logging/HttpLoggingInterceptor.java:262-264 | the response overload gives -1 or a `long`, and -1 when the response has no Content-Length header |
| HttpLoggingProperties.LooksPlaintextIff | src/main/java/devcsrj/okhttp3/logging/HttpLoggingInterceptor.java:221-237 | `isPlaintext` is false exactly when a truncated sequence or a non-whitespace ISO control character appears among at most 16 code points read from at most 64 bytes |
| HttpLoggingProperties.PlaintextFromIsCleanScan | src/main/java/devcsrj/okhttp3/logging/HttpLoggingInterceptor.java:226-235 | the loop's verdict equals an independent reading of the code points (`ScanCodePoints`) that checks every one of them |
| HttpLoggingProperties.ScanCodePoints | src/main/java/devcsrj/okhttp3/logging/HttpLoggingInterceptor.java:226-229 | at most `limit` code points are read, and truncation is only met while reading |
| HttpLoggingProperties.BinaryControlRanges | src/main/java/devcsrj/okhttp3/logging/HttpLoggingInterceptor.java:230 | the code points that make a body binary are exactly U+0000–0008, U+000E–001B and U+007F–009F |
| HttpLoggingProperties.OnlyTheSampleMatters | src/main/java/devcsrj/okhttp3/logging/HttpLoggingInterceptor.java:224-225 | bytes after the 64th never change the verdict |
| HttpLoggingProperties.EmptyIsPlaintext | src/main/java/devcsrj/okhttp3/logging/HttpLoggingInterceptor.java:227-228 | an empty buffer is text |
| HttpLoggingProperties.TextAsciiIsPlaintext | src/main/java/devcsrj/okhttp3/logging/HttpLoggingInterceptor.java:226-233 | any body of printable ASCII and whitespace is text |
| HttpLoggingProperties.LeadingControlIsBinary | src/main/java/devcsrj/okhttp3/logging/HttpLoggingInterceptor.java:229-231 | a body opening with an ASCII binary control character, such as NUL, is binary |
| HttpLoggingProperties.TruncatedIsBinary | src/main/java/devcsrj/okhttp3/logging/HttpLoggingInterceptor.java:226-235 | a body whose sequence is cut short among its first 16 code points is binary: up to 15 ASCII text characters, then a lead byte followed by fewer continuation bytes than it announces |
| HttpLoggingProperties.TruncatedFrom | src/main/java/devcsrj/okhttp3/logging/HttpLoggingInterceptor.java:226-235 | reading through ASCII text and then meeting a cut-short sequence within the code-point budget yields false |
| HttpLoggingProperties.TruncatedExamples | src/main/java/devcsrj/okhttp3/logging/HttpLoggingInterceptor.java:234-235 | E2 82 and "hi" followed by C3 are binary |
| HttpLogging.PlaintextFrom | src/main/java/devcsrj/okhttp3/logging/HttpLoggingInterceptor.java:226-233 | the loop's verdict for the remaining bytes and budget; its properties are `PlaintextFromIsCleanScan`, `TextAsciiIsPlaintext` and `TruncatedIsBinary` |
| HttpLogging.LooksPlaintext | src/main/java/devcsrj/okhttp3/logging/HttpLoggingInterceptor.java:221-237 | the verdict of `isPlaintext` on a buffer; characterized by `LooksPlaintextIff`, `OnlyTheSampleMatters` and `EmptyIsPlaintext` |
| HttpLogging.IsISOControl | src/main/java/devcsrj/okhttp3/logging/HttpLoggingInterceptor.java:230 | `Character.isISOControl`: U+0000–001F and U+007F–009F; with `IsWhitespace`, `BinaryControlRanges` gives the binary code points |
| HttpLogging.IsWhitespace | src/main/java/devcsrj/okhttp3/logging/HttpLoggingInterceptor.java:230 | `Character.isWhitespace`: U+0009–000D, U+001C–0020 and the Unicode space and separator characters other than the no-break spaces |
| HttpLogging.HasBody | src/main/java/devcsrj/okhttp3/logging/HttpLoggingInterceptor.java:242-260 | a response to HEAD has no body, and any other response has one only when its status allows one or its headers announce one; compared with RFC 7230 in `HasBodyAgainstRfc` |
| HttpLogging.BodyEncoded | src/main/java/devcsrj/okhttp3/logging/HttpLoggingInterceptor.java:280-283 | a body without Content-Encoding is not encoded; `BodyEncodedOfValue` gives the rule for a present value |
| HttpLogging.CharsetOf | src/main/java/devcsrj/okhttp3/logging/HttpLoggingInterceptor.java:145-148 | the charset is the one the content type names, and UTF-8 when there is no content type or it names none |
| HttpLogging.ProtocolOf | src/main/java/devcsrj/okhttp3/logging/HttpLoggingInterceptor.java:112-113 | the protocol is the connection's, and HTTP/1.1 when there is no connection |
| HttpLogging.InterceptLog | src/main/java/devcsrj/okhttp3/logging/HttpLoggingInterceptor.java:103-215 | every call logs the request line first and at least one more line for the outcome; `Intercept` appends exactly this log, and the lemmas of `HttpLoggingProperties` describe it |
| OkHttp.LastMatch | src/main/java/devcsrj/okhttp3/logging/HttpLoggingInterceptor.java:267 | the index found is that of a header whose name matches ignoring case, and no later header matches; -1 when none matches |
| HttpLoggingProperties.HeadNeverHasBody | src/main/java/devcsrj/okhttp3/logging/HttpLoggingInterceptor.java:243-245 | a response to HEAD has no body, whatever its code and headers |
| HttpLoggingProperties.HasBodyAgainstRfc | src/main/java/devcsrj/okhttp3/logging/HttpLoggingInterceptor.java:242-260 | wherever section 3.3.3 of RFC 7230 expects a body, `hasBody` is true; it is also true elsewhere only when the request is not HEAD and either it is a 2xx response to CONNECT, or Content-Length is known, or the body is chunked; for non-HEAD requests it holds exactly for a body-allowing status, a known Content-Length or chunked encoding |
| HttpLoggingProperties.HasBodyExamples | src/main/java/devcsrj/okhttp3/logging/HttpLoggingInterceptor.java:247-259 | GET 200 has a body; 204 and 304 have none; a chunked 304 and a 204 with Content-Length 0 do; so does a CONNECT 200 |
| HttpLoggingProperties.ContentLengthOfValue | src/main/java/devcsrj/okhttp3/logging/HttpLoggingInterceptor.java:266-278 | Content-Length gives the value `Long.parseLong` accepts, and -1 for any value it rejects |
| HttpLoggingProperties.ContentLengthRoundTrip | src/main/java/devcsrj/okhttp3/logging/HttpLoggingInterceptor.java:266-278 | every `long` written as Content-Length is read back unchanged |
| HttpLoggingProperties.ContentLengthExamples | src/main/java/devcsrj/okhttp3/logging/HttpLoggingInterceptor.java:266-278 | absent, "abc" and "" give -1; "42" gives 42 |
| HttpLoggingProperties.GetLastHeader | src/main/java/devcsrj/okhttp3/logging/HttpLoggingInterceptor.java:267 | the header lookup finds a header whose name matches ignoring case, and the last such header wins |
| HttpLoggingProperties.BodyEncodedOfValue | src/main/java/devcsrj/okhttp3/logging/HttpLoggingInterceptor.java:280-283 | a body is encoded exactly when Content-Encoding is not "identity" ignoring case |
| HttpLoggingProperties.BodyEncodedExamples | src/main/java/devcsrj/okhttp3/logging/HttpLoggingInterceptor.java:280-283 | absent, "identity" and "IDENTITY" are not encoded; "gzip" is |
| HttpLoggingProperties.KeptHeadersMembers | src/main/java/devcsrj/okhttp3/logging/HttpLoggingInterceptor.java:132-133 | the headers the request loop keeps are exactly those not named Content-Type or Content-Length, ignoring case |
| HttpLoggingProperties.RequestHeaderLinesAreKept | src/main/java/devcsrj/okhttp3/logging/HttpLoggingInterceptor.java:128-135 | the request loop logs the kept headers in their original order, one line each |
| HttpLoggingProperties.ResponseHeaderLinesInOrder | src/main/java/devcsrj/okhttp3/logging/HttpLoggingInterceptor.java:181-183 | the response loop logs line i as "name: value" of header i, one line per header |
| HttpLoggingProperties.HeaderLinesAreInfoText | src/main/java/devcsrj/okhttp3/logging/HttpLoggingInterceptor.java:128-183 | header lines are text logged at INFO |
| HttpLoggingProperties.SyntheticHeaderLines | src/main/java/devcsrj/okhttp3/logging/HttpLoggingInterceptor.java:118-126 | without a body there are no Content-Type or Content-Length lines; with one, each line appears only when its value is known |
| HttpLoggingProperties.RequestHeaderSection | src/main/java/devcsrj/okhttp3/logging/HttpLoggingInterceptor.java:115-135 | with headers logged, the request part opens with the request line, the body's header lines and the kept headers |
| HttpLoggingProperties.ResponseHeaderSection | src/main/java/devcsrj/okhttp3/logging/HttpLoggingInterceptor.java:176-183 | with headers logged, the response part opens with the status line and every response header |
| HttpLoggingProperties.RequestHeadersInLog | src/main/java/devcsrj/okhttp3/logging/HttpLoggingInterceptor.java:115-135 | in the whole log, the request line comes first, then the body's header lines, then the kept request headers in order |
| HttpLoggingProperties.ResponseHeadersInLog | src/main/java/devcsrj/okhttp3/logging/HttpLoggingInterceptor.java:176-183 | in the whole log, the status line directly follows the request part, and every response header follows it in order |
| HttpLoggingProperties.FailureReplacesResponsePart | src/main/java/devcsrj/okhttp3/logging/HttpLoggingInterceptor.java:161-168 | when `proceed` throws, the log is the same request part a response would have produced, followed by one FAILED line and no status line |
| HttpLoggingProperties.QuietLogsTwoLines | src/main/java/devcsrj/okhttp3/logging/HttpLoggingInterceptor.java:115-178 | with INFO and DEBUG both disabled, exactly two calls are made: the request line, then the FAILED line or the status line with its size suffix |
| HttpLoggingProperties.InfoOnlyWithoutDebug | src/main/java/devcsrj/okhttp3/logging/HttpLoggingInterceptor.java:104-212 | with DEBUG disabled, every call is a line of text at INFO |
| HttpLoggingProperties.PlainEndLinesWithoutDebug | src/main/java/devcsrj/okhttp3/logging/HttpLoggingInterceptor.java:137-186 | with DEBUG disabled and INFO enabled, the request part ends "--> END method" and a response log ends "<-- END HTTP" |
| HttpLoggingProperties.StatusLineSuffix | src/main/java/devcsrj/okhttp3/logging/HttpLoggingInterceptor.java:172-178 | the ", size body" suffix appears exactly when headers are not logged; otherwise the line closes straight after "ms " |
| HttpLoggingProperties.BodySizeUnknownIff | src/main/java/devcsrj/okhttp3/logging/HttpLoggingInterceptor.java:174 | the size reads "unknown-length" exactly for a Content-Length of -1 |
| HttpLoggingProperties.RequestBodiesOnlyWhenPlaintext | src/main/java/devcsrj/okhttp3/logging/HttpLoggingInterceptor.java:137-158 | the request side logs a body only at DEBUG with DEBUG enabled, only when the body is present, not encoded and looks like text |
| HttpLoggingProperties.ResponseBodiesOnlyWhenPlaintext | src/main/java/devcsrj/okhttp3/logging/HttpLoggingInterceptor.java:185-211 | the response side logs a body only at DEBUG with DEBUG enabled, only when `hasBody` holds, the body is not encoded, its Content-Length is not 0 and it looks like text |
| HttpLoggingProperties.BodiesOnlyWhenPlaintext | src/main/java/devcsrj/okhttp3/logging/HttpLoggingInterceptor.java:137-211 | every body line in the log is one of these two cases |
| HttpLoggingProperties.PlaintextBodiesAreLogged | src/main/java/devcsrj/okhttp3/logging/HttpLoggingInterceptor.java:150-208 | conversely, with DEBUG enabled every such body is logged, decoded with its content type's charset |
| JavaLang.ParseLong | src/main/java/devcsrj/okhttp3/logging/HttpLoggingInterceptor.java:274 | `Long.parseLong` accepts only values within the range of `long` |
| JavaLang.NatToStringValue | src/main/java/devcsrj/okhttp3/logging/HttpLoggingInterceptor.java:125 | the decimal digits of a number read back as that number |
| JavaLang.ParseLongOfLongToString | src/main/java/devcsrj/okhttp3/logging/HttpLoggingInterceptor.java:274 | `Long.parseLong` reads back every `long` as rendered in decimal |
| JavaLang.ParseLongRejectsOverflow | src/main/java/devcsrj/okhttp3/logging/HttpLoggingInterceptor.java:274-276 | a decimal value outside the range of `long` is rejected |
| JavaLang.ParseLongExamples | src/main/java/devcsrj/okhttp3/logging/HttpLoggingInterceptor.java:274-276 | "42", "+7" and "-1" parse; "abc", "", "-" and "4 2" are rejected |
| OkHttp.Get | src/main/java/devcsrj/okhttp3/logging/HttpLoggingInterceptor.java:267 | the lookup is absent exactly when no header name matches ignoring case; otherwise it is the value of the last matching header |
| OkHttp.Chain.Proceed | src/main/java/devcsrj/okhttp3/logging/HttpLoggingInterceptor.java:164 | `proceed` records the request it was given and produces the chain's single outcome |
| OkHttp.ResponseBody.RequestAll | src/main/java/devcsrj/okhttp3/logging/HttpLoggingInterceptor.java:190-192 | buffering the entire body moves every unread byte into the buffer without changing the body's content |
| Okio.DecodeUtf8CodePoint | src/main/java/devcsrj/okhttp3/logging/HttpLoggingInterceptor.java:229-235 | the end of input is met exactly when fewer bytes remain than the lead byte announces; otherwise a code point of at most that many bytes is read, and ASCII reads as itself |
| Okio.Buffer.CopyTo | src/main/java/devcsrj/okhttp3/logging/HttpLoggingInterceptor.java:225 | copying appends the requested range to the target and leaves the source unchanged |
| Okio.Buffer.Exhausted | src/main/java/devcsrj/okhttp3/logging/HttpLoggingInterceptor.java:227 | a buffer is exhausted exactly when it is empty |
| Okio.Buffer.ReadUtf8CodePoint | src/main/java/devcsrj/okhttp3/logging/HttpLoggingInterceptor.java:229 | reading a code point consumes exactly its bytes |
| Okio.Buffer.ReadString | src/main/java/devcsrj/okhttp3/logging/HttpLoggingInterceptor.java:152 | reading a string takes every byte with the given charset and empties the buffer |
| Okio.Buffer.Clone | src/main/java/devcsrj/okhttp3/logging/HttpLoggingInterceptor.java:207 | a clone is a new buffer holding the same bytes |
| Slf4j.Logger.Info | src/main/java/devcsrj/okhttp3/logging/HttpLoggingInterceptor.java:115 | each `info` call appends one INFO line to the log |
| Slf4j.Logger.Debug | src/main/java/devcsrj/okhttp3/logging/HttpLoggingInterceptor.java:150 | each `debug` call appends one DEBUG message to the log |

## Left out

- `Outcome.Threw` stands for an `Exception` thrown by `proceed`, which `intercept` logs as "<-- HTTP FAILED" and rethrows. An `Error` thrown by `proceed` is not caught, so it escapes without that line; this path is not modelled.
- SLF4J's own level filtering is left out. The logger records every `info` and `debug` call the interceptor makes, and what is finally written is up to the logging backend.
- SLF4J `{}` placeholder substitution is left out. Each line is kept as the finished string: numbers in decimal, the protocol by its `toString()` name and the url as given.
- Charset resolution and `readString(charset)` decoding are left out. A logged body is the pair of its charset name and its bytes, so the decoded text itself is not modelled. A media type's `charset` field stands for what `MediaType.charset` resolves: it is absent when the type names no charset or names one the platform does not support.
- `System.nanoTime` is left out. The elapsed milliseconds are a parameter of `Intercept`.
- The exception text in the FAILED line is opaque: `Exception.description` stands for `toString()`. Rethrowing is modelled as returning the `Threw` outcome unchanged.
- `requestBody.writeTo(buffer)` is modelled as writing the body's bytes into a fresh buffer.
- `Headers.get` is not part of this model. `OkHttp.Get` follows OkHttp 3, which returns the last header whose name matches ignoring case.
- `readUtf8CodePoint` is not part of this model. `Okio.DecodeUtf8CodePoint` follows okio 1.x: U+FFFD with one byte consumed for a lead byte that cannot start a sequence, and U+FFFD for a missing continuation byte, an overlong form, a surrogate or a value above U+10FFFF. Only the truncation that ends detection with `false` can be seen from the interceptor.
- JavaLang.EqualsIgnoreCase: folds ASCII letters only, because `String.equalsIgnoreCase`'s Unicode case folding is outside the model.
- JavaLang.ParseLong: accepts ASCII digits only, because `Long.parseLong` also accepts other Unicode decimal digits, which the model leaves out.
- OkHttp.Protocol: only HTTP/1.0, HTTP/1.1, SPDY/3.1 and HTTP/2 are listed.
- The logger behind the no-argument constructor comes from `LoggerFactory`, which is not part of this model; its level flags are whatever that logger was built with.
- `intercept` is one Java method. Here its request and response halves are helper methods of the class, each proved against its part of the log.
- `requestBody.writeTo`, `requestBody.contentLength()` and `source.request` can throw an `IOException` that the interceptor does not catch: on the request side before `proceed` is called, on the response side after `proceed` returned, so that the response is lost. The model's buffers cannot fail, so `Intercept` always reaches `proceed` and always hands back its outcome; these failure paths are not modelled.
- The static `DEFAULT_LOGGER` is a class-level object; `CreateDefault` receives it as a parameter, which keeps it shared between every interceptor built without a logger.
- src/test/java/devcsrj/okhttp3/logging/HttpLoggingInterceptorTest.java is an integration test over a mock web server with no assertions. It is not part of this model.
