/**
 * The OkHttp values and collaborators the interceptor sees: headers, requests,
 * responses, the connection's protocol and the interceptor `Chain`.
 */
module OkHttp {
  import opened Wrappers
  import opened JavaLang
  import Okio

  datatype Header = Header(name: string, value: string)

  /** The index of the last header among the first `n` whose name equals `name` ignoring case, or -1 when none does. */
  function LastMatch(headers: seq<Header>, name: string, n: nat): (i: int)
    requires n <= |headers|
    ensures -1 <= i < n
    ensures i >= 0 ==> EqualsIgnoreCase(name, headers[i].name)
    ensures forall j :: i < j < n ==> !EqualsIgnoreCase(name, headers[j].name)
    decreases n
  {
    if n == 0 then -1
    else if EqualsIgnoreCase(name, headers[n - 1].name) then n - 1
    else LastMatch(headers, name, n - 1)
  }

  /**
   * `Headers.get(name)`: the value of the LAST header whose name equals `name`
   * ignoring case, or nothing when no header has that name.
   */
  function Get(headers: seq<Header>, name: string): (r: Option<string>)
    ensures r.None? <==> forall i :: 0 <= i < |headers| ==> !EqualsIgnoreCase(name, headers[i].name)
    ensures r.Some? ==> exists i :: 0 <= i < |headers| && EqualsIgnoreCase(name, headers[i].name)
                                    && headers[i].value == r.value
                                    && forall j :: i < j < |headers| ==> !EqualsIgnoreCase(name, headers[j].name)
  {
    var i := LastMatch(headers, name, |headers|);
    if i < 0 then None else Some(headers[i].value)
  }

  /** A `MediaType`: its `toString()` text and the charset its `charset` parameter names, when that charset is supported. */
  datatype MediaType = MediaType(text: string, charset: Option<string>)

  /** A `RequestBody`: declared content type, declared length (-1 when unknown) and the bytes `writeTo` writes. */
  datatype RequestBody = RequestBody(contentType: Option<MediaType>, contentLength: int, bytes: seq<bv8>)

  /** A `Request`; `httpMethod` is `method()` and `url` is `url().toString()`. */
  datatype Request = Request(httpMethod: string, url: string, headers: seq<Header>, body: Option<RequestBody>)

  /** `Protocol`, named by its `toString()` text. */
  datatype Protocol = Http1_0 | Http1_1 | Spdy3 | Http2 {
    function Name(): string {
      match this
      case Http1_0 => "http/1.0"
      case Http1_1 => "http/1.1"
      case Spdy3 => "spdy/3.1"
      case Http2 => "h2"
    }
  }

  datatype Connection = Connection(protocol: Protocol)

  /**
   * A `ResponseBody` whose `source()` reads from `buffer`: the bytes already
   * buffered are `buffer.data`, those not yet pulled from the network `unread`.
   */
  class ResponseBody {
    const contentType: Option<MediaType>
    const contentLength: int
    const buffer: Okio.Buffer
    var unread: seq<bv8>

    constructor (contentType: Option<MediaType>, contentLength: int, buffered: seq<bv8>, unread: seq<bv8>)
      ensures this.contentType == contentType && this.contentLength == contentLength
      ensures fresh(buffer) && buffer.data == buffered && this.unread == unread
    {
      this.contentType := contentType;
      this.contentLength := contentLength;
      var b := new Okio.Buffer();
      b.data := buffered;
      this.buffer := b;
      this.unread := unread;
    }

    /** Every byte the caller can still read from the body, buffered or not. */
    function Content(): seq<bv8>
      reads this, buffer
    {
      buffer.data + unread
    }

    /** `source().request(Long.MAX_VALUE)`: pulls the whole rest of the body into the buffer. */
    method RequestAll()
      modifies this, buffer
      ensures buffer.data == old(Content()) && unread == []
    {
      buffer.data := buffer.data + unread;
      unread := [];
    }
  }

  /** A `Response`; `request` is `response.request()`, the request that produced it. */
  datatype Response = Response(code: int, message: string, request: Request, headers: seq<Header>, body: ResponseBody)

  /** An exception thrown by `proceed`, known only by its `toString()` text. */
  datatype Exception = Exception(description: string)

  /** What `Chain.proceed` does: return a response or throw. */
  datatype Outcome = Responded(response: Response) | Threw(exception: Exception)

  /**
   * An interceptor `Chain`: the request, the connection (absent for an
   * application interceptor) and the single outcome that `proceed` yields.
   * `proceeded` records every request handed to `proceed`.
   */
  class Chain {
    const request: Request
    const connection: Option<Connection>
    const outcome: Outcome
    var proceeded: seq<Request>

    constructor (request: Request, connection: Option<Connection>, outcome: Outcome)
      ensures this.request == request && this.connection == connection && this.outcome == outcome
      ensures proceeded == []
    {
      this.request := request;
      this.connection := connection;
      this.outcome := outcome;
      proceeded := [];
    }

    /** The objects of the response body that a caller of `proceed` may touch. */
    function ResponseFrame(): set<object> {
      if outcome.Responded? then {outcome.response.body, outcome.response.body.buffer} else {}
    }

    /** Everything the response body still has to give, or nothing when `proceed` throws. */
    function ResponseContent(): seq<bv8>
      reads ResponseFrame()
    {
      if outcome.Responded? then outcome.response.body.Content() else []
    }

    /** `proceed(request)`. */
    method Proceed(r: Request) returns (o: Outcome)
      modifies this
      ensures o == outcome && proceeded == old(proceeded) + [r]
    {
      o := outcome;
      proceeded := proceeded + [r];
    }
  }
}
