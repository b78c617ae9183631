/** The HTTP vocabulary of the framework (src/common/http.rs): status codes, methods, requests,
    responses and the response builder. Requests, responses and builders are values; each
    `with_*` / builder step takes the old value and returns the updated one, as the Rust methods
    that consume `self` do. Header maps are `map<string, string>`. */
module Http {
  import opened Wrappers
  import opened Text
  import Errors
  import Context

  // ---------------------------------------------------------------------------
  // StatusCode

  datatype StatusCode =
    | Ok | Created | NoContent
    | BadRequest | Unauthorized | Forbidden | NotFound | MethodNotAllowed | Conflict
    | UnprocessableEntity | Locked | TooManyRequests
    | InternalServerError | NotImplemented | BadGateway | ServiceUnavailable

  /** `as_u16`: the enum discriminant. */
  function AsU16(s: StatusCode): (r: u16)
    ensures 200 <= r < 600
  {
    match s
    case Ok => 200
    case Created => 201
    case NoContent => 204
    case BadRequest => 400
    case Unauthorized => 401
    case Forbidden => 403
    case NotFound => 404
    case MethodNotAllowed => 405
    case Conflict => 409
    case UnprocessableEntity => 422
    case Locked => 423
    case TooManyRequests => 429
    case InternalServerError => 500
    case NotImplemented => 501
    case BadGateway => 502
    case ServiceUnavailable => 503
  }

  /** Distinct variants have distinct codes. */
  lemma AsU16Injective(a: StatusCode, b: StatusCode)
    requires AsU16(a) == AsU16(b)
    ensures a == b
  {
  }

  /** Every variant has a non-empty phrase. */
  function ReasonPhrase(s: StatusCode): (r: string)
    ensures r != []
  {
    match s
    case Ok => "OK"
    case Created => "Created"
    case NoContent => "No Content"
    case BadRequest => "Bad Request"
    case Unauthorized => "Unauthorized"
    case Forbidden => "Forbidden"
    case NotFound => "Not Found"
    case MethodNotAllowed => "Method Not Allowed"
    case Conflict => "Conflict"
    case UnprocessableEntity => "Unprocessable Entity"
    case Locked => "Locked"
    case TooManyRequests => "Too Many Requests"
    case InternalServerError => "Internal Server Error"
    case NotImplemented => "Not Implemented"
    case BadGateway => "Bad Gateway"
    case ServiceUnavailable => "Service Unavailable"
  }

  predicate IsSuccess(s: StatusCode): (r: bool)
    ensures r <==> s in {StatusCode.Ok, Created, NoContent}
  {
    200 <= AsU16(s) < 300
  }

  predicate IsClientError(s: StatusCode): (r: bool)
    ensures r <==> s in {StatusCode.BadRequest, Unauthorized, Forbidden, NotFound, MethodNotAllowed,
                         Conflict, UnprocessableEntity, Locked, TooManyRequests}
  {
    400 <= AsU16(s) < 500
  }

  predicate IsServerError(s: StatusCode): (r: bool)
    ensures r <==> s in {StatusCode.InternalServerError, NotImplemented, BadGateway, ServiceUnavailable}
  {
    500 <= AsU16(s) < 600
  }

  /** The three classes partition the variants: each code is in exactly one. */
  lemma StatusClasses(s: StatusCode)
    ensures IsSuccess(s) || IsClientError(s) || IsServerError(s)
    ensures !(IsSuccess(s) && IsClientError(s)) && !(IsSuccess(s) && IsServerError(s))
            && !(IsClientError(s) && IsServerError(s))
  {
  }

  // ---------------------------------------------------------------------------
  // Method

  datatype Method = GET | POST | PUT | DELETE | PATCH | HEAD | OPTIONS

  /** `impl Display for Method`. */
  function MethodName(m: Method): (r: string)
    ensures |r| >= 3 && IsAscii(r) && Upper(r) == r
  {
    match m
    case GET => "GET"
    case POST => "POST"
    case PUT => "PUT"
    case DELETE => "DELETE"
    case PATCH => "PATCH"
    case HEAD => "HEAD"
    case OPTIONS => "OPTIONS"
  }

  lemma MethodNameInjective(a: Method, b: Method)
    requires MethodName(a) == MethodName(b)
    ensures a == b
  {
  }

  /** `Method::from_str`: the method whose name equals the upper-cased input. */
  function MethodFromStr(s: string): (r: Option<Method>)
    ensures r.Some? ==> MethodName(r.value) == Upper(s)
    ensures r.None? ==> forall m: Method :: MethodName(m) != Upper(s)
  {
    match Upper(s)
    case "GET" => Some(GET)
    case "POST" => Some(POST)
    case "PUT" => Some(PUT)
    case "DELETE" => Some(DELETE)
    case "PATCH" => Some(PATCH)
    case "HEAD" => Some(HEAD)
    case "OPTIONS" => Some(OPTIONS)
    case _ => None
  }

  /** Display and parsing round-trip, and parsing ignores case. */
  lemma MethodRoundTrip(m: Method)
    ensures MethodFromStr(MethodName(m)) == Some(m)
    ensures MethodFromStr(Lower(MethodName(m))) == Some(m)
  {
    var n := MethodName(m);
    assert Upper(Lower(n)) == n by {
      forall i | 0 <= i < |n| ensures Upper(Lower(n))[i] == n[i] {
        assert UpperChar(n[i]) == n[i];
      }
    }
    if MethodFromStr(Lower(n)) != Some(m) {
      MethodNameInjective(MethodFromStr(Lower(n)).value, m);
    }
  }

  // ---------------------------------------------------------------------------
  // Header maps

  /** `m1` is `m0` with `key` bound to `value`: an earlier binding of `key` is replaced and every
      other key keeps its presence and its value. */
  predicate Inserted(m0: map<string, string>, m1: map<string, string>, key: string, value: string)
  {
    && key in m1 && m1[key] == value
    && (forall k | k in m1 && k != key :: k in m0 && m1[k] == m0[k])
    && (forall k | k in m0 && k != key :: k in m1)
  }

  function Insert(m: map<string, string>, key: string, value: string): (r: map<string, string>)
    ensures Inserted(m, r, key, value)
  {
    m[key := value]
  }

  /** `HashMap::extend`: keys of `incoming` take its values; all other keys keep theirs. */
  function Extend(m: map<string, string>, incoming: map<string, string>): (r: map<string, string>)
    ensures r.Keys == m.Keys + incoming.Keys
    ensures forall k | k in incoming :: r[k] == incoming[k]
    ensures forall k | k in m && k !in incoming :: r[k] == m[k]
  {
    m + incoming
  }

  // ---------------------------------------------------------------------------
  // Request

  datatype Request = Request(
    httpMethod: Method,
    path: string,
    queryParams: map<string, string>,
    headers: map<string, string>,
    body: Option<seq<byte>>,
    context: map<string, Context.TaggedValue>)

  /** `Request::new`: no query parameters, headers or body and an empty context. */
  function NewRequest(m: Method, path: string): (r: Request)
    ensures r.httpMethod == m && r.path == path && r.body.None?
    ensures r.queryParams == map[] && r.headers == map[] && r.context == map[]
  {
    Request(m, path, map[], map[], None, map[])
  }

  function RequestWithQueryParam(r: Request, key: string, value: string): (r': Request)
    ensures Inserted(r.queryParams, r'.queryParams, key, value)
    ensures r' == r.(queryParams := r'.queryParams)
  {
    r.(queryParams := Insert(r.queryParams, key, value))
  }

  function RequestWithHeader(r: Request, key: string, value: string): (r': Request)
    ensures Inserted(r.headers, r'.headers, key, value)
    ensures r' == r.(headers := r'.headers)
  {
    r.(headers := Insert(r.headers, key, value))
  }

  function RequestWithBody(r: Request, body: seq<byte>): (r': Request)
    ensures r'.body == Some(body)
    ensures r' == r.(body := r'.body)
  {
    r.(body := Some(body))
  }

  function RequestWithContext(r: Request, context: map<string, Context.TaggedValue>): (r': Request)
    ensures r'.context == context
    ensures r' == r.(context := r'.context)
  {
    r.(context := context)
  }

  // ---------------------------------------------------------------------------
  // Response

  datatype Response = Response(status: u16, headers: map<string, string>, body: Option<seq<byte>>)

  /** `Response::new`: the status, no headers, no body. */
  function NewResponse(status: u16): (r: Response)
    ensures r.status == status && r.headers == map[] && r.body.None?
  {
    Response(status, map[], None)
  }

  /** `Response::with_status`. */
  function ResponseWithStatus(s: StatusCode): (r: Response)
    ensures r == NewResponse(AsU16(s))
  {
    Response(AsU16(s), map[], None)
  }

  function WithHeader(r: Response, key: string, value: string): (r': Response)
    ensures Inserted(r.headers, r'.headers, key, value)
    ensures r'.status == r.status && r'.body == r.body
  {
    r.(headers := Insert(r.headers, key, value))
  }

  function WithBody(r: Response, body: seq<byte>): (r': Response)
    ensures r'.body == Some(body)
    ensures r'.status == r.status && r'.headers == r.headers
  {
    r.(body := Some(body))
  }

  /** The plain-text message `from_error` writes for a status code. */
  function ErrorMessage(status: u16): string
  {
    match status
    case 400 => "Bad Request"
    case 401 => "Unauthorized"
    case 403 => "Forbidden"
    case 404 => "Not Found"
    case 500 => "Internal Server Error"
    case 502 => "Internal Server Error"
    case _ => "Error"
  }

  /** `Response::from_error`: the error's status, a `text/plain` Content-Type and nothing
      else, and a fixed body. */
  function FromError(e: Errors.Error): (r: Response)
    ensures r.status == Errors.StatusCode(e)
    ensures r.headers == map["Content-Type" := "text/plain"]
    ensures r.body == Some(Utf8(ErrorMessage(Errors.StatusCode(e))))
  {
    WithBody(WithHeader(NewResponse(Errors.StatusCode(e)), "Content-Type", "text/plain"),
             Utf8(ErrorMessage(Errors.StatusCode(e))))
  }

  /** The body of `from_error` depends only on the status, so the error's message is never
      exposed; for every code except 502 that has a `StatusCode` variant it is that variant's
      reason phrase, 502 says "Internal Server Error" like 500, and the payload-too-large error
      (whose code has no variant) says "Error". */
  lemma FromErrorBody(e: Errors.Error, s: StatusCode)
    requires AsU16(s) == Errors.StatusCode(e) && s != BadGateway
    ensures FromError(e).body == Some(Utf8(ReasonPhrase(s)))
    ensures forall b: Errors.Error | Errors.StatusCode(b) == Errors.StatusCode(e) :: FromError(b) == FromError(e)
  {
    match e
    case RouteNotFound(_) => assert s == NotFound;
    case InvalidRequestBody(_) => assert s == BadRequest;
    case AuthenticationError(_) => assert s == Unauthorized;
    case AuthorizationError(_) => assert s == Forbidden;
    case ExternalServiceError(_) => assert false;
    case PayloadTooLarge(_) => assert false;
    case _ => assert s == StatusCode.InternalServerError;
  }

  lemma FromErrorFallbacks(e: Errors.Error)
    ensures e.ExternalServiceError? ==> FromError(e).body == Some(Utf8("Internal Server Error"))
    ensures e.PayloadTooLarge? ==> FromError(e).body == Some(Utf8("Error"))
  {
  }

  // ---------------------------------------------------------------------------
  // ResponseBuilder

  datatype ResponseBuilder = ResponseBuilder(status: u16, headers: map<string, string>, body: Option<seq<byte>>)

  function NewBuilder(status: u16): (b: ResponseBuilder)
    ensures b.status == status && b.headers == map[] && b.body.None?
  {
    ResponseBuilder(status, map[], None)
  }

  function BuilderWithStatus(s: StatusCode): (b: ResponseBuilder)
    ensures b == NewBuilder(AsU16(s))
  {
    ResponseBuilder(AsU16(s), map[], None)
  }

  /** `ResponseBuilder::build`: the response with the builder's status, headers and body. */
  function Build(b: ResponseBuilder): (r: Response)
    ensures r.status == b.status && r.headers == b.headers && r.body == b.body
  {
    Response(b.status, b.headers, b.body)
  }

  /** `ResponseBuilder::from`: building straight away gives the response back. */
  function BuilderFrom(r: Response): (b: ResponseBuilder)
    ensures Build(b) == r
  {
    ResponseBuilder(r.status, r.headers, r.body)
  }

  function Header(b: ResponseBuilder, key: string, value: string): (b': ResponseBuilder)
    ensures Inserted(b.headers, b'.headers, key, value)
    ensures b'.status == b.status && b'.body == b.body
  {
    b.(headers := Insert(b.headers, key, value))
  }

  /** `headers(map)`: every incoming pair is added, overriding the builder's value for a shared
      key. */
  function Headers(b: ResponseBuilder, incoming: map<string, string>): (b': ResponseBuilder)
    ensures b'.headers.Keys == b.headers.Keys + incoming.Keys
    ensures forall k | k in incoming :: b'.headers[k] == incoming[k]
    ensures forall k | k in b.headers && k !in incoming :: b'.headers[k] == b.headers[k]
    ensures b'.status == b.status && b'.body == b.body
  {
    b.(headers := Extend(b.headers, incoming))
  }

  const SECURITY_HEADERS: map<string, string> := map[
    "X-Content-Type-Options" := "nosniff",
    "X-Frame-Options" := "DENY",
    "X-XSS-Protection" := "1; mode=block",
    "Referrer-Policy" := "strict-origin-when-cross-origin",
    "Content-Security-Policy" := "default-src 'self'"]

  /** `security_headers`: the five fixed headers are set; every other header is untouched. */
  function SecurityHeaders(b: ResponseBuilder): (b': ResponseBuilder)
    ensures b'.headers.Keys == b.headers.Keys + SECURITY_HEADERS.Keys
    ensures forall k | k in SECURITY_HEADERS :: b'.headers[k] == SECURITY_HEADERS[k]
    ensures forall k | k in b.headers && k !in SECURITY_HEADERS :: b'.headers[k] == b.headers[k]
    ensures b'.status == b.status && b'.body == b.body
  {
    // five inserts of distinct keys, which is one extension by the fixed map
    b.(headers := Extend(b.headers, SECURITY_HEADERS))
  }

  function Body(b: ResponseBuilder, body: seq<byte>): (b': ResponseBuilder)
    ensures b'.body == Some(body)
    ensures b'.status == b.status && b'.headers == b.headers
  {
    b.(body := Some(body))
  }

  /** `text`: the UTF-8 bytes of the text as body, with a plain-text Content-Type. */
  function BuilderText(b: ResponseBuilder, text: string): (b': ResponseBuilder)
    ensures Inserted(b.headers, b'.headers, "Content-Type", "text/plain; charset=utf-8")
    ensures b'.body == Some(Utf8(text)) && b'.status == b.status
  {
    b.(headers := Insert(b.headers, "Content-Type", "text/plain; charset=utf-8"), body := Some(Utf8(text)))
  }

  /** `html`: the UTF-8 bytes of the markup as body, with an HTML Content-Type. */
  function BuilderHtml(b: ResponseBuilder, html: string): (b': ResponseBuilder)
    ensures Inserted(b.headers, b'.headers, "Content-Type", "text/html; charset=utf-8")
    ensures b'.body == Some(Utf8(html)) && b'.status == b.status
  {
    b.(headers := Insert(b.headers, "Content-Type", "text/html; charset=utf-8"), body := Some(Utf8(html)))
  }
}
