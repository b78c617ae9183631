/** The application's error type (`Error` in src/error.rs), its Display text and its HTTP status
    code. Each variant carries a message string. */
module Errors {
  import opened Text

  datatype Error =
    | RouteNotFound(msg: string)
    | InvalidRequestBody(msg: string)
    | ResponseSerializationError(msg: string)
    | MiddlewareError(msg: string)
    | InternalServerError(msg: string)
    | ConfigurationError(msg: string)
    | ExternalServiceError(msg: string)
    | AuthenticationError(msg: string)
    | AuthorizationError(msg: string)
      /** Used by the CGI body reader and caught by the CGI entry point; the error enum shown in
          src/error.rs does not declare it (see README). */
    | PayloadTooLarge(msg: string)

  /** The fixed text that Display puts in front of the message. */
  function Prefix(e: Error): string
  {
    match e
    case RouteNotFound(_) => "Route not found: "
    case InvalidRequestBody(_) => "Invalid request body: "
    case ResponseSerializationError(_) => "Failed to serialize response: "
    case MiddlewareError(_) => "Middleware error: "
    case InternalServerError(_) => "Internal server error: "
    case ConfigurationError(_) => "Configuration error: "
    case ExternalServiceError(_) => "External service error: "
    case AuthenticationError(_) => "Authentication error: "
    case AuthorizationError(_) => "Authorization error: "
    case PayloadTooLarge(_) => "Payload too large: "
  }

  /** `format!("{}", e)`: the variant's prefix followed by its message. */
  function Display(e: Error): (r: string)
    ensures StartsWith(r, Prefix(e)) && EndsWith(r, e.msg)
    ensures |r| == |Prefix(e)| + |e.msg|
  {
    Prefix(e) + e.msg
  }

  /** Two characters of the prefix that already tell the variants apart. */
  function Key(e: Error): (char, char)
  {
    match e
    case RouteNotFound(_) => ('R', 'e')
    case InvalidRequestBody(_) => ('I', 'l')
    case ResponseSerializationError(_) => ('F', 'e')
    case MiddlewareError(_) => ('M', 'l')
    case InternalServerError(_) => ('I', 'r')
    case ConfigurationError(_) => ('C', 'i')
    case ExternalServiceError(_) => ('E', 'r')
    case AuthenticationError(_) => ('A', 'e')
    case AuthorizationError(_) => ('A', 'o')
    case PayloadTooLarge(_) => ('P', 'o')
  }

  /** The key is the first and fifth character of the prefix. */
  lemma PrefixKey(e: Error)
    ensures |Prefix(e)| > 4 && Prefix(e)[0] == Key(e).0 && Prefix(e)[4] == Key(e).1
  {
    if e.RouteNotFound? || e.InvalidRequestBody? || e.ResponseSerializationError? || e.MiddlewareError?
       || e.InternalServerError? {
      PrefixKeyFirst(e);
    } else {
      PrefixKeySecond(e);
    }
  }

  lemma PrefixKeyFirst(e: Error)
    requires e.RouteNotFound? || e.InvalidRequestBody? || e.ResponseSerializationError? || e.MiddlewareError?
             || e.InternalServerError?
    ensures |Prefix(e)| > 4 && Prefix(e)[0] == Key(e).0 && Prefix(e)[4] == Key(e).1
  {
  }

  lemma PrefixKeySecond(e: Error)
    requires e.ConfigurationError? || e.ExternalServiceError? || e.AuthenticationError? || e.AuthorizationError?
             || e.PayloadTooLarge?
    ensures |Prefix(e)| > 4 && Prefix(e)[0] == Key(e).0 && Prefix(e)[4] == Key(e).1
  {
  }

  /** The key and the message together determine the error. */
  lemma KeyAndMessage(a: Error, b: Error)
    requires Key(a) == Key(b) && a.msg == b.msg
    ensures a == b
  {
  }

  /** Display is injective: the text of an error determines both its variant and its message. */
  lemma DisplayInjective(a: Error, b: Error)
    requires Display(a) == Display(b)
    ensures a == b
  {
    var d := Display(a);
    PrefixKey(a);
    PrefixKey(b);
    assert d[0] == Prefix(a)[0] && d[4] == Prefix(a)[4];
    assert d[0] == Prefix(b)[0] && d[4] == Prefix(b)[4];
    assert Key(a) == Key(b);
    KeyAndMessage(a, b);
    assert a.msg == d[|Prefix(a)|..];
    assert b.msg == d[|Prefix(b)|..];
  }

  /** `Error::status_code`. The status of the variant missing from src/error.rs is taken as 413,
      the code the CGI entry point writes for it. */
  function StatusCode(e: Error): (r: u16)
    ensures r == 404 <==> e.RouteNotFound?
    ensures r == 400 <==> e.InvalidRequestBody?
    ensures r == 401 <==> e.AuthenticationError?
    ensures r == 403 <==> e.AuthorizationError?
    ensures r == 502 <==> e.ExternalServiceError?
    ensures r == 500 <==> (e.ResponseSerializationError? || e.MiddlewareError?
                           || e.InternalServerError? || e.ConfigurationError?)
    ensures r == 413 <==> e.PayloadTooLarge?
  {
    match e
    case RouteNotFound(_) => 404
    case InvalidRequestBody(_) => 400
    case ResponseSerializationError(_) => 500
    case MiddlewareError(_) => 500
    case InternalServerError(_) => 500
    case ConfigurationError(_) => 500
    case ExternalServiceError(_) => 502
    case AuthenticationError(_) => 401
    case AuthorizationError(_) => 403
    case PayloadTooLarge(_) => 413
  }

  /** Every variant of src/error.rs maps to one of six codes, all of them client or server
      errors. */
  lemma StatusCodeRange(e: Error)
    requires !e.PayloadTooLarge?
    ensures StatusCode(e) in {400, 401, 403, 404, 500, 502}
    ensures 400 <= StatusCode(e) < 600
  {
  }
}
