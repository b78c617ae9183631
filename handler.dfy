/** Route handlers (src/handler/core.rs).

    `RouteHandler` and `AsyncRouteHandler` are two copies of one design and are modelled by one
    class whose `flavour` records which of the two it is; the async handler's function is taken
    already awaited, so matching and body gating are literally the same code for both. The regex
    crate is the parameter `regex`, serde's `Request::json::<T>` the parameter `json`, and
    `ResponseWrapper::into_response` is folded into the handler function. */
module Handlers {
  import opened Wrappers
  import opened Text
  import Http
  import Errors
  import Pattern
  import Body
  import Traits

  /** `Regex::new` and `Regex::is_match`: compiling a pattern yields a matcher for paths, or the
      compile error's message. */
  datatype RegexEngine = RegexEngine(compile: string -> Result<string -> bool, string>)

  /** Whether the handler was made by `RouteHandler::try_new` or `AsyncRouteHandler::try_new`. */
  datatype Flavour = Sync | Async

  /** What `matches` answers for a handler registered for `pattern` and `m`. */
  function RouteMatches(regex: RegexEngine, pattern: string, m: Http.Method, path: string,
                        requestMethod: Http.Method): (r: bool)
    ensures requestMethod != m ==> !r
    ensures regex.compile(pattern).Err? ==> !r
    ensures r ==> regex.compile(pattern).value(path)
  {
    if requestMethod != m then false
    else
      match regex.compile(pattern)
      case Ok(isMatch) => isMatch(path)
      case Err(_) => false
  }

  // ---------------------------------------------------------------------------
  // Body gating

  const MISSING_CONTENT_TYPE: string := "Missing Content-Type header"

  function UnsupportedMessage(ct: string): (msg: string)
    ensures StartsWith(msg, "Unsupported Content-Type: " + ct)
  {
    var head := "Unsupported Content-Type: " + ct;
    assert (head + " (expected application/json or *+json)")[..|head|] == head;
    head + " (expected application/json or *+json)"
  }

  /** The request carries a body of at least one byte. */
  predicate HasNonEmptyBody(req: Http.Request)
  {
    req.body.Some? && req.body.value != []
  }

  /** The body argument `handle` passes to the handler function: nothing for an absent or empty
      body; otherwise the body parsed as JSON, provided the exact key "content-type" names a
      JSON-like type. */
  function BodyData<T>(json: Http.Request -> Result<T, Errors.Error>, req: Http.Request): Result<Option<T>, Errors.Error>
  {
    if !HasNonEmptyBody(req) then Ok(None)
    else if "content-type" !in req.headers then Err(Errors.InvalidRequestBody(MISSING_CONTENT_TYPE))
    else if !Body.IsJsonLikeContentType(req.headers["content-type"]) then
      Err(Errors.InvalidRequestBody(UnsupportedMessage(req.headers["content-type"])))
    else
      match json(req)
      case Ok(v) => Ok(Some(v))
      case Err(e) => Err(e)
  }

  /** `handle`: the gated body, then the handler function. */
  function HandleRequest<T>(handlerFn: (Http.Request, Option<T>) -> Result<Http.Response, Errors.Error>,
                            json: Http.Request -> Result<T, Errors.Error>, req: Http.Request): Result<Http.Response, Errors.Error>
  {
    match BodyData(json, req)
    case Err(e) => Err(e)
    case Ok(body) => handlerFn(req, body)
  }

  /** An absent or empty body reaches the handler as None, with no Content-Type check and no
      JSON parse. */
  lemma NoBodyPassesNone<T>(handlerFn: (Http.Request, Option<T>) -> Result<Http.Response, Errors.Error>,
                            json: Http.Request -> Result<T, Errors.Error>, req: Http.Request)
    requires !HasNonEmptyBody(req)
    ensures HandleRequest(handlerFn, json, req) == handlerFn(req, None)
  {
  }

  /** A body without the exact key "content-type" is refused whatever the handler and the
      parser would do; a key spelt "Content-Type" does not count. */
  lemma MissingContentType<T>(handlerFn: (Http.Request, Option<T>) -> Result<Http.Response, Errors.Error>,
                              json: Http.Request -> Result<T, Errors.Error>, req: Http.Request)
    requires HasNonEmptyBody(req) && "content-type" !in req.headers
    ensures HandleRequest(handlerFn, json, req) == Err(Errors.InvalidRequestBody(MISSING_CONTENT_TYPE))
  {
  }

  /** A body whose Content-Type is not JSON-like is refused, naming the type, whatever the
      handler and the parser would do. */
  lemma UnsupportedContentType<T>(handlerFn: (Http.Request, Option<T>) -> Result<Http.Response, Errors.Error>,
                                  json: Http.Request -> Result<T, Errors.Error>, req: Http.Request)
    requires HasNonEmptyBody(req) && "content-type" in req.headers
    requires !Body.IsJsonLikeContentType(req.headers["content-type"])
    ensures HandleRequest(handlerFn, json, req).Err?
    ensures HandleRequest(handlerFn, json, req).error.InvalidRequestBody?
    ensures StartsWith(HandleRequest(handlerFn, json, req).error.msg, "Unsupported Content-Type: " + req.headers["content-type"])
  {
  }

  /** A JSON body with a JSON-like Content-Type reaches the handler parsed; a parse error is
      returned without calling it. */
  lemma JsonBodyParsed<T>(handlerFn: (Http.Request, Option<T>) -> Result<Http.Response, Errors.Error>,
                          json: Http.Request -> Result<T, Errors.Error>, req: Http.Request)
    requires HasNonEmptyBody(req) && "content-type" in req.headers
    requires Body.IsJsonLikeContentType(req.headers["content-type"])
    ensures json(req).Ok? ==> HandleRequest(handlerFn, json, req) == handlerFn(req, Some(json(req).value))
    ensures json(req).Err? ==> HandleRequest(handlerFn, json, req) == Err(json(req).error)
  {
  }

  // ---------------------------------------------------------------------------
  // The handler

  class RouteHandler<T(!new)> {
    const flavour: Flavour
    const httpMethod: Http.Method
    /** Always anchored: `try_new` stores what `ensure_safe_pattern` returns. */
    const pathPattern: string
    const handlerFn: (Http.Request, Option<T>) -> Result<Http.Response, Errors.Error>
    const json: Http.Request -> Result<T, Errors.Error>
    const regex: RegexEngine
    /** The `OnceLock` cache: empty until the first `matches` with the right method. */
    var compiledRegex: Option<Result<string -> bool, string>>

    /** The cache, once filled, holds the compilation of the stored pattern. */
    ghost predicate Valid()
      reads this
    {
      compiledRegex.Some? ==> compiledRegex.value == regex.compile(pathPattern)
    }

    constructor (flavour: Flavour, m: Http.Method, safePattern: string,
                 handlerFn: (Http.Request, Option<T>) -> Result<Http.Response, Errors.Error>,
                 json: Http.Request -> Result<T, Errors.Error>, regex: RegexEngine)
      ensures this.flavour == flavour && httpMethod == m && pathPattern == safePattern
      ensures this.handlerFn == handlerFn && this.json == json && this.regex == regex
      ensures compiledRegex.None? && Valid()
    {
      this.flavour := flavour;
      httpMethod := m;
      pathPattern := safePattern;
      this.handlerFn := handlerFn;
      this.json := json;
      this.regex := regex;
      compiledRegex := None;
    }

    /** `matches`: false for another method without touching the cache; otherwise the cache is
        filled if it is still empty, and a pattern that does not compile matches nothing. */
    method Matches(path: string, requestMethod: Http.Method) returns (r: bool)
      requires Valid()
      modifies this
      ensures Valid()
      ensures r == RouteMatches(regex, pathPattern, httpMethod, path, requestMethod)
      ensures requestMethod != httpMethod ==> compiledRegex == old(compiledRegex)
      ensures requestMethod == httpMethod ==> compiledRegex == Some(regex.compile(pathPattern))
      ensures old(compiledRegex).Some? ==> compiledRegex == old(compiledRegex)
    {
      if requestMethod != httpMethod {
        return false;
      }
      if compiledRegex.None? {
        compiledRegex := Some(regex.compile(pathPattern));
      }
      match compiledRegex.value
      case Ok(isMatch) => r := isMatch(path);
      case Err(_) => r := false;
    }

    /** `handle`. */
    function Handle(req: Http.Request): Result<Http.Response, Errors.Error>
    {
      HandleRequest(handlerFn, json, req)
    }

    /** The handler as a `dyn Handler`. Its matching is the cache-free equivalent of `Matches`,
        which returns the same answer on every call. */
    function AsHandler(): (h: Traits.Handler)
      ensures h.pathPattern == pathPattern
      ensures forall path, m :: h.matches(path, m) == RouteMatches(regex, pathPattern, httpMethod, path, m)
      ensures forall req :: h.handle(req) == HandleRequest(handlerFn, json, req)
    {
      Traits.Handler(pathPattern,
                     (path, m) => RouteMatches(regex, pathPattern, httpMethod, path, m),
                     req => HandleRequest(handlerFn, json, req))
    }
  }

  /** The state `try_new` leaves a new handler in. */
  ghost predicate Created<T(!new)>(h: RouteHandler<T>, flavour: Flavour, m: Http.Method, pattern: string,
                                    handlerFn: (Http.Request, Option<T>) -> Result<Http.Response, Errors.Error>,
                                    json: Http.Request -> Result<T, Errors.Error>, regex: RegexEngine)
    reads h
  {
    && pattern != []
    && h.flavour == flavour && h.httpMethod == m
    && h.pathPattern == Pattern.EnsureSafePattern(pattern).value
    && h.handlerFn == handlerFn && h.json == json && h.regex == regex
    && h.compiledRegex.None? && h.Valid()
  }

  /** `try_new`: the empty pattern is refused; otherwise the anchored pattern is stored with an
      empty regex cache. */
  method TryNew<T(!new)>(flavour: Flavour, m: Http.Method, pattern: string,
                         handlerFn: (Http.Request, Option<T>) -> Result<Http.Response, Errors.Error>,
                         json: Http.Request -> Result<T, Errors.Error>, regex: RegexEngine)
    returns (r: Result<RouteHandler<T>, Errors.Error>)
    ensures r.Err? <==> pattern == []
    ensures r.Err? ==> r.error == Errors.InvalidRequestBody(Pattern.EMPTY_PATTERN)
    ensures r.Ok? ==> fresh(r.value) && Created(r.value, flavour, m, pattern, handlerFn, json, regex)
  {
    var safe := Pattern.EnsureSafePattern(pattern);
    if safe.Err? {
      return Err(safe.error);
    }
    var h := new RouteHandler(flavour, m, safe.value, handlerFn, json, regex);
    return Ok(h);
  }

  /** The deprecated `new`, which panics where `try_new` fails: callers must supply a non-empty
      pattern. */
  method New<T(!new)>(flavour: Flavour, m: Http.Method, pattern: string,
                      handlerFn: (Http.Request, Option<T>) -> Result<Http.Response, Errors.Error>,
                      json: Http.Request -> Result<T, Errors.Error>, regex: RegexEngine)
    returns (h: RouteHandler<T>)
    requires pattern != []
    ensures fresh(h) && Created(h, flavour, m, pattern, handlerFn, json, regex)
  {
    var r := TryNew(flavour, m, pattern, handlerFn, json, regex);
    h := r.value;
  }

  /** A pattern that does not compile rejects every path and method (fail-closed). */
  lemma FailClosed(regex: RegexEngine, pattern: string, m: Http.Method)
    requires regex.compile(pattern).Err?
    ensures forall path, requestMethod :: !RouteMatches(regex, pattern, m, path, requestMethod)
  {
  }

  /** Two calls of `Matches` with the same arguments answer the same, and the second finds the
      cache the first filled. */
  method MatchesTwice<T(!new)>(h: RouteHandler<T>, path: string, requestMethod: Http.Method)
    returns (first: bool, second: bool)
    requires h.Valid()
    modifies h
    ensures first == second
    ensures h.Valid()
  {
    first := h.Matches(path, requestMethod);
    second := h.Matches(path, requestMethod);
  }
}
