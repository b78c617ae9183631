/** The handler builders (src/handler/builders.rs): each fixes the HTTP method of the handler it
    makes. `get`, `delete` and `options` ignore the body argument; `post` and `put` wrap their
    function so that a missing body is an error.

    An async handler function returns a future; `resolve` stands for awaiting it. The plain
    builders call the deprecated `new`, which panics on an empty pattern, so they require a
    non-empty one. */
module Builders {
  import opened Wrappers
  import Http
  import Errors
  import Pattern
  import opened Handlers

  const MISSING_BODY: string := "Missing request body"

  type Outcome = Result<Http.Response, Errors.Error>

  /** `future::Either`: an immediately ready result or the handler's own future. */
  datatype Either<L, R> = Left(left: L) | Right(right: R)

  /** `require_body_sync`: None is refused without calling `handler`; Some(data) is exactly
      `handler(req, data)`. */
  function RequireBodySync<T(!new)>(handler: (Http.Request, T) -> Outcome): (f: (Http.Request, Option<T>) -> Outcome)
    ensures forall req :: f(req, None) == Err(Errors.InvalidRequestBody(MISSING_BODY))
    ensures forall req, data :: f(req, Some(data)) == handler(req, data)
  {
    (req, body: Option<T>) => if body.None? then Err(Errors.InvalidRequestBody(MISSING_BODY)) else handler(req, body.value)
  }

  /** `require_body_async`: None gives a ready future holding the same error, Some(data) the
      handler's future. */
  function RequireBodyAsync<T(!new), Fut>(handler: (Http.Request, T) -> Fut): (f: (Http.Request, Option<T>) -> Either<Outcome, Fut>)
    ensures forall req :: f(req, None) == Left(Err(Errors.InvalidRequestBody(MISSING_BODY)))
    ensures forall req, data :: f(req, Some(data)) == Right(handler(req, data))
  {
    (req, body: Option<T>) => if body.None? then Left(Err(Errors.InvalidRequestBody(MISSING_BODY))) else Right(handler(req, body.value))
  }

  /** Awaiting an `Either` future: a ready value is itself, the other side is awaited. */
  function AwaitEither<Fut>(e: Either<Outcome, Fut>, resolve: Fut -> Outcome): Outcome
  {
    match e
    case Left(ready) => ready
    case Right(fut) => resolve(fut)
  }

  /** Awaited, the async adapter agrees with the sync one applied to the awaited handler. */
  lemma AsyncAgreesWithSync<T(!new), Fut>(handler: (Http.Request, T) -> Fut, resolve: Fut -> Outcome,
                                          req: Http.Request, body: Option<T>)
    ensures AwaitEither(RequireBodyAsync(handler)(req, body), resolve)
            == RequireBodySync((r, d) => resolve(handler(r, d)))(req, body)
  {
  }

  /** A handler made by `post` or `put` answers a request without a body (or with an empty one)
      with "Missing request body", without calling the user's function. */
  lemma BodyRequired<T(!new)>(handler: (Http.Request, T) -> Outcome, json: Http.Request -> Result<T, Errors.Error>,
                              req: Http.Request)
    requires !HasNonEmptyBody(req)
    ensures HandleRequest(RequireBodySync(handler), json, req) == Err(Errors.InvalidRequestBody(MISSING_BODY))
  {
  }

  /** The handler a builder made: its flavour, method and anchored pattern, with an empty
      cache. */
  ghost predicate Built<T(!new)>(h: RouteHandler<T>, flavour: Flavour, m: Http.Method, path: string,
                                  json: Http.Request -> Result<T, Errors.Error>, regex: RegexEngine)
    reads h
  {
    && path != []
    && h.flavour == flavour && h.httpMethod == m
    && h.pathPattern == Pattern.EnsureSafePattern(path).value
    && h.json == json && h.regex == regex
    && h.compiledRegex.None? && h.Valid()
  }

  // ---------------------------------------------------------------------------
  // Builders that ignore the body

  /** Its function called with the request only. */
  function IgnoreBody(handler: Http.Request -> Outcome): (f: (Http.Request, Option<()>) -> Outcome)
    ensures forall req, body :: f(req, body) == handler(req)
  {
    (req, body: Option<()>) => handler(req)
  }

  function IgnoreBodyAsync<Fut>(handler: Http.Request -> Fut, resolve: Fut -> Outcome): (f: (Http.Request, Option<()>) -> Outcome)
    ensures forall req, body :: f(req, body) == resolve(handler(req))
  {
    (req, body: Option<()>) => resolve(handler(req))
  }

  method Get(path: string, handler: Http.Request -> Outcome, json: Http.Request -> Result<(), Errors.Error>,
             regex: RegexEngine) returns (h: RouteHandler<()>)
    requires path != []
    ensures fresh(h) && Built(h, Sync, Http.GET, path, json, regex)
    ensures forall req, body :: h.handlerFn(req, body) == handler(req)
  {
    h := New(Sync, Http.GET, path, IgnoreBody(handler), json, regex);
  }

  method TryGet(path: string, handler: Http.Request -> Outcome, json: Http.Request -> Result<(), Errors.Error>,
                regex: RegexEngine) returns (r: Result<RouteHandler<()>, Errors.Error>)
    ensures r.Err? <==> path == []
    ensures r.Err? ==> r.error == Errors.InvalidRequestBody(Pattern.EMPTY_PATTERN)
    ensures r.Ok? ==> fresh(r.value) && Built(r.value, Sync, Http.GET, path, json, regex)
    ensures r.Ok? ==> forall req, body :: r.value.handlerFn(req, body) == handler(req)
  {
    r := TryNew(Sync, Http.GET, path, IgnoreBody(handler), json, regex);
  }

  method AsyncGet<Fut>(path: string, handler: Http.Request -> Fut, resolve: Fut -> Outcome,
                       json: Http.Request -> Result<(), Errors.Error>, regex: RegexEngine) returns (h: RouteHandler<()>)
    requires path != []
    ensures fresh(h) && Built(h, Async, Http.GET, path, json, regex)
    ensures forall req, body :: h.handlerFn(req, body) == resolve(handler(req))
  {
    h := New(Async, Http.GET, path, IgnoreBodyAsync(handler, resolve), json, regex);
  }

  method TryAsyncGet<Fut>(path: string, handler: Http.Request -> Fut, resolve: Fut -> Outcome,
                          json: Http.Request -> Result<(), Errors.Error>, regex: RegexEngine)
    returns (r: Result<RouteHandler<()>, Errors.Error>)
    ensures r.Err? <==> path == []
    ensures r.Err? ==> r.error == Errors.InvalidRequestBody(Pattern.EMPTY_PATTERN)
    ensures r.Ok? ==> fresh(r.value) && Built(r.value, Async, Http.GET, path, json, regex)
    ensures r.Ok? ==> forall req, body :: r.value.handlerFn(req, body) == resolve(handler(req))
  {
    r := TryNew(Async, Http.GET, path, IgnoreBodyAsync(handler, resolve), json, regex);
  }

  method Delete(path: string, handler: Http.Request -> Outcome, json: Http.Request -> Result<(), Errors.Error>,
                regex: RegexEngine) returns (h: RouteHandler<()>)
    requires path != []
    ensures fresh(h) && Built(h, Sync, Http.DELETE, path, json, regex)
    ensures forall req, body :: h.handlerFn(req, body) == handler(req)
  {
    h := New(Sync, Http.DELETE, path, IgnoreBody(handler), json, regex);
  }

  method AsyncDelete<Fut>(path: string, handler: Http.Request -> Fut, resolve: Fut -> Outcome,
                          json: Http.Request -> Result<(), Errors.Error>, regex: RegexEngine) returns (h: RouteHandler<()>)
    requires path != []
    ensures fresh(h) && Built(h, Async, Http.DELETE, path, json, regex)
    ensures forall req, body :: h.handlerFn(req, body) == resolve(handler(req))
  {
    h := New(Async, Http.DELETE, path, IgnoreBodyAsync(handler, resolve), json, regex);
  }

  method Options(path: string, handler: Http.Request -> Outcome, json: Http.Request -> Result<(), Errors.Error>,
                 regex: RegexEngine) returns (h: RouteHandler<()>)
    requires path != []
    ensures fresh(h) && Built(h, Sync, Http.OPTIONS, path, json, regex)
    ensures forall req, body :: h.handlerFn(req, body) == handler(req)
  {
    h := New(Sync, Http.OPTIONS, path, IgnoreBody(handler), json, regex);
  }

  method AsyncOptions<Fut>(path: string, handler: Http.Request -> Fut, resolve: Fut -> Outcome,
                           json: Http.Request -> Result<(), Errors.Error>, regex: RegexEngine) returns (h: RouteHandler<()>)
    requires path != []
    ensures fresh(h) && Built(h, Async, Http.OPTIONS, path, json, regex)
    ensures forall req, body :: h.handlerFn(req, body) == resolve(handler(req))
  {
    h := New(Async, Http.OPTIONS, path, IgnoreBodyAsync(handler, resolve), json, regex);
  }

  // ---------------------------------------------------------------------------
  // Builders that require the body

  method Post<T(!new)>(path: string, handler: (Http.Request, T) -> Outcome, json: Http.Request -> Result<T, Errors.Error>,
                       regex: RegexEngine) returns (h: RouteHandler<T>)
    requires path != []
    ensures fresh(h) && Built(h, Sync, Http.POST, path, json, regex)
    ensures forall req, body :: h.handlerFn(req, body) == RequireBodySync(handler)(req, body)
  {
    h := New(Sync, Http.POST, path, RequireBodySync(handler), json, regex);
  }

  /** The async handler function: the adapter's future, awaited. */
  function AwaitedRequireBody<T(!new), Fut>(handler: (Http.Request, T) -> Fut, resolve: Fut -> Outcome)
    : (f: (Http.Request, Option<T>) -> Outcome)
    ensures forall req, body :: f(req, body) == AwaitEither(RequireBodyAsync(handler)(req, body), resolve)
  {
    (req, body: Option<T>) => AwaitEither(RequireBodyAsync(handler)(req, body), resolve)
  }

  method AsyncPost<T(!new), Fut>(path: string, handler: (Http.Request, T) -> Fut, resolve: Fut -> Outcome,
                                 json: Http.Request -> Result<T, Errors.Error>, regex: RegexEngine) returns (h: RouteHandler<T>)
    requires path != []
    ensures fresh(h) && Built(h, Async, Http.POST, path, json, regex)
    ensures forall req, body :: h.handlerFn(req, body) == AwaitEither(RequireBodyAsync(handler)(req, body), resolve)
  {
    h := New(Async, Http.POST, path, AwaitedRequireBody(handler, resolve), json, regex);
  }

  method Put<T(!new)>(path: string, handler: (Http.Request, T) -> Outcome, json: Http.Request -> Result<T, Errors.Error>,
                      regex: RegexEngine) returns (h: RouteHandler<T>)
    requires path != []
    ensures fresh(h) && Built(h, Sync, Http.PUT, path, json, regex)
    ensures forall req, body :: h.handlerFn(req, body) == RequireBodySync(handler)(req, body)
  {
    h := New(Sync, Http.PUT, path, RequireBodySync(handler), json, regex);
  }

  method AsyncPut<T(!new), Fut>(path: string, handler: (Http.Request, T) -> Fut, resolve: Fut -> Outcome,
                                json: Http.Request -> Result<T, Errors.Error>, regex: RegexEngine) returns (h: RouteHandler<T>)
    requires path != []
    ensures fresh(h) && Built(h, Async, Http.PUT, path, json, regex)
    ensures forall req, body :: h.handlerFn(req, body) == AwaitEither(RequireBodyAsync(handler)(req, body), resolve)
  {
    h := New(Async, Http.PUT, path, AwaitedRequireBody(handler, resolve), json, regex);
  }
}
