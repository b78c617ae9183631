/** The CGI entry point (src/cgi/core.rs): `process_request`, the dispatch pipeline, and
    `run_cgi`, which turns the environment and standard input into a request, runs the pipeline
    as a task and writes the response that the task's outcome calls for.

    The environment, standard input and standard output are parameters (`env`, `stdin`, the
    writer `out`); gzip decompression is the parameter `gunzip`; whether the spawned task runs
    to completion, panics or is cancelled is the parameter `fate`. Logging is left out. */
module CgiCore {
  import opened Wrappers
  import opened Text
  import opened Env
  import Http
  import Errors
  import Traits
  import App
  import Utils
  import CgiRequest
  import CgiResponse
  import ErrorLogging

  // ---------------------------------------------------------------------------
  // The middleware chains

  /** The pre-processing chain: each middleware in registration order gets the request the
      previous one returned; the first error ends the chain. An error is always one that some
      middleware returned. */
  function PreChain(mws: seq<Traits.Middleware>, req: Http.Request): (r: Result<Http.Request, Errors.Error>)
    ensures r.Err? ==> exists k, q :: 0 <= k < |mws| && mws[k].preProcess(q) == Err(r.error)
    decreases |mws|
  {
    if mws == [] then Ok(req)
    else
      match mws[0].preProcess(req)
      case Err(e) => Err(e)
      case Ok(next) => PreChain(mws[1..], next)
  }

  /** One post-processing step: an error replaces the response with `from_error`. */
  function PostStep(m: Traits.Middleware, res: Http.Response): Http.Response
  {
    match m.postProcess(res)
    case Ok(processed) => processed
    case Err(e) => Http.FromError(e)
  }

  /** The post-processing chain: every middleware in registration order, errors included, so
      the middleware registered last has the last word. */
  function PostChain(mws: seq<Traits.Middleware>, res: Http.Response): (r: Http.Response)
    ensures mws != [] ==> r == PostStep(mws[|mws| - 1], PostChain(mws[..|mws| - 1], res))
    decreases |mws|
  {
    if mws == [] then res
    else
      assert |mws| > 1 ==> mws[..|mws| - 1][1..] == mws[1..][..|mws| - 2];
      PostChain(mws[1..], PostStep(mws[0], res))
  }

  /** The error `process_request` reports when no handler matches. */
  function NoRoute(request: Http.Request): Errors.Error
  {
    Errors.RouteNotFound(Http.MethodName(request.httpMethod) + " " + request.path)
  }

  /** What `process_request` returns. It fails exactly when no handler matches or a
      pre-middleware fails: a handler's error becomes a response. */
  function Dispatch(app: App.RunBridge, request: Http.Request): (r: Result<Http.Response, Errors.Error>)
    ensures r.Err? <==> App.FindHandler(app, request.path, request.httpMethod).None?
                        || PreChain(app.middlewares, request).Err?
  {
    match App.FindHandler(app, request.path, request.httpMethod)
    case None => Err(NoRoute(request))
    case Some(handler) =>
      match PreChain(app.middlewares, request)
      case Err(e) => Err(e)
      case Ok(processed) =>
        match handler.handle(processed)
        case Err(e) => Ok(Http.FromError(e))
        case Ok(res) => Ok(PostChain(app.middlewares, res))
  }

  /** `process_request`. */
  method ProcessRequest(app: App.RunBridge, request: Http.Request) returns (r: Result<Http.Response, Errors.Error>)
    ensures r == Dispatch(app, request)
  {
    var handler := App.FindHandler(app, request.path, request.httpMethod);
    if handler.None? {
      return Err(NoRoute(request));
    }
    var mws := app.middlewares;
    var processed := request;
    var i := 0;
    while i < |mws|
      invariant 0 <= i <= |mws|
      invariant PreChain(mws, request) == PreChain(mws[i..], processed)
    {
      assert mws[i..][0] == mws[i] && mws[i..][1..] == mws[i + 1..];
      var next := mws[i].preProcess(processed);
      if next.Err? {
        return Err(next.error);
      }
      processed := next.value;
      i := i + 1;
    }
    assert mws[|mws|..] == [];
    var handled := handler.value.handle(processed);
    if handled.Err? {
      return Ok(Http.FromError(handled.error));
    }
    var response := handled.value;
    i := 0;
    while i < |mws|
      invariant 0 <= i <= |mws|
      invariant PostChain(mws, handled.value) == PostChain(mws[i..], response)
    {
      assert mws[i..][0] == mws[i] && mws[i..][1..] == mws[i + 1..];
      var post := mws[i].postProcess(response);
      if post.Ok? {
        response := post.value;
      } else {
        response := Http.FromError(post.error);
      }
      i := i + 1;
    }
    assert mws[|mws|..] == [];
    return Ok(response);
  }

  // ---------------------------------------------------------------------------
  // Properties of the pipeline

  /** Running two lists of pre-middlewares one after the other is running their
      concatenation: the second list never runs when the first fails. */
  lemma {:induction false} PreChainConcat(a: seq<Traits.Middleware>, b: seq<Traits.Middleware>, req: Http.Request)
    ensures PreChain(a + b, req) == match PreChain(a, req) case Err(e) => Err(e) case Ok(next) => PreChain(b, next)
    decreases |a|
  {
    if a == [] {
      assert a + b == b;
    } else {
      assert (a + b)[0] == a[0] && (a + b)[1..] == a[1..] + b;
      match a[0].preProcess(req)
      case Err(_) =>
      case Ok(next) => PreChainConcat(a[1..], b, next);
    }
  }

  /** The first pre-middleware error is the chain's result, whatever the later middlewares
      would do. */
  lemma PreFirstError(mws: seq<Traits.Middleware>, req: Http.Request, i: nat, e: Errors.Error)
    requires i < |mws| && PreChain(mws[..i], req).Ok?
    requires mws[i].preProcess(PreChain(mws[..i], req).value) == Err(e)
    ensures PreChain(mws, req) == Err(e)
  {
    assert mws == mws[..i] + mws[i..];
    PreChainConcat(mws[..i], mws[i..], req);
    assert mws[i..][0] == mws[i];
  }

  /** Post-processing two lists one after the other is post-processing their concatenation. */
  lemma {:induction false} PostChainConcat(a: seq<Traits.Middleware>, b: seq<Traits.Middleware>, res: Http.Response)
    ensures PostChain(a + b, res) == PostChain(b, PostChain(a, res))
    decreases |a|
  {
    if a == [] {
      assert a + b == b;
    } else {
      assert (a + b)[0] == a[0] && (a + b)[1..] == a[1..] + b;
      PostChainConcat(a[1..], b, PostStep(a[0], res));
    }
  }

  /** A post-middleware error replaces the response with `from_error` and the remaining
      middlewares still run, on that replacement. */
  lemma PostErrorContinues(mws: seq<Traits.Middleware>, res: Http.Response, i: nat, e: Errors.Error)
    requires i < |mws| && mws[i].postProcess(PostChain(mws[..i], res)) == Err(e)
    ensures PostChain(mws, res) == PostChain(mws[i + 1..], Http.FromError(e))
  {
    assert mws == mws[..i] + mws[i..];
    PostChainConcat(mws[..i], mws[i..], res);
    assert mws[i..][0] == mws[i] && mws[i..][1..] == mws[i + 1..];
  }

  /** A middleware registered last post-processes last. */
  lemma PostRegisteredLast(mws: seq<Traits.Middleware>, m: Traits.Middleware, res: Http.Response)
    ensures PostChain(mws + [m], res) == PostStep(m, PostChain(mws, res))
  {
    PostChainConcat(mws, [m], res);
  }

  /** Without a matching handler the result is `RouteNotFound` naming method and path, and no
      middleware runs: the result is the same with no middlewares at all. */
  lemma NoRouteNoMiddleware(app: App.RunBridge, request: Http.Request)
    requires App.FindHandler(app, request.path, request.httpMethod).None?
    ensures Dispatch(app, request) == Err(NoRoute(request))
    ensures Dispatch(app, request) == Dispatch(app.(middlewares := []), request)
  {
  }

  /** A pre-middleware error is returned as it is, and the handler never runs. */
  lemma PreErrorSkipsHandler(app: App.RunBridge, request: Http.Request, e: Errors.Error)
    requires App.FindHandler(app, request.path, request.httpMethod).Some?
    requires PreChain(app.middlewares, request) == Err(e)
    ensures Dispatch(app, request) == Err(e)
  {
  }

  /** A handler error becomes `from_error` at once: no post-middleware sees it. */
  lemma HandlerErrorSkipsPost(app: App.RunBridge, request: Http.Request, e: Errors.Error)
    requires App.FindHandler(app, request.path, request.httpMethod).Some?
    requires PreChain(app.middlewares, request).Ok?
    requires App.FindHandler(app, request.path, request.httpMethod).value.handle(PreChain(app.middlewares, request).value) == Err(e)
    ensures Dispatch(app, request) == Ok(Http.FromError(e))
  {
  }

  // ---------------------------------------------------------------------------
  // From task outcome to response

  /** What the spawned task ends with: the pipeline's result, a panic or a cancellation. */
  datatype TaskOutcome = Returned(result: Result<Http.Response, Errors.Error>) | Panicked | Cancelled

  /** What the runtime does with the spawned task. */
  datatype Fate = Finishes | Panics | IsCancelled

  function Task(app: App.RunBridge, request: Http.Request, fate: Fate): TaskOutcome
  {
    match fate
    case Finishes => Returned(Dispatch(app, request))
    case Panics => Panicked
    case IsCancelled => Cancelled
  }

  /** A response with a `text/plain` Content-Type and `text` as its body. */
  function TextResponse(status: u16, text: string): (r: Http.Response)
    ensures r.status == status && r.headers == map["Content-Type" := "text/plain"] && r.body == Some(Utf8(text))
  {
    Http.WithBody(Http.WithHeader(Http.NewResponse(status), "Content-Type", "text/plain"), Utf8(text))
  }

  const INTERNAL_SERVER_ERROR: string := "Internal Server Error"

  /** The response `run_cgi` writes for a task outcome. Unless the task returned a response,
      it is a text/plain 404 or 500. */
  function OutcomeResponse(outcome: TaskOutcome): (r: Http.Response)
    ensures !(outcome.Returned? && outcome.result.Ok?) ==>
              (r.status == 404 || r.status == 500) && r.headers == map["Content-Type" := "text/plain"]
  {
    match outcome
    case Returned(Ok(res)) => res
    case Returned(Err(e)) =>
      if e.RouteNotFound? then TextResponse(404, "Not Found: " + e.msg)
      else TextResponse(500, INTERNAL_SERVER_ERROR + ": " + Errors.Display(e))
    case Panicked => TextResponse(500, INTERNAL_SERVER_ERROR)
    case Cancelled => TextResponse(500, INTERNAL_SERVER_ERROR)
  }

  /** Only `RouteNotFound` is reported as 404; every other reported error, whatever its own
      status code, is a 500 that shows its Display text. */
  lemma ReportedError(e: Errors.Error)
    ensures e.RouteNotFound? ==> OutcomeResponse(Returned(Err(e))) == TextResponse(404, "Not Found: " + e.msg)
    ensures !e.RouteNotFound? ==>
              OutcomeResponse(Returned(Err(e))) == TextResponse(500, INTERNAL_SERVER_ERROR + ": " + Errors.Display(e))
  {
  }

  /** A panicked or cancelled task gives a 500 whose body is exactly "Internal Server Error". */
  lemma LostTask(outcome: TaskOutcome)
    requires !outcome.Returned?
    ensures OutcomeResponse(outcome).status == 500
    ensures OutcomeResponse(outcome).body == Some(Utf8(INTERNAL_SERVER_ERROR))
    ensures OutcomeResponse(outcome).headers == map["Content-Type" := "text/plain"]
  {
  }

  /** A pre-middleware error other than `RouteNotFound` reaches the client as a 500, even when
      its own status code is a client error. */
  lemma PreErrorIs500(app: App.RunBridge, request: Http.Request, e: Errors.Error)
    requires App.FindHandler(app, request.path, request.httpMethod).Some?
    requires PreChain(app.middlewares, request) == Err(e) && !e.RouteNotFound?
    ensures OutcomeResponse(Task(app, request, Finishes)).status == 500
    ensures OutcomeResponse(Task(app, request, Finishes)).body == Some(Utf8(INTERNAL_SERVER_ERROR + ": " + Errors.Display(e)))
  {
  }

  // ---------------------------------------------------------------------------
  // run_cgi

  const NO_REQUEST_METHOD: string := "REQUEST_METHOD environment variable not set"
  const PAYLOAD_TOO_LARGE: string := "Payload Too Large"

  /** The headers `get_cgi_headers` reads from the environment. */
  function CgiHeaders(env: Environment): map<string, string>
  {
    FromPairs(CgiRequest.HeaderEntries(env))
  }

  /** The header map collected with lower-case keys, in iteration order `order`: when two keys
      lower-case alike, the later one in that order wins. */
  function LowerKeys(headers: map<string, string>, order: seq<string>): map<string, string>
    requires CgiResponse.KeysIn(order, headers)
  {
    FromPairs(seq(|order|, i requires 0 <= i < |order| => (Lower(order[i]), headers[order[i]])))
  }

  datatype Prepared = Ready(request: Http.Request) | Answered(response: Http.Response)

  /** The part of `run_cgi` before the task: an error returned without output, a response
      written at once (413 for an oversized body, 400 for a body that does not decompress), or
      the request to dispatch. */
  function Prepare(env: Environment, stdin: seq<byte>, maxBodySize: nat,
                   gunzip: Http.Request -> Result<Http.Request, Errors.Error>, order: seq<string>)
    : Result<Prepared, Errors.Error>
    requires CgiResponse.KeysIn(order, CgiHeaders(env))
  {
    match Var(env, "REQUEST_METHOD")
    case None => Err(Errors.InvalidRequestBody(NO_REQUEST_METHOD))
    case Some(methodText) =>
      match Http.MethodFromStr(methodText)
      case None => Err(Errors.InvalidRequestBody("Invalid HTTP method: " + methodText))
      case Some(m) =>
        match CgiRequest.ReadRequestBody(env, stdin, maxBodySize)
        case Err(e) => if e.PayloadTooLarge? then Ok(Answered(TextResponse(413, PAYLOAD_TOO_LARGE))) else Err(e)
        case Ok(body) =>
          var request := Http.Request(m, Var(env, "PATH_INFO").GetOr("/"),
                                      Utils.QueryParams(Var(env, "QUERY_STRING").GetOr("")),
                                      LowerKeys(CgiHeaders(env), order), body, map[]);
          match gunzip(request)
          case Err(e) => Ok(Answered(TextResponse(400, "Bad Request: " + Errors.Display(e))))
          case Ok(unzipped) => Ok(Ready(unzipped))
  }

  /** What `run_cgi` ends with: an error before any output, or the response it writes. */
  function PlanCgi(app: App.RunBridge, env: Environment, stdin: seq<byte>, maxBodySize: nat,
                   gunzip: Http.Request -> Result<Http.Request, Errors.Error>, fate: Fate, order: seq<string>)
    : Result<Http.Response, Errors.Error>
    requires CgiResponse.KeysIn(order, CgiHeaders(env))
  {
    PlanFrom(app, Prepare(env, stdin, maxBodySize, gunzip, order), fate)
  }

  /** What the run ends with once the request is prepared. */
  function PlanFrom(app: App.RunBridge, prepared: Result<Prepared, Errors.Error>, fate: Fate): Result<Http.Response, Errors.Error>
  {
    match prepared
    case Err(e) => Err(e)
    case Ok(Answered(response)) => Ok(response)
    case Ok(Ready(request)) => Ok(OutcomeResponse(Task(app, request, fate)))
  }

  /** A missing or unknown REQUEST_METHOD is an `InvalidRequestBody` error before anything is
      read or written. */
  lemma BadMethodRefused(app: App.RunBridge, env: Environment, stdin: seq<byte>, maxBodySize: nat,
                         gunzip: Http.Request -> Result<Http.Request, Errors.Error>, fate: Fate, order: seq<string>)
    requires CgiResponse.KeysIn(order, CgiHeaders(env))
    requires Var(env, "REQUEST_METHOD").None? || Http.MethodFromStr(Var(env, "REQUEST_METHOD").value).None?
    ensures PlanCgi(app, env, stdin, maxBodySize, gunzip, fate, order).Err?
    ensures PlanCgi(app, env, stdin, maxBodySize, gunzip, fate, order).error.InvalidRequestBody?
    ensures Var(env, "REQUEST_METHOD").None? ==>
              PlanCgi(app, env, stdin, maxBodySize, gunzip, fate, order) == Err(Errors.InvalidRequestBody(NO_REQUEST_METHOD))
  {
  }

  /** A body over the ceiling is answered with a 413 "Payload Too Large" whatever the
      application, the decompressor and the task would do: nothing is dispatched. */
  lemma OversizedBodyAnswered(app: App.RunBridge, env: Environment, stdin: seq<byte>, maxBodySize: nat,
                              gunzip: Http.Request -> Result<Http.Request, Errors.Error>, fate: Fate, order: seq<string>)
    requires CgiResponse.KeysIn(order, CgiHeaders(env))
    requires Var(env, "REQUEST_METHOD").Some? && Http.MethodFromStr(Var(env, "REQUEST_METHOD").value).Some?
    requires CgiRequest.ContentLength(env).Some? && CgiRequest.ContentLength(env).value > maxBodySize
    ensures PlanCgi(app, env, stdin, maxBodySize, gunzip, fate, order) == Ok(TextResponse(413, PAYLOAD_TOO_LARGE))
  {
    OversizedPrepared(env, stdin, maxBodySize, gunzip, order);
  }

  lemma OversizedPrepared(env: Environment, stdin: seq<byte>, maxBodySize: nat,
                          gunzip: Http.Request -> Result<Http.Request, Errors.Error>, order: seq<string>)
    requires CgiResponse.KeysIn(order, CgiHeaders(env))
    requires Var(env, "REQUEST_METHOD").Some? && Http.MethodFromStr(Var(env, "REQUEST_METHOD").value).Some?
    requires CgiRequest.ContentLength(env).Some? && CgiRequest.ContentLength(env).value > maxBodySize
    ensures Prepare(env, stdin, maxBodySize, gunzip, order) == Ok(Answered(TextResponse(413, PAYLOAD_TOO_LARGE)))
  {
    var body := CgiRequest.ReadRequestBody(env, stdin, maxBodySize);
    assert body.Err? && body.error.PayloadTooLarge?;
  }

  /** A dispatched request whose task panics or is cancelled is answered with the bare 500. */
  lemma LostTaskAnswered(app: App.RunBridge, env: Environment, stdin: seq<byte>, maxBodySize: nat,
                         gunzip: Http.Request -> Result<Http.Request, Errors.Error>, fate: Fate, order: seq<string>)
    requires CgiResponse.KeysIn(order, CgiHeaders(env))
    requires Prepare(env, stdin, maxBodySize, gunzip, order).Ok? && Prepare(env, stdin, maxBodySize, gunzip, order).value.Ready?
    requires fate != Finishes
    ensures PlanCgi(app, env, stdin, maxBodySize, gunzip, fate, order) == Ok(TextResponse(500, INTERNAL_SERVER_ERROR))
  {
  }

  // ---------------------------------------------------------------------------
  // The imperative entry point

  /** Some enumeration of the keys of `m`. */
  lemma {:induction false} SomeOrder(m: map<string, string>) returns (order: seq<string>)
    ensures CgiResponse.Enumerates(order, m)
    decreases |m.Keys|
  {
    if m.Keys == {} {
      order := [];
    } else {
      var k :| k in m.Keys;
      var rest := SomeOrder(m - {k});
      order := [k] + rest;
      assert forall i | 1 <= i < |order| :: order[i] == rest[i - 1];
    }
  }

  /** `HashMap` iteration: every key exactly once, in an order nothing promises. */
  method IterationOrder(m: map<string, string>) returns (order: seq<string>)
    ensures CgiResponse.Enumerates(order, m)
  {
    order := [];
    var rest := m.Keys;
    while rest != {}
      invariant rest <= m.Keys
      invariant forall i | 0 <= i < |order| :: order[i] in m && order[i] !in rest
      invariant forall k | k in m && k !in rest :: k in order
      invariant forall i, j | 0 <= i < j < |order| :: order[i] != order[j]
      decreases rest
    {
      var k :| k in rest;
      order := order + [k];
      rest := rest - {k};
    }
  }

  /** `out` grew by the framing of `response` in some iteration order of its headers. */
  ghost predicate Wrote(response: Http.Response, before: seq<byte>, after: seq<byte>)
  {
    exists order :: CgiResponse.Enumerates(order, response.headers)
                    && after == before + CgiResponse.ResponseBytes(response, order)
  }

  /** `write_response`: the response framed onto standard output. */
  method WriteResponse(response: Http.Response, out: CgiResponse.Writer)
    modifies out
    ensures Wrote(response, old(out.written), out.written)
  {
    var order := IterationOrder(response.headers);
    CgiResponse.WriteResponseTo(response, order, out);
  }

  /** `run_cgi` ended as `PlanCgi` says: with the error and no output, or with the response
      written. */
  ghost predicate RanAsPlanned(plan: Result<Http.Response, Errors.Error>, r: Result<(), Errors.Error>,
                               before: seq<byte>, after: seq<byte>)
  {
    match plan
    case Err(e) => r == Err(e) && after == before
    case Ok(response) => r == Ok(()) && Wrote(response, before, after)
  }

  /** The first half of `run_cgi`: the request read from the environment and standard input,
      or the error or response that ends the run before dispatch. `headerOrder` is the
      iteration order in which the request headers were lower-cased. */
  method PrepareCgiRequest(env: Environment, stdin: seq<byte>, maxBodySize: nat,
                           gunzip: Http.Request -> Result<Http.Request, Errors.Error>)
    returns (p: Result<Prepared, Errors.Error>, ghost headerOrder: seq<string>)
    ensures CgiResponse.Enumerates(headerOrder, CgiHeaders(env))
    ensures p == Prepare(env, stdin, maxBodySize, gunzip, headerOrder)
  {
    headerOrder := SomeOrder(CgiHeaders(env));
    var methodText := Var(env, "REQUEST_METHOD");
    if methodText.None? {
      return Err(Errors.InvalidRequestBody(NO_REQUEST_METHOD)), headerOrder;
    }
    var m := Http.MethodFromStr(methodText.value);
    if m.None? {
      return Err(Errors.InvalidRequestBody("Invalid HTTP method: " + methodText.value)), headerOrder;
    }
    var path := Var(env, "PATH_INFO").GetOr("/");
    var queryString := Var(env, "QUERY_STRING").GetOr("");
    var queryParams := Utils.ParseQueryString(queryString);
    var headers := CgiRequest.GetCgiHeaders(env);
    var body := CgiRequest.ReadRequestBody(env, stdin, maxBodySize);
    if body.Err? {
      if body.error.PayloadTooLarge? {
        return Ok(Answered(TextResponse(413, PAYLOAD_TOO_LARGE))), headerOrder;
      }
      return Err(body.error), headerOrder;
    }
    var order := IterationOrder(headers);
    headerOrder := order;
    var request := Http.Request(m.value, path, queryParams, LowerKeys(headers, order), body.value, map[]);
    var unzipped := gunzip(request);
    if unzipped.Err? {
      return Ok(Answered(TextResponse(400, "Bad Request: " + Errors.Display(unzipped.error)))), headerOrder;
    }
    return Ok(Ready(unzipped.value)), headerOrder;
  }

  /** A request was prepared, so the environment names a known method. */
  lemma PreparedHasMethod(env: Environment, stdin: seq<byte>, maxBodySize: nat,
                          gunzip: Http.Request -> Result<Http.Request, Errors.Error>, order: seq<string>)
    requires CgiResponse.KeysIn(order, CgiHeaders(env))
    requires Prepare(env, stdin, maxBodySize, gunzip, order).Ok?
    ensures Var(env, "REQUEST_METHOD").Some? && Http.MethodFromStr(Var(env, "REQUEST_METHOD").value).Some?
  {
  }

  /** The text `gather_cgi_panic_context` produces for this environment. */
  function PanicContextOf(env: Environment): string
    requires Var(env, "REQUEST_METHOD").Some? && Http.MethodFromStr(Var(env, "REQUEST_METHOD").value).Some?
  {
    Join(ErrorLogging.PanicContextLines(env, Http.MethodName(Http.MethodFromStr(Var(env, "REQUEST_METHOD").value).value),
                                        Var(env, "PATH_INFO").GetOr("/")), "\n")
  }

  /** The spawned task: `process_request` run to its end, a panic, whose context is gathered
      for the log, or a cancellation. */
  method RunTask(app: App.RunBridge, env: Environment, request: Http.Request, fate: Fate)
    returns (outcome: TaskOutcome, panicContext: Option<string>)
    requires Var(env, "REQUEST_METHOD").Some? && Http.MethodFromStr(Var(env, "REQUEST_METHOD").value).Some?
    ensures outcome == Task(app, request, fate)
    ensures panicContext.Some? <==> fate == Panics
    ensures panicContext.Some? ==> panicContext.value == PanicContextOf(env)
  {
    panicContext := None;
    match fate
    case Finishes =>
      var result := ProcessRequest(app, request);
      outcome := Returned(result);
    case Panics =>
      var methodName := Http.MethodName(Http.MethodFromStr(Var(env, "REQUEST_METHOD").value).value);
      var context := ErrorLogging.GatherCgiPanicContext(env, methodName, Var(env, "PATH_INFO").GetOr("/"));
      panicContext := Some(context);
      outcome := Panicked;
    case IsCancelled =>
      outcome := Cancelled;
  }

  /** `run_cgi`. The panic context is the text logged when the task panics. */
  method RunCgi(app: App.RunBridge, env: Environment, stdin: seq<byte>, maxBodySize: nat,
                gunzip: Http.Request -> Result<Http.Request, Errors.Error>, fate: Fate, out: CgiResponse.Writer)
    returns (r: Result<(), Errors.Error>, panicContext: Option<string>, ghost headerOrder: seq<string>)
    modifies out
    ensures CgiResponse.Enumerates(headerOrder, CgiHeaders(env))
    ensures RanAsPlanned(PlanCgi(app, env, stdin, maxBodySize, gunzip, fate, headerOrder), r, old(out.written), out.written)
    ensures panicContext.Some? <==>
              fate == Panics && Prepare(env, stdin, maxBodySize, gunzip, headerOrder).Ok?
              && Prepare(env, stdin, maxBodySize, gunzip, headerOrder).value.Ready?
    ensures panicContext.Some? ==>
              Var(env, "REQUEST_METHOD").Some? && Http.MethodFromStr(Var(env, "REQUEST_METHOD").value).Some?
              && panicContext.value == PanicContextOf(env)
  {
    var p;
    p, headerOrder := PrepareCgiRequest(env, stdin, maxBodySize, gunzip);
    ghost var plan := PlanFrom(app, p, fate);
    assert PlanCgi(app, env, stdin, maxBodySize, gunzip, fate, headerOrder) == plan;
    panicContext := None;
    if p.Err? {
      return Err(p.error), None, headerOrder;
    }
    if p.value.Answered? {
      WriteResponse(p.value.response, out);
      assert RanAsPlanned(plan, Ok(()), old(out.written), out.written);
      return Ok(()), None, headerOrder;
    }
    PreparedHasMethod(env, stdin, maxBodySize, gunzip, headerOrder);
    var outcome;
    outcome, panicContext := RunTask(app, env, p.value.request, fate);
    assert plan == Ok(OutcomeResponse(outcome));
    WriteResponse(OutcomeResponse(outcome), out);
    r := Ok(());
  }
}
