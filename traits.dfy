/** The `Handler` and `Middleware` traits (src/common/traits.rs) as records of functions: what a
    trait object can do, with nothing known about how. An `async fn` is modelled by the value
    its future resolves to. */
module Traits {
  import opened Wrappers
  import Http
  import Errors

  /** `dyn Handler`: its pattern text, its matching test and its request handling. */
  datatype Handler = Handler(
    pathPattern: string,
    matches: (string, Http.Method) -> bool,
    handle: Http.Request -> Result<Http.Response, Errors.Error>)

  /** `dyn Middleware`: a request filter run before the handler and a response filter run
      after it. */
  datatype Middleware = Middleware(
    preProcess: Http.Request -> Result<Http.Request, Errors.Error>,
    postProcess: Http.Response -> Result<Http.Response, Errors.Error>)
}
