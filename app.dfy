/** The application and its builder (src/lib.rs): the route table, kept ordered by the number of
    '/' characters in each handler's pattern, most first, and the middleware list in
    registration order. */
module App {
  import opened Wrappers
  import opened Text
  import Http
  import Traits

  /** How many '/' characters a handler's pattern holds. */
  function Slashes(h: Traits.Handler): nat
  {
    Count(h.pathPattern, '/')
  }

  /** Non-increasing in the '/' count. */
  predicate SortedBySlashes(hs: seq<Traits.Handler>)
  {
    forall i, j | 0 <= i < j < |hs| :: Slashes(hs[i]) >= Slashes(hs[j])
  }

  /** `RunBridge`: the built application. */
  datatype RunBridge = RunBridge(handlers: seq<Traits.Handler>, middlewares: seq<Traits.Middleware>)

  /** Putting `h` at `i`, after every handler with at least as many '/' and before every
      handler with fewer, keeps the list sorted. */
  lemma InsertSorted(hs: seq<Traits.Handler>, i: nat, h: Traits.Handler)
    requires SortedBySlashes(hs) && i <= |hs|
    requires i > 0 ==> Slashes(hs[i - 1]) >= Slashes(h)
    requires forall k | i <= k < |hs| :: Slashes(hs[k]) < Slashes(h)
    ensures SortedBySlashes(hs[..i] + [h] + hs[i..])
  {
    var r := hs[..i] + [h] + hs[i..];
    forall a, b | 0 <= a < b < |r| ensures Slashes(r[a]) >= Slashes(r[b]) {
      if a < i && b < i {
        assert r[a] == hs[a] && r[b] == hs[b];
      } else if a < i && b == i {
        assert r[a] == hs[a] && Slashes(hs[a]) >= Slashes(hs[i - 1]);
      } else if a < i {
        assert r[a] == hs[a] && r[b] == hs[b - 1];
      } else if a == i {
        assert r[b] == hs[b - 1];
      } else {
        assert r[a] == hs[a - 1] && r[b] == hs[b - 1];
      }
    }
  }

  class RunBridgeBuilder {
    var handlers: seq<Traits.Handler>
    var middlewares: seq<Traits.Middleware>

    /** The handler list is sorted after every `handler` call, hence always. */
    ghost predicate Valid()
      reads this
    {
      SortedBySlashes(handlers)
    }

    /** `RunBridgeBuilder::new` and `Default`. */
    constructor ()
      ensures handlers == [] && middlewares == [] && Valid()
    {
      handlers := [];
      middlewares := [];
    }

    /** `handler`: push, then re-sort by '/' count, most first. The new list holds the old
        handlers and the new one, each exactly once, sorted; among equal counts the order is
        unspecified (`sort_unstable_by`), and the model puts the new handler after the ones it
        ties with. */
    method AddHandler(h: Traits.Handler)
      requires Valid()
      modifies this
      ensures Valid()
      ensures multiset(handlers) == multiset(old(handlers)) + multiset{h}
      ensures |handlers| == |old(handlers)| + 1
      ensures middlewares == old(middlewares)
    {
      var i := |handlers|;
      while i > 0 && Slashes(handlers[i - 1]) < Slashes(h)
        invariant 0 <= i <= |handlers|
        invariant forall k | i <= k < |handlers| :: Slashes(handlers[k]) < Slashes(h)
      {
        i := i - 1;
      }
      InsertSorted(handlers, i, h);
      assert handlers == handlers[..i] + handlers[i..];
      handlers := handlers[..i] + [h] + handlers[i..];
    }

    /** `middleware`: appended, so the list runs in registration order. */
    method AddMiddleware(m: Traits.Middleware)
      requires Valid()
      modifies this
      ensures Valid()
      ensures middlewares == old(middlewares) + [m]
      ensures handlers == old(handlers)
    {
      middlewares := middlewares + [m];
    }

    /** `build`: both lists are handed over unchanged, so the route table is sorted. */
    function Build(): (app: RunBridge)
      requires Valid()
      reads this
      ensures app.handlers == handlers && app.middlewares == middlewares
      ensures SortedBySlashes(app.handlers)
    {
      RunBridge(handlers, middlewares)
    }
  }

  // ---------------------------------------------------------------------------
  // Lookup

  /** `i` is the first position whose handler matches. */
  ghost predicate FirstMatchAt(hs: seq<Traits.Handler>, path: string, m: Http.Method, i: nat)
  {
    i < |hs| && hs[i].matches(path, m) && forall k | 0 <= k < i :: !hs[k].matches(path, m)
  }

  /** The position of the first matching handler, if any. */
  function FirstMatch(hs: seq<Traits.Handler>, path: string, m: Http.Method): (r: Option<nat>)
    ensures r.Some? ==> FirstMatchAt(hs, path, m, r.value)
    ensures r.None? ==> forall k | 0 <= k < |hs| :: !hs[k].matches(path, m)
  {
    if hs == [] then None
    else if hs[0].matches(path, m) then Some(0)
    else
      match FirstMatch(hs[1..], path, m)
      case None => None
      case Some(i) => Some(i + 1)
  }

  /** `find_handler`: the first handler in stored order that matches, or None when none
      does. */
  function FindHandler(app: RunBridge, path: string, m: Http.Method): (r: Option<Traits.Handler>)
    ensures r.None? <==> forall k | 0 <= k < |app.handlers| :: !app.handlers[k].matches(path, m)
    ensures r.Some? ==> exists i: nat :: FirstMatchAt(app.handlers, path, m, i) && r.value == app.handlers[i]
  {
    match FirstMatch(app.handlers, path, m)
    case None => None
    case Some(i) => Some(app.handlers[i])
  }

  /** In a sorted table the handler found has at least as many '/' as any other handler that
      matches: the most specific route wins. */
  lemma MostSpecificFound(app: RunBridge, path: string, m: Http.Method, j: nat)
    requires SortedBySlashes(app.handlers)
    requires j < |app.handlers| && app.handlers[j].matches(path, m)
    ensures FindHandler(app, path, m).Some?
    ensures Slashes(FindHandler(app, path, m).value) >= Slashes(app.handlers[j])
  {
    var i := FirstMatch(app.handlers, path, m).value;
    assert i <= j;
  }
}
