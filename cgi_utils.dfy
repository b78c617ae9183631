/** The CGI helpers of src/common/cgi.rs: cookies and lower-cased headers read from the
    environment, and `Set-Cookie` written into a response. The environment is a parameter. */
module CgiUtils {
  import opened Wrappers
  import opened Text
  import opened Env
  import Http
  import Cookies

  // ---------------------------------------------------------------------------
  // extract_cookies

  /** One ';'-separated piece of the Cookie header: trimmed and split at its first '=', or
      nothing when it has no '='. */
  function CookiePair(piece: string): (r: seq<(string, string)>)
    ensures |r| <= 1
    ensures |r| == 1 <==> '=' in Trim(piece)
    ensures |r| == 1 ==> '=' !in r[0].0 && Trim(piece) == r[0].0 + "=" + r[0].1
  {
    match SplitOnce(Trim(piece), '=')
    case (_, None) => []
    case (name, Some(value)) => [(name, value)]
  }

  /** The pieces of a Cookie header. */
  function CookiePieces(header: string): seq<string>
  {
    Split(header, ';')
  }

  /** The cookies `extract_cookies` finds: none without `HTTP_COOKIE`, otherwise every piece
      with a '=', a later one overriding an earlier one of the same name. */
  function CookieMap(env: Environment): map<string, string>
  {
    match Var(env, "HTTP_COOKIE")
    case None => map[]
    case Some(header) => FromPairs(FlatMap(CookiePieces(header), CookiePair))
  }

  /** `extract_cookies`. */
  method ExtractCookies(env: Environment) returns (cookies: map<string, string>)
    ensures cookies == CookieMap(env)
  {
    cookies := map[];
    var cookieHeader := Var(env, "HTTP_COOKIE");
    if cookieHeader.None? {
      return;
    }
    var pieces := CookiePieces(cookieHeader.value);
    var i := 0;
    while i < |pieces|
      invariant 0 <= i <= |pieces|
      invariant cookies == FromPairs(FlatMap(pieces[..i], CookiePair))
    {
      FromFlatMapStep(pieces, CookiePair, i);
      var parts := SplitOnce(Trim(pieces[i]), '=');
      if parts.1.Some? {
        cookies := cookies[parts.0 := parts.1.value];
      }
      i := i + 1;
    }
    assert pieces[..i] == pieces;
  }

  /** Without a Cookie header there are no cookies. */
  lemma NoCookieHeader(env: Environment)
    requires Var(env, "HTTP_COOKIE").None?
    ensures CookieMap(env) == map[]
  {
  }

  /** The trimmed piece starts with the name and a '=', and the name has no '='. */
  predicate NamesCookie(piece: string, name: string)
  {
    '=' !in name && StartsWith(Trim(piece), name + "=")
  }

  /** A piece yields a cookie of a name exactly when it names that cookie. */
  lemma PairHasName(piece: string, name: string)
    ensures (CookiePair(piece) != [] && CookiePair(piece)[0].0 == name) <==> NamesCookie(piece, name)
  {
    if CookiePair(piece) != [] && CookiePair(piece)[0].0 == name {
      PairNames(piece, name);
    }
    if NamesCookie(piece, name) {
      var t := Trim(piece);
      var v := t[|name| + 1..];
      assert t == name + "=" + v;
      PieceCookie(piece, name, v);
    }
  }

  lemma PairNames(piece: string, name: string)
    requires CookiePair(piece) != [] && CookiePair(piece)[0].0 == name
    ensures NamesCookie(piece, name)
  {
    var v := CookiePair(piece)[0].1;
    assert Trim(piece) == name + "=" + v;
    assert (name + "=" + v)[..|name| + 1] == name + "=";
  }

  /** A name is a cookie exactly when some piece of the header, trimmed, starts with that name and
      a '='. */
  lemma CookieNames(env: Environment, header: string, name: string)
    requires Var(env, "HTTP_COOKIE") == Some(header)
    ensures name in CookieMap(env) <==> exists i | 0 <= i < |CookiePieces(header)| :: NamesCookie(CookiePieces(header)[i], name)
  {
    PiecesNames(CookiePieces(header), name);
  }

  lemma PiecesNames(pieces: seq<string>, name: string)
    ensures name in FromPairs(FlatMap(pieces, CookiePair)) <==> exists i | 0 <= i < |pieces| :: NamesCookie(pieces[i], name)
  {
    FromFlatMapSingleKeys(pieces, CookiePair, name);
    forall i | 0 <= i < |pieces|
      ensures (CookiePair(pieces[i]) != [] && CookiePair(pieces[i])[0].0 == name) <==> NamesCookie(pieces[i], name)
    {
      PairHasName(pieces[i], name);
    }
  }

  /** A trimmed piece "name=value" with no '=' in the name yields exactly that cookie. */
  lemma PieceCookie(piece: string, name: string, value: string)
    requires '=' !in name && Trim(piece) == name + "=" + value
    ensures CookiePair(piece) == [(name, value)]
  {
    assert Trim(piece)[|name|] == '=';
    var p := CookiePair(piece)[0];
    SplitAtFirst(name, value, p.0, p.1);
  }

  /** The first '=' of "k=v" is the one after `k` when `k` has none. */
  lemma {:induction false} FirstEquals(k: string, v: string)
    requires '=' !in k
    ensures IndexOf(k + "=" + v, '=') == Some(|k|)
  {
    if k != [] {
      assert (k + "=" + v)[1..] == k[1..] + "=" + v;
      FirstEquals(k[1..], v);
    }
  }

  /** Two splits at a first '=' agree. */
  lemma SplitAtFirst(k1: string, v1: string, k2: string, v2: string)
    requires '=' !in k1 && '=' !in k2 && k1 + "=" + v1 == k2 + "=" + v2
    ensures k1 == k2 && v1 == v2
  {
    var s := k1 + "=" + v1;
    FirstEquals(k1, v1);
    FirstEquals(k2, v2);
    assert k1 == s[..|k1|] && k2 == s[..|k2|];
    assert v1 == s[|k1| + 1..] && v2 == s[|k2| + 1..];
  }

  /** For a repeated cookie name the last piece carrying it gives the value. */
  lemma CookieLastWins(env: Environment, header: string, i: nat, name: string, value: string)
    requires Var(env, "HTTP_COOKIE") == Some(header)
    requires i < |CookiePieces(header)| && '=' !in name && Trim(CookiePieces(header)[i]) == name + "=" + value
    requires forall l | i < l < |CookiePieces(header)| :: CookiePair(CookiePieces(header)[l]) == []
                                                         || CookiePair(CookiePieces(header)[l])[0].0 != name
    ensures name in CookieMap(env) && CookieMap(env)[name] == value
  {
    var pieces := CookiePieces(header);
    PieceCookie(pieces[i], name, value);
    forall l | i < l < |pieces| ensures forall q | q in CookiePair(pieces[l]) :: q.0 != name {
    }
    FromFlatMapLastWins(pieces, CookiePair, name, i);
  }

  // ---------------------------------------------------------------------------
  // extract_headers

  const HTTP_PREFIX := "HTTP_"

  /** The header name of a variable with the `HTTP_` prefix: the rest of its name with '_'
      replaced by '-' and lower-cased. */
  function LowerHeaderName(variable: string): (r: string)
    requires StartsWith(variable, HTTP_PREFIX)
    ensures |r| == |variable| - |HTTP_PREFIX|
    ensures '_' !in r && forall i | 0 <= i < |r| :: !('A' <= r[i] <= 'Z')
  {
    var r := Lower(Replace(variable[|HTTP_PREFIX|..], '_', '-'));
    assert forall i | 0 <= i < |r| :: r[i] != '_';
    r
  }

  /** The pair one variable contributes in the loop: only `HTTP_` variables count. */
  function HttpEntry(kv: (string, string)): (r: seq<(string, string)>)
    ensures |r| <= 1
    ensures |r| == 1 <==> StartsWith(kv.0, HTTP_PREFIX)
  {
    if StartsWith(kv.0, HTTP_PREFIX) then [(LowerHeaderName(kv.0), kv.1)] else []
  }

  /** The map `extract_headers` returns: the `HTTP_` variables in environment order, and then
      `CONTENT_TYPE` and `CONTENT_LENGTH`, when set, as "content-type" and "content-length". */
  function LowerHeaders(env: Environment): map<string, string>
  {
    var fromHttp := FromPairs(FlatMap(env, HttpEntry));
    var withType := match Var(env, "CONTENT_TYPE")
      case None => fromHttp
      case Some(ct) => fromHttp["content-type" := ct];
    match Var(env, "CONTENT_LENGTH")
    case None => withType
    case Some(cl) => withType["content-length" := cl]
  }

  /** `extract_headers`. */
  method ExtractHeaders(env: Environment) returns (headers: map<string, string>)
    ensures headers == LowerHeaders(env)
  {
    headers := map[];
    var i := 0;
    while i < |env|
      invariant 0 <= i <= |env|
      invariant headers == FromPairs(FlatMap(env[..i], HttpEntry))
    {
      FromFlatMapStep(env, HttpEntry, i);
      var (key, value) := env[i];
      if StartsWith(key, HTTP_PREFIX) {
        headers := headers[LowerHeaderName(key) := value];
      }
      i := i + 1;
    }
    assert env[..i] == env;
    var contentType := Var(env, "CONTENT_TYPE");
    if contentType.Some? {
      headers := headers["content-type" := contentType.value];
    }
    var contentLength := Var(env, "CONTENT_LENGTH");
    if contentLength.Some? {
      headers := headers["content-length" := contentLength.value];
    }
  }

  /** `CONTENT_TYPE` and `CONTENT_LENGTH` override whatever an `HTTP_` variable gave for the same
      name. */
  lemma ContentHeadersWin(env: Environment)
    ensures Var(env, "CONTENT_TYPE").Some? ==> LowerHeaders(env)["content-type"] == Var(env, "CONTENT_TYPE").value
    ensures Var(env, "CONTENT_LENGTH").Some? ==> LowerHeaders(env)["content-length"] == Var(env, "CONTENT_LENGTH").value
  {
    assert "content-type" != "content-length";
  }

  /** The names of the result are those of the `HTTP_` variables, and "content-type" and
      "content-length" when their variables are set; every other variable is ignored. */
  lemma LowerHeaderNames(env: Environment, name: string)
    ensures name in LowerHeaders(env) <==>
              || (exists i | 0 <= i < |env| :: StartsWith(env[i].0, HTTP_PREFIX) && LowerHeaderName(env[i].0) == name)
              || (name == "content-type" && Var(env, "CONTENT_TYPE").Some?)
              || (name == "content-length" && Var(env, "CONTENT_LENGTH").Some?)
  {
    HttpNames(env, name);
    LowerHeadersKeys(env, name);
  }

  /** The keys the two later inserts add to those of the `HTTP_` variables. */
  lemma LowerHeadersKeys(env: Environment, name: string)
    ensures name in LowerHeaders(env) <==>
              || name in FromPairs(FlatMap(env, HttpEntry))
              || (name == "content-type" && Var(env, "CONTENT_TYPE").Some?)
              || (name == "content-length" && Var(env, "CONTENT_LENGTH").Some?)
  {
    var fromHttp := FromPairs(FlatMap(env, HttpEntry));
    match Var(env, "CONTENT_TYPE") {
      case None =>
        match Var(env, "CONTENT_LENGTH") {
          case None => assert LowerHeaders(env) == fromHttp;
          case Some(cl) => assert LowerHeaders(env) == fromHttp["content-length" := cl];
        }
      case Some(ct) =>
        match Var(env, "CONTENT_LENGTH") {
          case None => assert LowerHeaders(env) == fromHttp["content-type" := ct];
          case Some(cl) => assert LowerHeaders(env) == fromHttp["content-type" := ct]["content-length" := cl];
        }
    }
  }

  /** The names the loop over the environment produces. */
  lemma HttpNames(env: Environment, name: string)
    ensures name in FromPairs(FlatMap(env, HttpEntry)) <==>
              exists i | 0 <= i < |env| :: StartsWith(env[i].0, HTTP_PREFIX) && LowerHeaderName(env[i].0) == name
  {
    FromFlatMapSingleKeys(env, HttpEntry, name);
  }

  /** For any other name, the last `HTTP_` variable that maps to it gives the value. */
  lemma HttpHeaderLastWins(env: Environment, i: nat)
    requires i < |env| && StartsWith(env[i].0, HTTP_PREFIX)
    requires LowerHeaderName(env[i].0) != "content-type" && LowerHeaderName(env[i].0) != "content-length"
    requires forall l | i < l < |env| :: !StartsWith(env[l].0, HTTP_PREFIX) || LowerHeaderName(env[l].0) != LowerHeaderName(env[i].0)
    ensures LowerHeaderName(env[i].0) in LowerHeaders(env)
    ensures LowerHeaders(env)[LowerHeaderName(env[i].0)] == env[i].1
  {
    var name := LowerHeaderName(env[i].0);
    forall l | i < l < |env| ensures forall p | p in HttpEntry(env[l]) :: p.0 != name {
    }
    FromFlatMapLastWins(env, HttpEntry, name, i);
  }

  // ---------------------------------------------------------------------------
  // set_cookie, set_cookies

  /** `set_cookie`: the cookie's header value under "Set-Cookie", replacing any earlier one. */
  function SetCookie(response: Http.Response, cookie: Cookies.Cookie): (r: Http.Response)
    ensures Http.Inserted(response.headers, r.headers, "Set-Cookie", Cookies.ToHeaderValue(cookie))
    ensures r.status == response.status && r.body == response.body
  {
    Http.WithHeader(response, "Set-Cookie", Cookies.ToHeaderValue(cookie))
  }

  /** A second `set_cookie` replaces the first. */
  lemma SetCookieOverrides(response: Http.Response, first: Cookies.Cookie, second: Cookies.Cookie)
    ensures SetCookie(SetCookie(response, first), second) == SetCookie(response, second)
  {
  }

  /** `set_cookies`: one `set_cookie` per cookie, so only the last cookie is left. */
  method SetCookies(response: Http.Response, cookies: seq<Cookies.Cookie>) returns (r: Http.Response)
    ensures cookies == [] ==> r == response
    ensures cookies != [] ==> r == SetCookie(response, cookies[|cookies| - 1])
  {
    r := response;
    for i := 0 to |cookies|
      invariant i == 0 ==> r == response
      invariant i > 0 ==> r == SetCookie(response, cookies[i - 1])
    {
      if i > 0 {
        SetCookieOverrides(response, cookies[i - 1], cookies[i]);
      }
      r := SetCookie(r, cookies[i]);
    }
  }
}
