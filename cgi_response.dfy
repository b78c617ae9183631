/** `write_response_to` (src/cgi/response.rs): framing a response as CGI output.

    The writer is a byte sequence that only grows. The response's header map is read in the
    order `order`, which stands for the unspecified `HashMap` iteration order and enumerates
    every key exactly once. Headers named Status or Content-Length (any case) are dropped. If
    any other header has an invalid name or value, the response is replaced by a fixed 400 and
    no user header is written. The output is then:
    - the status line;
    - the headers that are not Set-Cookie;
    - one Set-Cookie line per cookie, after splitting comma-joined values;
    - Content-Length when there is a body;
    - a blank line;
    - the body. */
module CgiResponse {
  import opened Wrappers
  import opened Text
  import opened Validation
  import CookieSplit
  import Http

  type Header = (string, string)

  // ---------------------------------------------------------------------------
  // Status line

  /** The reason phrase the CGI writer puts on the status line. */
  function CgiReason(status: u16): (r: string)
    ensures r == "Unknown" <==> status !in {200, 201, 204, 400, 401, 403, 404, 413, 500}
  {
    match status
    case 200 => "OK"
    case 201 => "Created"
    case 204 => "No Content"
    case 400 => "Bad Request"
    case 401 => "Unauthorized"
    case 403 => "Forbidden"
    case 404 => "Not Found"
    case 413 => "Payload Too Large"
    case 500 => "Internal Server Error"
    case _ => "Unknown"
  }

  /** For the codes both tables list, the CGI phrase is the `StatusCode` reason phrase. */
  lemma CgiReasonAgrees(s: Http.StatusCode)
    requires Http.AsU16(s) in {200, 201, 204, 400, 401, 403, 404, 500}
    ensures CgiReason(Http.AsU16(s)) == Http.ReasonPhrase(s)
  {
  }

  function StatusLine(status: u16): string
  {
    "Status: " + NatToString(status) + " " + CgiReason(status) + "\r\n"
  }

  // ---------------------------------------------------------------------------
  // Header selection

  /** Headers the framework writes itself; user values for them are ignored. */
  predicate Reserved(name: string)
  {
    EqIgnoreAsciiCase(name, "Status") || EqIgnoreAsciiCase(name, "Content-Length")
  }

  predicate IsSetCookie(name: string)
  {
    EqIgnoreAsciiCase(name, "Set-Cookie")
  }

  predicate KeysIn(order: seq<string>, headers: map<string, string>)
  {
    forall i | 0 <= i < |order| :: order[i] in headers
  }

  /** `order` lists every key of the map exactly once. */
  predicate Enumerates(order: seq<string>, headers: map<string, string>)
  {
    && KeysIn(order, headers)
    && (forall k | k in headers :: k in order)
    && (forall i, j | 0 <= i < j < |order| :: order[i] != order[j])
  }

  /** The header pairs in iteration order. */
  function Pairs(headers: map<string, string>, order: seq<string>): (r: seq<Header>)
    requires KeysIn(order, headers)
    ensures |r| == |order|
    ensures forall i | 0 <= i < |order| :: r[i] == (order[i], headers[order[i]])
  {
    seq(|order|, i requires 0 <= i < |order| => (order[i], headers[order[i]]))
  }

  function Keep(h: Header): seq<Header>
  {
    if Reserved(h.0) then [] else [h]
  }

  /** The pairs that are not reserved, in order. */
  function Kept(pairs: seq<Header>): seq<Header>
  {
    FlatMap(pairs, Keep)
  }

  /** Every pair that is not reserved has a valid name and a valid value. */
  predicate AllValid(pairs: seq<Header>)
  {
    forall i | 0 <= i < |pairs| :: !Reserved(pairs[i].0) ==> IsValidHeaderName(pairs[i].0) && IsValidHeaderValue(pairs[i].1)
  }

  const BAD_REQUEST_TYPE := "text/plain; charset=utf-8"
  /** The bytes b"Bad Request: Invalid header". */
  const BAD_REQUEST_BODY: seq<byte> :=
    [0x42, 0x61, 0x64, 0x20, 0x52, 0x65, 0x71, 0x75, 0x65, 0x73, 0x74, 0x3A, 0x20, 0x49, 0x6E, 0x76, 0x61, 0x6C, 0x69, 0x64, 0x20, 0x68, 0x65, 0x61, 0x64, 0x65, 0x72]

  /** The response that replaces one with an invalid header. */
  const BAD_REQUEST: Http.Response :=
    Http.WithBody(Http.WithHeader(Http.NewResponse(400), "Content-Type", BAD_REQUEST_TYPE), BAD_REQUEST_BODY)

  /** The response whose status and body are written. */
  function Effective(r: Http.Response, order: seq<string>): Http.Response
    requires KeysIn(order, r.headers)
  {
    if AllValid(Pairs(r.headers, order)) then r else BAD_REQUEST
  }

  /** The user headers that are written, in order. */
  function Sanitized(r: Http.Response, order: seq<string>): seq<Header>
    requires KeysIn(order, r.headers)
  {
    if AllValid(Pairs(r.headers, order)) then Kept(Pairs(r.headers, order)) else []
  }

  // ---------------------------------------------------------------------------
  // Set-Cookie values

  /** The cookies one Set-Cookie value stands for: its parts as the corrected splitter cuts
      them, or the value itself when the split finds none. There is always at least one, and
      none holds a character the value does not. */
  function CookieParts(value: string): (r: seq<string>)
    ensures r != []
    ensures CookieSplit.PartsFrom(r, value)
  {
    var parts := CookieSplit.SplitSetCookie(value);
    if parts == [] then [value] else parts
  }

  function NormalOf(h: Header): seq<Header>
  {
    if IsSetCookie(h.0) then [] else [h]
  }

  function CookiesOf(h: Header): seq<string>
  {
    if IsSetCookie(h.0) then CookieParts(h.1) else []
  }

  function Normal(hs: seq<Header>): seq<Header>
  {
    FlatMap(hs, NormalOf)
  }

  function CookieValues(hs: seq<Header>): seq<string>
  {
    FlatMap(hs, CookiesOf)
  }

  // ---------------------------------------------------------------------------
  // The output

  function HeaderLine(h: Header): seq<byte>
  {
    Utf8(h.0 + ": " + h.1 + "\r\n")
  }

  function SetCookieHeader(c: string): Header
  {
    ("Set-Cookie", c)
  }

  function CookieLine(c: string): seq<byte>
  {
    HeaderLine(SetCookieHeader(c))
  }

  function ContentLength(body: Option<seq<byte>>): seq<Header>
  {
    if body.Some? then [("Content-Length", NatToString(|body.value|))] else []
  }

  const CRLF: seq<byte> := [0x0D, 0x0A]

  /** The Content-Length line, present exactly when there is a body. */
  function ContentLengthLine(body: Option<seq<byte>>): seq<byte>
  {
    if body.Some? then HeaderLine(("Content-Length", NatToString(|body.value|))) else []
  }

  /** The sections of the output in the order they are written. */
  function Assemble(status: u16, normal: seq<Header>, cookies: seq<string>, body: Option<seq<byte>>): seq<byte>
  {
    Utf8(StatusLine(status))
    + FlatMap(normal, HeaderLine)
    + FlatMap(cookies, CookieLine)
    + ContentLengthLine(body)
    + CRLF
    + body.GetOr([])
  }

  /** Everything `write_response_to` writes for `r`, section by section: it opens with the
      status line of the response actually sent and closes with its body. */
  function ResponseBytes(r: Http.Response, order: seq<string>): (b: seq<byte>)
    requires KeysIn(order, r.headers)
    ensures var head := Utf8(StatusLine(Effective(r, order).status));
            |head| <= |b| && b[..|head|] == head
    ensures var body := Effective(r, order).body.GetOr([]);
            |body| <= |b| && b[|b| - |body|..] == body
  {
    var eff := Effective(r, order);
    var hs := Sanitized(r, order);
    AssembleFramed(eff.status, Normal(hs), CookieValues(hs), eff.body);
    Assemble(eff.status, Normal(hs), CookieValues(hs), eff.body)
  }

  /** The output opens with the status line and closes with the body. */
  lemma AssembleFramed(status: u16, normal: seq<Header>, cookies: seq<string>, body: Option<seq<byte>>)
    ensures var b := Assemble(status, normal, cookies, body);
            var head := Utf8(StatusLine(status));
            var tail := body.GetOr([]);
            && |head| + |tail| <= |b| && b[..|head|] == head && b[|b| - |tail|..] == tail
  {
    var head := Utf8(StatusLine(status));
    var mid := FlatMap(normal, HeaderLine) + FlatMap(cookies, CookieLine) + ContentLengthLine(body) + CRLF;
    var tail := body.GetOr([]);
    assert Assemble(status, normal, cookies, body) == head + mid + tail;
    Framed(head, mid, tail);
  }

  lemma Framed(head: seq<byte>, mid: seq<byte>, tail: seq<byte>)
    ensures var b := head + mid + tail;
            |head| + |tail| <= |b| && b[..|head|] == head && b[|b| - |tail|..] == tail
  {
    var b := head + mid + tail;
    assert b[..|head|] == head;
    assert b[|b| - |tail|..] == tail;
  }

  /** The header lines of the output, as (name, value) pairs. */
  function HeaderLines(r: Http.Response, order: seq<string>): seq<Header>
    requires KeysIn(order, r.headers)
  {
    var hs := Sanitized(r, order);
    LineHeaders(Normal(hs), CookieValues(hs), Effective(r, order).body)
  }

  /** A sink that only ever grows: the `Write` the response goes to. */
  class Writer {
    var written: seq<byte>

    constructor()
      ensures written == []
    {
      written := [];
    }

    /** `write_all`. */
    method WriteAll(bytes: seq<byte>)
      modifies this
      ensures written == old(written) + bytes
    {
      written := written + bytes;
    }
  }

  /** The first loop: the pairs checked so far, as kept and as validated. */
  lemma SanitizeStep(pairs: seq<Header>, i: nat)
    requires i < |pairs|
    ensures Kept(pairs[..i + 1]) == Kept(pairs[..i]) + Keep(pairs[i])
    ensures AllValid(pairs[..i + 1]) <==> AllValid(pairs[..i]) && (!Reserved(pairs[i].0) ==> IsValidHeaderName(pairs[i].0) && IsValidHeaderValue(pairs[i].1))
  {
    FlatMapStep(pairs, Keep, i);
    AllValidStep(pairs[..i + 1]);
    assert pairs[..i + 1][..i] == pairs[..i];
  }

  lemma AllValidStep(pairs: seq<Header>)
    requires pairs != []
    ensures AllValid(pairs) <==> AllValid(pairs[..|pairs| - 1])
                                 && (var h := pairs[|pairs| - 1];
                                     !Reserved(h.0) ==> IsValidHeaderName(h.0) && IsValidHeaderValue(h.1))
  {
    var n := |pairs| - 1;
    assert forall j | 0 <= j < n :: pairs[..n][j] == pairs[j];
  }

  lemma NotAllValid(pairs: seq<Header>, i: nat)
    requires i < |pairs| && !Reserved(pairs[i].0)
    requires !IsValidHeaderName(pairs[i].0) || !IsValidHeaderValue(pairs[i].1)
    ensures !AllValid(pairs)
  {
  }


  /** The first loop of `write_response_to`: drop the reserved headers and check the others;
      at the first invalid one, switch to the fixed 400 and forget the headers kept so far. */
  method SanitizeHeaders(response: Http.Response, order: seq<string>) returns (resp: Http.Response, sanitized: seq<Header>)
    requires Enumerates(order, response.headers)
    ensures resp == Effective(response, order) && sanitized == Sanitized(response, order)
  {
    ghost var pairs := Pairs(response.headers, order);
    resp := response;
    sanitized := [];
    var i := 0;
    while i < |order|
      invariant 0 <= i <= |order|
      invariant resp == response && sanitized == Kept(pairs[..i]) && AllValid(pairs[..i])
    {
      var name := order[i];
      var value := response.headers[name];
      SanitizeStep(pairs, i);
      if Reserved(name) {
        i := i + 1;
        continue;
      }
      if !IsValidHeaderName(name) || !IsValidHeaderValue(value) {
        NotAllValid(pairs, i);
        resp := BAD_REQUEST;
        sanitized := [];
        return;
      }
      sanitized := sanitized + [(name, value)];
      i := i + 1;
    }
    assert pairs[..i] == pairs;
  }

  /** The second loop: Set-Cookie values, split into cookies, apart from the other headers. */
  method PartitionHeaders(sanitized: seq<Header>) returns (normal: seq<Header>, cookies: seq<string>)
    ensures normal == Normal(sanitized) && cookies == CookieValues(sanitized)
  {
    normal := [];
    cookies := [];
    var j := 0;
    while j < |sanitized|
      invariant 0 <= j <= |sanitized|
      invariant normal == Normal(sanitized[..j]) && cookies == CookieValues(sanitized[..j])
    {
      var name, value := sanitized[j].0, sanitized[j].1;
      FlatMapStep(sanitized, NormalOf, j);
      FlatMapStep(sanitized, CookiesOf, j);
      if IsSetCookie(name) {
        var parts := CookieSplit.SplitSetCookieHeader(value);
        if parts == [] {
          cookies := cookies + [value];
        } else {
          cookies := cookies + parts;
        }
      } else {
        normal := normal + [(name, value)];
      }
      j := j + 1;
    }
    assert sanitized[..j] == sanitized;
  }

  /** The loop writing "name: value" lines. */
  method WriteHeaderLines(out: Writer, headers: seq<Header>)
    modifies out
    ensures out.written == old(out.written) + FlatMap(headers, HeaderLine)
  {
    var k := 0;
    while k < |headers|
      invariant 0 <= k <= |headers|
      invariant out.written == old(out.written) + FlatMap(headers[..k], HeaderLine)
    {
      FlatMapStep(headers, HeaderLine, k);
      var line := HeaderLine(headers[k]);
      assert old(out.written) + FlatMap(headers[..k + 1], HeaderLine) == out.written + line;
      out.WriteAll(line);
      k := k + 1;
    }
    assert headers[..k] == headers;
  }

  /** The loop writing "Set-Cookie: cookie" lines. */
  method WriteCookieLines(out: Writer, cookies: seq<string>)
    modifies out
    ensures out.written == old(out.written) + FlatMap(cookies, CookieLine)
  {
    var k := 0;
    while k < |cookies|
      invariant 0 <= k <= |cookies|
      invariant out.written == old(out.written) + FlatMap(cookies[..k], CookieLine)
    {
      FlatMapStep(cookies, CookieLine, k);
      var line := CookieLine(cookies[k]);
      assert old(out.written) + FlatMap(cookies[..k + 1], CookieLine) == out.written + line;
      out.WriteAll(line);
      k := k + 1;
    }
    assert cookies[..k] == cookies;
  }

  lemma AppendSections(w: seq<byte>, a: seq<byte>, b: seq<byte>, c: seq<byte>, d: seq<byte>, e: seq<byte>, f: seq<byte>)
    ensures w + a + b + c + (d + e + f) == w + (a + b + c + d + e + f)
  {
  }

  /** The Content-Length line when there is a body, the blank line, and the body. */
  method WriteTail(out: Writer, body: Option<seq<byte>>)
    modifies out
    ensures out.written == old(out.written) + (ContentLengthLine(body) + CRLF + body.GetOr([]))
  {
    if body.Some? {
      out.WriteAll(HeaderLine(("Content-Length", NatToString(|body.value|))));
    }
    out.WriteAll(CRLF);
    if body.Some? {
      out.WriteAll(body.value);
    }
  }

  /** `write_response_to` on a writer that cannot fail. */
  method WriteResponseTo(response: Http.Response, order: seq<string>, out: Writer)
    requires Enumerates(order, response.headers)
    modifies out
    ensures out.written == old(out.written) + ResponseBytes(response, order)
  {
    var resp, sanitized := SanitizeHeaders(response, order);
    ghost var start := out.written;
    out.WriteAll(Utf8(StatusLine(resp.status)));
    var normal, cookies := PartitionHeaders(sanitized);
    WriteHeaderLines(out, normal);
    WriteCookieLines(out, cookies);
    WriteTail(out, resp.body);
    AppendSections(start, Utf8(StatusLine(resp.status)), FlatMap(normal, HeaderLine), FlatMap(cookies, CookieLine),
                   ContentLengthLine(resp.body), CRLF, resp.body.GetOr([]));
  }

  // ---------------------------------------------------------------------------
  // What the output contains

  lemma KeptMember(pairs: seq<Header>, h: Header)
    ensures h in Kept(pairs) <==> h in pairs && !Reserved(h.0)
  {
    FlatMapMember(pairs, Keep, h);
    if h in pairs && !Reserved(h.0) {
      var i :| 0 <= i < |pairs| && pairs[i] == h;
      assert h in Keep(pairs[i]);
    }
  }

  lemma NormalMember(hs: seq<Header>, h: Header)
    ensures h in Normal(hs) <==> h in hs && !IsSetCookie(h.0)
  {
    FlatMapMember(hs, NormalOf, h);
    if h in hs && !IsSetCookie(h.0) {
      var i :| 0 <= i < |hs| && hs[i] == h;
      assert h in NormalOf(hs[i]);
    }
  }

  lemma CookieMember(hs: seq<Header>, c: string)
    ensures c in CookieValues(hs) <==> exists i | 0 <= i < |hs| :: IsSetCookie(hs[i].0) && c in CookieParts(hs[i].1)
  {
    FlatMapMember(hs, CookiesOf, c);
  }

  lemma PairsMember(r: Http.Response, order: seq<string>, h: Header)
    requires Enumerates(order, r.headers)
    ensures h in Pairs(r.headers, order) <==> h.0 in r.headers && h.1 == r.headers[h.0]
  {
    if h.0 in r.headers && h.1 == r.headers[h.0] {
      var i :| 0 <= i < |order| && order[i] == h.0;
      assert Pairs(r.headers, order)[i] == h;
    }
  }

  /** A Set-Cookie header is never one of the reserved ones. */
  lemma SetCookieNotReserved(name: string)
    requires IsSetCookie(name)
    ensures !Reserved(name)
  {
    assert |Lower(name)| == |Lower("Set-Cookie")| == 10;
    assert |Lower("Status")| == 6 && |Lower("Content-Length")| == 14;
  }

  /** With every header valid, the response is written as it is, and exactly the headers that are
      neither reserved nor Set-Cookie are written as ordinary header lines, each with its own
      value. */
  lemma ValidHeadersWritten(r: Http.Response, order: seq<string>, name: string, value: string)
    requires Enumerates(order, r.headers) && AllValid(Pairs(r.headers, order))
    ensures Effective(r, order) == r
    ensures (name, value) in Normal(Sanitized(r, order))
            <==> name in r.headers && r.headers[name] == value && !Reserved(name) && !IsSetCookie(name)
  {
    var pairs := Pairs(r.headers, order);
    NormalMember(Kept(pairs), (name, value));
    KeptMember(pairs, (name, value));
    PairsMember(r, order, (name, value));
  }

  /** With every header valid, the cookie lines are exactly the cookies of the Set-Cookie
      headers, each value split by the corrected splitter. */
  lemma ValidCookiesWritten(r: Http.Response, order: seq<string>, c: string)
    requires Enumerates(order, r.headers) && AllValid(Pairs(r.headers, order))
    ensures c in CookieValues(Sanitized(r, order))
            <==> exists name | name in r.headers :: IsSetCookie(name) && c in CookieParts(r.headers[name])
  {
    var pairs := Pairs(r.headers, order);
    var hs := Kept(pairs);
    CookieMember(hs, c);
    if c in CookieValues(hs) {
      var i :| 0 <= i < |hs| && IsSetCookie(hs[i].0) && c in CookieParts(hs[i].1);
      KeptMember(pairs, hs[i]);
      PairsMember(r, order, hs[i]);
    }
    if exists name | name in r.headers :: IsSetCookie(name) && c in CookieParts(r.headers[name]) {
      var name :| name in r.headers && IsSetCookie(name) && c in CookieParts(r.headers[name]);
      var h := (name, r.headers[name]);
      SetCookieNotReserved(name);
      PairsMember(r, order, h);
      KeptMember(pairs, h);
      var i :| 0 <= i < |hs| && hs[i] == h;
    }
  }

  /** Several cookies joined with ", " into one Set-Cookie value come out as one line each. */
  lemma JoinedCookiesWritten(ps: seq<string>)
    requires |ps| >= 1
    requires forall i | 0 <= i < |ps| :: CookieSplit.CookiePart(ps[i], true)
    ensures CookieParts(Join(ps, ", ")) == ps
  {
    CookieSplit.SplitJoinedCookies(ps);
  }

  /** The 400's status line carries "400 Bad Request". */
  lemma BadRequestStatusLine()
    ensures StatusLine(400) == "Status: " + "400" + " " + "Bad Request" + "\r\n"
  {
    assert NatToString(400) == "400" by {
      assert NatToString(4) == "4";
      assert NatToString(40) == NatToString(4) + "0";
    }
  }

  lemma BadRequestShape()
    ensures BAD_REQUEST.status == 400 && BAD_REQUEST.body == Some(BAD_REQUEST_BODY)
    ensures ContentLength(BAD_REQUEST.body) == [("Content-Length", "27")]
    ensures ContentLengthLine(BAD_REQUEST.body) == HeaderLine(("Content-Length", "27"))
  {
    assert |BAD_REQUEST_BODY| == 27;
    assert NatToString(2) == [DigitChar(2)] == "2";
    assert NatToString(27) == NatToString(2) + [DigitChar(7)] == "27";
  }

  lemma InvalidHeaderSelects(r: Http.Response, order: seq<string>, k: nat)
    requires KeysIn(order, r.headers) && k < |order| && !Reserved(order[k])
    requires !IsValidHeaderName(order[k]) || !IsValidHeaderValue(r.headers[order[k]])
    ensures Effective(r, order) == BAD_REQUEST && Sanitized(r, order) == []
  {
    NotAllValid(Pairs(r.headers, order), k);
  }

  lemma NoUserHeaders(status: u16, body: Option<seq<byte>>)
    ensures Normal([]) == [] && CookieValues([]) == []
    ensures Assemble(status, [], [], body) == Utf8(StatusLine(status)) + ContentLengthLine(body) + CRLF + body.GetOr([])
  {
    var empty: seq<Header> := [];
    assert Normal(empty) == [] && CookieValues(empty) == [];
  }

  /** One invalid header that is not reserved, wherever it is, replaces the whole output by the
      400: no user header is written, not even the Content-Type the 400 itself carries, only its
      Content-Length of 27 and the body "Bad Request: Invalid header". */
  lemma InvalidHeaderWritesBadRequest(r: Http.Response, order: seq<string>, k: nat)
    requires KeysIn(order, r.headers) && k < |order| && !Reserved(order[k])
    requires !IsValidHeaderName(order[k]) || !IsValidHeaderValue(r.headers[order[k]])
    ensures Sanitized(r, order) == []
    ensures HeaderLines(r, order) == [("Content-Length", "27")]
    ensures ResponseBytes(r, order) == Utf8(StatusLine(400)) + HeaderLine(("Content-Length", "27")) + CRLF + BAD_REQUEST_BODY
  {
    InvalidHeaderSelects(r, order, k);
    BadRequestShape();
    NoUserHeaders(BAD_REQUEST.status, BAD_REQUEST.body);
  }

  // ---------------------------------------------------------------------------
  // The output as header lines

  lemma {:induction false} CookieLinesAsHeaders(cs: seq<string>)
    ensures FlatMap(seq(|cs|, i requires 0 <= i < |cs| => SetCookieHeader(cs[i])), HeaderLine) == FlatMap(cs, CookieLine)
    decreases |cs|
  {
    var hs := seq(|cs|, i requires 0 <= i < |cs| => SetCookieHeader(cs[i]));
    if cs != [] {
      var n := |cs| - 1;
      var init := seq(n, i requires 0 <= i < n => SetCookieHeader(cs[..n][i]));
      assert hs[..n] == init;
      CookieLinesAsHeaders(cs[..n]);
    }
  }

  lemma ContentLengthAsHeaders(body: Option<seq<byte>>)
    ensures FlatMap(ContentLength(body), HeaderLine) == ContentLengthLine(body)
  {
    if body.Some? {
      FlatMapSingle(("Content-Length", NatToString(|body.value|)), HeaderLine);
    }
  }

  function LineHeaders(normal: seq<Header>, cs: seq<string>, body: Option<seq<byte>>): seq<Header>
  {
    normal + seq(|cs|, i requires 0 <= i < |cs| => SetCookieHeader(cs[i])) + ContentLength(body)
  }

  lemma LineHeadersBytes(normal: seq<Header>, cs: seq<string>, body: Option<seq<byte>>)
    ensures FlatMap(LineHeaders(normal, cs, body), HeaderLine)
            == FlatMap(normal, HeaderLine) + FlatMap(cs, CookieLine) + ContentLengthLine(body)
  {
    var cookies := seq(|cs|, i requires 0 <= i < |cs| => SetCookieHeader(cs[i]));
    FlatMapConcat(normal, cookies, HeaderLine);
    FlatMapConcat(normal + cookies, ContentLength(body), HeaderLine);
    CookieLinesAsHeaders(cs);
    ContentLengthAsHeaders(body);
  }

  lemma RegroupSections(a: seq<byte>, n: seq<byte>, c: seq<byte>, l: seq<byte>, e: seq<byte>, b: seq<byte>)
    ensures a + n + c + l + e + b == a + (n + c + l) + e + b
  {
  }

  lemma AssembleLines(status: u16, normal: seq<Header>, cs: seq<string>, body: Option<seq<byte>>)
    ensures Assemble(status, normal, cs, body)
            == Utf8(StatusLine(status)) + FlatMap(LineHeaders(normal, cs, body), HeaderLine) + CRLF + body.GetOr([])
  {
    LineHeadersBytes(normal, cs, body);
    RegroupSections(Utf8(StatusLine(status)), FlatMap(normal, HeaderLine), FlatMap(cs, CookieLine), ContentLengthLine(body),
                    CRLF, body.GetOr([]));
  }

  /** The output is the status line, one "name: value" line per entry of `HeaderLines`, in
      order, the blank line and the body of the response that is written. */
  lemma ResponseIsHeaderLines(r: Http.Response, order: seq<string>)
    requires KeysIn(order, r.headers)
    ensures var eff := Effective(r, order);
            ResponseBytes(r, order) == Utf8(StatusLine(eff.status)) + FlatMap(HeaderLines(r, order), HeaderLine) + CRLF + eff.body.GetOr([])
  {
    var eff := Effective(r, order);
    var hs := Sanitized(r, order);
    AssembleLines(eff.status, Normal(hs), CookieValues(hs), eff.body);
  }

  /** Every written user header is a valid, unreserved entry of the response's map. */
  lemma SanitizedEntry(r: Http.Response, order: seq<string>, h: Header)
    requires Enumerates(order, r.headers) && h in Sanitized(r, order)
    ensures h.0 in r.headers && r.headers[h.0] == h.1 && !Reserved(h.0)
    ensures IsValidHeaderName(h.0) && IsValidHeaderValue(h.1)
  {
    var pairs := Pairs(r.headers, order);
    KeptMember(pairs, h);
    PairsMember(r, order, h);
    var i :| 0 <= i < |pairs| && pairs[i] == h;
  }

  /** A cookie cut out of a valid value is valid: it consists of the value's characters. */
  lemma CookiePartsValid(value: string, c: string)
    requires IsValidHeaderValue(value) && c in CookieParts(value)
    ensures IsValidHeaderValue(c)
  {
    var parts := CookieSplit.SplitSetCookie(value);
    if parts != [] {
      var j :| 0 <= j < |parts| && parts[j] == c;
      assert CookieSplit.CharsFrom(parts[j], value);
      forall i | 0 <= i < |c| ensures ValueChar(c[i]) {
        var m :| 0 <= m < |value| && value[m] == c[i];
      }
    }
  }

  lemma FixedNamesValid()
    ensures IsValidHeaderName("Set-Cookie") && IsValidHeaderName("Content-Length")
  {
    assert forall i | 0 <= i < 10 :: NameChar("Set-Cookie"[i]);
    assert forall i | 0 <= i < 14 :: NameChar("Content-Length"[i]);
  }

  lemma NumberValid(n: nat)
    ensures IsValidHeaderValue(NatToString(n))
  {
  }

  lemma CookieLineValid(r: Http.Response, order: seq<string>, c: string)
    requires Enumerates(order, r.headers) && c in CookieValues(Sanitized(r, order))
    ensures IsValidHeaderValue(c)
  {
    var hs := Sanitized(r, order);
    CookieMember(hs, c);
    var m :| 0 <= m < |hs| && IsSetCookie(hs[m].0) && c in CookieParts(hs[m].1);
    SanitizedEntry(r, order, hs[m]);
    CookiePartsValid(hs[m].1, c);
  }

  predicate HeadersValid(hs: seq<Header>)
  {
    forall i | 0 <= i < |hs| :: IsValidHeaderName(hs[i].0) && IsValidHeaderValue(hs[i].1)
  }

  lemma HeadersValidConcat(a: seq<Header>, b: seq<Header>)
    requires HeadersValid(a) && HeadersValid(b)
    ensures HeadersValid(a + b)
  {
    forall i | 0 <= i < |a + b| ensures IsValidHeaderName((a + b)[i].0) && IsValidHeaderValue((a + b)[i].1) {
      if i >= |a| { assert (a + b)[i] == b[i - |a|]; }
    }
  }

  lemma CookieHeadersValid(cs: seq<string>)
    requires forall i | 0 <= i < |cs| :: IsValidHeaderValue(cs[i])
    ensures HeadersValid(seq(|cs|, i requires 0 <= i < |cs| => SetCookieHeader(cs[i])))
  {
    FixedNamesValid();
  }

  lemma ContentLengthValid(body: Option<seq<byte>>)
    ensures HeadersValid(ContentLength(body))
  {
    if body.Some? {
      var value := NatToString(|body.value|);
      FixedNamesValid();
      NumberValid(|body.value|);
      OneHeaderValid("Content-Length", value);
    }
  }

  lemma OneHeaderValid(name: string, value: string)
    requires IsValidHeaderName(name) && IsValidHeaderValue(value)
    ensures HeadersValid([(name, value)])
  {
  }

  lemma LineHeadersValid(normal: seq<Header>, cs: seq<string>, body: Option<seq<byte>>)
    requires HeadersValid(normal)
    requires forall i | 0 <= i < |cs| :: IsValidHeaderValue(cs[i])
    ensures HeadersValid(LineHeaders(normal, cs, body))
  {
    var cookies := seq(|cs|, i requires 0 <= i < |cs| => SetCookieHeader(cs[i]));
    CookieHeadersValid(cs);
    ContentLengthValid(body);
    HeadersValidConcat(normal, cookies);
    HeadersValidConcat(normal + cookies, ContentLength(body));
  }

  /** Every header line written has a valid name and a valid value, so no user input can add a
      line break to the output's header section. */
  lemma LinesValid(r: Http.Response, order: seq<string>)
    requires Enumerates(order, r.headers)
    ensures HeadersValid(HeaderLines(r, order))
  {
    var hs := Sanitized(r, order);
    var normal := Normal(hs);
    var cs := CookieValues(hs);
    forall i | 0 <= i < |normal| ensures IsValidHeaderName(normal[i].0) && IsValidHeaderValue(normal[i].1) {
      NormalMember(hs, normal[i]);
      SanitizedEntry(r, order, normal[i]);
    }
    forall i | 0 <= i < |cs| ensures IsValidHeaderValue(cs[i]) {
      CookieLineValid(r, order, cs[i]);
    }
    LineHeadersValid(normal, cs, Effective(r, order).body);
  }

  /** The only line with a reserved name is the framework's own Content-Length, the last line,
      and it is there exactly when the response written has a body, whose length it gives. */
  lemma ReservedOnlyContentLength(r: Http.Response, order: seq<string>)
    requires Enumerates(order, r.headers)
    ensures var lines := HeaderLines(r, order);
            forall i | 0 <= i < |lines| :: Reserved(lines[i].0) <==> Effective(r, order).body.Some? && i == |lines| - 1
    ensures var lines := HeaderLines(r, order);
            Effective(r, order).body.Some? ==>
              |lines| > 0 && lines[|lines| - 1] == ("Content-Length", NatToString(|Effective(r, order).body.value|))
  {
    var hs := Sanitized(r, order);
    var normal := Normal(hs);
    var cs := CookieValues(hs);
    var lines := HeaderLines(r, order);
    SetCookieNotReserved("Set-Cookie");
    forall i | 0 <= i < |lines| ensures Reserved(lines[i].0) <==> Effective(r, order).body.Some? && i == |lines| - 1 {
      if i < |normal| {
        NormalMember(hs, lines[i]);
        SanitizedEntry(r, order, lines[i]);
      } else if i < |normal| + |cs| {
        assert lines[i] == ("Set-Cookie", cs[i - |normal|]);
      }
    }
  }
}
