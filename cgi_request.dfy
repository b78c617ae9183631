/** Reading a CGI request (src/cgi/request.rs): the request headers rebuilt from the environment
    and the body read from standard input under a size ceiling. Standard input is the byte
    sequence the process would read; the ceiling (`get_max_body_size`) is a parameter. */
module CgiRequest {
  import opened Wrappers
  import opened Text
  import opened Env
  import opened Validation
  import Errors

  /** One '_'-separated part of a variable name as a header-name part: first character
      upper-cased, the rest lower-cased (ASCII only). */
  function TitlePart(part: string): (r: string)
    ensures |r| == |part|
    ensures Lower(r) == Lower(part)
    ensures r != [] ==> !('a' <= r[0] <= 'z')
    ensures forall i | 1 <= i < |r| :: !('A' <= r[i] <= 'Z')
  {
    if part == [] then "" else [UpperChar(part[0])] + Lower(part[1..])
  }

  function TitleParts(parts: seq<string>): (r: seq<string>)
    ensures |r| == |parts|
    ensures forall i | 0 <= i < |parts| :: r[i] == TitlePart(parts[i])
  {
    seq(|parts|, i requires 0 <= i < |parts| => TitlePart(parts[i]))
  }

  /** The header name made from a CGI variable name, or None for a variable that is not a
      header. */
  function HeaderNameOf(key: string): (r: Option<string>)
    ensures r.Some? <==> StartsWith(key, "HTTP_") || key == "CONTENT_TYPE" || key == "CONTENT_LENGTH"
  {
    if StartsWith(key, "HTTP_") then Some(Join(TitleParts(Split(key[5..], '_')), "-"))
    else if key == "CONTENT_TYPE" || key == "CONTENT_LENGTH" then Some(Join(TitleParts(Split(key, '_')), "-"))
    else None
  }

  /** The name of an `HTTP_` variable whose rest is made of the '_'-free parts `ps`: the
      title-cased parts joined by '-'. */
  lemma HttpVariableName(ps: seq<string>)
    requires |ps| >= 1 && forall k | 0 <= k < |ps| :: '_' !in ps[k]
    ensures HeaderNameOf("HTTP_" + Join(ps, "_")) == Some(Join(TitleParts(ps), "-"))
  {
    var key := "HTTP_" + Join(ps, "_");
    assert key[..5] == "HTTP_" && key[5..] == Join(ps, "_");
    SplitJoin(ps, '_');
  }

  /** `CONTENT_TYPE` becomes "Content-Type". */
  lemma ContentTypeName(key: string)
    requires key == "CONTENT_TYPE"
    ensures HeaderNameOf(key) == Some("Content-Type")
  {
    var tail, titledTail := "TYPE", "Type";
    assert key == "CONTENT" + "_" + tail;
    NamedVariableName(key, tail, titledTail);
    NamedVariableText();
  }

  /** `CONTENT_LENGTH` becomes "Content-Length". */
  lemma ContentLengthName(key: string)
    requires key == "CONTENT_LENGTH"
    ensures HeaderNameOf(key) == Some("Content-Length")
  {
    var tail, titledTail := "LENGTH", "Length";
    assert key == "CONTENT" + "_" + tail;
    NamedVariableName(key, tail, titledTail);
    NamedVariableText();
  }

  lemma NamedVariableName(key: string, tail: string, titledTail: string)
    requires key == "CONTENT_TYPE" || key == "CONTENT_LENGTH"
    requires key == "CONTENT" + "_" + tail && '_' !in tail && TitlePart(tail) == titledTail
    ensures HeaderNameOf(key) == Some("Content" + "-" + titledTail)
  {
    ContentSplit(key, tail);
    ContentTitled(tail, titledTail);
    assert !StartsWith(key, "HTTP_") by { assert key[0] == 'C'; }
  }

  lemma ContentSplit(key: string, tail: string)
    requires key == "CONTENT" + "_" + tail && '_' !in tail
    ensures Split(key, '_') == ["CONTENT", tail]
  {
    var ps := ["CONTENT", tail];
    assert Join(ps, "_") == ps[0] + "_" + Join(ps[1..], "_");
    assert ps[1..] == [tail];
    SplitJoin(ps, '_');
  }

  lemma ContentTitled(tail: string, titledTail: string)
    requires TitlePart(tail) == titledTail
    ensures Join(TitleParts(["CONTENT", tail]), "-") == "Content" + "-" + titledTail
  {
    var head, content := "CONTENT", "Content";
    Titled(head, content);
    var titled := TitleParts([head, tail]);
    assert titled == [content, titledTail];
    assert titled[1..] == [titledTail];
  }

  lemma NamedVariableText()
    ensures "Content" + "-" + "Type" == "Content-Type" && "Content" + "-" + "Length" == "Content-Length"
  {
  }

  /** An upper-case ASCII word title-cases to the expected text. */
  lemma Titled(w: string, t: string)
    requires |w| > 0 && |t| == |w| && t[0] == w[0] && 'A' <= w[0] <= 'Z'
    requires forall i | 1 <= i < |w| :: 'A' <= w[i] <= 'Z' && t[i] as int == w[i] as int + 32
    ensures TitlePart(w) == t
  {
    assert TitlePart(w) == [UpperChar(w[0])] + Lower(w[1..]);
    assert Lower(w[1..]) == t[1..];
  }

  /** A bare "HTTP_" names the empty header, which the name check rejects. */
  lemma BareHttpPrefix()
    ensures HeaderNameOf("HTTP_") == Some("") && !IsValidHeaderName("")
  {
    assert "HTTP_"[5..] == "";
    assert Split("", '_') == [""];
    assert TitleParts([""]) == [""];
  }

  /** Lower-casing distributes over concatenation. */
  lemma LowerConcat(a: string, b: string)
    ensures Lower(a + b) == Lower(a) + Lower(b)
  {
  }

  /** Title-casing the parts does not change the joined name up to case. */
  lemma {:induction false} LowerJoinTitle(parts: seq<string>)
    ensures Lower(Join(TitleParts(parts), "-")) == Lower(Join(parts, "-"))
  {
    if |parts| > 1 {
      var titled := TitleParts(parts);
      var rest := parts[1..];
      assert titled[1..] == TitleParts(rest);
      LowerJoinTitle(rest);
      var jt, jp := Join(TitleParts(rest), "-"), Join(rest, "-");
      assert Join(titled, "-") == titled[0] + "-" + jt;
      assert Join(parts, "-") == parts[0] + "-" + jp;
      LowerConcat(titled[0] + "-", jt);
      LowerConcat(titled[0], "-");
      LowerConcat(parts[0] + "-", jp);
      LowerConcat(parts[0], "-");
    }
  }

  lemma ReplaceConcat(a: string, b: string, from: char, to: char)
    ensures Replace(a + b, from, to) == Replace(a, from, to) + Replace(b, from, to)
  {
  }

  /** For '_'-free parts, joining with '_' and then turning '_' into '-' is joining with '-'. */
  lemma {:induction false} ReplaceJoin(parts: seq<string>)
    requires forall k | 0 <= k < |parts| :: '_' !in parts[k]
    ensures Replace(Join(parts, "_"), '_', '-') == Join(parts, "-")
  {
    if |parts| == 1 {
      assert Replace(parts[0], '_', '-') == parts[0];
    } else if |parts| > 1 {
      var rest := parts[1..];
      forall k | 0 <= k < |rest| ensures '_' !in rest[k] { assert rest[k] == parts[k + 1]; }
      ReplaceJoin(rest);
      assert Replace(parts[0], '_', '-') == parts[0];
      ReplaceConcat(parts[0] + "_", Join(rest, "_"), '_', '-');
      ReplaceConcat(parts[0], "_", '_', '-');
    }
  }

  /** Up to case, the header name of an `HTTP_` variable is the rest of its name with every '_'
      turned into '-', the name `extract_headers` derives for the same variable. */
  lemma HeaderNameUpToCase(key: string)
    requires StartsWith(key, "HTTP_")
    ensures Lower(HeaderNameOf(key).value) == Lower(Replace(key[5..], '_', '-'))
  {
    var parts := Split(key[5..], '_');
    LowerJoinTitle(parts);
    JoinSplit(key[5..], '_');
    ReplaceJoin(parts);
  }

  /** The pair an environment entry contributes: nothing unless it names a header and both the
      name and the value pass validation. */
  function Accepted(kv: (string, string)): (r: seq<(string, string)>)
    ensures |r| <= 1
    ensures |r| == 1 <==> (HeaderNameOf(kv.0).Some? && IsValidHeaderName(HeaderNameOf(kv.0).value)
                           && IsValidHeaderValue(kv.1))
    ensures |r| == 1 ==> r[0] == (HeaderNameOf(kv.0).value, kv.1)
  {
    match HeaderNameOf(kv.0)
    case None => []
    case Some(name) => if IsValidHeaderName(name) && IsValidHeaderValue(kv.1) then [(name, kv.1)] else []
  }

  /** The accepted pairs of the environment, in environment order. */
  function HeaderEntries(env: Environment): seq<(string, string)>
  {
    FlatMap(env, Accepted)
  }

  /** The map after one more environment entry. */
  lemma HeaderEntriesStep(env: Environment, i: nat)
    requires i < |env|
    ensures |Accepted(env[i])| == 0 ==> FromPairs(HeaderEntries(env[..i + 1])) == FromPairs(HeaderEntries(env[..i]))
    ensures |Accepted(env[i])| == 1 ==>
              FromPairs(HeaderEntries(env[..i + 1]))
              == FromPairs(HeaderEntries(env[..i]))[Accepted(env[i])[0].0 := Accepted(env[i])[0].1]
  {
    FlatMapStep(env, Accepted, i);
    var before := HeaderEntries(env[..i]);
    var acc := Accepted(env[i]);
    if |acc| == 0 {
      assert before + acc == before;
    } else {
      assert acc == [(acc[0].0, acc[0].1)];
      FromPairsAppend(before, acc[0].0, acc[0].1);
    }
  }

  /** `get_cgi_headers`. */
  method GetCgiHeaders(env: Environment) returns (headers: map<string, string>)
    ensures headers == FromPairs(HeaderEntries(env))
  {
    headers := map[];
    var i := 0;
    while i < |env|
      invariant 0 <= i <= |env|
      invariant headers == FromPairs(HeaderEntries(env[..i]))
    {
      HeaderEntriesStep(env, i);
      var key, value := env[i].0, env[i].1;
      var name := HeaderNameOf(key);
      if name.Some? && IsValidHeaderName(name.value) && IsValidHeaderValue(value) {
        headers := headers[name.value := value];
      }
      i := i + 1;
    }
    assert env[..|env|] == env;
  }

  /** Every header of the result is a valid name with a valid value, copied from an
      environment variable whose name maps to it. */
  lemma HeadersValid(env: Environment, name: string)
    requires name in FromPairs(HeaderEntries(env))
    ensures IsValidHeaderName(name) && IsValidHeaderValue(FromPairs(HeaderEntries(env))[name])
    ensures exists i | 0 <= i < |env| :: HeaderNameOf(env[i].0) == Some(name)
                                         && env[i].1 == FromPairs(HeaderEntries(env))[name]
  {
    var j := FromPairsEntry(HeaderEntries(env), name);
    var i, k := FlatMapSource(env, Accepted, j);
  }

  /** Every variable that names a header and passes both checks yields a header. */
  lemma HeaderPresent(env: Environment, i: nat)
    requires i < |env| && HeaderNameOf(env[i].0).Some?
    requires IsValidHeaderName(HeaderNameOf(env[i].0).value) && IsValidHeaderValue(env[i].1)
    ensures HeaderNameOf(env[i].0).value in FromPairs(HeaderEntries(env))
  {
    var j := FlatMapPresent(env, Accepted, i, 0);
    FromPairsKeys(HeaderEntries(env), HeaderEntries(env)[j].0);
  }

  // ---------------------------------------------------------------------------
  // The request body

  /** The message std's `read_exact` reports when the input ends early. */
  const SHORT_READ: string := "failed to fill whole buffer"

  /** A positive `CONTENT_LENGTH`, or None when it is missing, unparsable or zero. */
  function ContentLength(env: Environment): (r: Option<nat>)
    ensures r.Some? ==> r.value > 0
  {
    match Var(env, "CONTENT_LENGTH")
    case None => None
    case Some(s) =>
      match ParseUsize(s)
      case None => None
      case Some(n) => if n > 0 then Some(n) else None
  }

  /** `read_request_body`, with `stdin` the bytes standard input holds and `maxBodySize` the
      configured ceiling. */
  function ReadRequestBody(env: Environment, stdin: seq<byte>, maxBodySize: nat): (r: Result<Option<seq<byte>>, Errors.Error>)
    ensures ContentLength(env).None? <==> r == Ok(Option.None)
    ensures r.Err? && r.error.PayloadTooLarge? <==> ContentLength(env).Some? && ContentLength(env).value > maxBodySize
    ensures r.Err? && r.error.InvalidRequestBody? <==>
              ContentLength(env).Some? && ContentLength(env).value <= maxBodySize && |stdin| < ContentLength(env).value
    ensures r.Ok? && r.value.Some? ==>
              ContentLength(env).Some? && |r.value.value| == ContentLength(env).value
              && r.value.value == stdin[..ContentLength(env).value]
  {
    match ContentLength(env)
    case None => Ok(Option.None)
    case Some(n) =>
      if n > maxBodySize then
        Err(Errors.PayloadTooLarge("Request body size " + NatToString(n) + " bytes exceeds maximum allowed size "
                                   + NatToString(maxBodySize) + " bytes"))
      else if |stdin| < n then
        Err(Errors.InvalidRequestBody("Failed to read request body: " + SHORT_READ))
      else Ok(Some(stdin[..n]))
  }

  /** Without a positive length within the ceiling, standard input is never read: the outcome
      is the same whatever it holds. */
  lemma BodyGateIgnoresStdin(env: Environment, s1: seq<byte>, s2: seq<byte>, maxBodySize: nat)
    requires ContentLength(env).None? || ContentLength(env).value > maxBodySize
    ensures ReadRequestBody(env, s1, maxBodySize) == ReadRequestBody(env, s2, maxBodySize)
  {
  }

  /** A body read succeeds exactly when standard input holds at least the announced length, and
      extra input is left unread. */
  lemma BodyReadPrefix(env: Environment, stdin: seq<byte>, extra: seq<byte>, maxBodySize: nat)
    requires ContentLength(env).Some? && ContentLength(env).value <= maxBodySize
    requires ContentLength(env).value <= |stdin|
    ensures ReadRequestBody(env, stdin + extra, maxBodySize) == ReadRequestBody(env, stdin, maxBodySize)
  {
    var n := ContentLength(env).value;
    assert (stdin + extra)[..n] == stdin[..n];
  }
}
