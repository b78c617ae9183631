/** Redaction for the CGI error log (src/cgi/error_logging.rs): the sensitive-key test, per-parameter
    redaction of query strings, truncation of long values and the panic-context text. Writing the
    log file is I/O and is not part of this model; the environment is passed in. */
module ErrorLogging {
  import opened Wrappers
  import opened Text
  import opened Env

  // ---------------------------------------------------------------------------
  // Sensitive keys

  /** The substrings that mark a lower-cased key as sensitive. */
  const SENSITIVE_PATTERNS: seq<string> := [
    "authorization", "cookie", "token", "secret", "password", "pass", "api-key", "api_key", "apikey",
    "x-api-key", "x_api_key", "jwt", "auth", "session", "csrf", "signature", "private", "key",
    "credential", "access_token", "refresh_token", "bearer", "basic"]

  /** Whether `key` contains one of `patterns`, tried in order. */
  function AnyContained(key: string, patterns: seq<string>): (r: bool)
    ensures r <==> exists i | 0 <= i < |patterns| :: Contains(key, patterns[i])
  {
    if patterns == [] then false
    else if ContainsFrom(key, patterns[0], 0) then true
    else
      var r := AnyContained(key, patterns[1..]);
      assert forall i | 1 <= i < |patterns| :: patterns[i] == patterns[1..][i - 1];
      r
  }

  /** `is_sensitive_key_like`: the (already lower-cased) key contains a listed pattern. */
  function IsSensitiveKeyLike(lowerKey: string): (r: bool)
    ensures r <==> exists i | 0 <= i < |SENSITIVE_PATTERNS| :: Contains(lowerKey, SENSITIVE_PATTERNS[i])
  {
    AnyContained(lowerKey, SENSITIVE_PATTERNS)
  }

  /** Any key that has a sensitive key inside it is itself sensitive ("http_cookie" because of
      "cookie"). */
  lemma SensitiveInside(inner: string, outer: string, at: nat)
    requires IsSensitiveKeyLike(inner) && OccursAt(outer, inner, at)
    ensures IsSensitiveKeyLike(outer)
  {
    var i :| 0 <= i < |SENSITIVE_PATTERNS| && Contains(inner, SENSITIVE_PATTERNS[i]);
    var p := SENSITIVE_PATTERNS[i];
    var k: nat :| k <= |inner| && OccursAt(inner, p, k);
    forall j | 0 <= j < |p| ensures outer[at + k + j] == p[j] {
      assert outer[at + k + j] == outer[at..at + |inner|][k + j];
      assert p[j] == inner[k..k + |p|][j];
    }
    assert outer[at + k..at + k + |p|] == p;
    assert OccursAt(outer, p, at + k);
  }

  lemma AuthorizationSensitive()
    ensures IsSensitiveKeyLike("http_authorization")
  {
    assert SENSITIVE_PATTERNS[0] == "authorization";
    assert OccursAt("http_authorization", "authorization", 5);
  }

  /** A character of the pattern that the key lacks rules the pattern out. */
  lemma MissingChar(key: string, p: string, c: char)
    requires c in p && c !in key
    ensures !Contains(key, p)
  {
  }

  /** "host" is not sensitive: every pattern has a letter that "host" lacks. */
  lemma HostNotSensitive()
    ensures !IsSensitiveKeyLike("host")
  {
    var key := "host";
    var missing: seq<char> := "ackeppaaaxxjaecipkcarbb";
    assert |missing| == |SENSITIVE_PATTERNS|;
    forall i | 0 <= i < |SENSITIVE_PATTERNS| ensures !Contains(key, SENSITIVE_PATTERNS[i]) {
      assert missing[i] in SENSITIVE_PATTERNS[i] && missing[i] !in key;
      MissingChar(key, SENSITIVE_PATTERNS[i], missing[i]);
    }
  }

  // ---------------------------------------------------------------------------
  // Query strings

  const REDACTED := "***redacted***"

  /** One non-empty '&'-segment: its key, '=', and either the value or the redaction marker. */
  function RedactSegment(part: string): string
  {
    var (k, v) := SplitOnce(part, '=');
    if IsSensitiveKeyLike(Lower(k)) then k + "=" + REDACTED else k + "=" + v.GetOr("")
  }

  function KeptSegment(part: string): seq<string>
  {
    if part == "" then [] else [RedactSegment(part)]
  }

  /** The segments that remain, redacted, in order. */
  function RedactParts(parts: seq<string>): seq<string>
  {
    FlatMap(parts, KeptSegment)
  }

  /** What `redact_query_string` returns. */
  function RedactedQuery(qs: string): string
  {
    if qs == "" then "" else Join(RedactParts(Split(qs, '&')), "&")
  }

  /** `redact_query_string`: the source's loop over the segments. */
  method RedactQueryString(qs: string) returns (r: string)
    ensures r == RedactedQuery(qs)
  {
    if qs == "" {
      return qs;
    }
    var parts := Split(qs, '&');
    var outParts: seq<string> := [];
    var i := 0;
    while i < |parts|
      invariant 0 <= i <= |parts|
      invariant outParts == RedactParts(parts[..i])
    {
      FlatMapStep(parts, KeptSegment, i);
      var part := parts[i];
      if part == "" {
        i := i + 1;
        continue;
      }
      var (k, v) := SplitOnce(part, '=');
      if IsSensitiveKeyLike(Lower(k)) {
        outParts := outParts + [k + "=" + REDACTED];
      } else {
        outParts := outParts + [k + "=" + v.GetOr("")];
      }
      i := i + 1;
    }
    assert parts[..i] == parts;
    r := Join(outParts, "&");
  }

  lemma SplitOnceAfterKey(k: string, w: string)
    requires '=' !in k
    ensures SplitOnce(k + "=" + w, '=') == (k, Some(w))
  {
    var s := k + "=" + w;
    assert s[..|k|] == k && s[|k|] == '=';
    assert IndexOf(s, '=') == Some(|k|) by {
      assert forall j | 0 <= j < |k| :: s[j] == k[j];
    }
    assert s[|k| + 1..] == w;
  }

  /** A redacted segment is redacted already. */
  lemma RedactSegmentIdempotent(part: string)
    ensures RedactSegment(RedactSegment(part)) == RedactSegment(part)
  {
    var (k, v) := SplitOnce(part, '=');
    var w := if IsSensitiveKeyLike(Lower(k)) then REDACTED else v.GetOr("");
    SplitOnceAfterKey(k, w);
  }

  /** Every segment written keeps its key and has a '=' after it; the value is the marker when
      the key is sensitive and the segment's own value otherwise. */
  lemma RedactSegmentShape(part: string)
    ensures var (k, v) := SplitOnce(RedactSegment(part), '=');
            && k == SplitOnce(part, '=').0 && v.Some?
            && (IsSensitiveKeyLike(Lower(k)) ==> v.value == REDACTED)
            && (!IsSensitiveKeyLike(Lower(k)) ==> v.value == SplitOnce(part, '=').1.GetOr(""))
  {
    var (k, v) := SplitOnce(part, '=');
    var w := if IsSensitiveKeyLike(Lower(k)) then REDACTED else v.GetOr("");
    SplitOnceAfterKey(k, w);
  }

  /** Redaction adds no '&'. */
  lemma RedactSegmentNoAmpersand(part: string)
    requires '&' !in part
    ensures '&' !in RedactSegment(part)
  {
    var (k, v) := SplitOnce(part, '=');
    if v.Some? {
      assert part == k + "=" + v.value;
    }
    assert '&' !in REDACTED;
  }

  lemma {:induction false} RedactPartsShape(parts: seq<string>)
    requires forall i | 0 <= i < |parts| :: '&' !in parts[i]
    ensures forall i | 0 <= i < |RedactParts(parts)| :: '&' !in RedactParts(parts)[i] && RedactParts(parts)[i] != ""
    ensures forall i | 0 <= i < |RedactParts(parts)| ::
              exists j | 0 <= j < |parts| :: parts[j] != "" && RedactParts(parts)[i] == RedactSegment(parts[j])
  {
    var out := RedactParts(parts);
    forall i | 0 <= i < |out| ensures '&' !in out[i] && out[i] != ""
      && exists j | 0 <= j < |parts| :: parts[j] != "" && out[i] == RedactSegment(parts[j])
    {
      var j, k := FlatMapSource(parts, KeptSegment, i);
      RedactSegmentNoAmpersand(parts[j]);
    }
  }

  /** The redacted segments are the pieces of the output between '&'s. */
  lemma RedactedSegments(qs: string)
    requires qs != "" && RedactParts(Split(qs, '&')) != []
    ensures Split(RedactedQuery(qs), '&') == RedactParts(Split(qs, '&'))
  {
    var out := RedactParts(Split(qs, '&'));
    RedactPartsShape(Split(qs, '&'));
    SplitJoin(out, '&');
  }

  /** In the output every segment has its '=', and the value of every segment whose lower-cased
      key is sensitive is the redaction marker. */
  lemma SensitiveValuesHidden(qs: string, i: nat)
    requires qs != "" && RedactParts(Split(qs, '&')) != [] && i < |Split(RedactedQuery(qs), '&')|
    ensures var (k, v) := SplitOnce(Split(RedactedQuery(qs), '&')[i], '=');
            v.Some? && (IsSensitiveKeyLike(Lower(k)) ==> v.value == REDACTED)
  {
    var parts := Split(qs, '&');
    RedactedSegments(qs);
    RedactPartsShape(parts);
    var j :| 0 <= j < |parts| && parts[j] != "" && RedactParts(parts)[i] == RedactSegment(parts[j]);
    RedactSegmentShape(parts[j]);
  }

  lemma RedactPartsFixed(parts: seq<string>)
    requires forall i | 0 <= i < |parts| :: parts[i] != "" && RedactSegment(parts[i]) == parts[i]
    ensures RedactParts(parts) == parts
  {
    forall i | 0 <= i < |parts| ensures KeptSegment(parts[i]) == [parts[i]] {
    }
    FlatMapFixed(parts, KeptSegment);
  }

  /** Redacting a redacted query string changes nothing. */
  lemma RedactIdempotent(qs: string)
    ensures RedactedQuery(RedactedQuery(qs)) == RedactedQuery(qs)
  {
    if qs != "" {
      var out := RedactParts(Split(qs, '&'));
      if out != [] {
        RedactedSegments(qs);
        RedactPartsShape(Split(qs, '&'));
        forall i | 0 <= i < |out| ensures out[i] != "" && RedactSegment(out[i]) == out[i] {
          var j :| 0 <= j < |Split(qs, '&')| && Split(qs, '&')[j] != "" && out[i] == RedactSegment(Split(qs, '&')[j]);
          RedactSegmentIdempotent(Split(qs, '&')[j]);
        }
        RedactPartsFixed(out);
      }
    }
  }

  /** A query string whose segments are all "k=v" with a non-sensitive key comes back unchanged. */
  lemma HarmlessQueryUnchanged(qs: string)
    requires qs != ""
    requires forall i | 0 <= i < |Split(qs, '&')| ::
               '=' in Split(qs, '&')[i] && !IsSensitiveKeyLike(Lower(SplitOnce(Split(qs, '&')[i], '=').0))
    ensures RedactedQuery(qs) == qs
  {
    var parts := Split(qs, '&');
    forall i | 0 <= i < |parts| ensures parts[i] != "" && RedactSegment(parts[i]) == parts[i] {
      var (k, v) := SplitOnce(parts[i], '=');
    }
    RedactPartsFixed(parts);
    JoinSplit(qs, '&');
  }

  // ---------------------------------------------------------------------------
  // Values

  /** The most characters of `s` whose UTF-8 encoding fits in `n` bytes. */
  function CharsWithin(s: string, n: nat): (j: nat)
    ensures j <= |s| && ByteLen(s[..j]) <= n
    ensures j < |s| ==> ByteLen(s[..j + 1]) > n
  {
    if s == [] then 0
    else
      var w := |Utf8Char(s[0])|;
      if w > n then
        assert Utf8(s[..1]) == Utf8Char(s[0]) + Utf8(s[..1][1..]);
        0
      else
        var j := CharsWithin(s[1..], n - w);
        assert s[..j + 1][1..] == s[1..][..j];
        assert Utf8(s[..j + 1]) == Utf8Char(s[0]) + Utf8(s[1..][..j]);
        assert j + 1 < |s| ==> s[..j + 2][1..] == s[1..][..j + 1];
        assert j + 1 < |s| ==> Utf8(s[..j + 2]) == Utf8Char(s[0]) + Utf8(s[1..][..j + 1]);
        j + 1
  }

  /** `s.is_char_boundary(n)`: `n` bytes are a whole number of characters of `s`. */
  predicate IsCharBoundary(s: string, n: nat)
  {
    exists j | 0 <= j <= |s| :: ByteLen(s[..j]) == n
  }

  lemma ByteLenStep(s: string, j: nat)
    requires j < |s|
    ensures ByteLen(s[..j + 1]) == ByteLen(s[..j]) + |Utf8Char(s[j])|
  {
    assert s[..j + 1] == s[..j] + [s[j]];
    Utf8Concat(s[..j], [s[j]]);
    assert Utf8([s[j]]) == Utf8Char(s[j]) + Utf8([]);
  }

  lemma {:induction false} ByteLenGrows(s: string, i: nat, j: nat)
    requires i < j <= |s|
    ensures ByteLen(s[..i]) < ByteLen(s[..j])
    decreases j - i
  {
    ByteLenStep(s, j - 1);
    if i < j - 1 {
      ByteLenGrows(s, i, j - 1);
    }
  }

  /** `n` is a character boundary exactly when the longest prefix within `n` bytes has `n`. */
  lemma BoundaryAtCharsWithin(s: string, n: nat)
    ensures IsCharBoundary(s, n) <==> ByteLen(s[..CharsWithin(s, n)]) == n
  {
    var c := CharsWithin(s, n);
    if IsCharBoundary(s, n) {
      var j :| 0 <= j <= |s| && ByteLen(s[..j]) == n;
      if j < c {
        ByteLenGrows(s, j, c);
      } else if j > c {
        if c + 1 < j { ByteLenGrows(s, c + 1, j); }
      }
    }
  }

  const TRUNCATE_AT := 200
  const TRUNCATED := "...[truncated]"

  /** Neither the query string key nor a sensitive one. */
  predicate PlainKey(key: string)
  {
    Lower(key) != "query_string" && !IsSensitiveKeyLike(Lower(key))
  }

  /** `redact_value_for_log` as written: a long value is cut with `&value[..200]`, which panics
      (None here) when byte 200 falls inside a character. Only a long value under a plain key
      can panic, and wherever the code does not panic it agrees with the corrected cut. */
  function RedactValueAsWritten(key: string, value: string): (r: Option<string>)
    ensures r.None? ==> PlainKey(key) && ByteLen(value) > TRUNCATE_AT
    ensures r.Some? ==> r.value == RedactValueForLog(key, value)
  {
    var keyL := Lower(key);
    if keyL == "query_string" then Some(RedactedQuery(value))
    else if IsSensitiveKeyLike(keyL) then Some(REDACTED)
    else if ByteLen(value) > TRUNCATE_AT then
      var j := CharsWithin(value, TRUNCATE_AT);
      if ByteLen(value[..j]) == TRUNCATE_AT then Some(value[..j] + TRUNCATED) else None
    else Some(value)
  }

  /** `redact_value_for_log` as intended: a long value is cut at the last character boundary
      within 200 bytes. A value under a plain key is logged in at most 214 bytes. */
  function RedactValueForLog(key: string, value: string): (r: string)
    ensures PlainKey(key) ==> ByteLen(r) <= TRUNCATE_AT + |TRUNCATED|
  {
    var keyL := Lower(key);
    if keyL == "query_string" then RedactedQuery(value)
    else if IsSensitiveKeyLike(keyL) then REDACTED
    else if ByteLen(value) > TRUNCATE_AT then
      var p := value[..CharsWithin(value, TRUNCATE_AT)];
      CutBytes(value);
      WithMarkerBytes(p);
      p + TRUNCATED
    else value
  }

  lemma TruncatedLength()
    ensures ByteLen(TRUNCATED) == 14
  {
    assert IsAscii(TRUNCATED);
    Utf8OfAscii(TRUNCATED);
  }

  /** The query string, whatever the case of its key, is redacted parameter by parameter; other
      sensitive keys hide the whole value; other values up to 200 bytes are kept as they are. */
  lemma RedactValueCases(key: string, value: string)
    ensures Lower(key) == "query_string" ==> RedactValueForLog(key, value) == RedactedQuery(value)
    ensures Lower(key) != "query_string" && IsSensitiveKeyLike(Lower(key)) ==> RedactValueForLog(key, value) == REDACTED
    ensures PlainKey(key) && ByteLen(value) <= TRUNCATE_AT ==> RedactValueForLog(key, value) == value
  {
  }

  /** The cut the corrected code makes: a prefix between 197 and 200 bytes, then the marker. */
  function Truncated(value: string): string
  {
    value[..CharsWithin(value, TRUNCATE_AT)] + TRUNCATED
  }

  lemma TruncatedShape(value: string)
    requires ByteLen(value) > TRUNCATE_AT
    ensures var r := Truncated(value);
            && EndsWith(r, TRUNCATED)
            && (exists j | 0 <= j <= |value| :: r == value[..j] + TRUNCATED && 196 < ByteLen(value[..j]) <= TRUNCATE_AT)
            && 210 < ByteLen(r) <= 214
  {
    var j := CharsWithin(value, TRUNCATE_AT);
    var r := value[..j] + TRUNCATED;
    CutBytes(value);
    WithMarkerBytes(value[..j]);
    assert r[|r| - |TRUNCATED|..] == TRUNCATED;
    assert Truncated(value) == r;
  }

  /** The cut of a long value keeps between 197 and 200 bytes, and leaves something out. */
  lemma CutBytes(value: string)
    requires ByteLen(value) > TRUNCATE_AT
    ensures var j := CharsWithin(value, TRUNCATE_AT);
            j < |value| && 196 < ByteLen(value[..j]) <= TRUNCATE_AT
  {
    var j := CharsWithin(value, TRUNCATE_AT);
    CutInside(value, TRUNCATE_AT);
    LastCharAtMostFour(value, j, TRUNCATE_AT);
  }

  lemma CutInside(s: string, n: nat)
    requires ByteLen(s) > n
    ensures CharsWithin(s, n) < |s|
  {
    assert s[..|s|] == s;
  }

  /** Dropping one character loses at most four bytes. */
  lemma LastCharAtMostFour(s: string, j: nat, n: nat)
    requires j < |s| && ByteLen(s[..j + 1]) > n
    ensures ByteLen(s[..j]) + 4 > n
  {
    ByteLenStep(s, j);
  }

  lemma WithMarkerBytes(p: string)
    ensures ByteLen(p + TRUNCATED) == ByteLen(p) + 14
  {
    Utf8Concat(p, TRUNCATED);
    TruncatedLength();
  }

  /** A longer value under a plain key becomes a prefix of it, cut at a character boundary
      between 197 and 200 bytes, followed by "...[truncated]": 211 to 214 bytes in all. */
  lemma LongValueTruncated(key: string, value: string)
    requires PlainKey(key) && ByteLen(value) > TRUNCATE_AT
    ensures var r := RedactValueForLog(key, value);
            && EndsWith(r, TRUNCATED)
            && (exists j | 0 <= j <= |value| :: r == value[..j] + TRUNCATED && 196 < ByteLen(value[..j]) <= TRUNCATE_AT)
            && 210 < ByteLen(r) <= 214
  {
    assert RedactValueForLog(key, value) == Truncated(value);
    TruncatedShape(value);
  }

  /** Wherever the value as written does not panic, it agrees with the corrected one; it panics
      exactly for a plain key and a value over 200 bytes whose byte 200 is inside a character. */
  lemma AsWrittenAgrees(key: string, value: string)
    ensures RedactValueAsWritten(key, value).Some? ==> RedactValueAsWritten(key, value).value == RedactValueForLog(key, value)
    ensures RedactValueAsWritten(key, value).None?
            <==> PlainKey(key) && ByteLen(value) > TRUNCATE_AT && !IsCharBoundary(value, TRUNCATE_AT)
  {
    BoundaryAtCharsWithin(value, TRUNCATE_AT);
  }

  lemma {:induction false} AsciiPrefix(s: string, n: nat)
    requires IsAscii(s)
    ensures CharsWithin(s, n) == if n < |s| then n else |s|
    ensures n <= |s| ==> ByteLen(s[..n]) == n
  {
    var m := if n < |s| then n else |s|;
    assert IsAscii(s[..m]) by {
      forall i | 0 <= i < m ensures s[..m][i] as int < 0x80 { assert s[..m][i] == s[i]; }
    }
    Utf8OfAscii(s[..m]);
    var c := CharsWithin(s, n);
    if c < m {
        var p := s[..c + 1];
      assert IsAscii(p) by {
        forall i | 0 <= i < |p| ensures p[i] as int < 0x80 { assert p[i] == s[i]; }
      }
      Utf8OfAscii(p);
    } else if c > m {
      ByteLenGrows(s, m, c);
    }
  }

  /** An ASCII value over 200 bytes under a plain key: the source's cut is safe and gives its
      first 200 characters and the marker, 214 bytes. */
  lemma AsciiValueTruncated(key: string, value: string)
    requires PlainKey(key) && IsAscii(value) && |value| > TRUNCATE_AT
    ensures RedactValueAsWritten(key, value) == Some(value[..TRUNCATE_AT] + TRUNCATED)
    ensures ByteLen(value[..TRUNCATE_AT] + TRUNCATED) == 214
  {
    Utf8OfAscii(value);
    AsciiPrefix(value, TRUNCATE_AT);
    Utf8Concat(value[..TRUNCATE_AT], TRUNCATED);
    TruncatedLength();
  }

  // The counterexample: 67 euro signs, three bytes each.

  const EURO: char := '\U{20AC}'

  function Euros(k: nat): string
  {
    seq(k, i => EURO)
  }

  lemma {:induction false} EurosByteLen(k: nat)
    ensures ByteLen(Euros(k)) == 3 * k
  {
    if k > 0 {
      assert Euros(k) == [EURO] + Euros(k - 1);
      Utf8Concat([EURO], Euros(k - 1));
      assert Utf8([EURO]) == Utf8Char(EURO) + Utf8([]);
      EurosByteLen(k - 1);
    }
  }

  lemma EurosPrefixByteLen(k: nat, j: nat)
    requires j <= k
    ensures ByteLen(Euros(k)[..j]) == 3 * j
  {
    assert Euros(k)[..j] == Euros(j);
    EurosByteLen(j);
  }

  /** 67 euro signs are 201 bytes, no prefix of them is 200 bytes long, and the longest prefix
      within 200 bytes is 66 of them. */
  lemma EurosNoBoundary()
    ensures ByteLen(Euros(67)) == 201 && !IsCharBoundary(Euros(67), TRUNCATE_AT)
    ensures CharsWithin(Euros(67), TRUNCATE_AT) == 66
  {
    var v := Euros(67);
    EurosByteLen(67);
    forall j | 0 <= j <= |v| ensures ByteLen(v[..j]) != TRUNCATE_AT {
      EurosPrefixByteLen(67, j);
    }
    var c := CharsWithin(v, TRUNCATE_AT);
    EurosPrefixByteLen(67, c);
    if c < 67 {
      EurosPrefixByteLen(67, c + 1);
    }
  }

  /** A value of 67 euro signs (201 bytes) makes the source's `&value[..200]` panic, while the
      corrected cut keeps 66 of them. */
  lemma EuroValuePanics(key: string)
    requires PlainKey(key)
    ensures RedactValueAsWritten(key, Euros(67)) == None
    ensures RedactValueForLog(key, Euros(67)) == Euros(67)[..66] + TRUNCATED
  {
    EurosNoBoundary();
    AsWrittenAgrees(key, Euros(67));
  }

  // ---------------------------------------------------------------------------
  // Panic context

  /** The CGI variables listed, in order, after the request line when a handler panics. */
  const BASIC_VARS: seq<string> := [
    "QUERY_STRING", "CONTENT_TYPE", "CONTENT_LENGTH", "SERVER_PROTOCOL", "SERVER_NAME",
    "SERVER_PORT", "REMOTE_ADDR", "REMOTE_PORT"]

  /** The request headers listed, in order, under "  HTTP headers:". */
  const HTTP_HEADER_VARS: seq<string> := [
    "HTTP_HOST", "HTTP_USER_AGENT", "HTTP_ACCEPT", "HTTP_ACCEPT_ENCODING", "HTTP_X_FORWARDED_FOR",
    "HTTP_X_FORWARDED_PROTO", "HTTP_X_REQUEST_ID", "HTTP_X_AMZN_TRACE_ID", "HTTP_AUTHORIZATION",
    "HTTP_COOKIE"]

  const BASIC_INDENT := "  "
  const HEADER_INDENT := "    "
  const HEADERS_TITLE := "  HTTP headers:"
  const NO_HEADERS := "    (none)"

  /** The line a set variable contributes, "indent KEY=value" with the value redacted; nothing
      when it is unset. */
  function VarLines(env: Environment, indent: string, key: string): (r: seq<string>)
    ensures |r| <= 1
  {
    match Var(env, key)
    case None => []
    case Some(v) => [indent + key + "=" + RedactValueForLog(key, v)]
  }

  /** The lines of the variables among `keys` that are set, in the order of `keys`. */
  function PresentLines(env: Environment, keys: seq<string>, indent: string): seq<string>
  {
    FlatMap(keys, k => VarLines(env, indent, k))
  }

  /** The head of the report: the title, the method and the path. */
  function PanicHead(requestMethod: string, path: string): seq<string>
  {
    ["CGI panic context:", BASIC_INDENT + "REQUEST_METHOD=" + requestMethod, BASIC_INDENT + "PATH_INFO=" + path]
  }

  /** `gather_cgi_panic_context` before the lines are joined: the head, the set CGI variables,
      the headers title and the set header variables, or "    (none)" when there are none. */
  function PanicContextLines(env: Environment, requestMethod: string, path: string): (r: seq<string>)
    ensures 5 <= |r| <= 5 + |BASIC_VARS| + |HTTP_HEADER_VARS|
    ensures r[..3] == PanicHead(requestMethod, path)
  {
    var head := PanicHead(requestMethod, path);
    var basic := PresentLines(env, BASIC_VARS, BASIC_INDENT);
    var headers := PresentLines(env, HTTP_HEADER_VARS, HEADER_INDENT);
    PresentLinesAtMost(env, BASIC_VARS, BASIC_INDENT);
    PresentLinesAtMost(env, HTTP_HEADER_VARS, HEADER_INDENT);
    ReportShape(head, basic, HEADERS_TITLE, headers, NO_HEADERS);
    head + basic + [HEADERS_TITLE] + (if headers == [] then [NO_HEADERS] else headers)
  }

  /** The report's layout: the head first, then one line per set variable, the title and either
      the header lines or the one "(none)" line. */
  lemma ReportShape(head: seq<string>, basic: seq<string>, title: string, headers: seq<string>, none: string)
    ensures var r := head + basic + [title] + (if headers == [] then [none] else headers);
            && |r| == |head| + |basic| + 1 + (if headers == [] then 1 else |headers|)
            && r[..|head|] == head
  {
    var r := head + basic + [title] + (if headers == [] then [none] else headers);
    assert r[..|head|] == head;
  }

  /** At most one line per listed variable. */
  lemma {:induction false} PresentLinesAtMost(env: Environment, keys: seq<string>, indent: string)
    ensures |PresentLines(env, keys, indent)| <= |keys|
    decreases |keys|
  {
    if keys != [] {
      PresentLinesAtMost(env, keys[..|keys| - 1], indent);
    }
  }

  lemma PresentLinesStep(env: Environment, keys: seq<string>, indent: string, i: nat)
    requires i < |keys|
    ensures PresentLines(env, keys[..i + 1], indent) == PresentLines(env, keys[..i], indent) + VarLines(env, indent, keys[i])
  {
    FlatMapStep(keys, k => VarLines(env, indent, k), i);
  }

  /** One of the source's two loops over a list of variable names: the line of each set
      variable is appended, and `count` says how many were. */
  method AppendVarLines(env: Environment, keys: seq<string>, indent: string, lines: seq<string>)
    returns (out: seq<string>, count: nat)
    ensures out == lines + PresentLines(env, keys, indent)
    ensures count == |PresentLines(env, keys, indent)|
  {
    out, count := lines, 0;
    var i := 0;
    while i < |keys|
      invariant 0 <= i <= |keys|
      invariant out == lines + PresentLines(env, keys[..i], indent)
      invariant count == |PresentLines(env, keys[..i], indent)|
    {
      PresentLinesStep(env, keys, indent, i);
      out, count := AppendVarLine(env, keys[i], indent, out, count);
      i := i + 1;
    }
    assert keys[..i] == keys;
  }

  /** The body of those loops: the line of one variable, when it is set. */
  method AppendVarLine(env: Environment, key: string, indent: string, lines: seq<string>, count: nat)
    returns (out: seq<string>, newCount: nat)
    ensures out == lines + VarLines(env, indent, key)
    ensures newCount == count + |VarLines(env, indent, key)|
  {
    out, newCount := lines, count;
    var val := Var(env, key);
    if val.Some? {
      var v := RedactValueForLog(key, val.value);
      out := out + [indent + key + "=" + v];
      newCount := newCount + 1;
    }
  }

  /** `gather_cgi_panic_context`, with the environment as a parameter: the lines of the report
      joined with newlines. */
  method GatherCgiPanicContext(env: Environment, requestMethod: string, path: string) returns (text: string)
    ensures text == Join(PanicContextLines(env, requestMethod, path), "\n")
  {
    var lines := PanicHead(requestMethod, path);
    var basicCount, headerCount;
    lines, basicCount := AppendVarLines(env, BASIC_VARS, BASIC_INDENT, lines);
    lines := lines + [HEADERS_TITLE];
    lines, headerCount := AppendVarLines(env, HTTP_HEADER_VARS, HEADER_INDENT, lines);
    ghost var headers := PresentLines(env, HTTP_HEADER_VARS, HEADER_INDENT);
    assert headerCount == 0 <==> headers == [];
    if headerCount == 0 {
      lines := lines + [NO_HEADERS];
    }
    assert lines == PanicContextLines(env, requestMethod, path);
    text := Join(lines, "\n");
  }

  /** A variable name that can head a report line: non-empty, without blanks and without '='. */
  predicate KeyLike(key: string)
  {
    key != [] && ' ' !in key && '=' !in key
  }

  /** `line` reports the variable `key` at `indent`. */
  predicate Reports(line: string, indent: string, key: string)
  {
    StartsWith(line, indent + key + "=")
  }

  /** The first '=' ends the name: a line reports only the name it was written for. */
  lemma ReportsOnlyItsKey(indent: string, k: string, v: string, key: string)
    requires '=' !in k && '=' !in key
    ensures Reports(indent + k + "=" + v, indent, key) ==> k == key
  {
    var line := indent + k + "=" + v;
    var p := indent + key + "=";
    if k != key && |p| <= |line| {
      var j := if |k| < |key| then |k| else |key|;
      if |k| == |key| {
        j :| 0 <= j < |k| && k[j] != key[j];
      }
      assert line[..|p|][|indent| + j] != p[|indent| + j];
    }
  }

  /** A line without '=' reports nothing. */
  lemma NoEqualsReportsNothing(line: string, indent: string, key: string)
    requires '=' !in line
    ensures !Reports(line, indent, key)
  {
    var p := indent + key + "=";
    if |p| <= |line| {
      assert line[..|p|][|p| - 1] == line[|p| - 1] != p[|p| - 1];
    }
  }

  /** The set variables among `keys` are the ones reported, each with its redacted value. */
  lemma PresentLinesReport(env: Environment, keys: seq<string>, indent: string, key: string)
    requires '=' !in key
    requires forall i | 0 <= i < |keys| :: '=' !in keys[i]
    ensures (exists l | l in PresentLines(env, keys, indent) :: Reports(l, indent, key))
            <==> key in keys && Var(env, key).Some?
    ensures key in keys && Var(env, key).Some? ==>
              indent + key + "=" + RedactValueForLog(key, Var(env, key).value) in PresentLines(env, keys, indent)
  {
    var f := k => VarLines(env, indent, k);
    if l :| l in PresentLines(env, keys, indent) && Reports(l, indent, key) {
      FlatMapMember(keys, f, l);
      var i :| 0 <= i < |keys| && l in f(keys[i]);
      ReportsOnlyItsKey(indent, keys[i], RedactValueForLog(keys[i], Var(env, keys[i]).value), key);
    }
    if key in keys && Var(env, key).Some? {
      var l := indent + key + "=" + RedactValueForLog(key, Var(env, key).value);
      var i :| 0 <= i < |keys| && keys[i] == key;
      assert l in f(keys[i]);
      FlatMapMember(keys, f, l);
      assert Reports(l, indent, key);
    }
  }

  /** Every line the variables among `keys` contribute is "indent KEY=..." for one of them. */
  lemma PresentLinesShape(env: Environment, keys: seq<string>, indent: string, l: string) returns (k: string, v: string)
    requires l in PresentLines(env, keys, indent)
    ensures k in keys && Var(env, k).Some? && v == RedactValueForLog(k, Var(env, k).value)
    ensures l == indent + k + "=" + v
  {
    var f := k => VarLines(env, indent, k);
    FlatMapMember(keys, f, l);
    var i :| 0 <= i < |keys| && l in f(keys[i]);
    k, v := keys[i], RedactValueForLog(keys[i], Var(env, keys[i]).value);
  }

  lemma BasicNamesKeyLike()
    ensures forall i | 0 <= i < |BASIC_VARS| :: KeyLike(BASIC_VARS[i])
    ensures "REQUEST_METHOD" !in BASIC_VARS && "PATH_INFO" !in BASIC_VARS
  {
  }

  lemma HeaderNamesKeyLike()
    ensures forall i | 0 <= i < |HTTP_HEADER_VARS| :: KeyLike(HTTP_HEADER_VARS[i])
  {
  }

  /** A line that differs from "indent KEY=" somewhere within both does not report KEY. */
  lemma DiffersReportsNothing(line: string, indent: string, key: string, i: nat)
    requires i < |line| && i < |indent + key + "="| && line[i] != (indent + key + "=")[i]
    ensures !Reports(line, indent, key)
  {
    var p := indent + key + "=";
    if |p| <= |line| {
      assert line[..|p|][i] == line[i];
    }
  }

  /** The head of the report reports no CGI variable other than the method and the path. */
  lemma HeadReportsNoBasic(requestMethod: string, path: string, key: string, l: string)
    requires KeyLike(key) && key != "REQUEST_METHOD" && key != "PATH_INFO"
    requires l in PanicHead(requestMethod, path)
    ensures !Reports(l, BASIC_INDENT, key)
  {
    if l == "CGI panic context:" {
      NoEqualsReportsNothing(l, BASIC_INDENT, key);
    } else if l == BASIC_INDENT + "REQUEST_METHOD=" + requestMethod {
      assert l == BASIC_INDENT + "REQUEST_METHOD" + "=" + requestMethod;
      ReportsOnlyItsKey(BASIC_INDENT, "REQUEST_METHOD", requestMethod, key);
    } else {
      assert l == BASIC_INDENT + "PATH_INFO" + "=" + path;
      ReportsOnlyItsKey(BASIC_INDENT, "PATH_INFO", path, key);
    }
  }

  /** The head and the headers title report no header: their third character is not a blank. */
  lemma FixedLinesReportNoHeader(requestMethod: string, path: string, key: string, l: string)
    requires l in PanicHead(requestMethod, path) || l == HEADERS_TITLE
    ensures !Reports(l, HEADER_INDENT, key)
  {
    assert l[2] != ' ' && (HEADER_INDENT + key + "=")[2] == ' ';
    DiffersReportsNothing(l, HEADER_INDENT, key, 2);
  }

  lemma MarkersReportNothing(indent: string, key: string)
    ensures !Reports(HEADERS_TITLE, indent, key) && !Reports(NO_HEADERS, indent, key)
  {
    NoEqualsReportsNothing(HEADERS_TITLE, indent, key);
    NoEqualsReportsNothing(NO_HEADERS, indent, key);
  }

  /** Lines at the header indent report nothing at the CGI-variable indent. */
  lemma DeeperLinesReportNoBasic(env: Environment, keys: seq<string>, key: string, l: string)
    requires KeyLike(key) && l in PresentLines(env, keys, HEADER_INDENT)
    ensures !Reports(l, BASIC_INDENT, key)
  {
    var k, v := PresentLinesShape(env, keys, HEADER_INDENT, l);
    assert l[2] == ' ' && (BASIC_INDENT + key + "=")[2] == key[0];
    DiffersReportsNothing(l, BASIC_INDENT, key, 2);
  }

  /** Lines at the CGI-variable indent report nothing at the header indent. */
  lemma ShallowerLinesReportNoHeader(env: Environment, keys: seq<string>, key: string, l: string)
    requires forall i | 0 <= i < |keys| :: KeyLike(keys[i])
    requires l in PresentLines(env, keys, BASIC_INDENT)
    ensures !Reports(l, HEADER_INDENT, key)
  {
    var k, v := PresentLinesShape(env, keys, BASIC_INDENT, l);
    assert KeyLike(k);
    assert l[2] == k[0] && (HEADER_INDENT + key + "=")[2] == ' ';
    DiffersReportsNothing(l, HEADER_INDENT, key, 2);
  }

  /** A listed CGI variable is reported in the panic context exactly when it is set, and then with
      its value redacted. */
  lemma BasicVarReported(env: Environment, requestMethod: string, path: string, key: string)
    requires key in BASIC_VARS
    ensures (exists l | l in PanicContextLines(env, requestMethod, path) :: Reports(l, BASIC_INDENT, key))
            <==> Var(env, key).Some?
    ensures Var(env, key).Some? ==>
              BASIC_INDENT + key + "=" + RedactValueForLog(key, Var(env, key).value) in PanicContextLines(env, requestMethod, path)
  {
    BasicNamesKeyLike();
    assert KeyLike(key);
    var lines := PanicContextLines(env, requestMethod, path);
    var basic := PresentLines(env, BASIC_VARS, BASIC_INDENT);
    var headers := PresentLines(env, HTTP_HEADER_VARS, HEADER_INDENT);
    PresentLinesReport(env, BASIC_VARS, BASIC_INDENT, key);
    MarkersReportNothing(BASIC_INDENT, key);
    forall l | l in lines && l !in basic ensures !Reports(l, BASIC_INDENT, key) {
      if l in PanicHead(requestMethod, path) {
        HeadReportsNoBasic(requestMethod, path, key, l);
      } else if l in headers {
        DeeperLinesReportNoBasic(env, HTTP_HEADER_VARS, key, l);
      }
    }
  }

  /** A listed header is reported under "  HTTP headers:" exactly when it is set, and then with
      its value redacted. */
  lemma HeaderVarReported(env: Environment, requestMethod: string, path: string, key: string)
    requires key in HTTP_HEADER_VARS
    ensures (exists l | l in PanicContextLines(env, requestMethod, path) :: Reports(l, HEADER_INDENT, key))
            <==> Var(env, key).Some?
    ensures Var(env, key).Some? ==>
              HEADER_INDENT + key + "=" + RedactValueForLog(key, Var(env, key).value) in PanicContextLines(env, requestMethod, path)
  {
    HeaderNamesKeyLike();
    var lines := PanicContextLines(env, requestMethod, path);
    var headers := PresentLines(env, HTTP_HEADER_VARS, HEADER_INDENT);
    PresentLinesReport(env, HTTP_HEADER_VARS, HEADER_INDENT, key);
    if Var(env, key).Some? {
      assert headers != [];
    }
    BasicNamesKeyLike();
    MarkersReportNothing(HEADER_INDENT, key);
    forall l | l in lines && l !in headers ensures !Reports(l, HEADER_INDENT, key) {
      if l in PanicHead(requestMethod, path) || l == HEADERS_TITLE {
        FixedLinesReportNoHeader(requestMethod, path, key, l);
      } else if l in PresentLines(env, BASIC_VARS, BASIC_INDENT) {
        ShallowerLinesReportNoHeader(env, BASIC_VARS, key, l);
      }
    }
  }

  /** The report ends with "    (none)" exactly when none of the listed headers is set. */
  lemma NoHeadersLine(env: Environment, requestMethod: string, path: string)
    ensures var lines := PanicContextLines(env, requestMethod, path);
            lines[|lines| - 1] == NO_HEADERS <==> forall i | 0 <= i < |HTTP_HEADER_VARS| :: Var(env, HTTP_HEADER_VARS[i]).None?
  {
    var headers := PresentLines(env, HTTP_HEADER_VARS, HEADER_INDENT);
    LastPanicLine(env, requestMethod, path);
    NoHeadersIff(env);
    if headers != [] {
      HeaderLineNotNone(env, headers[|headers| - 1]);
    }
  }

  /** The last line of the report: "    (none)" or the last header line. */
  lemma LastPanicLine(env: Environment, requestMethod: string, path: string)
    ensures var lines := PanicContextLines(env, requestMethod, path);
            var headers := PresentLines(env, HTTP_HEADER_VARS, HEADER_INDENT);
            |lines| > 0 && lines[|lines| - 1] == if headers == [] then NO_HEADERS else headers[|headers| - 1]
  {
    var headers := PresentLines(env, HTTP_HEADER_VARS, HEADER_INDENT);
    var front := PanicHead(requestMethod, path) + PresentLines(env, BASIC_VARS, BASIC_INDENT) + [HEADERS_TITLE];
    if headers == [] {
      LastOfTail(front, [NO_HEADERS]);
    } else {
      LastOfTail(front, headers);
    }
  }

  lemma LastOfTail(front: seq<string>, tail: seq<string>)
    requires tail != []
    ensures |front + tail| > 0 && (front + tail)[|front + tail| - 1] == tail[|tail| - 1]
  {
  }

  /** No header line is "    (none)": each holds a '='. */
  lemma HeaderLineNotNone(env: Environment, l: string)
    requires l in PresentLines(env, HTTP_HEADER_VARS, HEADER_INDENT)
    ensures l != NO_HEADERS
  {
    HeaderNamesKeyLike();
    var k, v := PresentLinesShape(env, HTTP_HEADER_VARS, HEADER_INDENT, l);
    assert l == HEADER_INDENT + k + "=" + v;
    assert l[|HEADER_INDENT + k|] == '=';
    assert '=' !in NO_HEADERS;
  }

  /** There is no header line exactly when none of the listed headers is set. */
  lemma NoHeadersIff(env: Environment)
    ensures PresentLines(env, HTTP_HEADER_VARS, HEADER_INDENT) == []
            <==> forall i | 0 <= i < |HTTP_HEADER_VARS| :: Var(env, HTTP_HEADER_VARS[i]).None?
  {
    var headers := PresentLines(env, HTTP_HEADER_VARS, HEADER_INDENT);
    HeaderNamesKeyLike();
    if i :| 0 <= i < |HTTP_HEADER_VARS| && Var(env, HTTP_HEADER_VARS[i]).Some? {
      PresentLinesReport(env, HTTP_HEADER_VARS, HEADER_INDENT, HTTP_HEADER_VARS[i]);
    }
    if headers != [] {
      var k, v := PresentLinesShape(env, HTTP_HEADER_VARS, HEADER_INDENT, headers[0]);
      var i :| 0 <= i < |HTTP_HEADER_VARS| && HTTP_HEADER_VARS[i] == k;
    }
  }

  lemma CookieSensitive()
    ensures IsSensitiveKeyLike("http_cookie")
  {
    assert SENSITIVE_PATTERNS[1] == "cookie";
    assert OccursAt("http_cookie", "cookie", 5);
  }

  /** The credentials a request carries are never written to the report: when set, the
      Authorization header appears with the value "***redacted***". */
  lemma AuthorizationRedacted(env: Environment, requestMethod: string, path: string)
    ensures Var(env, "HTTP_AUTHORIZATION").Some? ==>
              HEADER_INDENT + "HTTP_AUTHORIZATION" + "=" + REDACTED in PanicContextLines(env, requestMethod, path)
  {
    if v :| Var(env, "HTTP_AUTHORIZATION") == Some(v) {
      AuthorizationValueRedacted(v);
    }
    assert HTTP_HEADER_VARS[8] == "HTTP_AUTHORIZATION";
    HeaderVarReported(env, requestMethod, path, "HTTP_AUTHORIZATION");
  }

  lemma AuthorizationValueRedacted(v: string)
    ensures RedactValueForLog("HTTP_AUTHORIZATION", v) == REDACTED
  {
    LowerAuthorizationName();
    AuthorizationSensitive();
    SensitiveKeyRedacted("HTTP_AUTHORIZATION", v);
  }

  lemma LowerAuthorizationName()
    ensures Lower("HTTP_AUTHORIZATION") == "http_authorization"
  {
  }

  /** Likewise the Cookie header. */
  lemma CookieRedacted(env: Environment, requestMethod: string, path: string)
    ensures Var(env, "HTTP_COOKIE").Some? ==>
              HEADER_INDENT + "HTTP_COOKIE" + "=" + REDACTED in PanicContextLines(env, requestMethod, path)
  {
    if v :| Var(env, "HTTP_COOKIE") == Some(v) {
      CookieValueRedacted(v);
    }
    assert HTTP_HEADER_VARS[9] == "HTTP_COOKIE";
    HeaderVarReported(env, requestMethod, path, "HTTP_COOKIE");
  }

  lemma CookieValueRedacted(v: string)
    ensures RedactValueForLog("HTTP_COOKIE", v) == REDACTED
  {
    LowerCookieName();
    CookieSensitive();
    SensitiveKeyRedacted("HTTP_COOKIE", v);
  }

  lemma LowerCookieName()
    ensures Lower("HTTP_COOKIE") == "http_cookie"
  {
  }

  /** A sensitive key other than the query string's hides the whole value. */
  lemma SensitiveKeyRedacted(key: string, v: string)
    requires Lower(key) != "query_string" && IsSensitiveKeyLike(Lower(key))
    ensures RedactValueForLog(key, v) == REDACTED
  {
  }

  /** The query string is reported with the values of its sensitive parameters redacted. */
  lemma QueryStringReported(env: Environment, requestMethod: string, path: string)
    ensures Var(env, "QUERY_STRING").Some? ==>
              BASIC_INDENT + "QUERY_STRING" + "=" + RedactedQuery(Var(env, "QUERY_STRING").value)
              in PanicContextLines(env, requestMethod, path)
  {
    assert Lower("QUERY_STRING") == "query_string";
    assert BASIC_VARS[0] == "QUERY_STRING";
    BasicVarReported(env, requestMethod, path, "QUERY_STRING");
  }
}
