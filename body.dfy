/** `is_json_like_content_type` (src/handler/body.rs): which Content-Type values a route handler
    accepts for a JSON body. Only the media type before the first ';', trimmed and ASCII
    lower-cased, is inspected. */
module Body {
  import opened Text

  const APPLICATION_JSON: string := "application/json"
  const JSON_SUFFIX: string := "+json"
  /** The explicit extra list; JSON text sequences (RFC 7464) are its one entry. */
  const EXTRA_ALLOWED: seq<string> := ["application/json-seq"]

  /** The main type: the text before the first ';', trimmed and ASCII lower-cased. */
  function MainType(ct: string): string
  {
    Lower(Trim(Split(ct, ';')[0]))
  }

  /** `is_json_like_content_type`: "application/json" is accepted, and every accepted main type
      is at least as long as "+json", so an empty or blank Content-Type is refused. */
  function IsJsonLikeContentType(ct: string): (r: bool)
    ensures MainType(ct) == APPLICATION_JSON ==> r
    ensures r ==> |MainType(ct)| >= |JSON_SUFFIX|
  {
    var main := MainType(ct);
    main == APPLICATION_JSON || EndsWith(main, JSON_SUFFIX) || main in EXTRA_ALLOWED
  }

  // ---------------------------------------------------------------------------
  // Parameters are ignored

  /** Whatever follows the first ';' plays no part. */
  lemma ParametersIgnored(main: string, params: string)
    requires ';' !in main
    ensures IsJsonLikeContentType(main + ";" + params) == IsJsonLikeContentType(main)
  {
    SplitAfterPrefix(main, params, ';');
    assert main + ";" + params == main + [';'] + params;
    assert Split(main, ';') == [main];
  }

  // ---------------------------------------------------------------------------
  // Case is ignored

  lemma {:induction false} IndexOfLower(s: string, c: char)
    requires !('A' <= c <= 'Z') && !('a' <= c <= 'z')
    ensures IndexOf(Lower(s), c) == IndexOf(s, c)
    decreases |s|
  {
    if s != [] {
      assert Lower(s)[1..] == Lower(s[1..]);
      IndexOfLower(s[1..], c);
    }
  }

  lemma FirstPieceLower(s: string)
    ensures Split(Lower(s), ';')[0] == Lower(Split(s, ';')[0])
  {
    IndexOfLower(s, ';');
    match IndexOf(s, ';')
    case None =>
    case Some(i) => assert Lower(s)[..i] == Lower(s[..i]);
  }

  lemma {:induction false} TrimStartLower(s: string)
    ensures TrimStart(Lower(s)) == Lower(TrimStart(s))
    decreases |s|
  {
    if s != [] {
      assert IsWhitespace(Lower(s)[0]) == IsWhitespace(s[0]);
      assert Lower(s)[1..] == Lower(s[1..]);
      TrimStartLower(s[1..]);
    }
  }

  lemma {:induction false} TrimEndLower(s: string)
    ensures TrimEnd(Lower(s)) == Lower(TrimEnd(s))
    decreases |s|
  {
    if s != [] {
      assert IsWhitespace(Lower(s)[|s| - 1]) == IsWhitespace(s[|s| - 1]);
      assert Lower(s)[..|s| - 1] == Lower(s[..|s| - 1]);
      TrimEndLower(s[..|s| - 1]);
    }
  }

  lemma LowerIdempotent(s: string)
    ensures Lower(Lower(s)) == Lower(s)
  {
  }

  lemma MainTypeOfLower(s: string)
    ensures MainType(Lower(s)) == MainType(s)
  {
    var piece := Split(s, ';')[0];
    FirstPieceLower(s);
    TrimStartLower(piece);
    TrimEndLower(TrimStart(piece));
    LowerIdempotent(Trim(piece));
  }

  /** Two Content-Type values that differ only in ASCII case are accepted or rejected together. */
  lemma CaseIgnored(a: string, b: string)
    requires EqIgnoreAsciiCase(a, b)
    ensures IsJsonLikeContentType(a) == IsJsonLikeContentType(b)
  {
    MainTypeOfLower(a);
    MainTypeOfLower(b);
  }

  // ---------------------------------------------------------------------------
  // What is accepted

  /** A main type as written in a header: no ';', no surrounding whitespace, no upper case. */
  predicate Plain(main: string)
  {
    ';' !in main && IsTrimmed(main) && Lower(main) == main
  }

  lemma PlainMainType(main: string)
    requires Plain(main)
    ensures MainType(main) == main
  {
    assert Split(main, ';') == [main];
    TrimTrimmed(main);
  }

  /** A plain main type is accepted exactly when it is "application/json", ends in "+json" or is
      on the extra list, with or without parameters. */
  lemma PlainAccepted(main: string, params: string)
    requires Plain(main)
    ensures IsJsonLikeContentType(main) <==>
              main == APPLICATION_JSON || EndsWith(main, JSON_SUFFIX) || main in EXTRA_ALLOWED
    ensures IsJsonLikeContentType(main + ";" + params) == IsJsonLikeContentType(main)
  {
    PlainMainType(main);
    ParametersIgnored(main, params);
  }

  /** A lower-case letter or the punctuation of media types. */
  predicate MediaChar(c: char)
  {
    'a' <= c <= 'z' || c == '/' || c == '-' || c == '+' || c == '.'
  }

  /** A main type made of lower-case letters and the punctuation of media types is plain. */
  lemma PlainIfLowerAscii(main: string)
    requires main != []
    requires forall i | 0 <= i < |main| :: MediaChar(main[i])
    ensures Plain(main)
  {
    assert !IsWhitespace(main[0]) && !IsWhitespace(main[|main| - 1]);
  }

  /** "application/json-seq" needs the extra list: it is neither "application/json" nor a
      "+json" type. */
  lemma JsonSeqAccepted()
    ensures IsJsonLikeContentType("application/json-seq")
    ensures "application/json-seq" != APPLICATION_JSON && !EndsWith("application/json-seq", JSON_SUFFIX)
  {
    var main := "application/json-seq";
    PlainIfLowerAscii(main);
    PlainMainType(main);
    assert |main| != |APPLICATION_JSON|;
    assert main[|main| - 5] != JSON_SUFFIX[0];
  }

  lemma JsonAccepted()
    ensures IsJsonLikeContentType(APPLICATION_JSON)
  {
    PlainIfLowerAscii(APPLICATION_JSON);
    PlainMainType(APPLICATION_JSON);
  }

  /** Plain text is not JSON. */
  lemma TextPlainRejected()
    ensures !IsJsonLikeContentType("text/plain")
  {
    PlainIfLowerAscii("text/plain");
    PlainRejected("text/plain");
  }

  /** A plain main type of another length than both accepted names, whose fifth-last character is
      not '+', is rejected. */
  lemma PlainRejected(main: string)
    requires Plain(main) && |main| != |APPLICATION_JSON| && |main| != |EXTRA_ALLOWED[0]|
    requires |main| >= |JSON_SUFFIX| && main[|main| - |JSON_SUFFIX|] != JSON_SUFFIX[0]
    ensures !IsJsonLikeContentType(main)
  {
    PlainMainType(main);
  }

}
