# runbridge: the CGI request codec and dispatch pipeline, in Dafny

runbridge is a small Rust web framework. An application registers route handlers, each a
method plus a regular-expression path pattern, and middlewares that filter requests before the
handler and responses after it. It then runs behind AWS Lambda, Cloud Run or plain CGI. This
project models the CGI back end and the framework core it uses:

- the HTTP vocabulary: status codes, methods, requests, responses and the response builder;
- the error type and its status codes;
- the per-request context map and cookies with their `Set-Cookie` serialisation;
- the CGI ingestion side: headers rebuilt from `HTTP_*` variables, the body gated on
  `CONTENT_LENGTH` and a size ceiling, percent-decoding and query strings;
- the CGI output side: header validation, splitting of comma-joined `Set-Cookie` values, and
  the framing of a response onto standard output;
- log redaction and the panic-context report;
- the router: pattern anchoring, JSON Content-Type gating, the handler builders, and the
  table kept sorted by the number of '/' characters;
- the dispatch pipeline `process_request` and the `run_cgi` entry point.

Every module states in its contracts what the Rust code promises and proves it.

Code that changes state step by step is modelled as imperative Dafny, with its loops and
their invariants. Each such method is proved equal to a specification function, and the
properties are proved about that function. This covers:

- the percent decoder, the query-string parser and the header collectors;
- the `write_response_to` loops;
- the cookie scanner;
- the redaction loops;
- the middleware loops of `process_request`.

Objects that the source updates in place are classes. The context map, the response writer,
the route handler with its write-once regex cache, and the application builder are classes
with `modifies` clauses. Values that the Rust code passes by value are datatypes: requests,
responses, builders, cookies and errors.

Outside effects become parameters:

- the environment is a sequence of (name, value) pairs in `env::vars()` order;
- standard input is `stdin: seq<byte>`;
- standard output is a `Writer` whose `written` bytes only grow;
- the body-size ceiling is `maxBodySize`;
- the regex crate is a `RegexEngine` value, serde's JSON decoding a function `json`, and gzip
  decompression a function `gunzip`;
- the spawned task's fate (it finishes, panics or is cancelled) is the parameter `fate`;
- HashMap iteration order is an explicit enumeration `order` of the map's keys.

Files: `wrappers.dfy` (Option and Result), `text.dfy` (string and UTF-8 helpers), `env.dfy`,
`errors.dfy`, `context.dfy`, `http.dfy`, `cookie.dfy`, `validation.dfy`, `utils.dfy`,
`cgi_utils.dfy`, `cgi_request.dfy`, `cookie_split.dfy`, `cgi_response.dfy`,
`error_logging.dfy`, `traits.dfy`, `pattern.dfy`, `body.dfy`, `handler.dfy`, `builders.dfy`,
`app.dfy`, `cgi_core.dfy`.

## Model

| member | source | states |
|---|---|---|
| Errors.Display | src/error.rs:9-42 | The Display text is the variant's fixed prefix followed by the message, with length the sum of the two. |
| Errors.DisplayInjective | src/error.rs:9-42 | Two errors with the same Display text are the same error: the fixed prefixes tell every variant apart. |
| Errors.PrefixKey | src/error.rs:9-42 | The first and fifth characters of the prefix identify the variant. |
| Errors.KeyAndMessage | src/error.rs:9-42 | The variant key and the message together determine the error. |
| Errors.StatusCode | src/error.rs:47-59 | Each code is produced exactly by its variants, in both directions: 404 RouteNotFound, 400 InvalidRequestBody, 401 AuthenticationError, 403 AuthorizationError, 502 ExternalServiceError, 500 the serialisation, middleware, internal and configuration errors. The extra PayloadTooLarge variant gets 413. |
| Errors.StatusCodeRange | src/error.rs:47-59 | Every variant declared in the error enum maps into {400, 401, 403, 404, 500, 502}, all in 400..600. |
| Env.Var | src/cgi/core.rs:17-26 | `env::var`: None exactly when no variable has the name; otherwise the value of a variable of that name. |
| Env.VarFirst | src/cgi/core.rs:17-26 | When several variables share a name, the first one in environment order is read. |
| Context.Downcast | src/common/context.rs:26-38 | A downcast succeeds exactly when the stored value has the requested type, and then yields that value. |
| Context.Lookup | src/common/context.rs:26-30 | A typed lookup succeeds exactly when the key is present with a value of that type. |
| Context.LastTouch | src/common/context.rs:21-53 | Finds the last set, remove or clear that affects a key; None means no operation touched it. |
| Context.ReplayLastTouch | src/common/context.rs:21-53 | After any sequence of set, remove and clear, a key is present exactly when the last operation touching it was a set, with that set's value; an untouched key keeps its state. |
| Context.RequestContext.constructor | src/common/context.rs:14-18 | A new context is empty. |
| Context.RequestContext.Set | src/common/context.rs:21-23 | Binds the key, replacing any earlier value of any type. A typed get of the new value's type then returns it, and every other key keeps its value. |
| Context.RequestContext.Get | src/common/context.rs:26-30 | Returns the value when the key is present and its value has the requested type; a missing key or the wrong type gives None. |
| Context.RequestContext.Remove | src/common/context.rs:33-38 | Deletes the key whatever the type of its value. It returns the removed value only when that value has the requested type, so a second remove returns None. |
| Context.RequestContext.ContainsKey | src/common/context.rs:41-43 | Holds exactly when a get of some type succeeds. |
| Context.RequestContext.Clear | src/common/context.rs:51-53 | Afterwards the context is empty. |
| Context.RequestContext.IsEmpty | src/common/context.rs:56-58 | Holds exactly when no key is present. |
| Context.RequestContext.Clone | src/common/context.rs:61-66 | The clone is a new, empty context whatever the original holds; the original is unchanged. |
| Http.AsU16 | src/common/http.rs:11-39 | Every status code is its enum discriminant, between 200 and 599. |
| Http.AsU16Injective | src/common/http.rs:11-39 | Distinct status variants have distinct codes. |
| Http.ReasonPhrase | src/common/http.rs:42-61 | Every status variant has a non-empty reason phrase. |
| Http.IsSuccess | src/common/http.rs:64-66 | The 2xx test holds exactly for Ok, Created and NoContent. |
| Http.IsClientError | src/common/http.rs:69-71 | The 4xx test holds exactly for the nine client-error variants, BadRequest to TooManyRequests. |
| Http.IsServerError | src/common/http.rs:74-76 | The 5xx test holds exactly for InternalServerError, NotImplemented, BadGateway and ServiceUnavailable. |
| Http.StatusClasses | src/common/http.rs:64-76 | The success, client-error and server-error tests partition the variants: each is in exactly one. |
| Http.MethodName | src/common/http.rs:97-109 | Each method displays as an upper-case ASCII name of at least three letters. |
| Http.MethodNameInjective | src/common/http.rs:97-109 | Distinct methods display differently. |
| Http.MethodFromStr | src/common/http.rs:113-124 | Parsing returns the method whose name is the upper-cased input, and None when no method has that name. |
| Http.MethodRoundTrip | src/common/http.rs:97-124 | Parsing a method's displayed name, or its lower-case form, gives the method back. |
| Http.Insert | src/common/http.rs:164-166 | Inserting binds the key to the value and keeps every other key with its value. |
| Http.Extend | src/common/http.rs:354-357 | `HashMap::extend`: the keys of both maps, with the incoming map winning on shared keys. |
| Http.NewRequest | src/common/http.rs:146-155 | A new request has the method and path, no query parameters, headers or body, and an empty context. |
| Http.RequestWithQueryParam | src/common/http.rs:158-161 | Sets one query parameter, replacing an earlier value of that key; nothing else in the request changes. |
| Http.RequestWithHeader | src/common/http.rs:164-167 | Sets one request header, replacing an earlier value of that key; nothing else changes. |
| Http.RequestWithBody | src/common/http.rs:170-173 | Sets the body; nothing else changes. |
| Http.RequestWithContext | src/common/http.rs:196-199 | Replaces the context; nothing else changes. |
| Http.NewResponse | src/common/http.rs:215-221 | A new response has the status, no headers and no body. |
| Http.ResponseWithStatus | src/common/http.rs:224-230 | The same as a new response with the variant's code. |
| Http.WithHeader | src/common/http.rs:233-236 | A header set on a response replaces an earlier value for the same key; other headers, the status and the body stay. |
| Http.WithBody | src/common/http.rs:239-242 | Sets the body; the status and headers stay. |
| Http.FromError | src/common/http.rs:295-308 | The response has the error's status code, exactly one header (Content-Type text/plain), and the fixed message for that status as body. |
| Http.FromErrorBody | src/common/http.rs:295-308 | The body depends only on the status, never on the error's message. For 400, 401, 403, 404 and 500 it is the status variant's reason phrase. |
| Http.FromErrorFallbacks | src/common/http.rs:302-303 | 502 also says "Internal Server Error"; the payload-too-large error (413) falls through to "Error". |
| Http.NewBuilder | src/common/http.rs:321-327 | A new builder has the status, no headers and no body. |
| Http.BuilderWithStatus | src/common/http.rs:330-336 | The same as a new builder with the variant's code. |
| Http.Build | src/common/http.rs:402-408 | The built response carries the builder's status, headers and body. |
| Http.BuilderFrom | src/common/http.rs:339-345 | A builder made from a response builds that same response back. |
| Http.Header | src/common/http.rs:348-351 | A builder header replaces an earlier value for the same key; other headers, the status and the body stay. |
| Http.Headers | src/common/http.rs:354-357 | Adds every incoming header, the incoming value winning on a shared key; the other headers, the status and the body stay. |
| Http.SecurityHeaders | src/common/http.rs:360-367 | The five fixed security headers get their fixed values; every other header, the status and the body are untouched. |
| Http.Body | src/common/http.rs:380-383 | Sets the body; the status and headers stay. |
| Http.BuilderText | src/common/http.rs:386-391 | The text's UTF-8 bytes become the body, with Content-Type "text/plain; charset=utf-8". |
| Http.BuilderHtml | src/common/http.rs:394-399 | The markup's UTF-8 bytes become the body, with Content-Type "text/html; charset=utf-8". |
| Cookies.SameSiteName | src/common/cookie.rs:15-23 | SameSite displays as "Strict", "Lax" or "None", never containing ';'. |
| Cookies.SameSiteNameInjective | src/common/cookie.rs:15-23 | Distinct SameSite values display differently. |
| Cookies.NewCookie | src/common/cookie.rs:41-53 | A new cookie has only its name and value; every option is unset and both flags are false. |
| Cookies.WithPath | src/common/cookie.rs:56-59 | Sets the path and changes no other field. |
| Cookies.WithDomain | src/common/cookie.rs:62-65 | Sets the domain and changes no other field. |
| Cookies.WithExpires | src/common/cookie.rs:68-71 | Sets the expiry and changes no other field. |
| Cookies.WithMaxAge | src/common/cookie.rs:74-77 | Sets the maximum age and changes no other field. |
| Cookies.Secure | src/common/cookie.rs:80-83 | Sets the Secure flag and changes no other field. |
| Cookies.HttpOnly | src/common/cookie.rs:86-89 | Sets the HttpOnly flag and changes no other field. |
| Cookies.WithSameSite | src/common/cookie.rs:92-95 | Sets SameSite and changes no other field. |
| Cookies.Attributes | src/common/cookie.rs:101-127 | The set attributes, at most seven, in the fixed order Path, Domain, Expires, Max-Age (whole seconds), Secure, HttpOnly, SameSite. |
| Cookies.ToHeaderValue | src/common/cookie.rs:98-130 | The header value starts with "name=value", and is exactly that when no attribute is set. |
| Cookies.FreshCookieHeader | src/common/cookie.rs:41-130 | A new cookie serialises to exactly "name=value". |
| Cookies.HeaderFields | src/common/cookie.rs:98-130 | For a cookie without ';' in its fields, splitting the header value at ';' gives back "name=value" and then each set attribute, in order, each behind its blank. |
| Cookies.SemicolonFreeAttributes | src/common/cookie.rs:101-127 | When no field holds a ';', no attribute does either. |
| Validation.IsValidHeaderName | src/cgi/validation.rs:4-14 | A name is valid exactly when it is non-empty and every character is an ASCII letter, a digit or '-'. The check over UTF-8 bytes agrees with this check over characters. |
| Validation.IsValidHeaderValue | src/cgi/validation.rs:18-23 | A value is valid exactly when every character is HTAB or in 0x20-0x7E. The check over bytes agrees with the check over characters. |
| Validation.RejectedCharacters | src/cgi/validation.rs:4-23 | CR, LF and NUL make both checks fail. A blank, ':' or '=' make a name invalid. The empty string is an invalid name but a valid value. |
| Validation.HeaderLineHasOneLineBreak | src/cgi/validation.rs:4-23 | For a valid name and value, the bytes of "name: value\r\n" hold one CR and one LF, at the end. |
| Utils.FromHex | src/common/utils.rs:29-36 | Returns a value in 0..15 exactly for an ASCII hex digit of either case, namely that digit's value; every other byte gives None. |
| Utils.FromHexDigit | src/common/utils.rs:29-36 | Both the upper- and the lower-case digit of a value decode back to it. |
| Utils.PercentDecoded | src/common/utils.rs:6-24 | The decoded bytes are never longer than the input. |
| Utils.PercentDecodedAt | src/common/utils.rs:10-24 | What decoding emits at each position: "%XY" with two hex digits gives the byte 16*X+Y and resumes three bytes on; '+' gives a space; a '%' without two hex digits after it (also near the end) and every other byte is copied. |
| Utils.PercentDecodeBytes | src/common/utils.rs:6-24 | The index loop produces exactly the specified decoding. |
| Utils.PercentDecode | src/common/utils.rs:6-26 | `percent_decode` is the byte decoding of the UTF-8 input followed by the lossy UTF-8 conversion. |
| Utils.PlusBecomesSpace | src/common/utils.rs:17-23 | Without any '%', decoding maps each '+' to a space and keeps every other byte. |
| Utils.DecodePlainText | src/common/utils.rs:6-26 | A string with neither '%' nor '+' decodes to itself. |
| Utils.PercentEncoded | src/common/utils.rs:11-15 | Writing every byte as "%XY" triples the length. |
| Utils.DecodeEncoded | src/common/utils.rs:11-36 | Decoding undoes percent-encoding of any byte sequence, with hex digits of either case. |
| Utils.RawPair | src/common/utils.rs:47-49 | A segment splits at its first '=': the key holds no '=', later '=' signs stay in the value, and a missing '=' gives the value "". |
| Utils.DecodedPairs | src/common/utils.rs:46-53 | Gives one decoded (key, value) pair per segment, in order. |
| Utils.ParseQueryString | src/common/utils.rs:39-57 | The loop over the '&'-segments builds exactly the specified map. |
| Utils.QueryLastWins | src/common/utils.rs:46-53 | For a key that several segments decode to, the last such segment gives the value. |
| Utils.QueryKeySource | src/common/utils.rs:46-53 | Every key of the result is the decoded key of some segment. |
| Utils.QueryKeyPresent | src/common/utils.rs:46-53 | Every segment's decoded key is in the result. |
| Utils.EmptyQuery | src/common/utils.rs:42-44 | The empty query string gives the empty map. |
| CgiUtils.CookiePair | src/common/cgi.rs:20-24 | A ';'-piece yields a cookie exactly when it contains '=' after trimming, split at the first '='. |
| CgiUtils.ExtractCookies | src/common/cgi.rs:16-29 | The loop builds exactly the specified cookie map. |
| CgiUtils.NoCookieHeader | src/common/cgi.rs:19-28 | Without `HTTP_COOKIE` there are no cookies. |
| CgiUtils.PairHasName | src/common/cgi.rs:20-24 | A piece yields a cookie of a given name exactly when, trimmed, it is that name, '=' and a value. |
| CgiUtils.CookieNames | src/common/cgi.rs:16-29 | A name is a cookie exactly when some trimmed piece of the header starts with that name and '='. |
| CgiUtils.PieceCookie | src/common/cgi.rs:20-24 | A piece "name=value" with no '=' in the name yields exactly that cookie, so "session=abc123" gives session → abc123. |
| CgiUtils.CookieLastWins | src/common/cgi.rs:20-24 | For a duplicate cookie name, the last piece carrying it gives the value. |
| CgiUtils.LowerHeaderName | src/common/cgi.rs:36-37 | The name after the `HTTP_` prefix has '_' replaced by '-' and is ASCII lower-cased: no '_' and no upper-case ASCII letter (the Unicode mapping of `to_lowercase` is left out). |
| CgiUtils.HttpEntry | src/common/cgi.rs:35-40 | Exactly the variables with the `HTTP_` prefix contribute a header. |
| CgiUtils.ExtractHeaders | src/common/cgi.rs:32-52 | The loop and the two later inserts build exactly the specified header map, with names ASCII lower-cased. |
| CgiUtils.ContentHeadersWin | src/common/cgi.rs:42-49 | `CONTENT_TYPE` and `CONTENT_LENGTH`, when set, give "content-type" and "content-length" and override whatever an `HTTP_` variable gave for those names. |
| CgiUtils.LowerHeaderNames | src/common/cgi.rs:32-52 | The result's names are the ASCII lower-cased names of the `HTTP_` variables, plus "content-type" and "content-length" when their variables are set. |
| CgiUtils.LowerHeadersKeys | src/common/cgi.rs:42-49 | The two later inserts add exactly "content-type" and "content-length", each when its variable is set, to the names the `HTTP_` loop produced. |
| CgiUtils.HttpHeaderLastWins | src/common/cgi.rs:35-40 | For any other name, the last `HTTP_` variable that maps to it gives the value. |
| CgiUtils.SetCookie | src/common/cgi.rs:55-57 | Sets "Set-Cookie" to the cookie's header value, replacing an earlier one; the status and the body stay. |
| CgiUtils.SetCookieOverrides | src/common/cgi.rs:55-57 | A second `set_cookie` erases the first. |
| CgiUtils.SetCookies | src/common/cgi.rs:60-68 | After the loop only the last cookie's value is left; an empty list leaves the response as it was. |
| CgiRequest.TitlePart | src/cgi/request.rs:19-25 | A name part keeps its length and its letters up to case, with the first character upper-cased and the rest lower-cased. |
| CgiRequest.TitleParts | src/cgi/request.rs:17-27 | Title-cases every part, keeping the order. |
| CgiRequest.HeaderNameOf | src/cgi/request.rs:15-44 | A header name is produced exactly for `HTTP_` variables, `CONTENT_TYPE` and `CONTENT_LENGTH`; every other variable is skipped. |
| CgiRequest.HttpVariableName | src/cgi/request.rs:15-28 | `HTTP_` followed by '_'-joined parts becomes the title-cased parts joined by '-', so `HTTP_X_AUTH_TOKEN` gives "X-Auth-Token". |
| CgiRequest.ContentTypeName | src/cgi/request.rs:29-41 | `CONTENT_TYPE` becomes "Content-Type". |
| CgiRequest.ContentLengthName | src/cgi/request.rs:29-41 | `CONTENT_LENGTH` becomes "Content-Length". |
| CgiRequest.BareHttpPrefix | src/cgi/request.rs:15-48 | A bare `HTTP_` gives the empty name, which fails validation. |
| CgiRequest.HeaderNameUpToCase | src/cgi/request.rs:15-28 | Up to case, the header name is the rest of the variable name with '_' replaced by '-'. |
| CgiRequest.Accepted | src/cgi/request.rs:45-53 | A variable contributes its pair exactly when it names a header and both the name and the value pass validation. |
| CgiRequest.GetCgiHeaders | src/cgi/request.rs:12-56 | The loop with its `continue`s builds exactly the map of the accepted pairs in environment order. |
| CgiRequest.HeadersValid | src/cgi/request.rs:45-53 | Every returned header has a valid name and a valid value, copied from a variable whose name maps to it. |
| CgiRequest.HeaderPresent | src/cgi/request.rs:45-53 | Every variable that names a header and passes both checks yields that header. |
| CgiRequest.ContentLength | src/cgi/request.rs:60-62 | A length is seen only when `CONTENT_LENGTH` parses as a positive number. |
| CgiRequest.ReadRequestBody | src/cgi/request.rs:59-84 | Ok(None) exactly without a positive length. PayloadTooLarge exactly when the length exceeds the ceiling. InvalidRequestBody exactly when standard input is shorter than the length. Otherwise the body is the first length bytes of standard input. |
| CgiRequest.BodyGateIgnoresStdin | src/cgi/request.rs:60-83 | Without a positive length, or with one over the ceiling, the result does not depend on standard input. |
| CgiRequest.BodyReadPrefix | src/cgi/request.rs:74-78 | The read takes exactly the announced length; extra input is left unread. |
| CookieSplit.SplitAsWritten | src/cgi/response.rs:121-195 | The scanner as written. Every part is non-empty and trimmed, and uses only characters of the value. |
| CookieSplit.SplitSetCookie | src/cgi/response.rs:121-195 | The corrected scanner, in which an Expires attribute also ends at the comma of its date. Every part is non-empty and trimmed, and uses only characters of the value. |
| CookieSplit.ScanNonEmptyTrimmed | src/cgi/response.rs:154-190 | Every part the scanner emits is a trimmed, non-empty buffer. |
| CookieSplit.ScanCharsFrom | src/cgi/response.rs:127-185 | The scanner adds no characters of its own. |
| CookieSplit.SkipSpaces | src/cgi/response.rs:140-142 | The blank-skipping loop stops at the first non-blank. |
| CookieSplit.DropSpaces | src/cgi/response.rs:140-142 | Drops exactly the leading blanks: the rest is a suffix that does not start with one. |
| CookieSplit.SeesPairAhead | src/cgi/response.rs:145-153 | The look-ahead loop reports an '=' before the next ';' or ','. |
| CookieSplit.MatchesExpires | src/cgi/response.rs:169-178 | The loop over "xpires=" matches exactly when the next seven characters spell it in any ASCII case. |
| CookieSplit.SplitSetCookieHeader | src/cgi/response.rs:121-195 | The scanner as a loop over an index with a buffer, the Expires flag and the result list. It computes the corrected split, not the one written at response.rs:130-137 (see Findings). |
| CookieSplit.TrackConcat | src/cgi/response.rs:127-185 | Tracking the Expires flag is compositional wherever no "Expires=" can straddle the seam. |
| CookieSplit.CommaSplits | src/cgi/response.rs:135-159 | A comma outside an Expires attribute, followed by blanks and a name=value pair, ends the buffered cookie. |
| CookieSplit.ScanFirst | src/cgi/response.rs:127-190 | A cookie followed by ", " and a name=value pair is split off whole. |
| CookieSplit.SplitJoinedCookies | src/cgi/response.rs:118-121 | The corrected splitter inverts joining any list of cookies with ", ", whether or not a cookie ends with its Expires date. |
| CookieSplit.SplitAsWrittenJoined | src/cgi/response.rs:118-121 | The splitter as written inverts the same joining, but only for cookies whose every Expires attribute is closed by a ';'. |
| CookieSplit.CommaInExpires | src/cgi/response.rs:136-137 | As written, a comma inside an Expires attribute is kept, and the attribute stays open. |
| CookieSplit.ExpiresSwallowsNextCookie | src/cgi/response.rs:130-137 | As written, a cookie that ends inside its Expires attribute swallows the comma that separates it from the next cookie, giving one part for two cookies. |
| CookieSplit.ExpiresCookieSplit | src/cgi/response.rs:121-195 | For "id=1; Expires=" + an HTTP-date joined with "b=2", the scanner as written returns one part and the corrected one returns two. |
| CgiResponse.CgiReason | src/cgi/response.rs:38-49 | The fixed reason table for 200, 201, 204, 400, 401, 403, 404, 413 and 500, and "Unknown" for every other code. |
| CgiResponse.CgiReasonAgrees | src/cgi/response.rs:38-49 | Where both tables list a code, the CGI phrase is the `StatusCode` reason phrase. |
| CgiResponse.Pairs | src/cgi/response.rs:16 | The header pairs in iteration order, one per key. |
| CgiResponse.Writer.constructor | src/cgi/response.rs:12 | A new writer has written nothing. |
| CgiResponse.Writer.WriteAll | src/cgi/response.rs:52-105 | `write_all` appends its bytes. |
| CgiResponse.SanitizeHeaders | src/cgi/response.rs:14-35 | The first loop drops the reserved headers (Status and Content-Length, in any case). At the first invalid header it replaces the response by the fixed 400 and forgets the headers kept so far. |
| CgiResponse.PartitionHeaders | src/cgi/response.rs:56-72 | The second loop separates Set-Cookie values from the other headers. Each value is split into cookies by the corrected splitter, or kept whole when the split yields nothing. |
| CgiResponse.CookieParts | src/cgi/response.rs:59-68 | A Set-Cookie value stands for at least one cookie, cut by the corrected splitter, and none holds a character the value does not. |
| CgiResponse.WriteHeaderLines | src/cgi/response.rs:75-79 | Writes one "name: value\r\n" line per header, in order. |
| CgiResponse.WriteCookieLines | src/cgi/response.rs:82-86 | Writes one "Set-Cookie: cookie\r\n" line per cookie, in order. |
| CgiResponse.WriteTail | src/cgi/response.rs:88-105 | Writes the Content-Length line when there is a body, then the blank line, then the body. |
| CgiResponse.WriteResponseTo | src/cgi/response.rs:12-108 | The writer grows by exactly the specified output: the status line, the normal headers, the Set-Cookie lines, Content-Length, a blank line and the body, in that order. |
| CgiResponse.ResponseBytes | src/cgi/response.rs:52-105 | The output opens with the status line of the response actually sent (the fixed 400 when a header is invalid) and closes with its body. |
| CgiResponse.SetCookieNotReserved | src/cgi/response.rs:18-60 | A Set-Cookie header is never a reserved one. |
| CgiResponse.ValidHeadersWritten | src/cgi/response.rs:16-79 | With every header valid, the response is written as it is. Exactly the headers that are neither reserved nor Set-Cookie become ordinary lines, each with its own value. |
| CgiResponse.ValidCookiesWritten | src/cgi/response.rs:59-86 | With every header valid, the cookie lines are exactly the parts the corrected splitter cuts from the Set-Cookie values, or the whole value when it finds none. |
| CgiResponse.JoinedCookiesWritten | src/cgi/response.rs:59-68 | With the corrected splitter, several cookies joined with ", " into one value come out as one Set-Cookie line each. As written, a cookie ending in an Expires date swallows the next one (see Findings). |
| CgiResponse.BadRequestStatusLine | src/cgi/response.rs:38-52 | The 400's status line reads "Status: 400 Bad Request\r\n". |
| CgiResponse.BadRequestShape | src/cgi/response.rs:21-93 | The fixed 400 has status 400, the body "Bad Request: Invalid header" and the line "Content-Length: 27". |
| CgiResponse.NoUserHeaders | src/cgi/response.rs:52-105 | A response without headers is written as the status line, Content-Length when there is a body, the blank line and the body. |
| CgiResponse.InvalidHeaderWritesBadRequest | src/cgi/response.rs:21-105 | One invalid header that is not reserved, wherever it is, replaces the whole output by the 400. The 400 carries no user header, not even its own Content-Type: only "Content-Length: 27", the blank line and "Bad Request: Invalid header". |
| CgiResponse.ResponseIsHeaderLines | src/cgi/response.rs:52-105 | The output is the status line, one "name: value" line per header line in order, the blank line and the body. |
| CgiResponse.SanitizedEntry | src/cgi/response.rs:16-35 | Every written user header is a valid, unreserved entry of the response's map. |
| CgiResponse.CookiePartsValid | src/cgi/response.rs:59-68 | A cookie cut out of a valid value is valid. |
| CgiResponse.ContentLengthValid | src/cgi/response.rs:89-93 | The framework's Content-Length line has a valid name and a value of digits. |
| CgiResponse.LinesValid | src/cgi/response.rs:21-93 | Every header line written has a valid name and value, so no input can start a new line in the header section. |
| CgiResponse.ReservedOnlyContentLength | src/cgi/response.rs:17-93 | The only line with a reserved name is the framework's Content-Length. It is the last line, present exactly when the written response has a body, and it carries the body's length. |
| ErrorLogging.AnyContained | src/cgi/error_logging.rs:130 | Holds exactly when the key contains one of the patterns. |
| ErrorLogging.IsSensitiveKeyLike | src/cgi/error_logging.rs:104-131 | A key is sensitive exactly when it contains one of the 23 listed patterns. |
| ErrorLogging.SensitiveInside | src/cgi/error_logging.rs:104-131 | A key containing a sensitive key is itself sensitive. |
| ErrorLogging.HostNotSensitive | src/cgi/error_logging.rs:104-131 | "host" is not sensitive. |
| ErrorLogging.AuthorizationSensitive | src/cgi/error_logging.rs:104-131 | "http_authorization", the lower-cased name of the Authorization header variable, is sensitive. |
| ErrorLogging.CookieSensitive | src/cgi/error_logging.rs:104-131 | "http_cookie" is sensitive. |
| ErrorLogging.RedactQueryString | src/cgi/error_logging.rs:133-149 | The loop over the '&'-segments gives exactly the specified redaction. |
| ErrorLogging.RedactSegmentShape | src/cgi/error_logging.rs:138-146 | Every written segment keeps its key followed by '='. The value is "***redacted***" when the lower-cased key is sensitive, and the segment's own value otherwise. |
| ErrorLogging.RedactSegmentIdempotent | src/cgi/error_logging.rs:138-146 | Redacting a segment twice gives what redacting it once gives. |
| ErrorLogging.RedactedSegments | src/cgi/error_logging.rs:133-149 | "" maps to ""; empty segments are dropped; the redacted segments are the output's pieces between '&'s. |
| ErrorLogging.SensitiveValuesHidden | src/cgi/error_logging.rs:133-149 | In the output, the value of every segment whose key is sensitive is the marker. |
| ErrorLogging.RedactIdempotent | src/cgi/error_logging.rs:133-149 | Redacting a redacted query string changes nothing. |
| ErrorLogging.HarmlessQueryUnchanged | src/cgi/error_logging.rs:144-148 | A query string made of "k=v" segments with non-sensitive keys comes back unchanged. |
| ErrorLogging.CharsWithin | src/cgi/error_logging.rs:97-98 | The most leading characters whose encoding fits in a byte budget. |
| ErrorLogging.BoundaryAtCharsWithin | src/cgi/error_logging.rs:98 | A byte count is a character boundary exactly when that longest prefix has exactly that many bytes. |
| ErrorLogging.RedactValueCases | src/cgi/error_logging.rs:89-101 | The query-string key, in any case, delegates to the query redaction. Any other sensitive key gives exactly "***redacted***". A plain value of at most 200 bytes is returned unchanged. |
| ErrorLogging.LongValueTruncated | src/cgi/error_logging.rs:97-99 | A longer plain value becomes a prefix cut at a character boundary between 197 and 200 bytes, then "...[truncated]": 211 to 214 bytes in all. |
| ErrorLogging.TruncatedShape | src/cgi/error_logging.rs:97-99 | A truncated value ends with "...[truncated]" after a prefix of the value of 197 to 200 bytes. |
| ErrorLogging.CutBytes | src/cgi/error_logging.rs:97-98 | The cut of a value over 200 bytes leaves out at least one character and keeps 197 to 200 bytes. |
| ErrorLogging.AsWrittenAgrees | src/cgi/error_logging.rs:88-102 | Wherever the code as written does not panic it agrees with the corrected one. It panics exactly for a plain key and a value over 200 bytes whose byte 200 falls inside a character. |
| ErrorLogging.RedactValueAsWritten | src/cgi/error_logging.rs:88-102 | `redact_value_for_log` as written, with None for its panic. It can panic only on a value over 200 bytes under a plain key, and where it returns, it agrees with the corrected cut. |
| ErrorLogging.RedactValueForLog | src/cgi/error_logging.rs:88-102 | `redact_value_for_log` as corrected, cutting at a character boundary. A value under a plain key is logged in at most 214 bytes. |
| ErrorLogging.AsciiValueTruncated | src/cgi/error_logging.rs:97-99 | An ASCII value over 200 bytes under a plain key gives its first 200 characters and the marker, 214 bytes. |
| ErrorLogging.EurosNoBoundary | src/cgi/error_logging.rs:97-98 | 67 euro signs take 201 bytes, byte 200 is not a character boundary, and 66 characters are the most that fit. |
| ErrorLogging.EuroValuePanics | src/cgi/error_logging.rs:97-98 | A value of 67 euro signs, 201 bytes, makes the code as written panic, while the corrected cut keeps 66 of them. |
| ErrorLogging.VarLines | src/cgi/error_logging.rs:51-79 | A set variable gives at most one line, "indent KEY=value", with the value redacted by the corrected cut. An unset variable gives nothing. |
| ErrorLogging.AppendVarLines | src/cgi/error_logging.rs:51-80 | Each of the two loops appends the lines of the set variables in list order and counts them. Values are cut by the corrected truncation. |
| ErrorLogging.AppendVarLine | src/cgi/error_logging.rs:51-56 | One loop step appends the line of the variable when it is set, with the value cut by the corrected truncation, and nothing otherwise. It counts what it appended. |
| ErrorLogging.GatherCgiPanicContext | src/cgi/error_logging.rs:33-86 | The report is the specified lines joined with newlines: the title, method and path, the set CGI variables, "  HTTP headers:", and the set header variables or "    (none)". Values are cut by the corrected truncation, so the report always exists. |
| ErrorLogging.PanicContextLines | src/cgi/error_logging.rs:33-86 | The report opens with the title, method and path, and has between 5 lines and 5 plus one per listed variable. |
| ErrorLogging.ReportsOnlyItsKey | src/cgi/error_logging.rs:54-77 | A report line names only the variable it was written for. |
| ErrorLogging.PresentLinesReport | src/cgi/error_logging.rs:51-79 | The variables of a list that are set are exactly the ones reported, each with its value redacted by the corrected cut. |
| ErrorLogging.PresentLinesShape | src/cgi/error_logging.rs:51-79 | Every reported line is "indent KEY=value" for a listed, set variable, with that variable's value redacted by the corrected cut. |
| ErrorLogging.BasicVarReported | src/cgi/error_logging.rs:40-56 | A listed CGI variable is reported exactly when it is set, with its value redacted by the corrected cut. |
| ErrorLogging.HeaderVarReported | src/cgi/error_logging.rs:59-80 | A listed header is reported under "  HTTP headers:" exactly when it is set, with its value redacted by the corrected cut. |
| ErrorLogging.NoHeadersLine | src/cgi/error_logging.rs:72-83 | The report ends with "    (none)" exactly when none of the listed headers is set. |
| ErrorLogging.AuthorizationRedacted | src/cgi/error_logging.rs:68-95 | When set, the Authorization header is reported as "***redacted***". |
| ErrorLogging.AuthorizationValueRedacted | src/cgi/error_logging.rs:93-95 | Any value of HTTP_AUTHORIZATION is logged as "***redacted***". |
| ErrorLogging.SensitiveKeyRedacted | src/cgi/error_logging.rs:93-95 | Under a sensitive key other than the query string's, any value is logged as "***redacted***". |
| ErrorLogging.CookieRedacted | src/cgi/error_logging.rs:69-95 | When set, the Cookie header is reported as "***redacted***". |
| ErrorLogging.QueryStringReported | src/cgi/error_logging.rs:41-92 | When set, the query string is reported with its sensitive values redacted. |
| Pattern.TrimStartMatches | src/handler/pattern.rs:15 | Removes the longest run of the character from the start; what is left is a suffix that does not start with it. |
| Pattern.TrimEndMatches | src/handler/pattern.rs:15 | Removes the longest run of the character from the end; what is left is a prefix that does not end with it. |
| Pattern.EnsureSafePattern | src/handler/pattern.rs:5-27 | Err exactly for the empty pattern, with "Empty regex pattern is not allowed". Every Ok result starts with '^' and ends with '$'. |
| Pattern.AnchoredKept | src/handler/pattern.rs:13-25 | A pattern that already starts with '^' and ends with '$' is returned unchanged. |
| Pattern.UnanchoredWrapped | src/handler/pattern.rs:13-17 | Any other non-empty pattern gives "^", the pattern with leading '^' and trailing '$' stripped, then "$". |
| Pattern.StrippedShape | src/handler/pattern.rs:15 | The pattern is a run of '^', the stripped core and a run of '$'. |
| Pattern.StrippedEnds | src/handler/pattern.rs:15 | The stripped core neither starts with '^' nor ends with '$'. |
| Pattern.EnsureIdempotent | src/handler/pattern.rs:5-27 | Ensuring an ensured pattern changes nothing. |
| Body.ParametersIgnored | src/handler/body.rs:3-8 | Whatever follows the first ';' plays no part in the decision. |
| Body.CaseIgnored | src/handler/body.rs:3-8 | Two Content-Type values that differ only in ASCII case are accepted or rejected together. |
| Body.MainTypeOfLower | src/handler/body.rs:3-8 | Lower-casing the value first does not change its main type. |
| Body.PlainMainType | src/handler/body.rs:3-8 | A main type written without ';', surrounding blanks or capitals is its own main type. |
| Body.PlainAccepted | src/handler/body.rs:11-18 | Such a main type is accepted exactly when it is "application/json", ends in "+json" or is on the extra list, with or without parameters. |
| Body.IsJsonLikeContentType | src/handler/body.rs:2-19 | "application/json" is accepted, and every accepted main type is at least as long as "+json", so an empty or blank Content-Type is refused. |
| Body.JsonAccepted | src/handler/body.rs:16 | "application/json" is accepted. |
| Body.JsonSeqAccepted | src/handler/body.rs:11-18 | "application/json-seq" is accepted only through the extra list: it is neither "application/json" nor a "+json" type. |
| Body.TextPlainRejected | src/handler/body.rs:16-18 | "text/plain" is rejected. |
| Body.PlainRejected | src/handler/body.rs:11-18 | A plain main type that is not "application/json", not on the extra list and not a "+json" type is rejected. |
| Handlers.RouteMatches | src/handler/core.rs:168-216 | Another method never matches and the regex is not consulted; a pattern that does not compile matches nothing; a match means the compiled regex accepts the path. |
| Handlers.UnsupportedMessage | src/handler/core.rs:234-240 | The error message starts with "Unsupported Content-Type: " and the type. |
| Handlers.NoBodyPassesNone | src/handler/core.rs:223-245 | An absent or empty body reaches the handler function as None, with no Content-Type check and no JSON parse. |
| Handlers.MissingContentType | src/handler/core.rs:227-232 | A body without the exact key "content-type" is refused with "Missing Content-Type header", whatever the handler function would do. |
| Handlers.UnsupportedContentType | src/handler/core.rs:234-240 | A body whose Content-Type is not JSON-like is refused with InvalidRequestBody naming the type; the handler function is not called. |
| Handlers.JsonBodyParsed | src/handler/core.rs:242-248 | A JSON-like body reaches the handler function parsed; a parse error is returned without calling it. |
| Handlers.RouteHandler.constructor | src/handler/core.rs:69-76 | Stores the given fields with an empty regex cache. |
| Handlers.RouteHandler.Matches | src/handler/core.rs:168-308 | Answers as specified. Another method leaves the cache untouched. The right method fills an empty cache with the compilation of the stored pattern, and a filled cache is never recompiled. |
| Handlers.RouteHandler.AsHandler | src/handler/core.rs:168-249 | As a `dyn Handler` the route handler has its pattern, the same answer as `matches`, and the gated `handle`. |
| Handlers.TryNew | src/handler/core.rs:48-77 | Err exactly for the empty pattern; otherwise a new handler that stores the anchored pattern with an empty cache. |
| Handlers.New | src/handler/core.rs:81-85 | The deprecated constructor, for a non-empty pattern, gives the handler `try_new` would. |
| Handlers.FailClosed | src/handler/core.rs:208-214 | A pattern that does not compile rejects every path and method. |
| Handlers.MatchesTwice | src/handler/core.rs:168-216 | Two calls of `matches` with the same arguments answer the same: the cache changes nothing. |
| Builders.RequireBodySync | src/handler/builders.rs:17-30 | None is refused with "Missing request body" without calling the handler; Some(data) gives exactly handler(req, data). |
| Builders.RequireBodyAsync | src/handler/builders.rs:33-49 | None gives a ready future holding the same error; Some(data) gives the handler's own future. |
| Builders.AsyncAgreesWithSync | src/handler/builders.rs:17-49 | Once awaited, the async adapter answers as the sync one does with the awaited handler. |
| Builders.BodyRequired | src/handler/builders.rs:17-30 | A `post` or `put` handler answers a request without a body with "Missing request body". |
| Builders.IgnoreBody | src/handler/builders.rs:58 | The handler is called with the request only; the body argument plays no part. |
| Builders.IgnoreBodyAsync | src/handler/builders.rs:78 | The same for an async handler, awaited. |
| Builders.AwaitedRequireBody | src/handler/builders.rs:111-134 | The awaited async adapter. |
| Builders.Get | src/handler/builders.rs:52-59 | A sync GET handler for the anchored pattern that ignores the body. |
| Builders.TryGet | src/handler/builders.rs:62-68 | Err exactly for the empty pattern; otherwise as `get`. |
| Builders.AsyncGet | src/handler/builders.rs:71-79 | An async GET handler that ignores the body. |
| Builders.TryAsyncGet | src/handler/builders.rs:82-89 | Err exactly for the empty pattern; otherwise as `async_get`. |
| Builders.Post | src/handler/builders.rs:92-100 | A sync POST handler that requires the body. |
| Builders.AsyncPost | src/handler/builders.rs:103-112 | An async POST handler that requires the body. |
| Builders.Put | src/handler/builders.rs:115-123 | A sync PUT handler that requires the body. |
| Builders.AsyncPut | src/handler/builders.rs:126-135 | An async PUT handler that requires the body. |
| Builders.Delete | src/handler/builders.rs:138-145 | A sync DELETE handler that ignores the body. |
| Builders.AsyncDelete | src/handler/builders.rs:148-156 | An async DELETE handler that ignores the body. |
| Builders.Options | src/handler/builders.rs:159-166 | A sync OPTIONS handler that ignores the body. |
| Builders.AsyncOptions | src/handler/builders.rs:169-177 | An async OPTIONS handler that ignores the body. |
| App.InsertSorted | src/lib.rs:86-95 | Putting a handler after every handler with at least as many '/' and before every handler with fewer keeps the list sorted. |
| App.RunBridgeBuilder.constructor | src/lib.rs:67-80 | A new builder has no handlers and no middlewares. |
| App.RunBridgeBuilder.AddHandler | src/lib.rs:83-96 | After `handler` the list is sorted non-increasingly by '/' count. It holds the old handlers and the new one, each once (a permutation), and the middlewares are unchanged. |
| App.RunBridgeBuilder.AddMiddleware | src/lib.rs:99-105 | The middleware is appended, so the list keeps registration order; the handlers are unchanged. |
| App.RunBridgeBuilder.Build | src/lib.rs:108-113 | Both lists are handed over unchanged, so the built route table is sorted. |
| App.FirstMatch | src/lib.rs:129-131 | Gives the position of the first matching handler, or None when none matches. |
| App.FindHandler | src/lib.rs:129-131 | None exactly when no handler matches; otherwise the handler at the first matching position. |
| App.MostSpecificFound | src/lib.rs:86-131 | In a sorted table, the handler found has at least as many '/' as any other handler that matches. |
| CgiCore.ProcessRequest | src/cgi/core.rs:122-158 | The two middleware loops compute exactly the specified dispatch. |
| CgiCore.Dispatch | src/cgi/core.rs:122-158 | `process_request` fails exactly when no handler matches or a pre-middleware fails; a handler's error becomes a response. |
| CgiCore.PreChainConcat | src/cgi/core.rs:129-132 | Pre-middlewares compose in registration order: a later list runs only on the request an earlier one returned, and not at all after an error. |
| CgiCore.PreChain | src/cgi/core.rs:129-132 | An error from the pre-processing loop is always one that some middleware returned. |
| CgiCore.PostChain | src/cgi/core.rs:147-155 | The post-processing loop equals the last middleware's step applied after the loop over the others, so the middleware registered last has the last word. |
| CgiCore.PreFirstError | src/cgi/core.rs:129-132 | The first pre-middleware error is the result, whatever the later middlewares would do. |
| CgiCore.PostChainConcat | src/cgi/core.rs:147-155 | Post-middlewares compose in registration order. |
| CgiCore.PostErrorContinues | src/cgi/core.rs:147-155 | A post-middleware error replaces the response with `from_error`, and the remaining middlewares still run on the replacement. |
| CgiCore.PostRegisteredLast | src/cgi/core.rs:147-155 | The middleware registered last post-processes last. |
| CgiCore.NoRouteNoMiddleware | src/cgi/core.rs:124-126 | Without a matching handler the result is RouteNotFound naming the method and path, and no middleware runs. |
| CgiCore.PreErrorSkipsHandler | src/cgi/core.rs:129-135 | A pre-middleware error is returned as it is, and the handler never runs. |
| CgiCore.HandlerErrorSkipsPost | src/cgi/core.rs:138-144 | A handler error becomes `from_error` at once, and no post-middleware sees it. |
| CgiCore.TextResponse | src/cgi/core.rs:38-110 | A response with Content-Type text/plain as its only header and the text's bytes as its body. |
| CgiCore.ReportedError | src/cgi/core.rs:79-91 | Only RouteNotFound becomes a 404 "Not Found: msg". Every other reported error becomes a 500 "Internal Server Error: " plus its Display text, whatever its own status code. |
| CgiCore.LostTask | src/cgi/core.rs:95-111 | A panicked or cancelled task gives a text/plain 500 whose body is exactly "Internal Server Error". |
| CgiCore.OutcomeResponse | src/cgi/core.rs:75-111 | Unless the task returned a response, the response written is a text/plain 404 or 500. |
| CgiCore.PreErrorIs500 | src/cgi/core.rs:83-132 | A pre-middleware error other than RouteNotFound reaches the client as a 500, even when its own status is a client error. |
| CgiCore.BadMethodRefused | src/cgi/core.rs:17-23 | A missing or unknown REQUEST_METHOD ends the run with InvalidRequestBody before anything is read or written. |
| CgiCore.OversizedBodyAnswered | src/cgi/core.rs:35-43 | A body over the ceiling is answered with a text/plain 413 "Payload Too Large", whatever the application, decompressor and task would do. |
| CgiCore.OversizedPrepared | src/cgi/core.rs:35-43 | Preparing a request whose body is over the ceiling gives the 413 answer, before any request is built. |
| CgiCore.LostTaskAnswered | src/cgi/core.rs:71-111 | A dispatched request whose task panics or is cancelled is answered with the bare 500. The context is gathered with the corrected cut, so the gatherer never panics. |
| CgiCore.SomeOrder | src/cgi/core.rs:51-54 | Every map has an enumeration of its keys. |
| CgiCore.IterationOrder | src/cgi/core.rs:51-54 | HashMap iteration visits every key exactly once, in an order nothing promises. |
| CgiCore.WriteResponse | src/cgi/response.rs:111-116 | Standard output grows by the framing of the response in some iteration order of its headers, with Set-Cookie values split by the corrected splitter. |
| CgiCore.PrepareCgiRequest | src/cgi/core.rs:17-65 | Reading the request gives exactly the specified preparation. The error cases come first: a missing or invalid method, then a body error other than PayloadTooLarge. The fixed answers follow: 413 for an oversized body, 400 "Bad Request: " + error for a body that does not decompress. Otherwise the request is built with lower-cased header keys. |
| CgiCore.PreparedHasMethod | src/cgi/core.rs:17-23 | A prepared request comes from an environment that names a known method. |
| CgiCore.RunTask | src/cgi/core.rs:71-107 | The task's outcome is `process_request`'s result, a panic or a cancellation. The panic context is gathered, with the corrected cut, exactly when the task panics. |
| CgiCore.RunCgi | src/cgi/core.rs:15-119 | `run_cgi` either returns the early error having written nothing, or writes the response its plan calls for and returns Ok. The panic context is produced, with the corrected cut, exactly for a dispatched request whose task panicked. Set-Cookie values are split by the corrected splitter. |

## Left out

- I/O. Writing to `runbridge_error.log` (`log_error_to_file`), the `log` macros, and flushing standard output are left out. The environment, standard input and standard output are parameters.
- CgiCore.RunCgi and CgiResponse.WriteResponseTo: the writer cannot fail, so the `InternalServerError` results of a failing `write_all` or `flush` are not modelled.
- CgiCore.RunCgi: the task is not really spawned. Concurrency, `tokio` and `JoinError` are replaced by the `fate` parameter. The panic context is returned instead of being logged, and the log text of the cancelled case ("task cancelled: ...") is not modelled.
- Regex compilation and matching are the `RegexEngine` parameter, as is the debug timing around the cache.
- JSON: serde's `Request::json`, `Response::json`, `ResponseBuilder::json` and `ResponseWrapper` are the `json` parameter or are folded into the handler function.
- Gzip: `decompress_gzip_body` is not part of this model; it is the `gunzip` parameter. `get_max_body_size` is not part of this model either; it is the `maxBodySize` parameter.
- `Response::ok`, `created`, `no_content`, `bad_request`, `unauthorized`, `forbidden`, `not_found` and `internal_server_error` are not separate members. Each is `NewResponse` with its fixed code. The CGI entry point's 404 and 500 are built with `TextResponse` directly.
- `RequestContext::keys` is left out: its iteration order is unspecified. Its key set is the domain of the `metadata` map.
- `Request::context` and `context_mut` return references and are left out; the context is the request's `context` field.
- `extract_env_var` is `Env.Var`.
- Http.MethodFromStr uses ASCII case mapping. Rust's `to_uppercase` in `Method::from_str` is Unicode-aware, so the few non-ASCII characters whose upper case is ASCII (for example 'ı' and 'ſ') are not modelled.
- Utils.PercentDecode: `String::from_utf8_lossy` is the model's `Utf8Lossy`, with the replacement-character rules of that function only as far as `text.dfy` writes them out.
- Cookies.WithExpires: the expiry is a preformatted date string. The chrono formatting of a `DateTime<Utc>` is not modelled.
- HashMap iteration order is an explicit enumeration parameter, and no proved property depends on it. It decides the relative order of ordinary header lines, and which of two keys differing only in case ("X-y" and "X-Y") wins when `run_cgi` lower-cases header keys. In `get_cgi_headers` the later variable in environment order wins, and the model follows that order.
- App.RunBridgeBuilder.AddHandler: `sort_unstable_by` leaves the order among equal '/' counts unspecified. The model puts the new handler after the handlers it ties with, one legal outcome. The contract promises only sortedness, the permutation and the length.
- Handlers.RouteHandler: `RouteHandler` and `AsyncRouteHandler` are one class with a `flavour` field. The async handler function is taken already awaited, so the two share their matching and gating code.
- Handlers.RouteHandler.AsHandler: the `dyn Handler` view matches without the cache. `Matches` proves that the cache never changes an answer.
- Builders.Get and the other plain builders call the deprecated constructor, which panics on an empty pattern, so they require a non-empty one.
- Errors: the shown `Error` enum has no `PayloadTooLarge` variant, but the CGI body reader returns one and the entry point catches it. The model adds it with status 413, so `Response::from_error` labels it "Error". Tests that expect lower-cased request header keys, CRLF-rejecting `with_header` and default security headers describe another revision. The model follows the shown code.
- The stale `src/cgi.rs` and `src/handler.rs`, the Lambda and Cloud Run adapters, the binaries, examples and sample handlers, and the feature guards in `src/lib.rs` are not part of this model.
- CgiResponse.WriteResponseTo uses the corrected cookie splitter (see Findings).
- CgiUtils.LowerHeaderName: cgi.rs:37 lower-cases with Unicode `to_lowercase`, the model with ASCII mapping only. A non-ASCII capital such as 'Ä' stays as it is, and the length clause does not hold for characters such as 'İ', whose lower case is two characters in Rust.
- CgiUtils.ExtractHeaders: its header names come from the ASCII LowerHeaderName, not Unicode `to_lowercase`.
- CgiUtils.LowerHeaderNames: the names it characterises are ASCII lower-cased, not Unicode lower-cased.
- ErrorLogging.VarLines: redacts with the corrected RedactValueForLog, so the panic of `&value[..200]` at error_logging.rs:98 is absent (see Findings).
- ErrorLogging.AppendVarLine: uses the corrected RedactValueForLog, where the source's slice can panic.
- ErrorLogging.AppendVarLines: its lines carry the corrected truncation, where the source can panic.
- ErrorLogging.PanicContextLines: built from the corrected truncation, so the report always exists.
- ErrorLogging.GatherCgiPanicContext: always returns a report. The source panics on a long plain value whose byte 200 falls inside a character, for example 67 '€' in HTTP_USER_AGENT.
- ErrorLogging.PresentLinesReport: its values are the corrected cut, where the source can panic.
- ErrorLogging.PresentLinesShape: its values are the corrected cut, where the source can panic.
- ErrorLogging.BasicVarReported: "reported exactly when set" is about the corrected cut. In the source a long multi-byte value panics instead.
- ErrorLogging.HeaderVarReported: the same gap for header variables such as HTTP_USER_AGENT.
- CgiCore.PanicContextOf: the report about the environment's method and path uses the corrected truncation, where the source can panic.
- CgiCore.RunTask: it gathers the panic context with the corrected truncation, so the second panic inside `gather_cgi_panic_context` is absent.
- CgiCore.LostTaskAnswered: in the source, a panicked task whose context gatherer panics gets no answer at all, because `run_cgi` panics before `write_response`. The model always answers with the 500.
- CgiCore.RunCgi: it writes the 500 and returns Ok where the source panics in `gather_cgi_panic_context` before writing anything. It splits Set-Cookie values with the corrected splitter.
- CgiCore.WriteResponse: it splits Set-Cookie values with the corrected splitter.
- CookieSplit.SplitSetCookieHeader: it computes the corrected split. CookieSplit.SplitAsWritten is the function as written.
- CgiResponse.CookieParts: it uses the corrected splitter.
- CgiResponse.PartitionHeaders: it splits Set-Cookie values with the corrected splitter.
- CgiResponse.ValidCookiesWritten: its parts are the corrected splitter's.
- CgiResponse.JoinedCookiesWritten: it holds for the corrected splitter. As written, "a=1; Expires=Tue, 31 Dec 2024 23:59:59 GMT" joined by ", " with "b=2" gives one line. The as-written case with each Expires closed by ';' is CookieSplit.SplitAsWrittenJoined.

## Findings

| source | as written | input that shows it | evidently intended | confidence | as-written member | corrected member |
|---|---|---|---|---|---|---|
| src/cgi/response.rs:130-137 | An Expires attribute lasts until the next ';', so a comma after the Expires date is read as part of the date. | "id=1; Expires=Tue, 31 Dec 2024 23:59:59 GMT" joined with ", " to "b=2" comes back as one part instead of two. | Only the comma inside the HTTP-date is protected; the comma that joins two cookies still splits. | not executed | CookieSplit.ExpiresSwallowsNextCookie | CookieSplit.SplitJoinedCookies |
| src/cgi/error_logging.rs:97-98 | A long value is cut with `&value[..200]`, which panics when byte 200 falls inside a multi-byte character. This happens inside the panic-context logger itself. | A non-sensitive variable, such as HTTP_USER_AGENT, holding 67 euro signs (201 bytes). | Cut at the last character boundary within 200 bytes. | not executed | ErrorLogging.EuroValuePanics | ErrorLogging.LongValueTruncated |
