/** HTTP cookies and their `Set-Cookie` serialisation (src/common/cookie.rs). The Expires date is
    held as the text chrono would render for it ("Tue, 31 Dec 2024 23:59:59 GMT"); Max-Age is a
    `std::time::Duration` of whole seconds plus nanoseconds. */
module Cookies {
  import opened Wrappers
  import opened Text

  datatype SameSite = Strict | Lax | None

  /** `impl Display for SameSite`. */
  function SameSiteName(s: SameSite): (r: string)
    ensures r in {"Strict", "Lax", "None"}
    ensures ';' !in r
  {
    match s
    case Strict => "Strict"
    case Lax => "Lax"
    case None => "None"
  }

  lemma SameSiteNameInjective(a: SameSite, b: SameSite)
    requires SameSiteName(a) == SameSiteName(b)
    ensures a == b
  {
  }

  datatype Duration = Duration(secs: nat, nanos: nat)

  datatype Cookie = Cookie(
    name: string,
    value: string,
    path: Option<string>,
    domain: Option<string>,
    expires: Option<string>,
    maxAge: Option<Duration>,
    secure: bool,
    httpOnly: bool,
    sameSite: Option<SameSite>)

  /** `Cookie::new`: only name and value are set. */
  function NewCookie(name: string, value: string): (c: Cookie)
    ensures c.name == name && c.value == value
    ensures c.path.None? && c.domain.None? && c.expires.None? && c.maxAge.None? && c.sameSite.None?
    ensures !c.secure && !c.httpOnly
  {
    Cookie(name, value, Option.None, Option.None, Option.None, Option.None, false, false, Option.None)
  }

  // Each setter changes its own field and leaves every other field as it was.

  function WithPath(c: Cookie, path: string): (r: Cookie)
    ensures r.path == Some(path) && r.(path := c.path) == c
  {
    c.(path := Some(path))
  }

  function WithDomain(c: Cookie, domain: string): (r: Cookie)
    ensures r.domain == Some(domain) && r.(domain := c.domain) == c
  {
    c.(domain := Some(domain))
  }

  function WithExpires(c: Cookie, expires: string): (r: Cookie)
    ensures r.expires == Some(expires) && r.(expires := c.expires) == c
  {
    c.(expires := Some(expires))
  }

  function WithMaxAge(c: Cookie, maxAge: Duration): (r: Cookie)
    ensures r.maxAge == Some(maxAge) && r.(maxAge := c.maxAge) == c
  {
    c.(maxAge := Some(maxAge))
  }

  function Secure(c: Cookie, secure: bool): (r: Cookie)
    ensures r.secure == secure && r.(secure := c.secure) == c
  {
    c.(secure := secure)
  }

  function HttpOnly(c: Cookie, httpOnly: bool): (r: Cookie)
    ensures r.httpOnly == httpOnly && r.(httpOnly := c.httpOnly) == c
  {
    c.(httpOnly := httpOnly)
  }

  function WithSameSite(c: Cookie, sameSite: SameSite): (r: Cookie)
    ensures r.sameSite == Some(sameSite) && r.(sameSite := c.sameSite) == c
  {
    c.(sameSite := Some(sameSite))
  }

  /** The text of one optional attribute, or nothing when it is unset. */
  function Opt(present: bool, text: string): seq<string>
  {
    if present then [text] else []
  }

  /** The attributes a cookie carries, in the order they are serialised, each without its
      "; " separator. */
  function Attributes(c: Cookie): (r: seq<string>)
    ensures |r| <= 7
  {
    Opt(c.path.Some?, "Path=" + c.path.GetOr(""))
    + Opt(c.domain.Some?, "Domain=" + c.domain.GetOr(""))
    + Opt(c.expires.Some?, "Expires=" + c.expires.GetOr(""))
    + Opt(c.maxAge.Some?, "Max-Age=" + NatToString(if c.maxAge.Some? then c.maxAge.value.secs else 0))
    + Opt(c.secure, "Secure")
    + Opt(c.httpOnly, "HttpOnly")
    + Opt(c.sameSite.Some?, "SameSite=" + SameSiteName(if c.sameSite.Some? then c.sameSite.value else Strict))
  }

  /** Each attribute preceded by "; ". */
  function Suffixes(attrs: seq<string>): string
  {
    if attrs == [] then "" else "; " + attrs[0] + Suffixes(attrs[1..])
  }

  /** `to_header_value`: "name=value" followed by the set attributes, each introduced by "; ",
      in the fixed order Path, Domain, Expires, Max-Age, Secure, HttpOnly, SameSite. */
  function ToHeaderValue(c: Cookie): (r: string)
    ensures StartsWith(r, c.name + "=" + c.value)
    ensures Attributes(c) == [] ==> r == c.name + "=" + c.value
  {
    var head := c.name + "=" + c.value;
    assert (head + Suffixes(Attributes(c)))[..|head|] == head;
    head + Suffixes(Attributes(c))
  }

  /** A fresh cookie serialises to exactly "name=value". */
  lemma FreshCookieHeader(name: string, value: string)
    ensures ToHeaderValue(NewCookie(name, value)) == name + "=" + value
  {
    assert Attributes(NewCookie(name, value)) == [];
  }

  /** None of the free-text fields contains ';'. */
  predicate SemicolonFree(c: Cookie)
  {
    && ';' !in c.name && ';' !in c.value
    && (c.path.Some? ==> ';' !in c.path.value)
    && (c.domain.Some? ==> ';' !in c.domain.value)
    && (c.expires.Some? ==> ';' !in c.expires.value)
  }

  /** Each attribute with the blank that follows its ';' in the serialised form. */
  function Spaced(attrs: seq<string>): (r: seq<string>)
    ensures |r| == |attrs|
  {
    if attrs == [] then [] else [" " + attrs[0]] + Spaced(attrs[1..])
  }

  predicate NoSemicolons(xs: seq<string>)
  {
    forall i | 0 <= i < |xs| :: ';' !in xs[i]
  }

  lemma {:induction false} SplitSuffixes(head: string, attrs: seq<string>)
    requires ';' !in head
    requires NoSemicolons(attrs)
    ensures Split(head + Suffixes(attrs), ';') == [head] + Spaced(attrs)
    decreases |attrs|
  {
    if attrs == [] {
      assert head + Suffixes(attrs) == head;
    } else {
      var next := " " + attrs[0];
      var rest := attrs[1..];
      assert head + Suffixes(attrs) == head + [';'] + (next + Suffixes(rest));
      SplitAfterPrefix(head, next + Suffixes(rest), ';');
      assert NoSemicolons(rest) by {
        forall i | 0 <= i < |rest| ensures ';' !in rest[i] { assert rest[i] == attrs[i + 1]; }
      }
      assert ';' !in attrs[0];
      SplitSuffixes(next, rest);
    }
  }

  lemma NoSemicolonsConcat(a: seq<string>, b: seq<string>)
    requires NoSemicolons(a) && NoSemicolons(b)
    ensures NoSemicolons(a + b)
  {
    forall i | 0 <= i < |a + b| ensures ';' !in (a + b)[i] {
      if i >= |a| { assert (a + b)[i] == b[i - |a|]; }
    }
  }

  lemma OptNoSemicolons(present: bool, name: string, x: string)
    requires ';' !in name && ';' !in x
    ensures NoSemicolons(Opt(present, name + x))
  {
    assert ';' !in name + x;
  }

  /** The attributes that carry free text or a number. */
  lemma ValueAttributes(c: Cookie)
    requires SemicolonFree(c)
    ensures NoSemicolons(Opt(c.path.Some?, "Path=" + c.path.GetOr(""))
                         + Opt(c.domain.Some?, "Domain=" + c.domain.GetOr(""))
                         + Opt(c.expires.Some?, "Expires=" + c.expires.GetOr(""))
                         + Opt(c.maxAge.Some?, "Max-Age=" + NatToString(if c.maxAge.Some? then c.maxAge.value.secs else 0)))
  {
    var secs := if c.maxAge.Some? then c.maxAge.value.secs else 0;
    NatToStringOnlyDigits(secs, ';');
    var p1 := Opt(c.path.Some?, "Path=" + c.path.GetOr(""));
    var p2 := Opt(c.domain.Some?, "Domain=" + c.domain.GetOr(""));
    var p3 := Opt(c.expires.Some?, "Expires=" + c.expires.GetOr(""));
    var p4 := Opt(c.maxAge.Some?, "Max-Age=" + NatToString(secs));
    OptNoSemicolons(c.path.Some?, "Path=", c.path.GetOr(""));
    OptNoSemicolons(c.domain.Some?, "Domain=", c.domain.GetOr(""));
    OptNoSemicolons(c.expires.Some?, "Expires=", c.expires.GetOr(""));
    OptNoSemicolons(c.maxAge.Some?, "Max-Age=", NatToString(secs));
    NoSemicolonsConcat(p1, p2);
    NoSemicolonsConcat(p1 + p2, p3);
    NoSemicolonsConcat(p1 + p2 + p3, p4);
  }

  lemma SemicolonFreeAttributes(c: Cookie)
    requires SemicolonFree(c)
    ensures NoSemicolons(Attributes(c))
  {
    ValueAttributes(c);
    var head := Opt(c.path.Some?, "Path=" + c.path.GetOr(""))
                + Opt(c.domain.Some?, "Domain=" + c.domain.GetOr(""))
                + Opt(c.expires.Some?, "Expires=" + c.expires.GetOr(""))
                + Opt(c.maxAge.Some?, "Max-Age=" + NatToString(if c.maxAge.Some? then c.maxAge.value.secs else 0));
    var p5 := Opt(c.secure, "Secure");
    var p6 := Opt(c.httpOnly, "HttpOnly");
    var p7 := Opt(c.sameSite.Some?, "SameSite=" + SameSiteName(if c.sameSite.Some? then c.sameSite.value else Strict));
    OptNoSemicolons(c.secure, "Secure", "");
    OptNoSemicolons(c.httpOnly, "HttpOnly", "");
    OptNoSemicolons(c.sameSite.Some?, "SameSite=", SameSiteName(if c.sameSite.Some? then c.sameSite.value else Strict));
    assert "Secure" + "" == "Secure" && "HttpOnly" + "" == "HttpOnly";
    NoSemicolonsConcat(head, p5);
    NoSemicolonsConcat(head + p5, p6);
    NoSemicolonsConcat(head + p5 + p6, p7);
  }

  /** Splitting a serialised cookie at ';' recovers "name=value" and then each attribute, with the
      blank that followed its ';', provided no free-text field contains a ';'. */
  lemma HeaderFields(c: Cookie)
    requires SemicolonFree(c)
    ensures Split(ToHeaderValue(c), ';') == [c.name + "=" + c.value] + Spaced(Attributes(c))
  {
    SemicolonFreeAttributes(c);
    assert ';' !in c.name + "=" + c.value;
    SplitSuffixes(c.name + "=" + c.value, Attributes(c));
  }
}
