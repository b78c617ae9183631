/** `split_set_cookie_header` (src/cgi/response.rs): the character scanner that splits a
    comma-joined `Set-Cookie` value back into cookies.

    The scanner keeps a buffer, an "inside an Expires attribute" flag and the list of parts found
    so far. A ';' ends an Expires attribute. An 'E' or 'e' followed by "xpires=" (any case)
    starts one. A comma inside an Expires attribute is content. Any other comma is a separator
    candidate: the blanks after it are dropped, and it splits only when an '=' comes before
    the next ';' or ','.

    As written, an Expires attribute lasts until the next ';'. So when a cookie ends with its
    Expires attribute, the comma that separates it from the next cookie is read as part of the
    date. The corrected scanner ends the attribute at its first comma. An HTTP-date
    ("Tue, 31 Dec 2024 23:59:59 GMT") holds exactly one comma. `Scan` takes the choice as
    `closeAtComma`. */
module CookieSplit {
  import opened Wrappers
  import opened Text

  const XPIRES := "xpires="

  /** The seven characters at the start of `t` spell "xpires=", compared after ASCII
      lower-casing. */
  predicate ExpiresNext(t: string)
  {
    |t| >= 7 && forall k | 0 <= k < 7 :: LowerChar(t[k]) == XPIRES[k]
  }

  /** `t` without its leading blanks (U+0020 only). */
  function DropSpaces(t: string): (r: string)
    ensures |r| <= |t| && r == t[|t| - |r|..]
    ensures r == [] || r[0] != ' '
    ensures forall i | 0 <= i < |t| - |r| :: t[i] == ' '
  {
    if t != [] && t[0] == ' ' then DropSpaces(t[1..]) else t
  }

  /** The look-ahead after a comma: an '=' comes before any ';' or ','. */
  predicate PairAhead(t: string)
  {
    t != [] && t[0] != ';' && t[0] != ',' && (t[0] == '=' || PairAhead(t[1..]))
  }

  /** Ending a part: the trimmed buffer is added when it is not empty. */
  function Flush(buf: string, parts: seq<string>): seq<string>
  {
    if Trim(buf) != "" then parts + [Trim(buf)] else parts
  }

  /** The scanner on the remaining input `t`, from the state (`buf`, `inExpires`, `parts`). */
  function Scan(t: string, buf: string, inExpires: bool, parts: seq<string>, closeAtComma: bool): seq<string>
    decreases |t|
  {
    if t == [] then Flush(buf, parts)
    else if t[0] == ';' then Scan(t[1..], buf + [';'], false, parts, closeAtComma)
    else if t[0] == ',' then
      if inExpires then Scan(t[1..], buf + [','], !closeAtComma, parts, closeAtComma)
      else
        var r := DropSpaces(t[1..]);
        if PairAhead(r) then Scan(r, "", false, Flush(buf, parts), closeAtComma)
        else Scan(r, buf + [','], false, parts, closeAtComma)
    else if t[0] == 'E' || t[0] == 'e' then
      Scan(t[1..], buf + [t[0]], inExpires || ExpiresNext(t[1..]), parts, closeAtComma)
    else Scan(t[1..], buf + [t[0]], inExpires, parts, closeAtComma)
  }

  predicate NonEmptyTrimmed(parts: seq<string>)
  {
    forall i | 0 <= i < |parts| :: parts[i] != "" && IsTrimmed(parts[i])
  }

  lemma FlushNonEmptyTrimmed(buf: string, parts: seq<string>)
    requires NonEmptyTrimmed(parts)
    ensures NonEmptyTrimmed(Flush(buf, parts))
  {
    var r := Trim(buf);
    assert IsTrimmed(r);
  }

  /** Every part is a trimmed buffer that was not empty. */
  lemma {:induction false} ScanNonEmptyTrimmed(t: string, buf: string, inExpires: bool, parts: seq<string>, closeAtComma: bool)
    requires NonEmptyTrimmed(parts)
    ensures NonEmptyTrimmed(Scan(t, buf, inExpires, parts, closeAtComma))
    decreases |t|
  {
    if t == [] {
      FlushNonEmptyTrimmed(buf, parts);
    } else if t[0] == ';' {
      ScanNonEmptyTrimmed(t[1..], buf + [';'], false, parts, closeAtComma);
    } else if t[0] == ',' {
      if inExpires {
        ScanNonEmptyTrimmed(t[1..], buf + [','], !closeAtComma, parts, closeAtComma);
      } else {
        var r := DropSpaces(t[1..]);
        FlushNonEmptyTrimmed(buf, parts);
        ScanNonEmptyTrimmed(r, "", false, Flush(buf, parts), closeAtComma);
        ScanNonEmptyTrimmed(r, buf + [','], false, parts, closeAtComma);
      }
    } else if t[0] == 'E' || t[0] == 'e' {
      ScanNonEmptyTrimmed(t[1..], buf + [t[0]], inExpires || ExpiresNext(t[1..]), parts, closeAtComma);
    } else {
      ScanNonEmptyTrimmed(t[1..], buf + [t[0]], inExpires, parts, closeAtComma);
    }
  }

  /** Every character of `s` occurs in `v`. */
  predicate CharsFrom(s: string, v: string)
  {
    forall i | 0 <= i < |s| :: s[i] in v
  }

  predicate PartsFrom(parts: seq<string>, v: string)
  {
    forall i | 0 <= i < |parts| :: CharsFrom(parts[i], v)
  }

  lemma FlushFrom(buf: string, parts: seq<string>, v: string)
    requires CharsFrom(buf, v) && PartsFrom(parts, v)
    ensures PartsFrom(Flush(buf, parts), v)
  {
    var r := Trim(buf);
    if r != "" {
      TrimFrom(buf, v);
      var ps := parts + [r];
      forall n | 0 <= n < |ps| ensures CharsFrom(ps[n], v) {
        if n < |parts| { assert ps[n] == parts[n]; } else { assert ps[n] == r; }
      }
      assert Flush(buf, parts) == ps;
    }
  }

  lemma TrimFrom(buf: string, v: string)
    requires CharsFrom(buf, v)
    ensures CharsFrom(Trim(buf), v)
  {
    var r := Trim(buf);
    var i, j :| 0 <= i <= j <= |buf| && r == buf[i..j];
    forall k | 0 <= k < |r| ensures r[k] in v { assert r[k] == buf[i + k]; }
  }

  /** The scanner copies characters of its input and adds none of its own, except the ',' it
      keeps, which is itself an input character. */
  lemma {:induction false} ScanCharsFrom(t: string, buf: string, inExpires: bool, parts: seq<string>, closeAtComma: bool, v: string)
    requires CharsFrom(t, v) && CharsFrom(buf, v) && PartsFrom(parts, v)
    ensures PartsFrom(Scan(t, buf, inExpires, parts, closeAtComma), v)
    decreases |t|
  {
    if t == [] {
      FlushFrom(buf, parts, v);
    } else {
      var c := t[0];
      assert c in v;
      assert CharsFrom(t[1..], v) by {
        forall k | 0 <= k < |t| - 1 ensures t[1..][k] in v { assert t[1..][k] == t[k + 1]; }
      }
      assert CharsFrom(buf + [c], v) by {
        forall k | 0 <= k < |buf| + 1 ensures (buf + [c])[k] in v {
          if k < |buf| { assert (buf + [c])[k] == buf[k]; }
        }
      }
      if c == ';' {
        ScanCharsFrom(t[1..], buf + [';'], false, parts, closeAtComma, v);
      } else if c == ',' {
        if inExpires {
          ScanCharsFrom(t[1..], buf + [','], !closeAtComma, parts, closeAtComma, v);
        } else {
          var r := DropSpaces(t[1..]);
          assert CharsFrom(r, v) by {
            forall k | 0 <= k < |r| ensures r[k] in v { assert r[k] == t[1..][|t| - 1 - |r| + k]; }
          }
          FlushFrom(buf, parts, v);
          ScanCharsFrom(r, "", false, Flush(buf, parts), closeAtComma, v);
          ScanCharsFrom(r, buf + [','], false, parts, closeAtComma, v);
        }
      } else if c == 'E' || c == 'e' {
        ScanCharsFrom(t[1..], buf + [c], inExpires || ExpiresNext(t[1..]), parts, closeAtComma, v);
      } else {
        ScanCharsFrom(t[1..], buf + [c], inExpires, parts, closeAtComma, v);
      }
    }
  }

  /** `split_set_cookie_header` as written: an Expires attribute lasts until the next ';'.
      Every part is non-empty and trimmed, and uses only characters of the value. */
  function SplitAsWritten(value: string): (parts: seq<string>)
    ensures NonEmptyTrimmed(parts)
    ensures PartsFrom(parts, value)
  {
    ScanNonEmptyTrimmed(value, "", false, [], false);
    ScanCharsFrom(value, "", false, [], false, value);
    Scan(value, "", false, [], false)
  }

  /** The corrected `split_set_cookie_header`: an Expires attribute also ends at the comma of
      its date. Every part is non-empty and trimmed, and uses only characters of the value. */
  function SplitSetCookie(value: string): (parts: seq<string>)
    ensures NonEmptyTrimmed(parts)
    ensures PartsFrom(parts, value)
  {
    ScanNonEmptyTrimmed(value, "", false, [], true);
    ScanCharsFrom(value, "", false, [], true, value);
    Scan(value, "", false, [], true)
  }

  // ---------------------------------------------------------------------------
  // The scanning loop

  /** The inner `while let Some(' ') = chars.peek()` loop: the index after the blanks. */
  method SkipSpaces(value: string, i: nat) returns (j: nat)
    requires i <= |value|
    ensures i <= j <= |value| && value[j..] == DropSpaces(value[i..])
  {
    j := i;
    while j < |value| && value[j] == ' '
      invariant i <= j <= |value|
      invariant DropSpaces(value[j..]) == DropSpaces(value[i..])
    {
      assert value[j..][1..] == value[j + 1..];
      j := j + 1;
    }
  }

  /** The look-ahead loop on a clone of the iterator: is there an '=' before the next ';' or
      ','? */
  method SeesPairAhead(value: string, i: nat) returns (seen: bool)
    requires i <= |value|
    ensures seen == PairAhead(value[i..])
  {
    seen := false;
    var k := i;
    while k < |value|
      invariant i <= k <= |value|
      invariant PairAhead(value[k..]) == PairAhead(value[i..])
    {
      var c := value[k];
      if c == ';' || c == ',' {
        break;
      }
      if c == '=' {
        seen := true;
        break;
      }
      assert value[k..][1..] == value[k + 1..];
      k := k + 1;
    }
  }

  /** The `for expected in ['x','p','i','r','e','s','=']` loop on a clone of the iterator. */
  method MatchesExpires(value: string, i: nat) returns (matches: bool)
    requires i <= |value|
    ensures matches == ExpiresNext(value[i..])
  {
    matches := true;
    var n := 0;
    while n < 7
      invariant 0 <= n <= 7
      invariant matches ==> i + n <= |value| && forall m | 0 <= m < n :: LowerChar(value[i + m]) == XPIRES[m]
      invariant !matches ==> !ExpiresNext(value[i..])
    {
      if i + n < |value| {
        if LowerChar(value[i + n]) != XPIRES[n] {
          matches := false;
          break;
        }
      } else {
        matches := false;
        break;
      }
      n := n + 1;
    }
    if matches {
      assert forall m | 0 <= m < 7 :: value[i..][m] == value[i + m];
    }
  }

  /** `split_set_cookie_header`, with the correction that a comma inside an Expires attribute
      also ends it. */
  method SplitSetCookieHeader(value: string) returns (result: seq<string>)
    ensures result == SplitSetCookie(value)
  {
    result := [];
    var buf := "";
    var inExpires := false;
    var i := 0;
    while i < |value|
      invariant 0 <= i <= |value|
      invariant Scan(value[i..], buf, inExpires, result, true) == SplitSetCookie(value)
      decreases |value| - i
    {
      var ch := value[i];
      assert value[i..][0] == ch && value[i..][1..] == value[i + 1..];
      i := i + 1;
      if ch == ';' {
        inExpires := false;
        buf := buf + [ch];
      } else if ch == ',' {
        if inExpires {
          buf := buf + [ch];
          inExpires := false;
        } else {
          i := SkipSpaces(value, i);
          var seen := SeesPairAhead(value, i);
          if seen {
            var part := Trim(buf);
            if part != "" {
              result := result + [part];
            }
            buf := "";
            continue;
          } else {
            buf := buf + [','];
          }
        }
      } else if ch == 'E' || ch == 'e' {
        var matches := MatchesExpires(value, i);
        if matches {
          inExpires := true;
        }
        buf := buf + [ch];
      } else {
        buf := buf + [ch];
      }
    }
    var tail := Trim(buf);
    if tail != "" {
      result := result + [tail];
    }
  }

  // ---------------------------------------------------------------------------
  // Scanning one cookie

  /** The scanner's Expires flag after reading `p` alone from flag `inExpires`, or None when
      some comma of `p` is read outside an Expires attribute (and so could split). */
  function Track(p: string, inExpires: bool, closeAtComma: bool): Option<bool>
    decreases |p|
  {
    if p == [] then Some(inExpires)
    else if p[0] == ';' then Track(p[1..], false, closeAtComma)
    else if p[0] == ',' then (if inExpires then Track(p[1..], !closeAtComma, closeAtComma) else None)
    else if p[0] == 'E' || p[0] == 'e' then Track(p[1..], inExpires || ExpiresNext(p[1..]), closeAtComma)
    else Track(p[1..], inExpires, closeAtComma)
  }

  /** What follows cannot complete an "xpires=" that started before it. */
  predicate Boundary(r: string)
  {
    r == [] || LowerChar(r[0]) !in XPIRES
  }

  lemma ExpiresNextConcat(a: string, r: string)
    requires Boundary(r)
    ensures ExpiresNext(a + r) == ExpiresNext(a)
  {
    if |a| >= 7 {
      assert forall k | 0 <= k < 7 :: (a + r)[k] == a[k];
    } else if |a + r| >= 7 {
      assert (a + r)[|a|] == r[0];
      assert XPIRES[|a|] in XPIRES;
    }
  }

  /** Reading a cookie `p` whose commas all lie inside Expires attributes only appends it to the
      buffer, provided what follows is a boundary. */
  lemma {:induction false} Consume(p: string, r: string, buf: string, inExpires: bool, parts: seq<string>, closeAtComma: bool)
    requires Track(p, inExpires, closeAtComma).Some? && Boundary(r)
    ensures Scan(p + r, buf, inExpires, parts, closeAtComma)
            == Scan(r, buf + p, Track(p, inExpires, closeAtComma).value, parts, closeAtComma)
    decreases |p|
  {
    if p == [] {
      assert p + r == r && buf + p == buf;
    } else {
      var c := p[0];
      var t := p + r;
      assert t[0] == c && t[1..] == p[1..] + r;
      assert buf + [c] + p[1..] == buf + p;
      if c == ';' {
        Consume(p[1..], r, buf + [c], false, parts, closeAtComma);
      } else if c == ',' {
        Consume(p[1..], r, buf + [c], !closeAtComma, parts, closeAtComma);
      } else if c == 'E' || c == 'e' {
        ExpiresNextConcat(p[1..], r);
        Consume(p[1..], r, buf + [c], inExpires || ExpiresNext(p[1..]), parts, closeAtComma);
      } else {
        Consume(p[1..], r, buf + [c], inExpires, parts, closeAtComma);
      }
    }
  }

  predicate NoEs(a: string)
  {
    'E' !in a && 'e' !in a
  }

  /** Tracking is compositional where no "xpires=" can straddle the seam: after text without
      'E' or 'e', or before a boundary. */
  lemma {:induction false} TrackConcat(a: string, b: string, inExpires: bool, closeAtComma: bool)
    requires Track(a, inExpires, closeAtComma).Some? && (Boundary(b) || NoEs(a))
    ensures Track(a + b, inExpires, closeAtComma) == Track(b, Track(a, inExpires, closeAtComma).value, closeAtComma)
    decreases |a|
  {
    if a == [] {
      assert a + b == b;
    } else {
      var c := a[0];
      assert (a + b)[0] == c && (a + b)[1..] == a[1..] + b;
      assert NoEs(a) ==> NoEs(a[1..]) by {
        if NoEs(a) { forall x | x in a[1..] ensures x in a { } }
      }
      if c == ';' {
        TrackConcat(a[1..], b, false, closeAtComma);
      } else if c == ',' {
        TrackConcat(a[1..], b, !closeAtComma, closeAtComma);
      } else if c == 'E' || c == 'e' {
        assert a[0] in a;
        ExpiresNextConcat(a[1..], b);
        TrackConcat(a[1..], b, inExpires || ExpiresNext(a[1..]), closeAtComma);
      } else {
        TrackConcat(a[1..], b, inExpires, closeAtComma);
      }
    }
  }

  /** Text without ',', ';', 'E' or 'e' never changes the flag. */
  lemma {:induction false} TrackPlain(p: string, inExpires: bool, closeAtComma: bool)
    requires ',' !in p && ';' !in p && 'E' !in p && 'e' !in p
    ensures Track(p, inExpires, closeAtComma) == Some(inExpires)
    decreases |p|
  {
    if p != [] {
      assert p[0] in p;
      TrackPlain(p[1..], inExpires, closeAtComma);
    }
  }

  /** Inside an Expires attribute, text without ',' or ';' keeps the flag set. */
  lemma {:induction false} TrackOpen(p: string, closeAtComma: bool)
    requires ',' !in p && ';' !in p
    ensures Track(p, true, closeAtComma) == Some(true)
    decreases |p|
  {
    if p != [] {
      assert p[0] in p;
      TrackOpen(p[1..], closeAtComma);
    }
  }

  // ---------------------------------------------------------------------------
  // Round trip

  /** A cookie that survives joining: non-empty, trimmed, starting with a name=value pair, with
      every comma inside an Expires attribute and no Expires attribute left open at its end. */
  predicate CookiePart(p: string, closeAtComma: bool)
  {
    p != "" && IsTrimmed(p) && PairAhead(p) && Track(p, false, closeAtComma) == Some(false)
  }

  lemma {:induction false} PairAheadExtend(a: string, b: string)
    requires PairAhead(a)
    ensures PairAhead(a + b)
    decreases |a|
  {
    assert (a + b)[0] == a[0];
    if a[0] != '=' {
      assert (a + b)[1..] == a[1..] + b;
      PairAheadExtend(a[1..], b);
    }
  }

  lemma JoinStart(ps: seq<string>, sep: string)
    requires |ps| >= 1
    ensures StartsWith(Join(ps, sep), ps[0])
  {
    if |ps| > 1 {
      assert Join(ps, sep) == ps[0] + (sep + Join(ps[1..], sep));
    }
  }

  /** A comma outside an Expires attribute, followed by blanks and a name=value pair, ends
      the buffered cookie. */
  lemma CommaSplits(p: string, j: string, parts: seq<string>, closeAtComma: bool)
    requires Trim(p) == p && p != ""
    requires j != [] && j[0] != ' ' && PairAhead(j)
    ensures Scan(", " + j, p, false, parts, closeAtComma) == Scan(j, "", false, parts + [p], closeAtComma)
  {
    var t := ", " + j;
    assert t[0] == ',' && t[1..] == " " + j;
    var u := " " + j;
    assert u[0] == ' ' && u[1..] == j;
  }

  /** The joined rest of a list of cookies starts with the first of them. */
  lemma JoinedRest(rest: seq<string>, closeAtComma: bool)
    requires |rest| >= 1 && CookiePart(rest[0], closeAtComma)
    ensures var j := Join(rest, ", "); j != [] && j[0] != ' ' && PairAhead(j)
  {
    var j := Join(rest, ", ");
    JoinStart(rest, ", ");
    assert j[0] == rest[0][0];
    assert !IsWhitespace(j[0]);
    assert j == rest[0] + j[|rest[0]|..];
    PairAheadExtend(rest[0], j[|rest[0]|..]);
  }

  /** A single cookie scans to itself. */
  lemma ScanOne(p: string, parts: seq<string>, closeAtComma: bool)
    requires CookiePart(p, closeAtComma)
    ensures Scan(p, "", false, parts, closeAtComma) == parts + [p]
  {
    TrimTrimmed(p);
    Consume(p, [], "", false, parts, closeAtComma);
    assert p + [] == p && "" + p == p;
  }

  /** A cookie followed by ", " and a name=value pair is split off whole. */
  lemma ScanFirst(p: string, j: string, parts: seq<string>, closeAtComma: bool)
    requires CookiePart(p, closeAtComma)
    requires j != [] && j[0] != ' ' && PairAhead(j)
    ensures Scan(p + (", " + j), "", false, parts, closeAtComma) == Scan(j, "", false, parts + [p], closeAtComma)
  {
    TrimTrimmed(p);
    assert Boundary(", " + j) by { assert (", " + j)[0] == ','; }
    Consume(p, ", " + j, "", false, parts, closeAtComma);
    assert "" + p == p;
    CommaSplits(p, j, parts, closeAtComma);
  }

  lemma {:induction false} ScanJoin(ps: seq<string>, parts: seq<string>, closeAtComma: bool)
    requires |ps| >= 1
    requires forall i | 0 <= i < |ps| :: CookiePart(ps[i], closeAtComma)
    ensures Scan(Join(ps, ", "), "", false, parts, closeAtComma) == parts + ps
    decreases |ps|
  {
    if |ps| == 1 {
      ScanOne(ps[0], parts, closeAtComma);
    } else {
      var p, rest := ps[0], ps[1..];
      var j := Join(rest, ", ");
      assert Join(ps, ", ") == p + (", " + j);
      assert CookiePart(p, closeAtComma) && CookiePart(rest[0], closeAtComma);
      JoinedRest(rest, closeAtComma);
      ScanFirst(p, j, parts, closeAtComma);
      ScanJoin(rest, parts + [p], closeAtComma);
      assert parts + [p] + rest == parts + ps;
    }
  }

  /** The corrected splitter inverts joining cookies with ", ". */
  lemma SplitJoinedCookies(ps: seq<string>)
    requires |ps| >= 1
    requires forall i | 0 <= i < |ps| :: CookiePart(ps[i], true)
    ensures SplitSetCookie(Join(ps, ", ")) == ps
  {
    ScanJoin(ps, [], true);
  }

  /** The splitter as written inverts joining for cookies in which every Expires attribute is
      closed by a ';'. */
  lemma SplitAsWrittenJoined(ps: seq<string>)
    requires |ps| >= 1
    requires forall i | 0 <= i < |ps| :: CookiePart(ps[i], false)
    ensures SplitAsWritten(Join(ps, ", ")) == ps
  {
    ScanJoin(ps, [], false);
  }

  // ---------------------------------------------------------------------------
  // An Expires attribute at the end of a cookie

  /** As written, a comma inside an Expires attribute is kept with the blank after it, and the
      attribute stays open. */
  lemma CommaInExpires(p: string, q: string, parts: seq<string>)
    ensures Scan(", " + q, p, true, parts, false) == Scan(q, p + ", ", true, parts, false)
  {
    var t := ", " + q;
    assert t[0] == ',' && t[1..] == " " + q;
    var u := " " + q;
    assert u[0] == ' ' && u[1..] == q;
    assert p + [','] + [' '] == p + ", ";
  }

  /** As written, a cookie that ends inside its Expires attribute swallows the comma after it:
      the next cookie becomes part of the date, and one part comes back for two cookies. */
  lemma ExpiresSwallowsNextCookie(p: string, q: string)
    requires p != "" && IsTrimmed(p) && Track(p, false, false) == Some(true)
    requires q != "" && IsTrimmed(q) && Track(q, true, false).Some?
    ensures SplitAsWritten(p + ", " + q) == [p + ", " + q]
  {
    var joined := p + ", " + q;
    assert joined == p + (", " + q);
    assert Boundary(", " + q) by { assert (", " + q)[0] == ','; }
    Consume(p, ", " + q, "", false, [], false);
    assert "" + p == p;
    CommaInExpires(p, q, []);
    Consume(q, [], p + ", ", true, [], false);
    assert q + [] == q;
    assert IsTrimmed(joined) by {
      assert joined[0] == p[0] && joined[|joined| - 1] == q[|q| - 1];
    }
    TrimTrimmed(joined);
  }

  // The example cookie "a=1; Expires=Tue, 31 Dec 2024 23:59:59 GMT", written in the pieces its
  // proof reads one at a time.
  const COOKIE_HEAD := "a=1; "
  const EXPIRES_WEEKDAY := "Expires=Tue"
  const DATE_MIDDLE := " 31 D"
  const DATE_TAIL := "c 2024 23:59:59 GMT"
  const DATE_REST := "e" + DATE_TAIL
  const EXPIRES_COOKIE := COOKIE_HEAD + EXPIRES_WEEKDAY + "," + (DATE_MIDDLE + DATE_REST)
  const NEXT_COOKIE := "b=2"

  lemma HeadTrack(closeAtComma: bool)
    ensures Track(COOKIE_HEAD, false, closeAtComma) == Some(false) && NoEs(COOKIE_HEAD)
    ensures PairAhead(COOKIE_HEAD)
  {
    if closeAtComma {
      assert Track(COOKIE_HEAD, false, true) == Some(false);
    } else {
      assert Track(COOKIE_HEAD, false, false) == Some(false);
    }
  }

  lemma WeekdayTrack(closeAtComma: bool)
    ensures Track(EXPIRES_WEEKDAY, false, closeAtComma) == Some(true)
  {
    var w := EXPIRES_WEEKDAY;
    assert w[0] == 'E';
    assert w[1..] == "xpires=Tue";
    assert ExpiresNext("xpires=Tue");
    TrackOpen("xpires=Tue", closeAtComma);
  }

  lemma CommaTrack(closeAtComma: bool)
    ensures Track(",", true, closeAtComma) == Some(!closeAtComma)
    ensures Boundary(",")
  {
    assert ","[0] == ',' && ","[1..] == "";
  }

  lemma DateMiddlePlain()
    ensures NoEs(DATE_MIDDLE) && ',' !in DATE_MIDDLE && ';' !in DATE_MIDDLE && DATE_MIDDLE[0] == ' '
  {
  }

  lemma DateTailPlain()
    ensures NoEs(DATE_TAIL) && ',' !in DATE_TAIL && ';' !in DATE_TAIL && !ExpiresNext(DATE_TAIL)
  {
    assert LowerChar(DATE_TAIL[0]) != XPIRES[0];
  }

  lemma DateTrack(closeAtComma: bool)
    ensures Track(DATE_MIDDLE + DATE_REST, !closeAtComma, closeAtComma) == Some(!closeAtComma)
    ensures Boundary(DATE_MIDDLE + DATE_REST)
  {
    DateMiddlePlain();
    DateTailPlain();
    assert (DATE_MIDDLE + DATE_REST)[0] == ' ';
    TrackPlain(DATE_MIDDLE, !closeAtComma, closeAtComma);
    TrackConcat(DATE_MIDDLE, DATE_REST, !closeAtComma, closeAtComma);
    assert DATE_REST[0] == 'e' && DATE_REST[1..] == DATE_TAIL;
    TrackPlain(DATE_TAIL, !closeAtComma, closeAtComma);
  }

  /** The example cookie scanned alone: as written it ends inside its Expires attribute,
      corrected it does not. */
  lemma ExpiresCookieTrack(closeAtComma: bool)
    ensures Track(EXPIRES_COOKIE, false, closeAtComma) == Some(!closeAtComma)
  {
    HeadTrack(closeAtComma);
    WeekdayTrack(closeAtComma);
    CommaTrack(closeAtComma);
    DateTrack(closeAtComma);
    TrackConcat(COOKIE_HEAD, EXPIRES_WEEKDAY, false, closeAtComma);
    TrackConcat(COOKIE_HEAD + EXPIRES_WEEKDAY, ",", false, closeAtComma);
    TrackConcat(COOKIE_HEAD + EXPIRES_WEEKDAY + ",", DATE_MIDDLE + DATE_REST, false, closeAtComma);
  }

  lemma ExampleCookiesShape()
    ensures EXPIRES_COOKIE != "" && IsTrimmed(EXPIRES_COOKIE) && PairAhead(EXPIRES_COOKIE)
    ensures NEXT_COOKIE != "" && IsTrimmed(NEXT_COOKIE) && PairAhead(NEXT_COOKIE)
    ensures ',' !in NEXT_COOKIE && ';' !in NEXT_COOKIE && NoEs(NEXT_COOKIE)
  {
    HeadTrack(false);
    var tail := EXPIRES_WEEKDAY + "," + (DATE_MIDDLE + DATE_REST);
    assert EXPIRES_COOKIE == COOKIE_HEAD + tail;
    PairAheadExtend(COOKIE_HEAD, tail);
    assert EXPIRES_COOKIE[0] == 'a';
    assert EXPIRES_COOKIE[|EXPIRES_COOKIE| - 1] == DATE_REST[|DATE_REST| - 1] == 'T';
  }

  /** The concrete case: a cookie whose last attribute is its Expires date, joined with a second
      cookie. As written the two come back as one part; corrected they come back as two. */
  lemma ExpiresCookieSplit()
    ensures SplitAsWritten(EXPIRES_COOKIE + ", " + NEXT_COOKIE) == [EXPIRES_COOKIE + ", " + NEXT_COOKIE]
    ensures SplitSetCookie(EXPIRES_COOKIE + ", " + NEXT_COOKIE) == [EXPIRES_COOKIE, NEXT_COOKIE]
  {
    ExpiresCookieTrack(false);
    ExpiresCookieTrack(true);
    ExampleCookiesShape();
    TrackPlain(NEXT_COOKIE, true, false);
    TrackPlain(NEXT_COOKIE, false, true);
    ExpiresSwallowsNextCookie(EXPIRES_COOKIE, NEXT_COOKIE);
    assert Join([EXPIRES_COOKIE, NEXT_COOKIE], ", ") == EXPIRES_COOKIE + ", " + NEXT_COOKIE;
    SplitJoinedCookies([EXPIRES_COOKIE, NEXT_COOKIE]);
  }
}
