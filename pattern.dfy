/** `ensure_safe_pattern` (src/handler/pattern.rs): every route pattern is anchored at both ends
    before it is stored, so that a route can never match a path by a substring. */
module Pattern {
  import opened Wrappers
  import opened Text
  import Errors

  const EMPTY_PATTERN: string := "Empty regex pattern is not allowed"

  /** `str::trim_start_matches(c)`: `s` without its leading run of `c`. */
  function TrimStartMatches(s: string, c: char): (r: string)
    ensures |r| <= |s| && r == s[|s| - |r|..]
    ensures r == [] || r[0] != c
    ensures forall i | 0 <= i < |s| - |r| :: s[i] == c
  {
    if s != [] && s[0] == c then TrimStartMatches(s[1..], c) else s
  }

  /** `str::trim_end_matches(c)`: `s` without its trailing run of `c`. */
  function TrimEndMatches(s: string, c: char): (r: string)
    ensures |r| <= |s| && r == s[..|r|]
    ensures r == [] || r[|r| - 1] != c
    ensures forall i | |r| <= i < |s| :: s[i] == c
  {
    if s != [] && s[|s| - 1] == c then TrimEndMatches(s[..|s| - 1], c) else s
  }

  /** Starts with '^' and ends with '$'. */
  predicate Anchored(p: string)
  {
    StartsWith(p, "^") && EndsWith(p, "$")
  }

  /** The pattern between its anchors: every leading '^' and then every trailing '$' removed. */
  function Stripped(p: string): string
  {
    TrimEndMatches(TrimStartMatches(p, '^'), '$')
  }

  /** `ensure_safe_pattern`: the empty pattern is refused; every accepted pattern comes back
      anchored at both ends. */
  function EnsureSafePattern(pattern: string): (r: Result<string, Errors.Error>)
    ensures r.Err? <==> pattern == []
    ensures r.Err? ==> r.error == Errors.InvalidRequestBody(EMPTY_PATTERN)
    ensures r.Ok? ==> Anchored(r.value)
  {
    if pattern == [] then Err(Errors.InvalidRequestBody(EMPTY_PATTERN))
    else if !(StartsWith(pattern, "^") && EndsWith(pattern, "$")) then
      var safe := "^" + Stripped(pattern) + "$";
      assert safe[..1] == "^" && safe[|safe| - 1..] == "$";
      Ok(safe)
    else Ok(pattern)
  }

  /** A pattern already anchored at both ends is stored as it is. */
  lemma AnchoredKept(p: string)
    requires Anchored(p)
    ensures EnsureSafePattern(p) == Ok(p)
  {
  }

  /** `c` repeated `n` times. */
  function Repeat(c: char, n: nat): (r: string)
    ensures |r| == n && forall i | 0 <= i < n :: r[i] == c
  {
    seq(n, i => c)
  }

  lemma LeadingRun(s: string, c: char)
    ensures s == Repeat(c, |s| - |TrimStartMatches(s, c)|) + TrimStartMatches(s, c)
  {
    var r := TrimStartMatches(s, c);
    assert s[..|s| - |r|] == Repeat(c, |s| - |r|);
    assert s == s[..|s| - |r|] + r;
  }

  lemma TrailingRun(s: string, c: char)
    ensures s == TrimEndMatches(s, c) + Repeat(c, |s| - |TrimEndMatches(s, c)|)
  {
    var r := TrimEndMatches(s, c);
    assert s[|r|..] == Repeat(c, |s| - |r|);
    assert s == r + s[|r|..];
  }

  lemma ConcatAssoc(a: string, b: string, c: string)
    ensures a + (b + c) == a + b + c
  {
  }

  /** The stripped core is what is left of `p` once some leading '^' and some trailing '$' are
      cut off. */
  lemma StrippedShape(p: string) returns (lead: nat, trail: nat)
    ensures p == Repeat('^', lead) + Stripped(p) + Repeat('$', trail)
  {
    var t := TrimStartMatches(p, '^');
    var core := TrimEndMatches(t, '$');
    lead := |p| - |t|;
    trail := |t| - |core|;
    LeadingRun(p, '^');
    TrailingRun(t, '$');
    ConcatAssoc(Repeat('^', lead), core, Repeat('$', trail));
  }

  /** The stripped core neither starts with '^' nor ends with '$'. */
  lemma StrippedEnds(p: string)
    ensures Stripped(p) == [] || (Stripped(p)[0] != '^' && Stripped(p)[|Stripped(p)| - 1] != '$')
  {
    var t := TrimStartMatches(p, '^');
    var core := TrimEndMatches(t, '$');
    if core != [] {
      assert core[0] == t[0];
    }
  }

  /** A pattern missing either anchor is stored as '^', its stripped core and '$'. */
  lemma UnanchoredWrapped(p: string)
    requires p != [] && !Anchored(p)
    ensures EnsureSafePattern(p) == Ok("^" + Stripped(p) + "$")
  {
  }

  /** Anchoring a stored pattern again changes nothing. */
  lemma EnsureIdempotent(p: string)
    requires p != []
    ensures EnsureSafePattern(p).Ok?
    ensures EnsureSafePattern(EnsureSafePattern(p).value) == EnsureSafePattern(p)
  {
    AnchoredKept(EnsureSafePattern(p).value);
  }
}
