/** String and byte helpers shared by the whole model: the UTF-8 encoding Rust's `as_bytes()`
    exposes, ASCII case mapping, Unicode whitespace trimming, `split`, `splitn(2, _)`, `join`,
    substring search and decimal rendering/parsing of integers. */
module Text {
  import opened Wrappers

  type byte = x: int | 0 <= x < 256
  type u16 = x: int | 0 <= x < 0x1_0000

  // ---------------------------------------------------------------------------
  // UTF-8

  /** The UTF-8 encoding of one Unicode scalar value. */
  function Utf8Char(c: char): (r: seq<byte>)
    ensures 1 <= |r| <= 4
    ensures (c as int < 0x80) <==> |r| == 1
    ensures c as int < 0x80 ==> r == [c as int]
    ensures c as int >= 0x80 ==> forall i | 0 <= i < |r| :: r[i] >= 0x80
  {
    var n := c as int;
    if n < 0x80 then [n]
    else if n < 0x800 then [0xC0 + n / 64, 0x80 + n % 64]
    else if n < 0x10000 then [0xE0 + n / 4096, 0x80 + (n / 64) % 64, 0x80 + n % 64]
    else [0xF0 + n / 262144, 0x80 + (n / 4096) % 64, 0x80 + (n / 64) % 64, 0x80 + n % 64]
  }

  /** `s.as_bytes()`: the UTF-8 encoding of a string. */
  function Utf8(s: string): seq<byte>
  {
    if s == [] then [] else Utf8Char(s[0]) + Utf8(s[1..])
  }

  /** `s.len()` in Rust: the length of the string in UTF-8 bytes. */
  function ByteLen(s: string): nat
  {
    |Utf8(s)|
  }

  lemma {:induction false} Utf8Concat(a: string, b: string)
    ensures Utf8(a + b) == Utf8(a) + Utf8(b)
  {
    if a == [] {
      assert a + b == b;
    } else {
      assert (a + b)[0] == a[0];
      assert (a + b)[1..] == a[1..] + b;
      Utf8Concat(a[1..], b);
    }
  }

  predicate IsAscii(s: string)
  {
    forall i | 0 <= i < |s| :: s[i] as int < 0x80
  }

  /** An ASCII string is encoded one byte per character, each byte the character's code. */
  lemma {:induction false} Utf8OfAscii(s: string)
    requires IsAscii(s)
    ensures |Utf8(s)| == |s|
    ensures forall i | 0 <= i < |s| :: Utf8(s)[i] == s[i] as int
  {
    if s != [] {
      assert IsAscii(s[1..]) by {
        forall i | 0 <= i < |s[1..]| ensures s[1..][i] as int < 0x80 { assert s[1..][i] == s[i + 1]; }
      }
      Utf8OfAscii(s[1..]);
      forall i | 0 <= i < |s| ensures Utf8(s)[i] == s[i] as int {
        if i > 0 { assert Utf8(s)[i] == Utf8(s[1..])[i - 1]; assert s[1..][i - 1] == s[i]; }
      }
    }
  }

  /** A byte test that rejects every byte of 0x80 and above holds of every byte of the encoding
      exactly when every character is ASCII and passes the test. This is how a byte-level
      whitelist over `as_bytes()` turns into a character-level one. */
  lemma {:induction false} AllBytesIffAllChars(s: string, ok: byte -> bool)
    requires forall b: byte :: ok(b) ==> b < 0x80
    ensures (forall i | 0 <= i < |Utf8(s)| :: ok(Utf8(s)[i]))
        <==> (forall i | 0 <= i < |s| :: s[i] as int < 0x80 && ok(s[i] as int))
  {
    if s != [] {
      AllBytesIffAllChars(s[1..], ok);
      var head := Utf8Char(s[0]);
      var tail := Utf8(s[1..]);
      assert Utf8(s) == head + tail;
      if forall i | 0 <= i < |Utf8(s)| :: ok(Utf8(s)[i]) {
        assert ok(Utf8(s)[0]);
        forall i | 0 <= i < |tail| ensures ok(tail[i]) { assert tail[i] == Utf8(s)[|head| + i]; }
        forall i | 0 <= i < |s| ensures s[i] as int < 0x80 && ok(s[i] as int) {
          if i > 0 { assert s[i] == s[1..][i - 1]; }
        }
      }
      if forall i | 0 <= i < |s| :: s[i] as int < 0x80 && ok(s[i] as int) {
        forall i | 0 <= i < |s[1..]| ensures s[1..][i] as int < 0x80 && ok(s[1..][i] as int) {
          assert s[1..][i] == s[i + 1];
        }
        forall i | 0 <= i < |Utf8(s)| ensures ok(Utf8(s)[i]) {
          if i >= |head| { assert Utf8(s)[i] == tail[i - |head|]; }
        }
      }
    }
  }

  /** A UTF-8 continuation byte. */
  predicate Cont(b: byte) { 0x80 <= b <= 0xBF }
  /** The range the second byte of a sequence may take, given its lead byte. */
  predicate SecondOk(lead: byte, b: byte)
  {
    if lead == 0xE0 then 0xA0 <= b <= 0xBF
    else if lead == 0xED then 0x80 <= b <= 0x9F
    else if lead == 0xF0 then 0x90 <= b <= 0xBF
    else if lead == 0xF4 then 0x80 <= b <= 0x8F
    else Cont(b)
  }
  /** The length of the sequence a lead byte announces; 0 for a byte that cannot lead. */
  function SeqLen(lead: byte): nat
  {
    if lead < 0x80 then 1
    else if 0xC2 <= lead <= 0xDF then 2
    else if 0xE0 <= lead <= 0xEF then 3
    else if 0xF0 <= lead <= 0xF4 then 4
    else 0
  }
  /** How many leading bytes of `bs` start a well-formed sequence (at least 1 when non-empty). */
  function PrefixLen(bs: seq<byte>): (k: nat)
    requires |bs| > 0
    ensures 1 <= k <= |bs| && k <= 4
  {
    var n := SeqLen(bs[0]);
    if n <= 1 then 1
    else if |bs| < 2 || !SecondOk(bs[0], bs[1]) then 1
    else if n == 2 then 2
    else if |bs| < 3 || !Cont(bs[2]) then 2
    else if n == 3 then 3
    else if |bs| < 4 || !Cont(bs[3]) then 3
    else 4
  }
  /** The character a complete well-formed sequence at the front of `bs` encodes. */
  function DecodeOne(bs: seq<byte>): (c: char)
    requires |bs| > 0 && PrefixLen(bs) == SeqLen(bs[0])
  {
    var n := SeqLen(bs[0]);
    var b0 := bs[0] as int;
    if n == 1 then b0 as char
    else
      var b1 := bs[1] as int - 0x80;
      if n == 2 then ((b0 - 0xC0) * 64 + b1) as char
      else
        var b2 := bs[2] as int - 0x80;
        if n == 3 then
          var v := (b0 - 0xE0) * 4096 + b1 * 64 + b2;
          assert v < 0xD800 || 0xE000 <= v < 0x10000;
          v as char
        else
          var b3 := bs[3] as int - 0x80;
          var v := (b0 - 0xF0) * 262144 + b1 * 4096 + b2 * 64 + b3;
          assert 0x10000 <= v < 0x110000;
          v as char
  }
  /** `String::from_utf8_lossy`: well-formed sequences become their characters, and each maximal
      prefix of a well-formed sequence that is cut short (or a byte that cannot start one)
      becomes one U+FFFD REPLACEMENT CHARACTER. */
  function Utf8Lossy(bs: seq<byte>): string
  {
    if bs == [] then []
    else
      var k := PrefixLen(bs);
      if k == SeqLen(bs[0]) then [DecodeOne(bs)] + Utf8Lossy(bs[k..])
      else ['\U{FFFD}'] + Utf8Lossy(bs[k..])
  }
  /** The decoder reads back the encoding of one character, which it sees as one complete
      sequence. */
  lemma DecodeHead(c: char, rest: seq<byte>)
    ensures |Utf8Char(c)| == SeqLen(Utf8Char(c)[0])
    ensures PrefixLen(Utf8Char(c) + rest) == |Utf8Char(c)|
    ensures DecodeOne(Utf8Char(c) + rest) == c
  {
    var n := c as int;
    if n < 0x80 {
    } else if n < 0x800 {
      DecodeTwo(c, rest);
    } else if n < 0x10000 {
      DecodeThree(c, rest);
    } else {
      DecodeFour(c, rest);
    }
  }

  lemma DecodeTwo(c: char, rest: seq<byte>)
    requires 0x80 <= c as int < 0x800
    ensures |Utf8Char(c)| == SeqLen(Utf8Char(c)[0])
    ensures PrefixLen(Utf8Char(c) + rest) == |Utf8Char(c)|
    ensures DecodeOne(Utf8Char(c) + rest) == c
  {
    var n := c as int;
    var q, r := n / 64, n % 64;
    assert n == q * 64 + r;
    assert 2 <= q < 32;
  }

  lemma DecodeThree(c: char, rest: seq<byte>)
    requires 0x800 <= c as int < 0x10000
    ensures |Utf8Char(c)| == SeqLen(Utf8Char(c)[0])
    ensures PrefixLen(Utf8Char(c) + rest) == |Utf8Char(c)|
    ensures DecodeOne(Utf8Char(c) + rest) == c
  {
    var n := c as int;
    var q, m, r := n / 4096, (n / 64) % 64, n % 64;
    assert n / 64 == q * 64 + m;
    assert n == q * 4096 + m * 64 + r;
    assert q == 0 ==> m >= 32;
    assert q == 13 ==> m < 32;
  }

  lemma DecodeFour(c: char, rest: seq<byte>)
    requires 0x10000 <= c as int
    ensures |Utf8Char(c)| == SeqLen(Utf8Char(c)[0])
    ensures PrefixLen(Utf8Char(c) + rest) == |Utf8Char(c)|
    ensures DecodeOne(Utf8Char(c) + rest) == c
  {
    var n := c as int;
    var q, m2, m, r := n / 262144, (n / 4096) % 64, (n / 64) % 64, n % 64;
    assert n / 4096 == q * 64 + m2;
    assert n / 64 == (n / 4096) * 64 + m;
    assert n == q * 262144 + m2 * 4096 + m * 64 + r;
    assert q == 0 ==> m2 >= 16;
    assert q <= 4 && (q == 4 ==> m2 < 16);
  }

  lemma DecodeChar(c: char, rest: seq<byte>)
    ensures Utf8Lossy(Utf8Char(c) + rest) == [c] + Utf8Lossy(rest)
  {
    var e := Utf8Char(c);
    DecodeHead(c, rest);
    assert (e + rest)[|e|..] == rest;
  }

  /** Decoding the encoding of a string gives the string back. */
  lemma {:induction false} Utf8LossyOfUtf8(s: string)
    ensures Utf8Lossy(Utf8(s)) == s
  {
    if s != [] {
      DecodeChar(s[0], Utf8(s[1..]));
      Utf8LossyOfUtf8(s[1..]);
    }
  }

  // ---------------------------------------------------------------------------
  // ASCII case mapping (`to_ascii_lowercase`, `to_ascii_uppercase`, `eq_ignore_ascii_case`)

  function LowerChar(c: char): (r: char)
    ensures 'A' <= c <= 'Z' ==> r as int == c as int + 32
    ensures !('A' <= c <= 'Z') ==> r == c
  {
    if 'A' <= c <= 'Z' then (c as int + 32) as char else c
  }

  function UpperChar(c: char): (r: char)
    ensures 'a' <= c <= 'z' ==> r as int == c as int - 32
    ensures !('a' <= c <= 'z') ==> r == c
  {
    if 'a' <= c <= 'z' then (c as int - 32) as char else c
  }

  function Lower(s: string): (r: string)
    ensures |r| == |s|
    ensures forall i | 0 <= i < |s| :: r[i] == LowerChar(s[i])
  {
    seq(|s|, i requires 0 <= i < |s| => LowerChar(s[i]))
  }

  function Upper(s: string): (r: string)
    ensures |r| == |s|
    ensures forall i | 0 <= i < |s| :: r[i] == UpperChar(s[i])
  {
    seq(|s|, i requires 0 <= i < |s| => UpperChar(s[i]))
  }

  predicate EqIgnoreAsciiCase(a: string, b: string)
  {
    Lower(a) == Lower(b)
  }

  // ---------------------------------------------------------------------------
  // Whitespace and trimming (`char::is_whitespace`, `str::trim`)

  /** The Unicode White_Space property, which `char::is_whitespace` tests. */
  predicate IsWhitespace(c: char)
  {
    var n := c as int;
    (0x09 <= n <= 0x0D) || n == 0x20 || n == 0x85 || n == 0xA0 || n == 0x1680
    || (0x2000 <= n <= 0x200A) || n == 0x2028 || n == 0x2029 || n == 0x202F
    || n == 0x205F || n == 0x3000
  }

  function TrimStart(s: string): (r: string)
    ensures |r| <= |s| && r == s[|s| - |r|..]
    ensures r == [] || !IsWhitespace(r[0])
    ensures forall i | 0 <= i < |s| - |r| :: IsWhitespace(s[i])
  {
    if s != [] && IsWhitespace(s[0]) then TrimStart(s[1..]) else s
  }

  function TrimEnd(s: string): (r: string)
    ensures |r| <= |s| && r == s[..|r|]
    ensures r == [] || !IsWhitespace(r[|r| - 1])
    ensures forall i | |r| <= i < |s| :: IsWhitespace(s[i])
  {
    if s != [] && IsWhitespace(s[|s| - 1]) then TrimEnd(s[..|s| - 1]) else s
  }

  /** `str::trim`: the string without leading and trailing whitespace. */
  function Trim(s: string): (r: string)
    ensures r == [] || (!IsWhitespace(r[0]) && !IsWhitespace(r[|r| - 1]))
    ensures exists i, j :: 0 <= i <= j <= |s| && r == s[i..j]
  {
    var t := TrimStart(s);
    var r := TrimEnd(t);
    assert r == s[|s| - |t|..|s| - |t| + |r|];
    r
  }

  predicate IsTrimmed(s: string)
  {
    s == [] || (!IsWhitespace(s[0]) && !IsWhitespace(s[|s| - 1]))
  }

  /** Trimming a string that has no surrounding whitespace leaves it as it is. */
  lemma TrimTrimmed(s: string)
    requires IsTrimmed(s)
    ensures Trim(s) == s
  {
  }

  // ---------------------------------------------------------------------------
  // Searching, splitting and joining

  /** The first index of `c` in `s`. */
  function IndexOf(s: string, c: char): (r: Option<nat>)
    ensures r.None? <==> c !in s
    ensures r.Some? ==> r.value < |s| && s[r.value] == c && c !in s[..r.value]
  {
    if s == [] then None
    else if s[0] == c then Some(0)
    else
      match IndexOf(s[1..], c)
      case None => None
      case Some(i) => assert s[1..][..i] == s[1..i + 1]; Some(i + 1)
  }

  /** `s.split(sep)`: the pieces between occurrences of `sep`; always at least one piece. */
  function Split(s: string, sep: char): (parts: seq<string>)
    ensures |parts| >= 1
    ensures forall k | 0 <= k < |parts| :: sep !in parts[k]
    decreases |s|
  {
    match IndexOf(s, sep)
    case None => [s]
    case Some(i) => [s[..i]] + Split(s[i + 1..], sep)
  }

  /** `parts.join(sep)`. */
  function Join(parts: seq<string>, sep: string): string
  {
    if |parts| == 0 then ""
    else if |parts| == 1 then parts[0]
    else parts[0] + sep + Join(parts[1..], sep)
  }

  /** Joining the pieces of a split with the separator gives back the original string. */
  lemma {:induction false} JoinSplit(s: string, sep: char)
    ensures Join(Split(s, sep), [sep]) == s
    decreases |s|
  {
    match IndexOf(s, sep)
    case None =>
    case Some(i) =>
      var rest := Split(s[i + 1..], sep);
      assert Split(s, sep) == [s[..i]] + rest;
      JoinSplit(s[i + 1..], sep);
      assert Join(rest, [sep]) == s[i + 1..];
      assert Join([s[..i]] + rest, [sep]) == s[..i] + [sep] + Join(rest, [sep]) by {
        assert ([s[..i]] + rest)[1..] == rest;
      }
      assert s == s[..i] + [sep] + s[i + 1..];
  }

  /** A text without the separator followed by one separator: the split starts with that
      text, and the rest is the split of what follows. */
  lemma SplitAfterPrefix(a: string, b: string, sep: char)
    requires sep !in a
    ensures Split(a + [sep] + b, sep) == [a] + Split(b, sep)
  {
    var s := a + [sep] + b;
    assert s[..|a|] == a;
    assert s[|a|] == sep;
    assert s[|a| + 1..] == b;
    var r := IndexOf(s, sep);
    assert r == Some(|a|);
  }

  /** `s.replace(from, to)` for single characters. */
  function Replace(s: string, from: char, to: char): (r: string)
    ensures |r| == |s|
    ensures forall i | 0 <= i < |s| :: r[i] == (if s[i] == from then to else s[i])
  {
    seq(|s|, i requires 0 <= i < |s| => if s[i] == from then to else s[i])
  }

  /** Splitting the join of separator-free pieces gives the pieces back. */
  lemma {:induction false} SplitJoin(parts: seq<string>, sep: char)
    requires |parts| >= 1
    requires forall k | 0 <= k < |parts| :: sep !in parts[k]
    ensures Split(Join(parts, [sep]), sep) == parts
  {
    if |parts| == 1 {
      assert IndexOf(parts[0], sep).None?;
    } else {
      var rest := parts[1..];
      SplitJoinHead(parts, sep);
      SplitJoin(rest, sep);
    }
  }

  /** One step of `SplitJoin`: the first piece comes off, and the rest stays separator-free. */
  lemma SplitJoinHead(parts: seq<string>, sep: char)
    requires |parts| >= 2
    requires forall k | 0 <= k < |parts| :: sep !in parts[k]
    ensures Split(Join(parts, [sep]), sep) == [parts[0]] + Split(Join(parts[1..], [sep]), sep)
    ensures forall k | 0 <= k < |parts[1..]| :: sep !in parts[1..][k]
  {
    var rest := parts[1..];
    assert Join(parts, [sep]) == parts[0] + [sep] + Join(rest, [sep]);
    assert sep !in parts[0];
    SplitAfterPrefix(parts[0], Join(rest, [sep]), sep);
  }

  /** `s.splitn(2, sep)`: the text before the first `sep` and, when there is one, the rest. */
  function SplitOnce(s: string, sep: char): (r: (string, Option<string>))
    ensures r.1.None? ==> sep !in s && r.0 == s
    ensures r.1.Some? ==> sep !in r.0 && s == r.0 + [sep] + r.1.value
  {
    match IndexOf(s, sep)
    case None => (s, None)
    case Some(i) =>
      assert s == s[..i] + [sep] + s[i + 1..];
      (s[..i], Some(s[i + 1..]))
  }

  /** The concatenation of `f` applied to each element in order. */
  function FlatMap<A, B>(xs: seq<A>, f: A -> seq<B>): seq<B>
  {
    if xs == [] then [] else FlatMap(xs[..|xs| - 1], f) + f(xs[|xs| - 1])
  }

  lemma FlatMapStep<A, B>(xs: seq<A>, f: A -> seq<B>, i: nat)
    requires i < |xs|
    ensures FlatMap(xs[..i + 1], f) == FlatMap(xs[..i], f) + f(xs[i])
  {
    assert xs[..i + 1][..i] == xs[..i];
  }

  /** Mapping each element to itself alone leaves the sequence as it is. */
  lemma {:induction false} FlatMapFixed<A>(xs: seq<A>, f: A -> seq<A>)
    requires forall i | 0 <= i < |xs| :: f(xs[i]) == [xs[i]]
    ensures FlatMap(xs, f) == xs
    decreases |xs|
  {
    if xs != [] {
      var n := |xs| - 1;
      FlatMapFixed(xs[..n], f);
      assert xs[..n] + [xs[n]] == xs;
    }
  }

  lemma {:induction false} FlatMapConcat<A, B>(xs: seq<A>, ys: seq<A>, f: A -> seq<B>)
    ensures FlatMap(xs + ys, f) == FlatMap(xs, f) + FlatMap(ys, f)
    decreases |ys|
  {
    if ys == [] {
      assert xs + ys == xs;
    } else {
      var n := |ys| - 1;
      assert (xs + ys)[..|xs + ys| - 1] == xs + ys[..n];
      assert (xs + ys)[|xs + ys| - 1] == ys[n];
      FlatMapConcat(xs, ys[..n], f);
    }
  }

  /** Every element of the result comes from some input element. */
  lemma {:induction false} FlatMapSource<A, B>(xs: seq<A>, f: A -> seq<B>, j: nat) returns (i: nat, k: nat)
    requires j < |FlatMap(xs, f)|
    ensures i < |xs| && k < |f(xs[i])| && FlatMap(xs, f)[j] == f(xs[i])[k]
  {
    var n := |xs| - 1;
    var init := FlatMap(xs[..n], f);
    if j < |init| {
      i, k := FlatMapSource(xs[..n], f, j);
      assert xs[..n][i] == xs[i];
    } else {
      i, k := n, j - |init|;
    }
  }

  /** Every element `f` yields for an input element is in the result. */
  lemma {:induction false} FlatMapPresent<A, B>(xs: seq<A>, f: A -> seq<B>, i: nat, k: nat) returns (j: nat)
    requires i < |xs| && k < |f(xs[i])|
    ensures j < |FlatMap(xs, f)| && FlatMap(xs, f)[j] == f(xs[i])[k]
  {
    var n := |xs| - 1;
    var init := FlatMap(xs[..n], f);
    if i < n {
      assert xs[..n][i] == xs[i];
      j := FlatMapPresent(xs[..n], f, i, k);
    } else {
      j := |init| + k;
    }
  }

  /** An element is in the result exactly when `f` yields it for some input element. */
  lemma FlatMapMember<A, B>(xs: seq<A>, f: A -> seq<B>, y: B)
    ensures y in FlatMap(xs, f) <==> exists i | 0 <= i < |xs| :: y in f(xs[i])
  {
    if y in FlatMap(xs, f) {
      var j :| 0 <= j < |FlatMap(xs, f)| && FlatMap(xs, f)[j] == y;
      var i, k := FlatMapSource(xs, f, j);
    }
    if exists i | 0 <= i < |xs| :: y in f(xs[i]) {
      var i :| 0 <= i < |xs| && y in f(xs[i]);
      var k :| 0 <= k < |f(xs[i])| && f(xs[i])[k] == y;
      var j := FlatMapPresent(xs, f, i, k);
    }
  }

  /** A singleton contributes exactly what `f` yields for it. */
  lemma FlatMapSingle<A, B>(x: A, f: A -> seq<B>)
    ensures FlatMap([x], f) == f(x)
  {
    assert [x][..0] == [];
  }

  /** The map built by inserting `pairs` in order, so a later pair overrides an earlier one with
      the same key (a loop of `HashMap::insert`). */
  function FromPairs<V>(pairs: seq<(string, V)>): map<string, V>
  {
    if pairs == [] then map[]
    else FromPairs(pairs[..|pairs| - 1])[pairs[|pairs| - 1].0 := pairs[|pairs| - 1].1]
  }

  /** One more pair inserted into the map of a prefix. */
  lemma FromPairsStep<V>(pairs: seq<(string, V)>, i: nat)
    requires i < |pairs|
    ensures FromPairs(pairs[..i + 1]) == FromPairs(pairs[..i])[pairs[i].0 := pairs[i].1]
  {
    assert pairs[..i + 1][..i] == pairs[..i];
  }

  /** Inserting one more pair at the end. */
  lemma FromPairsAppend<V>(pairs: seq<(string, V)>, key: string, value: V)
    ensures FromPairs(pairs + [(key, value)]) == FromPairs(pairs)[key := value]
  {
    assert (pairs + [(key, value)])[..|pairs|] == pairs;
  }

  /** A key is present exactly when some pair carries it. */
  lemma {:induction false} FromPairsKeys<V>(pairs: seq<(string, V)>, key: string)
    ensures key in FromPairs(pairs) <==> exists j | 0 <= j < |pairs| :: pairs[j].0 == key
  {
    if pairs != [] {
      var n := |pairs| - 1;
      var init := pairs[..n];
      FromPairsKeys(init, key);
      if pairs[n].0 != key {
        if key in FromPairs(pairs) {
          var j :| 0 <= j < n && init[j].0 == key;
          assert pairs[j] == init[j];
        } else {
          forall j | 0 <= j < |pairs| ensures pairs[j].0 != key {
            if j < n { assert pairs[j] == init[j]; }
          }
        }
      }
    }
  }

  /** The value stored for a key is the value of the last pair carrying it. */
  lemma {:induction false} FromPairsEntry<V>(pairs: seq<(string, V)>, key: string) returns (j: nat)
    requires key in FromPairs(pairs)
    ensures j < |pairs| && pairs[j] == (key, FromPairs(pairs)[key])
    ensures forall l | j < l < |pairs| :: pairs[l].0 != key
  {
    var n := |pairs| - 1;
    if pairs[n].0 == key {
      j := n;
    } else {
      var init := pairs[..n];
      j := FromPairsEntry(init, key);
      assert pairs[j] == init[j];
      forall l | j < l < |pairs| ensures pairs[l].0 != key {
        if l < n { assert pairs[l] == init[l]; }
      }
    }
  }

  /** For a repeated key the last pair carrying it wins. */
  lemma {:induction false} FromPairsLastWins<V>(pairs: seq<(string, V)>, key: string, j: nat)
    requires j < |pairs| && pairs[j].0 == key
    requires forall l | j < l < |pairs| :: pairs[l].0 != key
    ensures key in FromPairs(pairs) && FromPairs(pairs)[key] == pairs[j].1
  {
    var n := |pairs| - 1;
    if j < n {
      var init := pairs[..n];
      assert init[j] == pairs[j];
      assert pairs[n].0 != key;
      forall l | j < l < |init| ensures init[l].0 != key {
        assert init[l] == pairs[l];
      }
      FromPairsLastWins(init, key, j);
    }
  }

  /** Inserting the pairs an element yields, when it yields at most one. */
  lemma FromFlatMapStep<A, V>(xs: seq<A>, f: A -> seq<(string, V)>, i: nat)
    requires i < |xs| && |f(xs[i])| <= 1
    ensures f(xs[i]) == [] ==> FromPairs(FlatMap(xs[..i + 1], f)) == FromPairs(FlatMap(xs[..i], f))
    ensures |f(xs[i])| == 1 ==>
              FromPairs(FlatMap(xs[..i + 1], f)) == FromPairs(FlatMap(xs[..i], f))[f(xs[i])[0].0 := f(xs[i])[0].1]
  {
    FlatMapStep(xs, f, i);
    var before := FlatMap(xs[..i], f);
    if f(xs[i]) == [] {
      assert before + f(xs[i]) == before;
    } else {
      assert f(xs[i]) == [(f(xs[i])[0].0, f(xs[i])[0].1)];
      FromPairsAppend(before, f(xs[i])[0].0, f(xs[i])[0].1);
    }
  }

  /** A key is in the map of the pairs the elements yield exactly when some element yields a pair
      with it. */
  lemma FromFlatMapKeys<A, V>(xs: seq<A>, f: A -> seq<(string, V)>, key: string)
    ensures key in FromPairs(FlatMap(xs, f)) <==> exists i, p | 0 <= i < |xs| && p in f(xs[i]) :: p.0 == key
  {
    var pairs := FlatMap(xs, f);
    FromPairsKeys(pairs, key);
    if key in FromPairs(pairs) {
      var j :| 0 <= j < |pairs| && pairs[j].0 == key;
      var i, k := FlatMapSource(xs, f, j);
      assert f(xs[i])[k] in f(xs[i]);
    }
    if exists i, p | 0 <= i < |xs| && p in f(xs[i]) :: p.0 == key {
      var i, p :| 0 <= i < |xs| && p in f(xs[i]) && p.0 == key;
      var k :| 0 <= k < |f(xs[i])| && f(xs[i])[k] == p;
      var j := FlatMapPresent(xs, f, i, k);
    }
  }

  /** The same when every element yields at most one pair. */
  lemma FromFlatMapSingleKeys<A, V>(xs: seq<A>, f: A -> seq<(string, V)>, key: string)
    requires forall i | 0 <= i < |xs| :: |f(xs[i])| <= 1
    ensures key in FromPairs(FlatMap(xs, f)) <==> exists i | 0 <= i < |xs| :: f(xs[i]) != [] && f(xs[i])[0].0 == key
  {
    FromFlatMapKeys(xs, f, key);
    if key in FromPairs(FlatMap(xs, f)) {
      var i, p :| 0 <= i < |xs| && p in f(xs[i]) && p.0 == key;
      assert p == f(xs[i])[0];
    }
    if i :| 0 <= i < |xs| && f(xs[i]) != [] && f(xs[i])[0].0 == key {
      assert f(xs[i])[0] in f(xs[i]);
    }
  }

  /** The value stored for a key comes from the last element that yields a pair with it. */
  lemma FromFlatMapLastWins<A, V>(xs: seq<A>, f: A -> seq<(string, V)>, key: string, i: nat)
    requires i < |xs| && |f(xs[i])| == 1 && f(xs[i])[0].0 == key
    requires forall l | i < l < |xs| :: forall p | p in f(xs[l]) :: p.0 != key
    ensures key in FromPairs(FlatMap(xs, f)) && FromPairs(FlatMap(xs, f))[key] == f(xs[i])[0].1
  {
    var pre, post := xs[..i + 1], xs[i + 1..];
    assert xs == pre + post;
    FlatMapConcat(pre, post, f);
    FlatMapStep(xs, f, i);
    var head := FlatMap(pre, f);
    var pairs := FlatMap(xs, f);
    var j := |head| - 1;
    assert pairs[j] == f(xs[i])[0];
    forall l | j < l < |pairs| ensures pairs[l].0 != key {
      var m, k := FlatMapSource(post, f, l - |head|);
      assert post[m] == xs[i + 1 + m];
      assert f(post[m])[k] in f(xs[i + 1 + m]);
    }
    FromPairsLastWins(pairs, key, j);
  }

  predicate StartsWith(s: string, p: string)
  {
    |p| <= |s| && s[..|p|] == p
  }

  predicate EndsWith(s: string, p: string)
  {
    |p| <= |s| && s[|s| - |p|..] == p
  }

  /** `p` occurs in `s` starting at index `i`. */
  predicate OccursAt(s: string, p: string, i: nat)
  {
    i + |p| <= |s| && s[i..i + |p|] == p
  }

  /** `s.contains(p)` for a string pattern. */
  predicate Contains(s: string, p: string)
  {
    exists i: nat | i <= |s| :: OccursAt(s, p, i)
  }

  /** A computable form of `Contains`, scanning the start positions left to right. */
  function ContainsFrom(s: string, p: string, from: nat): (r: bool)
    ensures r <==> exists i: nat | from <= i <= |s| :: OccursAt(s, p, i)
    decreases |s| + 1 - from
  {
    if from + |p| > |s| then false
    else if s[from..from + |p|] == p then assert OccursAt(s, p, from); true
    else ContainsFrom(s, p, from + 1)
  }

  function Count(s: string, c: char): nat
  {
    if s == [] then 0 else (if s[0] == c then 1 else 0) + Count(s[1..], c)
  }

  lemma {:induction false} CountConcat(a: string, b: string, c: char)
    ensures Count(a + b, c) == Count(a, c) + Count(b, c)
  {
    if a != [] {
      assert (a + b)[1..] == a[1..] + b;
      CountConcat(a[1..], b, c);
    } else {
      assert a + b == b;
    }
  }

  lemma {:induction false} CountAbsent(s: string, c: char)
    requires c !in s
    ensures Count(s, c) == 0
  {
    if s != [] {
      CountAbsent(s[1..], c);
    }
  }

  // ---------------------------------------------------------------------------
  // Decimal numbers (`format!("{}", n)` and `str::parse::<usize>()`)

  function DigitChar(d: nat): (c: char)
    requires d < 10
    ensures '0' <= c <= '9' && c as int - '0' as int == d
  {
    ('0' as int + d) as char
  }

  predicate IsDigit(c: char)
  {
    '0' <= c <= '9'
  }

  /** Decimal rendering of a natural number without leading zeros. */
  function NatToString(n: nat): (r: string)
    ensures |r| >= 1
    ensures forall i | 0 <= i < |r| :: IsDigit(r[i])
    ensures n >= 10 ==> r[0] != '0'
  {
    if n < 10 then [DigitChar(n)] else NatToString(n / 10) + [DigitChar(n % 10)]
  }

  /** A rendered number holds nothing but digits. */
  lemma NatToStringOnlyDigits(n: nat, c: char)
    requires !IsDigit(c)
    ensures c !in NatToString(n)
  {
    var r := NatToString(n);
    forall i | 0 <= i < |r| ensures r[i] != c {
      assert IsDigit(r[i]);
    }
  }

  /** The value of a string of decimal digits. */
  function DigitsValue(s: string): nat
    requires forall i | 0 <= i < |s| :: IsDigit(s[i])
  {
    if s == [] then 0
    else
      assert IsDigit(s[|s| - 1]);
      DigitsValue(s[..|s| - 1]) * 10 + (s[|s| - 1] as int - '0' as int)
  }

  lemma {:induction false} DigitsValueOfNat(n: nat)
    ensures DigitsValue(NatToString(n)) == n
  {
    if n >= 10 {
      var r := NatToString(n);
      assert r[..|r| - 1] == NatToString(n / 10);
      DigitsValueOfNat(n / 10);
    }
  }

  const USIZE_MAX: nat := 0xFFFF_FFFF_FFFF_FFFF

  /** `s.parse::<usize>()` on a 64-bit target: an optional `+`, then one or more ASCII digits,
      with no surrounding whitespace, and a value that fits in 64 bits. */
  function ParseUsize(s: string): (r: Option<nat>)
    ensures r.Some? ==> r.value <= USIZE_MAX
  {
    var digits := if |s| > 0 && s[0] == '+' then s[1..] else s;
    if |digits| == 0 || !(forall i | 0 <= i < |digits| :: IsDigit(digits[i])) then None
    else
      var v := DigitsValue(digits);
      if v > USIZE_MAX then None else Some(v)
  }

  /** Parsing a rendered number gives the number back. */
  lemma ParseRendered(n: nat)
    requires n <= USIZE_MAX
    ensures ParseUsize(NatToString(n)) == Some(n)
  {
    DigitsValueOfNat(n);
    var r := NatToString(n);
    assert r[0] != '+';
  }
}
