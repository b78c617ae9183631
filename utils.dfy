/** URL decoding (src/common/utils.rs): `percent_decode`, `from_hex` and `parse_query_string`.
    Decoding runs over the UTF-8 bytes of the input; the decoded bytes become a string through
    `String::from_utf8_lossy` (`Text.Utf8Lossy`). */
module Utils {
  import opened Wrappers
  import opened Text

  const PERCENT: byte := 0x25
  const PLUS: byte := 0x2B
  const SPACE: byte := 0x20

  /** The upper- or lower-case hexadecimal digit of a value below 16. */
  function HexDigit(v: nat, upper: bool): (b: byte)
    requires v < 16
  {
    if v < 10 then '0' as int + v
    else if upper then 'A' as int + v - 10
    else 'a' as int + v - 10
  }

  /** `from_hex`: the value of an ASCII hexadecimal digit of either case, and None for every other
      byte. */
  function FromHex(b: byte): (r: Option<nat>)
    ensures r.Some? ==> r.value < 16 && (b == HexDigit(r.value, true) || b == HexDigit(r.value, false))
    ensures r.None? ==> forall v: nat | v < 16 :: b != HexDigit(v, true) && b != HexDigit(v, false)
  {
    if '0' as int <= b <= '9' as int then Some(b - '0' as int)
    else if 'a' as int <= b <= 'f' as int then Some(b - 'a' as int + 10)
    else if 'A' as int <= b <= 'F' as int then Some(b - 'A' as int + 10)
    else None
  }

  /** Both digit forms of every value decode back to it. */
  lemma FromHexDigit(v: nat, upper: bool)
    requires v < 16
    ensures FromHex(HexDigit(v, upper)) == Some(v)
  {
  }

  /** The bytes `percent_decode` produces before the lossy UTF-8 conversion: "%XY" with two hex
      digits becomes one byte, '+' becomes a space, and every other byte, including a '%' that
      does not start such an escape, is kept. */
  function PercentDecoded(b: seq<byte>): (r: seq<byte>)
    ensures |r| <= |b|
    decreases |b|
  {
    if b == [] then []
    else if b[0] == PERCENT && 2 < |b| && FromHex(b[1]).Some? && FromHex(b[2]).Some? then
      [FromHex(b[1]).value * 16 + FromHex(b[2]).value] + PercentDecoded(b[3..])
    else if b[0] == PLUS then [SPACE] + PercentDecoded(b[1..])
    else [b[0]] + PercentDecoded(b[1..])
  }

  /** The byte decoding emits at position `i` and where it resumes: a "%XY" escape with two
      hex digits of either case becomes one byte and skips three; a '+' becomes a space; any
      other byte, including a '%' without two hex digits after it, is copied. */
  lemma PercentDecodedAt(bytes: seq<byte>, i: nat)
    requires i < |bytes|
    ensures bytes[i] == PERCENT && i + 2 < |bytes| && FromHex(bytes[i + 1]).Some? && FromHex(bytes[i + 2]).Some? ==>
              PercentDecoded(bytes[i..]) == [FromHex(bytes[i + 1]).value * 16 + FromHex(bytes[i + 2]).value]
                                            + PercentDecoded(bytes[i + 3..])
    ensures bytes[i] == PLUS ==> PercentDecoded(bytes[i..]) == [SPACE] + PercentDecoded(bytes[i + 1..])
    ensures bytes[i] == PERCENT && (i + 2 >= |bytes| || FromHex(bytes[i + 1]).None? || FromHex(bytes[i + 2]).None?) ==>
              PercentDecoded(bytes[i..]) == [PERCENT] + PercentDecoded(bytes[i + 1..])
    ensures bytes[i] != PERCENT && bytes[i] != PLUS ==>
              PercentDecoded(bytes[i..]) == [bytes[i]] + PercentDecoded(bytes[i + 1..])
  {
    var b := bytes[i..];
    assert b[0] == bytes[i];
    assert b[1..] == bytes[i + 1..];
    if i + 2 < |bytes| {
      assert b[1] == bytes[i + 1] && b[2] == bytes[i + 2];
      assert b[3..] == bytes[i + 3..];
    }
  }

  /** Emitting the byte decoding produces at `i` keeps the decoder's loop invariant. */
  lemma Emit(bytes: seq<byte>, i: nat, k: nat, result: seq<byte>, x: byte)
    requires i + k <= |bytes|
    requires result + PercentDecoded(bytes[i..]) == PercentDecoded(bytes)
    requires PercentDecoded(bytes[i..]) == [x] + PercentDecoded(bytes[i + k..])
    ensures (result + [x]) + PercentDecoded(bytes[i + k..]) == PercentDecoded(bytes)
  {
  }

  /** `percent_decode` on bytes: the source's index loop. */
  method PercentDecodeBytes(bytes: seq<byte>) returns (result: seq<byte>)
    ensures result == PercentDecoded(bytes)
  {
    result := [];
    var i := 0;
    while i < |bytes|
      invariant 0 <= i <= |bytes|
      invariant result + PercentDecoded(bytes[i..]) == PercentDecoded(bytes)
    {
      PercentDecodedAt(bytes, i);
      if bytes[i] == PERCENT && i + 2 < |bytes| {
        var h, l := FromHex(bytes[i + 1]), FromHex(bytes[i + 2]);
        if h.Some? && l.Some? {
          Emit(bytes, i, 3, result, h.value * 16 + l.value);
          result := result + [h.value * 16 + l.value];
          i := i + 3;
          continue;
        }
      } else if bytes[i] == PLUS {
        Emit(bytes, i, 1, result, SPACE);
        result := result + [SPACE];
        i := i + 1;
        continue;
      }
      Emit(bytes, i, 1, result, bytes[i]);
      result := result + [bytes[i]];
      i := i + 1;
    }
  }

  /** The text `percent_decode` returns for a string. */
  function DecodeText(s: string): string
  {
    Utf8Lossy(PercentDecoded(Utf8(s)))
  }

  /** `percent_decode`. */
  method PercentDecode(input: string) returns (r: string)
    ensures r == DecodeText(input)
  {
    var bytes := PercentDecodeBytes(Utf8(input));
    r := Utf8Lossy(bytes);
  }

  /** Without '%' every byte is kept except '+', which becomes a space. */
  lemma {:induction false} PlusBecomesSpace(b: seq<byte>)
    requires PERCENT !in b
    ensures PercentDecoded(b) == seq(|b|, i requires 0 <= i < |b| => if b[i] == PLUS then SPACE else b[i])
  {
    if b != [] {
      PlusBecomesSpace(b[1..]);
    }
  }

  /** An ASCII character occurs among the bytes of a string exactly when it occurs in the
      string. */
  lemma {:induction false} AsciiByteInUtf8(s: string, c: char)
    requires c as int < 0x80
    ensures c as int in Utf8(s) <==> c in s
  {
    if s != [] {
      AsciiByteInUtf8(s[1..], c);
      var e := Utf8Char(s[0]);
      assert Utf8(s) == e + Utf8(s[1..]);
      assert c as int in e <==> c == s[0];
      assert c in s <==> c == s[0] || c in s[1..];
    }
  }

  /** A string with neither '%' nor '+' decodes to itself. */
  lemma DecodePlainText(s: string)
    requires '%' !in s && '+' !in s
    ensures DecodeText(s) == s
  {
    var b := Utf8(s);
    AsciiByteInUtf8(s, '%');
    AsciiByteInUtf8(s, '+');
    PlusBecomesSpace(b);
    assert PercentDecoded(b) == b;
    Utf8LossyOfUtf8(s);
  }

  /** Every byte written as "%XY", with digits of the given case. */
  function PercentEncoded(b: seq<byte>, upper: bool): (r: seq<byte>)
    ensures |r| == 3 * |b|
  {
    if b == [] then [] else [PERCENT, HexDigit(b[0] / 16, upper), HexDigit(b[0] % 16, upper)] + PercentEncoded(b[1..], upper)
  }

  /** Decoding undoes percent-encoding of any bytes, with digits of either case. */
  lemma {:induction false} DecodeEncoded(b: seq<byte>, upper: bool)
    ensures PercentDecoded(PercentEncoded(b, upper)) == b
  {
    if b != [] {
      var e := PercentEncoded(b, upper);
      FromHexDigit(b[0] / 16, upper);
      FromHexDigit(b[0] % 16, upper);
      assert e[3..] == PercentEncoded(b[1..], upper);
      DecodeEncoded(b[1..], upper);
    }
  }

  // ---------------------------------------------------------------------------
  // Query strings

  /** `pair.splitn(2, '=')` with a missing value read as "": the key is the text before the first
      '=', the value everything after it. */
  function RawPair(segment: string): (kv: (string, string))
    ensures '=' !in kv.0
    ensures '=' in segment ==> segment == kv.0 + "=" + kv.1
    ensures '=' !in segment ==> kv == (segment, "")
  {
    var (k, v) := SplitOnce(segment, '=');
    (k, v.GetOr(""))
  }

  /** The decoded key and value of one '&'-separated segment. */
  function DecodedPair(segment: string): (string, string)
  {
    (DecodeText(RawPair(segment).0), DecodeText(RawPair(segment).1))
  }

  /** The decoded pairs of the segments, in order. */
  function DecodedPairs(segments: seq<string>): (r: seq<(string, string)>)
    ensures |r| == |segments|
    ensures forall i | 0 <= i < |segments| :: r[i] == DecodedPair(segments[i])
  {
    seq(|segments|, i requires 0 <= i < |segments| => DecodedPair(segments[i]))
  }

  /** `parse_query_string`: the empty query gives the empty map; otherwise every '&'-separated
      segment, empty ones included, contributes its decoded pair, later ones overriding earlier
      ones. */
  function QueryParams(query: string): map<string, string>
  {
    if query == "" then map[] else FromPairs(DecodedPairs(Split(query, '&')))
  }

  method ParseQueryString(query: string) returns (params: map<string, string>)
    ensures params == QueryParams(query)
  {
    params := map[];
    if query == "" {
      return;
    }
    var pairs := Split(query, '&');
    ghost var decoded := DecodedPairs(pairs);
    var i := 0;
    while i < |pairs|
      invariant 0 <= i <= |pairs|
      invariant params == FromPairs(decoded[..i])
    {
      var kv := RawPair(pairs[i]);
      var decodedKey := PercentDecode(kv.0);
      var decodedValue := PercentDecode(kv.1);
      FromPairsStep(decoded, i);
      params := params[decodedKey := decodedValue];
      i := i + 1;
    }
    assert decoded[..|pairs|] == decoded;
  }

  /** A decoded key is present exactly when some segment decodes to it, and its value comes from
      the last such segment. */
  lemma QueryLastWins(query: string, key: string, j: nat)
    requires query != "" && j < |Split(query, '&')|
    requires DecodedPair(Split(query, '&')[j]).0 == key
    requires forall l | j < l < |Split(query, '&')| :: DecodedPair(Split(query, '&')[l]).0 != key
    ensures key in QueryParams(query) && QueryParams(query)[key] == DecodedPair(Split(query, '&')[j]).1
  {
    var ps := DecodedPairs(Split(query, '&'));
    FromPairsLastWins(ps, key, j);
  }

  /** Every key of the result comes from some segment. */
  lemma QueryKeySource(query: string, key: string) returns (j: nat)
    requires key in QueryParams(query)
    ensures query != "" && j < |Split(query, '&')| && DecodedPair(Split(query, '&')[j]).0 == key
  {
    var ps := DecodedPairs(Split(query, '&'));
    FromPairsKeys(ps, key);
    j :| 0 <= j < |ps| && ps[j].0 == key;
  }

  /** Every segment's decoded key is in the result. */
  lemma QueryKeyPresent(query: string, j: nat)
    requires query != "" && j < |Split(query, '&')|
    ensures DecodedPair(Split(query, '&')[j]).0 in QueryParams(query)
  {
    var ps := DecodedPairs(Split(query, '&'));
    FromPairsKeys(ps, ps[j].0);
  }

  lemma EmptyQuery()
    ensures QueryParams("") == map[]
  {
  }
}
