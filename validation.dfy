/** Whitelists for the header names and values the CGI writer will emit (src/cgi/validation.rs).
    Both checks run over the UTF-8 bytes of the string, as `as_bytes()` does; the contracts
    restate them over characters. */
module Validation {
  import opened Text

  /** The bytes a header name may contain: ASCII letters, digits and '-'. */
  predicate NameByte(b: byte)
  {
    ('A' as int <= b <= 'Z' as int) || ('a' as int <= b <= 'z' as int)
    || ('0' as int <= b <= '9' as int) || b == '-' as int
  }

  /** The bytes a header value may contain: HTAB, SP and visible ASCII 0x21-0x7E. */
  predicate ValueByte(b: byte)
  {
    b == 0x09 || b == 0x20 || (0x21 <= b <= 0x7E)
  }

  predicate NameChar(c: char)
  {
    ('A' <= c <= 'Z') || ('a' <= c <= 'z') || ('0' <= c <= '9') || c == '-'
  }

  predicate ValueChar(c: char)
  {
    c == '\t' || (' ' <= c <= '~')
  }

  /** `is_valid_header_name`: non-empty, and every byte a letter, a digit or '-'. */
  function IsValidHeaderName(name: string): (r: bool)
    ensures r <==> |name| > 0 && forall i | 0 <= i < |name| :: NameChar(name[i])
  {
    var b := Utf8(name);
    AllBytesIffAllChars(name, NameByte);
    assert |name| > 0 ==> |b| > 0 by {
      if |name| > 0 { assert b == Utf8Char(name[0]) + Utf8(name[1..]); }
    }
    |b| > 0 && forall i | 0 <= i < |b| :: NameByte(b[i])
  }

  /** `is_valid_header_value`: every byte is HTAB, SP or visible ASCII; the empty value is
      valid. */
  function IsValidHeaderValue(value: string): (r: bool)
    ensures r <==> forall i | 0 <= i < |value| :: ValueChar(value[i])
  {
    var b := Utf8(value);
    AllBytesIffAllChars(value, ValueByte);
    forall i: byte | ValueByte(i) ensures ValueChar(i as char) { }
    forall i | 0 <= i < |b| :: ValueByte(b[i])
  }

  /** Neither check lets a CR, an LF or a NUL through; a name also rejects blanks, ':' and '='. */
  lemma RejectedCharacters(s: string)
    ensures ('\r' in s || '\n' in s || '\0' in s) ==> !IsValidHeaderName(s) && !IsValidHeaderValue(s)
    ensures (' ' in s || ':' in s || '=' in s) ==> !IsValidHeaderName(s)
    ensures s == "" ==> !IsValidHeaderName(s) && IsValidHeaderValue(s)
  {
  }

  /** The framed header line "name: value\r\n" of a valid pair: its bytes hold exactly one CR and
      one LF, and they are its last two bytes, so a header can never start a new line. */
  lemma HeaderLineHasOneLineBreak(name: string, value: string)
    requires IsValidHeaderName(name) && IsValidHeaderValue(value)
    ensures var line := Utf8(name + ": " + value + "\r\n");
            && |line| >= 2 && line[|line| - 2] == 0x0D && line[|line| - 1] == 0x0A
            && forall i | 0 <= i < |line| - 2 :: line[i] != 0x0D && line[i] != 0x0A
  {
    var text := name + ": " + value;
    assert IsAscii(text) && forall i | 0 <= i < |text| :: text[i] != '\r' && text[i] != '\n' by {
      forall i | 0 <= i < |text| ensures text[i] as int < 0x80 && text[i] != '\r' && text[i] != '\n' {
        if i < |name| { assert text[i] == name[i]; }
        else if i >= |name| + 2 { assert text[i] == value[i - |name| - 2]; }
      }
    }
    var full := text + "\r\n";
    assert name + ": " + value + "\r\n" == full;
    assert IsAscii(full) by {
      forall i | 0 <= i < |full| ensures full[i] as int < 0x80 {
        if i < |text| { assert full[i] == text[i]; }
      }
    }
    Utf8OfAscii(full);
    forall i | 0 <= i < |full| - 2 ensures Utf8(full)[i] != 0x0D && Utf8(full)[i] != 0x0A {
      assert full[i] == text[i];
    }
  }
}
