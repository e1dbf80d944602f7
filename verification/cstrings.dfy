/** The two pieces of Rust's `CStr` that the bootstrap relies on:
    `CStr::from_bytes_until_nul`, which reads a C string out of a fixed-size
    byte array, and the `{:?}` rendering of a `CStr`, which is the bytes run
    through `u8::escape_ascii` between double quotes. */
module CStrings {
  import opened Vk

  /** `CStr::from_bytes_until_nul(bytes)`: the bytes before the first NUL,
      or nothing when the array holds no NUL. */
  function UntilNul(bytes: seq<Byte>): (r: Option<seq<Byte>>)
    ensures r.Some? <==> 0 in bytes
    ensures r.Some? ==> |r.value| < |bytes| && r.value == bytes[..|r.value|]
    ensures r.Some? ==> 0 !in r.value && bytes[|r.value|] == 0
  {
    if bytes == [] then None
    else if bytes[0] == 0 then Some([])
    else
      match UntilNul(bytes[1..])
      case None => None
      case Some(rest) => Some([bytes[0]] + rest)
  }

  /** A NUL-terminated array reads back as the bytes before the NUL. */
  lemma {:induction false} UntilNulOfTerminated(s: seq<Byte>)
    requires 0 !in s
    ensures UntilNul(s + [0]) == Some(s)
  {
    if s != [] {
      assert (s + [0])[1..] == s[1..] + [0];
      UntilNulOfTerminated(s[1..]);
    }
  }

  predicate IsPrintable(b: Byte) {
    0x20 <= b <= 0x7e
  }

  predicate IsPrintableChar(c: char) {
    ' ' <= c <= '~'
  }

  const HEX_DIGITS := "0123456789abcdef"

  /** `u8::escape_ascii` for one byte: tab, carriage return, line feed,
      backslash, single and double quote get a backslash escape, other
      printable ASCII stands for itself, and anything else becomes `\xNN`
      with two lower-case hex digits. */
  function EscapeByte(b: Byte): (r: string)
    ensures 1 <= |r| <= 4
    ensures forall i :: 0 <= i < |r| ==> IsPrintableChar(r[i])
    ensures r[0] != '"'
  {
    if b == 9 then "\\t"
    else if b == 13 then "\\r"
    else if b == 10 then "\\n"
    else if b == 92 then "\\\\"
    else if b == 39 then "\\'"
    else if b == 34 then "\\\""
    else if IsPrintable(b) then [b as char]
    else "\\x" + [HEX_DIGITS[b / 16], HEX_DIGITS[b % 16]]
  }

  /** `bytes.escape_ascii()`. */
  function EscapeAscii(bytes: seq<Byte>): (r: string)
    ensures forall i :: 0 <= i < |r| ==> IsPrintableChar(r[i])
    ensures |bytes| <= |r| <= 4 * |bytes|
  {
    if bytes == [] then "" else EscapeByte(bytes[0]) + EscapeAscii(bytes[1..])
  }

  /** `format!("{:?}", cstr)` for a C string holding `bytes`. */
  function DebugCStr(bytes: seq<Byte>): (r: string)
    ensures |r| >= 2 && r[0] == '"' && r[|r| - 1] == '"'
    ensures forall i :: 0 <= i < |r| ==> IsPrintableChar(r[i])
  {
    "\"" + EscapeAscii(bytes) + "\""
  }

  function HexValue(c: char): (v: Option<Byte>)
    ensures v.Some? ==> v.value < 16
  {
    if '0' <= c <= '9' then Some(c as int - '0' as int)
    else if 'a' <= c <= 'f' then Some(c as int - 'a' as int + 10)
    else None
  }

  function Prepend(b: Byte, r: Option<(seq<Byte>, string)>): Option<(seq<Byte>, string)> {
    match r
    case None => None
    case Some((bytes, rest)) => Some(([b] + bytes, rest))
  }

  /** Reads escaped text up to and including the first unescaped double
      quote, giving the bytes it stands for and what follows the quote. This
      is the inverse of EscapeAscii; see ReadEscapedInvertsEscape. */
  function ReadEscaped(s: string): (r: Option<(seq<Byte>, string)>)
    ensures r.Some? ==> |r.value.1| < |s|
    decreases |s|
  {
    if s == [] then None
    else if s[0] == '"' then Some(([], s[1..]))
    else if s[0] == '\\' then
      if |s| < 2 then None
      else if s[1] == 't' then Prepend(9, ReadEscaped(s[2..]))
      else if s[1] == 'r' then Prepend(13, ReadEscaped(s[2..]))
      else if s[1] == 'n' then Prepend(10, ReadEscaped(s[2..]))
      else if s[1] == '\\' then Prepend(92, ReadEscaped(s[2..]))
      else if s[1] == '\'' then Prepend(39, ReadEscaped(s[2..]))
      else if s[1] == '"' then Prepend(34, ReadEscaped(s[2..]))
      else if s[1] == 'x' && |s| >= 4 && HexValue(s[2]).Some? && HexValue(s[3]).Some? then
        Prepend(16 * HexValue(s[2]).value + HexValue(s[3]).value, ReadEscaped(s[4..]))
      else None
    else if IsPrintableChar(s[0]) then Prepend(s[0] as int, ReadEscaped(s[1..]))
    else None
  }

  /** Reads a `{:?}`-rendered C string at the front of `s`. */
  function ReadDebugCStr(s: string): (r: Option<(seq<Byte>, string)>)
    ensures r.Some? ==> |r.value.1| < |s|
  {
    if s != [] && s[0] == '"' then ReadEscaped(s[1..]) else None
  }

  lemma HexDigitValue(d: nat)
    requires d < 16
    ensures HexValue(HEX_DIGITS[d]) == Some(d)
  {
  }

  /** Decoding one escaped byte gives the byte back. */
  lemma ReadEscapedByte(b: Byte, rest: string)
    ensures ReadEscaped(EscapeByte(b) + rest) == Prepend(b, ReadEscaped(rest))
  {
    var e := EscapeByte(b);
    if b == 9 || b == 13 || b == 10 || b == 92 || b == 39 || b == 34 {
      assert (e + rest)[2..] == rest;
    } else if IsPrintable(b) {
      assert (e + rest)[1..] == rest;
    } else {
      HexDigitValue(b / 16);
      HexDigitValue(b % 16);
      assert (e + rest)[4..] == rest;
    }
  }

  /** Escaping and then reading back up to the closing quote is the identity:
      the rendering `{:?}` gives a C string loses nothing. */
  lemma {:induction false} ReadEscapedInvertsEscape(bytes: seq<Byte>, rest: string)
    ensures ReadEscaped(EscapeAscii(bytes) + "\"" + rest) == Some((bytes, rest))
  {
    if bytes == [] {
      assert EscapeAscii(bytes) + "\"" + rest == "\"" + rest;
    } else {
      var tail := EscapeAscii(bytes[1..]) + "\"" + rest;
      assert EscapeAscii(bytes) + "\"" + rest == EscapeByte(bytes[0]) + tail;
      ReadEscapedByte(bytes[0], tail);
      ReadEscapedInvertsEscape(bytes[1..], rest);
      assert [bytes[0]] + bytes[1..] == bytes;
    }
  }

  /** The rendered C string is read back exactly, whatever follows it. */
  lemma DebugCStrRoundTrip(bytes: seq<Byte>, rest: string)
    ensures ReadDebugCStr(DebugCStr(bytes) + rest) == Some((bytes, rest))
  {
    var s := DebugCStr(bytes) + rest;
    assert s[1..] == EscapeAscii(bytes) + "\"" + rest;
    ReadEscapedInvertsEscape(bytes, rest);
  }
}
