/** `encodeURIComponent` and `decodeURIComponent`: UTF-8 bytes, percent-encoded.

    Every text survives the way there and back, and nothing but the shortest UTF-8 of a Unicode scalar
    value is read. */
module UriText {
  import opened Decimals

  predicate Unreserved(c: char) {
    'A' <= c <= 'Z' || 'a' <= c <= 'z' || '0' <= c <= '9' || c in {'-', '_', '.', '!', '~', '*', '\'', '(', ')'}
  }

  // ---- bytes

  function Hex(d: nat): char
    requires d < 16
  {
    if d < 10 then ('0' as int + d) as char else ('A' as int + d - 10) as char
  }

  function HexValue(c: char): Option<nat> {
    if '0' <= c <= '9' then Some(c as int - '0' as int)
    else if 'A' <= c <= 'F' then Some(c as int - 'A' as int + 10)
    else if 'a' <= c <= 'f' then Some(c as int - 'a' as int + 10)
    else None
  }

  function EscapeByte(b: nat): (s: string)
    requires b < 256
    ensures |s| == 3
  {
    ['%', Hex(b / 16), Hex(b % 16)]
  }

  /** The byte escaped at the start of the text. */
  function ReadByte(s: string): Option<nat> {
    if |s| < 3 || s[0] != '%' || HexValue(s[1]).None? || HexValue(s[2]).None? then None
    else Some(16 * HexValue(s[1]).value + HexValue(s[2]).value)
  }

  lemma ReadOfEscape(b: nat, rest: string)
    requires b < 256
    ensures var s := EscapeByte(b) + rest; ReadByte(s) == Some(b) && s[3..] == rest
  {
  }

  // ---- UTF-8

  predicate IsScalar(n: int) { 0 <= n < 0xD800 || 0xE000 <= n < 0x11_0000 }

  function Utf8(n: nat): (bytes: seq<nat>)
    requires n < 0x11_0000
    ensures 1 <= |bytes| <= 4 && forall i :: 0 <= i < |bytes| ==> bytes[i] < 256
  {
    var a := n / 64;
    var b := a / 64;
    if n < 0x80 then [n]
    else if n < 0x800 then [0xC0 + a, 0x80 + n % 64]
    else if n < 0x1_0000 then [0xE0 + b, 0x80 + a % 64, 0x80 + n % 64]
    else [0xF0 + b / 64, 0x80 + b % 64, 0x80 + a % 64, 0x80 + n % 64]
  }

  /** How many bytes the first one announces; none for a byte that starts no character. */
  function Announced(b: nat): nat {
    if b < 0x80 then 1 else if b < 0xC0 then 0 else if b < 0xE0 then 2 else if b < 0xF0 then 3 else if b < 0xF8 then 4 else 0
  }

  predicate Continues(b: nat) { 0x80 <= b < 0xC0 }

  /** The character that the bytes spell, in its shortest form only. */
  function Spelled(bytes: seq<nat>): Option<nat> {
    if |bytes| == 0 || Announced(bytes[0]) != |bytes| || exists i :: 1 <= i < |bytes| && !Continues(bytes[i]) then None
    else if |bytes| == 1 then Some(bytes[0])
    else if |bytes| == 2 then Scalar(64 * (bytes[0] - 0xC0) + (bytes[1] - 0x80), 0x80)
    else if |bytes| == 3 then Scalar(4096 * (bytes[0] - 0xE0) + 64 * (bytes[1] - 0x80) + (bytes[2] - 0x80), 0x800)
    else Scalar(262144 * (bytes[0] - 0xF0) + 4096 * (bytes[1] - 0x80) + 64 * (bytes[2] - 0x80) + (bytes[3] - 0x80), 0x1_0000)
  }

  lemma SpelledUtf8(n: nat)
    requires IsScalar(n)
    ensures Spelled(Utf8(n)) == Some(n) && Announced(Utf8(n)[0]) == |Utf8(n)|
  {
    var bytes := Utf8(n);
    var a := n / 64;
    var b := a / 64;
    assert n == 64 * a + n % 64 && a == 64 * b + a % 64 && b == 64 * (b / 64) + b % 64;
  }

  /** So many escaped bytes from the start of the text. */
  function ReadBytes(s: string, k: nat): Option<seq<nat>> {
    if k == 0 then Some([])
    else
      var b := ReadByte(s);
      if b.None? then None
      else
        var more := ReadBytes(s[3..], k - 1);
        if more.None? then None else Some([b.value] + more.value)
  }

  function Scalar(n: nat, least: nat): Option<nat> { if n >= least && IsScalar(n) then Some(n) else None }

  function Escape(bytes: seq<nat>): (s: string)
    requires forall i :: 0 <= i < |bytes| ==> bytes[i] < 256
    ensures |s| == 3 * |bytes|
  {
    if bytes == [] then "" else EscapeByte(bytes[0]) + Escape(bytes[1..])
  }

  lemma EscapeFirst(bytes: seq<nat>, rest: string)
    requires bytes != [] && forall i :: 0 <= i < |bytes| ==> bytes[i] < 256
    ensures var s := Escape(bytes) + rest;
            ReadByte(s) == Some(bytes[0]) && s[3..] == Escape(bytes[1..]) + rest
  {
    hide ReadByte, EscapeByte;
    assert Escape(bytes) + rest == EscapeByte(bytes[0]) + (Escape(bytes[1..]) + rest);
    ReadOfEscape(bytes[0], Escape(bytes[1..]) + rest);
  }

  lemma {:induction false} ReadOfBytes(bytes: seq<nat>, rest: string)
    requires forall i :: 0 <= i < |bytes| ==> bytes[i] < 256
    ensures var s := Escape(bytes) + rest;
            ReadBytes(s, |bytes|) == Some(bytes) && |s| >= 3 * |bytes| && s[3 * |bytes|..] == rest
  {
    hide ReadByte, EscapeByte;
    if bytes != [] {
      EscapeFirst(bytes, rest);
      ReadOfBytes(bytes[1..], rest);
      var s, t := Escape(bytes) + rest, Escape(bytes[1..]) + rest;
      assert s[3 * |bytes|..] == t[3 * |bytes[1..]|..];
      assert bytes == [bytes[0]] + bytes[1..];
    }
  }

  // ---- text

  function EncodeUri(s: string): string {
    if s == "" then "" else (if Unreserved(s[0]) then [s[0]] else Escape(Utf8(s[0] as int))) + EncodeUri(s[1..])
  }

  /** Nothing for text that is not well-formed. */
  function DecodeUri(s: string): Option<string> {
    if s == "" then Some("")
    else if s[0] != '%' then Prepend(s[0], DecodeUri(s[1..]))
    else if ReadByte(s).None? then None
    else
      var k := Announced(ReadByte(s).value);
      var bytes := ReadBytes(s, k);
      var n := if bytes.None? then None else Spelled(bytes.value);
      if n.None? || |s| < 3 * k || k == 0 || !IsScalar(n.value) then None else Prepend(n.value as char, DecodeUri(s[3 * k..]))
  }

  function Prepend(c: char, r: Option<string>): Option<string> {
    match r
    case None => None
    case Some(s) => Some([c] + s)
  }

  /** Decoding undoes encoding. */
  lemma {:induction false} DecodeOfEncodeUri(s: string)
    ensures DecodeUri(EncodeUri(s)) == Some(s)
    ensures ',' !in EncodeUri(s) && ':' !in EncodeUri(s)
  {
    hide ReadByte, ReadBytes, Spelled, Utf8, Escape, Announced;
    if s != "" {
      var c, rest := s[0], EncodeUri(s[1..]);
      DecodeOfEncodeUri(s[1..]);
      assert s == [c] + s[1..];
      var text := EncodeUri(s);
      if Unreserved(c) {
        assert text == [c] + rest && text[1..] == rest;
      } else {
        var bytes := Utf8(c as int);
        SpelledUtf8(c as int);
        EscapeFirst(bytes, rest);
        ReadOfBytes(bytes, rest);
        EscapedIsPlain(bytes);
        EscapedStarts(bytes);
        assert text == Escape(bytes) + rest;
      }
    }
  }

  lemma EscapedStarts(bytes: seq<nat>)
    requires bytes != [] && forall i :: 0 <= i < |bytes| ==> bytes[i] < 256
    ensures Escape(bytes)[0] == '%'
  {
  }

  lemma {:induction false} EscapedIsPlain(bytes: seq<nat>)
    requires forall i :: 0 <= i < |bytes| ==> bytes[i] < 256
    ensures ',' !in Escape(bytes) && ':' !in Escape(bytes)
  {
    if bytes != [] {
      EscapedIsPlain(bytes[1..]);
    }
  }

  /** Text without escapes is read as it is. */
  lemma {:induction false} PlainIsKept(s: string)
    requires '%' !in s
    ensures DecodeUri(s) == Some(s)
  {
    if s != "" {
      PlainIsKept(s[1..]);
      assert s == [s[0]] + s[1..];
    }
  }

  // ---- nothing else is read

  /** The characters that stand for themselves, by code point: letters, digits and nine marks. */
  lemma UnreservedAre(c: char)
    ensures Unreserved(c) <==> var n := c as int;
                               || 65 <= n <= 90 || 97 <= n <= 122 || 48 <= n <= 57
                               || n in {33, 39, 40, 41, 42, 45, 46, 95, 126}
  {
  }

  /** Both cases of the hexadecimal digits are read, and no other character. */
  lemma HexIs(c: char, d: nat)
    requires d < 16
    ensures HexValue(c) == Some(d) <==> c == Hex(d) || (d >= 10 && c as int == Hex(d) as int + 32)
    ensures HexValue(c).Some? ==> HexValue(c).value < 16
  {
  }

  lemma TwoBytes(x: nat, y: nat)
    requires x < 256 && y < 256 && Spelled([x, y]).Some?
    ensures IsScalar(Spelled([x, y]).value) && Utf8(Spelled([x, y]).value) == [x, y]
  {
    assert Continues([x, y][1]);
    assert Spelled([x, y]).value == 64 * (x - 0xC0) + (y - 0x80);
  }

  lemma ThreeBytes(x: nat, y: nat, z: nat)
    requires x < 256 && y < 256 && z < 256 && Spelled([x, y, z]).Some?
    ensures IsScalar(Spelled([x, y, z]).value) && Utf8(Spelled([x, y, z]).value) == [x, y, z]
  {
    assert Continues([x, y, z][1]) && Continues([x, y, z][2]);
    var n := Spelled([x, y, z]).value;
    assert n == 64 * (64 * (x - 0xE0) + (y - 0x80)) + (z - 0x80);
    assert n / 64 == 64 * (x - 0xE0) + (y - 0x80);
  }

  lemma FourBytes(x: nat, y: nat, z: nat, w: nat)
    requires x < 256 && y < 256 && z < 256 && w < 256 && Spelled([x, y, z, w]).Some?
    ensures IsScalar(Spelled([x, y, z, w]).value) && Utf8(Spelled([x, y, z, w]).value) == [x, y, z, w]
  {
    assert Continues([x, y, z, w][1]) && Continues([x, y, z, w][2]) && Continues([x, y, z, w][3]);
    var n := Spelled([x, y, z, w]).value;
    assert n == 64 * (64 * (64 * (x - 0xF0) + (y - 0x80)) + (z - 0x80)) + (w - 0x80);
    assert n / 64 == 64 * (64 * (x - 0xF0) + (y - 0x80)) + (z - 0x80);
    assert n / 64 / 64 == 64 * (x - 0xF0) + (y - 0x80);
  }

  /** Only the shortest UTF-8 of a Unicode scalar value is read. */
  lemma SpelledOnlyUtf8(bytes: seq<nat>)
    requires (forall i :: 0 <= i < |bytes| ==> bytes[i] < 256) && Spelled(bytes).Some?
    ensures IsScalar(Spelled(bytes).value) && Utf8(Spelled(bytes).value) == bytes
  {
    if |bytes| == 2 {
      assert bytes == [bytes[0], bytes[1]];
      TwoBytes(bytes[0], bytes[1]);
    } else if |bytes| == 3 {
      assert bytes == [bytes[0], bytes[1], bytes[2]];
      ThreeBytes(bytes[0], bytes[1], bytes[2]);
    } else if |bytes| == 4 {
      assert bytes == [bytes[0], bytes[1], bytes[2], bytes[3]];
      FourBytes(bytes[0], bytes[1], bytes[2], bytes[3]);
    }
  }

  /** Scalar values, by code point: up to U+10FFFF without the surrogates. */
  lemma ScalarsAre(n: int)
    ensures IsScalar(n) <==> 0 <= n <= 0x10FFFF && !(0xD800 <= n <= 0xDFFF)
  {
  }
}
