/** `encodeURIComponent` and its inverse `decodeURIComponent`: every
    character outside the unreserved set is written as the UTF-8 bytes of its
    code point (RFC 3629), each as `%` and two upper-case hexadecimal digits
    (the percent-encoding of section 2.1 of RFC 3986).

    A Dafny `char` is a Unicode scalar value, so the lone surrogates on which
    the JavaScript function throws cannot occur.
 */
module UriComponent {
  import opened Text

  type Byte = b: int | 0 <= b < 256

  /** The characters `encodeURIComponent` leaves alone:
      `A-Z a-z 0-9 - _ . ! ~ * ' ( )`. */
  predicate IsUnreserved(c: char) {
    || ('A' <= c <= 'Z') || ('a' <= c <= 'z') || ('0' <= c <= '9')
    || c == '-' || c == '_' || c == '.' || c == '!' || c == '~'
    || c == '*' || c == '\'' || c == '(' || c == ')'
  }

  /** The UTF-8 encoding of one code point. */
  function Utf8Char(c: char): (bs: seq<Byte>)
    ensures 1 <= |bs| <= 4
  {
    var cp := c as int;
    if cp < 0x80 then [cp]
    else if cp < 0x800 then [0xC0 + cp / 64, 0x80 + cp % 64]
    else if cp < 0x10000 then [0xE0 + cp / 4096, 0x80 + (cp / 64) % 64, 0x80 + cp % 64]
    else [0xF0 + cp / 262144, 0x80 + (cp / 4096) % 64, 0x80 + (cp / 64) % 64, 0x80 + cp % 64]
  }

  /** The length of the UTF-8 sequence a lead byte announces; 0 for a byte
      that cannot start one. */
  function Utf8Length(b: Byte): nat {
    if b < 0x80 then 1
    else if 0xC0 <= b < 0xE0 then 2
    else if 0xE0 <= b < 0xF0 then 3
    else if 0xF0 <= b < 0xF8 then 4
    else 0
  }

  predicate IsContinuation(b: Byte) {
    0x80 <= b < 0xC0
  }

  /** Decodes one complete UTF-8 sequence, rejecting bad continuation bytes,
      over-long forms, surrogates and values above U+10FFFF. */
  function DecodeUtf8(bs: seq<Byte>): Option<char> {
    if |bs| == 1 && bs[0] < 0x80 then Some(bs[0] as char)
    else if |bs| == 2 && Utf8Length(bs[0]) == 2 && IsContinuation(bs[1]) then
      var cp := (bs[0] as int - 0xC0) * 64 + (bs[1] as int - 0x80);
      if 0x80 <= cp then Some(cp as char) else None
    else if |bs| == 3 && Utf8Length(bs[0]) == 3 && IsContinuation(bs[1]) && IsContinuation(bs[2]) then
      var cp := (bs[0] as int - 0xE0) * 4096 + (bs[1] as int - 0x80) * 64 + (bs[2] as int - 0x80);
      if 0x800 <= cp && !(0xD800 <= cp < 0xE000) then Some(cp as char) else None
    else if |bs| == 4 && Utf8Length(bs[0]) == 4
         && IsContinuation(bs[1]) && IsContinuation(bs[2]) && IsContinuation(bs[3]) then
      var cp := (bs[0] as int - 0xF0) * 262144 + (bs[1] as int - 0x80) * 4096 + (bs[2] as int - 0x80) * 64 + (bs[3] as int - 0x80);
      if 0x10000 <= cp <= 0x10FFFF then Some(cp as char) else None
    else None
  }

  /** The upper-case hexadecimal digit of `v`. */
  function HexDigit(v: nat): (c: char)
    requires v < 16
    ensures IsUnreserved(c)
  {
    if v < 10 then (('0' as int) + v) as char else (('A' as int) + v - 10) as char
  }

  /** The value of a hexadecimal digit of either case. */
  function HexValue(c: char): Option<nat> {
    if '0' <= c <= '9' then Some((c as int) - ('0' as int))
    else if 'A' <= c <= 'F' then Some((c as int) - ('A' as int) + 10)
    else if 'a' <= c <= 'f' then Some((c as int) - ('a' as int) + 10)
    else None
  }

  /** `%XX` for each byte. */
  function Escape(bs: seq<Byte>): (r: string)
    ensures |r| == 3 * |bs|
    ensures forall i :: 0 <= i < |r| ==> IsUnreserved(r[i]) || r[i] == '%'
  {
    if bs == [] then []
    else ['%', HexDigit(bs[0] / 16), HexDigit(bs[0] % 16)] + Escape(bs[1..])
  }

  /** The `k`-th triple of an escape is a `%` and the two hexadecimal digits
      of the `k`-th byte, high half first. */
  lemma {:induction false} EscapeLayout(bs: seq<Byte>, k: nat)
    requires k < |bs|
    ensures var r := Escape(bs);
      && r[3 * k] == '%'
      && HexValue(r[3 * k + 1]) == Some(bs[k] / 16)
      && HexValue(r[3 * k + 2]) == Some(bs[k] % 16)
    decreases k
  {
    var r := Escape(bs);
    var rest := Escape(bs[1..]);
    assert r == ['%', HexDigit(bs[0] / 16), HexDigit(bs[0] % 16)] + rest;
    if k == 0 {
      HexRoundTrip(bs[0] / 16);
      HexRoundTrip(bs[0] % 16);
    } else {
      var i := 3 * (k - 1);
      EscapeLayout(bs[1..], k - 1);
      assert bs[k] == bs[1..][k - 1];
      assert 3 * k == i + 3;
      assert r[i + 3] == rest[i] && r[i + 4] == rest[i + 1] && r[i + 5] == rest[i + 2];
    }
  }

  function EncodeChar(c: char): string {
    if IsUnreserved(c) then [c] else Escape(Utf8Char(c))
  }

  /** `encodeURIComponent(s)`: the result is empty exactly when `s` is, and
      holds nothing but unreserved characters and `%`. */
  function EncodeComponent(s: string): (r: string)
    ensures |r| == 0 <==> |s| == 0
    ensures forall i :: 0 <= i < |r| ==> IsUnreserved(r[i]) || r[i] == '%'
  {
    if s == [] then [] else EncodeChar(s[0]) + EncodeComponent(s[1..])
  }

  /** Encoding is character by character, so it commutes with concatenation. */
  lemma {:induction false} EncodeAppend(a: string, b: string)
    ensures EncodeComponent(a + b) == EncodeComponent(a) + EncodeComponent(b)
  {
    if a != [] {
      assert (a + b)[0] == a[0];
      assert (a + b)[1..] == a[1..] + b;
      EncodeAppend(a[1..], b);
    } else {
      assert a + b == b;
    }
  }

  /** The byte spelled by the escape `%XX` at the front of `s`. */
  function ReadByte(s: string): Option<Byte> {
    if |s| >= 3 && s[0] == '%' && HexValue(s[1]).Some? && HexValue(s[2]).Some?
       && HexValue(s[1]).value < 16 && HexValue(s[2]).value < 16 then
      Some(HexValue(s[1]).value * 16 + HexValue(s[2]).value)
    else None
  }

  /** The bytes spelled by `n` consecutive escapes at the front of `s`. */
  function ReadBytes(s: string, n: nat): Option<seq<Byte>>
    decreases n
  {
    if n == 0 then Some([])
    else match ReadByte(s)
      case None => None
      case Some(b) =>
        match ReadBytes(s[3..], n - 1)
        case None => None
        case Some(rest) => Some([b] + rest)
  }

  function Cons(c: char, o: Option<string>): Option<string> {
    match o
    case None => None
    case Some(s) => Some([c] + s)
  }

  /** `decodeURIComponent(s)`; `None` where it throws `URIError`. */
  function DecodeComponent(s: string): Option<string>
    decreases |s|
  {
    if s == [] then Some([])
    else if s[0] != '%' then Cons(s[0], DecodeComponent(s[1..]))
    else match ReadByte(s)
      case None => None
      case Some(b) =>
        var n := Utf8Length(b);
        if n == 0 || |s| < 3 * n then None
        else match ReadBytes(s, n)
          case None => None
          case Some(bs) =>
            match DecodeUtf8(bs)
            case None => None
            case Some(c) => Cons(c, DecodeComponent(s[3 * n..]))
  }

  lemma HexRoundTrip(v: nat)
    requires v < 16
    ensures HexValue(HexDigit(v)) == Some(v)
  {
  }

  /** Escaped bytes read back as themselves. */
  lemma {:induction false} ReadEscaped(bs: seq<Byte>, rest: string)
    ensures ReadBytes(Escape(bs) + rest, |bs|) == Some(bs)
  {
    if bs != [] {
      var s := Escape(bs) + rest;
      HexRoundTrip(bs[0] / 16);
      HexRoundTrip(bs[0] % 16);
      assert ReadByte(s) == Some(bs[0]);
      assert s[3..] == Escape(bs[1..]) + rest;
      ReadEscaped(bs[1..], rest);
      assert [bs[0]] + bs[1..] == bs;
    }
  }

  /** Decoding the UTF-8 encoding of a code point gives the code point. */
  lemma Utf8RoundTrip(c: char)
    ensures Utf8Length(Utf8Char(c)[0]) == |Utf8Char(c)|
    ensures DecodeUtf8(Utf8Char(c)) == Some(c)
  {
    var cp := c as int;
    if cp < 0x80 {
    } else if cp < 0x800 {
      assert (cp / 64) * 64 + cp % 64 == cp;
    } else if cp < 0x10000 {
      assert cp / 4096 == (cp / 64) / 64;
      assert (cp / 64) == (cp / 4096) * 64 + (cp / 64) % 64;
      assert (cp / 64) * 64 + cp % 64 == cp;
    } else {
      assert cp / 262144 == (cp / 4096) / 64;
      assert cp / 4096 == (cp / 64) / 64;
      assert (cp / 4096) == (cp / 262144) * 64 + (cp / 4096) % 64;
      assert (cp / 64) == (cp / 4096) * 64 + (cp / 64) % 64;
      assert (cp / 64) * 64 + cp % 64 == cp;
    }
  }

  /** Decoding consumes exactly the encoding of one character. */
  lemma DecodeEncodedChar(c: char, rest: string)
    ensures DecodeComponent(EncodeChar(c) + rest) == Cons(c, DecodeComponent(rest))
  {
    var s := EncodeChar(c) + rest;
    if IsUnreserved(c) {
      assert s[1..] == rest;
    } else {
      var bs := Utf8Char(c);
      Utf8RoundTrip(c);
      ReadEscaped(bs, rest);
      HexRoundTrip(bs[0] / 16);
      HexRoundTrip(bs[0] % 16);
      assert ReadByte(s) == Some(bs[0]);
      assert s[3 * |bs|..] == rest;
    }
  }

  /** `decodeURIComponent(encodeURIComponent(s)) === s` for every string. */
  lemma {:induction false} DecodeEncode(s: string)
    ensures DecodeComponent(EncodeComponent(s)) == Some(s)
  {
    if s != [] {
      var tail := EncodeComponent(s[1..]);
      assert EncodeComponent(s) == EncodeChar(s[0]) + tail;
      DecodeEncodedChar(s[0], tail);
      DecodeEncode(s[1..]);
      assert [s[0]] + s[1..] == s;
    }
  }
}
