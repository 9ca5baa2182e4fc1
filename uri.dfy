/** `encodeURIComponent`: every character outside its unreserved set is written
    as the percent-encoded octets (section 2.1 of RFC 3986, upper-case hex
    digits) of its UTF-8 encoding (section 3 of RFC 3629). Dafny characters are
    Unicode scalar values, so the lone surrogates for which the JavaScript
    function throws do not arise. */
module UriEncoding {
  import opened Common

  /** The characters `encodeURIComponent` leaves alone. */
  predicate Unreserved(c: char) {
    ('A' <= c <= 'Z') || ('a' <= c <= 'z') || ('0' <= c <= '9')
    || c == '-' || c == '_' || c == '.' || c == '!' || c == '~' || c == '*' || c == '\'' || c == '(' || c == ')'
  }

  const HexDigits: string := "0123456789ABCDEF"

  function Hex(d: nat): (c: char)
    requires d < 16
    ensures ('0' <= c <= '9') || ('A' <= c <= 'F')
  {
    HexDigits[d]
  }

  /** The value of an upper-case hex digit. */
  function HexValue(c: char): nat {
    if '0' <= c <= '9' then c as int - '0' as int
    else if 'A' <= c <= 'F' then c as int - 'A' as int + 10
    else 0
  }

  lemma HexValueHex(d: nat)
    requires d < 16
    ensures HexValue(Hex(d)) == d
  {
  }

  /** The UTF-8 octets of one character. */
  function Utf8(c: char): (r: seq<nat>)
    ensures 1 <= |r| <= 4
    ensures forall k :: 0 <= k < |r| ==> r[k] < 256
    ensures c as int < 0x80 ==> r == [c as int]
    ensures c as int >= 0x80 ==> forall k :: 0 <= k < |r| ==> r[k] >= 0x80
  {
    var cp := c as int;
    if cp < 0x80 then [cp]
    else if cp < 0x800 then [0xC0 + cp / 64, 0x80 + cp % 64]
    else if cp < 0x10000 then [0xE0 + cp / 4096, 0x80 + (cp / 64) % 64, 0x80 + cp % 64]
    else [0xF0 + cp / 262144, 0x80 + (cp / 4096) % 64, 0x80 + (cp / 64) % 64, 0x80 + cp % 64]
  }

  /** The code point a well-formed UTF-8 sequence of one to four octets denotes. */
  function Utf8Value(bs: seq<int>): int {
    if |bs| == 1 then bs[0]
    else if |bs| == 2 then (bs[0] - 0xC0) * 64 + (bs[1] - 0x80)
    else if |bs| == 3 then (bs[0] - 0xE0) * 4096 + (bs[1] - 0x80) * 64 + (bs[2] - 0x80)
    else if |bs| == 4 then (bs[0] - 0xF0) * 262144 + (bs[1] - 0x80) * 4096 + (bs[2] - 0x80) * 64 + (bs[3] - 0x80)
    else 0
  }

  /** Decoding the octets gives back the character; the lead octet says how many
      octets follow, and every other octet is a continuation octet. */
  lemma Utf8RoundTrip(c: char)
    ensures Utf8Value(Utf8(c)) == c as int
    ensures var r := Utf8(c);
      && (|r| == 1 <==> r[0] < 0x80)
      && (|r| == 2 <==> 0xC0 <= r[0] < 0xE0)
      && (|r| == 3 <==> 0xE0 <= r[0] < 0xF0)
      && (|r| == 4 <==> 0xF0 <= r[0] < 0xF8)
      && forall k :: 1 <= k < |r| ==> 0x80 <= r[k] < 0xC0
  {
    var cp := c as int;
    if cp >= 0x10000 {
      DivMod64(cp);
      DivMod64(cp / 64);
      DivMod64(cp / 4096);
      assert cp / 64 / 64 == cp / 4096;
      assert cp / 4096 / 64 == cp / 262144;
    } else if cp >= 0x800 {
      DivMod64(cp);
      DivMod64(cp / 64);
      assert cp / 64 / 64 == cp / 4096;
    } else if cp >= 0x80 {
      DivMod64(cp);
    }
  }

  lemma DivMod64(n: nat)
    ensures n == (n / 64) * 64 + n % 64 && 0 <= n % 64 < 64
    ensures n / 64 / 64 == n / 4096 && n / 4096 / 64 == n / 262144
  {
  }

  /** `%XY` for one octet. */
  function PercentByte(b: nat): (r: string)
    requires b < 256
    ensures |r| == 3 && r[0] == '%'
  {
    ['%', Hex(b / 16), Hex(b % 16)]
  }

  function PercentBytes(bs: seq<nat>): (r: string)
    requires forall k :: 0 <= k < |bs| ==> bs[k] < 256
    ensures |r| == 3 * |bs|
  {
    if bs == [] then "" else PercentByte(bs[0]) + PercentBytes(bs[1..])
  }

  function EncodeChar(c: char): string {
    if Unreserved(c) then [c] else PercentBytes(Utf8(c))
  }

  /** `encodeURIComponent(s)`. */
  function EncodeURIComponent(s: string): string {
    if s == [] then "" else EncodeChar(s[0]) + EncodeURIComponent(s[1..])
  }

  /** The UTF-8 octets of a string. */
  function Utf8Bytes(s: string): seq<nat> {
    if s == [] then [] else Utf8(s[0]) + Utf8Bytes(s[1..])
  }

  /** Percent-decoding to octets: `%XY` is the octet with hex digits X and Y,
      any other character the octet of its code. */
  function PercentDecode(t: string): seq<nat> {
    if |t| >= 3 && t[0] == '%' then [HexValue(t[1]) * 16 + HexValue(t[2])] + PercentDecode(t[3..])
    else if t != [] then [t[0] as int] + PercentDecode(t[1..])
    else []
  }

  lemma DecodeOne(b: nat, rest: string)
    requires b < 256
    ensures PercentDecode(PercentByte(b) + rest) == [b] + PercentDecode(rest)
  {
    HexValueHex(b / 16);
    HexValueHex(b % 16);
    var t := PercentByte(b) + rest;
    assert t[0] == '%' && t[1] == Hex(b / 16) && t[2] == Hex(b % 16);
    assert t[3..] == rest;
  }

  lemma {:induction false} DecodePercentBytes(bs: seq<nat>, rest: string)
    requires forall k :: 0 <= k < |bs| ==> bs[k] < 256
    ensures PercentDecode(PercentBytes(bs) + rest) == bs + PercentDecode(rest)
  {
    if bs == [] {
      assert PercentBytes(bs) + rest == rest;
    } else {
      var head, more := PercentByte(bs[0]), PercentBytes(bs[1..]);
      assert PercentBytes(bs) == head + more;
      ConcatAssoc(head, more, rest);
      DecodeOne(bs[0], more + rest);
      DecodePercentBytes(bs[1..], rest);
      ConcatAssoc([bs[0]], bs[1..], PercentDecode(rest));
      assert bs == [bs[0]] + bs[1..];
    }
  }

  lemma DecodeChar(c: char, rest: string)
    ensures PercentDecode(EncodeChar(c) + rest) == Utf8(c) + PercentDecode(rest)
  {
    if Unreserved(c) {
      assert ([c] + rest)[1..] == rest;
    } else {
      DecodePercentBytes(Utf8(c), rest);
    }
  }

  /** Percent-decoding the encoding gives back the UTF-8 octets of the input:
      nothing is lost or changed, only written differently. */
  lemma {:induction false} DecodeEncode(s: string)
    ensures PercentDecode(EncodeURIComponent(s)) == Utf8Bytes(s)
  {
    if s != [] {
      DecodeChar(s[0], EncodeURIComponent(s[1..]));
      DecodeEncode(s[1..]);
    }
  }
}
