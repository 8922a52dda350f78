/**
 * `encodeURIComponent` and `decodeURIComponent` (ECMAScript 5.1, sections 15.1.3.2 and 15.1.3.4).
 * A character outside the unreserved set is written as the `%XX` escapes of its UTF-8 bytes,
 * with upper-case hexadecimal digits. Dafny characters are Unicode scalar values, so the
 * lone-surrogate case in which the encoder throws cannot arise.
 */
module Uri {
  import opened Wrappers

  /** uriAlpha, DecimalDigit and uriMark: the characters `encodeURIComponent` leaves alone. */
  predicate IsUnreserved(c: char) {
    ('A' <= c <= 'Z') || ('a' <= c <= 'z') || ('0' <= c <= '9')
    || c == '-' || c == '_' || c == '.' || c == '!' || c == '~' || c == '*' || c == '\'' || c == '(' || c == ')'
  }

  /** Characters that can appear in an encoded component. */
  predicate IsEncodedChar(c: char) {
    IsUnreserved(c) || c == '%'
  }

  function HexDigit(d: nat): (c: char)
    requires d < 16
    ensures IsUnreserved(c)
  {
    if d < 10 then ('0' as int + d) as char else ('A' as int + d - 10) as char
  }

  function HexValue(c: char): (r: Option<nat>)
    ensures r.Some? ==> r.value < 16
  {
    if '0' <= c <= '9' then Some(c as int - '0' as int)
    else if 'A' <= c <= 'F' then Some(c as int - 'A' as int + 10)
    else if 'a' <= c <= 'f' then Some(c as int - 'a' as int + 10)
    else None
  }

  lemma HexRoundTrip(d: nat)
    requires d < 16
    ensures HexValue(HexDigit(d)) == Some(d)
  {
  }

  /** The UTF-8 bytes of a scalar value. */
  function Utf8(c: char): (bytes: seq<nat>)
    ensures 1 <= |bytes| <= 4
    ensures forall i :: 0 <= i < |bytes| ==> bytes[i] < 256
  {
    var v := c as int;
    if v < 0x80 then [v]
    else if v < 0x800 then [0xC0 + v / 64, 0x80 + v % 64]
    else if v < 0x10000 then [0xE0 + (v / 64) / 64, 0x80 + (v / 64) % 64, 0x80 + v % 64]
    else [0xF0 + ((v / 64) / 64) / 64, 0x80 + ((v / 64) / 64) % 64, 0x80 + (v / 64) % 64, 0x80 + v % 64]
  }

  function PercentByte(b: nat): (r: string)
    requires b < 256
    ensures |r| == 3 && r[0] == '%'
  {
    ['%', HexDigit(b / 16), HexDigit(b % 16)]
  }

  function PercentBytes(bytes: seq<nat>): (r: string)
    requires forall i :: 0 <= i < |bytes| ==> bytes[i] < 256
    ensures |r| == 3 * |bytes|
    ensures forall i :: 0 <= i < |r| ==> IsEncodedChar(r[i])
  {
    if bytes == [] then [] else PercentByte(bytes[0]) + PercentBytes(bytes[1..])
  }

  function EncodeChar(c: char): (r: string)
    ensures |r| >= 1
    ensures forall i :: 0 <= i < |r| ==> IsEncodedChar(r[i])
    ensures IsUnreserved(c) <==> r == [c]
  {
    if IsUnreserved(c) then [c] else PercentBytes(Utf8(c))
  }

  /** `encodeURIComponent(s)`: the result uses only unreserved characters and `%`. */
  function EncodeURIComponent(s: string): (r: string)
    ensures forall i :: 0 <= i < |r| ==> IsEncodedChar(r[i])
    ensures |r| >= |s|
  {
    if s == [] then [] else EncodeChar(s[0]) + EncodeURIComponent(s[1..])
  }

  // ---------------------------------------------------------------------------
  // decoding
  // ---------------------------------------------------------------------------

  /** The byte written as `%XX` at index `i`, if there is one. */
  function ParseByte(s: string, i: nat): (r: Option<nat>)
    ensures r.Some? ==> i + 3 <= |s| && r.value < 256
  {
    if i + 3 <= |s| && s[i] == '%' && HexValue(s[i + 1]).Some? && HexValue(s[i + 2]).Some?
    then Some(16 * HexValue(s[i + 1]).value + HexValue(s[i + 2]).value)
    else None
  }

  /** Reads `count` continuation bytes `10xxxxxx`, each as `%XX`, folding their payload into `acc`. */
  function Continuation(s: string, i: nat, count: nat, acc: nat): (r: Option<nat>)
    requires i <= |s|
    ensures r.Some? ==> i + 3 * count <= |s|
    decreases count
  {
    if count == 0 then Some(acc)
    else match ParseByte(s, i)
      case None => None
      case Some(b) =>
        if 0x80 <= b < 0xC0 then Continuation(s, i + 3, count - 1, acc * 64 + (b - 0x80)) else None
  }

  /** Decodes the escape sequence for one character at the head of `s`: the character and the length consumed. */
  function DecodeEscape(s: string): (r: Option<(char, nat)>)
    ensures r.Some? ==> 3 <= r.value.1 <= |s|
  {
    match ParseByte(s, 0)
    case None => None
    case Some(b1) =>
      if b1 < 0x80 then Some((b1 as char, 3))
      else if b1 < 0xC0 || b1 >= 0xF8 then None
      else
        var n: nat := if b1 < 0xE0 then 2 else if b1 < 0xF0 then 3 else 4;
        var lead: nat := if n == 2 then b1 - 0xC0 else if n == 3 then b1 - 0xE0 else b1 - 0xF0;
        var least := if n == 2 then 0x80 else if n == 3 then 0x800 else 0x10000;
        match Continuation(s, 3, n - 1, lead)
        case None => None
        case Some(v) =>
          if v < least || (0xD800 <= v < 0xE000) || v >= 0x110000 then None
          else Some((v as char, 3 * n))
  }

  /** `decodeURIComponent(s)`; `None` where it would throw `URIError`. */
  function DecodeURIComponent(s: string): Option<string>
    decreases |s|
  {
    if s == [] then Some([])
    else if s[0] != '%' then
      match DecodeURIComponent(s[1..])
      case None => None
      case Some(t) => Some([s[0]] + t)
    else
      match DecodeEscape(s)
      case None => None
      case Some((c, k)) =>
        match DecodeURIComponent(s[k..])
        case None => None
        case Some(t) => Some([c] + t)
  }

  lemma ParsePercentByte(s: string, i: nat, b: nat)
    requires b < 256
    requires i + 3 <= |s| && s[i..i + 3] == PercentByte(b)
    ensures ParseByte(s, i) == Some(b)
  {
    assert s[i] == '%' && s[i + 1] == HexDigit(b / 16) && s[i + 2] == HexDigit(b % 16);
    HexRoundTrip(b / 16);
    HexRoundTrip(b % 16);
  }

  lemma DecodeTwoBytes(s: string, v: nat)
    requires 0x80 <= v < 0x800
    requires ParseByte(s, 0) == Some(0xC0 + v / 64) && ParseByte(s, 3) == Some(0x80 + v % 64)
    ensures DecodeEscape(s) == Some((v as char, 6))
  {
    assert Continuation(s, 6, 0, (v / 64) * 64 + v % 64) == Some(v);
  }

  lemma DecodeThreeBytes(s: string, v: nat)
    requires 0x800 <= v < 0x10000 && !(0xD800 <= v < 0xE000)
    requires ParseByte(s, 0) == Some(0xE0 + (v / 64) / 64)
    requires ParseByte(s, 3) == Some(0x80 + (v / 64) % 64)
    requires ParseByte(s, 6) == Some(0x80 + v % 64)
    ensures DecodeEscape(s) == Some((v as char, 9))
  {
    var q := v / 64;
    assert (q / 64) * 64 + q % 64 == q;
    assert Continuation(s, 9, 0, q * 64 + v % 64) == Some(v);
    assert Continuation(s, 6, 1, q) == Some(v);
  }

  lemma DecodeFourBytes(s: string, v: nat)
    requires 0x10000 <= v < 0x110000
    requires ParseByte(s, 0) == Some(0xF0 + ((v / 64) / 64) / 64)
    requires ParseByte(s, 3) == Some(0x80 + ((v / 64) / 64) % 64)
    requires ParseByte(s, 6) == Some(0x80 + (v / 64) % 64)
    requires ParseByte(s, 9) == Some(0x80 + v % 64)
    ensures DecodeEscape(s) == Some((v as char, 12))
  {
    var q := v / 64;
    var q2 := q / 64;
    assert (q2 / 64) * 64 + q2 % 64 == q2;
    assert q2 * 64 + q % 64 == q;
    assert Continuation(s, 12, 0, q * 64 + v % 64) == Some(v);
    assert Continuation(s, 9, 1, q) == Some(v);
    assert Continuation(s, 6, 2, q2) == Some(v);
  }

  /** The `k`-th escape of an encoded character reads back as its `k`-th UTF-8 byte. */
  lemma ParseEncodedByte(c: char, rest: string, k: nat)
    requires !IsUnreserved(c)
    requires k < |Utf8(c)|
    ensures ParseByte(EncodeChar(c) + rest, 3 * k) == Some(Utf8(c)[k])
  {
    var bs := Utf8(c);
    var s := EncodeChar(c) + rest;
    PercentBytesAt(bs, k);
    assert s[3 * k..3 * k + 3] == PercentBytes(bs)[3 * k..3 * k + 3];
    ParsePercentByte(s, 3 * k, bs[k]);
  }

  /** The escapes written for a character outside the unreserved set decode to that character. */
  lemma DecodeEscapeOfEncoded(c: char, rest: string)
    requires !IsUnreserved(c)
    ensures DecodeEscape(EncodeChar(c) + rest) == Some((c, |EncodeChar(c)|))
  {
    var v := c as int;
    if v < 0x80 {
      ParseEncodedByte(c, rest, 0);
    } else if v < 0x800 {
      DecodeTwoByteChar(c, rest);
    } else if v < 0x10000 {
      DecodeThreeByteChar(c, rest);
    } else {
      DecodeFourByteChar(c, rest);
    }
  }

  lemma DecodeTwoByteChar(c: char, rest: string)
    requires !IsUnreserved(c) && 0x80 <= c as int < 0x800
    ensures DecodeEscape(EncodeChar(c) + rest) == Some((c, |EncodeChar(c)|))
  {
    var v := c as int;
    var s := EncodeChar(c) + rest;
    var bs := Utf8(c);
    assert |bs| == 2 && bs[0] == 0xC0 + v / 64 && bs[1] == 0x80 + v % 64;
    assert ParseByte(s, 0) == Some(bs[0]) by { ParseEncodedByte(c, rest, 0); }
    assert ParseByte(s, 3) == Some(bs[1]) by { ParseEncodedByte(c, rest, 1); }
    assert |EncodeChar(c)| == 6;
    DecodeTwoBytes(s, v);
  }

  lemma DecodeThreeByteChar(c: char, rest: string)
    requires !IsUnreserved(c) && 0x800 <= c as int < 0x10000
    ensures DecodeEscape(EncodeChar(c) + rest) == Some((c, |EncodeChar(c)|))
  {
    var v := c as int;
    var s := EncodeChar(c) + rest;
    var bs := Utf8(c);
    assert |bs| == 3 && bs[0] == 0xE0 + (v / 64) / 64 && bs[1] == 0x80 + (v / 64) % 64 && bs[2] == 0x80 + v % 64;
    assert ParseByte(s, 0) == Some(bs[0]) by { ParseEncodedByte(c, rest, 0); }
    assert ParseByte(s, 3) == Some(bs[1]) by { ParseEncodedByte(c, rest, 1); }
    assert ParseByte(s, 6) == Some(bs[2]) by { ParseEncodedByte(c, rest, 2); }
    assert |EncodeChar(c)| == 9;
    DecodeThreeBytes(s, v);
  }

  lemma DecodeFourByteChar(c: char, rest: string)
    requires !IsUnreserved(c) && 0x10000 <= c as int
    ensures DecodeEscape(EncodeChar(c) + rest) == Some((c, |EncodeChar(c)|))
  {
    var v := c as int;
    var s := EncodeChar(c) + rest;
    var bs := Utf8(c);
    assert |bs| == 4 && bs[0] == 0xF0 + ((v / 64) / 64) / 64 && bs[1] == 0x80 + ((v / 64) / 64) % 64;
    assert bs[2] == 0x80 + (v / 64) % 64 && bs[3] == 0x80 + v % 64;
    assert ParseByte(s, 0) == Some(bs[0]) by { ParseEncodedByte(c, rest, 0); }
    assert ParseByte(s, 3) == Some(bs[1]) by { ParseEncodedByte(c, rest, 1); }
    assert ParseByte(s, 6) == Some(bs[2]) by { ParseEncodedByte(c, rest, 2); }
    assert ParseByte(s, 9) == Some(bs[3]) by { ParseEncodedByte(c, rest, 3); }
    assert |EncodeChar(c)| == 12;
    DecodeFourBytes(s, v);
  }

  lemma {:induction false} PercentBytesAt(bs: seq<nat>, k: nat)
    requires forall i :: 0 <= i < |bs| ==> bs[i] < 256
    requires k < |bs|
    ensures PercentBytes(bs)[3 * k..3 * k + 3] == PercentByte(bs[k])
  {
    if k > 0 {
      PercentBytesAt(bs[1..], k - 1);
      assert PercentBytes(bs) == PercentByte(bs[0]) + PercentBytes(bs[1..]);
      assert PercentBytes(bs)[3 * k..3 * k + 3] == PercentBytes(bs[1..])[3 * (k - 1)..3 * (k - 1) + 3];
    }
  }

  /** `decodeURIComponent(encodeURIComponent(s)) === s` for every string. */
  lemma {:induction false} DecodeEncode(s: string)
    ensures DecodeURIComponent(EncodeURIComponent(s)) == Some(s)
    decreases |s|
  {
    if s != [] {
      var c := s[0];
      var rest := EncodeURIComponent(s[1..]);
      var e := EncodeURIComponent(s);
      DecodeEncode(s[1..]);
      assert e == EncodeChar(c) + rest;
      if IsUnreserved(c) {
        assert e[0] == c && e[1..] == rest;
        assert c != '%';
      } else {
        DecodeEscapeOfEncoded(c, rest);
        assert e[0] == '%';
        assert e[|EncodeChar(c)|..] == rest;
      }
      assert [c] + s[1..] == s;
    }
  }
}
