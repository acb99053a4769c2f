/**
 * java.net.URLEncoder.encode(s, charset): the application/x-www-form-urlencoded
 * form of section 17.13.4.1 of HTML 4.01. Letters, digits and ". - * _" stand
 * for themselves, a space becomes '+', and every other character becomes the
 * bytes of its encoding in the charset, each written "%XY" with upper-case
 * hexadecimal digits.
 *
 * FormDecode and Utf8Decode are reference inverses written for the proofs:
 * they take an encoded string back to its bytes and the bytes back to text.
 */
module FormEncoding {
  import opened Wrappers

  type byte = b: int | 0 <= b < 0x100

  /** The two charsets the plugin passes to URLEncoder. */
  datatype Charset = Utf8 | UsAscii

  /** The characters URLEncoder leaves as they are. */
  predicate IsUnreserved(c: char) {
    || ('a' <= c <= 'z') || ('A' <= c <= 'Z') || ('0' <= c <= '9')
    || c == '-' || c == '_' || c == '.' || c == '*'
  }

  predicate AllUnreserved(s: string) {
    forall i :: 0 <= i < |s| ==> IsUnreserved(s[i])
  }

  predicate IsAscii(c: char) {
    c as int < 0x80
  }

  // ---------------------------------------------------------------------------
  // Charsets

  /** The UTF-8 encoding of one Unicode scalar value (RFC 3629, section 3). */
  function Utf8Bytes(c: char): (bs: seq<byte>)
    ensures 1 <= |bs| <= 4
    ensures IsAscii(c) ==> bs == [c as int]
  {
    var n := c as int;
    if n < 0x80 then [n]
    else if n < 0x800 then [0xC0 + n / 0x40, 0x80 + n % 0x40]
    else if n < 0x1_0000 then [0xE0 + n / 0x1000, 0x80 + (n / 0x40) % 0x40, 0x80 + n % 0x40]
    else [0xF0 + n / 0x4_0000, 0x80 + (n / 0x1000) % 0x40, 0x80 + (n / 0x40) % 0x40, 0x80 + n % 0x40]
  }

  /** String.getBytes(charset) for one character: US-ASCII writes '?' for a
      character it cannot represent. */
  function CharBytes(cs: Charset, c: char): (bs: seq<byte>)
    ensures IsAscii(c) ==> bs == [c as int]
  {
    match cs
    case Utf8 => Utf8Bytes(c)
    case UsAscii => if IsAscii(c) then [c as int] else ['?' as int]
  }

  /** String.getBytes(charset). */
  function Bytes(cs: Charset, s: string): seq<byte> {
    if s == [] then [] else CharBytes(cs, s[0]) + Bytes(cs, s[1..])
  }

  lemma {:induction false} BytesAppend(cs: Charset, a: string, b: string)
    ensures Bytes(cs, a + b) == Bytes(cs, a) + Bytes(cs, b)
  {
    if a == [] {
      assert a + b == b;
    } else {
      assert (a + b)[1..] == a[1..] + b;
      BytesAppend(cs, a[1..], b);
    }
  }

  /** On ASCII text the two charsets agree. */
  lemma {:induction false} AsciiBytesAgree(s: string)
    requires forall i :: 0 <= i < |s| ==> IsAscii(s[i])
    ensures Bytes(UsAscii, s) == Bytes(Utf8, s)
  {
    if s != [] {
      AsciiBytesAgree(s[1..]);
    }
  }

  // ---------------------------------------------------------------------------
  // The encoder

  function HexDigit(d: int): (c: char)
    requires 0 <= d < 16
    ensures IsUnreserved(c)
  {
    if d < 10 then ('0' as int + d) as char else ('A' as int + d - 10) as char
  }

  /** "%XY" for every byte. */
  function PercentBytes(bs: seq<byte>): (r: string)
    ensures |r| == 3 * |bs|
  {
    if bs == [] then "" else ['%', HexDigit(bs[0] / 16), HexDigit(bs[0] % 16)] + PercentBytes(bs[1..])
  }

  function EncodeChar(cs: Charset, c: char): (r: string)
    ensures |r| > 0
  {
    if IsUnreserved(c) then [c]
    else if c == ' ' then "+"
    else PercentBytes(CharBytes(cs, c))
  }

  /** URLEncoder.encode(s, charset). */
  function FormEncode(cs: Charset, s: string): (r: string)
    ensures |r| >= |s|
  {
    if s == [] then "" else EncodeChar(cs, s[0]) + FormEncode(cs, s[1..])
  }

  /** Encoding works character by character, so it distributes over concatenation. */
  lemma {:induction false} FormEncodeAppend(cs: Charset, a: string, b: string)
    ensures FormEncode(cs, a + b) == FormEncode(cs, a) + FormEncode(cs, b)
  {
    if a == [] {
      assert a + b == b;
    } else {
      assert (a + b)[1..] == a[1..] + b;
      FormEncodeAppend(cs, a[1..], b);
    }
  }

  /** Text made of unreserved characters appears verbatim. */
  lemma {:induction false} FormEncodeUnreserved(cs: Charset, s: string)
    requires AllUnreserved(s)
    ensures FormEncode(cs, s) == s
  {
    if s != [] {
      FormEncodeUnreserved(cs, s[1..]);
    }
  }

  /** Every encoded character is unreserved, '+' or '%'. */
  lemma {:induction false} FormEncodeAlphabet(cs: Charset, s: string)
    ensures forall i :: 0 <= i < |FormEncode(cs, s)| ==>
              IsUnreserved(FormEncode(cs, s)[i]) || FormEncode(cs, s)[i] in "+%"
  {
    if s != [] {
      FormEncodeAlphabet(cs, s[1..]);
      PercentBytesAlphabet(CharBytes(cs, s[0]));
    }
  }

  lemma {:induction false} PercentBytesAlphabet(bs: seq<byte>)
    ensures forall i :: 0 <= i < |PercentBytes(bs)| ==> IsUnreserved(PercentBytes(bs)[i]) || PercentBytes(bs)[i] == '%'
  {
    if bs != [] {
      PercentBytesAlphabet(bs[1..]);
    }
  }

  // ---------------------------------------------------------------------------
  // Reference inverse: from the encoded form back to the bytes

  function HexValue(c: char): Option<int> {
    if '0' <= c <= '9' then Some(c as int - '0' as int)
    else if 'A' <= c <= 'F' then Some(c as int - 'A' as int + 10)
    else if 'a' <= c <= 'f' then Some(c as int - 'a' as int + 10)
    else None
  }

  function PrependBytes(bs: seq<byte>, r: Option<seq<byte>>): Option<seq<byte>> {
    if r.Some? then Some(bs + r.value) else None
  }

  /** The bytes an encoded string denotes; None for text no encoder writes. */
  function FormDecode(e: string): Option<seq<byte>>
    decreases |e|
  {
    if e == [] then Some([])
    else if e[0] == '+' then PrependBytes([0x20], FormDecode(e[1..]))
    else if e[0] == '%' then
      if |e| < 3 || HexValue(e[1]).None? || HexValue(e[2]).None? then None
      else PrependBytes([16 * HexValue(e[1]).value + HexValue(e[2]).value], FormDecode(e[3..]))
    else if IsAscii(e[0]) then PrependBytes([e[0] as int], FormDecode(e[1..]))
    else None
  }

  lemma HexValueDigit(d: int)
    requires 0 <= d < 16
    ensures HexValue(HexDigit(d)) == Some(d)
  {
  }

  lemma DecodeOnePercent(b: byte, rest: string)
    ensures FormDecode(['%', HexDigit(b / 16), HexDigit(b % 16)] + rest) == PrependBytes([b], FormDecode(rest))
  {
    var e := ['%', HexDigit(b / 16), HexDigit(b % 16)] + rest;
    HexValueDigit(b / 16);
    HexValueDigit(b % 16);
    assert e[3..] == rest;
  }

  lemma {:induction false} DecodePercentBytes(bs: seq<byte>, rest: string)
    ensures FormDecode(PercentBytes(bs) + rest) == PrependBytes(bs, FormDecode(rest))
  {
    var r := FormDecode(rest);
    if bs == [] {
      assert PercentBytes(bs) + rest == rest;
      assert r.Some? ==> bs + r.value == r.value;
    } else {
      var b := bs[0];
      var head := ['%', HexDigit(b / 16), HexDigit(b % 16)];
      var tail := PercentBytes(bs[1..]) + rest;
      assert PercentBytes(bs) == head + PercentBytes(bs[1..]);
      assert PercentBytes(bs) + rest == head + tail;
      DecodeOnePercent(b, tail);
      DecodePercentBytes(bs[1..], rest);
      PrependBytesAppend([b], bs[1..], r);
      assert [b] + bs[1..] == bs;
    }
  }

  lemma PrependBytesAppend(a: seq<byte>, b: seq<byte>, r: Option<seq<byte>>)
    ensures PrependBytes(a, PrependBytes(b, r)) == PrependBytes(a + b, r)
  {
    if r.Some? {
      assert a + (b + r.value) == (a + b) + r.value;
    }
  }

  lemma DecodeEncodeChar(cs: Charset, c: char, rest: string)
    ensures FormDecode(EncodeChar(cs, c) + rest) == PrependBytes(CharBytes(cs, c), FormDecode(rest))
  {
    if IsUnreserved(c) || c == ' ' {
      assert (EncodeChar(cs, c) + rest)[1..] == rest;
    } else {
      DecodePercentBytes(CharBytes(cs, c), rest);
    }
  }

  /** Decoding the form-encoded text gives back exactly the charset's bytes of the original. */
  lemma {:induction false} FormDecodeEncode(cs: Charset, s: string)
    ensures FormDecode(FormEncode(cs, s)) == Some(Bytes(cs, s))
  {
    if s != [] {
      DecodeEncodeChar(cs, s[0], FormEncode(cs, s[1..]));
      FormDecodeEncode(cs, s[1..]);
    }
  }

  // ---------------------------------------------------------------------------
  // Reference inverse: UTF-8 bytes back to text

  predicate IsContinuation(b: byte) {
    0x80 <= b < 0xC0
  }

  predicate IsScalar(n: int) {
    (0 <= n < 0xD800) || (0xE000 <= n < 0x11_0000)
  }

  function Prepend(c: char, r: Option<string>): Option<string> {
    if r.Some? then Some([c] + r.value) else None
  }

  function Utf8Value2(b0: int, b1: int): int {
    (b0 - 0xC0) * 0x40 + (b1 - 0x80)
  }

  function Utf8Value3(b0: int, b1: int, b2: int): int {
    (b0 - 0xE0) * 0x1000 + (b1 - 0x80) * 0x40 + (b2 - 0x80)
  }

  function Utf8Value4(b0: int, b1: int, b2: int, b3: int): int {
    (b0 - 0xF0) * 0x4_0000 + (b1 - 0x80) * 0x1000 + (b2 - 0x80) * 0x40 + (b3 - 0x80)
  }

  /** Strict UTF-8 decoding: rejects stray continuation bytes, overlong forms,
      surrogates and values beyond U+10FFFF. */
  function Utf8Decode(bs: seq<byte>): Option<string>
    decreases |bs|
  {
    if bs == [] then Some([])
    else
      var b0: int := bs[0];
      if b0 < 0x80 then Prepend(b0 as char, Utf8Decode(bs[1..]))
      else if 0xC0 <= b0 < 0xE0 && |bs| >= 2 && IsContinuation(bs[1]) then
        var n := Utf8Value2(b0, bs[1]);
        if 0x80 <= n then Prepend(n as char, Utf8Decode(bs[2..])) else None
      else if 0xE0 <= b0 < 0xF0 && |bs| >= 3 && IsContinuation(bs[1]) && IsContinuation(bs[2]) then
        var n := Utf8Value3(b0, bs[1], bs[2]);
        if 0x800 <= n && IsScalar(n) then Prepend(n as char, Utf8Decode(bs[3..])) else None
      else if 0xF0 <= b0 < 0xF8 && |bs| >= 4 && IsContinuation(bs[1]) && IsContinuation(bs[2]) && IsContinuation(bs[3]) then
        var n := Utf8Value4(b0, bs[1], bs[2], bs[3]);
        if 0x1_0000 <= n && IsScalar(n) then Prepend(n as char, Utf8Decode(bs[4..])) else None
      else None
  }

  lemma Utf8Value2Inverts(n: int)
    requires 0x80 <= n < 0x800
    ensures Utf8Value2(0xC0 + n / 0x40, 0x80 + n % 0x40) == n
  {
  }

  lemma Utf8Value3Inverts(n: int)
    requires 0x800 <= n < 0x1_0000
    ensures Utf8Value3(0xE0 + n / 0x1000, 0x80 + (n / 0x40) % 0x40, 0x80 + n % 0x40) == n
  {
    var q := n / 0x40;
    assert n == q * 0x40 + n % 0x40;
    assert q == (q / 0x40) * 0x40 + q % 0x40;
    assert q / 0x40 == n / 0x1000;
  }

  lemma Utf8Value4Inverts(n: int)
    requires 0x1_0000 <= n < 0x11_0000
    ensures Utf8Value4(0xF0 + n / 0x4_0000, 0x80 + (n / 0x1000) % 0x40, 0x80 + (n / 0x40) % 0x40, 0x80 + n % 0x40) == n
  {
    var q := n / 0x40;
    var p := n / 0x1000;
    assert n == q * 0x40 + n % 0x40;
    assert q == (q / 0x40) * 0x40 + q % 0x40;
    assert q / 0x40 == p;
    assert p == (p / 0x40) * 0x40 + p % 0x40;
    assert p / 0x40 == n / 0x4_0000;
  }

  lemma Utf8DecodeChar(c: char, rest: seq<byte>)
    ensures Utf8Decode(Utf8Bytes(c) + rest) == Prepend(c, Utf8Decode(rest))
  {
    var n := c as int;
    var bs := Utf8Bytes(c) + rest;
    if n < 0x80 {
      assert bs[1..] == rest;
    } else if n < 0x800 {
      Utf8Value2Inverts(n);
      assert bs[2..] == rest;
    } else if n < 0x1_0000 {
      Utf8Value3Inverts(n);
      assert bs[3..] == rest;
    } else {
      Utf8Value4Inverts(n);
      assert bs[4..] == rest;
    }
  }

  /** UTF-8 decoding inverts UTF-8 encoding. */
  lemma {:induction false} Utf8RoundTrip(s: string)
    ensures Utf8Decode(Bytes(Utf8, s)) == Some(s)
  {
    if s != [] {
      Utf8DecodeChar(s[0], Bytes(Utf8, s[1..]));
      Utf8RoundTrip(s[1..]);
      assert [s[0]] + s[1..] == s;
    }
  }

  /** The UTF-8 form encoding loses nothing: decoding gives back the text. */
  lemma FormEncodeUtf8RoundTrip(s: string)
    ensures FormDecode(FormEncode(Utf8, s)) == Some(Bytes(Utf8, s))
    ensures Utf8Decode(Bytes(Utf8, s)) == Some(s)
  {
    FormDecodeEncode(Utf8, s);
    Utf8RoundTrip(s);
  }
}
