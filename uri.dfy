/**
 * `encodeURIComponent`, which the HTTP and Google providers apply to the
 * family name and the API key: a character outside the unreserved set
 * becomes the `%XX` escapes of its UTF-8 bytes, with upper-case hex digits.
 * Characters are Unicode scalar values, so the lone surrogates on which
 * `encodeURIComponent` throws do not arise.
 */
module Uri {

  /** The characters `encodeURIComponent` leaves alone. */
  predicate Unreserved(c: char) {
    ('A' <= c <= 'Z') || ('a' <= c <= 'z') || ('0' <= c <= '9') ||
    c == '-' || c == '_' || c == '.' || c == '!' || c == '~' || c == '*' || c == '\'' || c == '(' || c == ')'
  }

  predicate IsHex(c: char) {
    ('0' <= c <= '9') || ('A' <= c <= 'F')
  }

  function HexDigit(n: nat): (c: char)
    requires n < 16
    ensures IsHex(c)
  {
    if n < 10 then ('0' as int + n) as char else ('A' as int + n - 10) as char
  }

  function HexValue(c: char): (n: nat)
    requires IsHex(c)
    ensures n < 16
  {
    if c <= '9' then c as int - '0' as int else c as int - 'A' as int + 10
  }

  /** The UTF-8 bytes of a code point. */
  function Utf8(c: char): (bytes: seq<nat>)
    ensures 1 <= |bytes| <= 4
    ensures forall i :: 0 <= i < |bytes| ==> bytes[i] < 256
  {
    var cp := c as int;
    if cp < 0x80 then [cp]
    else if cp < 0x800 then [0xC0 + cp / 64, 0x80 + cp % 64]
    else if cp < 0x10000 then [0xE0 + cp / 4096, 0x80 + (cp / 64) % 64, 0x80 + cp % 64]
    else [0xF0 + cp / 262144, 0x80 + (cp / 4096) % 64, 0x80 + (cp / 64) % 64, 0x80 + cp % 64]
  }

  function Percent(b: nat): string
    requires b < 256
  {
    ['%', HexDigit(b / 16), HexDigit(b % 16)]
  }

  function PercentAll(bytes: seq<nat>): (r: string)
    requires forall i :: 0 <= i < |bytes| ==> bytes[i] < 256
    ensures |r| == 3 * |bytes|
  {
    if bytes == [] then [] else Percent(bytes[0]) + PercentAll(bytes[1..])
  }

  function EncodeChar(c: char): string {
    if Unreserved(c) then [c] else PercentAll(Utf8(c))
  }

  /** `encodeURIComponent(s)`. */
  function Encode(s: string): string
    decreases |s|
  {
    if s == [] then [] else EncodeChar(s[0]) + Encode(s[1..])
  }

  /** What may appear in an encoded string. */
  predicate Safe(c: char) {
    Unreserved(c) || c == '%' || IsHex(c)
  }

  /* ---------- decoding, the partner of `Encode` ---------- */

  /** `t` holds an escape `%XX` at `i`. */
  predicate EscapeAt(t: string, i: nat) {
    i + 3 <= |t| && t[i] == '%' && IsHex(t[i + 1]) && IsHex(t[i + 2])
  }

  /** The byte the escape at `i` stands for. */
  function ByteAt(t: string, i: nat): (r: nat)
    requires EscapeAt(t, i)
    ensures r < 256
  {
    HexValue(t[i + 1]) * 16 + HexValue(t[i + 2])
  }

  /** `t` starts with `n` escapes, `1 <= n <= 4`. */
  predicate Escapes(t: string, n: nat) {
    1 <= n <= 4 && EscapeAt(t, 0) && (n >= 2 ==> EscapeAt(t, 3)) && (n >= 3 ==> EscapeAt(t, 6)) && (n >= 4 ==> EscapeAt(t, 9))
  }

  /** The number of bytes of a UTF-8 sequence, from its lead byte. */
  function SeqLength(lead: nat): nat {
    if lead < 0x80 then 1 else if lead < 0xE0 then 2 else if lead < 0xF0 then 3 else 4
  }

  /** The code point of `n` escaped bytes at the head of `t`. */
  function CodePoint(t: string, n: nat): int
    requires Escapes(t, n)
  {
    var b0 := ByteAt(t, 0);
    if n == 1 then b0
    else
      var b1 := ByteAt(t, 3) - 0x80;
      if n == 2 then (b0 - 0xC0) * 64 + b1
      else
        var b2 := ByteAt(t, 6) - 0x80;
        if n == 3 then (b0 - 0xE0) * 4096 + b1 * 64 + b2
        else (b0 - 0xF0) * 262144 + b1 * 4096 + b2 * 64 + ByteAt(t, 9) - 0x80
  }

  predicate IsScalar(cp: int) {
    (0 <= cp < 0xD800) || (0xE000 <= cp < 0x110000)
  }

  /** `decodeURIComponent`, stopping at the first malformed escape. */
  function Decode(t: string): string
    decreases |t|
  {
    if t == [] then []
    else if t[0] != '%' then [t[0]] + Decode(t[1..])
    else if !EscapeAt(t, 0) then []
    else
      var n := SeqLength(ByteAt(t, 0));
      if Escapes(t, n) && IsScalar(CodePoint(t, n)) then
        [CodePoint(t, n) as char] + Decode(t[3 * n..])
      else []
  }

  /* ---------- properties ---------- */

  lemma HexRoundTrip(n: nat)
    requires n < 16
    ensures HexValue(HexDigit(n)) == n
  {
  }

  /** An encoded string holds only unreserved characters, `%` and hex digits. */
  lemma {:induction false} EncodeSafe(s: string)
    ensures forall i :: 0 <= i < |Encode(s)| ==> Safe(Encode(s)[i])
    decreases |s|
  {
    if s != [] {
      EncodeSafe(s[1..]);
      if !Unreserved(s[0]) {
        PercentAllSafe(Utf8(s[0]));
      }
    }
  }

  lemma {:induction false} PercentAllSafe(bytes: seq<nat>)
    requires forall i :: 0 <= i < |bytes| ==> bytes[i] < 256
    ensures forall i :: 0 <= i < |PercentAll(bytes)| ==> Safe(PercentAll(bytes)[i])
    decreases |bytes|
  {
    if bytes != [] {
      PercentAllSafe(bytes[1..]);
    }
  }

  /** A string of unreserved characters is its own encoding. */
  lemma {:induction false} EncodeUnreserved(s: string)
    requires forall i :: 0 <= i < |s| ==> Unreserved(s[i])
    ensures Encode(s) == s
    decreases |s|
  {
    if s != [] {
      EncodeUnreserved(s[1..]);
    }
  }

  /** Encoding works character by character. */
  lemma {:induction false} EncodeAppend(a: string, b: string)
    ensures Encode(a + b) == Encode(a) + Encode(b)
    decreases |a|
  {
    if a == [] {
      assert a + b == b;
    } else {
      assert (a + b)[1..] == a[1..] + b;
      EncodeAppend(a[1..], b);
    }
  }

  /** The escapes of a byte sequence, followed by anything. */
  lemma {:induction false} PercentAllEscapes(bytes: seq<nat>, rest: string)
    requires forall i :: 0 <= i < |bytes| ==> bytes[i] < 256
    ensures forall k :: 0 <= k < |bytes| ==>
              EscapeAt(PercentAll(bytes) + rest, 3 * k) && ByteAt(PercentAll(bytes) + rest, 3 * k) == bytes[k]
    decreases |bytes|
  {
    if bytes != [] {
      var t := PercentAll(bytes) + rest;
      var tail := PercentAll(bytes[1..]) + rest;
      assert t == Percent(bytes[0]) + tail;
      PercentAllEscapes(bytes[1..], rest);
      HexRoundTrip(bytes[0] / 16);
      HexRoundTrip(bytes[0] % 16);
      forall k | 1 <= k < |bytes|
        ensures EscapeAt(t, 3 * k) && ByteAt(t, 3 * k) == bytes[k]
      {
        assert EscapeAt(tail, 3 * (k - 1));
        assert t[3 * k] == tail[3 * (k - 1)] && t[3 * k + 1] == tail[3 * (k - 1) + 1] && t[3 * k + 2] == tail[3 * (k - 1) + 2];
      }
    }
  }

  /** Decoding reads back the code point of one encoded character. */
  lemma Utf8CodePoint(c: char, rest: string)
    ensures var t := PercentAll(Utf8(c)) + rest;
      var n := |Utf8(c)|;
      SeqLength(Utf8(c)[0]) == n && Escapes(t, n) && CodePoint(t, n) == c as int
  {
    var bytes := Utf8(c);
    var t := PercentAll(bytes) + rest;
    PercentAllEscapes(bytes, rest);
    var cp := c as int;
    assert ByteAt(t, 0) == bytes[0];
    if cp < 0x80 {
    } else if cp < 0x800 {
      assert ByteAt(t, 3) == bytes[1];
    } else if cp < 0x10000 {
      assert ByteAt(t, 3) == bytes[1];
      assert ByteAt(t, 6) == bytes[2];
      Split3(cp);
    } else {
      assert ByteAt(t, 3) == bytes[1];
      assert ByteAt(t, 6) == bytes[2];
      assert ByteAt(t, 9) == bytes[3];
      assert cp < 0x110000;
      Split4(cp);
    }
  }

  lemma Split3(cp: int)
    requires 0x800 <= cp < 0x10000
    ensures (cp / 4096) * 4096 + ((cp / 64) % 64) * 64 + cp % 64 == cp
  {
    assert cp == (cp / 64) * 64 + cp % 64;
    assert cp / 64 == ((cp / 64) / 64) * 64 + (cp / 64) % 64;
    assert (cp / 64) / 64 == cp / 4096;
  }

  lemma Split4(cp: int)
    requires 0x10000 <= cp < 0x110000
    ensures cp / 262144 < 8
    ensures (cp / 262144) * 262144 + ((cp / 4096) % 64) * 4096 + ((cp / 64) % 64) * 64 + cp % 64 == cp
  {
    assert cp == (cp / 64) * 64 + cp % 64;
    assert cp / 64 == ((cp / 64) / 64) * 64 + (cp / 64) % 64;
    assert (cp / 64) / 64 == cp / 4096;
    assert cp / 4096 == ((cp / 4096) / 64) * 64 + (cp / 4096) % 64;
    assert (cp / 4096) / 64 == cp / 262144;
  }

  /** Decoding undoes the encoding of one character. */
  lemma DecodeChar(c: char, rest: string)
    ensures Decode(EncodeChar(c) + rest) == [c] + Decode(rest)
  {
    if Unreserved(c) {
      assert ([c] + rest)[1..] == rest;
    } else {
      var bytes := Utf8(c);
      var t := PercentAll(bytes) + rest;
      Utf8CodePoint(c, rest);
      PercentAllEscapes(bytes, rest);
      assert t[0] == '%';
      assert ByteAt(t, 0) == bytes[0];
      assert t[3 * |bytes|..] == rest;
    }
  }

  /** `decodeURIComponent(encodeURIComponent(s)) == s`: the encoding loses nothing. */
  lemma {:induction false} DecodeEncode(s: string)
    ensures Decode(Encode(s)) == s
    decreases |s|
  {
    if s != [] {
      DecodeChar(s[0], Encode(s[1..]));
      DecodeEncode(s[1..]);
    }
  }

  /** Distinct strings have distinct encodings. */
  lemma EncodeInjective(a: string, b: string)
    requires Encode(a) == Encode(b)
    ensures a == b
  {
    DecodeEncode(a);
    DecodeEncode(b);
  }
}
