/**
 * The two byte codecs the reader's URL paths go through: UTF-8 (RFC 3629),
 * as Python's `str.encode("utf-8")` and the strict `bytes.decode()`, and
 * hexadecimal, as `binascii.hexlify` and `binascii.unhexlify`.
 */
module Codec {
  import opened Wrappers

  type Byte = x: int | 0 <= x < 256

  // ---------------------------------------------------------------------------
  // UTF-8

  predicate IsContinuation(b: Byte) {
    0x80 <= b < 0xC0
  }

  /** The UTF-8 encoding of one character (section 3 of RFC 3629). */
  function EncodeChar(c: char): (r: seq<Byte>)
    ensures 1 <= |r| <= 4
    ensures r[0] < 0x80 <==> |r| == 1
    ensures forall i :: 1 <= i < |r| ==> IsContinuation(r[i])
  {
    var cp := c as int;
    if cp < 0x80 then [cp]
    else if cp < 0x800 then [0xC0 + cp / 64, 0x80 + cp % 64]
    else if cp < 0x10000 then [0xE0 + cp / 4096, 0x80 + (cp / 64) % 64, 0x80 + cp % 64]
    else [0xF0 + cp / 262144, 0x80 + (cp / 4096) % 64, 0x80 + (cp / 64) % 64, 0x80 + cp % 64]
  }

  /** `s.encode("utf-8")`. */
  function Utf8Encode(s: string): (r: seq<Byte>)
    ensures |r| >= |s|
  {
    if s == [] then [] else EncodeChar(s[0]) + Utf8Encode(s[1..])
  }

  /** The bytes `b[1..n]` exist and are continuation bytes. */
  predicate Continues(b: seq<Byte>, n: nat) {
    |b| >= n && forall i :: 1 <= i < n ==> IsContinuation(b[i])
  }

  /**
   * The character at the front of `b` and its length in bytes, or None when
   * `b` does not start with a well-formed sequence (the table in section 4 of
   * RFC 3629: no overlong forms, no surrogates, nothing above U+10FFFF).
   */
  function DecodeFirst(b: seq<Byte>): (r: Option<(char, nat)>)
    requires b != []
    ensures r.Some? ==> 1 <= r.value.1 <= |b|
  {
    var b0 := b[0] as int;
    if b0 < 0x80 then Some((b0 as char, 1))
    else if 0xC2 <= b0 <= 0xDF then
      if Continues(b, 2) then Some((((b0 - 0xC0) * 64 + (b[1] as int - 0x80)) as char, 2))
      else None
    else if 0xE0 <= b0 <= 0xEF then
      if Continues(b, 3)
         && (b0 != 0xE0 || b[1] >= 0xA0)
         && (b0 != 0xED || b[1] < 0xA0)
      then Some((((b0 - 0xE0) * 4096 + (b[1] as int - 0x80) * 64 + (b[2] as int - 0x80)) as char, 3))
      else None
    else if 0xF0 <= b0 <= 0xF4 then
      if Continues(b, 4)
         && (b0 != 0xF0 || b[1] >= 0x90)
         && (b0 != 0xF4 || b[1] < 0x90)
      then Some((((b0 - 0xF0) * 262144 + (b[1] as int - 0x80) * 4096 + (b[2] as int - 0x80) * 64 + (b[3] as int - 0x80)) as char, 4))
      else None
    else None
  }

  /** `bytes.decode("utf-8")`: None where Python raises `UnicodeDecodeError`. */
  function Utf8Decode(b: seq<Byte>): (r: Option<string>)
    decreases |b|
  {
    if b == [] then Some("")
    else match DecodeFirst(b)
      case None => None
      case Some((c, n)) =>
        match Utf8Decode(b[n..])
        case None => None
        case Some(s) => Some([c] + s)
  }

  /** The decoder reads back exactly the bytes of the encoded character, whatever follows. */
  lemma DecodeFirstEncodeChar(c: char, rest: seq<Byte>)
    ensures DecodeFirst(EncodeChar(c) + rest) == Some((c, |EncodeChar(c)|))
  {
    var cp := c as int;
    if cp < 0x80 {
      assert (EncodeChar(c) + rest)[0] == cp;
    } else if cp < 0x800 {
      DecodeTwoBytes(c, rest);
    } else if cp < 0x10000 {
      DecodeThreeBytes(c, rest);
    } else {
      DecodeFourBytes(c, rest);
    }
  }

  lemma DecodeTwoBytes(c: char, rest: seq<Byte>)
    requires 0x80 <= c as int < 0x800
    ensures DecodeFirst(EncodeChar(c) + rest) == Some((c, 2))
  {
    var cp := c as int;
    var b := EncodeChar(c) + rest;
    assert b[0] == 0xC0 + cp / 64 && b[1] == 0x80 + cp % 64;
    assert (cp / 64) * 64 + cp % 64 == cp;
  }

  lemma DecodeThreeBytes(c: char, rest: seq<Byte>)
    requires 0x800 <= c as int < 0x10000
    ensures DecodeFirst(EncodeChar(c) + rest) == Some((c, 3))
  {
    var cp := c as int;
    var b := EncodeChar(c) + rest;
    var q := cp / 64;
    assert b[0] == 0xE0 + cp / 4096 && b[1] == 0x80 + q % 64 && b[2] == 0x80 + cp % 64;
    assert q * 64 + cp % 64 == cp;
    assert (q / 64) * 64 + q % 64 == q;
    assert cp / 4096 == q / 64;
    assert (cp / 4096) * 4096 + (q % 64) * 64 + cp % 64 == cp;
  }

  lemma DecodeFourBytes(c: char, rest: seq<Byte>)
    requires 0x10000 <= c as int
    ensures DecodeFirst(EncodeChar(c) + rest) == Some((c, 4))
  {
    var cp := c as int;
    var b := EncodeChar(c) + rest;
    var q := cp / 64;
    var p := q / 64;
    assert b[0] == 0xF0 + cp / 262144 && b[1] == 0x80 + p % 64 && b[2] == 0x80 + q % 64 && b[3] == 0x80 + cp % 64;
    assert q * 64 + cp % 64 == cp;
    assert p * 64 + q % 64 == q;
    assert (p / 64) * 64 + p % 64 == p;
    assert cp / 4096 == p;
    assert cp / 262144 == p / 64;
    assert (cp / 262144) * 262144 + (p % 64) * 4096 + (q % 64) * 64 + cp % 64 == cp;
  }

  /** Decoding undoes encoding: `s.encode("utf-8").decode() == s`. */
  lemma {:induction false} Utf8RoundTrip(s: string)
    ensures Utf8Decode(Utf8Encode(s)) == Some(s)
  {
    if s != [] {
      var e := EncodeChar(s[0]);
      var rest := Utf8Encode(s[1..]);
      DecodeFirstEncodeChar(s[0], rest);
      assert (e + rest)[|e|..] == rest;
      Utf8RoundTrip(s[1..]);
      assert [s[0]] + s[1..] == s;
    }
  }

  /** The string whose characters are the given ASCII bytes (`bytes.decode()` on ASCII). */
  function AsciiChars(b: seq<Byte>): (r: string)
    requires forall i :: 0 <= i < |b| ==> b[i] < 0x80
    ensures |r| == |b|
    ensures forall i :: 0 <= i < |b| ==> r[i] as int == b[i]
  {
    seq(|b|, i requires 0 <= i < |b| => b[i] as char)
  }

  /** An ASCII string encodes to its own bytes, so re-encoding `AsciiChars(b)` gives `b` back. */
  lemma {:induction false} Utf8EncodeAscii(b: seq<Byte>)
    requires forall i :: 0 <= i < |b| ==> b[i] < 0x80
    ensures Utf8Encode(AsciiChars(b)) == b
  {
    if b != [] {
      var s := AsciiChars(b);
      assert s[1..] == AsciiChars(b[1..]);
      Utf8EncodeAscii(b[1..]);
      assert [b[0]] + b[1..] == b;
    }
  }

  // ---------------------------------------------------------------------------
  // Hexadecimal

  /** The lowercase digits `hexlify` writes. */
  const LowerHexDigits: string := "0123456789abcdef"

  predicate IsLowerHex(b: Byte) {
    0x30 <= b <= 0x39 || 0x61 <= b <= 0x66
  }

  /** The ASCII code of hex digit `d`. */
  function HexDigit(d: nat): (r: Byte)
    requires d < 16
    ensures IsLowerHex(r)
    ensures r as char == LowerHexDigits[d]
  {
    if d < 10 then 0x30 + d else 0x61 + d - 10
  }

  /** `unhexlify` accepts both cases of the letters a to f. */
  predicate IsHexDigit(b: Byte) {
    0x30 <= b <= 0x39 || 0x41 <= b <= 0x46 || 0x61 <= b <= 0x66
  }

  function HexValue(b: Byte): (d: nat)
    requires IsHexDigit(b)
    ensures d < 16
  {
    if b <= 0x39 then b - 0x30 else if b <= 0x46 then b - 0x41 + 10 else b - 0x61 + 10
  }

  lemma HexValueOfDigit(d: nat)
    requires d < 16
    ensures IsHexDigit(HexDigit(d)) && HexValue(HexDigit(d)) == d
  {
  }

  /** `binascii.hexlify(b)`: two lowercase digits per byte, high nibble first. */
  function Hexlify(b: seq<Byte>): (r: seq<Byte>)
    ensures |r| == 2 * |b|
    ensures forall i :: 0 <= i < |r| ==> IsLowerHex(r[i])
  {
    if b == [] then [] else [HexDigit(b[0] / 16), HexDigit(b[0] % 16)] + Hexlify(b[1..])
  }

  const OddLengthMessage: string := "Odd-length string"
  const NonHexDigitMessage: string := "Non-hexadecimal digit found"

  /** The bytes of an even-length run of digit pairs. */
  function UnhexPairs(h: seq<Byte>): (r: Result<seq<Byte>, string>)
    requires |h| % 2 == 0
    ensures r.Success? ==> |r.value| * 2 == |h|
    ensures r.Failure? ==> r.error == NonHexDigitMessage
  {
    if h == [] then Success([])
    else if !IsHexDigit(h[0]) || !IsHexDigit(h[1]) then Failure(NonHexDigitMessage)
    else match UnhexPairs(h[2..])
      case Failure(m) => Failure(m)
      case Success(rest) => Success([HexValue(h[0]) * 16 + HexValue(h[1])] + rest)
  }

  /** `binascii.unhexlify(h)`: the length is checked first, then the digits. */
  function Unhexlify(h: seq<Byte>): (r: Result<seq<Byte>, string>)
    ensures |h| % 2 == 1 ==> r == Failure(OddLengthMessage)
    ensures r.Success? ==> |r.value| * 2 == |h|
  {
    if |h| % 2 == 1 then Failure(OddLengthMessage) else UnhexPairs(h)
  }

  /** `unhexlify(hexlify(b)) == b`. */
  lemma {:induction false} HexRoundTrip(b: seq<Byte>)
    ensures Unhexlify(Hexlify(b)) == Success(b)
  {
    if b != [] {
      var h := Hexlify(b);
      HexValueOfDigit(b[0] / 16);
      HexValueOfDigit(b[0] % 16);
      assert h[2..] == Hexlify(b[1..]);
      HexRoundTrip(b[1..]);
      assert [b[0]] + b[1..] == b;
    }
  }

  /** Any byte that is not a hex digit makes `unhexlify` fail, whatever the length. */
  lemma {:induction false} UnhexlifyRejectsNonHex(h: seq<Byte>, i: nat)
    requires i < |h| && !IsHexDigit(h[i])
    ensures Unhexlify(h).Failure?
  {
    if |h| % 2 == 0 {
      UnhexPairsRejects(h, i);
    }
  }

  lemma {:induction false} UnhexPairsRejects(h: seq<Byte>, i: nat)
    requires |h| % 2 == 0 && i < |h| && !IsHexDigit(h[i])
    ensures UnhexPairs(h).Failure?
  {
    if i >= 2 && IsHexDigit(h[0]) && IsHexDigit(h[1]) {
      assert h[2..][i - 2] == h[i];
      UnhexPairsRejects(h[2..], i - 2);
    }
  }
}
