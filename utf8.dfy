/** Strict UTF-8 decoding as Rust's `String::from_utf8` performs it: the
    well-formed byte sequences of table 3-7 of The Unicode Standard (no
    overlong forms, no surrogates, nothing above U+10FFFF). */
module Utf8Strings {
  import opened Base

  predicate IsContinuation(b: byte) { 0x80 <= b < 0xC0 }

  /** Decodes the first scalar value of s and says how many bytes it took. */
  function DecodeFirst(s: seq<byte>): (r: Option<(char, nat)>)
    requires |s| > 0
    ensures r.Some? ==> 1 <= r.value.1 <= 4 && r.value.1 <= |s|
    ensures r.Some? && s[0] < 0x80 ==> r.value == (s[0] as char, 1)
    ensures r.Some? ==> s[..r.value.1] == EncodeChar(r.value.0)
  {
    var b0 := s[0];
    if b0 < 0x80 then
      Some((b0 as char, 1))
    else if 0xC2 <= b0 <= 0xDF then
      if |s| < 2 || !IsContinuation(s[1]) then None
      else
        EncodeTwoBytes(b0, s[1]);
        Some((((b0 as int - 0xC0) * 0x40 + (s[1] as int - 0x80)) as char, 2))
    else if 0xE0 <= b0 <= 0xEF then
      var lo := if b0 == 0xE0 then 0xA0 else 0x80;
      var hi := if b0 == 0xED then 0x9F else 0xBF;
      if |s| < 3 || !(lo <= s[1] <= hi) || !IsContinuation(s[2]) then None
      else
        var cp := (b0 as int - 0xE0) * 0x1000 + (s[1] as int - 0x80) * 0x40 + (s[2] as int - 0x80);
        EncodeThreeBytes(b0, s[1], s[2]);
        Some((cp as char, 3))
    else if 0xF0 <= b0 <= 0xF4 then
      var lo := if b0 == 0xF0 then 0x90 else 0x80;
      var hi := if b0 == 0xF4 then 0x8F else 0xBF;
      if |s| < 4 || !(lo <= s[1] <= hi) || !IsContinuation(s[2]) || !IsContinuation(s[3]) then None
      else
        var cp := (b0 as int - 0xF0) * 0x4_0000 + (s[1] as int - 0x80) * 0x1000
                  + (s[2] as int - 0x80) * 0x40 + (s[3] as int - 0x80);
        EncodeFourBytes(b0, s[1], s[2], s[3]);
        Some((cp as char, 4))
    else
      None
  }

  /** `String::from_utf8(bytes).ok()`. */
  function Decode(s: seq<byte>): (r: Option<string>)
    decreases |s|
  {
    if s == [] then Some([])
    else match DecodeFirst(s)
      case None => None
      case Some((c, k)) =>
        match Decode(s[k..])
        case None => None
        case Some(rest) => Some([c] + rest)
  }

  /** The UTF-8 encoding of one scalar value. */
  function EncodeChar(c: char): (r: seq<byte>)
    ensures 1 <= |r| <= 4
  {
    var n := c as int;
    if n < 0x80 then [n]
    else if n < 0x800 then [0xC0 + n / 0x40, 0x80 + n % 0x40]
    else if n < 0x1_0000 then [0xE0 + n / 0x1000, 0x80 + (n / 0x40) % 0x40, 0x80 + n % 0x40]
    else [0xF0 + n / 0x4_0000, 0x80 + (n / 0x1000) % 0x40, 0x80 + (n / 0x40) % 0x40, 0x80 + n % 0x40]
  }

  // The byte patterns DecodeFirst accepts are exactly encodings: each
  // accepted sequence is the encoding of the code point it decodes to.

  lemma EncodeTwoBytes(b0: byte, b1: byte)
    requires 0xC2 <= b0 <= 0xDF && IsContinuation(b1)
    ensures var n := (b0 as int - 0xC0) * 0x40 + (b1 as int - 0x80);
            0x80 <= n < 0x800 && EncodeChar(n as char) == [b0, b1]
  {
  }

  lemma EncodeThreeBytes(b0: byte, b1: byte, b2: byte)
    requires 0xE0 <= b0 <= 0xEF && IsContinuation(b2)
    requires (if b0 == 0xE0 then 0xA0 else 0x80) <= b1 <= (if b0 == 0xED then 0x9F else 0xBF)
    ensures var n := (b0 as int - 0xE0) * 0x1000 + (b1 as int - 0x80) * 0x40 + (b2 as int - 0x80);
            0x800 <= n < 0x1_0000 && !(0xD800 <= n < 0xE000) &&
            EncodeChar(n as char) == [b0, b1, b2]
  {
    var n := (b0 as int - 0xE0) * 0x1000 + (b1 as int - 0x80) * 0x40 + (b2 as int - 0x80);
    assert n / 0x40 == (b0 as int - 0xE0) * 0x40 + (b1 as int - 0x80);
    assert n / 0x1000 == b0 as int - 0xE0;
  }

  lemma EncodeFourBytes(b0: byte, b1: byte, b2: byte, b3: byte)
    requires 0xF0 <= b0 <= 0xF4 && IsContinuation(b2) && IsContinuation(b3)
    requires (if b0 == 0xF0 then 0x90 else 0x80) <= b1 <= (if b0 == 0xF4 then 0x8F else 0xBF)
    ensures var n := (b0 as int - 0xF0) * 0x4_0000 + (b1 as int - 0x80) * 0x1000
                     + (b2 as int - 0x80) * 0x40 + (b3 as int - 0x80);
            0x1_0000 <= n < 0x11_0000 && EncodeChar(n as char) == [b0, b1, b2, b3]
  {
    var n := (b0 as int - 0xF0) * 0x4_0000 + (b1 as int - 0x80) * 0x1000
             + (b2 as int - 0x80) * 0x40 + (b3 as int - 0x80);
    assert n / 0x40 == (b0 as int - 0xF0) * 0x1000 + (b1 as int - 0x80) * 0x40 + (b2 as int - 0x80);
    assert n / 0x1000 == (b0 as int - 0xF0) * 0x40 + (b1 as int - 0x80);
    assert n / 0x4_0000 == b0 as int - 0xF0;
  }

  function Encode(s: string): seq<byte>
  {
    if s == [] then [] else EncodeChar(s[0]) + Encode(s[1..])
  }

  lemma DecodeTwoBytes(n: int, rest: seq<byte>)
    requires 0x80 <= n < 0x800
    ensures var s := [0xC0 + n / 0x40, 0x80 + n % 0x40] + rest;
            |s| >= 2 && 0xC2 <= s[0] <= 0xDF && IsContinuation(s[1]) &&
            (s[0] - 0xC0) * 0x40 + (s[1] - 0x80) == n
  {
  }

  lemma DecodeThreeBytes(n: int, rest: seq<byte>)
    requires 0x800 <= n < 0x1_0000 && !(0xD800 <= n < 0xE000)
    ensures var s := [0xE0 + n / 0x1000, 0x80 + (n / 0x40) % 0x40, 0x80 + n % 0x40] + rest;
            |s| >= 3 && 0xE0 <= s[0] <= 0xEF &&
            (if s[0] == 0xE0 then 0xA0 else 0x80) <= s[1] <= (if s[0] == 0xED then 0x9F else 0xBF) &&
            IsContinuation(s[2]) &&
            (s[0] - 0xE0) * 0x1000 + (s[1] - 0x80) * 0x40 + (s[2] - 0x80) == n
  {
    assert (n / 0x1000) * 0x1000 + ((n / 0x40) % 0x40) * 0x40 + n % 0x40 == n;
  }

  lemma DecodeFourBytes(n: int, rest: seq<byte>)
    requires 0x1_0000 <= n < 0x11_0000
    ensures var s := [0xF0 + n / 0x4_0000, 0x80 + (n / 0x1000) % 0x40, 0x80 + (n / 0x40) % 0x40, 0x80 + n % 0x40] + rest;
            |s| >= 4 && 0xF0 <= s[0] <= 0xF4 &&
            (if s[0] == 0xF0 then 0x90 else 0x80) <= s[1] <= (if s[0] == 0xF4 then 0x8F else 0xBF) &&
            IsContinuation(s[2]) && IsContinuation(s[3]) &&
            (s[0] - 0xF0) * 0x4_0000 + (s[1] - 0x80) * 0x1000 + (s[2] - 0x80) * 0x40 + (s[3] - 0x80) == n
  {
    assert (n / 0x4_0000) * 0x4_0000 + ((n / 0x1000) % 0x40) * 0x1000
           + ((n / 0x40) % 0x40) * 0x40 + n % 0x40 == n;
  }

  /** Decoding the encoding of one character, whatever follows it, gives that
      character back and consumes exactly its encoding. */
  lemma DecodeFirstEncodeChar(c: char, rest: seq<byte>)
    ensures DecodeFirst(EncodeChar(c) + rest) == Some((c, |EncodeChar(c)|))
  {
    var n := c as int;
    if n < 0x80 {
    } else if n < 0x800 {
      DecodeTwoBytes(n, rest);
    } else if n < 0x1_0000 {
      DecodeThreeBytes(n, rest);
    } else {
      DecodeFourBytes(n, rest);
    }
  }

  /** Decoding inverts encoding. */
  lemma {:induction false} DecodeEncode(s: string)
    ensures Decode(Encode(s)) == Some(s)
  {
    if s != [] {
      var e := EncodeChar(s[0]);
      var tail := Encode(s[1..]);
      DecodeFirstEncodeChar(s[0], tail);
      assert (e + tail)[|e|..] == tail;
      DecodeEncode(s[1..]);
      assert [s[0]] + s[1..] == s;
    }
  }

  /** Decoding accepts only encodings: bytes that decode are the encoding of
      the decoded string. With DecodeEncode, Decode(b) is None exactly when b
      is the encoding of no string. */
  lemma {:induction false} EncodeDecode(b: seq<byte>, s: string)
    requires Decode(b) == Some(s)
    ensures Encode(s) == b
    decreases |b|
  {
    if b != [] {
      var (c, k) := DecodeFirst(b).value;
      var rest := Decode(b[k..]).value;
      assert s == [c] + rest;
      EncodeDecode(b[k..], rest);
      assert s[1..] == rest;
      assert b[..k] + b[k..] == b;
    }
  }

  /** Bytes below 0x80 decode one character each, to the same code points. */
  lemma {:induction false} DecodeAscii(s: seq<byte>)
    requires forall i :: 0 <= i < |s| ==> s[i] < 0x80
    ensures Decode(s).Some? && |Decode(s).value| == |s|
    ensures forall i :: 0 <= i < |s| ==> Decode(s).value[i] as int == s[i]
  {
    if s != [] {
      DecodeAscii(s[1..]);
    }
  }
}
