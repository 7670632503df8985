/** Strict UTF-8, as `bytes.decode("utf8")` and `str.encode("utf8")` do it:
    shortest forms only, no surrogates, nothing above U+10FFFF. */
module Utf8 {

  import opened Common

  predicate InRange(b: byte, lo: int, hi: int)
  {
    lo <= b as int <= hi
  }

  /** The character the well-formed sequence at the head of `bs` encodes,
      and that sequence's length; None when the head is ill-formed. */
  function DecodeOne(bs: seq<byte>): (r: Option<(char, nat)>)
    requires |bs| > 0
    ensures r.Some? ==> 1 <= r.value.1 <= 4 && r.value.1 <= |bs|
    ensures r.Some? && r.value.1 == 1 <==> bs[0] < 0x80
  {
    var b0 := bs[0] as int;
    if b0 < 0x80 then Some((b0 as char, 1))
    else if 0xC2 <= b0 <= 0xDF then
      if |bs| >= 2 && InRange(bs[1], 0x80, 0xBF) then
        Some((((b0 - 0xC0) * 64 + (bs[1] as int - 0x80)) as char, 2))
      else None
    else if 0xE0 <= b0 <= 0xEF then
      var lo := if b0 == 0xE0 then 0xA0 else 0x80;
      var hi := if b0 == 0xED then 0x9F else 0xBF;
      if |bs| >= 3 && InRange(bs[1], lo, hi) && InRange(bs[2], 0x80, 0xBF) then
        var cp := (b0 - 0xE0) * 4096 + (bs[1] as int - 0x80) * 64 + (bs[2] as int - 0x80);
        Some((cp as char, 3))
      else None
    else if 0xF0 <= b0 <= 0xF4 then
      var lo := if b0 == 0xF0 then 0x90 else 0x80;
      var hi := if b0 == 0xF4 then 0x8F else 0xBF;
      if |bs| >= 4 && InRange(bs[1], lo, hi) && InRange(bs[2], 0x80, 0xBF) && InRange(bs[3], 0x80, 0xBF) then
        var cp := (b0 - 0xF0) * 262144 + (bs[1] as int - 0x80) * 4096 + (bs[2] as int - 0x80) * 64 + (bs[3] as int - 0x80);
        Some((cp as char, 4))
      else None
    else None
  }

  /** `bs.decode("utf8")`; None where Python raises UnicodeDecodeError. */
  function Decode(bs: seq<byte>): Option<string>
    decreases |bs|
  {
    if bs == [] then Some([])
    else
      match DecodeOne(bs)
      case None => None
      case Some((c, n)) =>
        match Decode(bs[n..])
        case None => None
        case Some(rest) => Some([c] + rest)
  }

  /** The UTF-8 form of one character. */
  function EncodeChar(c: char): (r: seq<byte>)
    ensures 1 <= |r| <= 4
  {
    var cp := c as int;
    if cp < 0x80 then [cp as byte]
    else if cp < 0x800 then
      [(0xC0 + cp / 64) as byte, (0x80 + cp % 64) as byte]
    else if cp < 0x10000 then
      [(0xE0 + cp / 64 / 64) as byte, (0x80 + cp / 64 % 64) as byte, (0x80 + cp % 64) as byte]
    else
      [(0xF0 + cp / 64 / 64 / 64) as byte, (0x80 + cp / 64 / 64 % 64) as byte,
       (0x80 + cp / 64 % 64) as byte, (0x80 + cp % 64) as byte]
  }

  /** `s.encode("utf8")` */
  function Encode(s: string): seq<byte>
  {
    if s == [] then [] else EncodeChar(s[0]) + Encode(s[1..])
  }

  lemma DecodeOneEncodeChar(c: char, rest: seq<byte>)
    ensures DecodeOne(EncodeChar(c) + rest) == Some((c, |EncodeChar(c)|))
  {
    var cp := c as int;
    var e := EncodeChar(c) + rest;
    if cp < 0x80 {
    } else if cp < 0x800 {
      var q, r := cp / 64, cp % 64;
      assert cp == 64 * q + r;
    } else if cp < 0x10000 {
      var q, r := cp / 64, cp % 64;
      var q2, r2 := q / 64, q % 64;
      assert cp == 64 * q + r && q == 64 * q2 + r2;
      assert e[0] as int == 0xE0 + q2 && e[1] as int == 0x80 + r2 && e[2] as int == 0x80 + r;
    } else {
      var q, r := cp / 64, cp % 64;
      var q2, r2 := q / 64, q % 64;
      var q3, r3 := q2 / 64, q2 % 64;
      assert cp == 64 * q + r && q == 64 * q2 + r2 && q2 == 64 * q3 + r3;
      assert e[0] as int == 0xF0 + q3 && e[1] as int == 0x80 + r3;
      assert e[2] as int == 0x80 + r2 && e[3] as int == 0x80 + r;
    }
  }

  /** Decoding undoes encoding. */
  lemma {:induction false} DecodeEncode(s: string)
    ensures Decode(Encode(s)) == Some(s)
  {
    if s != [] {
      var e := Encode(s);
      var h := EncodeChar(s[0]);
      DecodeOneEncodeChar(s[0], Encode(s[1..]));
      assert e[|h|..] == Encode(s[1..]);
      DecodeEncode(s[1..]);
      assert s == [s[0]] + s[1..];
    }
  }

  /** The ASCII characters are exactly those whose encoding is one byte
      below 0x80, that byte being the character's code. */
  lemma {:induction false} EncodeAscii(s: string)
    requires forall k :: 0 <= k < |s| ==> s[k] as int < 0x80
    ensures |Encode(s)| == |s|
    ensures forall k :: 0 <= k < |s| ==> Encode(s)[k] as int == s[k] as int
  {
    if s != [] {
      EncodeAscii(s[1..]);
    }
  }

  lemma {:induction false} EncodeAppend(a: string, b: string)
    ensures Encode(a + b) == Encode(a) + Encode(b)
  {
    if a == [] {
      assert a + b == b;
    } else {
      assert (a + b)[1..] == a[1..] + b;
      EncodeAppend(a[1..], b);
    }
  }
}
