/** Base64 as section 4 of RFC 4648 defines it: groups of four alphabet
    characters, '=' padding only in the last group. */
module Base64 {

  import opened Common

  /** The value of an alphabet character. */
  function SextetValue(c: char): Option<nat>
  {
    if 'A' <= c <= 'Z' then Some(c as int - 'A' as int)
    else if 'a' <= c <= 'z' then Some(c as int - 'a' as int + 26)
    else if '0' <= c <= '9' then Some(c as int - '0' as int + 52)
    else if c == '+' then Some(62)
    else if c == '/' then Some(63)
    else None
  }

  /** The alphabet character of a six-bit value. */
  function SextetChar(v: nat): (c: char)
    requires v < 64
    ensures SextetValue(c) == Some(v)
  {
    if v < 26 then ('A' as int + v) as char
    else if v < 52 then ('a' as int + v - 26) as char
    else if v < 62 then ('0' as int + v - 52) as char
    else if v == 62 then '+'
    else '/'
  }

  predicate IsSextet(c: char)
  {
    SextetValue(c).Some?
  }

  function V(c: char): nat
    requires IsSextet(c)
  {
    SextetValue(c).value
  }

  /** Decodes well-formed Base64; None for any other text. */
  function Decode(s: string): (r: Option<seq<byte>>)
    ensures r.Some? ==> |s| % 4 == 0
    decreases |s|
  {
    if s == [] then Some([])
    else if |s| < 4 then None
    else
      var c0, c1, c2, c3, rest := s[0], s[1], s[2], s[3], s[4..];
      if IsSextet(c0) && IsSextet(c1) && IsSextet(c2) && IsSextet(c3) then
        var b0 := V(c0) * 4 + V(c1) / 16;
        var b1 := V(c1) % 16 * 16 + V(c2) / 4;
        var b2 := V(c2) % 4 * 64 + V(c3);
        match Decode(rest)
        case None => None
        case Some(tail) => Some([b0 as byte, b1 as byte, b2 as byte] + tail)
      else if rest == [] && IsSextet(c0) && IsSextet(c1) && c2 == '=' && c3 == '=' then
        Some([(V(c0) * 4 + V(c1) / 16) as byte])
      else if rest == [] && IsSextet(c0) && IsSextet(c1) && IsSextet(c2) && c3 == '=' then
        Some([(V(c0) * 4 + V(c1) / 16) as byte, (V(c1) % 16 * 16 + V(c2) / 4) as byte])
      else None
  }

  /** Encodes bytes as padded Base64. */
  function Encode(bs: seq<byte>): (s: string)
    ensures |s| % 4 == 0
  {
    if bs == [] then []
    else if |bs| == 1 then
      var b0 := bs[0] as int;
      [SextetChar(b0 / 4), SextetChar(b0 % 4 * 16), '=', '=']
    else if |bs| == 2 then
      var b0, b1 := bs[0] as int, bs[1] as int;
      [SextetChar(b0 / 4), SextetChar(b0 % 4 * 16 + b1 / 16), SextetChar(b1 % 16 * 4), '=']
    else Group(bs[0], bs[1], bs[2]) + Encode(bs[3..])
  }

  /** The four characters of three bytes. */
  function Group(x0: byte, x1: byte, x2: byte): string
  {
    var b0, b1, b2 := x0 as int, x1 as int, x2 as int;
    [SextetChar(b0 / 4), SextetChar(b0 % 4 * 16 + b1 / 16), SextetChar(b1 % 16 * 4 + b2 / 64), SextetChar(b2 % 64)]
  }

  lemma SplitByte(b: int, d: int)
    requires 0 <= b < 256 && (d == 4 || d == 16 || d == 64)
    ensures b == b / d * d + b % d && 0 <= b % d < d && b / d * d <= b
  {
  }

  lemma Recombine(hi: int, lo: int, d: int)
    requires (d == 4 || d == 16 || d == 64) && 0 <= lo < d && 0 <= hi
    ensures (hi * d + lo) / d == hi && (hi * d + lo) % d == lo
  {
    if d == 4 {
      assert hi * 4 + lo == 4 * hi + lo;
    } else if d == 16 {
      assert hi * 16 + lo == 16 * hi + lo;
    } else {
      assert hi * 64 + lo == 64 * hi + lo;
    }
  }

  /** The bit arithmetic of one group: the four sextets Encode forms from
      three bytes give those bytes back the way Decode combines them. */
  lemma Sextets(b0: int, b1: int, b2: int)
    requires 0 <= b0 < 256 && 0 <= b1 < 256 && 0 <= b2 < 256
    ensures b0 / 4 < 64 && b0 % 4 * 16 + b1 / 16 < 64 && b1 % 16 * 4 + b2 / 64 < 64 && b2 % 64 < 64
    ensures b0 / 4 * 4 + (b0 % 4 * 16 + b1 / 16) / 16 == b0
    ensures (b0 % 4 * 16 + b1 / 16) % 16 * 16 + (b1 % 16 * 4 + b2 / 64) / 4 == b1
    ensures (b1 % 16 * 4 + b2 / 64) % 4 * 64 + b2 % 64 == b2
  {
    SplitByte(b0, 4);
    SplitByte(b1, 16);
    SplitByte(b2, 64);
    Recombine(b0 % 4, b1 / 16, 16);
    Recombine(b1 % 16, b2 / 64, 4);
  }

  /** One full group: four alphabet characters in front of `rest`. */
  lemma DecodeGroup(x0: byte, x1: byte, x2: byte, rest: string)
    requires Decode(rest).Some?
    ensures Decode(Group(x0, x1, x2) + rest) == Some([x0, x1, x2] + Decode(rest).value)
  {
    Sextets(x0 as int, x1 as int, x2 as int);
    var e := Group(x0, x1, x2) + rest;
    assert e[4..] == rest;
  }

  /** The padded last group of one byte. */
  lemma DecodeEncodeOne(b0: byte)
    ensures Decode(Encode([b0])) == Some([b0])
  {
    Sextets(b0 as int, 0, 0);
  }

  /** The padded last group of two bytes. */
  lemma DecodeEncodeTwo(b0: byte, b1: byte)
    ensures Decode(Encode([b0, b1])) == Some([b0, b1])
  {
    Sextets(b0 as int, b1 as int, 0);
  }

  /** A full group in front of bytes whose encoding decodes back. */
  lemma DecodeEncodeGroup(bs: seq<byte>)
    requires |bs| >= 3 && Decode(Encode(bs[3..])) == Some(bs[3..])
    ensures Decode(Encode(bs)) == Some(bs)
  {
    FirstThree(bs);
    DecodeGroup(bs[0], bs[1], bs[2], Encode(bs[3..]));
  }

  lemma FirstThree(bs: seq<byte>)
    requires |bs| >= 3
    ensures bs == [bs[0], bs[1], bs[2]] + bs[3..]
  {
  }

  /** Decoding undoes encoding. */
  lemma {:induction false} DecodeEncode(bs: seq<byte>)
    ensures Decode(Encode(bs)) == Some(bs)
    decreases |bs|
  {
    if bs == [] {
    } else if |bs| == 1 {
      DecodeEncodeOne(bs[0]);
      assert bs == [bs[0]];
    } else if |bs| == 2 {
      DecodeEncodeTwo(bs[0], bs[1]);
      assert bs == [bs[0], bs[1]];
    } else {
      DecodeEncode(bs[3..]);
      DecodeEncodeGroup(bs);
    }
  }
}
