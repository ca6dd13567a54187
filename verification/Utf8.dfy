/** The octets of a text (section 3 of RFC 3629): the encoding, a strict decoder, and the length. */
module Utf8 {
  import opened Values
  import opened Bytes

  // ---------------------------------------------------------------- the encoding

  /** The octets of one Unicode scalar value: six bits in each octet after the first. */
  function Octets(c: char): (o: seq<Byte>)
    ensures 1 <= |o| <= 4
  {
    var r := c as int;
    if r < 0x80 then [r]
    else if r < 0x800 then [0xC0 + r / 64, 0x80 + r % 64]
    else if r < 0x10000 then [0xE0 + r / 4096, 0x80 + r / 64 % 64, 0x80 + r % 64]
    else [0xF0 + r / 262144, 0x80 + r / 4096 % 64, 0x80 + r / 64 % 64, 0x80 + r % 64]
  }

  function Utf8(s: string): seq<Byte> { if s == "" then [] else Octets(s[0]) + Utf8(s[1..]) }

  // ---------------------------------------------------------------- the decoder

  predicate Continues(b: Byte) { 0x80 <= b < 0xC0 }

  /** How many octets a first octet announces; 0 for one that cannot be first. */
  function Announced(b: Byte): (n: nat)
    ensures n <= 4
  {
    if b < 0x80 then 1 else if b < 0xC0 then 0 else if b < 0xE0 then 2 else if b < 0xF0 then 3 else if b < 0xF8 then 4
        else 0
  }

  /** The number that the bits of a group of this many octets hold. */
  function Bits(o: seq<Byte>): nat
    requires 1 <= |o| <= 4 && Announced(o[0]) == |o| && forall i :: 1 <= i < |o| ==> Continues(o[i])
  {
    if |o| == 1 then o[0]
    else if |o| == 2 then Six(o[0] as int - 0xC0, o[1])
    else if |o| == 3 then Six(Six(o[0] as int - 0xE0, o[1]), o[2])
    else Six(Six(Six(o[0] as int - 0xF0, o[1]), o[2]), o[3])
  }

  /** Six more bits. */
  function Six(high: nat, b: Byte): nat
    requires Continues(b)
  {
    var low: int := b;
    high * 64 + (low - 0x80)
  }

  /** The least number a group of this many octets may hold: shorter forms must be used where they can. */
  function Least(n: nat): nat { if n <= 1 then 0 else if n == 2 then 0x80 else if n == 3 then 0x800 else 0x10000 }

  predicate Scalar(r: nat) { r < 0xD800 || 0xE000 <= r < 0x110000 }

  /** The first character of the octets and how many spell it; 0 when they are malformed. */
  function FirstChar(b: seq<Byte>): (r: (char, nat))
    ensures r.1 <= |b|
  {
    if b == [] || Announced(b[0]) == 0 || |b| < Announced(b[0]) then ('?', 0)
    else
      var n := Announced(b[0]);
      if exists i :: 1 <= i < n && !Continues(b[..n][i]) then ('?', 0)
      else
        var r := Bits(b[..n]);
        if r < Least(n) || !Scalar(r) then ('?', 0) else (r as char, n)
  }

  /** Strict decoding; None is malformed UTF-8. */
  function Decode(b: seq<Byte>): Option<string> {
    if b == [] then Some("")
    else
      var (c, n) := FirstChar(b);
      if n == 0 then None
      else
        match Decode(b[n..])
        case None => None
        case Some(s) => Some([c] + s)
  }

  // ---------------------------------------------------------------- both directions

  lemma OctetsDecode(c: char, rest: seq<Byte>)
    ensures FirstChar(Octets(c) + rest) == (c, |Octets(c)|)
  {
    var o := Octets(c);
    var b := o + rest;
    OctetsBits(c);
    assert b[0] == o[0] && b[..|o|] == o;
  }

  lemma OctetsBits(c: char)
    ensures var o := Octets(c);
            && Announced(o[0]) == |o| && (forall i :: 1 <= i < |o| ==> Continues(o[i]))
            && Bits(o) == c as int && Least(|o|) <= c as int && Scalar(c as int)
  {
    var r := c as int;
    if 0x800 <= r < 0x10000 {
      ThreeSums(r);
    } else if r >= 0x10000 {
      FourSums(r);
    }
  }

  lemma ThreeSums(r: nat)
    ensures (r / 4096 * 64 + r / 64 % 64) * 64 + r % 64 == r
  {
    assert r / 64 / 64 == r / 4096;
    assert r / 64 == r / 4096 * 64 + r / 64 % 64;
  }

  lemma FourSums(r: nat)
    ensures ((r / 262144 * 64 + r / 4096 % 64) * 64 + r / 64 % 64) * 64 + r % 64 == r
  {
    assert r / 4096 / 64 == r / 262144;
    assert r / 4096 == r / 262144 * 64 + r / 4096 % 64;
    ThreeSums(r);
  }

  lemma BitsOctets(o: seq<Byte>)
    requires 1 <= |o| <= 4 && Announced(o[0]) == |o| && forall i :: 1 <= i < |o| ==> Continues(o[i])
    requires Least(|o|) <= Bits(o) && Scalar(Bits(o))
    ensures Octets(Bits(o) as char) == o
  {
    var r := Bits(o);
    if |o| == 2 {
      assert r / 64 == o[0] - 0xC0 && r % 64 == o[1] - 0x80;
    } else if |o| == 3 {
      ThreeParts(o[0] - 0xE0, o[1] - 0x80, o[2] - 0x80);
    } else if |o| == 4 {
      FourParts(o[0] - 0xF0, o[1] - 0x80, o[2] - 0x80, o[3] - 0x80);
    }
  }

  lemma ThreeParts(a: nat, b: nat, c: nat)
    requires b < 64 && c < 64
    ensures var r := (a * 64 + b) * 64 + c; r / 4096 == a && r / 64 % 64 == b && r % 64 == c
  {
  }

  lemma FourParts(a: nat, b: nat, c: nat, d: nat)
    requires b < 64 && c < 64 && d < 64
    ensures var r := ((a * 64 + b) * 64 + c) * 64 + d;
            r / 262144 == a && r / 4096 % 64 == b && r / 64 % 64 == c && r % 64 == d
  {
    var q := (a * 64 + b) * 64 + c;
    ThreeParts(a, b, c);
    LastSixBits(q, d);
  }

  lemma LastSixBits(q: nat, d: nat)
    requires d < 64
    ensures var r := q * 64 + d; r % 64 == d && r / 64 == q && r / 4096 == q / 64 && r / 262144 == q / 4096
  {
  }

  /** Decoding inverts encoding for every text. */
  lemma {:induction false} DecodeEncode(s: string)
    ensures Decode(Utf8(s)) == Some(s)
  {
    hide FirstChar, Octets;
    if s != "" {
      var o := Octets(s[0]);
      OctetsDecode(s[0], Utf8(s[1..]));
      DecodeEncode(s[1..]);
      assert Utf8(s)[|o|..] == Utf8(s[1..]);
      assert [s[0]] + s[1..] == s;
    }
  }

  /** And only the encoding of a text decodes to it. */
  lemma {:induction false} EncodeDecode(b: seq<Byte>)
    ensures Decode(b).Some? ==> Utf8(Decode(b).value) == b
  {
    hide FirstChar, Octets;
    if b != [] {
      var (c, n) := FirstChar(b);
      if n > 0 && Decode(b[n..]).Some? {
        EncodeDecode(b[n..]);
        FirstOctets(b);
        var s := Decode(b[n..]).value;
        assert ([c] + s)[1..] == s && b[..n] + b[n..] == b;
      }
    }
  }

  lemma FirstOctets(b: seq<Byte>)
    requires FirstChar(b).1 > 0
    ensures Octets(FirstChar(b).0) == b[..FirstChar(b).1]
  {
    hide Octets, Bits;
    BitsOctets(b[..FirstChar(b).1]);
  }

  /** The length of a text is the number of its octets. */
  lemma {:induction false} LengthIsOctets(s: string)
    ensures |Utf8(s)| == Utf8Len(s)
  {
    if s != "" { LengthIsOctets(s[1..]); }
  }
}
