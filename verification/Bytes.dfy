/** Octet strings, digests, hexadecimal and positional integers. */
module Bytes {
  import opened Decimals
  import opened Printing

  type Byte = b: int | 0 <= b < 256

  type Digest = d: seq<Byte> | |d| == 32 witness seq(32, i => 0)

  /** Number of octets of the UTF-8 encoding. */
  function Utf8Len(s: string): nat {
    if s == "" then 0 else Utf8Size(s[0]) + Utf8Len(s[1..])
  }

  function Utf8Size(c: char): nat {
    var r := c as int;
    if r < 0x80 then 1 else if r < 0x800 then 2 else if r < 0x10000 then 3 else 4
  }

  lemma {:induction false} Utf8LenConcat(a: string, b: string)
    ensures Utf8Len(a + b) == Utf8Len(a) + Utf8Len(b)
  {
    hide Utf8Size;
    if a == "" {
      assert a + b == b;
    } else {
      assert (a + b)[1..] == a[1..] + b;
      Utf8LenConcat(a[1..], b);
    }
  }

  predicate IsLowerHexDigit(c: char) { IsDigit(c) || 'a' <= c <= 'f' }

  predicate IsLowerHex(s: string) { forall i :: 0 <= i < |s| ==> IsLowerHexDigit(s[i]) }

  function Hex(d: seq<Byte>): (s: string)
    ensures |s| == 2 * |d|
  {
    if d == [] then "" else [HexDigit(d[0] / 16), HexDigit(d[0] % 16)] + Hex(d[1..])
  }

  function LowerHexVal(c: char): (v: nat)
    requires IsLowerHexDigit(c)
    ensures v < 16
  {
    if IsDigit(c) then c as int - '0' as int else c as int - 'a' as int + 10
  }

  /** bytes.fromhex on lower-case digits. */
  function UnHex(s: string): (d: seq<Byte>)
    requires IsLowerHex(s) && |s| % 2 == 0
    ensures |d| == |s| / 2
  {
    if s == "" then [] else [LowerHexVal(s[0]) * 16 + LowerHexVal(s[1])] + UnHex(s[2..])
  }

  /** int(s, 16) on lower-case digits. */
  function HexInt(s: string): nat
    requires IsLowerHex(s)
  {
    if s == "" then 0 else 16 * HexInt(s[..|s| - 1]) + LowerHexVal(s[|s| - 1])
  }

  function BigEndianInt(d: seq<Byte>): nat {
    if d == [] then 0 else 256 * BigEndianInt(d[..|d| - 1]) + d[|d| - 1]
  }

  lemma HexDigitIsHex(d: nat)
    requires d < 16
    ensures IsLowerHexDigit(HexDigit(d)) && LowerHexVal(HexDigit(d)) == d
  {
  }

  lemma {:induction false} HexRoundTrip(d: seq<Byte>)
    ensures IsLowerHex(Hex(d)) && UnHex(Hex(d)) == d
  {
    hide HexDigit, IsLowerHexDigit, LowerHexVal;
    if d != [] {
      HexRoundTrip(d[1..]);
      HexDigitIsHex(d[0] / 16);
      HexDigitIsHex(d[0] % 16);
      var s := Hex(d);
      assert s[2..] == Hex(d[1..]);
      forall i | 0 <= i < |s| ensures IsLowerHexDigit(s[i]) { if i >= 2 { assert s[i] == s[2..][i - 2]; } }
      assert [d[0]] + d[1..] == d;
    }
  }

  lemma {:induction false} HexAppend(d: seq<Byte>, b: Byte)
    ensures Hex(d + [b]) == Hex(d) + [HexDigit(b / 16), HexDigit(b % 16)]
  {
    hide HexDigit;
    if d == [] {
      assert d + [b] == [b] && [b][1..] == [];
    } else {
      assert (d + [b])[1..] == d[1..] + [b];
      HexAppend(d[1..], b);
    }
  }

  /** Reading the hexadecimal text of a digest as a number gives its big-endian value. */
  lemma {:induction false} HexIntIsBigEndian(d: seq<Byte>)
    ensures IsLowerHex(Hex(d)) && HexInt(Hex(d)) == BigEndianInt(d)
  {
    hide HexDigit, LowerHexVal, IsLowerHexDigit;
    HexRoundTrip(d);
    if d != [] {
      var t, b := d[..|d| - 1], d[|d| - 1];
      assert d == t + [b];
      HexIntIsBigEndian(t);
      HexAppend(t, b);
      HexDigitIsHex(b / 16);
      HexDigitIsHex(b % 16);
      var s := Hex(d);
      var u := s[..|s| - 1];
      assert u == Hex(t) + [HexDigit(b / 16)] && u[..|u| - 1] == Hex(t);
    }
  }

  lemma HexInjective(d: seq<Byte>, e: seq<Byte>)
    requires Hex(d) == Hex(e)
    ensures d == e
  {
    HexRoundTrip(d);
    HexRoundTrip(e);
  }
}
