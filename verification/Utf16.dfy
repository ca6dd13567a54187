/** The member order of RFC 8785 section 3.2.3: names compared as sequences of UTF-16 code units. */
module Utf16 {
  /** The UTF-16 code units of one Unicode scalar value. */
  function UnitsOf(c: char): (u: seq<nat>)
    ensures |u| == 1 || |u| == 2
    ensures forall i :: 0 <= i < |u| ==> u[i] < 0x10000
    ensures |u| == 2 <==> 0xD800 <= u[0] < 0xDC00
  {
    var r := c as int;
    if r < 0x10000 then [r] else [0xD800 + (r - 0x10000) / 0x400, 0xDC00 + (r - 0x10000) % 0x400]
  }

  /** One unit is the scalar value itself; two are a high and a low surrogate that stand for it. */
  lemma UnitsMean(c: char)
    ensures var u, r := UnitsOf(c), c as int;
            && (|u| == 1 ==> u[0] == r && !(0xD800 <= r < 0xE000))
            && (|u| == 2 ==> 0xD800 <= u[0] < 0xDC00 && 0xDC00 <= u[1] < 0xE000)
            && (|u| == 2 ==> r == 0x10000 + (u[0] - 0xD800) * 0x400 + (u[1] - 0xDC00))
  {
  }

  function Units(s: string): (u: seq<nat>)
    ensures forall i :: 0 <= i < |u| ==> u[i] < 0x10000
  {
    if s == "" then [] else UnitsOf(s[0]) + Units(s[1..])
  }

  function BigEndian(u: seq<nat>): seq<nat> {
    if u == [] then [] else [u[0] / 256, u[0] % 256] + BigEndian(u[1..])
  }

  predicate LexLess(a: seq<nat>, b: seq<nat>) {
    b != [] && (a == [] || a[0] < b[0] || (a[0] == b[0] && LexLess(a[1..], b[1..])))
  }

  /** The reference order. */
  predicate Less(a: string, b: string) { LexLess(Units(a), Units(b)) }

  /** Python's order: bytes of the big-endian UTF-16 encoding. */
  predicate BytesLess(a: string, b: string) { LexLess(BigEndian(Units(a)), BigEndian(Units(b))) }

  lemma {:induction false} BigEndianOrder(u: seq<nat>, w: seq<nat>)
    ensures LexLess(BigEndian(u), BigEndian(w)) <==> LexLess(u, w)
  {
    if u != [] && w != [] {
      var bu, bw := BigEndian(u), BigEndian(w);
      assert bu[1..][1..] == BigEndian(u[1..]) && bw[1..][1..] == BigEndian(w[1..]);
      BigEndianOrder(u[1..], w[1..]);
    }
  }

  lemma BytesLessIsLess(a: string, b: string)
    ensures BytesLess(a, b) <==> Less(a, b)
  {
    BigEndianOrder(Units(a), Units(b));
  }

  /** Up to unit `k` both are alike, and there the first one ends or has the smaller unit. */
  predicate SmallerAt(a: seq<nat>, b: seq<nat>, k: nat) {
    k <= |a| && k < |b| && a[..k] == b[..k] && (k == |a| || a[k] < b[k])
  }

  ghost predicate Before(a: seq<nat>, b: seq<nat>) { exists k: nat :: SmallerAt(a, b, k) }

  /** The order of RFC 8785: decided by the first code unit in which the names differ. */
  lemma {:induction false} FirstDifference(a: seq<nat>, b: seq<nat>)
    ensures LexLess(a, b) <==> Before(a, b)
  {
    if a != [] && b != [] && a[0] == b[0] {
      FirstDifference(a[1..], b[1..]);
      if k: nat :| SmallerAt(a[1..], b[1..], k) {
        assert a[..k + 1] == [a[0]] + a[1..][..k] && b[..k + 1] == [b[0]] + b[1..][..k];
        assert SmallerAt(a, b, k + 1);
      }
      if k: nat :| SmallerAt(a, b, k) {
        assert k > 0 && a[1..][..k - 1] == a[..k][1..] && b[1..][..k - 1] == b[..k][1..];
        assert SmallerAt(a[1..], b[1..], k - 1);
      }
    } else {
      if LexLess(a, b) { assert SmallerAt(a, b, 0); }
      forall k: nat | SmallerAt(a, b, k) ensures LexLess(a, b) { assert k > 0 ==> a[..k][0] == b[..k][0]; }
    }
  }

  lemma LessMeans(a: string, b: string)
    ensures Less(a, b) <==> Before(Units(a), Units(b))
  {
    hide Before;
    FirstDifference(Units(a), Units(b));
  }

  lemma UnitsOfInjective(c: char, d: char)
    requires UnitsOf(c) == UnitsOf(d)
    ensures c == d
  {
    var r, q := c as int, d as int;
    if r >= 0x10000 {
      assert UnitsOf(c)[0] == UnitsOf(d)[0] && UnitsOf(c)[1] == UnitsOf(d)[1];
      assert (r - 0x10000) / 0x400 == (q - 0x10000) / 0x400;
      assert (r - 0x10000) % 0x400 == (q - 0x10000) % 0x400;
    } else {
      assert UnitsOf(c)[0] == UnitsOf(d)[0];
    }
  }

  /** Code units decide the order character by character: unequal characters differ at a common index,
      so the branch of Go's comparison for equal units of unequal number is never taken. */
  lemma CharDecides(c: char, d: char)
    requires c != d
    ensures var a, b := UnitsOf(c), UnitsOf(d);
            a[0] != b[0] || (|a| == 2 && |b| == 2 && a[1] != b[1])
  {
    var a, b := UnitsOf(c), UnitsOf(d);
    if a[0] == b[0] && !(|a| == 2 && |b| == 2 && a[1] != b[1]) {
      assert a == b;
      UnitsOfInjective(c, d);
    }
  }

  predicate CharLess(c: char, d: char) {
    var a, b := UnitsOf(c), UnitsOf(d);
    a[0] < b[0] || (a[0] == b[0] && |a| == 2 && |b| == 2 && a[1] < b[1])
  }

  lemma LessByChar(a: string, b: string)
    ensures a == "" ==> (Less(a, b) <==> b != "")
    ensures b == "" ==> !Less(a, b)
    ensures a != "" && b != "" ==> (Less(a, b) <==> CharLess(a[0], b[0]) || (a[0] == b[0] && Less(a[1..], b[1..])))
  {
    if a != "" && b != "" {
      var x, y := UnitsOf(a[0]), UnitsOf(b[0]);
      var u, w := Units(a), Units(b);
      if a[0] == b[0] {
        assert u[|x|..] == Units(a[1..]) && w[|x|..] == Units(b[1..]);
        if |x| == 2 {
          assert u[1..][0] == x[1] == w[1..][0] && u[1..][1..] == u[2..] && w[1..][1..] == w[2..];
          assert LexLess(u[1..], w[1..]) <==> LexLess(u[2..], w[2..]);
        }
      } else {
        CharDecides(a[0], b[0]);
        assert u[0] == x[0] && w[0] == y[0];
        if x[0] == y[0] {
          assert u[1..][0] == x[1] && w[1..][0] == y[1];
          assert LexLess(u[1..], w[1..]) <==> x[1] < y[1];
        }
      }
    } else if b != "" {
      assert Units(b)[0] == UnitsOf(b[0])[0];
    }
  }

  /** The reference order is a strict total order on names. */
  lemma {:induction false} LessTotal(a: string, b: string)
    ensures !Less(a, a)
    ensures Less(a, b) ==> !Less(b, a)
    ensures a != b ==> Less(a, b) || Less(b, a)
  {
    LessByChar(a, b);
    LessByChar(b, a);
    LessByChar(a, a);
    if a != "" && b != "" {
      LessTotal(a[1..], b[1..]);
      if a[0] != b[0] { CharDecides(a[0], b[0]); } else { assert a == [a[0]] + a[1..] && b == [b[0]] + b[1..]; }
    } else if a != "" {
      LessTotal(a[1..], b);
    }
  }

  lemma {:induction false} LessTransitive(a: string, b: string, c: string)
    requires Less(a, b) && Less(b, c)
    ensures Less(a, c)
  {
    LessByChar(a, b);
    LessByChar(b, c);
    LessByChar(a, c);
    if a != "" && a[0] == b[0] && b[0] == c[0] {
      LessTransitive(a[1..], b[1..], c[1..]);
    }
  }

  /** Go's comparison: decode one character of each side at a time, compare unit by unit. */
  method GoLess(a: string, b: string) returns (r: bool)
    ensures r <==> Less(a, b)
  {
    var ia, ib := 0, 0;
    while ia < |a| && ib < |b|
      invariant 0 <= ia == ib <= |a| && ib <= |b|
      invariant a[..ia] == b[..ib]
      invariant Less(a, b) <==> Less(a[ia..], b[ib..])
    {
      var ca, cb := UnitsOf(a[ia]), UnitsOf(b[ib]);
      LessByChar(a[ia..], b[ib..]);
      if a[ia] != b[ib] { CharDecides(a[ia], b[ib]); }
      var k := 0;
      while k < |ca| && k < |cb|
        invariant 0 <= k <= |ca| && k <= |cb|
        invariant forall j :: 0 <= j < k ==> ca[j] == cb[j]
      {
        if ca[k] != cb[k] {
          assert a[ia] != b[ib];
          return ca[k] < cb[k];
        }
        k := k + 1;
      }
      if |ca| != |cb| {
        return |ca| < |cb|;
      }
      ia, ib := ia + 1, ib + 1;
      assert a[ia - 1..][1..] == a[ia..] && b[ib - 1..][1..] == b[ib..];
    }
    LessByChar(a[ia..], b[ib..]);
    r := |a| < |b|;
  }
}
