/** Decimal numerals, powers of ten, and the binary64 conversions the verifiers take from their libraries. */
module Decimals {
  import opened Values

  predicate IsDigit(c: char) { '0' <= c <= '9' }

  predicate AllDigits(s: string) { forall i :: 0 <= i < |s| ==> IsDigit(s[i]) }

  function DigitOf(c: char): nat requires IsDigit(c) { c as int - '0' as int }

  function DigitChar(d: nat): (c: char)
    requires d < 10
    ensures IsDigit(c) && DigitOf(c) == d
  {
    (d + '0' as int) as char
  }

  /** The number a digit string denotes. */
  function DigitsVal(s: string): nat
    requires AllDigits(s)
  {
    if s == "" then 0 else 10 * DigitsVal(s[..|s| - 1]) + DigitOf(s[|s| - 1])
  }

  /** The shortest decimal numeral of a natural number. */
  function NatStr(n: nat): (s: string)
    ensures s != "" && AllDigits(s) && DigitsVal(s) == n
    ensures s[0] == '0' ==> s == "0"
  {
    if n < 10 then [DigitChar(n)]
    else
      var p := NatStr(n / 10);
      var s := p + [DigitChar(n % 10)];
      assert s[..|s| - 1] == p;
      s
  }

  function Zeros(k: nat): (s: string)
    ensures |s| == k && AllDigits(s)
    ensures forall i :: 0 <= i < k ==> s[i] == '0'
  {
    seq(k, i => '0')
  }

  function IntPow10(k: nat): nat { if k == 0 then 1 else 10 * IntPow10(k - 1) }

  lemma IntPow10Pos(k: nat)
    ensures IntPow10(k) > 0
  {
  }

  lemma {:induction false} ZerosVal(k: nat)
    ensures DigitsVal(Zeros(k)) == 0
  {
    if k > 0 {
      assert Zeros(k)[..k - 1] == Zeros(k - 1);
      ZerosVal(k - 1);
    }
  }

  lemma TenTimes(n: nat, p: nat)
    ensures 10 * (n * p) == n * (10 * p)
  {
  }

  lemma {:induction false} DigitsValConcat(a: string, b: string)
    requires AllDigits(a) && AllDigits(b)
    ensures AllDigits(a + b) && DigitsVal(a + b) == DigitsVal(a) * IntPow10(|b|) + DigitsVal(b)
  {
    if b == "" {
      assert a + b == a;
    } else {
      var s := a + b;
      var b' := b[..|b| - 1];
      assert s[..|s| - 1] == a + b';
      DigitsValConcat(a, b');
      assert DigitsVal(s) == 10 * DigitsVal(a + b') + DigitOf(b[|b| - 1]);
      TenTimes(DigitsVal(a), IntPow10(|b'|));
    }
  }

  lemma {:induction false} DigitsValBound(s: string)
    requires AllDigits(s)
    ensures DigitsVal(s) < IntPow10(|s|)
    ensures s != "" && s[0] != '0' ==> IntPow10(|s| - 1) <= DigitsVal(s)
  {
    if s != "" {
      var t := s[..|s| - 1];
      DigitsValBound(t);
      if t != "" { assert t[0] == s[0]; }
    }
  }

  /** Numerals without a leading zero are determined by what they denote. */
  lemma {:induction false} NumeralUnique(s: string)
    requires AllDigits(s) && s != "" && (s[0] == '0' ==> s == "0")
    ensures NatStr(DigitsVal(s)) == s
  {
    var t := s[..|s| - 1];
    if t == "" {
      assert s == [s[0]];
    } else {
      NumeralUnique(t);
      DigitsValBound(t);
      IntPow10Pos(|t| - 1);
      var n, v, d := DigitsVal(s), DigitsVal(t), DigitOf(s[|s| - 1]);
      assert n == 10 * v + d && v >= 1;
      assert n / 10 == v && n % 10 == d;
      assert NatStr(n) == NatStr(v) + [DigitChar(d)];
      assert s == t + [s[|s| - 1]];
    }
  }

  // ---------------------------------------------------------------- real powers of ten

  function Pow10(e: int): real
    decreases if e < 0 then -e else e
  {
    if e == 0 then 1.0 else if e > 0 then 10.0 * Pow10(e - 1) else Pow10(e + 1) / 10.0
  }

  lemma Pow10Step(e: int)
    ensures Pow10(e + 1) == 10.0 * Pow10(e)
  {
  }

  lemma {:induction false} Pow10Add(a: int, k: nat)
    ensures Pow10(a + k) == (IntPow10(k) as real) * Pow10(a)
  {
    if k > 0 {
      Pow10Add(a, k - 1);
      Pow10Step(a + k - 1);
      var x, y := IntPow10(k - 1) as real, Pow10(a);
      assert IntPow10(k) as real == 10.0 * x;
      assert 10.0 * (x * y) == (10.0 * x) * y;
    }
  }

  // ---------------------------------------------------------------- binary64

  /** A positive decimal in scientific form: d1.d2d3... times ten to the `exp`. */
  datatype Decimal = Decimal(digits: string, exp: int)

  predicate WellFormedDecimal(d: Decimal) {
    d.digits != "" && AllDigits(d.digits) && d.digits[0] != '0' && d.digits[|d.digits| - 1] != '0'
  }

  function DecimalVal(d: Decimal): real
    requires AllDigits(d.digits)
  {
    (DigitsVal(d.digits) as real) * Pow10(d.exp + 1 - |d.digits|)
  }

  /** Library conversions: `nearest` rounds an exact decimal to binary64 (None when it overflows),
      `shortest` gives the shortest digits that round back to a positive binary64 number. */
  datatype Binary64 = Binary64(nearest: real -> Option<real>, shortest: real -> Decimal)

  ghost predicate Representable(fp: Binary64, x: real) { fp.nearest(x) == Some(x) }

  const SAFE_INT: nat := 0x20_0000_0000_0000

  /** Rounding lands on a representable number. */
  ghost predicate RoundsOk(fp: Binary64, x: real) { fp.nearest(x).Some? ==> Representable(fp, fp.nearest(x).value) }

  ghost predicate NegatesOk(fp: Binary64, x: real) { Representable(fp, x) ==> Representable(fp, -x) }

  ghost predicate DigitsOk(fp: Binary64, x: real) { x > 0.0 && Representable(fp, x) ==> ShortestOk(fp, x) }

  /** What the verifiers rely on from their libraries: rounding lands on representable numbers and is
      odd, zero is representable, shortest digits are well formed and round back, and the shortest
      digits of an integer below 2^53 denote that integer. */
  ghost predicate Faithful(fp: Binary64) {
    && Representable(fp, 0.0)
    && (forall x: real :: RoundsOk(fp, x))
    && (forall x: real :: NegatesOk(fp, x))
    && (forall x: real :: DigitsOk(fp, x))
  }

  ghost predicate ShortestOk(fp: Binary64, x: real) {
    var d := fp.shortest(x);
    && WellFormedDecimal(d)
    && fp.nearest(DecimalVal(d)) == Some(x)
    && fp.nearest(-DecimalVal(d)) == Some(-x)
    && (x == x.Floor as real && x < SAFE_INT as real ==> DecimalVal(d) == x)
  }
}
