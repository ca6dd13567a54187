/** How the two implementations rewrite their library's shortest digits into the canonical text. */
module NumberFormats {
  import opened Decimals
  import opened Numbers

  // ---------------------------------------------------------------- string helpers of the libraries

  /** Index of the first `c`, or the length when there is none. */
  function IndexOf(s: string, c: char): (i: nat)
    ensures i <= |s| && (i < |s| ==> s[i] == c) && forall j :: 0 <= j < i ==> s[j] != c
  {
    if s == "" || s[0] == c then 0 else 1 + IndexOf(s[1..], c)
  }

  function RemoveFirst(s: string, c: char): string {
    var i := IndexOf(s, c);
    if i == |s| then s else s[..i] + s[i + 1..]
  }

  function TrimZeros(s: string): string {
    if s != "" && s[|s| - 1] == '0' then TrimZeros(s[..|s| - 1]) else s
  }

  function ParseInt(s: string): int
    requires s != "" && (s[0] == '+' || s[0] == '-') && AllDigits(s[1..])
  {
    var m: int := DigitsVal(s[1..]);
    if s[0] == '-' then -m else m
  }

  function Pad2(e: nat): string { if e < 10 then "0" + NatStr(e) else NatStr(e) }

  /** d[.ddd]e+XX, the exponent with at least two digits. */
  function Scientific(d: Decimal): string {
    Mantissa(d.digits) + "e" + SignedExp(d.exp)
  }

  function Mantissa(ds: string): string { if |ds| <= 1 then ds else ds[..1] + "." + ds[1..] }

  function SignedExp(e: int): string { if e >= 0 then "+" + Pad2(e) else "-" + Pad2(-e) }

  /** Python's repr of a positive float with shortest digits `d`. */
  function Repr(d: Decimal): string {
    var k, n := |d.digits|, d.exp + 1;
    if !(-4 <= d.exp < 16) then Scientific(d)
    else if n <= 0 then "0." + Zeros(-n) + d.digits
    else if k <= n then d.digits + Zeros(n - k) + ".0"
    else d.digits[..n] + "." + d.digits[n..]
  }

  // ---------------------------------------------------------------- Go: FormatNumber

  /** The branch structure of Go's FormatNumber on digits and exponent. */
  function GoLayout(digits: string, exp: int): string
    requires digits != ""
  {
    var k, n := |digits|, exp + 1;
    if k <= n && n <= 21 then digits + Zeros(n - k)
    else if 0 < n && n <= 21 then digits[..n] + "." + digits[n..]
    else if -6 < n && n <= 0 then "0." + Zeros(-n) + digits
    else
      var out := if k == 1 then digits else digits[..1] + "." + digits[1..];
      var e := n - 1;
      if e >= 0 then out + "e+" + NatStr(e) else out + "e-" + NatStr(-e)
  }

  predicate HasExponent(s: string) {
    var epos := IndexOf(s, 'e');
    epos + 1 < |s| && (s[epos + 1] == '+' || s[epos + 1] == '-') && AllDigits(s[epos + 2..])
  }

  function GoDigits(s: string): (r: string)
    ensures r != ""
  {
    var digits := TrimZeros(RemoveFirst(s[..IndexOf(s, 'e')], '.'));
    if digits == "" then "0" else digits
  }

  function GoRewrite(s: string): string
    requires HasExponent(s)
  {
    GoLayout(GoDigits(s), ParseInt(s[IndexOf(s, 'e') + 1..]))
  }

  lemma PadVal(e: nat)
    ensures AllDigits(Pad2(e)) && DigitsVal(Pad2(e)) == e
  {
    if e < 10 {
      DigitsValConcat("0", NatStr(e));
      assert DigitsVal("0") == 0;
    }
  }

  lemma SignedExpVal(e: int)
    ensures var s := SignedExp(e); s != "" && (s[0] == '+' || s[0] == '-') && AllDigits(s[1..]) && ParseInt(s) == e
  {
    var m: nat := if e >= 0 then e else -e;
    PadVal(m);
    assert SignedExp(e)[1..] == Pad2(m);
  }

  lemma MantissaParts(ds: string)
    requires ds != "" && AllDigits(ds)
    ensures RemoveFirst(Mantissa(ds), '.') == ds
    ensures forall i :: 0 <= i < |Mantissa(ds)| ==> Mantissa(ds)[i] != 'e'
  {
    var m := Mantissa(ds);
    if |ds| > 1 {
      assert m[1] == '.' && m[0] == ds[0];
      assert IndexOf(m, '.') == 1;
      assert m[..1] + m[2..] == ds;
    }
  }

  lemma ScientificParts(d: Decimal)
    requires WellFormedDecimal(d)
    ensures var s := Scientific(d); var epos := IndexOf(s, 'e');
            epos == |Mantissa(d.digits)| && s[..epos] == Mantissa(d.digits) && s[epos + 1..] == SignedExp(d.exp) &&
            epos < |s|
  {
    var s, m := Scientific(d), Mantissa(d.digits);
    MantissaParts(d.digits);
    assert s[|m|] == 'e' && s[..|m|] == m && s[|m| + 1..] == SignedExp(d.exp);
    assert forall j :: 0 <= j < |m| ==> s[j] == m[j];
    var i := IndexOf(s, 'e');
    assert i <= |m|;
  }

  /** Go's rewriting of the shortest 'e' form gives the canonical text. */
  lemma GoRewriteCorrect(d: Decimal)
    requires WellFormedDecimal(d)
    ensures HasExponent(Scientific(d)) && GoRewrite(Scientific(d)) == EsBody(d)
  {
    hide IndexOf, Scientific, NatStr;
    var s := Scientific(d);
    ScientificParts(d);
    SignedExpVal(d.exp);
    var epos := IndexOf(s, 'e');
    assert s[epos + 2..] == s[epos + 1..][1..] && s[epos + 1] == s[epos + 1..][0];
    MantissaParts(d.digits);
    assert GoDigits(s) == d.digits;
    assert GoLayout(d.digits, d.exp) == EsBody(d) by { LayoutIsEsBody(d); }
  }

  lemma LayoutIsEsBody(d: Decimal)
    requires WellFormedDecimal(d)
    ensures GoLayout(d.digits, d.exp) == EsBody(d)
  {
    hide NatStr, Zeros;
    var k, n := |d.digits|, d.exp + 1;
    if !(0 < n <= 21) && !(-6 < n <= 0) {
      var out := if k == 1 then d.digits else d.digits[..1] + "." + d.digits[1..];
      if n - 1 >= 0 {
        assert out + "e+" + NatStr(n - 1) == out + ("e+" + NatStr(n - 1));
      } else {
        assert out + "e-" + NatStr(1 - n) == out + ("e-" + NatStr(1 - n));
      }
    }
  }

  /** Go's FormatNumber. */
  function GoFormatNumber(fp: Binary64, x: real): string {
    if x == 0.0 then "0"
    else
      var neg := x < 0.0;
      var s := Scientific(fp.shortest(if neg then -x else x));
      var out := if HasExponent(s) then GoRewrite(s) else "";
      if neg then "-" + out else out
  }

  // ---------------------------------------------------------------- Python: _es_number

  function PyLayout(digits: string, exp: int): string
    requires digits != ""
  {
    var k, nEs := |digits|, exp + 1;
    if 1 <= nEs <= 21 then
      if k <= nEs then digits + Zeros(nEs - k) else digits[..nEs] + "." + digits[nEs..]
    else if -5 <= nEs <= 0 then "0." + Zeros(-nEs) + digits
    else
      var expShow := nEs - 1;
      var mant := if k == 1 then digits else [digits[0]] + "." + digits[1..];
      mant + "e" + (if expShow >= 0 then "+" + NatStr(expShow) else "-" + NatStr(-expShow))
  }

  /** The digits and exponent that the two regular expressions of _es_number extract from a repr. */
  function PyExtract(s: string): (string, int) {
    var epos := IndexOf(s, 'e');
    if epos < |s| && HasExponent(s) then
      (OrZero(TrimZeros(RemoveFirst(s[..epos], '.'))), ParseInt(s[epos + 1..]))
    else
      var dot := IndexOf(s, '.');
      var intPart := s[..dot];
      var fracPart := if dot < |s| then s[dot + 1..] else "";
      (OrZero(TrimZeros(intPart + fracPart)), |intPart| - 1)
  }

  function OrZero(s: string): (r: string)
    ensures r != ""
  {
    if s == "" then "0" else s
  }

  function PyBody(fp: Binary64, n: real): string
    requires n > 0.0
  {
    if n == n.Floor as real && n < SAFE_INT as real then NatStr(n.Floor)
    else
      var (digits, exp) := PyExtract(Repr(fp.shortest(n)));
      if digits == "" then "" else PyLayout(digits, exp)
  }

  /** Python's _es_number. */
  function PyEsNumber(fp: Binary64, x: real): string {
    if x == 0.0 then "0"
    else if x < 0.0 then "-" + PyBody(fp, -x) else PyBody(fp, x)
  }

  lemma PyLayoutIsGoLayout(digits: string, exp: int)
    requires digits != ""
    ensures PyLayout(digits, exp) == GoLayout(digits, exp)
  {
    hide NatStr, Zeros;
    var n := exp + 1;
    if !(1 <= n <= 21) && !(-5 <= n <= 0) {
      var mant := if |digits| == 1 then digits else [digits[0]] + "." + digits[1..];
      assert [digits[0]] == digits[..1];
      if n - 1 >= 0 {
        assert mant + "e" + ("+" + NatStr(n - 1)) == mant + "e+" + NatStr(n - 1);
      } else {
        assert mant + "e" + ("-" + NatStr(1 - n)) == mant + "e-" + NatStr(1 - n);
      }
    }
  }

  lemma {:induction false} TrimPadded(ds: string, z: nat)
    requires ds != "" && ds[|ds| - 1] != '0'
    ensures TrimZeros(ds + Zeros(z)) == ds
  {
    if z == 0 {
      assert ds + Zeros(0) == ds;
    } else {
      var s := ds + Zeros(z);
      assert s[|s| - 1] == '0' && s[..|s| - 1] == ds + Zeros(z - 1);
      TrimPadded(ds, z - 1);
    }
  }

  /** Where the fixed-notation repr has its point, and what stands around it. */
  lemma FixedParts(a: string, b: string)
    requires AllDigits(a) && AllDigits(b) && a != ""
    ensures var s := a + "." + b;
            IndexOf(s, '.') == |a| && IndexOf(s, 'e') == |s| && s[..|a|] == a && s[|a| + 1..] == b
  {
    var s := a + "." + b;
    assert forall j :: 0 <= j < |a| ==> s[j] == a[j];
    assert s[|a|] == '.' && s[..|a|] == a && s[|a| + 1..] == b;
    assert forall j :: 0 <= j < |s| ==> s[j] != 'e' by {
      forall j | 0 <= j < |s| ensures s[j] != 'e' {
        if j > |a| { assert s[j] == b[j - |a| - 1]; }
      }
    }
    var i := IndexOf(s, '.');
    assert i <= |a|;
  }

  lemma ExtractFixed(a: string, b: string)
    requires AllDigits(a) && AllDigits(b) && a != ""
    ensures PyExtract(a + "." + b) == (OrZero(TrimZeros(a + b)), |a| - 1)
  {
    FixedParts(a, b);
  }

  lemma PySciCorrect(d: Decimal)
    requires WellFormedDecimal(d)
    ensures var (digits, exp) := PyExtract(Scientific(d)); digits != "" && PyLayout(digits, exp) == EsBody(d)
  {
    hide NatStr, IndexOf, PyLayout, GoLayout;
    ScientificParts(d);
    SignedExpVal(d.exp);
    GoRewriteCorrect(d);
    MantissaParts(d.digits);
    PyLayoutIsGoLayout(d.digits, d.exp);
    LayoutIsEsBody(d);
  }

  lemma PySmallCorrect(d: Decimal)
    requires WellFormedDecimal(d) && -4 <= d.exp < 0
    ensures var (digits, exp) := PyExtract(Repr(d)); digits != "" && PyLayout(digits, exp) == EsBody(d)
  {
    hide NatStr, IndexOf, PyExtract;
    var n := d.exp + 1;
    var b := Zeros(-n) + d.digits;
    assert "0." + Zeros(-n) + d.digits == "0" + "." + b;
    ExtractFixed("0", b);
    var all := "0" + b;
    assert TrimZeros(all) == all;
    assert all[..1] == "0" && all[1..] == b;
  }

  lemma PyIntegralCorrect(d: Decimal)
    requires WellFormedDecimal(d) && |d.digits| <= d.exp + 1 <= 16
    ensures var (digits, exp) := PyExtract(Repr(d)); digits != "" && PyLayout(digits, exp) == EsBody(d)
  {
    hide NatStr, IndexOf, PyExtract, PyLayout, GoLayout, EsBody;
    var k, n := |d.digits|, d.exp + 1;
    var a := d.digits + Zeros(n - k);
    assert Repr(d) == a + "." + "0" by { assert a + ".0" == a + "." + "0"; }
    ExtractFixed(a, "0");
    assert a + "0" == d.digits + Zeros(n - k + 1);
    TrimPadded(d.digits, n - k + 1);
    PyLayoutIsGoLayout(d.digits, d.exp);
    LayoutIsEsBody(d);
  }

  lemma PyPointCorrect(d: Decimal)
    requires WellFormedDecimal(d) && 0 < d.exp + 1 < |d.digits| && d.exp < 16
    ensures var (digits, exp) := PyExtract(Repr(d)); digits != "" && PyLayout(digits, exp) == EsBody(d)
  {
    hide NatStr, IndexOf, PyExtract, PyLayout, GoLayout, EsBody;
    var n := d.exp + 1;
    ExtractFixed(d.digits[..n], d.digits[n..]);
    assert d.digits[..n] + d.digits[n..] == d.digits;
    PyLayoutIsGoLayout(d.digits, d.exp);
    LayoutIsEsBody(d);
  }

  /** Reading a repr of either form and laying it out again gives the canonical text. */
  lemma PyRewriteCorrect(d: Decimal)
    requires WellFormedDecimal(d)
    ensures var (digits, exp) := PyExtract(Repr(d)); digits != "" && PyLayout(digits, exp) == EsBody(d)
  {
    hide NatStr, IndexOf, PyExtract, PyLayout, EsBody;
    var n := d.exp + 1;
    if !(-4 <= d.exp < 16) {
      PySciCorrect(d);
    } else if n <= 0 {
      PySmallCorrect(d);
    } else if |d.digits| <= n {
      PyIntegralCorrect(d);
    } else {
      PyPointCorrect(d);
    }
  }

  // ---------------------------------------------------------------- the safe-integer fast path

  lemma {:induction false} IntPow10Monotone(a: nat, b: nat)
    requires IntPow10(a) < IntPow10(b)
    ensures a < b
  {
    if a > 0 && b > 0 { IntPow10Monotone(a - 1, b - 1); } else if b == 0 { IntPow10Pos(a); }
  }

  lemma LastDigit(s: string)
    requires AllDigits(s) && s != "" && s[|s| - 1] != '0'
    ensures DigitsVal(s) % 10 != 0
  {
    assert DigitsVal(s) == 10 * DigitsVal(s[..|s| - 1]) + DigitOf(s[|s| - 1]);
  }

  /** Digits that do not end in zero and denote an integer have no fractional part. */
  lemma IntegralDigits(d: Decimal, m: nat)
    requires WellFormedDecimal(d) && DecimalVal(d) == m as real
    ensures |d.digits| <= d.exp + 1
  {
    hide DigitsVal, IntPow10;
    var j := |d.digits| - (d.exp + 1);
    if j > 0 {
      var v := DigitsVal(d.digits);
      LastDigit(d.digits);
      Pow10Add(-j, j);
      PowZero();
      TenDivides(j);
      MultipleOfTen(m, IntPow10(j));
      ScaleUp(v, IntPow10(j), m, Pow10(-j));
    }
  }

  lemma MultipleOfTen(m: nat, p: nat)
    requires p % 10 == 0
    ensures (m * p) % 10 == 0
  {
    assert m * p == 10 * (m * (p / 10));
  }

  lemma ScaleUp(v: nat, p: nat, m: nat, q: real)
    requires (v as real) * q == m as real && (p as real) * q == 1.0
    ensures v == m * p
  {
    Reassociate(v as real, p as real, q);
    ProductAsReal(m, p);
  }

  lemma Reassociate(a: real, b: real, c: real)
    requires b * c == 1.0
    ensures a == (a * c) * b
  {
    assert (a * c) * b == a * (b * c);
  }

  lemma TenDivides(j: nat)
    requires j > 0
    ensures IntPow10(j) % 10 == 0
  {
    var x := IntPow10(j - 1);
    assert (10 * x) % 10 == 0;
  }

  lemma SafeIntegerCorrect(d: Decimal, m: nat)
    requires WellFormedDecimal(d) && DecimalVal(d) == m as real && m < SAFE_INT
    ensures EsBody(d) == NatStr(m)
  {
    hide DigitsVal, NatStr, Pow10, Zeros;
    IntegralDigits(d, m);
    var z := d.exp + 1 - |d.digits|;
    var s := d.digits + Zeros(z);
    MagnitudeOfPaddedRight(d.digits, z);
    assert Pow10(0) == 1.0 by { PowZero(); }
    assert DigitsVal(s) == m;
    NumeralUnique(s);
    DigitsValBound(s);
    SafeBelow16Digits();
    IntPow10Monotone(|s| - 1, 16);
  }

  lemma SafeBelow16Digits()
    ensures SAFE_INT < IntPow10(16)
  {
    assert IntPow10(4) == 10000;
    assert IntPow10(8) == 10000 * IntPow10(4);
    assert IntPow10(12) == 10000 * IntPow10(8);
    assert IntPow10(16) == 10000 * IntPow10(12);
  }

  lemma PowZero()
    ensures Pow10(0) == 1.0
  {
  }

  // ---------------------------------------------------------------- agreement

  /** Both implementations print the canonical number text. */
  lemma FormatsAgree(fp: Binary64, x: real)
    requires Faithful(fp) && Representable(fp, x)
    ensures PyEsNumber(fp, x) == EsNumber(fp, x) == GoFormatNumber(fp, x)
  {
    hide NatStr, EsBody, PyExtract, PyLayout, Repr, Scientific, HasExponent, GoRewrite, DecimalVal;
    if x != 0.0 {
      var y := if x < 0.0 then -x else x;
      assert NegatesOk(fp, x) && DigitsOk(fp, y);
      var d := fp.shortest(y);
      GoRewriteCorrect(d);
      PyRewriteCorrect(d);
      if y == y.Floor as real && y < SAFE_INT as real { SafeIntegerCorrect(d, y.Floor); }
    }
  }
}
