/** The one text of a number that ECMA-262 and RFC 8785 allow, by its properties. */
module NumberShape {
  import opened Values
  import opened Decimals
  import opened Numbers

  /** The digits of a token written out: the point only before a fraction, a lower-case mark and a sign always. */
  function Written(t: NumToken, shown: bool): string {
    var size: nat := if t.exp < 0 then -t.exp else t.exp;
    t.whole + (if t.frac == "" then "" else "." + t.frac)
        + if shown then "e" + (if t.exp < 0 then "-" else "+") + NatStr(size) else ""
  }

  predicate Digits(t: NumToken) {
    && GoodToken(t) && !t.neg && t.whole != "" && (t.whole[0] == '0' ==> t.whole == "0")
    && (t.frac != "" ==> t.frac[|t.frac| - 1] != '0')
  }

  /** No idle zeros, exactly this number, an exponent only for what is below 1e-6 or not below 1e21, and then one
      digit before the point. */
  predicate Proper(t: NumToken, shown: bool, x: real) {
    && Digits(t) && Magnitude(t) == x
    && (shown <==> x < Pow10(-6) || x >= Pow10(21))
    && (shown ==> |t.whole| == 1 && t.whole != "0")
    && (!shown ==> t.exp == 0)
  }

  // ---------------------------------------------------------------- powers

  lemma {:induction false} Pow10Grows(a: int, k: nat)
    ensures 0.0 < Pow10(a) <= Pow10(a + k) && (k > 0 ==> Pow10(a) * 10.0 <= Pow10(a + k))
  {
    Pow10Positive(a);
    if k > 0 {
      Pow10Grows(a, k - 1);
      Pow10Step(a + k - 1);
    }
  }

  lemma {:induction false} Pow10Positive(a: int)
    ensures Pow10(a) > 0.0
    decreases if a < 0 then -a else a
  {
    if a > 0 { Pow10Positive(a - 1); } else if a < 0 { Pow10Positive(a + 1); }
  }

  lemma Times(a: real, b: real, p: real)
    requires p > 0.0
    ensures a <= b <==> a * p <= b * p
  {
  }

  /** A decimal lies between the powers of ten its exponent names. */
  lemma DecimalRange(d: Decimal)
    requires WellFormedDecimal(d)
    ensures Pow10(d.exp) <= DecimalVal(d) < Pow10(d.exp + 1)
  {
    hide DigitsVal, Pow10, IntPow10;
    var k := |d.digits|;
    var p := Pow10(d.exp + 1 - k);
    DigitsValBound(d.digits);
    Pow10Positive(d.exp + 1 - k);
    Pow10Add(d.exp + 1 - k, k);
    Pow10Add(d.exp + 1 - k, k - 1);
    Times(IntPow10(k - 1) as real, DigitsVal(d.digits) as real, p);
    Times(IntPow10(k) as real, DigitsVal(d.digits) as real, p);
  }

  lemma AtLeast(d: Decimal, e: int)
    requires WellFormedDecimal(d)
    ensures DecimalVal(d) >= Pow10(e) <==> d.exp >= e
  {
    hide Pow10, DecimalVal, WellFormedDecimal;
    DecimalRange(d);
    if d.exp >= e { Pow10Grows(e, d.exp - e); } else { Pow10Grows(d.exp + 1, e - d.exp - 1); }
  }

  // ---------------------------------------------------------------- the canonical text has the properties

  lemma NoIdleZeros(d: Decimal)
    requires WellFormedDecimal(d)
    ensures Digits(EsToken(d, false))
  {
    hide DigitsVal, IntPow10;
    var t := EsToken(d, false);
    var k, n := |d.digits|, d.exp + 1;
    if k <= n <= 21 {
      assert t.whole[0] == d.digits[0];
    } else if 0 < n <= 21 {
      assert t.frac[|t.frac| - 1] == d.digits[k - 1];
    } else if -6 < n <= 0 {
      assert t.frac[|t.frac| - 1] == d.digits[k - 1];
    } else if k > 1 {
      assert t.frac[|t.frac| - 1] == d.digits[k - 1];
    }
  }

  lemma EsIsWritten(d: Decimal)
    requires WellFormedDecimal(d)
    ensures EsBody(d) == Written(EsToken(d, false), Shown(d))
  {
    hide EsBody, EsToken, NatStr;
    EsBodyIsToken(d);
    NoIdleZeros(d);
    var t, shown := EsToken(d, false), Shown(d);
    var size: nat := if t.exp < 0 then -t.exp else t.exp;
    var e := if shown then "e" + (if t.exp < 0 then "-" else "+") + NatStr(size) else "";
    assert ExpPart(shown, t.exp) == e;
    assert "" + t.whole == t.whole;
  }

  lemma EsIsProper(d: Decimal)
    requires WellFormedDecimal(d)
    ensures Proper(EsToken(d, false), Shown(d), DecimalVal(d))
  {
    hide Pow10, DecimalVal, DigitsVal, Magnitude, Digits, GoodToken;
    NoIdleZeros(d);
    EsTokenDenotes(d, false);
    AtLeast(d, -6);
    AtLeast(d, 21);
    ShownRange(d);
    if Shown(d) { assert d.digits[..1] != "0" by { assert d.digits[..1][0] == d.digits[0]; } }
  }

  lemma ShownRange(d: Decimal)
    requires WellFormedDecimal(d)
    ensures Shown(d) <==> d.exp < -6 || d.exp >= 21
  {
  }

  // ---------------------------------------------------------------- and only it has them

  lemma Cancel(a: real, b: real, p: real)
    requires p > 0.0 && a * p == b * p
    ensures a == b
  {
  }

  /** The same number over a finer unit. */
  lemma Finer(n: nat, m: nat, a: int, j: nat)
    requires (n as real) * Pow10(a) == (m as real) * Pow10(a - j)
    ensures m == n * IntPow10(j)
  {
    hide Pow10, IntPow10;
    Pow10Add(a - j, j);
    Pow10Positive(a - j);
    var p, q := Pow10(a - j), IntPow10(j) as real;
    assert (n as real) * (q * p) == ((n as real) * q) * p;
    ProductAsReal(n, IntPow10(j));
    Cancel((n * IntPow10(j)) as real, m as real, p);
  }

  lemma LastDigit(s: string)
    requires s != "" && AllDigits(s)
    ensures DigitsVal(s) % 10 == DigitOf(s[|s| - 1])
  {
    hide DigitsVal;
    var t := s[..|s| - 1];
    assert DigitsVal(s) == 10 * DigitsVal(t) + DigitOf(s[|s| - 1]) by { LastStep(s); }
  }

  lemma LastStep(s: string)
    requires s != "" && AllDigits(s)
    ensures DigitsVal(s) == 10 * DigitsVal(s[..|s| - 1]) + DigitOf(s[|s| - 1])
  {
  }

  lemma TenDivides(n: nat, j: nat)
    requires j > 0
    ensures (n * IntPow10(j)) % 10 == 0
  {
    hide IntPow10;
    assert IntPow10(j) == 10 * IntPow10(j - 1) by { PowStep(j); }
    TenTimes(n, IntPow10(j - 1));
  }

  lemma PowStep(j: nat)
    requires j > 0
    ensures IntPow10(j) == 10 * IntPow10(j - 1)
  {
  }

  /** Without idle zeros the fraction cannot be longer. */
  lemma NotLonger(t: NumToken, u: NumToken)
    requires Digits(t) && Digits(u) && t.exp == u.exp && Magnitude(t) == Magnitude(u)
    ensures |u.frac| <= |t.frac|
  {
    hide DigitsVal, Pow10, IntPow10;
    var all := u.whole + u.frac;
    assert u.frac != "" ==> all[|all| - 1] == u.frac[|u.frac| - 1];
    if |u.frac| > |t.frac| {
      var j := |u.frac| - |t.frac|;
      Finer(DigitsVal(t.whole + t.frac), DigitsVal(all), t.exp - |t.frac|, j);
      TenDivides(DigitsVal(t.whole + t.frac), j);
      LastDigit(all);
    }
  }

  lemma {:induction false} SameNumeral(a: string, b: string)
    requires AllDigits(a) && AllDigits(b) && |a| == |b| && DigitsVal(a) == DigitsVal(b)
    ensures a == b
  {
    if a != "" {
      hide DigitsVal;
      var k := |a| - 1;
      LastStep(a);
      LastStep(b);
      SameNumeral(a[..k], b[..k]);
      assert a == a[..k] + [a[k]] && b == b[..k] + [b[k]];
    }
  }

  lemma SameQuotient(a: nat, b: nat, x: nat, y: nat, p: nat)
    requires x < p && y < p && a * p + x == b * p + y
    ensures a == b && x == y
  {
    if a < b { Apart(a, b, p); }
    if b < a { Apart(b, a, p); }
  }

  lemma Apart(a: nat, b: nat, p: nat)
    requires a < b
    ensures a * p + p <= b * p
  {
    var k: nat := b - a - 1;
    assert b == a + k + 1;
    assert b * p == a * p + k * p + p;
  }

  /** One exponent and one number leave one token. */
  lemma SameToken(t: NumToken, u: NumToken)
    requires Digits(t) && Digits(u) && t.exp == u.exp && Magnitude(t) == Magnitude(u)
    ensures t == u
  {
    hide DigitsVal, Pow10, IntPow10;
    NotLonger(t, u);
    NotLonger(u, t);
    Finer(DigitsVal(t.whole + t.frac), DigitsVal(u.whole + u.frac), t.exp - |t.frac|, 0);
    assert IntPow10(0) == 1 by { PowZero(); }
    DigitsValConcat(t.whole, t.frac);
    DigitsValConcat(u.whole, u.frac);
    DigitsValBound(t.frac);
    DigitsValBound(u.frac);
    SameQuotient(DigitsVal(t.whole), DigitsVal(u.whole), DigitsVal(t.frac), DigitsVal(u.frac), IntPow10(|t.frac|));
    NumeralUnique(t.whole);
    NumeralUnique(u.whole);
    SameNumeral(t.frac, u.frac);
  }

  lemma PowZero()
    ensures IntPow10(0) == 1
  {
  }

  /** With one digit before the point the exponent is that of the number. */
  lemma LeadingRange(t: NumToken)
    requires Digits(t) && |t.whole| == 1 && t.whole != "0"
    ensures Pow10(t.exp) <= Magnitude(t) < Pow10(t.exp + 1)
  {
    hide DigitsVal, Pow10, IntPow10;
    var all, k := t.whole + t.frac, |t.frac|;
    var p := Pow10(t.exp - k);
    assert all[0] == t.whole[0] && t.whole[0] != '0';
    DigitsValBound(all);
    Pow10Positive(t.exp - k);
    Pow10Add(t.exp - k, k);
    Pow10Add(t.exp - k, k + 1);
    Times(IntPow10(k) as real, DigitsVal(all) as real, p);
    Times(IntPow10(k + 1) as real, DigitsVal(all) as real, p);
  }

  /** A number has one proper token. */
  lemma ProperOne(t: NumToken, a: bool, u: NumToken, b: bool, x: real)
    requires Proper(t, a, x) && Proper(u, b, x)
    ensures t == u && a == b
  {
    hide Pow10, Magnitude, Digits;
    if a {
      LeadingRange(t);
      LeadingRange(u);
      if t.exp < u.exp { Pow10Grows(t.exp + 1, u.exp - t.exp - 1); }
      if u.exp < t.exp { Pow10Grows(u.exp + 1, t.exp - u.exp - 1); }
    }
    SameToken(t, u);
  }

  /** The spelling of a decimal is the one text with these properties. */
  lemma EsIsTheText(d: Decimal, p: string)
    requires WellFormedDecimal(d)
    ensures p == EsBody(d) <==> exists t, shown :: p == Written(t, shown) && Proper(t, shown, DecimalVal(d))
  {
    hide EsBody, EsToken, Shown, Written, Proper, DecimalVal, DigitsVal;
    EsIsWritten(d);
    EsIsProper(d);
    if t, shown :| p == Written(t, shown) && Proper(t, shown, DecimalVal(d)) {
      ProperOne(t, shown, EsToken(d, false), Shown(d), DecimalVal(d));
    }
  }

  /** A canonical number: zero, or the one text of its shortest decimal after the sign. */
  lemma NumberIsTheText(fp: Binary64, x: real, p: string)
    requires Faithful(fp) && Representable(fp, x)
    ensures p == EsNumber(fp, x) <==>
            if x == 0.0 then p == "0"
            else
              var d := fp.shortest(if x < 0.0 then -x else x);
              && WellFormedDecimal(d) && fp.nearest(if x < 0.0 then -DecimalVal(d) else DecimalVal(d)) == Some(x)
              && exists t, shown ::
                   p == (if x < 0.0 then "-" else "") + Written(t, shown) && Proper(t, shown, DecimalVal(d))
  {
    hide EsBody, Written, Proper, DecimalVal, WellFormedDecimal;
    if x != 0.0 {
      var y := if x < 0.0 then -x else x;
      assert NegatesOk(fp, x) && DigitsOk(fp, y);
      var d := fp.shortest(y);
      EsIsTheText(d, EsBody(d));
      if x < 0.0 && |p| > 0 { EsIsTheText(d, p[1..]); } else { EsIsTheText(d, p); }
    }
  }
}
