/** Number texts: the ECMAScript spelling, the two implementations that produce it, and the JSON
    number grammar that reads it back. */
module Numbers {
  import opened Values
  import opened Decimals

  // ---------------------------------------------------------------- reading

  /** The parts of a JSON number token. */
  datatype NumToken = NumToken(neg: bool, whole: string, frac: string, exp: int)

  datatype NumScan = NoNumber | Number(tok: NumToken, rest: string)

  function Span(s: string): (k: nat)
    ensures k <= |s| && AllDigits(s[..k]) && (k < |s| ==> !IsDigit(s[k]))
  {
    if s != "" && IsDigit(s[0]) then
      var k := 1 + Span(s[1..]);
      assert s[..k] == [s[0]] + s[1..][..k - 1];
      k
    else 0
  }

  datatype ExpScan = NoExp | Exp(e: int, rest: string)

  /** The optional exponent part. */
  function ScanExp(s: string): ExpScan {
    if s != "" && (s[0] == 'e' || s[0] == 'E') then
      var signed := |s| > 1 && (s[1] == '+' || s[1] == '-');
      var t := if signed then s[2..] else s[1..];
      var k := Span(t);
      if k == 0 then NoExp
      else
        var m: int := DigitsVal(t[..k]);
        Exp(if signed && s[1] == '-' then -m else m, t[k..])
    else Exp(0, s)
  }

  function ScanFrac(neg: bool, whole: string, s: string): NumScan {
    if s != "" && s[0] == '.' then
      var k := Span(s[1..]);
      if k == 0 then NoNumber
      else
        match ScanExp(s[1..][k..])
        case NoExp => NoNumber
        case Exp(e, r) => Number(NumToken(neg, whole, s[1..][..k], e), r)
    else
      match ScanExp(s)
      case NoExp => NoNumber
      case Exp(e, r) => Number(NumToken(neg, whole, "", e), r)
  }

  /** The JSON number grammar, longest match from the front of `s`. */
  function ScanNumber(s: string): NumScan {
    var neg := s != "" && s[0] == '-';
    var t := if neg then s[1..] else s;
    if t == "" || !IsDigit(t[0]) then NoNumber
    else
      var k := if t[0] == '0' then 1 else Span(t);
      ScanFrac(neg, t[..k], t[k..])
  }

  predicate GoodToken(t: NumToken) { AllDigits(t.whole) && AllDigits(t.frac) }

  lemma ScanExpShape(s: string)
    ensures ScanExp(s).Exp? ==> |ScanExp(s).rest| <= |s|
  {
    hide DigitsVal, Span;
  }

  lemma ScanFracShape(neg: bool, whole: string, s: string)
    ensures var r := ScanFrac(neg, whole, s);
            r.Number? ==> r.tok.whole == whole && AllDigits(r.tok.frac) && |r.rest| <= |s|
  {
    hide ScanExp, Span, DigitsVal;
    ScanExpShape(s);
    if s != "" { ScanExpShape(s[1..][Span(s[1..])..]); }
  }

  lemma ScanNumberShape(s: string)
    ensures ScanNumber(s).Number? ==> GoodToken(ScanNumber(s).tok) && |ScanNumber(s).rest| < |s|
  {
    hide ScanFrac, Span, DigitsVal;
    var neg := s != "" && s[0] == '-';
    var t := if neg then s[1..] else s;
    if t != "" && IsDigit(t[0]) {
      var k := if t[0] == '0' then 1 else Span(t);
      assert k > 0 && AllDigits(t[..k]);
      ScanFracShape(neg, t[..k], t[k..]);
    }
  }

  /** The exact number a token denotes, before rounding. */
  function Magnitude(t: NumToken): real
    requires GoodToken(t)
  {
    (DigitsVal(t.whole + t.frac) as real) * Pow10(t.exp - |t.frac|)
  }

  /** Conversion of a token: rounding, no overflow, no negative zero. */
  function NumberOf(fp: Binary64, t: NumToken): Option<real>
    requires GoodToken(t)
  {
    match fp.nearest(if t.neg then -Magnitude(t) else Magnitude(t))
    case None => None
    case Some(x) => if x == 0.0 && t.neg then None else Some(x)
  }

  // ---------------------------------------------------------------- writing

  function ExpText(e: int): string {
    if e >= 0 then "e+" + NatStr(e) else "e-" + NatStr(-e)
  }

  /** Number::toString of ECMA-262 for a positive number with shortest digits `d`. */
  function EsBody(d: Decimal): string {
    var k, n := |d.digits|, d.exp + 1;
    if k <= n <= 21 then d.digits + Zeros(n - k)
    else if 0 < n <= 21 then d.digits[..n] + "." + d.digits[n..]
    else if -6 < n <= 0 then "0." + Zeros(-n) + d.digits
    else if k <= 1 then d.digits + ExpText(n - 1)
    else d.digits[..1] + "." + d.digits[1..] + ExpText(n - 1)
  }

  /** The canonical number text of RFC 8785 section 3.2.2.3. */
  function EsNumber(fp: Binary64, x: real): string {
    if x == 0.0 then "0" else if x < 0.0 then "-" + EsBody(fp.shortest(-x)) else EsBody(fp.shortest(x))
  }

  // ---------------------------------------------------------------- reading what was written

  /** A text that cannot continue a number token. */
  predicate Stops(s: string) {
    s == "" || !(IsDigit(s[0]) || s[0] == '.' || s[0] == 'e' || s[0] == 'E')
  }

  lemma {:induction false} SpanExact(a: string, rest: string)
    requires AllDigits(a) && (rest == "" || !IsDigit(rest[0]))
    ensures Span(a + rest) == |a|
  {
    if a == "" {
      assert a + rest == rest;
    } else {
      assert (a + rest)[1..] == a[1..] + rest;
      SpanExact(a[1..], rest);
    }
  }

  function ExpPart(shown: bool, e: int): string { if shown then ExpText(e) else "" }
  function FracPart(frac: string): string { if frac == "" then "" else "." + frac }

  lemma ScanExpPart(shown: bool, e: int, rest: string)
    requires Stops(rest)
    ensures ScanExp(ExpPart(shown, e) + rest) == Exp(if shown then e else 0, rest)
  {
    hide NatStr, DigitsVal, Span;
    var s := ExpPart(shown, e) + rest;
    if shown {
      var ds := NatStr(if e >= 0 then e else -e);
      assert s[0] == 'e' && (s[1] == '-' <==> e < 0);
      assert s[2..] == ds + rest;
      SpanExact(ds, rest);
      assert (ds + rest)[..|ds|] == ds && (ds + rest)[|ds|..] == rest;
    } else {
      assert s == rest;
    }
  }

  lemma ScanFracPart(neg: bool, whole: string, frac: string, tail: string, e: int, rest: string)
    requires AllDigits(frac)
    requires tail == "" || !(IsDigit(tail[0]) || tail[0] == '.')
    requires ScanExp(tail) == Exp(e, rest)
    ensures ScanFrac(neg, whole, FracPart(frac) + tail) == Number(NumToken(neg, whole, frac, e), rest)
  {
    hide ScanExp, DigitsVal, Span;
    var s := FracPart(frac) + tail;
    if frac == "" {
      assert s == tail;
    } else {
      var u := s[1..];
      assert s[0] == '.' && u == frac + tail;
      SpanExact(frac, tail);
      assert Span(u) == |frac| && u[..|frac|] == frac && u[|frac|..] == tail;
    }
  }

  lemma ScanWholePart(neg: bool, whole: string, tail: string)
    requires AllDigits(whole) && whole != "" && (whole[0] == '0' ==> whole == "0")
    requires tail == "" || !IsDigit(tail[0])
    ensures ScanNumber((if neg then "-" else "") + (whole + tail)) == ScanFrac(neg, whole, tail)
  {
    hide ScanFrac, Span, DigitsVal;
    var s := (if neg then "-" else "") + (whole + tail);
    var u := whole + tail;
    assert u[0] == whole[0] && (if neg then s[1..] else s) == u;
    SpanExact(whole, tail);
    assert u[..|whole|] == whole && u[|whole|..] == tail;
  }

  function NumText(t: NumToken, shown: bool): string {
    (if t.neg then "-" else "") + t.whole + FracPart(t.frac) + ExpPart(shown, t.exp)
  }

  lemma Regroup(a: string, b: string, c: string, d: string, e: string)
    ensures (a + b + c + d) + e == a + (b + (c + (d + e)))
  {
  }

  /** A number written from its parts scans to exactly those parts. */
  lemma ScanWritten(t: NumToken, shown: bool, rest: string)
    requires GoodToken(t) && t.whole != "" && (t.whole[0] == '0' ==> t.whole == "0")
    requires Stops(rest) && (shown || t.exp == 0)
    ensures ScanNumber(NumText(t, shown) + rest) == Number(t, rest)
  {
    hide ScanExp, ScanFrac, ScanNumber, DigitsVal, NatStr, Span;
    var expTail := ExpPart(shown, t.exp) + rest;
    var tail := FracPart(t.frac) + expTail;
    assert shown ==> expTail[0] == 'e';
    assert !shown ==> expTail == rest;
    ScanExpPart(shown, t.exp, rest);
    ScanFracPart(t.neg, t.whole, t.frac, expTail, t.exp, rest);
    assert tail == "" || !IsDigit(tail[0]) by {
      if t.frac == "" { assert tail == expTail; } else { assert tail[0] == '.'; }
    }
    ScanWholePart(t.neg, t.whole, tail);
    Regroup(if t.neg then "-" else "", t.whole, FracPart(t.frac), ExpPart(shown, t.exp), rest);
  }

  /** The token an ECMAScript spelling consists of. */
  function EsToken(d: Decimal, neg: bool): NumToken {
    var k, n := |d.digits|, d.exp + 1;
    if k <= n <= 21 then NumToken(neg, d.digits + Zeros(n - k), "", 0)
    else if 0 < n <= 21 then NumToken(neg, d.digits[..n], d.digits[n..], 0)
    else if -6 < n <= 0 then NumToken(neg, "0", Zeros(-n) + d.digits, 0)
    else if k <= 1 then NumToken(neg, d.digits, "", n - 1)
    else NumToken(neg, d.digits[..1], d.digits[1..], n - 1)
  }

  predicate Shown(d: Decimal) { var n := d.exp + 1; !(|d.digits| <= n <= 21 || 0 < n <= 21 || -6 < n <= 0) }

  lemma EsBodyIsToken(d: Decimal)
    requires WellFormedDecimal(d)
    ensures EsBody(d) == NumText(EsToken(d, false), Shown(d))
  {
    hide NatStr, Zeros, DigitsVal, ExpText;
    var k, n, ds := |d.digits|, d.exp + 1, d.digits;
    var t := EsToken(d, false);
    if k <= n <= 21 {
      NoTail("", t.whole);
    } else if 0 < n <= 21 {
      PointTail(ds[..n], ds[n..]);
    } else if -6 < n <= 0 {
      assert Zeros(-n) + ds != "";
      PointTail("0", Zeros(-n) + ds);
      assert "0." + Zeros(-n) + ds == "0" + "." + (Zeros(-n) + ds);
    } else if k <= 1 {
      assert "" + ds + "" == ds;
    } else {
      assert "" + ds[..1] + ("." + ds[1..]) == ds[..1] + "." + ds[1..];
    }
  }

  lemma NoTail(a: string, b: string)
    requires a == ""
    ensures a + b + "" + "" == b
  {
  }

  lemma PointTail(a: string, b: string)
    requires b != ""
    ensures "" + a + FracPart(b) + "" == a + "." + b
  {
  }

  lemma NegText(t: NumToken, shown: bool)
    requires !t.neg
    ensures "-" + NumText(t, shown) == NumText(t.(neg := true), shown)
  {
    hide ExpPart, FracPart;
    var b, c, e := t.whole, FracPart(t.frac), ExpPart(shown, t.exp);
    assert "-" + ("" + b + c + e) == "-" + b + c + e;
  }

  lemma ProductAsReal(a: nat, b: nat)
    ensures (a * b) as real == (a as real) * (b as real)
  {
  }

  lemma MagnitudeOfPaddedRight(ds: string, z: nat)
    requires AllDigits(ds)
    ensures AllDigits(ds + Zeros(z))
    ensures (DigitsVal(ds + Zeros(z)) as real) * Pow10(0) == (DigitsVal(ds) as real) * Pow10(z)
  {
    hide DigitsVal, IntPow10;
    DigitsValConcat(ds, Zeros(z));
    ZerosVal(z);
    Pow10Add(0, z);
    ProductAsReal(DigitsVal(ds), IntPow10(z));
  }

  lemma ValOfPaddedLeft(z: nat, ds: string)
    requires AllDigits(ds)
    ensures AllDigits(Zeros(z) + ds) && DigitsVal(Zeros(z) + ds) == DigitsVal(ds)
  {
    DigitsValConcat(Zeros(z), ds);
    ZerosVal(z);
  }

  lemma DecimalDigits(d: Decimal)
    requires WellFormedDecimal(d)
    ensures d.digits != "" && AllDigits(d.digits)
  {
  }

  /** The spelling denotes exactly the decimal it was made from. */
  lemma EsTokenDenotes(d: Decimal, neg: bool)
    requires WellFormedDecimal(d)
    ensures GoodToken(EsToken(d, neg)) && EsToken(d, neg).neg == neg
    ensures Magnitude(EsToken(d, neg)) == DecimalVal(d)
  {
    hide DigitsVal, Pow10, Zeros, WellFormedDecimal;
    DecimalDigits(d);
    var t := EsToken(d, neg);
    var k, n := |d.digits|, d.exp + 1;
    if k <= n <= 21 {
      MagnitudeOfPaddedRight(d.digits, n - k);
      assert t.whole + t.frac == d.digits + Zeros(n - k);
    } else if -6 < n <= 0 {
      ValOfPaddedLeft(1 - n, d.digits);
      assert t.whole + t.frac == Zeros(1 - n) + d.digits;
    } else {
      assert t.whole + t.frac == d.digits;
      assert t.exp - |t.frac| == n - k;
    }
  }

  lemma ZeroReadsBack(fp: Binary64, rest: string)
    requires Representable(fp, 0.0) && Stops(rest)
    ensures var r := ScanNumber("0" + rest);
            r.Number? && r.rest == rest && GoodToken(r.tok) && NumberOf(fp, r.tok) == Some(0.0)
  {
    var t := NumToken(false, "0", "", 0);
    ScanWritten(t, false, rest);
    assert NumText(t, false) == "0";
    assert t.whole + t.frac == "0" && DigitsVal("0") == 0;
    assert Magnitude(t) == 0.0;
  }

  lemma BodyReadsBack(d: Decimal, neg: bool, rest: string)
    requires WellFormedDecimal(d) && Stops(rest)
    ensures ScanNumber((if neg then "-" else "") + EsBody(d) + rest) == Number(EsToken(d, neg), rest)
  {
    hide EsBody, ScanNumber, NumText, Zeros;
    EsBodyIsToken(d);
    EsTokenDenotes(d, neg);
    var t := EsToken(d, neg);
    if neg { NegText(EsToken(d, false), Shown(d)); }
    assert t.whole[0] == d.digits[0] || t.whole == "0";
    assert Shown(d) || t.exp == 0;
    ScanWritten(t, Shown(d), rest);
    assert "" + EsBody(d) == EsBody(d);
  }

  /** Reading a canonical number text gives back the number, whatever follows it. */
  lemma EsNumberReadsBack(fp: Binary64, x: real, rest: string)
    requires Faithful(fp) && Representable(fp, x) && Stops(rest)
    ensures var r := ScanNumber(EsNumber(fp, x) + rest);
            r.Number? && r.rest == rest && GoodToken(r.tok) && NumberOf(fp, r.tok) == Some(x)
  {
    hide ScanNumber, EsBody, EsToken, Magnitude, DecimalVal, DigitsVal, Pow10;
    if x == 0.0 {
      ZeroReadsBack(fp, rest);
    } else {
      var neg := x < 0.0;
      var y := if neg then -x else x;
      assert NegatesOk(fp, x) && DigitsOk(fp, y);
      var d := fp.shortest(y);
      EsTokenDenotes(d, neg);
      BodyReadsBack(d, neg, rest);
      assert EsNumber(fp, x) == (if neg then "-" else "") + EsBody(d);
    }
  }
}
