/** JSON texts as RFC 8259 writes them down: which texts spell which tokens, independently of any reader. */
module TextGrammar {
  import opened Values
  import opened Decimals
  import opened Numbers
  import opened Lexing
  import opened Utf16

  // ---------------------------------------------------------------- strings: section 7 of RFC 8259

  const LOWER := "0123456789abcdef"
  const UPPER := "0123456789ABCDEF"

  predicate DigitIs(c: char, v: nat) { v < 16 && (c == LOWER[v] || c == UPPER[v]) }

  /** Four hexadecimal digits, in either case, for a code unit. */
  predicate HexSpells(p: string, u: nat) {
    && |p| == 4 && u < 0x10000
    && DigitIs(p[0], u / 4096) && DigitIs(p[1], u / 256 % 16) && DigitIs(p[2], u / 16 % 16) && DigitIs(p[3], u % 16)
  }

  /** The two-character escapes. */
  predicate Short(c: char, e: char) {
    || (c == '"' && e == '"') || (c == '\\' && e == '\\') || (c == '/' && e == '/')
    || (c as int == 0x08 && e == 'b') || (c as int == 0x0C && e == 'f') || (c as int == 0x0A && e == 'n')
    || (c as int == 0x0D && e == 'r') || (c as int == 0x09 && e == 't')
  }

  /** The escapes by code units: one for a character of the basic plane, a surrogate pair for any other. */
  predicate UnitEscape(c: char, p: string) {
    var u := UnitsOf(c);
    if |u| == 1 then |p| == 6 && p[..2] == "\\u" && HexSpells(p[2..], u[0])
    else |p| == 12 && p[..2] == "\\u" && HexSpells(p[2..6], u[0]) && p[6..8] == "\\u" && HexSpells(p[8..], u[1])
  }

  /** The ways to write one character inside a string. */
  predicate Piece(c: char, p: string) {
    || (p == [c] && c as int >= 0x20 && c != '"' && c != '\\')
    || (|p| == 2 && p[0] == '\\' && Short(c, p[1]))
    || UnitEscape(c, p)
  }

  lemma HexDigitIff(c: char, v: nat)
    ensures DigitIs(c, v) <==> IsHex(c) && HexVal(c) == v
  {
    if IsHex(c) {
      var w := HexVal(c);
      assert c == LOWER[w] || c == UPPER[w];
      if DigitIs(c, v) { assert v == w; }
    }
  }

  lemma HexIff(s: string, u: nat)
    requires |s| >= 4
    ensures HexSpells(s[..4], u) <==> HasHex4(s) && Hex4(s) == u
  {
    hide DigitIs, IsHex, HexVal;
    if u < 0x10000 {
      HexSum(u);
      HexDigitIff(s[0], u / 4096);
      HexDigitIff(s[1], u / 256 % 16);
      HexDigitIff(s[2], u / 16 % 16);
      HexDigitIff(s[3], u % 16);
    }
    if HasHex4(s) && Hex4(s) == u { HexParts(HexVal(s[0]), HexVal(s[1]), HexVal(s[2]), HexVal(s[3]), u); }
  }

  lemma HexParts(a: nat, b: nat, c: nat, d: nat, u: nat)
    requires a < 16 && b < 16 && c < 16 && d < 16 && u == a * 4096 + b * 256 + c * 16 + d
    ensures u < 0x10000 && u / 4096 == a && u / 256 % 16 == b && u / 16 % 16 == c && u % 16 == d
  {
    var q := a * 16 + b;
    LastHex(a, b);
    LastHex(q, c);
    LastHex(q * 16 + c, d);
  }

  lemma LastHex(q: nat, d: nat)
    requires d < 16
    ensures var r := q * 16 + d; r % 16 == d && r / 16 == q && r / 256 == q / 16 && r / 4096 == q / 256
  {
  }

  lemma HexSum(u: nat)
    ensures u == u / 4096 * 4096 + u / 256 % 16 * 256 + u / 16 % 16 * 16 + u % 16
  {
    assert u / 4096 == u / 256 / 16 && u / 256 == u / 16 / 16;
  }

  /** The escape of one unit after its `\u`. */
  lemma UnitRead(s: string, c: char, n: nat)
    ensures UnescapeU(s) == Escape(c, n) <==> n > 1 && n <= |s| + 1 && UnitEscape(c, "\\u" + s[..n - 1])
  {
    hide HexSpells, HasHex4, Hex4;
    UnitsMean(c);
    if |s| >= 4 {
      HexIff(s, UnitsOf(c)[0]);
      if |s| >= 10 {
        assert s[6..][..4] == s[6..10];
        if |UnitsOf(c)| == 2 { HexIff(s[6..], UnitsOf(c)[1]); }
      }
    }
    if n > 1 && n <= |s| + 1 {
      var p := "\\u" + s[..n - 1];
      assert p[..2] == "\\u";
      if n == 5 { assert p[2..] == s[..4]; }
      if n == 11 { assert p[2..6] == s[..4] && p[6..8] == s[4..6] && p[8..] == s[6..10]; }
    }
  }

  /** The reader of escapes accepts exactly the escapes of the grammar, each as its character. */
  lemma UnescapeIff(s: string, c: char, n: nat)
    ensures Unescape(s) == Escape(c, n) <==> 0 < n <= |s| && Piece(c, "\\" + s[..n])
  {
    hide UnitEscape, UnescapeU;
    if s != "" {
      if 0 < n <= |s| {
        var p := "\\" + s[..n];
        assert p[0] == '\\' && p[1] == s[0];
        if n > 1 { assert s[..n][1..] == s[1..][..n - 1]; }
        if s[0] == 'u' { assert p == "\\u" + s[1..][..n - 1]; }
        UnitNeedsU(c, p);
      }
      UnitRead(s[1..], c, n);
    }
  }

  lemma UnitNeedsU(c: char, p: string)
    ensures UnitEscape(c, p) ==> |p| >= 6 && p[1] == 'u'
  {
    if |p| >= 2 { assert p[..2][1] == p[1]; }
  }

  /** The body of a string: each character written in one of its ways. */
  ghost predicate Spelled(t: string, b: string) {
    if t == "" then b == "" else exists k :: 0 < k <= |b| && Piece(t[0], b[..k]) && Spelled(t[1..], b[k..])
  }

  lemma PieceStart(c: char, p: string)
    requires Piece(c, p)
    ensures p != "" && p[0] != '"' && p[0] as int >= 0x20 && (p[0] != '\\' ==> p == [c]) && (p[0] == '\\' ==> |p| > 1)
  {
    if UnitEscape(c, p) { assert p[..2][0] == p[0]; }
  }

  lemma JoinSpelled(c: char, p: string, t: string, b: string)
    requires Piece(c, p) && Spelled(t, b)
    ensures Spelled([c] + t, p + b)
  {
    hide Piece;
    assert p != "" by { PieceStart(c, p); }
    assert ([c] + t)[1..] == t && (p + b)[..|p|] == p && (p + b)[|p|..] == b;
  }

  /** How many characters the reader takes for the first character of a string. */
  function FirstLength(s: string): nat
    requires s != ""
  {
    if s[0] == '\\' then (match Unescape(s[1..]) case BadEscape => 0 case Escape(_, n) => n + 1) else 1
  }

  function FirstRaw(s: string): char
    requires s != ""
  {
    if s[0] == '\\' then (match Unescape(s[1..]) case BadEscape => '?' case Escape(c, _) => c) else s[0]
  }

  lemma FirstRead(s: string)
    requires s != "" && s[0] != '"' && RawString(s).String?
    ensures 0 < FirstLength(s) <= |s| && Piece(FirstRaw(s), s[..FirstLength(s)])
    ensures RawString(s) == Prepend([FirstRaw(s)], RawString(s[FirstLength(s)..]))
  {
    hide Unescape, Prepend, Piece;
    if s[0] == '\\' { EscapedRead(s); } else { PlainRead(s); }
  }

  lemma EscapedRead(s: string)
    requires s != "" && s[0] == '\\' && RawString(s).String?
    ensures Unescape(s[1..]).Escape?
    ensures var n := Unescape(s[1..]).n + 1;
            && n <= |s| && RawString(s) == Prepend([Unescape(s[1..]).c], RawString(s[n..]))
            && Piece(Unescape(s[1..]).c, s[..n])
  {
    hide Unescape, Prepend, Piece;
    var e := Unescape(s[1..]);
    UnescapeIff(s[1..], e.c, e.n);
    assert s[1..][e.n..] == s[e.n + 1..] && "\\" + s[1..][..e.n] == s[..e.n + 1];
  }

  lemma PlainRead(s: string)
    requires s != "" && s[0] != '"' && s[0] != '\\' && RawString(s).String?
    ensures RawString(s) == Prepend([s[0]], RawString(s[1..])) && Piece(s[0], s[..1])
  {
    hide Prepend, Piece;
    PlainPiece(s[0]);
    assert s[..1] == [s[0]];
  }

  lemma PrependParts(c: char, r: StrScan)
    ensures var q := Prepend([c], r);
            && (q.String? <==> r.String?)
            && (q.String? ==> q.text != "" && q.text[0] == c && q.text[1..] == r.text && q.rest == r.rest)
  {
  }

  lemma FirstPiece(s: string)
    requires s != "" && s[0] != '"' && RawString(s).String?
    ensures var k, r := FirstLength(s), RawString(s);
            && 0 < k <= |s| && RawString(s[k..]).String? && r.text != ""
            && Piece(r.text[0], s[..k]) && r.text[1..] == RawString(s[k..]).text && r.rest == RawString(s[k..]).rest
  {
    hide Piece, RawString, FirstLength, FirstRaw, Prepend;
    FirstRead(s);
    PrependParts(FirstRaw(s), RawString(s[FirstLength(s)..]));
  }

  /** What the reader of strings accepts is written as the grammar says. */
  lemma {:induction false} RawSound(s: string)
    requires RawString(s).String?
    ensures var r := RawString(s);
            var n := |s| - |r.rest| - 1;
            n >= 0 && s == s[..n] + ("\"" + r.rest) && Spelled(r.text, s[..n])
    decreases |s|
  {
    hide Piece, RawString, FirstLength;
    var r := RawString(s);
    var n := |s| - |r.rest| - 1;
    if s == "" || s[0] == '"' {
      QuoteEnds(s);
      assert s[..0] == "";
    } else {
      FirstPiece(s);
      var k := FirstLength(s);
      RawSound(s[k..]);
      var t := RawString(s[k..]);
      var m := |s[k..]| - |t.rest| - 1;
      JoinSpelled(r.text[0], s[..k], t.text, s[k..][..m]);
      assert [r.text[0]] + t.text == r.text;
      assert s[..k] + s[k..][..m] == s[..n];
      assert s[n..] == s[k..][m..];
    }
  }

  lemma QuoteEnds(s: string)
    ensures s == "" ==> RawString(s) == BadString
    ensures s != "" && s[0] == '"' ==> RawString(s) == String("", s[1..]) && s == "\"" + s[1..]
  {
  }

  lemma PlainPiece(c: char)
    ensures c as int >= 0x20 && c != '"' && c != '\\' ==> Piece(c, [c])
  {
  }

  /** And everything so written is accepted. */
  lemma {:induction false} RawComplete(t: string, b: string, rest: string)
    requires Spelled(t, b)
    ensures RawString(b + ("\"" + rest)) == String(t, rest)
  {
    hide Unescape, Piece, RawString;
    var s := b + ("\"" + rest);
    if t == "" {
      QuoteEnds(s);
      assert s == "\"" + rest && s[1..] == rest;
    } else {
      var k :| 0 < k <= |b| && Piece(t[0], b[..k]) && Spelled(t[1..], b[k..]);
      RawComplete(t[1..], b[k..], rest);
      PieceStart(t[0], b[..k]);
      FrontOf(b, "\"" + rest, k);
      OneRead(s, t[0], k);
      assert [t[0]] + t[1..] == t;
    }
  }

  lemma FrontOf(b: string, more: string, k: nat)
    requires 0 < k <= |b|
    ensures var s := b + more; s[..k] == b[..k] && s[k..] == b[k..] + more && s[0] == b[..k][0]
  {
  }

  /** One spelling at the front of what is read. */
  lemma OneRead(s: string, c: char, k: nat)
    requires 0 < k <= |s| && Piece(c, s[..k]) && s[0] != '"'
    ensures RawString(s) == Prepend([c], RawString(s[k..]))
  {
    hide Unescape, UnitEscape;
    assert s[..k][0] == s[0];
    PieceStart(c, s[..k]);
    if s[0] == '\\' {
      UnescapeIff(s[1..], c, k - 1);
      assert "\\" + s[1..][..k - 1] == s[..k] && s[1..][k - 1..] == s[k..];
    } else {
      UnitLead(c, s[..k]);
      assert k == 1 by { assert |s[..k]| == 1; }
    }
  }

  lemma UnitLead(c: char, p: string)
    ensures UnitEscape(c, p) ==> p != "" && p[0] == '\\'
  {
    if |p| >= 2 { assert p[..2][0] == p[0]; }
  }

  // ---------------------------------------------------------------- numbers: section 6 of RFC 8259

  predicate IntPart(w: string) { w != "" && AllDigits(w) && (w[0] == '0' ==> |w| == 1) }

  predicate FracText(f: string, frac: string) {
    (f == "" && frac == "") || (f == "." + frac && frac != "" && AllDigits(frac))
  }

  predicate ExpWritten(x: string, mark: char, sign: string, digits: string, e: int) {
    && (mark == 'e' || mark == 'E') && sign in {"", "+", "-"} && digits != "" && AllDigits(digits)
    && x == [mark] + sign + digits
    && e == if sign == "-" then -(DigitsVal(digits) as int) else DigitsVal(digits)
  }

  ghost predicate ExpSpelled(x: string, e: int) {
    (x == "" && e == 0) || exists mark, sign, digits :: ExpWritten(x, mark, sign, digits, e)
  }

  predicate NumberWritten(p: string, t: NumToken, f: string, x: string) {
    p == (if t.neg then "-" else "") + (t.whole + (f + x)) && IntPart(t.whole) && FracText(f, t.frac)
  }

  /** A text that writes these parts of a number. */
  ghost predicate NumberSpelled(p: string, t: NumToken) {
    exists f, x :: NumberWritten(p, t, f, x) && ExpSpelled(x, t.exp)
  }

  lemma SpanPrefix(a: string, rest: string)
    requires AllDigits(a) && (rest == "" || !IsDigit(rest[0]))
    ensures Span(a + rest) == |a| && (a + rest)[..|a|] == a && (a + rest)[|a|..] == rest
  {
    SpanExact(a, rest);
  }

  lemma ExpComplete(x: string, e: int, rest: string)
    requires ExpSpelled(x, e) && Stops(rest)
    ensures ScanExp(x + rest) == Exp(e, rest)
    ensures x == "" || x[0] == 'e' || x[0] == 'E'
  {
    hide Span, DigitsVal, ExpWritten;
    if x == "" && e == 0 {
      assert x + rest == rest;
    } else {
      var mark, sign, digits :| ExpWritten(x, mark, sign, digits, e);
      ExpMarked(x, mark, sign, digits, e, rest);
    }
  }

  lemma ExpMarked(x: string, mark: char, sign: string, digits: string, e: int, rest: string)
    requires ExpWritten(x, mark, sign, digits, e) && Stops(rest)
    ensures ScanExp(x + rest) == Exp(e, rest) && x != "" && (x[0] == 'e' || x[0] == 'E')
  {
    hide Span, DigitsVal;
    SpanPrefix(digits, rest);
    var s := x + rest;
    assert s == [mark] + (sign + (digits + rest));
    if sign == "" { assert s[1..] == digits + rest && s[1] == digits[0]; } else { assert s[2..] == digits + rest; }
  }

  lemma FracComplete(neg: bool, whole: string, f: string, frac: string, tail: string, e: int, rest: string)
    requires FracText(f, frac) && ScanExp(tail) == Exp(e, rest) && (tail == "" || !(IsDigit(tail[0]) || tail[0] == '.'))
    ensures ScanFrac(neg, whole, f + tail) == Number(NumToken(neg, whole, frac, e), rest)
  {
    hide ScanExp, Span;
    if f == "" {
      assert f + tail == tail;
    } else {
      SpanPrefix(frac, tail);
      assert (f + tail)[1..] == frac + tail;
    }
  }

  lemma ZeroOrDigits(w: string, tail: string)
    requires IntPart(w) && (tail == "" || !IsDigit(tail[0]))
    ensures var t := w + tail;
            && t != "" && IsDigit(t[0])
            && t[..if t[0] == '0' then 1 else Span(t)] == w && t[if t[0] == '0' then 1 else Span(t)..] == tail
  {
    SpanPrefix(w, tail);
  }

  /** After the sign and the integer part the scan goes on with the fraction. */
  lemma WholeRead(neg: bool, w: string, more: string)
    requires IntPart(w) && (more == "" || !IsDigit(more[0]))
    ensures ScanNumber((if neg then "-" else "") + (w + more)) == ScanFrac(neg, w, more)
  {
    hide ScanFrac, Span;
    var t := w + more;
    var s := (if neg then "-" else "") + t;
    ZeroOrDigits(w, more);
    assert t[0] == w[0] && IsDigit(w[0]);
    if neg { assert s[0] == '-' && s[1..] == t; } else { assert s == t; }
  }

  /** Whatever is written so is read as those parts, as far as a character that cannot continue it. */
  lemma NumberComplete(p: string, t: NumToken, rest: string)
    requires NumberSpelled(p, t) && Stops(rest)
    ensures ScanNumber(p + rest) == Number(t, rest)
  {
    hide ScanExp, ScanFrac, ScanNumber, ExpSpelled;
    var f, x :| NumberWritten(p, t, f, x) && ExpSpelled(x, t.exp);
    ExpComplete(x, t.exp, rest);
    var tail := x + rest;
    FracComplete(t.neg, t.whole, f, t.frac, tail, t.exp, rest);
    var more := f + tail;
    WholeRead(t.neg, t.whole, more);
    RegroupNumber(if t.neg then "-" else "", t.whole, f, x, rest);
  }

  lemma RegroupNumber(sign: string, w: string, f: string, x: string, rest: string)
    ensures (sign + (w + (f + x))) + rest == sign + (w + (f + (x + rest)))
  {
  }

  lemma ExpSound(s: string)
    requires ScanExp(s).Exp?
    ensures var r := ScanExp(s);
            |r.rest| <= |s| && s == s[..|s| - |r.rest|] + r.rest && ExpSpelled(s[..|s| - |r.rest|], r.e)
  {
    hide DigitsVal;
    var r := ScanExp(s);
    if s != "" && (s[0] == 'e' || s[0] == 'E') {
      var signed := |s| > 1 && (s[1] == '+' || s[1] == '-');
      var t := if signed then s[2..] else s[1..];
      var k := Span(t);
      var sign := if signed then [s[1]] else "";
      var x := s[..|s| - |r.rest|];
      assert x == [s[0]] + sign + t[..k];
      assert ExpWritten(x, s[0], sign, t[..k], r.e);
    } else {
      assert s[..0] == "";
    }
  }

  lemma Join(s: string, f: string, t: string, x: string, rest: string)
    requires s == f + t && t == x + rest
    ensures s == (f + x) + rest
  {
  }

  lemma FracSound(neg: bool, whole: string, s: string)
    requires ScanFrac(neg, whole, s).Number?
    ensures var r := ScanFrac(neg, whole, s);
            && r.tok.neg == neg && r.tok.whole == whole
            && exists f, x :: s == (f + x) + r.rest && FracText(f, r.tok.frac) && ExpSpelled(x, r.tok.exp)
  {
    hide ScanExp, Span, ExpSpelled;
    var r := ScanFrac(neg, whole, s);
    if s != "" && s[0] == '.' {
      var k := Span(s[1..]);
      var t := s[1..][k..];
      ExpSound(t);
      var f, x := s[..k + 1], t[..|t| - |r.rest|];
      assert f == "." + s[1..][..k];
      Join(s, f, t, x, r.rest);
      assert s == (f + x) + r.rest && FracText(f, r.tok.frac) && ExpSpelled(x, r.tok.exp);
    } else {
      ExpSound(s);
      var x := s[..|s| - |r.rest|];
      assert s == ("" + x) + r.rest && FracText("", r.tok.frac) && ExpSpelled(x, r.tok.exp);
    }
  }

  function SignOf(s: string): string { if s != "" && s[0] == '-' then "-" else "" }

  function WholeOf(s: string): string {
    var t := s[|SignOf(s)|..];
    if t == "" then "" else if t[0] == '0' then t[..1] else t[..Span(t)]
  }

  lemma WholeSound(s: string)
    requires ScanNumber(s).Number?
    ensures var sign, w := SignOf(s), WholeOf(s);
            var more := s[|sign| + |w|..];
            && IntPart(w) && s == sign + (w + more) && ScanNumber(s) == ScanFrac(sign == "-", w, more)
  {
    hide ScanFrac;
    var t := s[|SignOf(s)|..];
    assert s == SignOf(s) + t;
    assert t == WholeOf(s) + t[|WholeOf(s)|..] && s[|SignOf(s)| + |WholeOf(s)|..] == t[|WholeOf(s)|..];
    if SignOf(s) == "" { assert t == s; } else { assert t == s[1..]; }
  }

  /** What the number scan reads is written as the grammar says. */
  lemma NumberScanSound(s: string)
    requires ScanNumber(s).Number?
    ensures var r := ScanNumber(s);
            && |r.rest| < |s| && s == s[..|s| - |r.rest|] + r.rest && NumberSpelled(s[..|s| - |r.rest|], r.tok)
  {
    hide ScanNumber, ScanFrac, ExpSpelled, SignOf, WholeOf;
    ScanNumberShape(s);
    var r := ScanNumber(s);
    WholeSound(s);
    var sign, w := SignOf(s), WholeOf(s);
    var more := s[|sign| + |w|..];
    FracSound(sign == "-", w, more);
    var f, x :| more == (f + x) + r.rest && FracText(f, r.tok.frac) && ExpSpelled(x, r.tok.exp);
    var p := sign + (w + (f + x));
    SignText(s);
    assert s == p + r.rest by { RegroupParts(sign, w, f + x, r.rest); }
    assert p == s[..|s| - |r.rest|];
    assert NumberWritten(p, r.tok, f, x);
  }

  lemma SignText(s: string)
    ensures SignOf(s) == if SignOf(s) == "-" then "-" else ""
  {
  }

  lemma RegroupParts(sign: string, w: string, fx: string, rest: string)
    ensures sign + (w + (fx + rest)) == (sign + (w + fx)) + rest
  {
  }
}
