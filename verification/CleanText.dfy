/** A text that parses has no noncharacter anywhere: Python's scan of the whole text changes nothing. */
module CleanText {
  import opened Decimals
  import opened Numbers
  import opened Lexing

  /** `r` is what remains of `s` after a part without noncharacters. */
  ghost predicate CleanTo(s: string, r: string) {
    |r| <= |s| && s[|s| - |r|..] == r && Clean(s[..|s| - |r|])
  }

  lemma CleanJoin(s: string, r: string)
    requires CleanTo(s, r) && Clean(r)
    ensures Clean(s)
  {
    var k := |s| - |r|;
    forall i | 0 <= i < |s| ensures !IsNonchar(s[i]) {
      if i < k { assert s[i] == s[..k][i]; } else { assert s[i] == s[k..][i - k]; }
    }
  }

  lemma CleanThen(s: string, r: string, q: string)
    requires CleanTo(s, r) && CleanTo(r, q)
    ensures CleanTo(s, q)
  {
    var k, m := |s| - |r|, |r| - |q|;
    assert s[k..][m..] == s[k + m..];
    forall i | 0 <= i < k + m ensures !IsNonchar(s[i]) {
      if i < k { assert s[i] == s[..k][i]; } else { assert s[i] == r[i - k] == r[..m][i - k]; }
    }
  }

  predicate AsciiTo(s: string, n: nat) requires n <= |s| { forall i :: 0 <= i < n ==> s[i] as int < 0x80 }

  lemma AsciiClean(s: string, n: nat)
    requires n <= |s| && AsciiTo(s, n)
    ensures CleanTo(s, s[n..])
  {
    forall i | 0 <= i < n ensures !IsNonchar(s[..n][i]) { assert s[..n][i] == s[i]; }
  }

  lemma {:induction false} SkipWsClean(s: string)
    ensures CleanTo(s, SkipWs(s))
  {
    if s != "" && IsWs(s[0]) {
      SkipWsClean(s[1..]);
      AsciiClean(s, 1);
      CleanThen(s, s[1..], SkipWs(s[1..]));
    } else {
      AsciiClean(s, 0);
    }
  }

  lemma UnescapeAscii(s: string)
    ensures Unescape(s).Escape? ==> AsciiTo(s, Unescape(s).n)
  {
    if s != "" && s[0] == 'u' {
      UnescapeUAscii(s[1..]);
      var e := UnescapeU(s[1..]);
      if e.Escape? {
        forall i | 0 <= i < e.n ensures s[i] as int < 0x80 { if i > 0 { assert s[i] == s[1..][i - 1]; } }
      }
    }
  }

  lemma UnescapeUAscii(s: string)
    ensures UnescapeU(s).Escape? ==> AsciiTo(s, UnescapeU(s).n - 1)
  {
    var e := UnescapeU(s);
    if e.Escape? && e.n == 11 {
      forall i | 6 <= i < 10 ensures s[i] as int < 0x80 { assert s[i] == s[6..][i - 6]; }
    }
  }

  lemma {:induction false} RawStringClean(s: string)
    requires RawString(s).String? && Clean(RawString(s).text)
    ensures CleanTo(s, RawString(s).rest)
    decreases |s|
  {
    hide Unescape, CleanTo;
    var r := RawString(s);
    if s[0] == '"' {
      AsciiClean(s, 1);
    } else if s[0] == '\\' {
      var e := Unescape(s[1..]);
      var t := s[1..][e.n..];
      var q := RawString(t);
      assert forall i :: 0 <= i < |q.text| ==> q.text[i] == r.text[i + 1];
      RawStringClean(t);
      UnescapeAscii(s[1..]);
      AsciiClean(s, 1);
      AsciiClean(s[1..], e.n);
      CleanThen(s, s[1..], t);
      CleanThen(s, t, r.rest);
    } else {
      var q := RawString(s[1..]);
      assert r.text[0] == s[0] && forall i :: 0 <= i < |q.text| ==> q.text[i] == r.text[i + 1];
      RawStringClean(s[1..]);
      OneClean(s);
      CleanThen(s, s[1..], r.rest);
    }
  }

  lemma OneClean(s: string)
    requires s != "" && !IsNonchar(s[0])
    ensures CleanTo(s, s[1..])
  {
    assert s[..1] == [s[0]];
  }

  lemma SpanClean(s: string)
    ensures CleanTo(s, s[Span(s)..])
  {
    hide Span;
    var k := Span(s);
    forall i | 0 <= i < k ensures s[i] as int < 0x80 { assert IsDigit(s[..k][i]); }
    AsciiClean(s, k);
  }

  lemma ScanExpClean(s: string)
    ensures ScanExp(s).Exp? ==> CleanTo(s, ScanExp(s).rest)
  {
    hide Span, DigitsVal, CleanTo;
    if s != "" && (s[0] == 'e' || s[0] == 'E') {
      var n := if |s| > 1 && (s[1] == '+' || s[1] == '-') then 2 else 1;
      AsciiClean(s, n);
      SpanClean(s[n..]);
      CleanThen(s, s[n..], s[n..][Span(s[n..])..]);
    } else {
      AsciiClean(s, 0);
    }
  }

  lemma ScanFracClean(neg: bool, whole: string, s: string)
    ensures var r := ScanFrac(neg, whole, s); r.Number? ==> CleanTo(s, r.rest)
  {
    hide Span, ScanExp, CleanTo;
    var r := ScanFrac(neg, whole, s);
    if s != "" && s[0] == '.' {
      var t := s[1..][Span(s[1..])..];
      AsciiClean(s, 1);
      SpanClean(s[1..]);
      CleanThen(s, s[1..], t);
      ScanExpClean(t);
      if r.Number? { CleanThen(s, t, r.rest); }
    } else {
      ScanExpClean(s);
    }
  }

  lemma ScanNumberClean(s: string)
    ensures ScanNumber(s).Number? ==> CleanTo(s, ScanNumber(s).rest)
  {
    hide Span, ScanFrac, CleanTo;
    var r := ScanNumber(s);
    if r.Number? {
      var neg := s[0] == '-';
      var t := if neg then s[1..] else s;
      var k := if t[0] == '0' then 1 else Span(t);
      AsciiClean(s, if neg then 1 else 0);
      if t[0] == '0' { AsciiClean(t, 1); } else { SpanClean(t); }
      CleanThen(s, t, t[k..]);
      ScanFracClean(neg, t[..k], t[k..]);
      CleanThen(s, t[k..], r.rest);
    }
  }

  lemma LexOneClean(fp: Binary64, s: string)
    requires s != "" && LexOne(fp, s).Tok?
    ensures CleanTo(s, LexOne(fp, s).rest)
  {
    hide CleanTo, RawString, ScanNumber, NumberOf;
    if s[0] == '"' {
      var r := RawString(s[1..]);
      AsciiClean(s, 1);
      RawStringClean(s[1..]);
      CleanThen(s, s[1..], r.rest);
    } else if s[0] in {'t', 'f', 'n'} {
      WordClean(s);
    } else if s[0] == '-' || IsDigit(s[0]) {
      ScanNumberClean(s);
    } else {
      AsciiClean(s, 1);
    }
  }

  lemma WordClean(s: string)
    ensures "true" <= s ==> CleanTo(s, s[4..])
    ensures "null" <= s ==> CleanTo(s, s[4..])
    ensures "false" <= s ==> CleanTo(s, s[5..])
  {
    hide CleanTo;
    if "true" <= s || "null" <= s { AsciiClean(s, 4); }
    if "false" <= s { AsciiClean(s, 5); }
  }

  /** Only texts without noncharacters lex without error. */
  lemma {:induction false} TokensClean(fp: Binary64, s: string)
    requires Error !in Tokens(fp, s)
    ensures Clean(s)
    decreases |s|
  {
    hide LexOne, CleanTo;
    var t := SkipWs(s);
    SkipWsClean(s);
    if t != "" {
      var r := LexOne(fp, t);
      assert Tokens(fp, s) == (if r.Tok? then [r.t] + Tokens(fp, r.rest) else [Error]);
      LexOneClean(fp, t);
      TokensClean(fp, r.rest);
      CleanJoin(t, r.rest);
    }
    CleanJoin(s, t);
  }
}
