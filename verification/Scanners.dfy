/** Index-advancing scanners that both parsers share in shape: escapes, digit runs, number tokens. */
module Scanners {
  import opened Values
  import opened Decimals
  import opened Numbers
  import opened Lexing
  import opened Machine

  lemma DropDrop(s: string, i: nat, k: nat)
    requires i + k <= |s|
    ensures s[i..][k..] == s[i + k..]
  {
  }

  method Hex4At(s: string, i: nat) returns (r: Option<nat>)
    requires i <= |s|
    ensures r == if HasHex4(s[i..]) then Some(Hex4(s[i..])) else None
    ensures r.Some? ==> i + 4 <= |s|
  {
    if i + 4 > |s| || exists k :: i <= k < i + 4 && !IsHex(s[k]) {
      return None;
    }
    var v, k := 0, 0;
    v := HexVal(s[i]);
    v := 16 * v + HexVal(s[i + 1]);
    v := 16 * v + HexVal(s[i + 2]);
    v := 16 * v + HexVal(s[i + 3]);
    return Some(v);
  }

  /** One escape; `i` stands after the backslash. Returns the character and the index after it. */
  method EscapeAt(s: string, i: nat) returns (r: Option<(char, nat)>)
    requires i <= |s|
    ensures match Unescape(s[i..])
            case BadEscape => r == None
            case Escape(c, n) => i + n <= |s| && r == Some((c, i + n))
  {
    if i >= |s| { return None; }
    var e := s[i];
    if e == '"' { return Some(('"', i + 1)); }
    else if e == '\\' { return Some(('\\', i + 1)); }
    else if e == '/' { return Some(('/', i + 1)); }
    else if e == 'b' { return Some(('\U{08}', i + 1)); }
    else if e == 'f' { return Some(('\U{0C}', i + 1)); }
    else if e == 'n' { return Some(('\n', i + 1)); }
    else if e == 'r' { return Some(('\r', i + 1)); }
    else if e == 't' { return Some(('\t', i + 1)); }
    else if e == 'u' {
      DropDrop(s, i, 1);
      r := UEscapeAt(s, i + 1);
    } else { return None; }
  }

  method UEscapeAt(s: string, i: nat) returns (r: Option<(char, nat)>)
    requires 0 < i <= |s|
    ensures match UnescapeU(s[i..])
            case BadEscape => r == None
            case Escape(c, n) => i - 1 + n <= |s| && r == Some((c, i - 1 + n))
  {
    var h := Hex4At(s, i);
    if h == None { return None; }
    var cp := h.value;
    if 0xD800 <= cp <= 0xDBFF {
      if i + 6 > |s| || s[i + 4..i + 6] != "\\u" { return None; }
      assert s[i..][4] == s[i + 4] && s[i..][5] == s[i + 5];
      DropDrop(s, i, 6);
      var h2 := Hex4At(s, i + 6);
      if h2 == None || !(0xDC00 <= h2.value <= 0xDFFF) { return None; }
      return Some(((0x10000 + (cp - 0xD800) * 0x400 + (h2.value - 0xDC00)) as char, i + 10));
    } else if 0xDC00 <= cp <= 0xDFFF {
      return None;
    } else {
      return Some((cp as char, i + 4));
    }
  }

  /** How a string body reads at index `j`. */
  lemma RawAt(s: string, j: nat)
    requires j < |s|
    ensures s[j] == '"' ==> RawString(s[j..]) == String("", s[j + 1..])
    ensures s[j] == '\\' ==> match Unescape(s[j + 1..])
            case BadEscape => RawString(s[j..]) == BadString
            case Escape(c, n) => RawString(s[j..]) == Prepend([c], RawString(s[j + 1 + n..]))
    ensures s[j] != '"' && s[j] != '\\' ==>
            RawString(s[j..]) == if s[j] as int <= 0x1F then BadString else Prepend([s[j]], RawString(s[j + 1..]))
  {
    hide Unescape;
    var t := s[j..];
    assert t[0] == s[j];
    DropDrop(s, j, 1);
    if s[j] == '\\' {
      var e := Unescape(s[j + 1..]);
      if e.Escape? { DropDrop(s, j + 1, e.n); }
    }
  }

  lemma PrependNothing(r: StrScan)
    ensures Prepend("", r) == r
  {
    if r.String? { assert "" + r.text == r.text; }
  }

  lemma RawAtEnd(s: string)
    requires s == ""
    ensures RawString(s) == BadString
  {
  }

  lemma PrependTwice(a: string, b: string, r: StrScan)
    ensures Prepend(a, Prepend(b, r)) == Prepend(a + b, r)
  {
    if r.String? { assert a + (b + r.text) == (a + b) + r.text; }
  }

  method DigitsAt(s: string, i: nat) returns (j: nat)
    requires i <= |s|
    ensures i <= j <= |s| && j - i == Span(s[i..]) && s[i..j] == s[i..][..j - i] && AllDigits(s[i..j])
  {
    j := i;
    while j < |s| && IsDigit(s[j])
      invariant i <= j <= |s| && Span(s[i..]) == (j - i) + Span(s[j..])
    {
      DropDrop(s, j, 1);
      j := j + 1;
    }
    assert s[i..j] == s[i..][..j - i];
  }

  /** The extent of a number token from `i`. */
  method NumTokenAt(s: string, i: nat) returns (r: Option<(NumToken, nat)>)
    requires i < |s|
    ensures match ScanNumber(s[i..])
            case NoNumber => r == None
            case Number(t, rest) =>
              && r.Some? && r.value.0 == t && t.neg == (s[i] == '-') && i <= r.value.1 <= |s|
              && rest == s[r.value.1..]
  {
    hide DigitsVal, ScanExp, ScanFrac, Span;
    var neg := s[i] == '-';
    var j := if neg then i + 1 else i;
    assert (if neg then s[i..][1..] else s[i..]) == s[j..];
    if j >= |s| || !IsDigit(s[j]) { return None; }
    var k := j + 1;
    if s[j] != '0' { k := DigitsAt(s, j); }
    var whole := s[j..k];
    assert s[j..][..k - j] == whole && s[j..][k - j..] == s[k..];
    r := FractionAt(s, k, neg, whole);
  }

  /** A number token from `i`, converted to binary64. */
  method NumberAt(fp: Binary64, s: string, i: nat) returns (r: Option<(real, nat)>)
    requires i < |s|
    ensures match LexNumber(fp, s[i..])
            case Tok(t, rest) =>
              && r.Some? && t == Literal(Num(r.value.0)) && i < r.value.1 <= |s|
              && rest == s[r.value.1..]
            case _ => r == None
  {
    hide DigitsVal, ScanNumber, Magnitude;
    ScanNumberShape(s[i..]);
    var p := NumTokenAt(s, i);
    if p == None { return None; }
    var (tok, m) := p.value;
    var x := fp.nearest(if tok.neg then -Magnitude(tok) else Magnitude(tok));
    if x == None { return None; }
    if x.value == 0.0 && s[i] == '-' { return None; }
    return Some((x.value, m));
  }

  method FractionAt(s: string, i: nat, neg: bool, whole: string) returns (r: Option<(NumToken, nat)>)
    requires i <= |s|
    ensures match ScanFrac(neg, whole, s[i..])
            case NoNumber => r == None
            case Number(t, rest) =>
              && r.Some? && r.value.0 == t && t.neg == neg && i <= r.value.1 <= |s|
              && rest == s[r.value.1..]
  {
    hide DigitsVal, ScanExp, Span;
    var frac, j := "", i;
    if i < |s| && s[i] == '.' {
      DropDrop(s, i, 1);
      j := DigitsAt(s, i + 1);
      if j == i + 1 { return None; }
      frac := s[i + 1..j];
      DropDrop(s, i + 1, j - i - 1);
    }
    var e := ExponentAt(s, j);
    if e == None { return None; }
    return Some((NumToken(neg, whole, frac, e.value.0), e.value.1));
  }

  method ExponentAt(s: string, i: nat) returns (r: Option<(int, nat)>)
    requires i <= |s|
    ensures match ScanExp(s[i..])
            case NoExp => r == None
            case Exp(e, rest) => r.Some? && r.value.0 == e && i <= r.value.1 <= |s| && rest == s[r.value.1..]
  {
    hide DigitsVal, Span;
    if !(i < |s| && (s[i] == 'e' || s[i] == 'E')) { return Some((0, i)); }
    var signed := i + 1 < |s| && (s[i + 1] == '+' || s[i + 1] == '-');
    var j := if signed then i + 2 else i + 1;
    DropDrop(s, i, j - i);
    var k := DigitsAt(s, j);
    if k == j { return None; }
    DropDrop(s, j, k - j);
    var m: int := DigitsVal(s[j..k]);
    return Some((if signed && s[i + 1] == '-' then -m else m, k));
  }

  // ---------------------------------------------------------------- tokens at an index

  lemma NoTokens(fp: Binary64, s: string)
    ensures Tokens(fp, s[|s|..]) == []
  {
  }

  /** The first token at an index that is not white space. */
  lemma TokenAt(fp: Binary64, s: string, i: nat)
    requires i < |s| && !IsWs(s[i])
    ensures var r := LexOne(fp, s[i..]);
            Tokens(fp, s[i..]) == (if r.Tok? then [r.t] + Tokens(fp, r.rest) else [Error])
  {
    assert SkipWs(s[i..]) == s[i..];
  }

  function Punct(c: char): Option<Token> {
    match c
    case '{' => Some(LBrace)
    case '}' => Some(RBrace)
    case '[' => Some(LBracket)
    case ']' => Some(RBracket)
    case ',' => Some(Comma)
    case ':' => Some(Colon)
    case _ => None
  }

  lemma LexPunct(fp: Binary64, s: string)
    requires s != "" && Punct(s[0]).Some?
    ensures LexOne(fp, s) == Tok(Punct(s[0]).value, s[1..])
  {
    hide LexString, LexNumber, LexLiteral;
  }

  /** One-character tokens. */
  lemma PunctAt(fp: Binary64, s: string, i: nat)
    requires i < |s| && Punct(s[i]).Some?
    ensures Tokens(fp, s[i..]) == [Punct(s[i]).value] + Tokens(fp, s[i + 1..])
  {
    hide LexOne, Tokens;
    TokenAt(fp, s, i);
    LexPunct(fp, s[i..]);
    DropDrop(s, i, 1);
  }

  lemma LexNumberKind(fp: Binary64, s: string)
    ensures LexNumber(fp, s).Tok? ==> LexNumber(fp, s).t.Literal? && LexNumber(fp, s).t.v.Num?
    ensures !LexNumber(fp, s).End?
  {
    hide ScanNumber, NumberOf;
  }

  /** Any other token is a literal, and only a quote starts a string. */
  lemma LexKind(fp: Binary64, s: string)
    requires s != "" && Punct(s[0]) == None
    ensures var r := LexOne(fp, s); r.Tok? ==> r.t.Literal? && (r.t.v.Str? ==> s[0] == '"')
  {
    hide LexString, LexNumber;
    LexNumberKind(fp, s);
  }

  /** A token announces itself by its first character. */
  lemma FirstToken(fp: Binary64, s: string, i: nat)
    requires i < |s| && !IsWs(s[i])
    ensures var ts := Tokens(fp, s[i..]);
            ts != [] &&
            (if Punct(s[i]).Some? then ts[0] == Punct(s[i]).value
             else ts[0] == Error || (ts[0].Literal? && (ts[0].v.Str? ==> s[i] == '"')))
  {
    hide LexOne, Tokens;
    TokenAt(fp, s, i);
    if Punct(s[i]).Some? { LexPunct(fp, s[i..]); } else { LexKind(fp, s[i..]); }
  }

  /** What an index after white space says about the first unread token. */
  lemma FirstAt(fp: Binary64, s: string, j: nat)
    requires j <= |s| && (j < |s| ==> !IsWs(s[j]))
    ensures var ts := Tokens(fp, s[j..]);
            if j == |s| then ts == []
            else
              && ts != [] && (IsStr(ts[0]) ==> s[j] == '"')
              && (Punct(s[j]) == Some(ts[0]) || ts[0].Literal? || ts[0] == Error)
  {
    hide LexOne, Tokens;
    if j < |s| { FirstToken(fp, s, j); } else { NoTokens(fp, s); }
  }

  lemma WordAt(s: string, i: nat, word: string)
    requires i <= |s|
    ensures word <= s[i..] <==> i + |word| <= |s| && s[i..i + |word|] == word
    ensures word <= s[i..] ==> s[i..][|word|..] == s[i + |word|..]
  {
    if i + |word| <= |s| { assert s[i..][..|word|] == s[i..i + |word|]; }
  }

  lemma LexQuote(fp: Binary64, s: string)
    requires s != "" && s[0] == '"'
    ensures var r := LexString(s[1..]);
            LexOne(fp, s) == if r.String? then Tok(Literal(Str(r.text)), r.rest) else Bad
  {
    hide LexString;
  }
}
