/** JSON texts and the values they denote, and what makes the canonical text canonical. */
module Texts {
  import opened Values
  import opened Decimals
  import opened Numbers
  import opened Lexing
  import opened Scanners
  import opened Sorting
  import opened Printing
  import opened RoundTrip
  import opened TextGrammar
  import Grammar
  import Go = GoParser

  // ---------------------------------------------------------------- the value of a number text

  function AbsValue(t: NumToken): real
    requires GoodToken(t)
  {
    (DigitsVal(t.whole) as real + DigitsVal(t.frac) as real * Pow10(-|t.frac|)) * Pow10(t.exp)
  }

  /** A number text denotes the nearest binary64 number; a negative zero, or an overflow, denotes nothing. */
  predicate Denotes(fp: Binary64, t: NumToken, x: real)
    requires GoodToken(t)
  {
    fp.nearest(if t.neg then -AbsValue(t) else AbsValue(t)) == Some(x) && (x == 0.0 ==> !t.neg)
  }

  lemma Spread(w: real, f: real, i: real, u: real, q: real)
    requires i * u == 1.0
    ensures (w + f * u) * (i * q) == (w * i + f) * q
  {
    var a := f * u;
    assert a * i == f by { assert f * (u * i) == f; }
    assert (w + a) * i == w * i + a * i;
  }

  lemma AbsIsMagnitude(t: NumToken)
    requires GoodToken(t)
    ensures AbsValue(t) == Magnitude(t)
  {
    hide DigitsVal, Pow10, IntPow10;
    var k := |t.frac|;
    DigitsValConcat(t.whole, t.frac);
    Pow10Add(t.exp - k, k);
    Pow10Add(-k, k);
    PowZero();
    var w, f, i: real := DigitsVal(t.whole) as real, DigitsVal(t.frac) as real, IntPow10(k) as real;
    Spread(w, f, i, Pow10(-k), Pow10(t.exp - k));
    WholeAsReal(DigitsVal(t.whole), IntPow10(k), DigitsVal(t.frac));
  }

  lemma PowZero()
    ensures Pow10(0) == 1.0
  {
  }

  lemma WholeAsReal(a: nat, b: nat, c: nat)
    ensures (a * b + c) as real == (a as real) * (b as real) + c as real
  {
  }

  lemma DenotesIff(fp: Binary64, t: NumToken, x: real)
    requires GoodToken(t)
    ensures Denotes(fp, t, x) <==> NumberOf(fp, t) == Some(x)
  {
    hide Magnitude, AbsValue;
    AbsIsMagnitude(t);
  }

  // ---------------------------------------------------------------- tokens

  /** White space of section 2 of RFC 8259. */
  predicate AllWs(s: string) { forall i :: 0 <= i < |s| ==> s[i] as int in {0x20, 0x09, 0x0A, 0x0D} }

  ghost predicate NumberText(fp: Binary64, x: real, p: string) {
    exists t :: NumberSpelled(p, t) && GoodToken(t) && Denotes(fp, t, x)
  }

  ghost predicate StringText(x: string, p: string) {
    |p| >= 2 && p[0] == '"' && p[|p| - 1] == '"' && Spelled(x, p[1..|p| - 1]) && Clean(x)
  }

  /** The texts of one token. */
  ghost predicate TokenText(fp: Binary64, t: Token, p: string) {
    match t
    case LBrace => p == "{"
    case RBrace => p == "}"
    case LBracket => p == "["
    case RBracket => p == "]"
    case Comma => p == ","
    case Colon => p == ":"
    case Literal(v) => ScalarText(fp, v, p)
    case Error => false
  }

  ghost predicate ScalarText(fp: Binary64, v: Scalar, p: string) {
    match v
    case Null => p == "null"
    case Bool(b) => p == if b then "true" else "false"
    case Num(x) => NumberText(fp, x, p)
    case Str(x) => StringText(x, p)
  }

  /** A text that writes these tokens in order, with white space around them. */
  ghost predicate Spells(fp: Binary64, ts: seq<Token>, s: string)
    decreases |ts|
  {
    if ts == [] then AllWs(s)
    else exists i: nat, k: nat :: Cut(s, i, k) && TokenText(fp, ts[0], s[i..k]) && Spells(fp, ts[1..], s[k..])
  }

  /** White space up to `i`, a token up to `k`. */
  predicate Cut(s: string, i: nat, k: nat) { i <= k <= |s| && AllWs(s[..i]) }

  // ---------------------------------------------------------------- reading one token

  lemma StringSound(fp: Binary64, s: string)
    requires s != "" && s[0] == '"' && LexString(s[1..]).String?
    ensures var r := LexString(s[1..]);
            |r.rest| < |s| && s == s[..|s| - |r.rest|] + r.rest && StringText(r.text, s[..|s| - |r.rest|])
  {
    hide RawString, Spelled;
    RawSound(s[1..]);
    var r := LexString(s[1..]);
    var n := |s[1..]| - |r.rest| - 1;
    var p := s[..|s| - |r.rest|];
    assert |p| == n + 2 && s[1..][..n] == p[1..|p| - 1];
    assert s[1..][n] == '"' == p[|p| - 1];
    assert s[1..][n + 1..] == r.rest;
  }

  lemma NumberTokenSound(fp: Binary64, s: string)
    requires LexNumber(fp, s).Tok?
    ensures var r := LexNumber(fp, s);
            && r.t.Literal? && r.t.v.Num?
            && s == s[..|s| - |r.rest|] + r.rest && NumberText(fp, r.t.v.n, s[..|s| - |r.rest|])
  {
    hide ScanNumber, NumberSpelled, Denotes, NumberOf;
    ScanNumberShape(s);
    NumberScanSound(s);
    var r := LexNumber(fp, s);
    DenotesIff(fp, ScanNumber(s).tok, r.t.v.n);
  }

  lemma WordFront(s: string, word: string)
    requires word <= s
    ensures s[..|s| - |s[|word|..]|] == word && s == word + s[|word|..]
  {
  }

  /** A token that is read is written as the grammar says. */
  lemma OneSound(fp: Binary64, s: string)
    requires s != "" && LexOne(fp, s).Tok? && LexOne(fp, s).t != Error
    ensures var r := LexOne(fp, s);
            && |r.rest| < |s| && s == s[..|s| - |r.rest|] + r.rest && TokenText(fp, r.t, s[..|s| - |r.rest|])
  {
    hide LexString, LexNumber, NumberText, StringText;
    var r := LexOne(fp, s);
    var p := s[..|s| - |r.rest|];
    if s[0] == '"' {
      StringSound(fp, s);
    } else if s[0] == '-' || IsDigit(s[0]) {
      NumberTokenSound(fp, s);
    } else if s[0] in "tfn" {
      var word := if s[0] == 't' then "true" else if s[0] == 'f' then "false" else "null";
      assert word <= s && s[|word|..] == r.rest;
      WordFront(s, word);
    } else {
      assert p == [s[0]] && r.rest == s[1..];
    }
  }

  lemma NumberFirst(p: string, t: NumToken)
    requires NumberSpelled(p, t)
    ensures p != "" && (p[0] == '-' || IsDigit(p[0]))
  {
    hide ExpSpelled;
    var f, x :| NumberWritten(p, t, f, x) && ExpSpelled(x, t.exp);
  }

  lemma NumberTokenComplete(fp: Binary64, x: real, p: string, rest: string)
    requires NumberText(fp, x, p) && Stops(rest)
    ensures p != "" && (p[0] == '-' || IsDigit(p[0])) && LexNumber(fp, p + rest) == Tok(Literal(Num(x)), rest)
  {
    hide ScanNumber, NumberSpelled, Denotes, NumberOf;
    var t :| NumberSpelled(p, t) && GoodToken(t) && Denotes(fp, t, x);
    NumberFirst(p, t);
    NumberComplete(p, t, rest);
    DenotesIff(fp, t, x);
  }

  lemma StringTokenComplete(fp: Binary64, x: string, p: string, rest: string)
    requires StringText(x, p)
    ensures LexOne(fp, p + rest) == Tok(Literal(Str(x)), rest)
  {
    hide RawString, Spelled, LexOne;
    var b := p[1..|p| - 1];
    RawComplete(x, b, rest);
    var s := p + rest;
    assert s[1..] == b + ("\"" + rest);
    LexQuote(fp, s);
  }

  lemma WordComplete(fp: Binary64, word: string, v: Scalar, rest: string)
    requires (word, v) in {("true", Bool(true)), ("false", Bool(false)), ("null", Null)}
    ensures LexOne(fp, word + rest) == Tok(Literal(v), rest)
  {
    hide LexString, LexNumber;
    var s := word + rest;
    assert s[0] == word[0] && word <= s && s[|word|..] == rest;
  }

  lemma PunctComplete(fp: Binary64, t: Token, p: string, rest: string)
    requires TokenText(fp, t, p) && !t.Literal?
    ensures |p| == 1 && !IsWs(p[0]) && LexOne(fp, p + rest) == Tok(t, rest)
  {
    hide LexString, LexNumber, NumberText, StringText;
    assert (p + rest)[1..] == rest;
  }

  /** And every token so written is read, a number as far as a character that cannot continue it. */
  lemma OneComplete(fp: Binary64, t: Token, p: string, rest: string)
    requires TokenText(fp, t, p) && (t.Literal? && t.v.Num? ==> Stops(rest))
    ensures p != "" && !IsWs(p[0]) && LexOne(fp, p + rest) == Tok(t, rest)
  {
    hide LexOne, NumberText, StringText, Stops, LexNumber;
    if !t.Literal? {
      PunctComplete(fp, t, p, rest);
    } else if t.v.Num? {
      NumberTokenComplete(fp, t.v.n, p, rest);
      LexesNumber(fp, p + rest);
    } else if t.v.Str? {
      StringTokenComplete(fp, t.v.s, p, rest);
      StartsQuoted(t.v.s, p);
    } else {
      WordComplete(fp, p, t.v, rest);
    }
  }

  lemma LexesNumber(fp: Binary64, s: string)
    requires s != "" && (s[0] == '-' || IsDigit(s[0]))
    ensures LexOne(fp, s) == LexNumber(fp, s)
  {
    hide LexNumber;
  }

  lemma StartsQuoted(x: string, p: string)
    requires StringText(x, p)
    ensures p != "" && p[0] == '"'
  {
  }

  // ---------------------------------------------------------------- reading all tokens

  lemma {:induction false} SkipsWs(s: string)
    ensures var r := SkipWs(s); s == s[..|s| - |r|] + r && AllWs(s[..|s| - |r|])
  {
    if s != "" && IsWs(s[0]) {
      SkipsWs(s[1..]);
      var r := SkipWs(s);
      var n := |s| - |r|;
      assert s[..n] == [s[0]] + s[1..][..n - 1];
      assert s == [s[0]] + s[1..];
    } else {
      assert s[..0] == "";
    }
  }

  lemma {:induction false} SkipsExactly(w: string, t: string)
    requires AllWs(w) && (t == "" || !IsWs(t[0]))
    ensures SkipWs(w + t) == t
  {
    if w == "" {
      assert w + t == t;
    } else {
      assert (w + t)[1..] == w[1..] + t;
      SkipsExactly(w[1..], t);
    }
  }

  /** A text that lexes without error spells its tokens. */
  lemma {:induction false} TokensSpelled(fp: Binary64, s: string)
    requires Error !in Tokens(fp, s)
    ensures Spells(fp, Tokens(fp, s), s)
    decreases |s|
  {
    hide LexOne, TokenText, AllWs, SkipWs;
    var t := SkipWs(s);
    SkipsWs(s);
    var i: nat := |s| - |t|;
    if t == "" {
      assert s[..i] == s;
    } else {
      var r := LexOne(fp, t);
      assert r.Tok? && Tokens(fp, s) == [r.t] + Tokens(fp, r.rest);
      assert Tokens(fp, s)[0] == r.t;
      OneSound(fp, t);
      var k: nat := |s| - |r.rest|;
      TokensSpelled(fp, r.rest);
      assert s[i..] == t && s[i..k] == t[..|t| - |r.rest|] && s[k..] == r.rest;
      assert Tokens(fp, s)[1..] == Tokens(fp, r.rest);
      assert Cut(s, i, k) && TokenText(fp, r.t, s[i..k]);
    }
  }

  /** No two values next to each other. */
  ghost predicate Separated(ts: seq<Token>) {
    forall i :: 0 <= i < |ts| - 1 ==> !(ts[i].Literal? && ts[i + 1].Literal?)
  }

  lemma SpelledStops(fp: Binary64, ts: seq<Token>, s: string)
    requires Spells(fp, ts, s) && (ts == [] || !ts[0].Literal?)
    ensures Stops(s)
  {
    hide NumberText, StringText;
    if ts == [] {
      if s != "" { assert s[0] as int in {0x20, 0x09, 0x0A, 0x0D}; }
    } else {
      var i: nat, k: nat :| Cut(s, i, k) && TokenText(fp, ts[0], s[i..k]) && Spells(fp, ts[1..], s[k..]);
      if i == 0 { assert s[i..k][0] == s[0]; } else { assert s[..i][0] == s[0]; }
    }
  }

  /** And a text that spells separated tokens lexes to them. */
  lemma {:induction false} SpelledTokens(fp: Binary64, ts: seq<Token>, s: string)
    requires Spells(fp, ts, s) && Separated(ts)
    ensures Tokens(fp, s) == ts
    decreases |ts|
  {
    hide LexOne, TokenText, AllWs, SkipWs, Stops;
    if ts == [] {
      SkipsExactly(s, "");
      assert s + "" == s;
    } else {
      var i: nat, k: nat :| Cut(s, i, k) && TokenText(fp, ts[0], s[i..k]) && Spells(fp, ts[1..], s[k..]);
      var p, rest := s[i..k], s[k..];
      RestSeparated(ts);
      SpelledTokens(fp, ts[1..], rest);
      if ts[0].Literal? && ts[0].v.Num? { SpelledStops(fp, ts[1..], rest); }
      OneComplete(fp, ts[0], p, rest);
      assert s == s[..i] + (p + rest);
      SkipsExactly(s[..i], p + rest);
      assert ts == [ts[0]] + ts[1..];
    }
  }

  lemma RestSeparated(ts: seq<Token>)
    requires Separated(ts) && ts != []
    ensures Separated(ts[1..]) && (ts[0].Literal? ==> ts[1..] == [] || !ts[1..][0].Literal?)
  {
    forall i | 0 <= i < |ts[1..]| - 1 ensures !(ts[1..][i].Literal? && ts[1..][i + 1].Literal?) {
      assert ts[i + 1] == ts[1..][i] && ts[i + 2] == ts[1..][i + 1];
    }
  }

  lemma JoinSeparated(a: seq<Token>, p: Token, b: seq<Token>)
    requires Separated(a) && Separated(b) && !p.Literal?
    ensures Separated(a + [p] + b)
  {
    var ts := a + [p] + b;
    forall i | 0 <= i < |ts| - 1 ensures !(ts[i].Literal? && ts[i + 1].Literal?) {
      if i + 1 < |a| {
        assert ts[i] == a[i] && ts[i + 1] == a[i + 1];
      } else if i > |a| {
        assert ts[i] == b[i - |a| - 1] && ts[i + 1] == b[i - |a|];
      }
    }
  }

  lemma {:induction false} FlattenSeparated(v: Value)
    ensures Separated(Grammar.Flatten(v))
    decreases v, 1
  {
    hide Separated;
    match v
    case Arr(es) =>
      ElemsSeparated(es);
      Wrapped(LBracket, Grammar.FlattenElems(es), RBracket);
    case Obj(ms) =>
      MembersSeparated(ms);
      Wrapped(LBrace, Grammar.FlattenMembers(ms), RBrace);
    case _ => OneSeparated(Literal(v));
  }

  lemma OneSeparated(t: Token)
    ensures Separated([t]) && Separated([])
  {
  }

  lemma Wrapped(l: Token, ts: seq<Token>, r: Token)
    requires Separated(ts) && !l.Literal? && !r.Literal?
    ensures Separated([l] + ts + [r])
  {
    hide Separated;
    OneSeparated(l);
    JoinSeparated([], l, ts);
    assert [] + [l] + ts == [l] + ts;
    JoinSeparated([l] + ts, r, []);
    assert [l] + ts + [r] + [] == [l] + ts + [r];
  }

  lemma {:induction false} ElemsSeparated(es: seq<Value>)
    ensures Separated(Grammar.FlattenElems(es))
    decreases es, 0
  {
    hide Separated, Grammar.Flatten;
    if es == [] {
      OneSeparated(Comma);
    } else {
      FlattenSeparated(es[0]);
      if |es| > 1 {
        ElemsSeparated(es[1..]);
        JoinSeparated(Grammar.Flatten(es[0]), Comma, Grammar.FlattenElems(es[1..]));
      }
    }
  }

  lemma {:induction false} MembersSeparated(ms: seq<Entry<Value>>)
    ensures Separated(Grammar.FlattenMembers(ms))
    decreases ms, 0
  {
    hide Separated, Grammar.Flatten;
    if ms == [] {
      OneSeparated(Comma);
    } else {
      FlattenSeparated(ms[0].val);
      OneSeparated(Literal(Str(ms[0].name)));
      JoinSeparated([Literal(Str(ms[0].name))], Colon, Grammar.Flatten(ms[0].val));
      assert [Literal(Str(ms[0].name))] + [Colon] == [Literal(Str(ms[0].name)), Colon];
      if |ms| > 1 {
        MembersSeparated(ms[1..]);
        JoinSeparated(Grammar.FlattenMember(ms[0]), Comma, Grammar.FlattenMembers(ms[1..]));
      }
    }
  }

  /** A text parses to a value exactly when it spells the value's tokens and no object in it names a member twice. */
  lemma ParseIff(fp: Binary64, s: string, v: Value)
    ensures Parse(fp, s) == Some(v) <==> NoDup(v) && Spells(fp, Grammar.Flatten(v), s)
  {
    hide Tokens, Grammar.PDocument, Grammar.Flatten, NoDup, Spells, Separated;
    Grammar.DocumentIff(Tokens(fp, s), v);
    FlattenSeparated(v);
    Go.FlattenNoError(v);
    if Parse(fp, s) == Some(v) { TokensSpelled(fp, s); }
    if Spells(fp, Grammar.Flatten(v), s) { SpelledTokens(fp, Grammar.Flatten(v), s); }
  }

  // ---------------------------------------------------------------- the canonical text

  /** No hexadecimal letter in upper case after a backslash. */
  predicate LowerCase(p: string) { p != "" && p[0] == '\\' ==> forall i :: 0 <= i < |p| ==> !('A' <= p[i] <= 'F') }

  /** The printed form of a character is the shortest way to write it, and with lower-case digits the only one
      that short. */
  lemma EscapeShortest(c: char, p: string)
    ensures Piece(c, EscapeChar(c)) && LowerCase(EscapeChar(c))
    ensures Piece(c, p) ==> |EscapeChar(c)| <= |p|
    ensures Piece(c, p) && |p| == |EscapeChar(c)| && LowerCase(p) ==> p == EscapeChar(c)
  {
    hide UnitEscape;
    var r := c as int;
    if r < 0x20 { ControlEscape(c, p); }
    UnitLength(c, p);
  }

  lemma UnitLength(c: char, p: string)
    ensures UnitEscape(c, p) ==> |p| >= 6 && p[0] == '\\'
  {
    if |p| >= 2 { assert p[..2][0] == p[0]; }
  }

  lemma ControlEscape(c: char, p: string)
    requires c as int < 0x20
    ensures var q := "\\u00" + [HexDigit(c as int / 16), HexDigit(c as int % 16)];
            && UnitEscape(c, q) && LowerCase(q)
            && (UnitEscape(c, p) && LowerCase(p) ==> p == q)
  {
    var r := c as int;
    var q := "\\u00" + [HexDigit(r / 16), HexDigit(r % 16)];
    assert q[..2] == "\\u" && q[2] == '0' && q[3] == '0' && q[4] == LOWER[r / 16] && q[5] == LOWER[r % 16];
    assert r / 4096 == 0 && r / 256 % 16 == 0;
    if UnitEscape(c, p) && LowerCase(p) {
      assert p[..2] == "\\u" && p[..2][0] == p[0] && p[..2][1] == p[1];
      assert DigitIs(p[2], 0) && DigitIs(p[3], 0) && DigitIs(p[4], r / 16 % 16) && DigitIs(p[5], r % 16);
      assert p[2] == q[2] && p[3] == q[3] && p[4] == q[4] && p[5] == q[5] by {
        LowerDigit(p[2], 0);
        LowerDigit(p[3], 0);
        LowerDigit(p[4], r / 16);
        LowerDigit(p[5], r % 16);
      }
    }
  }

  lemma LowerDigit(c: char, v: nat)
    requires DigitIs(c, v) && !('A' <= c <= 'F')
    ensures c == LOWER[v]
  {
  }

  /** How each token is printed. */
  function TokenPrint(fp: Binary64, t: Token): string {
    match t
    case LBrace => "{"
    case RBrace => "}"
    case LBracket => "["
    case RBracket => "]"
    case Comma => ","
    case Colon => ":"
    case Error => ""
    case Literal(v) =>
      match v
      case Null => "null"
      case Bool(b) => if b then "true" else "false"
      case Num(x) => EsNumber(fp, x)
      case Str(x) => Quote(x)
  }

  function Concat(fp: Binary64, ts: seq<Token>): string {
    if ts == [] then "" else TokenPrint(fp, ts[0]) + Concat(fp, ts[1..])
  }

  lemma {:induction false} ConcatJoin(fp: Binary64, a: seq<Token>, b: seq<Token>)
    ensures Concat(fp, a + b) == Concat(fp, a) + Concat(fp, b)
  {
    hide TokenPrint;
    if a == [] {
      assert a + b == b;
    } else {
      assert (a + b)[1..] == a[1..] + b;
      ConcatJoin(fp, a[1..], b);
    }
  }

  lemma ConcatOne(fp: Binary64, t: Token)
    ensures Concat(fp, [t]) == TokenPrint(fp, t)
  {
    assert [t][1..] == [];
  }

  /** The canonical text is the tokens of the sorted value one after the other, nothing between them. */
  lemma PrintIsTokens(fp: Binary64, v: Value)
    requires NoDup(v)
    ensures Print(fp, v) == Concat(fp, Grammar.Flatten(Canon(v)))
  {
    hide Print, Concat, Grammar.Flatten, Canon, NoDup;
    PrintCanon(fp, v);
    CanonInOrder(v);
    InOrderTokens(fp, Canon(v));
  }

  lemma {:induction false} CanonInOrder(v: Value)
    requires NoDup(v)
    ensures InOrder(Canon(v))
    decreases v
  {
    match v
    case Arr(es) =>
      if es != [] { CanonElemAt(es, 0); }
      forall i | 0 <= i < |CanonElems(es)| ensures InOrder(CanonElems(es)[i]) {
        CanonElemAt(es, i);
        CanonInOrder(es[i]);
      }
    case Obj(ms) =>
      var cs := CanonMembers(ms);
      CanonMembersUnique(ms);
      SortSorts(cs);
      SortKeeps(cs);
      forall i | 0 <= i < |Sort(cs)| ensures InOrder(Sort(cs)[i].val) {
        SameElements(cs, Sort(cs), Sort(cs)[i]);
        var j :| 0 <= j < |cs| && cs[j] == Sort(cs)[i];
        CanonMemberAt(ms, j);
        CanonInOrder(ms[j].val);
      }
    case _ =>
  }

  lemma {:induction false} InOrderTokens(fp: Binary64, v: Value)
    requires InOrder(v)
    ensures Print(fp, v) == Concat(fp, Grammar.Flatten(v))
    decreases v, 1
  {
    hide Concat, Quote, EsNumber, Sort, Sorted;
    match v
    case Arr(es) =>
      ArrayTokens(fp, es);
      ConcatWrapped(fp, LBracket, Grammar.FlattenElems(es), RBracket);
    case Obj(ms) =>
      SortedRender(fp, ms);
      ObjectPrint(fp, ms);
      ConcatWrapped(fp, LBrace, Grammar.FlattenMembers(ms), RBrace);
    case _ => ConcatOne(fp, Literal(v));
  }

  lemma ConcatWrapped(fp: Binary64, l: Token, ts: seq<Token>, r: Token)
    ensures Concat(fp, [l] + ts + [r]) == TokenPrint(fp, l) + Concat(fp, ts) + TokenPrint(fp, r)
  {
    hide Concat, TokenPrint;
    ConcatJoin(fp, [l] + ts, [r]);
    ConcatJoin(fp, [l], ts);
    ConcatOne(fp, l);
    ConcatOne(fp, r);
  }

  lemma {:induction false} ArrayTokens(fp: Binary64, es: seq<Value>)
    requires forall i :: 0 <= i < |es| ==> InOrder(es[i])
    ensures ElemsText(fp, es) == Concat(fp, Grammar.FlattenElems(es))
    decreases es, 0
  {
    hide Concat, Print, Grammar.Flatten, TokenPrint;
    if es == [] {
      NothingConcat(fp);
    } else {
      InOrderTokens(fp, es[0]);
      CommaTail(fp, es);
      if |es| > 1 {
        ArrayTokens(fp, es[1..]);
        ConcatMiddle(fp, Grammar.Flatten(es[0]), Grammar.FlattenElems(es[1..]));
      }
    }
  }

  lemma NothingConcat(fp: Binary64)
    ensures Concat(fp, []) == ""
  {
  }

  lemma CommaTail(fp: Binary64, es: seq<Value>)
    requires es != []
    ensures ElemsText(fp, es) == Print(fp, es[0]) + (if |es| == 1 then "" else "," + ElemsText(fp, es[1..]))
  {
    hide Print;
    if |es| == 1 { assert es[1..] == []; }
    if |es| > 1 {
      var x, y := Print(fp, es[1..][0]), CommaElems(fp, es[1..][1..]);
      assert "," + x + y == "," + (x + y);
    }
  }

  lemma ConcatMiddle(fp: Binary64, a: seq<Token>, b: seq<Token>)
    ensures Concat(fp, a + [Comma] + b) == Concat(fp, a) + ("," + Concat(fp, b))
  {
    hide Concat;
    ConcatJoin(fp, a + [Comma], b);
    ConcatJoin(fp, a, [Comma]);
    ConcatOne(fp, Comma);
  }

  lemma EntryTail(es: seq<Entry<string>>)
    requires es != []
    ensures EntriesText(es) == EntryText(es[0]) + (if |es| == 1 then "" else "," + EntriesText(es[1..]))
  {
    hide EntryText;
    if |es| == 1 { assert es[1..] == []; }
    if |es| > 1 {
      var x, y := EntryText(es[1..][0]), CommaEntries(es[1..][1..]);
      assert "," + x + y == "," + (x + y);
    }
  }

  lemma {:induction false} ObjectPrint(fp: Binary64, ms: seq<Entry<Value>>)
    requires forall i :: 0 <= i < |ms| ==> InOrder(ms[i].val)
    ensures EntriesText(RenderMembers(fp, ms)) == Concat(fp, Grammar.FlattenMembers(ms))
    decreases ms, 0
  {
    hide Concat, Print, Grammar.Flatten, TokenPrint, EntryText, EntriesText;
    var r := RenderMembers(fp, ms);
    if ms == [] {
      NothingConcat(fp);
      NoEntriesText();
    } else {
      InOrderTokens(fp, ms[0].val);
      MemberConcat(fp, ms[0]);
      EntryTail(r);
      assert r[1..] == RenderMembers(fp, ms[1..]);
      if |ms| > 1 {
        ObjectPrint(fp, ms[1..]);
        ConcatMiddle(fp, Grammar.FlattenMember(ms[0]), Grammar.FlattenMembers(ms[1..]));
      }
    }
  }

  lemma NoEntriesText()
    ensures EntriesText([]) == ""
  {
  }

  lemma MemberConcat(fp: Binary64, m: Entry<Value>)
    requires Print(fp, m.val) == Concat(fp, Grammar.Flatten(m.val))
    ensures EntryText(Entry(m.name, Print(fp, m.val))) == Concat(fp, Grammar.FlattenMember(m))
  {
    hide Concat, Print, Grammar.Flatten, Quote;
    var a: seq<Token> := [Literal(Str(m.name))];
    assert Grammar.FlattenMember(m) == (a + [Colon]) + Grammar.Flatten(m.val);
    ConcatJoin(fp, a + [Colon], Grammar.Flatten(m.val));
    ConcatJoin(fp, a, [Colon]);
    ConcatOne(fp, Literal(Str(m.name)));
    ConcatOne(fp, Colon);
  }
}
