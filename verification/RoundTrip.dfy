/** Parsing the canonical text of a value gives the value back. */
module RoundTrip {
  import opened Values
  import opened Decimals
  import opened Numbers
  import opened Lexing
  import opened Grammar
  import opened Scanners
  import opened Sorting
  import opened Printing
  import opened Printers
  import Utf16

  // ---------------------------------------------------------------- strings

  lemma UnescapeControl(c: char, x: string)
    requires c as int < 0x20
    ensures UnescapeU("00" + [HexDigit(c as int / 16), HexDigit(c as int % 16)] + x) == Escape(c, 5)
  {
    var s := "00" + [HexDigit(c as int / 16), HexDigit(c as int % 16)] + x;
    assert s[0] == '0' && s[1] == '0' && s[2] == HexDigit(c as int / 16) && s[3] == HexDigit(c as int % 16);
    HexDigitVal(c as int / 16);
    HexDigitVal(c as int % 16);
  }

  lemma HexDigitVal(d: nat)
    requires d < 16
    ensures IsHex(HexDigit(d)) && HexVal(HexDigit(d)) == d
  {
  }

  /** Every escape is read back as the character it was made for. */
  lemma UnescapeEscaped(c: char, x: string)
    requires EscapeChar(c) != [c]
    ensures var e := EscapeChar(c);
            |e| > 0 && e[0] == '\\' && Unescape(e[1..] + x) == Escape(c, |e| - 1)
  {
    hide UnescapeU;
    var e := EscapeChar(c);
    var t := e[1..] + x;
    assert t[0] == e[1];
    if e[1] == 'u' {
      var d := "00" + [HexDigit(c as int / 16), HexDigit(c as int % 16)];
      assert e == "\\u" + d && t[1..] == d + x;
      UnescapeControl(c, x);
    }
  }

  lemma RawEscapedChar(c: char, x: string)
    ensures RawString(EscapeChar(c) + x) == Prepend([c], RawString(x))
  {
    hide Unescape;
    var e := EscapeChar(c);
    var s := e + x;
    if e == [c] {
      assert s[0] == c && s[1..] == x;
    } else {
      UnescapeEscaped(c, x);
      assert s[0] == '\\' && s[1..] == e[1..] + x;
      assert s[1..][|e| - 1..] == x;
    }
  }

  lemma {:induction false} RawEscaped(t: string, rest: string)
    ensures RawString(EscapeAll(t) + ("\"" + rest)) == String(t, rest)
  {
    hide EscapeChar, RawString;
    if t == "" {
      assert EscapeAll(t) + ("\"" + rest) == "\"" + rest;
      ClosingQuote(rest);
    } else {
      var x := EscapeAll(t[1..]) + ("\"" + rest);
      assert EscapeAll(t) + ("\"" + rest) == EscapeChar(t[0]) + x;
      RawEscaped(t[1..], rest);
      RawEscapedChar(t[0], x);
      assert [t[0]] + t[1..] == t;
    }
  }

  lemma ClosingQuote(rest: string)
    ensures RawString("\"" + rest) == String("", rest)
  {
    assert ("\"" + rest)[1..] == rest;
  }

  lemma LexQuoted(fp: Binary64, t: string, rest: string)
    requires Clean(t)
    ensures LexOne(fp, Quote(t) + rest) == Tok(Literal(Str(t)), rest)
  {
    hide RawString, LexOne;
    var s := Quote(t) + rest;
    assert s[0] == '"' && s[1..] == EscapeAll(t) + ("\"" + rest);
    RawEscaped(t, rest);
    LexQuote(fp, s);
  }

  // ---------------------------------------------------------------- one token

  lemma TokensOfOne(fp: Binary64, s: string, t: Token, rest: string)
    requires s != "" && !IsWs(s[0]) && LexOne(fp, s) == Tok(t, rest)
    ensures Tokens(fp, s) == [t] + Tokens(fp, rest)
  {
    hide LexOne;
    assert s[0..] == s;
    TokenAt(fp, s, 0);
  }

  lemma TokensOfPunct(fp: Binary64, c: char, rest: string)
    requires Punct(c).Some?
    ensures Tokens(fp, [c] + rest) == [Punct(c).value] + Tokens(fp, rest)
  {
    hide LexOne, Tokens;
    var s := [c] + rest;
    assert s[0..] == s && s[1..] == rest;
    PunctAt(fp, s, 0);
  }

  lemma TokensOfQuoted(fp: Binary64, t: string, rest: string)
    requires Clean(t)
    ensures Tokens(fp, Quote(t) + rest) == [Literal(Str(t))] + Tokens(fp, rest)
  {
    hide LexOne, Tokens;
    LexQuoted(fp, t, rest);
    TokensOfOne(fp, Quote(t) + rest, Literal(Str(t)), rest);
  }

  lemma TokensOfNumber(fp: Binary64, x: real, rest: string)
    requires Faithful(fp) && Representable(fp, x) && Stops(rest)
    ensures Tokens(fp, EsNumber(fp, x) + rest) == [Literal(Num(x))] + Tokens(fp, rest)
  {
    hide ScanNumber, EsNumber, Faithful, Tokens, NumberOf;
    EsNumberReadsBack(fp, x, rest);
    EsNumberNonEmpty(fp, x);
    var s := EsNumber(fp, x) + rest;
    NumberStart(s);
    TokensOfOne(fp, s, Literal(Num(x)), rest);
  }

  lemma NumberStart(s: string)
    requires ScanNumber(s).Number?
    ensures s != "" && (s[0] == '-' || IsDigit(s[0]))
  {
    hide ScanFrac, Span;
  }

  lemma TokensOfWord(fp: Binary64, word: string, v: Scalar, rest: string)
    requires (word, v) in {("true", Bool(true)), ("false", Bool(false)), ("null", Null)}
    ensures Tokens(fp, word + rest) == [Literal(v)] + Tokens(fp, rest)
  {
    hide Tokens, LexString, LexNumber;
    var s := word + rest;
    assert s[0] == word[0] && word <= s && s[|word|..] == rest;
    TokensOfOne(fp, s, Literal(v), rest);
  }

  // ---------------------------------------------------------------- whole values

  /** What the parser guarantees of its values: no noncharacters, no number outside binary64. */
  ghost predicate Sound(fp: Binary64, v: Value)
    decreases v
  {
    match v
    case Num(n) => Representable(fp, n)
    case Str(s) => Clean(s)
    case Arr(es) => forall i :: 0 <= i < |es| ==> Sound(fp, es[i])
    case Obj(ms) => forall i :: 0 <= i < |ms| ==> Clean(ms[i].name) && Sound(fp, ms[i].val)
    case _ => true
  }

  /** Every object inside is sorted. */
  ghost predicate InOrder(v: Value)
    decreases v
  {
    match v
    case Arr(es) => forall i :: 0 <= i < |es| ==> InOrder(es[i])
    case Obj(ms) => Sorted(ms) && forall i :: 0 <= i < |ms| ==> InOrder(ms[i].val)
    case _ => true
  }

  ghost predicate Ready(fp: Binary64, v: Value) { Sound(fp, v) && InOrder(v) }

  ghost predicate ReadyMembers(fp: Binary64, ms: seq<Entry<Value>>) {
    forall i :: 0 <= i < |ms| ==> Clean(ms[i].name) && Ready(fp, ms[i].val)
  }

  lemma {:induction false} TokensOfPrint(fp: Binary64, v: Value, rest: string)
    requires Faithful(fp) && Ready(fp, v) && Stops(rest)
    ensures Tokens(fp, Print(fp, v) + rest) == Flatten(v) + Tokens(fp, rest)
    decreases v, 1
  {
    hide Tokens, Faithful, EsNumber, Quote, Clean;
    match v
    case Null => TokensOfWord(fp, "null", Null, rest);
    case Bool(b) => TokensOfWord(fp, if b then "true" else "false", Bool(b), rest);
    case Num(n) => TokensOfNumber(fp, n, rest);
    case Str(s) => TokensOfQuoted(fp, s, rest);
    case Arr(es) => TokensOfArray(fp, es, rest);
    case Obj(ms) => TokensOfObject(fp, ms, rest);
  }

  lemma {:induction false} TokensOfArray(fp: Binary64, es: seq<Value>, rest: string)
    requires Faithful(fp) && forall i :: 0 <= i < |es| ==> Ready(fp, es[i])
    ensures Tokens(fp, "[" + ElemsText(fp, es) + "]" + rest) ==
            [LBracket] + FlattenElems(es) + [RBracket] + Tokens(fp, rest)
    decreases es, 0
  {
    hide Tokens, Faithful, Ready, Print, Flatten;
    var tail := "]" + rest;
    var body := ElemsText(fp, es) + tail;
    assert "[" + ElemsText(fp, es) + "]" + rest == "[" + body;
    TokensOfPunct(fp, '[', body);
    TokensOfPunct(fp, ']', rest);
    if es == [] {
      assert body == tail;
      assert [LBracket] + [] + [RBracket] + Tokens(fp, rest) == [LBracket] + ([RBracket] + Tokens(fp, rest));
    } else {
      CommaTokens(fp, es[1..], tail);
      var more := CommaElems(fp, es[1..]) + tail;
      assert body == Print(fp, es[0]) + more;
      TokensOfPrint(fp, es[0], more);
      JoinElem(es, Tokens(fp, rest));
      RegroupArray(Flatten(es[0]), es[1..], FlattenElems(es), Tokens(fp, rest));
    }
  }

  lemma RegroupArray(a: seq<Token>, more: seq<Value>, all: seq<Token>, ts: seq<Token>)
    requires all + [RBracket] + ts ==
            a + (if more == [] then [RBracket] + ts else [Comma] + (FlattenElems(more) + [RBracket] + ts))
    ensures [LBracket] + (a + ((if more == [] then [] else [Comma] + FlattenElems(more)) + ([RBracket] + ts))) ==
            [LBracket] + all + [RBracket] + ts
  {
    hide FlattenElems;
    assert [LBracket] + all + [RBracket] + ts == [LBracket] + (all + [RBracket] + ts);
    if more == [] {
      assert [] + ([RBracket] + ts) == [RBracket] + ts;
    } else {
      var b := FlattenElems(more);
      assert ([Comma] + b) + ([RBracket] + ts) == [Comma] + (b + [RBracket] + ts);
    }
  }

  /** The elements after the first, each behind its comma. */
  lemma {:induction false} CommaTokens(fp: Binary64, es: seq<Value>, tail: string)
    requires Faithful(fp) && (forall i :: 0 <= i < |es| ==> Ready(fp, es[i])) && Stops(tail)
    ensures Stops(CommaElems(fp, es) + tail)
    ensures Tokens(fp, CommaElems(fp, es) + tail) ==
            (if es == [] then [] else [Comma] + FlattenElems(es)) + Tokens(fp, tail)
    decreases es, 0
  {
    hide Tokens, Faithful, Ready, Print, Flatten;
    if es == [] {
      assert CommaElems(fp, es) + tail == tail;
      assert [] + Tokens(fp, tail) == Tokens(fp, tail);
    } else {
      CommaTokens(fp, es[1..], tail);
      var more := CommaElems(fp, es[1..]) + tail;
      var body := Print(fp, es[0]) + more;
      assert CommaElems(fp, es) + tail == "," + body;
      TokensOfPunct(fp, ',', body);
      TokensOfPrint(fp, es[0], more);
      RegroupComma(Flatten(es[0]), if |es| == 1 then [] else [Comma] + FlattenElems(es[1..]), Tokens(fp, tail));
      SplitElems(es);
    }
  }

  lemma SplitElems(es: seq<Value>)
    requires es != []
    ensures FlattenElems(es) == Flatten(es[0]) + (if |es| == 1 then [] else [Comma] + FlattenElems(es[1..]))
  {
    hide Flatten;
    if |es| == 1 {
      assert Flatten(es[0]) + [] == Flatten(es[0]);
    } else {
      var a, b := Flatten(es[0]), FlattenElems(es[1..]);
      assert a + [Comma] + b == a + ([Comma] + b);
    }
  }

  lemma RegroupComma(a: seq<Token>, b: seq<Token>, c: seq<Token>)
    ensures [Comma] + (a + (b + c)) == ([Comma] + (a + b)) + c
  {
  }

  lemma SortedRender(fp: Binary64, ms: seq<Entry<Value>>)
    requires Sorted(ms)
    ensures Sort(RenderMembers(fp, ms)) == RenderMembers(fp, ms)
  {
    var r := RenderMembers(fp, ms);
    forall i, j | 0 <= i < j < |r| ensures Utf16.Less(r[i].name, r[j].name) {
      RenderAt(fp, ms, i);
      RenderAt(fp, ms, j);
    }
    SortOfSorted(r);
  }

  lemma {:induction false} TokensOfObject(fp: Binary64, ms: seq<Entry<Value>>, rest: string)
    requires Faithful(fp) && Sorted(ms) && ReadyMembers(fp, ms)
    ensures Tokens(fp, "{" + EntriesText(Sort(RenderMembers(fp, ms))) + "}" + rest) ==
            [LBrace] + FlattenMembers(ms) + [RBrace] + Tokens(fp, rest)
    decreases ms, 0
  {
    hide Tokens, Faithful, Ready, Print, Flatten, Sorted, EntryText;
    SortedRender(fp, ms);
    var r := RenderMembers(fp, ms);
    var tail := "}" + rest;
    var body := EntriesText(r) + tail;
    assert "{" + EntriesText(r) + "}" + rest == "{" + body;
    TokensOfPunct(fp, '{', body);
    TokensOfPunct(fp, '}', rest);
    if ms == [] {
      assert body == tail;
      assert [LBrace] + [] + [RBrace] + Tokens(fp, rest) == [LBrace] + ([RBrace] + Tokens(fp, rest));
    } else {
      CommaMembers(fp, ms[1..], tail);
      assert r[1..] == RenderMembers(fp, ms[1..]);
      var more := CommaEntries(r[1..]) + tail;
      assert body == EntryText(r[0]) + more;
      MemberTokens(fp, ms[0], more);
      SplitMembers(ms);
      var others := if |ms| == 1 then [] else [Comma] + FlattenMembers(ms[1..]);
      RegroupObject(FlattenMember(ms[0]), others, Tokens(fp, rest));
    }
  }

  lemma RegroupObject(a: seq<Token>, b: seq<Token>, ts: seq<Token>)
    ensures [LBrace] + (a + (b + ([RBrace] + ts))) == [LBrace] + (a + b) + [RBrace] + ts
  {
  }

  lemma SplitMembers(ms: seq<Entry<Value>>)
    requires ms != []
    ensures FlattenMembers(ms) == FlattenMember(ms[0]) + (if |ms| == 1 then [] else [Comma] + FlattenMembers(ms[1..]))
  {
    hide FlattenMember;
    if |ms| == 1 {
      assert FlattenMember(ms[0]) + [] == FlattenMember(ms[0]);
    } else {
      var a, b := FlattenMember(ms[0]), FlattenMembers(ms[1..]);
      assert a + [Comma] + b == a + ([Comma] + b);
    }
  }

  lemma {:induction false} MemberTokens(fp: Binary64, m: Entry<Value>, rest: string)
    requires Faithful(fp) && Clean(m.name) && Ready(fp, m.val) && Stops(rest)
    ensures Tokens(fp, EntryText(Entry(m.name, Print(fp, m.val))) + rest) == FlattenMember(m) + Tokens(fp, rest)
    decreases m, 1
  {
    hide Tokens, Faithful, Ready, Print, Flatten, Quote, Clean;
    var body := Print(fp, m.val) + rest;
    assert EntryText(Entry(m.name, Print(fp, m.val))) + rest == Quote(m.name) + (":" + body);
    TokensOfQuoted(fp, m.name, ":" + body);
    TokensOfPunct(fp, ':', body);
    TokensOfPrint(fp, m.val, rest);
    RegroupMemberTokens(m.name, Flatten(m.val), Tokens(fp, rest));
  }

  lemma RegroupMemberTokens(name: string, a: seq<Token>, ts: seq<Token>)
    ensures [Literal(Str(name))] + ([Colon] + (a + ts)) == ([Literal(Str(name)), Colon] + a) + ts
  {
  }

  lemma {:induction false} CommaMembers(fp: Binary64, ms: seq<Entry<Value>>, tail: string)
    requires Faithful(fp) && ReadyMembers(fp, ms) && Stops(tail)
    ensures Stops(CommaEntries(RenderMembers(fp, ms)) + tail)
    ensures Tokens(fp, CommaEntries(RenderMembers(fp, ms)) + tail) ==
            (if ms == [] then [] else [Comma] + FlattenMembers(ms)) + Tokens(fp, tail)
    decreases ms, 0
  {
    hide Tokens, Faithful, Ready, Print, Flatten, EntryText, Clean;
    var r := RenderMembers(fp, ms);
    if ms == [] {
      assert CommaEntries(r) + tail == tail;
      assert [] + Tokens(fp, tail) == Tokens(fp, tail);
    } else {
      CommaMembers(fp, ms[1..], tail);
      assert r[1..] == RenderMembers(fp, ms[1..]);
      var more := CommaEntries(r[1..]) + tail;
      var body := EntryText(r[0]) + more;
      assert CommaEntries(r) + tail == "," + body;
      TokensOfPunct(fp, ',', body);
      MemberTokens(fp, ms[0], more);
      RegroupComma(FlattenMember(ms[0]), if |ms| == 1 then [] else [Comma] + FlattenMembers(ms[1..]), Tokens(fp, tail));
      SplitMembers(ms);
    }
  }

  // ---------------------------------------------------------------- what the parser can return

  ghost predicate SoundToken(fp: Binary64, t: Token) { t.Literal? ==> Sound(fp, t.v) }

  lemma NumberSound(fp: Binary64, t: NumToken)
    requires Faithful(fp) && GoodToken(t)
    ensures NumberOf(fp, t).Some? ==> Representable(fp, NumberOf(fp, t).value)
  {
    assert RoundsOk(fp, if t.neg then -Magnitude(t) else Magnitude(t));
  }

  lemma LexSound(fp: Binary64, s: string)
    requires Faithful(fp) && s != ""
    ensures LexOne(fp, s).Tok? ==> SoundToken(fp, LexOne(fp, s).t)
  {
    hide ScanNumber, RawString, NumberOf;
    if s[0] == '-' || IsDigit(s[0]) {
      ScanNumberShape(s);
      if ScanNumber(s).Number? { NumberSound(fp, ScanNumber(s).tok); }
    }
  }

  lemma {:induction false} TokensSound(fp: Binary64, s: string)
    requires Faithful(fp)
    ensures forall i :: 0 <= i < |Tokens(fp, s)| ==> SoundToken(fp, Tokens(fp, s)[i])
    decreases |s|
  {
    hide LexOne, SoundToken, Faithful;
    var t := SkipWs(s);
    if t != "" {
      LexSound(fp, t);
      var r := LexOne(fp, t);
      if r.Tok? { TokensSound(fp, r.rest); } else { ErrorSound(fp); }
    }
  }

  lemma ErrorSound(fp: Binary64)
    ensures SoundToken(fp, Error)
  {
  }

  ghost predicate AllSound(fp: Binary64, ts: seq<Token>) { forall i :: 0 <= i < |ts| ==> SoundToken(fp, ts[i]) }

  lemma PartSound(fp: Binary64, a: seq<Token>, b: seq<Token>)
    requires AllSound(fp, a + b)
    ensures AllSound(fp, a) && AllSound(fp, b)
  {
    hide SoundToken;
    forall i | 0 <= i < |a| ensures SoundToken(fp, a[i]) { assert (a + b)[i] == a[i]; }
    forall i | 0 <= i < |b| ensures SoundToken(fp, b[i]) { assert (a + b)[|a| + i] == b[i]; }
  }

  lemma {:induction false} FlattenSound(fp: Binary64, v: Value)
    requires AllSound(fp, Flatten(v))
    ensures Sound(fp, v)
    decreases v, 1
  {
    hide AllSound, FlattenElems, FlattenMembers;
    match v
    case Arr(es) =>
      PartSound(fp, [LBracket] + FlattenElems(es), [RBracket]);
      PartSound(fp, [LBracket], FlattenElems(es));
      ElemsSound(fp, es);
    case Obj(ms) =>
      PartSound(fp, [LBrace] + FlattenMembers(ms), [RBrace]);
      PartSound(fp, [LBrace], FlattenMembers(ms));
      MembersSound(fp, ms);
    case _ => OneSound(fp, v);
  }

  lemma OneSound(fp: Binary64, v: Scalar)
    requires AllSound(fp, [Literal(v)])
    ensures Sound(fp, v)
  {
    assert SoundToken(fp, [Literal(v)][0]);
  }

  lemma {:induction false} ElemsSound(fp: Binary64, es: seq<Value>)
    requires AllSound(fp, FlattenElems(es))
    ensures forall i :: 0 <= i < |es| ==> Sound(fp, es[i])
    decreases es, 0
  {
    hide AllSound, Flatten, Sound;
    if es != [] {
      SplitElems(es);
      var more := if |es| == 1 then [] else [Comma] + FlattenElems(es[1..]);
      PartSound(fp, Flatten(es[0]), more);
      FlattenSound(fp, es[0]);
      if |es| > 1 {
        PartSound(fp, [Comma], FlattenElems(es[1..]));
        ElemsSound(fp, es[1..]);
      }
      forall i | 0 <= i < |es| ensures Sound(fp, es[i]) { if i > 0 { assert es[i] == es[1..][i - 1]; } }
    }
  }

  lemma {:induction false} MembersSound(fp: Binary64, ms: seq<Entry<Value>>)
    requires AllSound(fp, FlattenMembers(ms))
    ensures forall i :: 0 <= i < |ms| ==> Clean(ms[i].name) && Sound(fp, ms[i].val)
    decreases ms, 0
  {
    hide AllSound, Flatten, Sound, Clean;
    if ms != [] {
      SplitMembers(ms);
      var more := if |ms| == 1 then [] else [Comma] + FlattenMembers(ms[1..]);
      PartSound(fp, FlattenMember(ms[0]), more);
      PartSound(fp, [Literal(Str(ms[0].name)), Colon], Flatten(ms[0].val));
      NameSound(fp, ms[0].name);
      FlattenSound(fp, ms[0].val);
      if |ms| > 1 {
        PartSound(fp, [Comma], FlattenMembers(ms[1..]));
        MembersSound(fp, ms[1..]);
      }
      forall i | 0 <= i < |ms| ensures Clean(ms[i].name) && Sound(fp, ms[i].val) {
        if i > 0 { assert ms[i] == ms[1..][i - 1]; }
      }
    }
  }

  lemma NameSound(fp: Binary64, name: string)
    requires AllSound(fp, [Literal(Str(name)), Colon])
    ensures Clean(name)
  {
    assert SoundToken(fp, [Literal(Str(name)), Colon][0]);
  }

  // ---------------------------------------------------------------- normal forms are ready to print

  lemma {:induction false} CanonReady(fp: Binary64, v: Value)
    requires Sound(fp, v) && NoDup(v)
    ensures Ready(fp, Canon(v))
    decreases v
  {
    match v
    case Arr(es) =>
      forall i | 0 <= i < |CanonElems(es)| ensures Ready(fp, CanonElems(es)[i]) {
        if es != [] { CanonElemAt(es, 0); CanonElemAt(es, i); CanonReady(fp, es[i]); }
      }
    case Obj(ms) =>
      var a := CanonMembers(ms);
      CanonMembersUnique(ms);
      SortSorts(a);
      SortKeeps(a);
      forall i | 0 <= i < |Sort(a)| ensures Clean(Sort(a)[i].name) && Ready(fp, Sort(a)[i].val) {
        SameElements(a, Sort(a), Sort(a)[i]);
        var j :| 0 <= j < |a| && a[j] == Sort(a)[i];
        CanonMemberAt(ms, j);
        CanonReady(fp, ms[j].val);
      }
    case _ =>
  }

  // ---------------------------------------------------------------- the theorems

  /** Parsing as the grammar defines it. */
  function Parse(fp: Binary64, s: string): Option<Value> { PDocument(Tokens(fp, s)) }

  lemma ParsedValues(fp: Binary64, s: string)
    requires Faithful(fp) && Parse(fp, s).Some?
    ensures var v := Parse(fp, s).value; NoDup(v) && Sound(fp, v)
  {
    hide Tokens, Flatten, PDocument;
    var v := Parse(fp, s).value;
    DocumentIff(Tokens(fp, s), v);
    TokensSound(fp, s);
    FlattenSound(fp, v);
  }

  /** The canonical text of a value parses to that value, its members in canonical order. */
  lemma ParseOfPrint(fp: Binary64, v: Value)
    requires Faithful(fp) && Sound(fp, v) && NoDup(v)
    ensures Parse(fp, Print(fp, v)) == Some(Canon(v))
  {
    hide Tokens, Flatten, PDocument, Print, Faithful, Sound, NoDup, Canon, Ready;
    var w := Canon(v);
    CanonReady(fp, v);
    CanonNoDup(v);
    PrintCanon(fp, v);
    TokensOfPrint(fp, w, "");
    assert Print(fp, w) + "" == Print(fp, w);
    assert Tokens(fp, "") == [] by { NoTokens(fp, ""); }
    assert Flatten(w) + [] == Flatten(w);
    DocumentIff(Tokens(fp, Print(fp, w)), w);
  }

  /** For every text the parser accepts: printing and parsing again gives the same value up to member
      order, and printing that gives the same text. */
  lemma RoundTripOfText(fp: Binary64, s: string)
    requires Faithful(fp) && Parse(fp, s).Some?
    ensures var v := Parse(fp, s).value; var again := Parse(fp, Print(fp, v));
            again.Some? && SameValue(v, again.value) && Print(fp, again.value) == Print(fp, v)
  {
    hide Parse, Print, Faithful, Sound, NoDup, Canon, SameValue;
    ParsedValues(fp, s);
    var v := Parse(fp, s).value;
    ParseOfPrint(fp, v);
    CanonNoDup(v);
    CanonIdempotent(v);
    CanonDecidesSame(v, Canon(v));
    PrintCanon(fp, v);
  }

  /** Canonical text identifies a value exactly up to member order. */
  lemma PrintInjective(fp: Binary64, v: Value, w: Value)
    requires Faithful(fp) && Sound(fp, v) && NoDup(v) && Sound(fp, w) && NoDup(w)
    ensures Print(fp, v) == Print(fp, w) <==> SameValue(v, w)
  {
    hide Parse, Print, Faithful, Sound, NoDup, Canon, SameValue;
    ParseOfPrint(fp, v);
    ParseOfPrint(fp, w);
    CanonDecidesSame(v, w);
    if SameValue(v, w) { SameValueSameText(fp, v, w); }
  }
}
