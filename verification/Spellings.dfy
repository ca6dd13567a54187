/** Two spellings of one assertion: the canonical text, and the text with its version number written 1.0. */
module Spellings {
  import opened Values
  import opened Decimals
  import opened Numbers
  import opened Lexing
  import Grammar
  import opened Bytes
  import opened Sorting
  import opened Printing
  import opened RoundTrip
  import opened Documents
  import opened Protocol
  import opened GoVerify
  import opened Validation
  import opened Revalidation
  import opened Relay
  import opened RelayRuns
  import opened Federation
  import opened Template
  import NumberFormats
  import Utf16

  // ---------------------------------------------------------------- tokens of the two spellings

  /** The members with a comma after each. */
  function FlattenLeading(ms: seq<Entry<Value>>): seq<Token> {
    if ms == [] then [] else Grammar.FlattenMember(ms[0]) + ([Comma] + FlattenLeading(ms[1..]))
  }

  lemma {:induction false} LeadingTokens(fp: Binary64, ms: seq<Entry<Value>>, rest: string)
    requires Faithful(fp) && ReadyMembers(fp, ms)
    ensures Tokens(fp, Leading(RenderMembers(fp, ms)) + rest) == FlattenLeading(ms) + Tokens(fp, rest)
  {
    hide Tokens, Faithful, Ready, Print, Grammar.Flatten, EntryText, Grammar.FlattenMember;
    var r := RenderMembers(fp, ms);
    if ms == [] {
      assert Leading(r) + rest == rest;
      assert [] + Tokens(fp, rest) == Tokens(fp, rest);
    } else {
      assert r[1..] == RenderMembers(fp, ms[1..]);
      var more := Leading(r[1..]) + rest;
      assert Leading(r) + rest == EntryText(r[0]) + ("," + more);
      MemberTokens(fp, ms[0], "," + more);
      TokensOfPunct(fp, ',', more);
      LeadingTokens(fp, ms[1..], rest);
      RegroupLeading(Grammar.FlattenMember(ms[0]), FlattenLeading(ms[1..]), Tokens(fp, rest));
    }
  }

  lemma RegroupLeading(a: seq<Token>, b: seq<Token>, ts: seq<Token>)
    ensures a + ([Comma] + (b + ts)) == (a + ([Comma] + b)) + ts
  {
  }

  /** The tokens of an object whose last member is written with this text. */
  lemma ObjectTokens(fp: Binary64, a: seq<Entry<Value>>, name: string, number: string)
    requires Faithful(fp) && ReadyMembers(fp, a) && Clean(name)
    requires Tokens(fp, number + "}") == [Literal(Num(1.0))] + Tokens(fp, "}")
    ensures Tokens(fp, "{" + (Leading(RenderMembers(fp, a)) + (Quote(name) + ":" + number)) + "}") ==
            [LBrace] + (FlattenLeading(a)
                + ([Literal(Str(name))] + ([Colon] + ([Literal(Num(1.0))] + Tokens(fp, "}")))))
  {
    hide Tokens, Faithful, Ready, Leading, Quote, FlattenLeading, RenderMembers;
    var l, last := Leading(RenderMembers(fp, a)), Quote(name) + (":" + (number + "}"));
    assert "{" + (l + (Quote(name) + ":" + number)) + "}" == "{" + (l + last);
    TokensOfPunct(fp, '{', l + last);
    LeadingTokens(fp, a, last);
    TokensOfQuoted(fp, name, ":" + (number + "}"));
    TokensOfPunct(fp, ':', number + "}");
  }

  lemma OneTokens(fp: Binary64, frac: string)
    requires Faithful(fp) && Representable(fp, 1.0) && (frac == "" || frac == "0")
    ensures Tokens(fp, ("1" + FracPart(frac)) + "}") == [Literal(Num(1.0))] + Tokens(fp, "}")
  {
    hide Tokens, ScanNumber, Magnitude, Faithful;
    var t := NumToken(false, "1", frac, 0);
    var s := ("1" + FracPart(frac)) + "}";
    assert NumText(t, false) + "}" == s;
    ScanWritten(t, false, "}");
    OneMagnitude(t);
    assert "}" == s[|s| - 1..];
    TokensOfOne(fp, s, Literal(Num(1.0)), "}");
  }

  lemma OneMagnitude(t: NumToken)
    requires t.whole == "1" && (t.frac == "" || t.frac == "0") && t.exp == 0
    ensures GoodToken(t) && Magnitude(t) == 1.0
  {
    assert Pow10(0) == 1.0 && Pow10(-1) == 0.1;
    var s := t.whole + t.frac;
    if t.frac == "" {
      assert s == "1";
      OneVal();
    } else {
      assert s == "10" && "10"[..1] == "1";
      OneVal();
    }
  }

  lemma OneVal()
    ensures DigitsVal("1") == 1
  {
    OneDigit('1');
    assert "1" == ['1'];
  }

  lemma PrintsOne(fp: Binary64)
    requires Faithful(fp) && Representable(fp, 1.0)
    ensures EsNumber(fp, 1.0) == "1"
  {
    hide EsBody, DecimalVal, NatStr;
    assert DigitsOk(fp, 1.0);
    assert 1.0 == 1.0.Floor as real && 1.0 < SAFE_INT as real;
    NumberFormats.SafeIntegerCorrect(fp.shortest(1.0), 1);
    assert NatStr(1) == "1" by { NatStrOne(); }
  }

  lemma NatStrOne()
    ensures NatStr(1) == "1"
  {
  }

  // ---------------------------------------------------------------- the version stands last

  lemma VersionGreatest(name: string)
    requires name in CORE
    ensures !Utf16.Less("v", name)
  {
    hide Utf16.Units, Utf16.LexLess;
    Utf16.LessByChar("v", name);
    if name == "v" { Utf16.LessTotal("v", "v"); }
  }

  lemma SplitLast(w: Members)
    requires Sorted(w) && Names(w) <= CORE && Field(w, "v") == Some(Num(1.0))
    ensures w != [] && w == w[..|w| - 1] + [Entry("v", Num(1.0))]
  {
    hide Utf16.Less;
    LookupSome(w, "v");
    var i :| 0 <= i < |w| && w[i] == Entry("v", Num(1.0));
    if i < |w| - 1 {
      assert w[|w| - 1].name in Names(w);
      VersionGreatest(w[|w| - 1].name);
    }
  }

  /** The members of a valid envelope in canonical order: the version number is the last. */
  lemma CanonicalSplit(c: Suite, env: Members)
    requires Parsed(c, env) && PyValidate(c, env).Valid?
    ensures var w := CanonObj(env);
            && ReadyMembers(c.fp, w) && Sorted(w) && w != [] && Representable(c.fp, 1.0)
            && w == w[..|w| - 1] + [Entry("v", Num(1.0))]
            && Canonical(c, env) == "{" + EntriesText(RenderMembers(c.fp, w)) + "}"
  {
    hide Print, PyValidate, Lookup, Names, Unsigned, Schema, RenderMembers, EntriesText, CanonObj, Sorted, Sort;
    var w := CanonObj(env);
    CanonReady(c.fp, Obj(env));
    CanonOfObj(env);
    assert Ready(c.fp, Obj(w));
    UniqueOf(env);
    VerdictsAgree(c, env);
    ValidNames(c, env);
    CanonNames(env);
    CanonField(env, "v");
    UnsignedLookup(env, "v");
    assert Sorted(w);
    SplitLast(w);
    assert ReadyMembers(c.fp, w);
    assert w[|w| - 1] == Entry("v", Num(1.0)) && Ready(c.fp, w[|w| - 1].val);
    PrintCanon(c.fp, Obj(env));
    SortedRender(c.fp, w);
    PrintObject(c, w);
  }

  lemma PrintObject(c: Suite, w: Members)
    ensures Print(c.fp, Obj(w)) == "{" + EntriesText(Sort(RenderMembers(c.fp, w))) + "}"
  {
  }

  lemma ValidNames(c: Suite, env: Members)
    requires ProtocolValid(c, env)
    ensures Names(env) <= CORE && Field(Unsigned(env), "v") == Some(Num(1.0))
  {
    hide Lookup, Identifiers, NonceAndCreated, Lengths, IdMatches, WorkDone, SignatureVerifies, Names, RefShape;
    forall k | k in Names(env) ensures k in CORE {
      NamesHas(env, k);
      if k != "id" && k != "sig" {
        UnsignedLookup(env, k);
        NamesHas(Unsigned(env), k);
      }
    }
  }

  // ---------------------------------------------------------------- the other spelling

  /** The text with the last `1` written `1.0`. */
  function SpelledOut(t: string): string
    requires t != ""
  {
    t[..|t| - 1] + ".0}"
  }

  /** The canonical text of a valid envelope and its other spelling denote the same object, with the same verdict;
      the other is two octets longer. */
  lemma SpelledOutAgrees(c: Suite, env: Members)
    requires Faithful(c.fp) && Parsed(c, env) && PyValidate(c, env).Valid?
    ensures var t := Canonical(c, env);
            && t != "" && ParseObject(c.fp, SpelledOut(t)) == ParseObject(c.fp, t)
            && ValidateText(c, SpelledOut(t)) == ValidateText(c, t)
            && ValidateText(c, t) == PyValidate(c, env)
            && Utf8Len(SpelledOut(t)) == Utf8Len(t) + 2
  {
    hide Faithful, Tokens, Print, PyValidate, Parsed, Ready, RenderMembers, EntriesText, Leading, Quote, Canonical,
         CanonObj,
         FlattenLeading, Utf8Len, Grammar.PDocument, Representable, EsNumber, Sorted;
    CanonicalSplit(c, env);
    TextParsesTo(c, env);
    var w, t := CanonObj(env), Canonical(c, env);
    var a := w[..|w| - 1];
    var l := Leading(RenderMembers(c.fp, a));
    RenderAppend(c.fp, a, Entry("v", Num(1.0)));
    EntriesAround(RenderMembers(c.fp, a), Entry("v", Print(c.fp, Num(1.0))), []);
    PrintsOne(c.fp);
    LastMember(c, l);
    assert RenderMembers(c.fp, a) + [Entry("v", "1")] + [] == RenderMembers(c.fp, w);
    assert t == "{" + (l + (Quote("v") + ":" + "1")) + "}";
    assert SpelledOut(t) == "{" + (l + (Quote("v") + ":" + "1.0")) + "}" by {
      SpellsOne("{" + (l + (Quote("v") + ":")));
    }
    OneTokens(c.fp, "");
    OneTokens(c.fp, "0");
    VersionClean();
    ObjectTokens(c.fp, a, "v", "1");
    ObjectTokens(c.fp, a, "v", "1.0");
    LongerByTwo(t);
  }

  lemma VersionClean()
    ensures Clean("v") && "1" + FracPart("") == "1" && "1" + FracPart("0") == "1.0"
  {
  }

  lemma LastMember(c: Suite, l: string)
    ensures Print(c.fp, Num(1.0)) == EsNumber(c.fp, 1.0) && CommaEntries([]) == ""
    ensures EntryText(Entry("v", "1")) == Quote("v") + ":" + "1"
  {
  }

  lemma SpellsOne(x: string)
    ensures (x + "1" + "}")[..|x| + 1] + ".0}" == x + "1.0" + "}"
  {
  }

  lemma LongerByTwo(t: string)
    requires t != "" && t[|t| - 1] == '}'
    ensures Utf8Len(SpelledOut(t)) == Utf8Len(t) + 2
  {
    hide Utf8Len;
    var x := t[..|t| - 1];
    assert t == x + "}";
    Utf8LenConcat(x, "}");
    Utf8LenConcat(x, ".0}");
    assert Utf8Len("}") == 1 && Utf8Len(".0}") == 3 by { ShortLengths(); }
  }

  lemma ShortLengths()
    ensures Utf8Len("}") == 1 && Utf8Len(".0}") == 3
  {
    assert ".0}"[1..] == "0}" && "0}"[1..] == "}" && "}"[1..] == "";
  }

  lemma TextParsesTo(c: Suite, env: Members)
    requires Faithful(c.fp) && Parsed(c, env) && PyValidate(c, env).Valid?
    ensures ValidateText(c, Canonical(c, env)) == PyValidate(c, env)
  {
    hide Faithful, Parse, PyValidate, NoDup, Sound, Print, Canon, CanonObj;
    ParseOfPrint(c.fp, Obj(env));
    CanonOfObj(env);
    CanonValid(c, env);
  }

  // ---------------------------------------------------------------- a record limit between the two

  /** With the record limit between the two lengths, a source that serves the longer spelling first keeps the
      assertion away from a destination that would take the shorter one. */
  lemma SpellingLost(c: Suite, cfg: Config, db: Db, env: Members, net: nat -> Link)
    requires Faithful(c.fp) && Parsed(c, env) && PyValidate(c, env).Valid? && Arrives(net)
    requires Judge(c, cfg, Canonical(c, env)).Admitted? && cfg.maxRecord <= Utf8Len(Canonical(c, env)) + 1
    requires !HasId(db.rows, PyValidate(c, env).id)
    ensures var t, id := Canonical(c, env), PyValidate(c, env).id;
            && t != ""
            && Submitted(c, cfg, [SpelledOut(t), t], id)
            && !HasId(Steps(c, cfg, db, [SpelledOut(t), t], net).db.rows, id)
  {
    hide Faithful, Parsed, PyValidate, Canonical, Utf8Len, Steps, HasId, Submitted, Arrives, SpelledOut, ParseObject,
         Permits, Derive;
    SpelledOutAgrees(c, env);
    var t := Canonical(c, env);
    SecondTextLost(c, cfg, db, SpelledOut(t), t, net);
  }
}
