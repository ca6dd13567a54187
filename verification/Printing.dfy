/** The canonical text of a value (RFC 8785), defined by recursion. */
module Printing {
  import opened Values
  import opened Decimals
  import opened Numbers
  import opened Sorting
  import Utf16

  // ---------------------------------------------------------------- strings

  const HEX := "0123456789abcdef"

  function HexDigit(d: nat): char requires d < 16 { HEX[d] }

  /** Section 3.2.2.2: short escapes, lower-case \u00xx for the other controls, the rest as is. */
  function EscapeChar(c: char): string {
    if c == '"' then "\\\""
    else if c == '\\' then "\\\\"
    else if c == '\U{08}' then "\\b"
    else if c == '\U{0C}' then "\\f"
    else if c == '\n' then "\\n"
    else if c == '\r' then "\\r"
    else if c == '\t' then "\\t"
    else if c as int < 0x20 then "\\u00" + [HexDigit(c as int / 16), HexDigit(c as int % 16)]
    else [c]
  }

  function EscapeAll(s: string): string { if s == "" then "" else EscapeChar(s[0]) + EscapeAll(s[1..]) }

  function Quote(s: string): string { "\"" + EscapeAll(s) + "\"" }

  // ---------------------------------------------------------------- values

  function Print(fp: Binary64, v: Value): string
    decreases v
  {
    match v
    case Null => "null"
    case Bool(b) => if b then "true" else "false"
    case Num(n) => EsNumber(fp, n)
    case Str(s) => Quote(s)
    case Arr(es) => "[" + ElemsText(fp, es) + "]"
    case Obj(ms) => "{" + EntriesText(Sort(RenderMembers(fp, ms))) + "}"
  }

  function ElemsText(fp: Binary64, es: seq<Value>): string
    decreases es
  {
    if es == [] then "" else Print(fp, es[0]) + CommaElems(fp, es[1..])
  }

  function CommaElems(fp: Binary64, es: seq<Value>): string
    decreases es
  {
    if es == [] then "" else "," + Print(fp, es[0]) + CommaElems(fp, es[1..])
  }

  /** Every member with its value already printed, in source order. */
  function RenderMembers(fp: Binary64, ms: seq<Entry<Value>>): (r: seq<Entry<string>>)
    ensures |r| == |ms|
    decreases ms
  {
    if ms == [] then [] else [Entry(ms[0].name, Print(fp, ms[0].val))] + RenderMembers(fp, ms[1..])
  }

  function EntryText(e: Entry<string>): string { Quote(e.name) + ":" + e.val }

  function EntriesText(es: seq<Entry<string>>): string {
    if es == [] then "" else EntryText(es[0]) + CommaEntries(es[1..])
  }

  function CommaEntries(es: seq<Entry<string>>): string {
    if es == [] then "" else "," + EntryText(es[0]) + CommaEntries(es[1..])
  }

  // ---------------------------------------------------------------- member order does not matter

  lemma {:induction false} RenderInsert(fp: Binary64, e: Entry<Value>, es: seq<Entry<Value>>)
    ensures RenderMembers(fp, Insert(e, es)) == Insert(Entry(e.name, Print(fp, e.val)), RenderMembers(fp, es))
  {
    hide Print;
    var r := RenderMembers(fp, es);
    if es == [] || Utf16.Less(e.name, es[0].name) {
      assert ([e] + es)[1..] == es;
    } else {
      RenderInsert(fp, e, es[1..]);
      assert ([es[0]] + Insert(e, es[1..]))[1..] == Insert(e, es[1..]);
      assert r[1..] == RenderMembers(fp, es[1..]);
    }
  }

  /** Sorting the members and printing them commute. */
  lemma {:induction false} RenderSort(fp: Binary64, es: seq<Entry<Value>>)
    ensures RenderMembers(fp, Sort(es)) == Sort(RenderMembers(fp, es))
  {
    hide Print;
    if es != [] {
      RenderSort(fp, es[1..]);
      RenderInsert(fp, es[0], Sort(es[1..]));
      assert RenderMembers(fp, es)[1..] == RenderMembers(fp, es[1..]);
    }
  }

  lemma {:induction false} RenderAt(fp: Binary64, es: seq<Entry<Value>>, i: nat)
    requires i < |es|
    ensures RenderMembers(fp, es)[i] == Entry(es[i].name, Print(fp, es[i].val))
  {
    hide Print;
    if i > 0 { RenderAt(fp, es[1..], i - 1); }
  }

  lemma RenderUnique(fp: Binary64, es: seq<Entry<Value>>)
    requires UniqueNames(es)
    ensures UniqueNames(RenderMembers(fp, es))
  {
    var r := RenderMembers(fp, es);
    forall i, j | 0 <= i < j < |r| ensures r[i].name != r[j].name {
      RenderAt(fp, es, i);
      RenderAt(fp, es, j);
    }
  }

  /** A value and its normal form have the same text. */
  lemma {:induction false} PrintCanon(fp: Binary64, v: Value)
    requires NoDup(v)
    ensures Print(fp, Canon(v)) == Print(fp, v)
    decreases v, 1
  {
    match v
    case Arr(es) => ElemsCanon(fp, es);
    case Obj(ms) => MembersCanon(fp, ms);
    case _ =>
  }

  lemma {:induction false} ElemsCanon(fp: Binary64, es: seq<Value>)
    requires forall i :: 0 <= i < |es| ==> NoDup(es[i])
    ensures ElemsText(fp, CanonElems(es)) == ElemsText(fp, es)
    ensures CommaElems(fp, CanonElems(es)) == CommaElems(fp, es)
    decreases es, 0
  {
    hide NoDup, Canon, Print;
    if es != [] {
      PrintCanon(fp, es[0]);
      ElemsCanon(fp, es[1..]);
      assert CanonElems(es)[1..] == CanonElems(es[1..]);
    }
  }

  lemma {:induction false} MembersCanon(fp: Binary64, ms: seq<Entry<Value>>)
    requires UniqueNames(ms) && forall i :: 0 <= i < |ms| ==> NoDup(ms[i].val)
    ensures Sort(RenderMembers(fp, Sort(CanonMembers(ms)))) == Sort(RenderMembers(fp, ms))
    decreases ms, 0
  {
    hide NoDup, Print, Canon;
    var a, b := RenderMembers(fp, CanonMembers(ms)), RenderMembers(fp, ms);
    forall i | 0 <= i < |ms| ensures a[i] == b[i] {
      RenderAt(fp, ms, i);
      CanonMemberAt(ms, i);
      RenderAt(fp, CanonMembers(ms), i);
      PrintCanon(fp, ms[i].val);
    }
    assert a == b;
    RenderSort(fp, CanonMembers(ms));
    RenderUnique(fp, ms);
    SortSorts(b);
    SortOfSorted(Sort(b));
  }

  /** Values equal up to member order have the same canonical text. */
  lemma SameValueSameText(fp: Binary64, v: Value, w: Value)
    requires NoDup(v) && NoDup(w) && SameValue(v, w)
    ensures Print(fp, v) == Print(fp, w)
  {
    CanonDecidesSame(v, w);
    PrintCanon(fp, v);
    PrintCanon(fp, w);
  }
}
