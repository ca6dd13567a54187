/** The agent's miner: one canonical template per digit width, the nonce digits patched in place. */
module Template {
  import opened Values
  import opened Decimals
  import opened Numbers
  import opened Bytes
  import opened Sorting
  import opened Printing
  import opened RoundTrip
  import opened Protocol
  import opened GoVerify
  import opened Validation
  import opened Mining
  import Utf16
  import NumberFormats

  // ---------------------------------------------------------------- where the nonce stands in the text

  /** Where an entry of this name goes in a sorted list. */
  function Slot(name: string, es: seq<Entry<string>>): (k: nat)
    ensures k <= |es|
  {
    if es == [] || Utf16.Less(name, es[0].name) then 0 else 1 + Slot(name, es[1..])
  }

  lemma {:induction false} InsertAtSlot(e: Entry<string>, es: seq<Entry<string>>)
    ensures Insert(e, es) == es[..Slot(e.name, es)] + [e] + es[Slot(e.name, es)..]
  {
    hide Utf16.Less;
    if !(es == [] || Utf16.Less(e.name, es[0].name)) {
      InsertAtSlot(e, es[1..]);
      var k := Slot(e.name, es[1..]);
      assert es[..k + 1] == [es[0]] + es[1..][..k] && es[k + 1..] == es[1..][k..];
    }
  }

  lemma {:induction false} BeforeSlot(name: string, es: seq<Entry<string>>, i: nat)
    requires i < Slot(name, es)
    ensures !Utf16.Less(name, es[i].name)
  {
    if i > 0 { BeforeSlot(name, es[1..], i - 1); }
  }

  /** Adding one entry of a new name to the members inserts it into their sorted list. */
  lemma SortOfAppend(es: seq<Entry<string>>, e: Entry<string>)
    requires UniqueNames(es + [e])
    ensures Sort(es + [e]) == Insert(e, Sort(es))
  {
    var all := es + [e];
    assert UniqueNames(es) by {
      forall i, j | 0 <= i < j < |es| ensures es[i].name != es[j].name {
        assert all[i] == es[i] && all[j] == es[j];
      }
    }
    SortSorts(es);
    SortKeeps(es);
    SortSorts(all);
    SortKeeps(all);
    InsertKeeps(e, Sort(es));
    forall i | 0 <= i < |Sort(es)| ensures Sort(es)[i].name != e.name {
      SameElements(es, Sort(es), Sort(es)[i]);
      var j :| 0 <= j < |es| && es[j] == Sort(es)[i];
      assert all[j] == es[j] && all[|es|] == e;
    }
    InsertSorts(e, Sort(es));
    SortedArrangementUnique(Sort(all), Insert(e, Sort(es)));
  }

  /** The text before an entry: each earlier entry with its comma. */
  function Leading(es: seq<Entry<string>>): string {
    if es == [] then "" else EntryText(es[0]) + "," + Leading(es[1..])
  }

  lemma {:induction false} EntriesAround(a: seq<Entry<string>>, e: Entry<string>, b: seq<Entry<string>>)
    ensures EntriesText(a + [e] + b) == Leading(a) + EntryText(e) + CommaEntries(b)
    ensures CommaEntries(a + [e] + b) == "," + (Leading(a) + EntryText(e) + CommaEntries(b))
  {
    hide EntryText;
    var all := a + [e] + b;
    if a == [] {
      assert all[0] == e && all[1..] == b;
      assert "" + EntryText(e) + CommaEntries(b) == EntryText(e) + CommaEntries(b);
      assert "," + EntryText(e) + CommaEntries(b) == "," + ("" + EntryText(e) + CommaEntries(b));
    } else {
      assert all[0] == a[0] && all[1..] == a[1..] + [e] + b;
      EntriesAround(a[1..], e, b);
      var x, y := EntryText(a[0]), Leading(a[1..]) + EntryText(e) + CommaEntries(b);
      assert x + ("," + y) == (x + "," + Leading(a[1..])) + EntryText(e) + CommaEntries(b);
      assert "," + x + ("," + y) == "," + ((x + "," + Leading(a[1..])) + EntryText(e) + CommaEntries(b));
    }
  }

  const MARKER := "\"nonce\":\""

  function Rendered(c: Suite, base: Members): seq<Entry<string>> { Sort(RenderMembers(c.fp, base)) }

  /** Everything before the nonce marker, and everything after the nonce digits. */
  function Head(c: Suite, base: Members): string {
    var es := Rendered(c, base);
    "{" + Leading(es[..Slot("nonce", es)])
  }

  function Tail(c: Suite, base: Members): string {
    var es := Rendered(c, base);
    "\"" + CommaEntries(es[Slot("nonce", es)..]) + "}"
  }

  lemma {:induction false} PlainEscape(s: string)
    requires forall i :: 0 <= i < |s| ==> EscapeChar(s[i]) == [s[i]]
    ensures EscapeAll(s) == s
  {
    hide EscapeChar;
    if s != "" {
      PlainEscape(s[1..]);
      assert s == [s[0]] + s[1..];
    }
  }

  lemma DigitsEscape(s: string)
    requires AllDigits(s)
    ensures EscapeAll(s) == s
  {
    PlainEscape(s);
  }

  lemma QuotedNonce()
    ensures Quote("nonce") == "\"nonce\""
  {
    hide EscapeChar, EscapeAll;
    var s := "nonce";
    forall i | 0 <= i < |s| ensures EscapeChar(s[i]) == [s[i]] { LetterEscape(s[i]); }
    PlainEscape(s);
    assert "\"" + s + "\"" == "\"nonce\"";
  }

  /** The canonical text of a candidate is a fixed text around the digits of its nonce. */
  lemma TextAroundNonce(c: Suite, base: Members, nonce: string)
    requires UniqueNames(Candidate(base, nonce)) && AllDigits(nonce)
    ensures CandidateText(c, base, nonce) == Head(c, base) + (MARKER + (nonce + Tail(c, base)))
  {
    hide Print, Sort, Slot, Leading, CommaEntries, EntriesText, Insert;
    var e := Entry("nonce", Quote(nonce));
    var r := RenderMembers(c.fp, base);
    RenderAppend(c.fp, base, Entry("nonce", Str(nonce)));
    RenderUnique(c.fp, Candidate(base, nonce));
    PrintsQuoted(c, nonce);
    SortOfAppend(r, e);
    var es := Rendered(c, base);
    var k := Slot("nonce", es);
    InsertAtSlot(e, es);
    EntriesAround(es[..k], e, es[k..]);
    QuotedNonce();
    DigitsEscape(nonce);
    var a, b := Leading(es[..k]), CommaEntries(es[k..]);
    assert EntryText(e) == "\"nonce\"" + ":" + ("\"" + nonce + "\"");
    Assemble(a, nonce, b);
    assert CandidateText(c, base, nonce) == "{" + (a + EntryText(e) + b) + "}" by { TextOfCandidate(c, base, nonce); }
  }

  lemma PrintsQuoted(c: Suite, nonce: string)
    ensures Print(c.fp, Str(nonce)) == Quote(nonce)
  {
  }

  lemma TextOfCandidate(c: Suite, base: Members, nonce: string)
    ensures CandidateText(c, base, nonce) == "{" + EntriesText(Sort(RenderMembers(c.fp, Candidate(base, nonce)))) + "}"
  {
  }

  lemma Assemble(a: string, nonce: string, b: string)
    ensures "{" + (a + ("\"nonce\"" + ":" + ("\"" + nonce + "\"")) + b) + "}" ==
            ("{" + a) + (MARKER + (nonce + ("\"" + b + "}")))
  {
    assert MARKER == "\"nonce\"" + ":" + "\"";
  }

  lemma {:induction false} RenderAppend(fp: Binary64, es: Members, e: Entry<Value>)
    ensures RenderMembers(fp, es + [e]) == RenderMembers(fp, es) + [Entry(e.name, Print(fp, e.val))]
  {
    hide Print;
    if es == [] {
      assert es + [e] == [e] && [e][1..] == [];
    } else {
      assert (es + [e])[1..] == es[1..] + [e];
      RenderAppend(fp, es[1..], e);
    }
  }

  // ---------------------------------------------------------------- the marker occurs nowhere earlier

  /** No place where an `e` is followed by a quote and a colon. */
  predicate Safe(t: string) {
    forall p :: 0 <= p < |t| - 2 ==> !(t[p] == 'e' && t[p + 1] == '"' && t[p + 2] == ':')
  }

  predicate Boundary(a: string, b: string) {
    && !(|a| >= 2 && |b| >= 1 && a[|a| - 2] == 'e' && a[|a| - 1] == '"' && b[0] == ':')
    && !(|a| >= 1 && |b| >= 2 && a[|a| - 1] == 'e' && b[0] == '"' && b[1] == ':')
  }

  lemma SafeJoin(a: string, b: string)
    requires Safe(a) && Safe(b) && Boundary(a, b)
    ensures Safe(a + b)
  {
    var t := a + b;
    forall p | 0 <= p < |t| - 2 ensures !(t[p] == 'e' && t[p + 1] == '"' && t[p + 2] == ':') {
      if p + 2 < |a| {
        assert t[p] == a[p] && t[p + 1] == a[p + 1] && t[p + 2] == a[p + 2];
      } else if p >= |a| {
        assert t[p] == b[p - |a|] && t[p + 1] == b[p - |a| + 1] && t[p + 2] == b[p - |a| + 2];
      }
    }
  }

  /** A quote at `p` stands behind a backslash. */
  predicate GuardedAt(e: string, p: nat) requires p < |e| { e[p] == '"' ==> p > 0 && e[p - 1] == '\\' }

  predicate Guarded(e: string) { forall p :: 0 <= p < |e| ==> GuardedAt(e, p) }

  /** Inside a printed string every quote stands behind a backslash. */
  lemma {:induction false} QuotesEscaped(s: string)
    ensures Guarded(EscapeAll(s))
  {
    hide EscapeChar;
    if s != "" {
      QuotesEscaped(s[1..]);
      CharEscaped(s[0]);
      GuardedJoin(EscapeChar(s[0]), EscapeAll(s[1..]));
    }
  }

  lemma GuardedJoin(a: string, b: string)
    requires Guarded(a) && Guarded(b)
    ensures Guarded(a + b)
  {
    forall p | 0 <= p < |a + b| ensures GuardedAt(a + b, p) {
      if p < |a| { assert GuardedAt(a, p); } else { assert GuardedAt(b, p - |a|); }
    }
  }

  lemma CharEscaped(c: char)
    ensures Guarded(EscapeChar(c))
  {
  }

  lemma QuoteSafe(s: string)
    ensures Safe(Quote(s))
  {
    hide EscapeAll;
    QuotesEscaped(s);
    var e, t := EscapeAll(s), Quote(s);
    forall p | 0 <= p < |t| - 2 ensures !(t[p] == 'e' && t[p + 1] == '"' && t[p + 2] == ':') {
      assert t[p + 1] == e[p] && GuardedAt(e, p);
    }
  }

  predicate NameOk(name: string) { var e := EscapeAll(name); e == "" || e[|e| - 1] != 'e' }

  lemma EntrySafe(e: Entry<string>)
    requires NameOk(e.name) && Safe(e.val)
    ensures Safe(EntryText(e))
  {
    hide EscapeAll;
    QuoteSafe(e.name);
    var q := Quote(e.name);
    SafeJoin(q, ":");
    SafeJoin(q + ":", e.val);
  }

  predicate EntriesOk(es: seq<Entry<string>>) {
    forall i :: 0 <= i < |es| ==> NameOk(es[i].name) && Safe(es[i].val)
  }

  lemma {:induction false} CommaEntriesSafe(es: seq<Entry<string>>)
    requires EntriesOk(es)
    ensures Safe(CommaEntries(es)) && (es != [] ==> CommaEntries(es)[0] == ',')
  {
    hide NameOk, Safe, EntryText;
    if es == [] {
      EmptySafe();
    } else {
      CommaEntriesSafe(es[1..]);
      EntrySafe(es[0]);
      CommaSafe();
      SafeJoin(",", EntryText(es[0]));
      SafeJoin("," + EntryText(es[0]), CommaEntries(es[1..]));
    }
  }

  lemma EmptySafe()
    ensures Safe("")
  {
  }

  lemma CommaSafe()
    ensures Safe(",") && Safe("{") && Safe("}") && Safe("[") && Safe("]")
  {
  }

  lemma {:induction false} LeadingSafe(es: seq<Entry<string>>)
    requires EntriesOk(es)
    ensures Safe(Leading(es)) && (es != [] ==> Leading(es) != "" && Leading(es)[|Leading(es)| - 1] == ',')
  {
    hide NameOk, Safe, EntryText;
    if es == [] {
      EmptySafe();
    } else {
      LeadingSafe(es[1..]);
      EntrySafe(es[0]);
      CommaSafe();
      SafeJoin(EntryText(es[0]), ",");
      SafeJoin(EntryText(es[0]) + ",", Leading(es[1..]));
    }
  }

  lemma EntriesSafe(es: seq<Entry<string>>)
    requires EntriesOk(es)
    ensures Safe("{" + EntriesText(es) + "}")
  {
    hide NameOk, Safe, EntryText, CommaEntries;
    CommaSafe();
    if es == [] {
      SafeJoin("{", "}");
      assert "{" + "" + "}" == "{" + "}";
    } else {
      EntrySafe(es[0]);
      CommaEntriesSafe(es[1..]);
      assert es[1..] == [] ==> CommaEntries(es[1..]) == "" by { NoEntries(); }
      SafeJoin(EntryText(es[0]), CommaEntries(es[1..]));
      SafeJoin("{", EntriesText(es));
      SafeJoin("{" + EntriesText(es), "}");
    }
  }

  lemma NoEntries()
    ensures CommaEntries([]) == ""
  {
  }

  lemma {:induction false} CommaElemsSafe(fp: Binary64, es: seq<Value>)
    requires forall i :: 0 <= i < |es| ==> es[i].Str?
    ensures Safe(CommaElems(fp, es)) && (es != [] ==> CommaElems(fp, es)[0] == ',')
  {
    hide Safe, Quote;
    if es == [] {
      EmptySafe();
    } else {
      CommaElemsSafe(fp, es[1..]);
      QuoteSafe(es[0].s);
      CommaSafe();
      SafeJoin(",", Quote(es[0].s));
      SafeJoin("," + Quote(es[0].s), CommaElems(fp, es[1..]));
    }
  }

  lemma StringsSafe(fp: Binary64, v: Value)
    requires IsStrings(v)
    ensures Safe(Print(fp, v))
  {
    hide Safe, Quote, CommaElems;
    var es := v.elems;
    CommaSafe();
    if es == [] {
      SafeJoin("[", "]");
      assert "[" + "" + "]" == "[" + "]";
    } else {
      QuoteSafe(es[0].s);
      CommaElemsSafe(fp, es[1..]);
      assert es[1..] == [] ==> CommaElems(fp, es[1..]) == "" by { NoElems(fp); }
      SafeJoin(Quote(es[0].s), CommaElems(fp, es[1..]));
      assert Print(fp, es[0]) == Quote(es[0].s);
      SafeJoin("[", ElemsText(fp, es));
      SafeJoin("[" + ElemsText(fp, es), "]");
    }
  }

  lemma NoElems(fp: Binary64)
    ensures CommaElems(fp, []) == ""
  {
  }

  predicate NoQuote(s: string) { forall i :: 0 <= i < |s| ==> s[i] != '"' }

  lemma NumberSafe(fp: Binary64, x: real)
    requires Faithful(fp) && Representable(fp, x)
    ensures Safe(EsNumber(fp, x))
  {
    hide EsBody, DecimalVal;
    if x != 0.0 {
      var y := if x < 0.0 then -x else x;
      assert NegatesOk(fp, x) && DigitsOk(fp, y);
      BodyNoQuote(fp.shortest(y));
    }
    assert NoQuote(EsNumber(fp, x));
  }

  lemma BodyNoQuote(d: Decimal)
    requires WellFormedDecimal(d)
    ensures NoQuote(EsBody(d))
  {
    hide NatStr, Zeros, DigitsVal;
  }

  // ---------------------------------------------------------------- the fields of an unsigned U

  const EARLY: set<string> := {"actor", "channel", "created", "descriptor"}

  lemma EarlyNamesOk(name: string)
    requires name in EARLY || name == "hash" || name == "locators"
    ensures NameOk(name)
  {
    hide EscapeChar;
    forall i | 0 <= i < |name| ensures EscapeChar(name[i]) == [name[i]] { LetterEscape(name[i]); }
    PlainEscape(name);
  }

  lemma LetterEscape(c: char)
    requires 'a' <= c <= 'z'
    ensures EscapeChar(c) == [c]
  {
  }

  /** Among the names a U may have, only these sort before the nonce. */
  lemma LaterNames(name: string)
    requires name in {"ref", "parents", "type", "v"}
    ensures Utf16.Less("nonce", name)
  {
    hide Utf16.Units, Utf16.LexLess;
    Utf16.LessByChar("nonce", name);
  }

  /** The U the agent builds: the structural schema, one of the two types, and no ext, id or sig.
      Identifiers, dates and counts may still be wrong. */
  ghost predicate AgentBuilt(c: Suite, u: Members) {
    Parsed(c, u) && Schema(WithNonce(u)) && (IsPointer(u) || IsChannel(u)) && Lookup(u, "ext") == None
  }

  lemma WithNonceFields(u: Members)
    ensures forall k ::
            Lookup(WithNonce(u), k) == (if k == "nonce" && Lookup(u, k) == None then Some(Str("0")) else Lookup(u, k))
  {
    hide Lookup, WithNonce;
    forall k
      ensures Lookup(WithNonce(u), k) == (if k == "nonce" && Lookup(u, k) == None then Some(Str("0")) else Lookup(u, k))
    {
      WithNonceField(u, k);
    }
  }

  /** Whatever the naive miner takes, without ext, id and sig, is such a U. */
  lemma CheckedIsBuilt(c: Suite, u: Members)
    requires Parsed(c, u) && PyCheckSchema(WithNonce(u)) == Pass && Bare(u) && Lookup(u, "ext") == None
    ensures AgentBuilt(c, u)
  {
    hide Lookup, Names, PyCheckSchema, Schema, Identifiers, NonceAndCreated, Counts, Parsed, WithNonce;
    WithNonceFields(u);
    NamesHas(WithNonce(u), "id");
    NamesHas(WithNonce(u), "sig");
    PySchemaMeans(WithNonce(u));
  }

  lemma BuiltBare(c: Suite, u: Members)
    requires AgentBuilt(c, u)
    ensures Bare(u)
  {
    hide Lookup, Names, Parsed, WithNonce;
    WithNonceFields(u);
    NamesHas(WithNonce(u), "id");
    NamesHas(WithNonce(u), "sig");
  }

  lemma ValueSafe(c: Suite, u: Members, name: string)
    requires Faithful(c.fp) && AgentBuilt(c, u) && name in EARLY && Field(u, name).Some?
    ensures Safe(Print(c.fp, Field(u, name).value))
  {
    hide Lookup, Names, Safe, WithNonce, Faithful, Quote, EsNumber, RefShape, NoDup;
    WithNonceFields(u);
    KindsDiffer();
    var v := Field(u, name).value;
    if name == "created" {
      FieldSound(c, u, name);
      NumberSafe(c.fp, v.n);
    } else if name == "descriptor" {
      NoDupField(u, name);
      RefSafe(c.fp, v);
    } else {
      QuoteSafe(v.s);
    }
  }

  lemma FieldSound(c: Suite, u: Members, k: string)
    requires Parsed(c, u) && Field(u, k).Some?
    ensures Sound(c.fp, Field(u, k).value)
  {
    LookupSome(u, k);
  }

  lemma RefMemberSafe(fp: Binary64, v: Value, j: nat)
    requires RefShape(v) && NoDup(v) && j < |v.members|
    ensures NameOk(v.members[j].name) && Safe(Print(fp, v.members[j].val))
  {
    hide Safe, NameOk, Quote;
    var m := v.members[j];
    assert m.name in Names(v.members);
    EarlyNamesOk(m.name);
    LookupAt(v.members, j);
    if m.name == "hash" { QuoteSafe(m.val.s); } else { StringsSafe(fp, m.val); }
  }

  lemma RefSafe(fp: Binary64, v: Value)
    requires RefShape(v) && NoDup(v)
    ensures Safe(Print(fp, v))
  {
    hide Safe, NameOk, EntriesText, Lookup, Names;
    var ms := v.members;
    var r := RenderMembers(fp, ms);
    var es := Sort(r);
    SortKeeps(r);
    forall i | 0 <= i < |es| ensures NameOk(es[i].name) && Safe(es[i].val) {
      SameElements(r, es, es[i]);
      var j :| 0 <= j < |r| && r[j] == es[i];
      RenderAt(fp, ms, j);
      RefMemberSafe(fp, v, j);
    }
    EntriesSafe(es);
  }

  // ---------------------------------------------------------------- finding and patching

  predicate Occurs(s: string, pat: string, i: nat) { i + |pat| <= |s| && s[i..i + |pat|] == pat }

  /** bytes.find: the first occurrence, or -1. */
  method Find(s: string, pat: string) returns (idx: int)
    ensures -1 <= idx && (idx >= 0 ==> Occurs(s, pat, idx))
    ensures forall i :: 0 <= i && (idx >= 0 ==> i < idx) ==> !Occurs(s, pat, i)
  {
    idx := 0;
    while idx + |pat| <= |s|
      invariant 0 <= idx && forall i :: 0 <= i < idx ==> !Occurs(s, pat, i)
    {
      if s[idx..idx + |pat|] == pat { return; }
      idx := idx + 1;
    }
    idx := -1;
  }

  lemma EarlyEntries(c: Suite, u: Members, base: Members)
    requires Faithful(c.fp) && AgentBuilt(c, u) && base == Drop(u, "nonce")
    ensures var es := Rendered(c, base); EntriesOk(es[..Slot("nonce", es)])
  {
    hide Faithful, AgentBuilt, Safe, NameOk, Print, Slot, Sort;
    var es, r := Rendered(c, base), RenderMembers(c.fp, base);
    var k := Slot("nonce", es);
    SortKeeps(r);
    forall i | 0 <= i < k ensures NameOk(es[..k][i].name) && Safe(es[..k][i].val) {
      assert es[..k][i] == es[i];
      BeforeSlot("nonce", es, i);
      SameElements(r, es, es[i]);
      var j :| 0 <= j < |r| && r[j] == es[i];
      RenderAt(c.fp, base, j);
      EarlyEntry(c, u, j);
    }
  }

  lemma EarlyEntry(c: Suite, u: Members, j: nat)
    requires Faithful(c.fp) && AgentBuilt(c, u) && j < |Drop(u, "nonce")|
            && !Utf16.Less("nonce", Drop(u, "nonce")[j].name)
    ensures var m := Drop(u, "nonce")[j]; NameOk(m.name) && Safe(Print(c.fp, m.val))
  {
    hide Faithful, Safe, NameOk, Print, Utf16.Less, Schema, WithNonce;
    var base := Drop(u, "nonce");
    var m := base[j];
    DropMembers(u, "nonce");
    UniqueOfParsed(c, u);
    var i :| 0 <= i < |u| && u[i] == m;
    LookupAt(u, i);
    BuiltName(c, u, m.name);
    if m.name !in EARLY { LaterNames(m.name); }
    EarlyNamesOk(m.name);
    ValueSafe(c, u, m.name);
  }

  lemma UniqueOfParsed(c: Suite, u: Members)
    requires Parsed(c, u)
    ensures UniqueNames(u)
  {
  }

  lemma BuiltName(c: Suite, u: Members, k: string)
    requires AgentBuilt(c, u) && Field(u, k).Some? && k != "nonce"
    ensures k in EARLY || k in {"ref", "parents", "type", "v"}
  {
    hide Lookup, Names, WithNonce, Parsed;
    WithNonceFields(u);
    NamesHas(WithNonce(u), k);
    assert k in REQUIRED + OPTIONAL;
  }

  /** The first marker in the text is the top-level nonce. */
  lemma MarkerFirst(c: Suite, u: Members, nonce: string, p: nat)
    requires Faithful(c.fp) && AgentBuilt(c, u) && AllDigits(nonce)
    ensures var base := Drop(u, "nonce"); var t := CandidateText(c, base, nonce);
            Occurs(t, MARKER, |Head(c, base)|) && (p < |Head(c, base)| ==> !Occurs(t, MARKER, p))
  {
    hide Faithful, AgentBuilt, Slot, Sort, Leading, CandidateText, Tail, Rendered, AllDigits;
    var base := Drop(u, "nonce");
    CandidateUnique(c, u, nonce);
    TextAroundNonce(c, base, nonce);
    var h, rest := Head(c, base), nonce + Tail(c, base);
    EarlyEntries(c, u, base);
    var es := Rendered(c, base);
    HeadSafe(es[..Slot("nonce", es)]);
    NoEarlier(h, rest, p);
  }

  lemma CandidateUnique(c: Suite, u: Members, nonce: string)
    requires AgentBuilt(c, u)
    ensures UniqueNames(Candidate(Drop(u, "nonce"), nonce))
  {
    hide Schema, WithNonce;
    UniqueOfParsed(c, u);
    DropUnique(u, "nonce");
    DropMembers(u, "nonce");
  }

  lemma HeadSafe(es: seq<Entry<string>>)
    requires EntriesOk(es)
    ensures Safe("{" + Leading(es) + "\"nonce\"")
  {
    hide NameOk, EntriesOk;
    LeadingSafe(es);
    CommaSafe();
    SafeJoin("{", Leading(es));
    SafeJoin("{" + Leading(es), "\"nonce\"");
  }

  lemma NoEarlier(h: string, rest: string, p: nat)
    requires Safe(h + "\"nonce\"")
    ensures var t := h + (MARKER + rest); Occurs(t, MARKER, |h|) && (p < |h| ==> !Occurs(t, MARKER, p))
  {
    var t, x := h + (MARKER + rest), h + "\"nonce\"";
    assert t[|h|..|h| + 9] == MARKER;
    if p < |h| {
      MarkerEnds(t, p);
      assert t[p + 5] == x[p + 5] && t[p + 6] == x[p + 6] && t[p + 7] == x[p + 7];
    }
  }

  lemma MarkerEnds(t: string, p: nat)
    ensures Occurs(t, MARKER, p) ==> t[p + 5] == 'e' && t[p + 6] == '"' && t[p + 7] == ':'
  {
    if Occurs(t, MARKER, p) {
      var w := t[p..p + 9];
      assert w[5] == t[p + 5] && w[6] == t[p + 6] && w[7] == t[p + 7];
    }
  }

  function Patch(t: string, off: nat, digits: string): string
    requires off + |digits| <= |t|
  {
    t[..off] + digits + t[off + |digits|..]
  }

  /** Writing other digits of the same width over the nonce gives the other candidate's text. */
  lemma PatchIsCandidate(c: Suite, u: Members, placeholder: string, digits: string)
    requires AgentBuilt(c, u) && AllDigits(placeholder) && AllDigits(digits) && |placeholder| == |digits|
    ensures var base := Drop(u, "nonce"); var off := |Head(c, base)| + |MARKER|;
            && off + |digits| <= |CandidateText(c, base, placeholder)|
            && Patch(CandidateText(c, base, placeholder), off, digits) == CandidateText(c, base, digits)
            && Utf8Len(CandidateText(c, base, placeholder)) == Utf8Len(CandidateText(c, base, digits))
  {
    hide AgentBuilt, Head, Tail, CandidateText, Utf8Len, AllDigits;
    var base := Drop(u, "nonce");
    CandidateUnique(c, u, placeholder);
    CandidateUnique(c, u, digits);
    TextAroundNonce(c, base, placeholder);
    TextAroundNonce(c, base, digits);
    PatchMiddle(Head(c, base), placeholder, digits, Tail(c, base));
    LengthAround(Head(c, base), placeholder, Tail(c, base));
    LengthAround(Head(c, base), digits, Tail(c, base));
  }

  lemma PatchMiddle(h: string, a: string, b: string, z: string)
    requires |a| == |b|
    ensures Patch(h + (MARKER + (a + z)), |h| + |MARKER|, b) == h + (MARKER + (b + z))
  {
    var t := h + (MARKER + (a + z));
    var off := |h| + |MARKER|;
    assert t[..off] == h + MARKER && t[off + |a|..] == z;
  }

  lemma LengthAround(h: string, a: string, z: string)
    requires AllDigits(a)
    ensures Utf8Len(h + (MARKER + (a + z))) == Utf8Len(h) + Utf8Len(MARKER) + |a| + Utf8Len(z)
  {
    hide Utf8Len;
    Utf8LenConcat(h, MARKER + (a + z));
    Utf8LenConcat(MARKER, a + z);
    Utf8LenConcat(a, z);
    DigitsLength(a);
  }

  lemma {:induction false} DigitsLength(a: string)
    requires AllDigits(a)
    ensures Utf8Len(a) == |a|
  {
    if a != "" { DigitsLength(a[1..]); }
  }

  // ---------------------------------------------------------------- widths

  function Lo(w: nat): nat requires w > 0 { if w == 1 then 0 else IntPow10(w - 1) }

  function Hi(w: nat): int requires w > 0 { if IntPow10(w) - 1 < MAX_NONCE then IntPow10(w) - 1 else MAX_NONCE }

  function Placeholder(w: nat): string requires w > 0 { if w == 1 then "0" else "1" + Zeros(w - 1) }

  /** Zero-padded decimal of at least `w` digits. */
  function Padded(n: nat, w: nat): string {
    var s := NatStr(n);
    if |s| < w then Zeros(w - |s|) + s else s
  }

  lemma PlaceholderDigits(w: nat)
    requires w > 0
    ensures AllDigits(Placeholder(w)) && |Placeholder(w)| == w
  {
  }

  /** In its width's range a number needs no padding: the patched digits are its decimal text. */
  lemma WidthDigits(n: nat, w: nat)
    requires w > 0 && Lo(w) <= n < IntPow10(w)
    ensures |NatStr(n)| == w && Padded(n, w) == NonceText(n)
  {
    hide NatStr, DigitsVal, IntPow10;
    var s := NatStr(n);
    DigitsValBound(s);
    if n == 0 {
      ZeroIsZero();
      assert IntPow10(0) == 1 && IntPow10(1) == 10 by { PowersOne(); }
      IntPowZero(w);
    } else {
      ZeroText(s);
      LengthByBound(s, n, w);
    }
  }

  lemma PowersOne()
    ensures IntPow10(0) == 1 && IntPow10(1) == 10
  {
  }

  lemma IntPowZero(w: nat)
    requires w > 0 && Lo(w) == 0
    ensures w == 1
  {
    if w > 1 { IntPow10Pos(w - 1); }
  }

  lemma LengthByBound(s: string, n: nat, w: nat)
    requires AllDigits(s) && s != "" && s[0] != '0' && DigitsVal(s) == n && w > 0 && Lo(w) <= n < IntPow10(w) && n > 0
    ensures |s| == w
  {
    hide DigitsVal, IntPow10;
    DigitsValBound(s);
    NumberFormats.IntPow10Monotone(|s| - 1, w);
    if w > 1 { NumberFormats.IntPow10Monotone(w - 1, |s|); }
  }

  lemma WidthsMeet(w: nat)
    requires 1 <= w < 20
    ensures Hi(w) + 1 == Lo(w + 1) && Lo(w + 1) <= MAX_NONCE
  {
    PowBelowMax(w);
  }

  lemma LastWidth()
    ensures Hi(20) == MAX_NONCE
  {
    hide IntPow10;
    PowAboveMax(20);
  }
}
