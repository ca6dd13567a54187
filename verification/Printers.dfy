/** The two iterative printers: Python's stack of markers and Go's stack of frames. */
module Printers {
  import opened Values
  import opened Decimals
  import opened Numbers
  import opened NumberFormats
  import opened Sorting
  import opened Printing
  import opened Lists
  import Utf16

  /** Every number inside the value is a binary64 number. */
  ghost predicate Numeric(fp: Binary64, v: Value)
    decreases v
  {
    match v
    case Num(n) => Representable(fp, n)
    case Arr(es) => forall i :: 0 <= i < |es| ==> Numeric(fp, es[i])
    case Obj(ms) => forall i :: 0 <= i < |ms| ==> Numeric(fp, ms[i].val)
    case _ => true
  }

  ghost predicate NumericMembers(fp: Binary64, ms: seq<Entry<Value>>) {
    forall i :: 0 <= i < |ms| ==> Numeric(fp, ms[i].val)
  }

  lemma SortNumeric(fp: Binary64, ms: seq<Entry<Value>>)
    requires NumericMembers(fp, ms)
    ensures NumericMembers(fp, Sort(ms))
  {
    hide Numeric;
    SortKeeps(ms);
    forall i | 0 <= i < |Sort(ms)| ensures Numeric(fp, Sort(ms)[i].val) {
      SameElements(ms, Sort(ms), Sort(ms)[i]);
    }
  }

  // ---------------------------------------------------------------- strings

  lemma {:induction false} EscapeAppend(a: string, b: string)
    ensures EscapeAll(a + b) == EscapeAll(a) + EscapeAll(b)
  {
    hide EscapeChar;
    if a == "" {
      assert a + b == b;
    } else {
      assert (a + b)[1..] == a[1..] + b;
      EscapeAppend(a[1..], b);
    }
  }

  lemma EscapeStep(s: string, i: nat)
    requires i < |s|
    ensures EscapeAll(s[..i + 1]) == EscapeAll(s[..i]) + EscapeChar(s[i])
  {
    hide EscapeChar;
    assert s[..i + 1] == s[..i] + [s[i]];
    EscapeAppend(s[..i], [s[i]]);
    assert EscapeAll([s[i]]) == EscapeChar(s[i]) + EscapeAll([s[i]][1..]);
  }

  /** Four hexadecimal digits, as Python's `04x` format writes them. */
  function Hex04(o: nat): string requires o < 0x10000 {
    [HexDigit(o / 4096), HexDigit(o / 256 % 16), HexDigit(o / 16 % 16), HexDigit(o % 16)]
  }

  method PyEscapeChar(ch: char) returns (t: string)
    ensures t == EscapeChar(ch)
  {
    if ch == '"' { return "\\\""; }
    else if ch == '\\' { return "\\\\"; }
    else if ch == '\U{08}' { return "\\b"; }
    else if ch == '\U{0C}' { return "\\f"; }
    else if ch == '\n' { return "\\n"; }
    else if ch == '\r' { return "\\r"; }
    else if ch == '\t' { return "\\t"; }
    else if ch as int < 0x20 { return "\\u" + Hex04(ch as int); }
    else { return [ch]; }
  }

  method PyEscapeString(s: string) returns (out: string)
    ensures out == Quote(s)
  {
    hide EscapeChar, EscapeAll;
    out := "\"";
    EscapeNothing(s);
    for i := 0 to |s|
      invariant out == "\"" + EscapeAll(s[..i])
    {
      EscapeStep(s, i);
      var t := PyEscapeChar(s[i]);
      assert "\"" + EscapeAll(s[..i]) + t == "\"" + (EscapeAll(s[..i]) + t);
      out := out + t;
    }
    assert s[..|s|] == s;
    out := out + "\"";
  }

  lemma EscapeNothing(s: string)
    ensures EscapeAll(s[..0]) == ""
  {
  }

  method GoWriteChar(r: char) returns (t: string)
    ensures t == EscapeChar(r)
  {
    if r == '"' { return "\\\""; }
    else if r == '\\' { return "\\\\"; }
    else if r == '\U{08}' { return "\\b"; }
    else if r == '\U{0C}' { return "\\f"; }
    else if r == '\n' { return "\\n"; }
    else if r == '\r' { return "\\r"; }
    else if r == '\t' { return "\\t"; }
    else if r as int < 0x20 { return "\\u00" + [HEX[r as int / 16 % 16]] + [HEX[r as int % 16]]; }
    else { return [r]; }
  }

  method GoWriteString(buf: string, s: string) returns (out: string)
    ensures out == buf + Quote(s)
  {
    hide EscapeChar, EscapeAll;
    out := buf + "\"";
    EscapeNothing(s);
    for i := 0 to |s|
      invariant out == buf + ("\"" + EscapeAll(s[..i]))
    {
      EscapeStep(s, i);
      var t := GoWriteChar(s[i]);
      assert buf + ("\"" + EscapeAll(s[..i])) + t == buf + ("\"" + (EscapeAll(s[..i]) + t));
      out := out + t;
    }
    assert s[..|s|] == s;
    out := out + "\"";
    assert out == buf + (("\"" + EscapeAll(s)) + "\"");
  }

  // ---------------------------------------------------------------- sorting with each comparison

  /** Insertion with Python's key, the big-endian UTF-16 bytes. */
  method PyInsert(e: Entry<Value>, es: seq<Entry<Value>>) returns (r: seq<Entry<Value>>)
    ensures r == Insert(e, es)
    decreases |es|
  {
    if es == [] { return [e]; }
    Utf16.BytesLessIsLess(e.name, es[0].name);
    if Utf16.BytesLess(e.name, es[0].name) { return [e] + es; }
    var t := PyInsert(e, es[1..]);
    return [es[0]] + t;
  }

  method PySorted(ms: seq<Entry<Value>>) returns (r: seq<Entry<Value>>)
    ensures r == Sort(ms)
  {
    r := [];
    for i := |ms| downto 0
      invariant r == Sort(ms[i..])
    {
      assert ms[i..][1..] == ms[i + 1..];
      r := PyInsert(ms[i], r);
    }
    assert ms[0..] == ms;
  }

  /** Insertion with Go's utf16Less. */
  method GoInsert(e: Entry<Value>, es: seq<Entry<Value>>) returns (r: seq<Entry<Value>>)
    ensures r == Insert(e, es)
    decreases |es|
  {
    if es == [] { return [e]; }
    var less := Utf16.GoLess(e.name, es[0].name);
    if less { return [e] + es; }
    var t := GoInsert(e, es[1..]);
    return [es[0]] + t;
  }

  method GoSorted(ms: seq<Entry<Value>>) returns (r: seq<Entry<Value>>)
    ensures r == Sort(ms)
  {
    r := [];
    for i := |ms| downto 0
      invariant r == Sort(ms[i..])
    {
      assert ms[i..][1..] == ms[i + 1..];
      r := GoInsert(ms[i], r);
    }
    assert ms[0..] == ms;
  }

  // ---------------------------------------------------------------- Python: a stack of markers and values

  datatype Item = Plain(v: Value) | CloseArr | CloseObj | CommaMark | Key(name: string)

  function ItemText(fp: Binary64, it: Item): (t: string) {
    match it
    case Plain(v) => Print(fp, v)
    case CloseArr => "]"
    case CloseObj => "}"
    case CommaMark => ","
    case Key(k) => Quote(k) + ":"
  }

  /** The text still to be printed: the items from the top of the stack down. */
  function Pending(fp: Binary64, stack: seq<Item>): string {
    if stack == [] then "" else ItemText(fp, Top(stack)) + Pending(fp, Below(stack))
  }

  ghost predicate NumericItems(fp: Binary64, stack: seq<Item>) {
    forall i :: 0 <= i < |stack| && stack[i].Plain? ==> Numeric(fp, stack[i].v)
  }

  lemma PendingPush(fp: Binary64, stack: seq<Item>, it: Item)
    ensures Pending(fp, stack + [it]) == ItemText(fp, it) + Pending(fp, stack)
  {
    PushPop(stack, it);
  }

  lemma PrintNonEmpty(fp: Binary64, v: Value)
    requires Faithful(fp) && Numeric(fp, v)
    ensures Print(fp, v) != ""
  {
    hide EsBody, Quote;
    match v
    case Num(n) => EsNumberNonEmpty(fp, n);
    case Str(s) => QuoteNonEmpty(s);
    case _ =>
  }

  lemma QuoteNonEmpty(s: string)
    ensures Quote(s) != ""
  {
  }

  lemma EsNumberNonEmpty(fp: Binary64, x: real)
    requires Faithful(fp) && Representable(fp, x)
    ensures EsNumber(fp, x) != ""
  {
    hide NatStr, DecimalVal;
    if x > 0.0 {
      assert DigitsOk(fp, x);
      EsBodyNonEmpty(fp.shortest(x));
    }
  }

  lemma EsBodyNonEmpty(d: Decimal)
    requires WellFormedDecimal(d)
    ensures EsBody(d) != ""
  {
    hide NatStr, Zeros;
  }

  method PushElems(fp: Binary64, stack0: seq<Item>, es: seq<Value>) returns (stack: seq<Item>)
    requires NumericItems(fp, stack0) && forall i :: 0 <= i < |es| ==> Numeric(fp, es[i])
    ensures NumericItems(fp, stack) && Pending(fp, stack) == ElemsText(fp, es) + Pending(fp, stack0)
  {
    hide Print, Numeric, Pending;
    stack := stack0;
    assert "" + Pending(fp, stack0) == Pending(fp, stack0);
    for idx := |es| downto 0
      invariant NumericItems(fp, stack)
      invariant Pending(fp, stack) ==
              (if idx == 0 then ElemsText(fp, es) else CommaElems(fp, es[idx..])) + Pending(fp, stack0)
    {
      assert es[idx..][1..] == es[idx + 1..] && es[0..] == es;
      PendingPush(fp, stack, Plain(es[idx]));
      stack := stack + [Plain(es[idx])];
      ghost var txt, more := Print(fp, es[idx]), CommaElems(fp, es[idx + 1..]);
      assert txt + (more + Pending(fp, stack0)) == (txt + more) + Pending(fp, stack0);
      if idx > 0 {
        PendingPush(fp, stack, CommaMark);
        stack := stack + [CommaMark];
        assert "," + ((txt + more) + Pending(fp, stack0)) == ("," + txt + more) + Pending(fp, stack0);
      }
    }
  }

  /** A pushed value with its name on top is one printed entry. */
  lemma PendingMember(fp: Binary64, stack: seq<Item>, m: Entry<Value>)
    ensures Pending(fp, stack + [Plain(m.val)] + [Key(m.name)]) ==
            EntryText(Entry(m.name, Print(fp, m.val))) + Pending(fp, stack)
  {
    hide Print, Pending, Quote;
    PendingPush(fp, stack, Plain(m.val));
    PendingPush(fp, stack + [Plain(m.val)], Key(m.name));
    var a, b, c := Quote(m.name) + ":", Print(fp, m.val), Pending(fp, stack);
    assert a + (b + c) == (a + b) + c;
  }

  method PushMembers(fp: Binary64, stack0: seq<Item>, ms: seq<Entry<Value>>) returns (stack: seq<Item>)
    requires NumericItems(fp, stack0) && NumericMembers(fp, ms)
    ensures NumericItems(fp, stack) && Pending(fp, stack) == EntriesText(RenderMembers(fp, ms)) + Pending(fp, stack0)
  {
    hide Print, Numeric, Pending, EntryText, RenderMembers;
    stack := stack0;
    assert "" + Pending(fp, stack0) == Pending(fp, stack0);
    ghost var r := RenderMembers(fp, ms);
    for idx := |ms| downto 0
      invariant NumericItems(fp, stack)
      invariant Pending(fp, stack) ==
              (if idx == 0 then EntriesText(r) else CommaEntries(r[idx..])) + Pending(fp, stack0)
    {
      assert r[idx..][1..] == r[idx + 1..] && r[0..] == r;
      RenderAt(fp, ms, idx);
      var m := ms[idx];
      PendingMember(fp, stack, m);
      stack := stack + [Plain(m.val)] + [Key(m.name)];
      ghost var txt, more := EntryText(r[idx]), CommaEntries(r[idx + 1..]);
      assert txt + (more + Pending(fp, stack0)) == (txt + more) + Pending(fp, stack0);
      if idx > 0 {
        PendingPush(fp, stack, CommaMark);
        stack := stack + [CommaMark];
        Regroup4(",", txt, more, Pending(fp, stack0));
      }
    }
  }

  lemma Regroup4(a: string, b: string, c: string, d: string)
    ensures a + (b + (c + d)) == (a + b + c) + d
    ensures a + ((b + c) + d) == (a + b + c) + d
  {
  }

  /** Python's canonicalize: the printed text so far and the pending text always make up the canonical
      text, and the pending text gets shorter on every turn. */
  method PyCanonicalize(fp: Binary64, value: Value) returns (out: string)
    requires Faithful(fp) && Numeric(fp, value)
    ensures out == Print(fp, value)
  {
    hide Numeric, Pending, Faithful;
    out := "";
    var stack := [Plain(value)];
    PendingPush(fp, [], Plain(value));
    PendingEmpty(fp);
    assert [] + [Plain(value)] == stack;
    while stack != []
      invariant NumericItems(fp, stack) && out + Pending(fp, stack) == Print(fp, value)
      decreases |Pending(fp, stack)|
    {
      var item := Top(stack);
      ghost var before := stack;
      stack := Below(stack);
      PendingPush(fp, stack, item);
      assert before == stack + [item];
      assert out + (ItemText(fp, item) + Pending(fp, stack)) == (out + ItemText(fp, item)) + Pending(fp, stack);
      ItemNonEmpty(fp, item);
      match item
      case CloseArr => out := out + "]";
      case CloseObj => out := out + "}";
      case CommaMark => out := out + ",";
      case Key(k) =>
        var q := PyEscapeString(k);
        out := out + (q + ":");
      case Plain(v) =>
        var head: string;
        head, stack := PyOpen(fp, v, stack);
        assert out + (head + Pending(fp, stack)) == (out + head) + Pending(fp, stack);
        out := out + head;
    }
    PendingEmpty(fp);
    assert out + "" == out;
  }

  lemma PendingEmpty(fp: Binary64)
    ensures Pending(fp, []) == ""
  {
  }

  lemma ItemNonEmpty(fp: Binary64, it: Item)
    requires Faithful(fp) && (it.Plain? ==> Numeric(fp, it.v))
    ensures ItemText(fp, it) != ""
  {
    hide Print, Quote, Numeric;
    if it.Plain? { PrintNonEmpty(fp, it.v); }
  }

  /** What one popped value prints at once, and what it leaves on the stack. */
  method PyOpen(fp: Binary64, v: Value, stack0: seq<Item>) returns (head: string, stack: seq<Item>)
    requires Faithful(fp) && Numeric(fp, v) && NumericItems(fp, stack0)
    ensures head != "" && NumericItems(fp, stack)
    ensures head + Pending(fp, stack) == Print(fp, v) + Pending(fp, stack0)
  {
    hide Pending, EsBody, Faithful, EsNumber, PyEsNumber, Quote;
    stack := stack0;
    PrintNonEmpty(fp, v);
    match v
    case Null => head := "null";
    case Bool(b) => head := if b then "true" else "false";
    case Str(s) => head := PyEscapeString(s);
    case Num(n) =>
      FormatsAgree(fp, n);
      head := PyEsNumber(fp, n);
    case Arr(es) =>
      head := "[";
      PendingPush(fp, stack, CloseArr);
      stack := stack + [CloseArr];
      stack := PushElems(fp, stack, es);
      Regroup4("[", ElemsText(fp, es), "]", Pending(fp, stack0));
    case Obj(ms) =>
      head := "{";
      PendingPush(fp, stack, CloseObj);
      stack := stack + [CloseObj];
      var sorted := PySorted(ms);
      SortNumeric(fp, ms);
      RenderSort(fp, ms);
      stack := PushMembers(fp, stack, sorted);
      Regroup4("{", EntriesText(Sort(RenderMembers(fp, ms))), "}", Pending(fp, stack0));
  }

  // ---------------------------------------------------------------- Go: a stack of frames

  datatype PrintFrame = PrintFrame(v: Value, begun: bool, members: seq<Entry<Value>>, idx: nat)

  function Start(v: Value): PrintFrame { PrintFrame(v, false, [], 0) }

  ghost predicate GoodFrame(fp: Binary64, f: PrintFrame) {
    && Numeric(fp, f.v)
    && (f.begun ==> f.v.Arr? || f.v.Obj?)
    && (!f.begun ==> f.idx == 0)
    && (f.begun && f.v.Arr? ==> f.idx <= |f.v.elems|)
    && (f.begun && f.v.Obj? ==> f.idx <= |f.members| && f.members == Sort(f.v.members))
  }

  function FromElem(fp: Binary64, es: seq<Value>, idx: nat): string requires idx <= |es| {
    if idx == 0 then ElemsText(fp, es) else CommaElems(fp, es[idx..])
  }

  function FromEntry(r: seq<Entry<string>>, idx: nat): string requires idx <= |r| {
    if idx == 0 then EntriesText(r) else CommaEntries(r[idx..])
  }

  /** What a frame has still to print. */
  ghost function Remaining(fp: Binary64, f: PrintFrame): string
    requires GoodFrame(fp, f)
  {
    if !f.begun then Print(fp, f.v)
    else if f.v.Arr? then FromElem(fp, f.v.elems, f.idx) + "]"
    else FromEntry(RenderMembers(fp, f.members), f.idx) + "}"
  }

  ghost predicate GoodFrames(fp: Binary64, stack: seq<PrintFrame>) {
    forall i :: 0 <= i < |stack| ==> GoodFrame(fp, stack[i])
  }

  ghost function PendingFrames(fp: Binary64, stack: seq<PrintFrame>): string
    requires GoodFrames(fp, stack)
  {
    if stack == [] then "" else Remaining(fp, Top(stack)) + PendingFrames(fp, Below(stack))
  }

  lemma FramesPush(fp: Binary64, stack: seq<PrintFrame>, f: PrintFrame)
    requires GoodFrames(fp, stack) && GoodFrame(fp, f)
    ensures GoodFrames(fp, stack + [f])
    ensures PendingFrames(fp, stack + [f]) == Remaining(fp, f) + PendingFrames(fp, stack)
  {
    hide GoodFrame, Remaining;
    PushPop(stack, f);
  }

  lemma NextElem(fp: Binary64, es: seq<Value>, idx: nat)
    requires idx < |es|
    ensures FromElem(fp, es, idx) == (if idx > 0 then "," else "") + (Print(fp, es[idx]) + FromElem(fp, es, idx + 1))
  {
    hide Print;
    assert es[idx..][1..] == es[idx + 1..] && es[0..] == es;
    var a, b := Print(fp, es[idx]), CommaElems(fp, es[idx + 1..]);
    if idx > 0 { assert "," + a + b == "," + (a + b); } else { assert a + b == "" + (a + b); }
  }

  lemma NextEntry(r: seq<Entry<string>>, idx: nat)
    requires idx < |r|
    ensures FromEntry(r, idx) ==
            (if idx > 0 then "," else "") + (Quote(r[idx].name) + ":" + (r[idx].val + FromEntry(r, idx + 1)))
  {
    hide Quote;
    assert r[idx..][1..] == r[idx + 1..] && r[0..] == r;
    var a, b, c := Quote(r[idx].name) + ":", r[idx].val, CommaEntries(r[idx + 1..]);
    assert (a + b) + c == a + (b + c);
    if idx > 0 { assert "," + (a + b) + c == "," + (a + (b + c)); } else { assert a + (b + c) == "" + (a + (b + c)); }
  }

  /** One visit to the frame on top: what it prints, the frame it leaves and the child it opens. */
  datatype Visit = Finished | Descend(f: PrintFrame, child: Value)

  /** What was printed and what the visit leaves make up what the frame had to print. */
  ghost predicate Visited(fp: Binary64, before: PrintFrame, head: string, turn: Visit)
    requires GoodFrame(fp, before)
  {
    match turn
    case Finished => head == Remaining(fp, before)
    case Descend(f, child) =>
      GoodFrame(fp, f) && f.begun && f.idx > 0 && Numeric(fp, child) &&
      Remaining(fp, before) == head + (Print(fp, child) + Remaining(fp, f))
  }

  method VisitArray(fp: Binary64, f0: PrintFrame) returns (head: string, turn: Visit)
    requires GoodFrame(fp, f0) && f0.v.Arr?
    ensures head != "" || (f0.begun && f0.idx == 0)
    ensures Visited(fp, f0, head, turn)
  {
    hide Print, Numeric, GoodFrame, Remaining;
    var f := f0;
    var es := f.v.elems;
    head := "";
    if !f.begun {
      head := "[";
      f := PrintFrame(f.v, true, f.members, f.idx);
    }
    OpenArr(fp, f0);
    if f.idx < |es| {
      ArrNext(fp, f);
      var comma := if f.idx > 0 then "," else "";
      var g := PrintFrame(f.v, true, f.members, f.idx + 1);
      ghost var y := Print(fp, es[f.idx]) + Remaining(fp, g);
      assert head + (comma + y) == (head + comma) + y;
      return head + comma, Descend(g, es[f.idx]);
    }
    ArrEnd(fp, f);
    return head + "]", Finished;
  }

  /** An array frame with elements left prints a comma after the first, the element, and what is left then. */
  lemma ArrNext(fp: Binary64, f: PrintFrame)
    requires GoodFrame(fp, f) && f.v.Arr? && f.begun && f.idx < |f.v.elems|
    ensures var g := PrintFrame(f.v, true, f.members, f.idx + 1);
            var child := f.v.elems[f.idx];
            && GoodFrame(fp, g) && Numeric(fp, child)
            && Remaining(fp, f) == (if f.idx > 0 then "," else "") + (Print(fp, child) + Remaining(fp, g))
  {
    hide Print, FromElem;
    var es := f.v.elems;
    NextElem(fp, es, f.idx);
    var comma := if f.idx > 0 then "," else "";
    var x, y := Print(fp, es[f.idx]), FromElem(fp, es, f.idx + 1);
    assert (comma + (x + y)) + "]" == comma + (x + (y + "]"));
  }

  lemma ArrEnd(fp: Binary64, f: PrintFrame)
    requires GoodFrame(fp, f) && f.v.Arr? && f.begun && f.idx >= |f.v.elems|
    ensures Remaining(fp, f) == "]"
  {
  }

  lemma OpenArr(fp: Binary64, f: PrintFrame)
    requires GoodFrame(fp, f) && f.v.Arr?
    ensures GoodFrame(fp, PrintFrame(f.v, true, f.members, f.idx))
    ensures !f.begun ==> f.idx == 0
    ensures !f.begun ==> Remaining(fp, f) == "[" + Remaining(fp, PrintFrame(f.v, true, f.members, f.idx))
    ensures f.begun ==> Remaining(fp, f) == "" + Remaining(fp, f)
  {
    var es := f.v.elems;
    if !f.begun { assert "[" + ElemsText(fp, es) + "]" == "[" + (ElemsText(fp, es) + "]"); }
  }

  method VisitObject(fp: Binary64, f0: PrintFrame) returns (head: string, turn: Visit)
    requires GoodFrame(fp, f0) && f0.v.Obj?
    ensures head != "" || (f0.begun && f0.idx == 0)
    ensures Visited(fp, f0, head, turn)
  {
    hide Print, Quote, Numeric, GoodFrame, Remaining, Sort;
    var f := f0;
    head := "";
    if !f.begun {
      head := "{";
      var sorted := GoSorted(f.v.members);
      f := PrintFrame(f.v, true, sorted, f.idx);
    }
    OpenObj(fp, f0);
    if f.idx < |f.members| {
      var m := f.members[f.idx];
      ObjNext(fp, f);
      var comma := if f.idx > 0 then "," else "";
      ghost var h, q := head, Quote(m.name);
      head := GoWriteString(head + comma, m.name);
      head := head + ":";
      var g := PrintFrame(f.v, true, f.members, f.idx + 1);
      ghost var y := Print(fp, m.val) + Remaining(fp, g);
      RegroupMember(h, comma, q, y);
      return head, Descend(g, m.val);
    }
    ObjEnd(fp, f);
    return head + "}", Finished;
  }

  lemma RegroupMember(h: string, comma: string, q: string, y: string)
    ensures h + (comma + (q + ":" + y)) == ((h + comma) + q + ":") + y
  {
  }

  /** An object frame with members left prints a comma after the first, the member, and what is left then. */
  lemma ObjNext(fp: Binary64, f: PrintFrame)
    requires GoodFrame(fp, f) && f.v.Obj? && f.begun && f.idx < |f.members|
    ensures var g := PrintFrame(f.v, true, f.members, f.idx + 1);
            var m := f.members[f.idx];
            && GoodFrame(fp, g) && Numeric(fp, m.val)
            && Remaining(fp, f) ==
               (if f.idx > 0 then "," else "") + (Quote(m.name) + ":" + (Print(fp, m.val) + Remaining(fp, g)))
  {
    hide Print, FromEntry, Quote, Sort, RenderMembers;
    var r, m := RenderMembers(fp, f.members), f.members[f.idx];
    NextEntry(r, f.idx);
    RenderAt(fp, f.members, f.idx);
    SortNumeric(fp, f.v.members);
    RegroupEntry(if f.idx > 0 then "," else "", Quote(m.name), Print(fp, m.val), FromEntry(r, f.idx + 1));
  }

  lemma RegroupEntry(comma: string, q: string, x: string, y: string)
    ensures (comma + (q + ":" + (x + y))) + "}" == comma + (q + ":" + (x + (y + "}")))
  {
  }

  lemma ObjEnd(fp: Binary64, f: PrintFrame)
    requires GoodFrame(fp, f) && f.v.Obj? && f.begun && f.idx >= |f.members|
    ensures Remaining(fp, f) == "}"
  {
    hide Sort;
  }

  lemma OpenObj(fp: Binary64, f: PrintFrame)
    requires GoodFrame(fp, f) && f.v.Obj?
    ensures !f.begun ==> (
            var g := PrintFrame(f.v, true, Sort(f.v.members), f.idx);
            GoodFrame(fp, g) && Remaining(fp, f) == "{" + Remaining(fp, g))
    ensures f.begun ==> Remaining(fp, f) == "" + Remaining(fp, f)
  {
    hide RenderMembers, Sort, EntriesText;
    SortKeeps(f.v.members);
    if !f.begun {
      RenderSort(fp, f.v.members);
      var t := EntriesText(Sort(RenderMembers(fp, f.v.members)));
      assert "{" + t + "}" == "{" + (t + "}");
    }
  }

  method WriteScalar(fp: Binary64, v: Scalar) returns (head: string)
    requires Faithful(fp) && Numeric(fp, v)
    ensures head == Print(fp, v) && head != ""
  {
    hide Faithful, EsNumber, GoFormatNumber;
    PrintNonEmpty(fp, v);
    match v
    case Null => head := "null";
    case Bool(b) => head := if b then "true" else "false";
    case Str(s) => head := GoWriteString("", s);
    case Num(n) =>
      FormatsAgree(fp, n);
      head := GoFormatNumber(fp, n);
  }

  /** A frame once visited never waits at its first child again. */
  ghost predicate Settled(f: PrintFrame) { f.begun ==> f.idx > 0 }

  method VisitFrame(fp: Binary64, f: PrintFrame) returns (head: string, turn: Visit)
    requires Faithful(fp) && GoodFrame(fp, f) && Settled(f)
    ensures head != ""
    ensures Visited(fp, f, head, turn)
  {
    hide Faithful, Print;
    if f.v.Arr? {
      head, turn := VisitArray(fp, f);
    } else if f.v.Obj? {
      head, turn := VisitObject(fp, f);
    } else {
      head := WriteScalar(fp, f.v);
      turn := Finished;
    }
  }

  /** Go's Canonicalize: what is written and what the frames have still to print always make up the
      canonical text, and that remainder gets shorter on every turn. */
  method GoCanonicalize(fp: Binary64, v: Value) returns (buf: string)
    requires Faithful(fp) && Numeric(fp, v)
    ensures buf == Print(fp, v)
  {
    hide Faithful, Remaining, PendingFrames, Numeric, GoodFrame, Print;
    buf := "";
    var stack: seq<PrintFrame> := [];
    NoFrames(fp);
    FreshFrame(fp, v);
    FramesPush(fp, [], Start(v));
    stack := [] + [Start(v)];
    assert Print(fp, v) + "" == Print(fp, v);
    while stack != []
      invariant GoodFrames(fp, stack) && forall i :: 0 <= i < |stack| ==> Settled(stack[i])
      invariant buf + PendingFrames(fp, stack) == Print(fp, v)
      decreases |PendingFrames(fp, stack)|
    {
      var f, below := Top(stack), Below(stack);
      assert stack == below + [f];
      FramesPush(fp, below, f);
      ghost var rest := PendingFrames(fp, below);
      var head, turn := VisitFrame(fp, f);
      match turn {
        case Finished =>
          assert buf + (head + rest) == (buf + head) + rest;
          buf, stack := buf + head, below;
        case Descend(g, child) =>
          FreshFrame(fp, child);
          FramesPush(fp, below, g);
          FramesPush(fp, below + [g], Start(child));
          RegroupDescend(buf, head, Print(fp, child), Remaining(fp, g), rest);
          buf, stack := buf + head, below + [g] + [Start(child)];
      }
    }
    NoFrames(fp);
    assert buf + "" == buf;
  }

  lemma RegroupDescend(a: string, b: string, c: string, d: string, e: string)
    ensures a + ((b + (c + d)) + e) == (a + b) + (c + (d + e))
  {
  }

  lemma NoFrames(fp: Binary64)
    ensures GoodFrames(fp, []) && PendingFrames(fp, []) == ""
  {
  }

  lemma FreshFrame(fp: Binary64, v: Value)
    requires Numeric(fp, v)
    ensures GoodFrame(fp, Start(v)) && Settled(Start(v)) && Remaining(fp, Start(v)) == Print(fp, v)
  {
  }
}
