/** The two-pass parser: a tokenizer that advances a position, then a builder with a frame stack. */
module GoParser {
  import opened Values
  import opened Decimals
  import opened Lexing
  import opened Grammar
  import opened Machine
  import opened Lists
  import opened Scanners

  // ---------------------------------------------------------------- first pass

  class Parser {
    const data: string
    var pos: nat

    constructor (data: string)
      ensures this.data == data && pos == 0
    {
      this.data := data;
      pos := 0;
    }

    /** The unread text. */
    ghost function Unread(): string
      requires pos <= |data|
      reads this
    {
      data[pos..]
    }

    method SkipSpace(ghost fp: Binary64)
      requires pos <= |data|
      modifies this`pos
      ensures old(pos) <= pos <= |data| && (pos < |data| ==> !IsWs(data[pos]))
      ensures Tokens(fp, Unread()) == old(Tokens(fp, Unread()))
    {
      hide Tokens, SkipWs;
      ghost var start := pos;
      while pos < |data| && IsWs(data[pos])
        invariant start <= pos <= |data| && SkipWs(data[start..]) == SkipWs(data[pos..])
      {
        WsStep(data, pos);
        pos := pos + 1;
      }
      TokensSkip(fp, data[start..]);
      TokensSkip(fp, data[pos..]);
    }

    /** A string from its opening quote; every character is checked as it is decoded. */
    method ParseString() returns (r: Option<string>)
      requires pos < |data|
      modifies this`pos
      ensures match LexString(data[old(pos) + 1..])
              case BadString => r == None
              case String(text, rest) => r == Some(text) && old(pos) + 1 < pos <= |data| && rest == Unread()
    {
      hide Unescape, RawString;
      pos := pos + 1;
      ghost var start := pos;
      var b := "";
      PrependNothing(RawString(data[pos..]));
      while true
        invariant start <= pos <= |data| && Clean(b)
        invariant RawString(data[start..]) == Prepend(b, RawString(data[pos..]))
        decreases |data| - pos
      {
        if pos >= |data| {
          RawAtEnd(data[pos..]);
          return None;
        }
        var c := data[pos];
        RawAt(data, pos);
        if c == '"' {
          pos := pos + 1;
          assert b + "" == b;
          return Some(b);
        }
        var d, next := c, pos + 1;
        if c == '\\' {
          var e := EscapeAt(data, pos + 1);
          if e == None { return None; }
          d, next := e.value.0, e.value.1;
        } else if c as int < 0x20 {
          return None;
        }
        if IsNonchar(d) {
          Spoiled(b, d, RawString(data[next..]));
          PrependTwice(b, [d], RawString(data[next..]));
          return None;
        }
        PrependTwice(b, [d], RawString(data[next..]));
        b, pos := b + [d], next;
      }
    }

    /** A number token, converted to binary64; a negative token that rounds to zero is refused. */
    method ParseNumber(fp: Binary64) returns (r: Option<real>)
      requires pos < |data|
      modifies this`pos
      ensures match LexNumber(fp, data[old(pos)..])
              case Tok(t, rest) => r.Some? && t == Literal(Num(r.value)) && old(pos) < pos <= |data| && rest == Unread()
              case _ => r == None
    {
      var p := NumberAt(fp, data, pos);
      if p == None { return None; }
      pos := p.value.1;
      return Some(p.value.0);
    }

    method TakeWord(word: string) returns (ok: bool)
      requires pos <= |data|
      modifies this`pos
      ensures ok <==> word <= old(Unread())
      ensures ok ==> pos == old(pos) + |word| && pos <= |data| && Unread() == old(Unread())[|word|..]
      ensures !ok ==> pos == old(pos)
    {
      WordAt(data, pos, word);
      if pos + |word| > |data| { return false; }
      if data[pos..pos + |word|] != word { return false; }
      pos := pos + |word|;
      return true;
    }

    /** One token at a position that is not white space. */
    method NextToken(fp: Binary64) returns (r: Option<Token>)
      requires pos < |data| && !IsWs(data[pos])
      modifies this`pos
      ensures var l := LexOne(fp, data[old(pos)..]);
              if r.Some? then r.value != Error && old(pos) < pos <= |data| && l == Tok(r.value, Unread()) else !l.Tok?
    {
      hide LexNumber, LexString;
      var c := data[pos];
      DropDrop(data, pos, 1);
      if Punct(c).Some? {
        LexPunct(fp, data[pos..]);
        pos := pos + 1;
        return Punct(c);
      } else if c == '"' {
        LexQuote(fp, data[pos..]);
        var s := ParseString();
        if s == None { return None; }
        return Some(Literal(Str(s.value)));
      } else if c == 't' {
        var ok := TakeWord("true");
        if !ok { return None; }
        return Some(Literal(Bool(true)));
      } else if c == 'f' {
        var ok := TakeWord("false");
        if !ok { return None; }
        return Some(Literal(Bool(false)));
      } else if c == 'n' {
        var ok := TakeWord("null");
        if !ok { return None; }
        return Some(Literal(Null));
      } else if c == '-' || IsDigit(c) {
        LexNumberKind(fp, data[pos..]);
        var x := ParseNumber(fp);
        if x == None { return None; }
        return Some(Literal(Num(x.value)));
      } else {
        return None;
      }
    }

    /** The whole token list, or failure exactly when the text has a lexical error. */
    method Tokenize(fp: Binary64) returns (r: Option<seq<Token>>)
      requires pos <= |data|
      modifies this`pos
      ensures var ts := Tokens(fp, old(Unread()));
              r == if Error in ts then None else Some(ts)
    {
      hide LexOne, Tokens;
      ghost var all := Tokens(fp, Unread());
      var toks: seq<Token> := [];
      while true
        invariant pos <= |data| && Error !in toks && all == toks + Tokens(fp, Unread())
        decreases |data| - pos
      {
        SkipSpace(fp);
        if pos >= |data| {
          NoTokens(fp, data);
          assert toks + [] == toks;
          return Some(toks);
        }
        TokenAt(fp, data, pos);
        var t := NextToken(fp);
        if t == None {
          assert all[|toks|] == Error;
          return None;
        }
        assert toks + ([t.value] + Tokens(fp, Unread())) == (toks + [t.value]) + Tokens(fp, Unread());
        toks := toks + [t.value];
      }
    }
  }

  /** A noncharacter met on the way is in the finished string, if there is one. */
  lemma Spoiled(b: string, d: char, r: StrScan)
    requires IsNonchar(d)
    ensures var p := Prepend(b + [d], r); p.BadString? || !Clean(p.text)
  {
    if r.String? { assert (b + [d] + r.text)[|b|] == d; }
  }

  // ---------------------------------------------------------------- second pass

  datatype BuildPhase =
    | ObjKeyOrClose | ObjKey | ObjColon | ObjValue | ObjCommaOrClose
    | ArrValOrClose | ArrVal | ArrCommaOrClose

  /** A node under construction. A child is attached to its parent when it opens; the parent's copy of
      it is brought up to date when the child closes. */
  datatype Node =
    | ObjNode(members: seq<Entry<Value>>, keys: set<string>, ph: BuildPhase, pending: string)
    | ArrNode(elems: seq<Value>, ph: BuildPhase)

  ghost predicate KeysMatch(f: Node) requires f.ObjNode? {
    forall k :: k in f.keys <==> HasName(f.members, k) || (f.ph in {ObjColon, ObjValue} && k == f.pending)
  }

  predicate PhaseFits(f: Node) {
    if f.ObjNode? then f.ph in {ObjKeyOrClose, ObjKey, ObjColon, ObjValue, ObjCommaOrClose}
    else f.ph in {ArrValOrClose, ArrVal, ArrCommaOrClose}
  }

  ghost predicate GoodNode(f: Node) {
    && PhaseFits(f)
    && (f.ObjNode? ==> KeysMatch(f) && (f.ph in {ObjColon, ObjValue} ==> !HasName(f.members, f.pending)))
    && (f.ph == ObjKeyOrClose ==> f.members == [])
    && (f.ph == ArrValOrClose ==> f.elems == [])
  }

  /** A node whose last child is still open. */
  ghost predicate Waiting(f: Node) {
    if f.ObjNode? then f.ph == ObjCommaOrClose && f.members != [] && !HasName(Below(f.members), Top(f.members).name)
    else f.ph == ArrCommaOrClose && f.elems != []
  }

  ghost predicate GoodStack(stack: seq<Node>) {
    && (forall i :: 0 <= i < |stack| ==> GoodNode(stack[i]))
    && (forall i :: 0 <= i < |stack| - 1 ==> Waiting(stack[i]))
  }

  /** The suspended containers as the grammar sees them: without the unfinished child. */
  ghost function Suspend(f: Node): Frame
    requires Waiting(f)
  {
    if f.ObjNode? then ObjFrame(Below(f.members), Some(Top(f.members).name)) else ArrFrame(Below(f.elems))
  }

  ghost function SuspendAll(stack: seq<Node>): (r: seq<Frame>)
    requires forall i :: 0 <= i < |stack| ==> Waiting(stack[i])
    ensures |r| == |stack|
  {
    seq(|stack|, i requires 0 <= i < |stack| => Suspend(stack[i]))
  }

  /** What the grammar would still do from the builder's stack. */
  ghost function Meaning(stack: seq<Node>, ts: seq<Token>): Option<Value>
    requires stack != [] && GoodStack(stack)
  {
    var susp, f := SuspendAll(Below(stack)), Top(stack);
    if f.ph == ObjKeyOrClose then
      if ts != [] && ts[0] == RBrace then Deliver(susp, Obj([]), ts[1..])
      else Finish(susp, PMembers(ts, []))
    else if f.ph == ArrValOrClose then
      if ts != [] && ts[0] == RBracket then Deliver(susp, Arr([]), ts[1..])
      else Finish(susp, PElems(ts, []))
    else Resume(Facing(susp, f), ts)
  }

  /** The machine state of the grammar that a settled top node stands for. */
  ghost function Facing(susp: seq<Frame>, f: Node): (st: State)
    requires PhaseFits(f) && f.ph != ObjKeyOrClose && f.ph != ArrValOrClose
    ensures WellPhased(st)
  {
    if f.ObjNode? then
      if f.ph == ObjKey then State(susp + [ObjFrame(f.members, None)], KeyPhase)
      else if f.ph == ObjColon then State(susp + [ObjFrame(f.members, Some(f.pending))], ColonPhase)
      else if f.ph == ObjValue then State(susp + [ObjFrame(f.members, Some(f.pending))], ValuePhase)
      else State(susp + [ObjFrame(f.members, None)], ObjNextPhase)
    else
      if f.ph == ArrVal then State(susp + [ArrFrame(f.elems)], ValuePhase)
      else State(susp + [ArrFrame(f.elems)], ArrNextPhase)
  }

  lemma SuspendPush(stack: seq<Node>, f: Node)
    requires (forall i :: 0 <= i < |stack| ==> Waiting(stack[i])) && Waiting(f)
    ensures (forall i :: 0 <= i < |stack + [f]| ==> Waiting((stack + [f])[i]))
    ensures SuspendAll(stack + [f]) == SuspendAll(stack) + [Suspend(f)]
  {
    hide Waiting, Suspend;
  }

  lemma GoodPush(stack: seq<Node>, f: Node)
    requires GoodStack(stack) && (stack != [] ==> Waiting(Top(stack))) && GoodNode(f)
    ensures GoodStack(stack + [f])
  {
    hide Waiting, GoodNode;
  }

  lemma GoodBelow(stack: seq<Node>)
    requires GoodStack(stack) && stack != []
    ensures GoodStack(Below(stack)) && GoodNode(Top(stack))
    ensures forall i :: 0 <= i < |Below(stack)| ==> Waiting(Below(stack)[i])
    ensures Below(stack) != [] ==> Waiting(Top(Below(stack)))
  {
    hide Waiting, GoodNode;
  }

  lemma NextIgnoresKey(below: seq<Frame>, ms: seq<Entry<Value>>, a: Option<string>, b: Option<string>, ts: seq<Token>)
    ensures Resume(State(below + [ObjFrame(ms, a)], ObjNextPhase), ts) ==
            Resume(State(below + [ObjFrame(ms, b)], ObjNextPhase), ts)
  {
    PushPop(below, ObjFrame(ms, a));
    PushPop(below, ObjFrame(ms, b));
  }

  /** A child value set into its parent. */
  function SetLast(f: Node, v: Value): Node
    requires if f.ObjNode? then f.members != [] else f.elems != []
  {
    if f.ObjNode? then f.(members := Below(f.members) + [Entry(Top(f.members).name, v)])
    else f.(elems := Below(f.elems) + [v])
  }

  /** A child value attached to the node that expects it. */
  function Attach(f: Node, v: Value): Node {
    if f.ObjNode? then ObjNode(f.members + [Entry(f.pending, v)], f.keys, ObjCommaOrClose, "")
    else ArrNode(f.elems + [v], ArrCommaOrClose)
  }

  lemma SameNames(ms: seq<Entry<Value>>, ns: seq<Entry<Value>>, k: string)
    requires |ms| == |ns| && forall i :: 0 <= i < |ms| ==> ms[i].name == ns[i].name
    ensures HasName(ms, k) <==> HasName(ns, k)
  {
  }

  lemma SetLastGood(f: Node, v: Value)
    requires GoodNode(f) && Waiting(f)
    ensures GoodNode(SetLast(f, v)) && Waiting(SetLast(f, v)) && SetLast(f, v).ph == f.ph
    ensures Suspend(SetLast(f, v)) == Suspend(f)
  {
    var g := SetLast(f, v);
    if f.ObjNode? {
      assert Below(g.members) == Below(f.members) && Top(g.members).name == Top(f.members).name;
      forall k ensures HasName(g.members, k) <==> HasName(f.members, k) { SameNames(g.members, f.members, k); }
    } else {
      assert Below(g.elems) == Below(f.elems);
    }
  }

  predicate Expecting(f: Node) { f.ph == ObjValue || f.ph == ArrValOrClose || f.ph == ArrVal }

  lemma HasNameAppend(ms: seq<Entry<Value>>, e: Entry<Value>, k: string)
    ensures HasName(ms + [e], k) <==> HasName(ms, k) || k == e.name
  {
    if HasName(ms, k) {
      var i :| 0 <= i < |ms| && ms[i].name == k;
      assert (ms + [e])[i].name == k;
    }
    if k == e.name { assert (ms + [e])[|ms|].name == k; }
  }

  lemma AttachGood(f: Node, v: Value)
    requires GoodNode(f) && Expecting(f)
    ensures GoodNode(Attach(f, v)) && Waiting(Attach(f, v))
    ensures Suspend(Attach(f, v)) == if f.ObjNode? then ObjFrame(f.members, Some(f.pending)) else ArrFrame(f.elems)
  {
    var g := Attach(f, v);
    if f.ObjNode? {
      assert Below(g.members) == f.members && Top(g.members).name == f.pending;
      forall k ensures HasName(g.members, k) <==> HasName(f.members, k) || k == f.pending {
        HasNameAppend(f.members, Entry(f.pending, v), k);
      }
    } else {
      assert Below(g.elems) == f.elems;
    }
  }

  // ---------------------------------------------------------------- one token of the second pass

  datatype BuildTurn = Refuse | Stack(stack: seq<Node>) | Root(v: Value)

  /** The turn has the meaning of the stack before it, with one token fewer to read. */
  ghost predicate Advances(meaning: Option<Value>, ts: seq<Token>, out: BuildTurn) {
    match out
    case Refuse => meaning == None
    case Root(v) => meaning == Deliver([], v, ts)
    case Stack(st) => st != [] && GoodStack(st) && Meaning(st, ts) == meaning
  }

  /** The container on top is complete with value `v`. */
  method CloseTop(stack: seq<Node>, v: Value, ghost ts: seq<Token>) returns (out: BuildTurn)
    requires stack != [] && GoodStack(stack)
    ensures GoodBelowWaiting(stack) && Advances(Deliver(SuspendAll(Below(stack)), v, ts), ts, out)
  {
    hide Waiting, GoodNode, Resume, Deliver, GoodStack;
    GoodBelow(stack);
    var below := Below(stack);
    if below == [] { return Root(v); }
    GoodBelow(below);
    var parent := Top(below);
    WaitingHasLast(parent);
    var parent' := SetLast(parent, v);
    SetLastGood(parent, v);
    GoodPush(Below(below), parent');
    PushPop(Below(below), parent');
    DeliverToParent(Below(below), parent, v, ts);
    assert below == Below(below) + [parent];
    return Stack(Below(below) + [parent']);
  }

  ghost predicate GoodBelowWaiting(stack: seq<Node>) {
    stack != [] && forall i :: 0 <= i < |Below(stack)| ==> Waiting(Below(stack)[i])
  }

  lemma WaitingHasLast(f: Node)
    requires Waiting(f)
    ensures if f.ObjNode? then f.members != [] else f.elems != []
  {
  }

  /** Delivering to a suspended container is setting the parent's last child. */
  lemma DeliverToParent(rest: seq<Node>, parent: Node, v: Value, ts: seq<Token>)
    requires GoodStack(rest) && (forall i :: 0 <= i < |rest| ==> Waiting(rest[i])) && GoodNode(parent)
            && Waiting(parent)
    ensures GoodStack(rest + [SetLast(parent, v)])
    ensures (forall i :: 0 <= i < |rest + [parent]| ==> Waiting((rest + [parent])[i]))
    ensures Meaning(rest + [SetLast(parent, v)], ts) == Deliver(SuspendAll(rest + [parent]), v, ts)
  {
    hide Resume, Deliver, GoodStack, GoodNode;
    var g := SetLast(parent, v);
    SetLastGood(parent, v);
    GoodPush(rest, g);
    SuspendPush(rest, parent);
    PushPop(rest, g);
    var susp := SuspendAll(rest);
    PushPop(susp, Suspend(parent));
    if parent.ObjNode? {
      var ms, k := Below(parent.members), Top(parent.members).name;
      DeliverToObject(susp + [Suspend(parent)], k, v, ts);
      NextIgnoresKey(susp, ms + [Entry(k, v)], Some(k), None, ts);
    } else {
      DeliverToArray(susp + [Suspend(parent)], v, ts);
    }
  }

  const EMPTY_OBJ := ObjNode([], {}, ObjKeyOrClose, "")
  const EMPTY_ARR := ArrNode([], ArrValOrClose)

  lemma EmptyGood()
    ensures GoodNode(EMPTY_OBJ) && GoodNode(EMPTY_ARR)
  {
  }

  /** A container just opened: the grammar's value rule after its bracket. */
  lemma OpenedMeaning(below: seq<Node>, ts: seq<Token>)
    requires GoodStack(below) && (forall i :: 0 <= i < |below| ==> Waiting(below[i]))
    ensures GoodStack(below + [EMPTY_OBJ]) && GoodStack(below + [EMPTY_ARR])
    ensures Meaning(below + [EMPTY_OBJ], ts) == Resume(State(SuspendAll(below), ValuePhase), [LBrace] + ts)
    ensures Meaning(below + [EMPTY_ARR], ts) == Resume(State(SuspendAll(below), ValuePhase), [LBracket] + ts)
  {
    hide Waiting, GoodNode, Deliver, GoodStack, PMembers, PElems, PValue;
    EmptyGood();
    GoodPushed(below, EMPTY_OBJ);
    GoodPushed(below, EMPTY_ARR);
    PushPop(below, EMPTY_OBJ);
    PushPop(below, EMPTY_ARR);
    BracketRule(ts);
  }

  lemma BracketRule(ts: seq<Token>)
    ensures PValue([LBrace] + ts) == (if ts != [] && ts[0] == RBrace then Done(Obj([]), ts[1..]) else PMembers(ts, []))
    ensures PValue([LBracket] + ts) ==
            (if ts != [] && ts[0] == RBracket then Done(Arr([]), ts[1..]) else PElems(ts, []))
  {
    hide PMembers, PElems;
    DropOne(LBrace, ts);
    DropOne(LBracket, ts);
    if ts != [] {
      assert ([LBrace] + ts)[1] == ts[0] && ([LBrace] + ts)[2..] == ts[1..];
      assert ([LBracket] + ts)[1] == ts[0] && ([LBracket] + ts)[2..] == ts[1..];
    }
  }

  /** The grammar's value rule at the node on top. */
  ghost function ValueMeaning(stack: seq<Node>, ts: seq<Token>): Option<Value>
    requires stack != [] && GoodBelowWaiting(stack)
  {
    var f := Top(stack);
    var frame := if f.ObjNode? then ObjFrame(f.members, Some(f.pending)) else ArrFrame(f.elems);
    Resume(State(SuspendAll(Below(stack)) + [frame], ValuePhase), ts)
  }

  /** A value token at a node that expects one: open a container or attach a scalar. */
  method TakeChild(stack: seq<Node>, t: Token, ghost ts: seq<Token>) returns (out: BuildTurn)
    requires stack != [] && GoodStack(stack) && Expecting(Top(stack))
    ensures GoodBelowWaiting(stack) && Advances(ValueMeaning(stack, [t] + ts), ts, out)
  {
    hide Waiting, GoodNode, Resume, Deliver, GoodStack, Meaning;
    GoodBelow(stack);
    var below, f := Below(stack), Top(stack);
    match t
    case LBrace =>
      AttachGood(f, Obj([]));
      OpenUnder(below, Attach(f, Obj([])), ts);
      return Stack(below + [Attach(f, Obj([]))] + [EMPTY_OBJ]);
    case LBracket =>
      AttachGood(f, Arr([]));
      OpenUnder(below, Attach(f, Arr([])), ts);
      return Stack(below + [Attach(f, Arr([]))] + [EMPTY_ARR]);
    case Literal(v) =>
      AttachGood(f, v);
      AttachMeaning(below, f, v, ts);
      return Stack(below + [Attach(f, v)]);
    case _ =>
      ResumeNoValue(State(SuspendAll(below), ValuePhase).stack, t, ts);
      NoValueHere(stack, t, ts);
      return Refuse;
  }

  lemma NoValueHere(stack: seq<Node>, t: Token, ts: seq<Token>)
    requires stack != [] && GoodBelowWaiting(stack) && !t.Literal? && t != LBrace && t != LBracket
    ensures ValueMeaning(stack, [t] + ts) == None
  {
    hide Resume;
    var f := Top(stack);
    var frame := if f.ObjNode? then ObjFrame(f.members, Some(f.pending)) else ArrFrame(f.elems);
    ResumeNoValue(SuspendAll(Below(stack)) + [frame], t, ts);
  }

  lemma OpenUnder(below: seq<Node>, g: Node, ts: seq<Token>)
    requires GoodStack(below) && (forall i :: 0 <= i < |below| ==> Waiting(below[i])) && GoodNode(g) && Waiting(g)
    ensures var st := SuspendAll(below) + [Suspend(g)];
            && GoodStack(below + [g] + [EMPTY_OBJ]) && GoodStack(below + [g] + [EMPTY_ARR])
            && Meaning(below + [g] + [EMPTY_OBJ], ts) == Resume(State(st, ValuePhase), [LBrace] + ts)
            && Meaning(below + [g] + [EMPTY_ARR], ts) == Resume(State(st, ValuePhase), [LBracket] + ts)
  {
    hide Waiting, GoodNode, Resume, Meaning, GoodStack;
    SuspendPush(below, g);
    GoodPushed(below, g);
    OpenedMeaning(below + [g], ts);
  }

  lemma GoodPushed(below: seq<Node>, g: Node)
    requires GoodStack(below) && (forall i :: 0 <= i < |below| ==> Waiting(below[i])) && GoodNode(g)
    ensures GoodStack(below + [g])
  {
    GoodPush(below, g);
  }

  lemma AttachMeaning(below: seq<Node>, f: Node, v: Scalar, ts: seq<Token>)
    requires GoodStack(below) && (forall i :: 0 <= i < |below| ==> Waiting(below[i])) && GoodNode(f) && Expecting(f)
    ensures GoodStack(below + [Attach(f, v)])
    ensures var frame := if f.ObjNode? then ObjFrame(f.members, Some(f.pending)) else ArrFrame(f.elems);
            Meaning(below + [Attach(f, v)], ts) ==
                Resume(State(SuspendAll(below) + [frame], ValuePhase), [Literal(v)] + ts)
  {
    hide Waiting, GoodNode, Resume, Deliver, GoodStack;
    var g := Attach(f, v);
    AttachGood(f, v);
    GoodPushed(below, g);
    PushPop(below, g);
    var susp := SuspendAll(below);
    var frame := if f.ObjNode? then ObjFrame(f.members, Some(f.pending)) else ArrFrame(f.elems);
    PushPop(susp, frame);
    ResumeScalar(susp + [frame], v, ts);
    if f.ObjNode? {
      FreshPending(f);
      DeliverToObject(susp + [frame], f.pending, v, ts);
      NextIgnoresKey(susp, f.members + [Entry(f.pending, v)], Some(f.pending), None, ts);
    } else {
      DeliverToArray(susp + [frame], v, ts);
    }
  }

  lemma FreshPending(f: Node)
    requires GoodNode(f) && f.ObjNode? && Expecting(f)
    ensures !HasName(f.members, f.pending)
  {
  }

  lemma NameRead(stack: seq<Node>, k: string, ts: seq<Token>)
    requires stack != [] && GoodStack(stack) && Top(stack).ObjNode? && Top(stack).ph in {ObjKeyOrClose, ObjKey}
    requires k !in Top(stack).keys
    ensures var f := Top(stack); var st := Below(stack) + [ObjNode(f.members, f.keys + {k}, ObjColon, k)];
            GoodBelowWaiting(stack) && GoodStack(st) &&
            Meaning(st, ts) == Finish(SuspendAll(Below(stack)), PMembers([Literal(Str(k))] + ts, f.members))
  {
    hide Waiting, Resume, GoodStack, PMembers, Finish, GoodNode, SuspendAll, Meaning;
    GoodBelow(stack);
    var below, f := Below(stack), Top(stack);
    var susp := SuspendAll(below);
    NameGood(f, k);
    var g := ObjNode(f.members, f.keys + {k}, ObjColon, k);
    GoodPushed(below, g);
    PushPop(below, g);
    NameRule(susp, f.members, [Literal(Str(k))] + ts);
    ResumeKey(susp, ObjFrame(f.members, None), k, ts);
    MeaningByPhase(below + [g], ts);
  }

  /** A name at an object: refused when it is there already, otherwise pending. */
  method TakeName(stack: seq<Node>, t: Token, ghost ts: seq<Token>) returns (out: BuildTurn)
    requires stack != [] && GoodStack(stack) && Top(stack).ObjNode? && Top(stack).ph in {ObjKeyOrClose, ObjKey}
    ensures GoodBelowWaiting(stack)
    ensures Advances(Finish(SuspendAll(Below(stack)), PMembers([t] + ts, Top(stack).members)), ts, out)
  {
    hide Waiting, GoodNode, Resume, GoodStack, PMembers, Finish, SuspendAll, Meaning;
    GoodBelow(stack);
    var f := Top(stack);
    ghost var susp := SuspendAll(Below(stack));
    ghost var st := State(susp + [ObjFrame(f.members, None)], KeyPhase);
    NameRule(susp, f.members, [t] + ts);
    DropOne(t, ts);
    if !IsStr(t) {
      ResumeNoKey(st, [t] + ts);
      return Refuse;
    }
    var k := t.v.s;
    NameGood(f, k);
    if k in f.keys {
      PushPop(susp, ObjFrame(f.members, None));
      ResumeDuplicateKey(st, k, ts);
      return Refuse;
    }
    NameRead(stack, k, ts);
    return Stack(Below(stack) + [ObjNode(f.members, f.keys + {k}, ObjColon, k)]);
  }

  lemma NameRule(susp: seq<Frame>, ms: seq<Entry<Value>>, ts: seq<Token>)
    ensures var st := State(susp + [ObjFrame(ms, None)], KeyPhase);
            WellPhased(st) && Resume(st, ts) == Finish(susp, PMembers(ts, ms))
  {
    PushPop(susp, ObjFrame(ms, None));
  }

  lemma NameGood(f: Node, k: string)
    requires GoodNode(f) && f.ObjNode? && f.ph in {ObjKeyOrClose, ObjKey}
    ensures k in f.keys <==> HasName(f.members, k)
    ensures k !in f.keys ==> GoodNode(ObjNode(f.members, f.keys + {k}, ObjColon, k))
  {
  }

  ghost function AtColon(susp: seq<Frame>, f: Node): (st: State)
    requires f.ObjNode?
    ensures WellPhased(st)
  {
    State(susp + [ObjFrame(f.members, Some(f.pending))], ColonPhase)
  }

  ghost function AtObjNext(susp: seq<Frame>, f: Node): (st: State)
    requires f.ObjNode?
    ensures WellPhased(st) && st.phase == ObjNextPhase && Below(st.stack) == susp
            && Top(st.stack) == ObjFrame(f.members, None)
  {
    PushPop(susp, ObjFrame(f.members, None));
    State(susp + [ObjFrame(f.members, None)], ObjNextPhase)
  }

  ghost function AtArrNext(susp: seq<Frame>, f: Node): (st: State)
    requires f.ArrNode?
    ensures WellPhased(st) && st.phase == ArrNextPhase && Below(st.stack) == susp && Top(st.stack) == ArrFrame(f.elems)
  {
    PushPop(susp, ArrFrame(f.elems));
    State(susp + [ArrFrame(f.elems)], ArrNextPhase)
  }

  /** The meaning of a stack by the phase of its top node. */
  lemma MeaningByPhase(stack: seq<Node>, ts: seq<Token>)
    requires stack != [] && GoodStack(stack)
    ensures GoodBelowWaiting(stack) && GoodNode(Top(stack))
    ensures var f := Top(stack);
            && (f.ph == ObjKey ==>
               f.ObjNode? && Meaning(stack, ts) == Finish(SuspendAll(Below(stack)), PMembers(ts, f.members)))
            && (f.ph == ObjValue ==> f.ObjNode? && Meaning(stack, ts) == ValueMeaning(stack, ts))
            && (f.ph == ArrVal ==> f.ArrNode? && Meaning(stack, ts) == ValueMeaning(stack, ts))
            && (f.ph == ObjColon ==>
               f.ObjNode? && Meaning(stack, ts) == Resume(AtColon(SuspendAll(Below(stack)), f), ts))
            && (f.ph == ObjCommaOrClose ==>
               f.ObjNode? && Meaning(stack, ts) == Resume(AtObjNext(SuspendAll(Below(stack)), f), ts))
            && (f.ph == ArrCommaOrClose ==>
               f.ArrNode? && Meaning(stack, ts) == Resume(AtArrNext(SuspendAll(Below(stack)), f), ts))
  {
    hide Waiting, Resume, Deliver, PMembers, Finish;
    GoodBelow(stack);
    if Top(stack).ph == ObjKey { NameRule(SuspendAll(Below(stack)), Top(stack).members, ts); }
  }

  /** At a container just opened: close at once, or read the first member or element. */
  lemma MeaningOpened(stack: seq<Node>, t: Token, ts: seq<Token>)
    requires stack != [] && GoodStack(stack)
    ensures GoodBelowWaiting(stack)
    ensures var f, susp := Top(stack), SuspendAll(Below(stack));
            && (f.ph == ObjKeyOrClose ==> (
                && f.ObjNode? && f.members == []
                && Meaning(stack, [t] + ts) ==
                   (if t == RBrace then Deliver(susp, Obj([]), ts) else Finish(susp, PMembers([t] + ts, [])))))
            && (f.ph == ArrValOrClose ==> (
                && f.ArrNode? && f.elems == []
                && Meaning(stack, [t] + ts) ==
                   (if t == RBracket then Deliver(susp, Arr([]), ts) else ValueMeaning(stack, [t] + ts))))
  {
    hide Waiting, Resume, Deliver, PMembers, Finish, PElems;
    GoodBelow(stack);
    DropOne(t, ts);
    if Top(stack).ph == ArrValOrClose { ElementRule(SuspendAll(Below(stack)), [], [t] + ts); }
  }

  lemma Rephase(below: seq<Node>, f: Node, g: Node)
    requires GoodStack(below) && (forall i :: 0 <= i < |below| ==> Waiting(below[i])) && GoodNode(f)
    requires || (f.ph == ObjColon && f.ObjNode? && g == ObjNode(f.members, f.keys, ObjValue, f.pending))
             || (f.ph == ObjCommaOrClose && f.ObjNode? && g == ObjNode(f.members, f.keys, ObjKey, f.pending))
             || (f.ph == ArrCommaOrClose && f.ArrNode? && g == ArrNode(f.elems, ArrVal))
    ensures GoodNode(g) && GoodStack(below + [g]) && Top(below + [g]) == g && Below(below + [g]) == below
  {
    hide Waiting;
    assert GoodNode(g);
    GoodPushed(below, g);
    PushPop(below, g);
  }

  /** The switch over an object's phase. */
  method StepObject(stack: seq<Node>, t: Token, ghost ts: seq<Token>) returns (out: BuildTurn)
    requires stack != [] && GoodStack(stack) && Top(stack).ObjNode?
    ensures Advances(Meaning(stack, [t] + ts), ts, out)
  {
    hide Waiting, Resume, Deliver, GoodStack, PMembers, Finish, Meaning, ValueMeaning, KeysMatch;
    MeaningByPhase(stack, [t] + ts);
    var f := Top(stack);
    if f.ph == ObjKeyOrClose || f.ph == ObjKey {
      MeaningOpened(stack, t, ts);
      if t == RBrace && f.ph == ObjKeyOrClose {
        out := CloseTop(stack, Obj(f.members), ts);
        return;
      }
      out := TakeName(stack, t, ts);
    } else if f.ph == ObjColon {
      out := TakeColon(stack, t, ts);
    } else if f.ph == ObjValue {
      out := TakeChild(stack, t, ts);
    } else {
      out := AfterMember(stack, t, ts);
    }
  }

  lemma ColonRead(stack: seq<Node>, ts: seq<Token>)
    requires stack != [] && GoodStack(stack) && Top(stack).ObjNode? && Top(stack).ph == ObjColon
    ensures var f := Top(stack); var st := Below(stack) + [ObjNode(f.members, f.keys, ObjValue, f.pending)];
            GoodStack(st) && Meaning(st, ts) == Meaning(stack, [Colon] + ts)
  {
    hide Waiting, Resume, GoodStack, Meaning, GoodNode, SuspendAll;
    MeaningByPhase(stack, [Colon] + ts);
    GoodBelow(stack);
    var below, f := Below(stack), Top(stack);
    ResumeColon(AtColon(SuspendAll(below), f), ts);
    var g := ObjNode(f.members, f.keys, ObjValue, f.pending);
    Rephase(below, f, g);
    MeaningByPhase(below + [g], ts);
  }

  method TakeColon(stack: seq<Node>, t: Token, ghost ts: seq<Token>) returns (out: BuildTurn)
    requires stack != [] && GoodStack(stack) && Top(stack).ObjNode? && Top(stack).ph == ObjColon
    ensures Advances(Meaning(stack, [t] + ts), ts, out)
  {
    hide Waiting, Resume, GoodStack, Meaning, GoodNode, SuspendAll, AtColon;
    var f := Top(stack);
    if t != Colon {
      MeaningByPhase(stack, [t] + ts);
      DropOne(t, ts);
      ColonMissing(SuspendAll(Below(stack)), f, [t] + ts);
      return Refuse;
    }
    ColonRead(stack, ts);
    return Stack(Below(stack) + [ObjNode(f.members, f.keys, ObjValue, f.pending)]);
  }

  lemma ColonMissing(susp: seq<Frame>, f: Node, ts: seq<Token>)
    requires f.ObjNode? && ts != [] && ts[0] != Colon
    ensures Resume(AtColon(susp, f), ts) == None
  {
    hide Resume;
    ResumeNoColon(AtColon(susp, f), ts);
  }

  lemma MemberComma(stack: seq<Node>, ts: seq<Token>)
    requires stack != [] && GoodStack(stack) && Top(stack).ObjNode? && Top(stack).ph == ObjCommaOrClose
    ensures var f := Top(stack); var st := Below(stack) + [ObjNode(f.members, f.keys, ObjKey, f.pending)];
            GoodStack(st) && Meaning(st, ts) == Meaning(stack, [Comma] + ts)
  {
    hide Waiting, Resume, GoodStack, Meaning, GoodNode, SuspendAll, Finish, PMembers;
    MeaningByPhase(stack, [Comma] + ts);
    GoodBelow(stack);
    var below, f := Below(stack), Top(stack);
    ResumeObjComma(AtObjNext(SuspendAll(below), f), ts);
    NameRule(SuspendAll(below), f.members, ts);
    var g := ObjNode(f.members, f.keys, ObjKey, f.pending);
    Rephase(below, f, g);
    MeaningByPhase(below + [g], ts);
  }

  method AfterMember(stack: seq<Node>, t: Token, ghost ts: seq<Token>) returns (out: BuildTurn)
    requires stack != [] && GoodStack(stack) && Top(stack).ObjNode? && Top(stack).ph == ObjCommaOrClose
    ensures Advances(Meaning(stack, [t] + ts), ts, out)
  {
    hide Waiting, Resume, Deliver, GoodStack, Meaning, GoodNode, SuspendAll, AtObjNext;
    var f := Top(stack);
    if t == Comma {
      MemberComma(stack, ts);
      return Stack(Below(stack) + [ObjNode(f.members, f.keys, ObjKey, f.pending)]);
    }
    MeaningByPhase(stack, [t] + ts);
    ghost var st := AtObjNext(SuspendAll(Below(stack)), f);
    if t == RBrace {
      ResumeObjClose(st, ts);
      out := CloseTop(stack, Obj(f.members), ts);
      return;
    }
    DropOne(t, ts);
    ResumeObjOther(st, [t] + ts);
    return Refuse;
  }

  /** The switch over an array's phase. */
  method StepArray(stack: seq<Node>, t: Token, ghost ts: seq<Token>) returns (out: BuildTurn)
    requires stack != [] && GoodStack(stack) && Top(stack).ArrNode?
    ensures Advances(Meaning(stack, [t] + ts), ts, out)
  {
    hide Waiting, Resume, Deliver, GoodStack, Finish, Meaning, ValueMeaning;
    MeaningByPhase(stack, [t] + ts);
    var f := Top(stack);
    if f.ph == ArrValOrClose || f.ph == ArrVal {
      MeaningOpened(stack, t, ts);
      if t == RBracket && f.ph == ArrValOrClose {
        out := CloseTop(stack, Arr(f.elems), ts);
        return;
      }
      out := TakeChild(stack, t, ts);
    } else {
      out := AfterElement(stack, t, ts);
    }
  }

  lemma ElementComma(stack: seq<Node>, ts: seq<Token>)
    requires stack != [] && GoodStack(stack) && Top(stack).ArrNode? && Top(stack).ph == ArrCommaOrClose
    ensures var st := Below(stack) + [ArrNode(Top(stack).elems, ArrVal)];
            GoodStack(st) && Meaning(st, ts) == Meaning(stack, [Comma] + ts)
  {
    hide Waiting, Resume, GoodStack, Meaning, GoodNode, SuspendAll;
    MeaningByPhase(stack, [Comma] + ts);
    GoodBelow(stack);
    var below, f := Below(stack), Top(stack);
    ResumeArrComma(AtArrNext(SuspendAll(below), f), ts);
    var g := ArrNode(f.elems, ArrVal);
    Rephase(below, f, g);
    MeaningByPhase(below + [g], ts);
  }

  method AfterElement(stack: seq<Node>, t: Token, ghost ts: seq<Token>) returns (out: BuildTurn)
    requires stack != [] && GoodStack(stack) && Top(stack).ArrNode? && Top(stack).ph == ArrCommaOrClose
    ensures Advances(Meaning(stack, [t] + ts), ts, out)
  {
    hide Waiting, Resume, Deliver, GoodStack, Meaning, GoodNode, SuspendAll, AtArrNext;
    var f := Top(stack);
    if t == Comma {
      ElementComma(stack, ts);
      return Stack(Below(stack) + [ArrNode(f.elems, ArrVal)]);
    }
    MeaningByPhase(stack, [t] + ts);
    ghost var st := AtArrNext(SuspendAll(Below(stack)), f);
    if t == RBracket {
      ResumeArrClose(st, ts);
      out := CloseTop(stack, Arr(f.elems), ts);
      return;
    }
    DropOne(t, ts);
    ResumeArrOther(st, [t] + ts);
    return Refuse;
  }

  lemma ElementRule(susp: seq<Frame>, es: seq<Value>, ts: seq<Token>)
    ensures Resume(State(susp + [ArrFrame(es)], ValuePhase), ts) == Finish(susp, PElems(ts, es))
  {
    PushPop(susp, ArrFrame(es));
    ElementStep(susp + [ArrFrame(es)], ts);
  }

  /** The builder accepts exactly the token lists of the grammar and returns their value. */
  method BuildValue(toks: seq<Token>) returns (r: Option<Value>)
    ensures r == PDocument(toks)
  {
    hide Resume, Deliver, GoodStack, PDocument, Meaning;
    var stack: seq<Node> := [];
    var root: Option<Value> := None;
    StartIsDocument(toks);
    assert toks[0..] == toks;
    for i := 0 to |toks|
      invariant root.Some? ==> stack == [] && PDocument(toks) == Deliver([], root.value, toks[i..])
      invariant root == None && stack == [] ==> PDocument(toks) == Resume(State([], ValuePhase), toks[i..])
      invariant stack != [] ==> root == None && GoodStack(stack) && PDocument(toks) == Meaning(stack, toks[i..])
    {
      var t := toks[i];
      ghost var rest := toks[i + 1..];
      assert toks[i..] == [t] + rest;
      var out: BuildTurn;
      if root.Some? {
        AfterRoot(root.value, toks[i..]);
        return None;
      } else if stack == [] {
        out := TakeRoot(t, rest);
      } else if Top(stack).ObjNode? {
        out := StepObject(stack, t, rest);
      } else {
        out := StepArray(stack, t, rest);
      }
      match out {
        case Refuse => return None;
        case Stack(st) => stack := st;
        case Root(v) => stack, root := [], Some(v);
      }
    }
    assert toks[|toks|..] == [];
    if stack != [] {
      OpenAtEnd(stack);
      return None;
    }
    if root == None {
      ResumeEnd(State([], ValuePhase));
      return None;
    }
    RootAtEnd(root.value);
    return root;
  }

  lemma AfterRoot(v: Value, ts: seq<Token>)
    requires ts != []
    ensures Deliver([], v, ts) == None
  {
  }

  lemma RootAtEnd(v: Value)
    ensures Deliver([], v, []) == Some(v)
  {
  }

  lemma OpenAtEnd(stack: seq<Node>)
    requires stack != [] && GoodStack(stack)
    ensures Meaning(stack, []) == None
  {
    hide Resume, GoodNode, Waiting;
    var susp, f := SuspendAll(Below(stack)), Top(stack);
    if f.ph != ObjKeyOrClose && f.ph != ArrValOrClose {
      GoodBelow(stack);
      FitsGood(f);
      ResumeEnd(Facing(susp, f));
    }
  }

  lemma FitsGood(f: Node)
    requires GoodNode(f)
    ensures PhaseFits(f)
  {
  }

  method TakeRoot(t: Token, ghost ts: seq<Token>) returns (out: BuildTurn)
    ensures Advances(Resume(State([], ValuePhase), [t] + ts), ts, out)
  {
    hide Resume, Deliver, Meaning;
    OpenedMeaning([], ts);
    match t
    case LBrace => assert [] + [EMPTY_OBJ] == [EMPTY_OBJ]; return Stack([EMPTY_OBJ]);
    case LBracket => assert [] + [EMPTY_ARR] == [EMPTY_ARR]; return Stack([EMPTY_ARR]);
    case Literal(v) =>
      ResumeScalar([], v, ts);
      return Root(v);
    case _ =>
      ResumeNoValue([], t, ts);
      return Refuse;
  }

  /** Tokenize, then build: the two-pass parser decides the same documents with the same values. */
  method ParseDocument(fp: Binary64, data: string) returns (r: Option<Value>)
    ensures r == PDocument(Tokens(fp, data))
  {
    hide Tokens, PDocument;
    var p := new Parser(data);
    assert data[0..] == data;
    p.SkipSpace(fp);
    if p.pos >= |data| {
      NoTokens(fp, data);
      NothingParses();
      return None;
    }
    var toks := p.Tokenize(fp);
    if toks == None {
      ErrorNeverParses(Tokens(fp, data));
      return None;
    }
    r := BuildValue(toks.value);
  }

  lemma NothingParses()
    ensures PDocument([]) == None
  {
  }

  lemma ErrorNeverParses(ts: seq<Token>)
    requires Error in ts
    ensures PDocument(ts) == None
  {
    if PDocument(ts).Some? {
      var v := PDocument(ts).value;
      DocumentIff(ts, v);
      FlattenNoError(v);
    }
  }

  lemma {:induction false} FlattenNoError(v: Value)
    ensures Error !in Flatten(v)
    decreases v, 1
  {
    match v
    case Arr(es) => ElemsNoError(es);
    case Obj(ms) => MembersNoError(ms);
    case _ =>
  }

  lemma {:induction false} ElemsNoError(es: seq<Value>)
    ensures Error !in FlattenElems(es)
    decreases es, 0
  {
    if es != [] {
      FlattenNoError(es[0]);
      ElemsNoError(es[1..]);
    }
  }

  lemma {:induction false} MembersNoError(ms: seq<Entry<Value>>)
    ensures Error !in FlattenMembers(ms)
    decreases ms, 0
  {
    if ms != [] {
      FlattenNoError(ms[0].val);
      MembersNoError(ms[1..]);
    }
  }
}
