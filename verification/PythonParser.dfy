/** The one-pass parser: a phase machine over an index into the text, with a stack of open containers. */
module PythonParser {
  import opened Values
  import opened Decimals
  import opened Lexing
  import opened Grammar
  import opened Machine
  import opened Lists
  import opened Scanners

  /** Skipping white space leaves the unread tokens as they are. */
  method Ws(ghost fp: Binary64, s: string, i: nat) returns (j: nat)
    requires i <= |s|
    ensures i <= j <= |s| && (j < |s| ==> !IsWs(s[j]))
    ensures Tokens(fp, s[i..]) == Tokens(fp, s[j..])
  {
    hide Tokens, SkipWs;
    j := i;
    while j < |s| && IsWs(s[j])
      invariant i <= j <= |s| && SkipWs(s[i..]) == SkipWs(s[j..])
    {
      WsStep(s, j);
      j := j + 1;
    }
    TokensSkip(fp, s[i..]);
    TokensSkip(fp, s[j..]);
  }

  method CheckScalars(s: string) returns (ok: bool)
    ensures ok <==> Clean(s)
  {
    for k := 0 to |s|
      invariant forall m :: 0 <= m < k ==> !IsNonchar(s[m])
    {
      NoncharsAgree(s[k]);
      if PyNonchar(s[k]) { return false; }
    }
    return true;
  }

  /** A string from its opening quote at `i`; noncharacters are searched once the string is complete. */
  method StringAt(s: string, i: nat) returns (r: Option<(string, nat)>)
    requires i < |s|
    ensures match LexString(s[i + 1..])
            case BadString => r == None
            case String(text, rest) =>
              && r.Some? && r.value.0 == text && i + 1 < r.value.1 <= |s|
              && rest == s[r.value.1..]
  {
    hide Unescape, RawString;
    var j, chars := i + 1, "";
    assert RawString(s[j..]) == Prepend("", RawString(s[j..])) by { PrependNothing(RawString(s[j..])); }
    while j < |s|
      invariant i + 1 <= j <= |s|
      invariant RawString(s[i + 1..]) == Prepend(chars, RawString(s[j..]))
    {
      var c := s[j];
      RawAt(s, j);
      if c == '"' {
        var ok := CheckScalars(chars);
        assert chars + "" == chars;
        if !ok { return None; }
        return Some((chars, j + 1));
      }
      if c == '\\' {
        var e := EscapeAt(s, j + 1);
        if e == None { return None; }
        PrependTwice(chars, [e.value.0], RawString(s[e.value.1..]));
        chars, j := chars + [e.value.0], e.value.1;
      } else if c as int <= 0x1F {
        return None;
      } else {
        PrependTwice(chars, [c], RawString(s[j + 1..]));
        chars, j := chars + [c], j + 1;
      }
    }
    RawAtEnd(s[j..]);
    return None;
  }

  // ---------------------------------------------------------------- the phase machine

  /** One turn of the loop either ends the run or leaves a state with less unread text. */
  datatype Turn = Rejected | Returned(v: Value) | Next(st: State, i: nat)

  /** A turn answers as the grammar does, or leaves a state with the same answer and less to read. */
  ghost predicate Keeps(fp: Binary64, s: string, st: State, i: nat, out: Turn) {
    i <= |s| && WellPhased(st) &&
    match out
    case Rejected => Resume(st, Tokens(fp, s[i..])) == None
    case Returned(v) => Resume(st, Tokens(fp, s[i..])) == Some(v)
    case Next(st', i') =>
      && i < i' <= |s| && WellPhased(st')
      && (st'.phase == KeyPhase ==> i' < |s| && s[i'] == '"')
      && Resume(st', Tokens(fp, s[i'..])) == Resume(st, Tokens(fp, s[i..]))
  }

  /** A completed value goes to the container on top, or ends the document. */
  method DeliverValue(fp: Binary64, s: string, stack: seq<Frame>, v: Value, i: nat) returns (out: Turn)
    requires i <= |s|
    ensures match out
            case Rejected => Deliver(stack, v, Tokens(fp, s[i..])) == None
            case Returned(w) => Deliver(stack, v, Tokens(fp, s[i..])) == Some(w)
            case Next(st, j) =>
              j == i && WellPhased(st) && st.phase != KeyPhase &&
              Resume(st, Tokens(fp, s[i..])) == Deliver(stack, v, Tokens(fp, s[i..]))
  {
    hide Resume, LexOne, Tokens, Finish, HasName;
    if stack == [] {
      var j := Ws(fp, s, i);
      if j != |s| {
        FirstToken(fp, s, j);
        return Rejected;
      }
      NoTokens(fp, s);
      return Returned(v);
    }
    match Top(stack)
    case ArrFrame(es) =>
      DeliverToArray(stack, v, Tokens(fp, s[i..]));
      return Next(State(Below(stack) + [ArrFrame(es + [v])], ArrNextPhase), i);
    case ObjFrame(ms, None) => return Rejected;
    case ObjFrame(ms, Some(k)) =>
      DeliverToObject(stack, k, v, Tokens(fp, s[i..]));
      if HasName(ms, k) { return Rejected; }
      return Next(State(Below(stack) + [ObjFrame(ms + [Entry(k, v)], Some(k))], ObjNextPhase), i);
  }

  /** Objects: an empty one is complete at once, otherwise a name must follow. */
  method OpenObject(fp: Binary64, s: string, stack: seq<Frame>, i: nat) returns (out: Turn)
    requires i < |s| && s[i] == '{'
    ensures Keeps(fp, s, State(stack, ValuePhase), i, out)
  {
    hide LexOne, Tokens, Resume, Deliver;
    PunctAt(fp, s, i);
    var j := Ws(fp, s, i + 1);
    if j < |s| && s[j] == '}' {
      PunctAt(fp, s, j);
      ResumeEmptyObject(stack, Tokens(fp, s[j + 1..]));
      out := DeliverValue(fp, s, stack, Obj([]), j + 1);
    } else {
      FirstAt(fp, s, j);
      ResumeOpenObject(stack, Tokens(fp, s[j..]));
      var st := State(stack + [ObjFrame([], None)], KeyPhase);
      if j >= |s| || s[j] != '"' {
        ResumeNoKey(st, Tokens(fp, s[j..]));
        return Rejected;
      }
      return Next(st, j);
    }
  }

  method OpenArray(fp: Binary64, s: string, stack: seq<Frame>, i: nat) returns (out: Turn)
    requires i < |s| && s[i] == '['
    ensures Keeps(fp, s, State(stack, ValuePhase), i, out)
  {
    hide LexOne, Tokens, Resume, Deliver;
    PunctAt(fp, s, i);
    var j := Ws(fp, s, i + 1);
    if j < |s| && s[j] == ']' {
      PunctAt(fp, s, j);
      ResumeEmptyArray(stack, Tokens(fp, s[j + 1..]));
      out := DeliverValue(fp, s, stack, Arr([]), j + 1);
    } else {
      FirstAt(fp, s, j);
      ResumeOpenArray(stack, Tokens(fp, s[j..]));
      return Next(State(stack + [ArrFrame([])], ValuePhase), j);
    }
  }

  /** Scalars are complete at once. */
  method ScalarValue(fp: Binary64, s: string, stack: seq<Frame>, i: nat) returns (out: Turn)
    requires i < |s| && !IsWs(s[i]) && s[i] != '{' && s[i] != '['
    ensures Keeps(fp, s, State(stack, ValuePhase), i, out)
  {
    hide LexOne, Tokens, Resume, Deliver;
    var r := ScalarAt(fp, s, i);
    TokenAt(fp, s, i);
    if r == None {
      FirstToken(fp, s, i);
      var ts := Tokens(fp, s[i..]);
      assert ts == [ts[0]] + ts[1..];
      ResumeNoValue(stack, ts[0], ts[1..]);
      return Rejected;
    }
    ResumeScalar(stack, r.value.0, Tokens(fp, s[r.value.1..]));
    out := DeliverValue(fp, s, stack, r.value.0, r.value.1);
  }

  method ScalarAt(fp: Binary64, s: string, i: nat) returns (r: Option<(Scalar, nat)>)
    requires i < |s|
    ensures var l := LexOne(fp, s[i..]);
            if r.Some? then i < r.value.1 <= |s| && l == Tok(Literal(r.value.0), s[r.value.1..])
            else l.Tok? ==> !l.t.Literal?
  {
    hide LexNumber, LexString;
    var c := s[i];
    DropDrop(s, i, 1);
    if c == '"' {
      var p := StringAt(s, i);
      if p == None { return None; }
      return Some((Str(p.value.0), p.value.1));
    } else if c == 't' {
      WordAt(s, i, "true");
      if i + 4 > |s| || s[i..i + 4] != "true" { return None; }
      return Some((Bool(true), i + 4));
    } else if c == 'f' {
      WordAt(s, i, "false");
      if i + 5 > |s| || s[i..i + 5] != "false" { return None; }
      return Some((Bool(false), i + 5));
    } else if c == 'n' {
      WordAt(s, i, "null");
      if i + 4 > |s| || s[i..i + 4] != "null" { return None; }
      return Some((Null, i + 4));
    } else if c == '-' || IsDigit(c) {
      var p := NumberAt(fp, s, i);
      LexNumberKind(fp, s[i..]);
      if p == None { return None; }
      return Some((Num(p.value.0), p.value.1));
    } else {
      return None;
    }
  }

  method TakeValue(fp: Binary64, s: string, st: State, i0: nat) returns (out: Turn)
    requires i0 <= |s| && st.phase == ValuePhase
    ensures Keeps(fp, s, st, i0, out)
  {
    hide LexOne, Tokens, Resume;
    var i := Ws(fp, s, i0);
    if i >= |s| {
      NoTokens(fp, s);
      ResumeEnd(st);
      return Rejected;
    }
    if s[i] == '{' {
      out := OpenObject(fp, s, st.stack, i);
    } else if s[i] == '[' {
      out := OpenArray(fp, s, st.stack, i);
    } else {
      out := ScalarValue(fp, s, st.stack, i);
    }
  }

  method TakeKey(fp: Binary64, s: string, st: State, i: nat) returns (out: Turn)
    requires i < |s| && s[i] == '"' && WellPhased(st) && st.phase == KeyPhase
    ensures Keeps(fp, s, st, i, out)
  {
    hide LexOne, LexString, Tokens, Resume;
    var f, below := Top(st.stack), Below(st.stack);
    TokenAt(fp, s, i);
    DropDrop(s, i, 1);
    LexQuote(fp, s[i..]);
    var r := StringAt(s, i);
    if r == None {
      ResumeNoKey(st, Tokens(fp, s[i..]));
      return Rejected;
    }
    var (key, j) := r.value;
    assert st == State(below + [f], KeyPhase);
    ResumeKey(below, f, key, Tokens(fp, s[j..]));
    return Next(State(below + [f.(key := Some(key))], ColonPhase), j);
  }

  method TakeColon(fp: Binary64, s: string, st: State, i0: nat) returns (out: Turn)
    requires i0 <= |s| && WellPhased(st) && st.phase == ColonPhase
    ensures Keeps(fp, s, st, i0, out)
  {
    hide LexOne, Tokens, Resume;
    var i := Ws(fp, s, i0);
    if i >= |s| || s[i] != ':' {
      FirstAt(fp, s, i);
      ResumeNoColon(st, Tokens(fp, s[i..]));
      return Rejected;
    }
    PunctAt(fp, s, i);
    ResumeColon(st, Tokens(fp, s[i + 1..]));
    return Next(State(st.stack, ValuePhase), i + 1);
  }

  method TakeObjNext(fp: Binary64, s: string, st: State, i0: nat) returns (out: Turn)
    requires i0 <= |s| && WellPhased(st) && st.phase == ObjNextPhase
    ensures Keeps(fp, s, st, i0, out)
  {
    hide LexOne, Tokens, Resume, Deliver;
    var i := Ws(fp, s, i0);
    if i < |s| && s[i] == ',' {
      PunctAt(fp, s, i);
      ResumeObjComma(st, Tokens(fp, s[i + 1..]));
      var j := Ws(fp, s, i + 1);
      if j >= |s| || s[j] != '"' {
        FirstAt(fp, s, j);
        ResumeNoKey(st.(phase := KeyPhase), Tokens(fp, s[j..]));
        return Rejected;
      }
      return Next(st.(phase := KeyPhase), j);
    }
    if i < |s| && s[i] == '}' {
      PunctAt(fp, s, i);
      ResumeObjClose(st, Tokens(fp, s[i + 1..]));
      out := DeliverValue(fp, s, Below(st.stack), Obj(Top(st.stack).members), i + 1);
      return;
    }
    FirstAt(fp, s, i);
    ResumeObjOther(st, Tokens(fp, s[i..]));
    return Rejected;
  }

  method TakeArrNext(fp: Binary64, s: string, st: State, i0: nat) returns (out: Turn)
    requires i0 <= |s| && WellPhased(st) && st.phase == ArrNextPhase
    ensures Keeps(fp, s, st, i0, out)
  {
    hide LexOne, Tokens, Resume, Deliver;
    var i := Ws(fp, s, i0);
    if i < |s| && s[i] == ',' {
      PunctAt(fp, s, i);
      ResumeArrComma(st, Tokens(fp, s[i + 1..]));
      return Next(State(st.stack, ValuePhase), i + 1);
    }
    if i < |s| && s[i] == ']' {
      PunctAt(fp, s, i);
      ResumeArrClose(st, Tokens(fp, s[i + 1..]));
      out := DeliverValue(fp, s, Below(st.stack), Arr(Top(st.stack).elems), i + 1);
      return;
    }
    FirstAt(fp, s, i);
    ResumeArrOther(st, Tokens(fp, s[i..]));
    return Rejected;
  }

  /** The parser accepts exactly the documents of the grammar and returns their value; the unread
      text shrinks on every turn. */
  method ParseDocument(fp: Binary64, s: string) returns (r: Option<Value>)
    ensures r == PDocument(Tokens(fp, s))
  {
    hide LexOne, Tokens, Resume, PDocument;
    var i := Ws(fp, s, 0);
    assert s[0..] == s;
    var st := State([], ValuePhase);
    StartIsDocument(Tokens(fp, s));
    if i >= |s| {
      NoTokens(fp, s);
      ResumeEnd(st);
      return None;
    }
    while true
      invariant i <= |s| && WellPhased(st)
      invariant st.phase == KeyPhase ==> i < |s| && s[i] == '"'
      invariant Resume(st, Tokens(fp, s[i..])) == PDocument(Tokens(fp, s))
      decreases |s| - i
    {
      var out: Turn;
      match st.phase {
        case ValuePhase => out := TakeValue(fp, s, st, i);
        case KeyPhase => out := TakeKey(fp, s, st, i);
        case ColonPhase => out := TakeColon(fp, s, st, i);
        case ObjNextPhase => out := TakeObjNext(fp, s, st, i);
        case ArrNextPhase => out := TakeArrNext(fp, s, st, i);
      }
      match out {
        case Rejected => return None;
        case Returned(v) => return Some(v);
        case Next(st', i') => st, i := st', i';
      }
    }
  }
}
