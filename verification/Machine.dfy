/** Parsing with an explicit stack of open containers, explained by the recursive grammar: a machine
    state means what the grammar would still do. */
module Machine {
  import opened Values
  import opened Lists
  import opened Lexing
  import opened Grammar

  /** An open container with what it holds so far; an object also has the name read last. */
  datatype Frame = ObjFrame(members: seq<Entry<Value>>, key: Option<string>) | ArrFrame(elems: seq<Value>)

  /** What remains to be decided once `v` is complete inside the open containers `stack` and `ts`
      is unread. */
  function Deliver(stack: seq<Frame>, v: Value, ts: seq<Token>): Option<Value>
    decreases |stack|, 1
  {
    if stack == [] then (if ts == [] then Some(v) else None)
    else match Top(stack)
      case ArrFrame(es) => Finish(Below(stack), PElemsTail(ts, es + [v]))
      case ObjFrame(ms, None) => None
      case ObjFrame(ms, Some(k)) =>
        if HasName(ms, k) then None else Finish(Below(stack), PMembersTail(ts, ms + [Entry(k, v)]))
  }

  function Finish(stack: seq<Frame>, p: Parsed): Option<Value>
    decreases |stack|, 2
  {
    if p.Fail? then None else Deliver(stack, p.v, p.rest)
  }

  datatype Phase = ValuePhase | KeyPhase | ColonPhase | ObjNextPhase | ArrNextPhase

  datatype State = State(stack: seq<Frame>, phase: Phase)

  /** The frame on top is the one the phase works on. */
  predicate WellPhased(st: State) {
    match st.phase
    case ValuePhase => true
    case ArrNextPhase => st.stack != [] && Top(st.stack).ArrFrame?
    case ColonPhase => st.stack != [] && Top(st.stack).ObjFrame? && Top(st.stack).key.Some?
    case KeyPhase => st.stack != [] && Top(st.stack).ObjFrame?
    case ObjNextPhase => st.stack != [] && Top(st.stack).ObjFrame?
  }

  /** The result the grammar gives from a machine state with `ts` unread. */
  function Resume(st: State, ts: seq<Token>): Option<Value>
    requires WellPhased(st)
  {
    match st.phase
    case ValuePhase => Finish(st.stack, PValue(ts))
    case KeyPhase => Finish(Below(st.stack), PMembers(ts, Top(st.stack).members))
    case ColonPhase => if ts != [] && ts[0] == Colon then Finish(st.stack, PValue(ts[1..])) else None
    case ObjNextPhase => Finish(Below(st.stack), PMembersTail(ts, Top(st.stack).members))
    case ArrNextPhase => Finish(Below(st.stack), PElemsTail(ts, Top(st.stack).elems))
  }

  predicate IsStr(t: Token) { t.Literal? && t.v.Str? }

  lemma DropOne<T>(t: T, ts: seq<T>)
    ensures ([t] + ts)[0] == t && ([t] + ts)[1..] == ts
  {
  }

  // ---------------------------------------------------------------- one token at a time

  lemma StartIsDocument(ts: seq<Token>)
    ensures Resume(State([], ValuePhase), ts) == PDocument(ts)
  {
  }

  lemma ResumeEnd(st: State)
    requires WellPhased(st)
    ensures Resume(st, []) == None
  {
  }

  lemma ResumeScalar(stack: seq<Frame>, v: Scalar, ts: seq<Token>)
    ensures Resume(State(stack, ValuePhase), [Literal(v)] + ts) == Deliver(stack, v, ts)
  {
    hide Deliver;
    DropOne(Literal(v), ts);
  }

  lemma ResumeEmptyObject(stack: seq<Frame>, ts: seq<Token>)
    ensures Resume(State(stack, ValuePhase), [LBrace] + ([RBrace] + ts)) == Deliver(stack, Obj([]), ts)
  {
    hide Deliver, PMembers;
    var all := [LBrace] + ([RBrace] + ts);
    assert all[1] == RBrace && all[2..] == ts;
  }

  lemma ResumeEmptyArray(stack: seq<Frame>, ts: seq<Token>)
    ensures Resume(State(stack, ValuePhase), [LBracket] + ([RBracket] + ts)) == Deliver(stack, Arr([]), ts)
  {
    hide Deliver, PElems;
    var all := [LBracket] + ([RBracket] + ts);
    assert all[1] == RBracket && all[2..] == ts;
  }

  lemma ResumeOpenObject(stack: seq<Frame>, ts: seq<Token>)
    requires ts == [] || ts[0] != RBrace
    ensures var st := State(stack + [ObjFrame([], None)], KeyPhase);
            WellPhased(st) && Resume(State(stack, ValuePhase), [LBrace] + ts) == Resume(st, ts)
  {
    hide Deliver, PMembers;
    PushPop(stack, ObjFrame([], None));
    DropOne(LBrace, ts);
    var all := [LBrace] + ts;
    assert !(|all| > 1 && all[1] == RBrace);
  }

  lemma ResumeOpenArray(stack: seq<Frame>, ts: seq<Token>)
    requires ts == [] || ts[0] != RBracket
    ensures Resume(State(stack, ValuePhase), [LBracket] + ts) == Resume(State(stack + [ArrFrame([])], ValuePhase), ts)
  {
    hide PElemsTail;
    PushPop(stack, ArrFrame([]));
    DropOne(LBracket, ts);
    var all := [LBracket] + ts;
    assert !(|all| > 1 && all[1] == RBracket);
    ElementStep(stack + [ArrFrame([])], ts);
  }

  /** Expecting a value inside an array is the element rule resumed. */
  lemma ElementStep(stack: seq<Frame>, ts: seq<Token>)
    requires stack != [] && Top(stack).ArrFrame?
    ensures Finish(stack, PValue(ts)) == Finish(Below(stack), PElems(ts, Top(stack).elems))
  {
    hide PValue, PElemsTail;
  }

  lemma ResumeNoValue(stack: seq<Frame>, t: Token, ts: seq<Token>)
    requires !t.Literal? && t != LBrace && t != LBracket
    ensures Resume(State(stack, ValuePhase), [t] + ts) == None
  {
  }

  lemma ResumeKey(below: seq<Frame>, f: Frame, key: string, ts: seq<Token>)
    requires f.ObjFrame?
    ensures var st, st' := State(below + [f], KeyPhase), State(below + [f.(key := Some(key))], ColonPhase);
            WellPhased(st) && WellPhased(st') && Resume(st, [Literal(Str(key))] + ts) == Resume(st', ts)
  {
    hide PValue, PMembersTail;
    var f' := f.(key := Some(key));
    PushPop(below, f);
    PushPop(below, f');
    var all := [Literal(Str(key))] + ts;
    if ts != [] && ts[0] == Colon {
      assert all[1] == Colon && all[2..] == ts[1..];
      var p := PValue(ts[1..]);
      if p.Done? {
        var ms' := f.members + [Entry(key, p.v)];
        assert Deliver(below + [f'], p.v, p.rest) ==
               (if HasName(f.members, key) then None else Finish(below, PMembersTail(p.rest, ms')));
        assert PMembers(all, f.members) ==
               (if HasName(f.members, key) then Fail else PMembersTail(p.rest, ms'));
      }
    } else {
      assert |all| < 2 || all[1] != Colon;
    }
  }

  lemma ResumeNoKey(st: State, ts: seq<Token>)
    requires WellPhased(st) && st.phase == KeyPhase && (ts == [] || !IsStr(ts[0]))
    ensures Resume(st, ts) == None
  {
  }

  lemma ResumeColon(st: State, ts: seq<Token>)
    requires WellPhased(st) && st.phase == ColonPhase
    ensures Resume(st, [Colon] + ts) == Resume(State(st.stack, ValuePhase), ts)
  {
    hide PValue, Finish;
    DropOne(Colon, ts);
  }

  lemma ResumeNoColon(st: State, ts: seq<Token>)
    requires WellPhased(st) && st.phase == ColonPhase && (ts == [] || ts[0] != Colon)
    ensures Resume(st, ts) == None
  {
  }

  lemma ResumeObjComma(st: State, ts: seq<Token>)
    requires WellPhased(st) && st.phase == ObjNextPhase
    ensures WellPhased(st.(phase := KeyPhase)) && Resume(st, [Comma] + ts) == Resume(st.(phase := KeyPhase), ts)
  {
    hide PMembers, Deliver;
    DropOne(Comma, ts);
  }

  lemma ResumeObjClose(st: State, ts: seq<Token>)
    requires WellPhased(st) && st.phase == ObjNextPhase
    ensures Resume(st, [RBrace] + ts) == Deliver(Below(st.stack), Obj(Top(st.stack).members), ts)
  {
    hide PMembers, Deliver;
    DropOne(RBrace, ts);
  }

  lemma ResumeObjOther(st: State, ts: seq<Token>)
    requires WellPhased(st) && st.phase == ObjNextPhase && (ts == [] || (ts[0] != Comma && ts[0] != RBrace))
    ensures Resume(st, ts) == None
  {
  }

  lemma ResumeArrComma(st: State, ts: seq<Token>)
    requires WellPhased(st) && st.phase == ArrNextPhase
    ensures Resume(st, [Comma] + ts) == Resume(st.(phase := ValuePhase), ts)
  {
    hide PElems, Deliver, PValue;
    DropOne(Comma, ts);
    ElementStep(st.stack, ts);
  }

  lemma ResumeArrClose(st: State, ts: seq<Token>)
    requires WellPhased(st) && st.phase == ArrNextPhase
    ensures Resume(st, [RBracket] + ts) == Deliver(Below(st.stack), Arr(Top(st.stack).elems), ts)
  {
    hide PElems, Deliver;
    DropOne(RBracket, ts);
  }

  lemma ResumeArrOther(st: State, ts: seq<Token>)
    requires WellPhased(st) && st.phase == ArrNextPhase && (ts == [] || (ts[0] != Comma && ts[0] != RBracket))
    ensures Resume(st, ts) == None
  {
  }

  /** A value delivered into an open object or array leaves the container expecting more. */
  lemma DeliverToArray(stack: seq<Frame>, v: Value, ts: seq<Token>)
    requires stack != [] && Top(stack).ArrFrame?
    ensures var st := State(Below(stack) + [ArrFrame(Top(stack).elems + [v])], ArrNextPhase);
            WellPhased(st) && Resume(st, ts) == Deliver(stack, v, ts)
  {
    hide PElemsTail;
    PushPop(Below(stack), ArrFrame(Top(stack).elems + [v]));
  }

  lemma DeliverToObject(stack: seq<Frame>, k: string, v: Value, ts: seq<Token>)
    requires stack != [] && Top(stack).ObjFrame? && Top(stack).key == Some(k)
    ensures HasName(Top(stack).members, k) ==> Deliver(stack, v, ts) == None
    ensures !HasName(Top(stack).members, k) ==>
            var st := State(Below(stack) + [ObjFrame(Top(stack).members + [Entry(k, v)], Some(k))], ObjNextPhase);
            WellPhased(st) && Resume(st, ts) == Deliver(stack, v, ts)
  {
    hide PMembersTail;
    PushPop(Below(stack), ObjFrame(Top(stack).members + [Entry(k, v)], Some(k)));
  }

  /** A name that is already there fails the object whatever follows. */
  lemma ResumeDuplicateKey(st: State, key: string, ts: seq<Token>)
    requires WellPhased(st) && st.phase == KeyPhase && HasName(Top(st.stack).members, key)
    ensures Resume(st, [Literal(Str(key))] + ts) == None
  {
    hide PValue, PMembersTail;
    DropOne(Literal(Str(key)), ts);
  }
}
