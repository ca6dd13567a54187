/** The JSON grammar on tokens: as a generator, and as a recursive-descent recogniser. */
module Grammar {
  import opened Values
  import opened Lexing

  // ---------------------------------------------------------------- the generator

  /** The token sequence of a value. */
  function Flatten(v: Value): (ts: seq<Token>)
    ensures |ts| > 0
    decreases v
  {
    match v
    case Arr(es) => [LBracket] + FlattenElems(es) + [RBracket]
    case Obj(ms) => [LBrace] + FlattenMembers(ms) + [RBrace]
    case _ => [Literal(v)]
  }

  function FlattenElems(es: seq<Value>): seq<Token>
    decreases es
  {
    if es == [] then []
    else if |es| == 1 then Flatten(es[0])
    else Flatten(es[0]) + [Comma] + FlattenElems(es[1..])
  }

  function FlattenMember(m: Entry<Value>): seq<Token>
    decreases m, 1
  {
    [Literal(Str(m.name)), Colon] + Flatten(m.val)
  }

  function FlattenMembers(ms: seq<Entry<Value>>): seq<Token>
    decreases ms
  {
    if ms == [] then []
    else if |ms| == 1 then FlattenMember(ms[0])
    else FlattenMember(ms[0]) + [Comma] + FlattenMembers(ms[1..])
  }

  // ---------------------------------------------------------------- the recogniser

  datatype Parsed = Fail | Done(v: Value, rest: seq<Token>)

  function PValue(ts: seq<Token>): (r: Parsed)
    ensures r.Done? ==> |r.rest| < |ts|
    decreases |ts|, 0
  {
    if ts == [] then Fail
    else match ts[0]
      case Literal(v) => Done(v, ts[1..])
      case LBrace =>
        if |ts| > 1 && ts[1] == RBrace then Done(Obj([]), ts[2..]) else PMembers(ts[1..], [])
      case LBracket =>
        if |ts| > 1 && ts[1] == RBracket then Done(Arr([]), ts[2..]) else PElems(ts[1..], [])
      case _ => Fail
  }

  /** name : value, then what may follow a member; `ms` are the members read before. */
  function PMembers(ts: seq<Token>, ms: seq<Entry<Value>>): (r: Parsed)
    ensures r.Done? ==> |r.rest| < |ts|
    decreases |ts|
  {
    if |ts| >= 2 && ts[0].Literal? && ts[0].v.Str? && ts[1] == Colon then
      var p := PValue(ts[2..]);
      if p.Fail? || HasName(ms, ts[0].v.s) then Fail
      else PMembersTail(p.rest, ms + [Entry(ts[0].v.s, p.v)])
    else Fail
  }

  function PMembersTail(ts: seq<Token>, ms: seq<Entry<Value>>): (r: Parsed)
    ensures r.Done? ==> |r.rest| < |ts|
    decreases |ts|
  {
    if ts == [] then Fail
    else match ts[0]
      case Comma => PMembers(ts[1..], ms)
      case RBrace => Done(Obj(ms), ts[1..])
      case _ => Fail
  }

  function PElems(ts: seq<Token>, es: seq<Value>): (r: Parsed)
    ensures r.Done? ==> |r.rest| < |ts|
    decreases |ts|, 1
  {
    var p := PValue(ts);
    if p.Fail? then Fail else PElemsTail(p.rest, es + [p.v])
  }

  function PElemsTail(ts: seq<Token>, es: seq<Value>): (r: Parsed)
    ensures r.Done? ==> |r.rest| < |ts|
    decreases |ts|
  {
    if ts == [] then Fail
    else match ts[0]
      case Comma => PElems(ts[1..], es)
      case RBracket => Done(Arr(es), ts[1..])
      case _ => Fail
  }

  /** A whole document: one value and nothing after it. */
  function PDocument(ts: seq<Token>): Option<Value> {
    var p := PValue(ts);
    if p.Done? && p.rest == [] then Some(p.v) else None
  }

  // ---------------------------------------------------------------- they describe the same texts

  lemma {:induction false} ParsesFlattened(v: Value, rest: seq<Token>)
    requires NoDup(v)
    ensures PValue(Flatten(v) + rest) == Done(v, rest)
    decreases v, 1
  {
    var ts := Flatten(v) + rest;
    match v
    case Arr(es) =>
      if es == [] {
        assert ts[1] == RBracket && ts[2..] == rest;
      } else {
        assert ts[1..] == FlattenElems(es) + [RBracket] + rest;
        FirstNotCloser(es[0]);
        assert FlattenElems(es)[0] == Flatten(es[0])[0];
        ParsesElems(es, 0, rest);
        assert es[0..] == es && es[..0] == [];
      }
    case Obj(ms) =>
      if ms == [] {
        assert ts[1] == RBrace && ts[2..] == rest;
      } else {
        assert ts[1..] == FlattenMembers(ms) + [RBrace] + rest;
        assert FlattenMembers(ms)[0] == Literal(Str(ms[0].name));
        ParsesMembers(ms, 0, rest);
        assert ms[0..] == ms && ms[..0] == [];
      }
    case _ => assert ts[1..] == rest;
  }

  lemma FirstNotCloser(v: Value)
    ensures Flatten(v)[0] != RBracket && Flatten(v)[0] != RBrace
  {
  }

  lemma {:induction false} ParsesElems(es: seq<Value>, i: nat, rest: seq<Token>)
    requires i < |es| && forall j :: 0 <= j < |es| ==> NoDup(es[j])
    ensures PElems(FlattenElems(es[i..]) + [RBracket] + rest, es[..i]) == Done(Arr(es), rest)
    decreases es, |es| - i
  {
    hide NoDup, Flatten, FlattenElems;
    var sfx := es[i..];
    JoinElem(sfx, rest);
    assert sfx[1..] == es[i + 1..];
    assert es[..i] + [es[i]] == es[..i + 1];
    if i + 1 == |es| {
      ParsesFlattened(es[i], [RBracket] + rest);
      assert ([RBracket] + rest)[1..] == rest && es[..i + 1] == es;
    } else {
      var more := FlattenElems(es[i + 1..]) + [RBracket] + rest;
      ParsesFlattened(es[i], [Comma] + more);
      assert ([Comma] + more)[1..] == more;
      ParsesElems(es, i + 1, rest);
    }
  }

  lemma {:induction false} ParsesMembers(ms: seq<Entry<Value>>, i: nat, rest: seq<Token>)
    requires i < |ms| && UniqueNames(ms) && forall j :: 0 <= j < |ms| ==> NoDup(ms[j].val)
    ensures PMembers(FlattenMembers(ms[i..]) + [RBrace] + rest, ms[..i]) == Done(Obj(ms), rest)
    decreases ms, |ms| - i
  {
    hide NoDup, Flatten, FlattenMembers;
    var sfx, m := ms[i..], ms[i];
    JoinMember(sfx, rest);
    assert sfx[1..] == ms[i + 1..];
    assert ms[..i] + [Entry(m.name, m.val)] == ms[..i + 1];
    assert !HasName(ms[..i], m.name);
    var after := if i + 1 == |ms| then [RBrace] + rest
                 else [Comma] + (FlattenMembers(ms[i + 1..]) + [RBrace] + rest);
    var ts := FlattenMember(m) + after;
    assert ts[0] == Literal(Str(m.name)) && ts[1] == Colon && ts[2..] == Flatten(m.val) + after;
    ParsesFlattened(m.val, after);
    if i + 1 == |ms| {
      assert after[1..] == rest && ms[..i + 1] == ms;
    } else {
      assert after[1..] == FlattenMembers(ms[i + 1..]) + [RBrace] + rest;
      ParsesMembers(ms, i + 1, rest);
    }
  }

  ghost predicate GoodMembers(ms: seq<Entry<Value>>) {
    UniqueNames(ms) && forall i :: 0 <= i < |ms| ==> NoDup(ms[i].val)
  }

  ghost predicate GoodElems(es: seq<Value>) { forall i :: 0 <= i < |es| ==> NoDup(es[i]) }

  lemma {:induction false} ParsedIsFlattened(ts: seq<Token>)
    requires PValue(ts).Done?
    ensures var p := PValue(ts); NoDup(p.v) && ts == Flatten(p.v) + p.rest
    decreases |ts|, 0
  {
    var p := PValue(ts);
    match ts[0]
    case Literal(v) => assert ts == [ts[0]] + ts[1..];
    case LBrace =>
      if |ts| > 1 && ts[1] == RBrace {
        assert ts == [LBrace, RBrace] + ts[2..];
        assert Flatten(Obj([])) == [LBrace, RBrace];
      } else {
        MembersAreFlattened(ts[1..], []);
        assert p.v.members[0..] == p.v.members;
        assert ts == [ts[0]] + ts[1..];
      }
    case LBracket =>
      if |ts| > 1 && ts[1] == RBracket {
        assert ts == [LBracket, RBracket] + ts[2..];
        assert Flatten(Arr([])) == [LBracket, RBracket];
      } else {
        ElemsAreFlattened(ts[1..], []);
        assert p.v.elems[0..] == p.v.elems;
        assert ts == [ts[0]] + ts[1..];
      }
    case _ =>
  }

  lemma {:induction false} MembersAreFlattened(ts: seq<Token>, ms: seq<Entry<Value>>)
    requires GoodMembers(ms) && PMembers(ts, ms).Done?
    ensures var p := PMembers(ts, ms);
            p.v.Obj? && NoDup(p.v) && ms <= p.v.members && |ms| < |p.v.members| &&
            ts == FlattenMembers(p.v.members[|ms|..]) + [RBrace] + p.rest
    decreases |ts|, 1
  {
    hide HasName, NoDup, GoodMembers, Flatten, FlattenMembers, PValue, PMembersTail;
    var q := PValue(ts[2..]);
    ParsedIsFlattened(ts[2..]);
    var m := Entry(ts[0].v.s, q.v);
    ExtendGood(ms, m);
    MembersTailFlattened(q.rest, ms + [m]);
    var p := PMembersTail(q.rest, ms + [m]);
    assert ts == [ts[0], ts[1]] + ts[2..];
    assert ts == FlattenMember(m) + q.rest;
    JoinMember(p.v.members[|ms|..], p.rest);
    assert p.v.members[|ms|..][1..] == p.v.members[|ms| + 1..];
  }

  lemma ExtendGood(ms: seq<Entry<Value>>, m: Entry<Value>)
    requires GoodMembers(ms) && NoDup(m.val) && !HasName(ms, m.name)
    ensures GoodMembers(ms + [m])
  {
  }

  lemma JoinMember(ms: seq<Entry<Value>>, rest: seq<Token>)
    requires ms != []
    ensures FlattenMembers(ms) + [RBrace] + rest ==
            FlattenMember(ms[0]) + (if |ms| == 1 then [RBrace] + rest
                                    else [Comma] + (FlattenMembers(ms[1..]) + [RBrace] + rest))
  {
    hide Flatten, FlattenMember;
    if |ms| == 1 {
      Regroup3(FlattenMember(ms[0]), [RBrace], rest);
    } else {
      Regroup5(FlattenMember(ms[0]), [Comma], FlattenMembers(ms[1..]), [RBrace], rest);
    }
  }

  lemma JoinElem(es: seq<Value>, rest: seq<Token>)
    requires es != []
    ensures FlattenElems(es) + [RBracket] + rest ==
            Flatten(es[0]) + (if |es| == 1 then [RBracket] + rest
                              else [Comma] + (FlattenElems(es[1..]) + [RBracket] + rest))
  {
    hide Flatten;
    if |es| == 1 {
      Regroup3(Flatten(es[0]), [RBracket], rest);
    } else {
      Regroup5(Flatten(es[0]), [Comma], FlattenElems(es[1..]), [RBracket], rest);
    }
  }

  lemma Regroup3<T>(a: seq<T>, b: seq<T>, c: seq<T>)
    ensures a + b + c == a + (b + c)
  {
  }

  lemma Regroup5<T>(a: seq<T>, b: seq<T>, c: seq<T>, d: seq<T>, e: seq<T>)
    ensures (a + b + c) + d + e == a + (b + (c + d + e))
  {
  }

  lemma {:induction false} MembersTailFlattened(ts: seq<Token>, ms: seq<Entry<Value>>)
    requires GoodMembers(ms) && PMembersTail(ts, ms).Done?
    ensures var p := PMembersTail(ts, ms);
            p.v.Obj? && NoDup(p.v) && ms <= p.v.members &&
            ts == (if |p.v.members| == |ms| then [RBrace] + p.rest
                   else [Comma] + (FlattenMembers(p.v.members[|ms|..]) + [RBrace] + p.rest))
    decreases |ts|, 2
  {
    assert ts == [ts[0]] + ts[1..];
    if ts[0] == Comma { MembersAreFlattened(ts[1..], ms); }
  }

  lemma {:induction false} ElemsAreFlattened(ts: seq<Token>, es: seq<Value>)
    requires GoodElems(es) && PElems(ts, es).Done?
    ensures var p := PElems(ts, es);
            p.v.Arr? && NoDup(p.v) && es <= p.v.elems && |es| < |p.v.elems| &&
            ts == FlattenElems(p.v.elems[|es|..]) + [RBracket] + p.rest
    decreases |ts|, 1
  {
    hide NoDup, Flatten, FlattenElems, PValue, PElemsTail;
    var q := PValue(ts);
    ParsedIsFlattened(ts);
    ElemsTailFlattened(q.rest, es + [q.v]);
    var p := PElemsTail(q.rest, es + [q.v]);
    JoinElem(p.v.elems[|es|..], p.rest);
    assert p.v.elems[|es|..][1..] == p.v.elems[|es| + 1..];
  }

  lemma {:induction false} ElemsTailFlattened(ts: seq<Token>, es: seq<Value>)
    requires GoodElems(es) && PElemsTail(ts, es).Done?
    ensures var p := PElemsTail(ts, es);
            p.v.Arr? && NoDup(p.v) && es <= p.v.elems &&
            ts == (if |p.v.elems| == |es| then [RBracket] + p.rest
                   else [Comma] + (FlattenElems(p.v.elems[|es|..]) + [RBracket] + p.rest))
    decreases |ts|, 2
  {
    assert ts == [ts[0]] + ts[1..];
    if ts[0] == Comma { ElemsAreFlattened(ts[1..], es); }
  }

  /** The recogniser accepts exactly the token sequences of duplicate-free values, with that value. */
  lemma DocumentIff(ts: seq<Token>, v: Value)
    ensures PDocument(ts) == Some(v) <==> (NoDup(v) && ts == Flatten(v))
  {
    if PDocument(ts) == Some(v) {
      ParsedIsFlattened(ts);
      assert Flatten(v) + [] == Flatten(v);
    }
    if NoDup(v) && ts == Flatten(v) {
      ParsesFlattened(v, []);
      assert Flatten(v) + [] == Flatten(v);
    }
  }
}
