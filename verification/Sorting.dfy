/** Sorting of object members by name, and values equal up to member order. */
module Sorting {
  import opened Values
  import opened Utf16

  predicate Sorted<T>(es: seq<Entry<T>>) {
    forall i, j :: 0 <= i < j < |es| ==> Less(es[i].name, es[j].name)
  }

  function Insert<T>(e: Entry<T>, es: seq<Entry<T>>): seq<Entry<T>> {
    if es == [] || Less(e.name, es[0].name) then [e] + es else [es[0]] + Insert(e, es[1..])
  }

  function Sort<T>(es: seq<Entry<T>>): seq<Entry<T>> {
    if es == [] then [] else Insert(es[0], Sort(es[1..]))
  }

  lemma {:induction false} InsertKeeps<T>(e: Entry<T>, es: seq<Entry<T>>)
    ensures multiset(Insert(e, es)) == multiset(es) + multiset{e}
  {
    if !(es == [] || Less(e.name, es[0].name)) {
      InsertKeeps(e, es[1..]);
      assert es == [es[0]] + es[1..];
    }
  }

  lemma {:induction false} SortKeeps<T>(es: seq<Entry<T>>)
    ensures multiset(Sort(es)) == multiset(es)
    ensures |Sort(es)| == |es|
  {
    if es != [] {
      SortKeeps(es[1..]);
      InsertKeeps(es[0], Sort(es[1..]));
      assert es == [es[0]] + es[1..];
    }
    assert |multiset(Sort(es))| == |multiset(es)|;
  }

  lemma SameElements<T>(a: seq<T>, b: seq<T>, x: T)
    requires multiset(a) == multiset(b)
    ensures x in a <==> x in b
  {
    assert x in a <==> x in multiset(a);
    assert x in b <==> x in multiset(b);
  }

  lemma {:induction false} InsertSorts<T>(e: Entry<T>, es: seq<Entry<T>>)
    requires Sorted(es) && !HasName(es, e.name)
    ensures Sorted(Insert(e, es))
  {
    if es == [] {
    } else if Less(e.name, es[0].name) {
      forall j | 0 <= j < |es| ensures Less(e.name, es[j].name) {
        if j > 0 { LessTransitive(e.name, es[0].name, es[j].name); }
      }
    } else {
      assert !HasName(es[1..], e.name);
      InsertSorts(e, es[1..]);
      LessTotal(e.name, es[0].name);
      var r := Insert(e, es[1..]);
      InsertKeeps(e, es[1..]);
      forall j | 0 <= j < |r| ensures Less(es[0].name, r[j].name) {
        assert r[j] in multiset(r);
        assert r[j] == e || r[j] in es[1..];
      }
    }
  }

  lemma {:induction false} SortSorts<T>(es: seq<Entry<T>>)
    requires UniqueNames(es)
    ensures Sorted(Sort(es))
  {
    if es != [] {
      SortSorts(es[1..]);
      SortKeeps(es[1..]);
      var r := Sort(es[1..]);
      forall i | 0 <= i < |r| ensures r[i].name != es[0].name {
        SameElements(r, es[1..], r[i]);
      }
      InsertSorts(es[0], r);
    }
  }

  lemma SortedUnique<T>(es: seq<Entry<T>>)
    requires Sorted(es)
    ensures UniqueNames(es)
  {
    forall i, j | 0 <= i < j < |es| ensures es[i].name != es[j].name {
      LessTotal(es[i].name, es[j].name);
    }
  }

  /** Two strictly sorted arrangements of the same entries are equal: whatever sorting routine a
      library uses, its result on distinct names is this one. */
  lemma {:induction false} SortedArrangementUnique<T>(a: seq<Entry<T>>, b: seq<Entry<T>>)
    requires Sorted(a) && Sorted(b) && multiset(a) == multiset(b)
    ensures a == b
  {
    SameSize(a, b);
    if a != [] {
      LeastFirst(a, b);
      DropFirst(a, b);
      SortedArrangementUnique(a[1..], b[1..]);
      assert a == [a[0]] + a[1..] && b == [b[0]] + b[1..];
    }
  }

  lemma SameSize<T>(a: seq<T>, b: seq<T>)
    requires multiset(a) == multiset(b)
    ensures |a| == |b|
  {
    assert |a| == |multiset(a)| && |b| == |multiset(b)|;
  }

  lemma LeastFirst<T>(a: seq<Entry<T>>, b: seq<Entry<T>>)
    requires Sorted(a) && Sorted(b) && multiset(a) == multiset(b) && a != [] && b != []
    ensures a[0] == b[0]
  {
    hide Less;
    SameElements(a, b, a[0]);
    SameElements(a, b, b[0]);
    var i :| 0 <= i < |b| && b[i] == a[0];
    var j :| 0 <= j < |a| && a[j] == b[0];
    LessTotal(a[0].name, b[0].name);
  }

  lemma DropFirst<T>(a: seq<T>, b: seq<T>)
    requires multiset(a) == multiset(b) && a != [] && b != [] && a[0] == b[0]
    ensures multiset(a[1..]) == multiset(b[1..])
  {
    assert a == [a[0]] + a[1..] && b == [b[0]] + b[1..];
    assert multiset(a[1..]) == multiset(a) - multiset{a[0]};
    assert multiset(b[1..]) == multiset(b) - multiset{b[0]};
  }

  lemma SortOfSorted<T>(es: seq<Entry<T>>)
    requires Sorted(es)
    ensures Sort(es) == es
  {
    SortedUnique(es);
    SortSorts(es);
    SortKeeps(es);
    SortedArrangementUnique(Sort(es), es);
  }

  /** The sorted arrangement does not depend on the order the members came in. */
  lemma SortOrderIndependent<T>(a: seq<Entry<T>>, b: seq<Entry<T>>)
    requires UniqueNames(a) && UniqueNames(b) && multiset(a) == multiset(b)
    ensures Sort(a) == Sort(b)
  {
    SortSorts(a);
    SortSorts(b);
    SortKeeps(a);
    SortKeeps(b);
    SortedArrangementUnique(Sort(a), Sort(b));
  }

  lemma {:induction false} DistinctCount<T>(a: seq<Entry<T>>, x: Entry<T>)
    requires UniqueNames(a)
    ensures multiset(a)[x] <= 1
  {
    if a != [] {
      assert a == [a[0]] + a[1..];
      DistinctCount(a[1..], x);
      assert a[0] !in a[1..];
    }
  }

  /** Lookup by name sees the same entry after sorting. */
  lemma SortLookup<T>(es: seq<Entry<T>>, k: string)
    requires UniqueNames(es)
    ensures Lookup(Sort(es), k) == Lookup(es, k)
    ensures HasName(Sort(es), k) <==> HasName(es, k)
    ensures UniqueNames(Sort(es))
  {
    var r := Sort(es);
    SortKeeps(es);
    SortSorts(es);
    SortedUnique(r);
    LookupSome(es, k);
    LookupSome(r, k);
    if Lookup(es, k).Some? {
      var e := Entry(k, Lookup(es, k).value);
      SameElements(es, r, e);
      var i :| 0 <= i < |r| && r[i] == e;
      LookupAt(r, i);
    } else if Lookup(r, k).Some? {
      SameElements(es, r, Entry(k, Lookup(r, k).value));
    }
  }

  // ---------------------------------------------------------------- normal form

  /** The value with the members of every object sorted. */
  function Canon(v: Value): Value
    decreases v
  {
    match v
    case Arr(es) => Arr(CanonElems(es))
    case Obj(ms) => Obj(Sort(CanonMembers(ms)))
    case _ => v
  }

  function CanonElems(es: seq<Value>): seq<Value>
    decreases es
  {
    if es == [] then [] else [Canon(es[0])] + CanonElems(es[1..])
  }

  function CanonMembers(ms: seq<Entry<Value>>): (r: seq<Entry<Value>>)
    ensures |r| == |ms|
    decreases ms
  {
    if ms == [] then [] else [Entry(ms[0].name, Canon(ms[0].val))] + CanonMembers(ms[1..])
  }

  lemma {:induction false} CanonMemberAt(ms: seq<Entry<Value>>, i: nat)
    requires i < |ms|
    ensures CanonMembers(ms)[i] == Entry(ms[i].name, Canon(ms[i].val))
  {
    if i > 0 { CanonMemberAt(ms[1..], i - 1); }
  }

  lemma {:induction false} CanonElemAt(es: seq<Value>, i: nat)
    requires i < |es|
    ensures |CanonElems(es)| == |es| && CanonElems(es)[i] == Canon(es[i])
  {
    if |es| > 1 { CanonElemAt(es[1..], if i > 0 then i - 1 else 0); }
  }

  lemma CanonMembersUnique(ms: seq<Entry<Value>>)
    requires UniqueNames(ms)
    ensures UniqueNames(CanonMembers(ms))
  {
    var r := CanonMembers(ms);
    forall i, j | 0 <= i < j < |r| ensures r[i].name != r[j].name {
      CanonMemberAt(ms, i);
      CanonMemberAt(ms, j);
    }
  }

  /** Equality of JSON values as the protocol sees them: objects are maps from names to values. */
  ghost predicate SameValue(v: Value, w: Value)
    decreases v
  {
    match v
    case Arr(es) => w.Arr? && |es| == |w.elems| && forall i :: 0 <= i < |es| ==> SameValue(es[i], w.elems[i])
    case Obj(ms) => w.Obj? && |ms| == |w.members| &&
      forall i :: 0 <= i < |ms| ==>
        var o := Lookup(w.members, ms[i].name);
        o.Some? && SameValue(ms[i].val, o.value)
    case _ => v == w
  }

  lemma SubsetSameSize<T>(a: seq<Entry<T>>, b: seq<Entry<T>>)
    requires UniqueNames(a) && UniqueNames(b) && |a| == |b|
    requires forall i :: 0 <= i < |a| ==> a[i] in b
    ensures multiset(a) == multiset(b)
  {
    var p, q := multiset(a), multiset(b);
    forall x | x in p ensures p[x] <= q[x] {
      DistinctCount(a, x);
      assert x in b;
    }
    assert p <= q;
    assert |q - p| == |q| - |p| == 0;
    assert q == p + (q - p);
  }

  /** Sorting every object is a normal form for equality up to member order. */
  lemma {:induction false} CanonDecidesSame(v: Value, w: Value)
    requires NoDup(v) && NoDup(w)
    ensures SameValue(v, w) <==> Canon(v) == Canon(w)
    decreases v
  {
    match v
    case Arr(es) =>
      if w.Arr? {
        var a, b := CanonElems(es), CanonElems(w.elems);
        forall i | 0 <= i < |es| ensures |a| == |es| && a[i] == Canon(es[i]) { CanonElemAt(es, i); }
        forall i | 0 <= i < |w.elems| ensures |b| == |w.elems| && b[i] == Canon(w.elems[i]) { CanonElemAt(w.elems, i); }
        if |es| == |w.elems| {
          forall i | 0 <= i < |es| ensures SameValue(es[i], w.elems[i]) <==> a[i] == b[i] {
            CanonDecidesSame(es[i], w.elems[i]);
          }
          assert (forall i :: 0 <= i < |es| ==> a[i] == b[i]) <==> a == b;
        }
      }
    case Obj(ms) =>
      if w.Obj? {
        CanonMembersUnique(ms);
        CanonMembersUnique(w.members);
        if SameValue(v, w) { SameSorts(v, w); }
        if Canon(v) == Canon(w) { SortsSame(v, w); }
      }
    case _ =>
  }

  lemma {:induction false} SameSorts(v: Value, w: Value)
    requires NoDup(v) && NoDup(w) && v.Obj? && w.Obj? && SameValue(v, w)
    ensures Canon(v) == Canon(w)
    decreases v, 0
  {
    var ms, ns := v.members, w.members;
    var a, b := CanonMembers(ms), CanonMembers(ns);
    CanonMembersUnique(ms);
    CanonMembersUnique(ns);
    forall i | 0 <= i < |a| ensures a[i] in b {
      CanonMemberAt(ms, i);
      var o := Lookup(ns, ms[i].name);
      LookupSome(ns, ms[i].name);
      var j :| 0 <= j < |ns| && ns[j] == Entry(ms[i].name, o.value);
      CanonMemberAt(ns, j);
      CanonDecidesSame(ms[i].val, ns[j].val);
      assert b[j] == a[i];
    }
    SubsetSameSize(a, b);
    SortOrderIndependent(a, b);
  }

  lemma {:induction false} SortsSame(v: Value, w: Value)
    requires NoDup(v) && NoDup(w) && v.Obj? && w.Obj? && Canon(v) == Canon(w)
    ensures SameValue(v, w)
    decreases v, 0
  {
    var ms, ns := v.members, w.members;
    var a, b := CanonMembers(ms), CanonMembers(ns);
    SortKeeps(a);
    SortKeeps(b);
    forall i | 0 <= i < |ms|
      ensures var o := Lookup(ns, ms[i].name); o.Some? && SameValue(ms[i].val, o.value)
    {
      CanonMemberAt(ms, i);
      SameElements(a, b, a[i]);
      var j :| 0 <= j < |b| && b[j] == a[i];
      CanonMemberAt(ns, j);
      LookupAt(ns, j);
      CanonDecidesSame(ms[i].val, ns[j].val);
    }
  }

  lemma {:induction false} CanonNoDup(v: Value)
    requires NoDup(v)
    ensures NoDup(Canon(v))
    decreases v
  {
    match v
    case Arr(es) =>
      forall i | 0 <= i < |CanonElems(es)| ensures NoDup(CanonElems(es)[i]) {
        if es != [] { CanonElemAt(es, 0); CanonElemAt(es, i); CanonNoDup(es[i]); }
      }
    case Obj(ms) =>
      CanonMembersUnique(ms);
      var a := CanonMembers(ms);
      SortKeeps(a);
      SortSorts(a);
      SortedUnique(Sort(a));
      forall i | 0 <= i < |Sort(a)| ensures NoDup(Sort(a)[i].val) {
        SameElements(a, Sort(a), Sort(a)[i]);
        var j :| 0 <= j < |a| && a[j] == Sort(a)[i];
        CanonMemberAt(ms, j);
        CanonNoDup(ms[j].val);
      }
    case _ =>
  }

  /** Normalising twice changes nothing. */
  lemma {:induction false} CanonIdempotent(v: Value)
    requires NoDup(v)
    ensures Canon(Canon(v)) == Canon(v)
    decreases v
  {
    match v
    case Arr(es) =>
      var a := CanonElems(es);
      if es != [] { CanonElemAt(es, 0); }
      if a != [] { CanonElemAt(a, 0); }
      forall i | 0 <= i < |es| ensures CanonElems(a)[i] == a[i] {
        CanonElemAt(es, i);
        CanonElemAt(a, i);
        CanonIdempotent(es[i]);
      }
      assert CanonElems(a) == a;
    case Obj(ms) =>
      CanonMembersUnique(ms);
      var a := Sort(CanonMembers(ms));
      SortSorts(CanonMembers(ms));
      SortKeeps(CanonMembers(ms));
      forall i | 0 <= i < |a| ensures CanonMembers(a)[i] == a[i] {
        CanonMemberAt(a, i);
        SameElements(CanonMembers(ms), a, a[i]);
        var j :| 0 <= j < |ms| && CanonMembers(ms)[j] == a[i];
        CanonMemberAt(ms, j);
        CanonIdempotent(ms[j].val);
      }
      assert CanonMembers(a) == a;
      SortOfSorted(a);
    case _ =>
  }
}
