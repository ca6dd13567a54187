/** JSON values as the verifiers hold them. */
module Values {
  datatype Option<+T> = None | Some(value: T)

  /** One named entry of an object; generic so that values, texts and normal forms share one sort. */
  datatype Entry<+T> = Entry(name: string, val: T)

  /** A finite binary64 number other than negative zero is identified with its exact real value.
      Object members keep their source order. */
  datatype Value =
    | Null
    | Bool(b: bool)
    | Num(n: real)
    | Str(s: string)
    | Arr(elems: seq<Value>)
    | Obj(members: seq<Entry<Value>>)

  predicate IsScalar(v: Value) { v.Null? || v.Bool? || v.Num? || v.Str? }

  type Scalar = v: Value | IsScalar(v) witness Null

  predicate HasName<T>(es: seq<Entry<T>>, k: string) { exists i :: 0 <= i < |es| && es[i].name == k }

  function Lookup<T>(es: seq<Entry<T>>, k: string): Option<T> {
    if es == [] then None else if es[0].name == k then Some(es[0].val) else Lookup(es[1..], k)
  }

  ghost predicate UniqueNames<T>(es: seq<Entry<T>>) {
    forall i, j :: 0 <= i < j < |es| ==> es[i].name != es[j].name
  }

  /** No object anywhere inside `v` has two members of one name. */
  ghost predicate NoDup(v: Value)
    decreases v
  {
    match v
    case Arr(es) => forall i :: 0 <= i < |es| ==> NoDup(es[i])
    case Obj(ms) => UniqueNames(ms) && forall i :: 0 <= i < |ms| ==> NoDup(ms[i].val)
    case _ => true
  }

  lemma {:induction false} LookupAt<T>(es: seq<Entry<T>>, i: nat)
    requires UniqueNames(es) && i < |es|
    ensures Lookup(es, es[i].name) == Some(es[i].val)
  {
    if i > 0 {
      LookupAt(es[1..], i - 1);
    }
  }

  lemma {:induction false} LookupSome<T>(es: seq<Entry<T>>, k: string)
    ensures Lookup(es, k).Some? <==> HasName(es, k)
    ensures Lookup(es, k).Some? ==> exists i :: 0 <= i < |es| && es[i] == Entry(k, Lookup(es, k).value)
  {
    if es != [] && es[0].name != k {
      LookupSome(es[1..], k);
      if HasName(es, k) {
        var i :| 0 <= i < |es| && es[i].name == k;
        assert es[1..][i - 1].name == k;
      }
      if Lookup(es, k).Some? {
        var i :| 0 <= i < |es[1..]| && es[1..][i] == Entry(k, Lookup(es, k).value);
        assert es[i + 1] == Entry(k, Lookup(es, k).value);
      }
    }
  }

  lemma {:induction false} LookupAppend<T>(a: seq<Entry<T>>, b: seq<Entry<T>>, k: string)
    ensures Lookup(a + b, k) == if HasName(a, k) then Lookup(a, k) else Lookup(b, k)
  {
    if a == [] {
      assert a + b == b;
    } else {
      assert (a + b)[1..] == a[1..] + b;
      LookupAppend(a[1..], b, k);
      LookupSome(a, k);
      LookupSome(a[1..], k);
    }
  }
}
