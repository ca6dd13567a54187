/** Sequences as stacks, and sequences without repetition. */
module Lists {
  function Top<T>(stack: seq<T>): T requires stack != [] { stack[|stack| - 1] }

  function Below<T>(stack: seq<T>): seq<T> requires stack != [] { stack[..|stack| - 1] }

  lemma PushPop<T>(stack: seq<T>, f: T)
    ensures Top(stack + [f]) == f && Below(stack + [f]) == stack
  {
  }

  predicate NoRepeats<T(==)>(s: seq<T>) { forall i, j :: 0 <= i < j < |s| ==> s[i] != s[j] }
}
