/** Putting the members of a valid assertion in canonical order changes neither its verdict nor its id. */
module Revalidation {
  import opened Values
  import opened Decimals
  import opened Bytes
  import opened Sorting
  import opened Printing
  import opened RoundTrip
  import opened Documents
  import opened Protocol
  import opened GoVerify
  import opened Validation
  import Utf16

  function CanonOpt(o: Option<Value>): Option<Value> { if o.Some? then Some(Canon(o.value)) else None }

  function CanonObj(ms: Members): Members { Sort(CanonMembers(ms)) }

  lemma {:induction false} CanonMembersLookup(ms: Members, k: string)
    ensures Lookup(CanonMembers(ms), k) == CanonOpt(Lookup(ms, k))
  {
    hide Canon;
    if ms != [] {
      CanonMembersLookup(ms[1..], k);
      assert CanonMembers(ms)[1..] == CanonMembers(ms[1..]);
    }
  }

  /** Every field of the reordered object is the normal form of the field it had. */
  lemma CanonField(ms: Members, k: string)
    requires UniqueNames(ms)
    ensures Lookup(CanonObj(ms), k) == CanonOpt(Lookup(ms, k))
  {
    CanonMembersUnique(ms);
    SortLookup(CanonMembers(ms), k);
    CanonMembersLookup(ms, k);
  }

  lemma CanonNames(ms: Members)
    requires UniqueNames(ms)
    ensures Names(CanonObj(ms)) == Names(ms)
  {
    hide Names, Canon;
    forall k ensures k in Names(CanonObj(ms)) <==> k in Names(ms) {
      CanonField(ms, k);
      NamesHas(ms, k);
      NamesHas(CanonObj(ms), k);
    }
  }

  // ---------------------------------------------------------------- removing id and sig commutes with sorting

  lemma {:induction false} UnsignedCanonMembers(ms: Members)
    ensures Unsigned(CanonMembers(ms)) == CanonMembers(Unsigned(ms))
  {
    hide Canon;
    if ms != [] {
      UnsignedCanonMembers(ms[1..]);
      assert CanonMembers(ms)[1..] == CanonMembers(ms[1..]);
      var r := Unsigned(ms[1..]);
      assert ([ms[0]] + r)[1..] == r;
    }
  }

  lemma {:induction false} UnsignedInsert(e: Entry<Value>, es: Members)
    requires Sorted(es)
    ensures Unsigned(Insert(e, es)) ==
            if e.name == "id" || e.name == "sig" then Unsigned(es) else Insert(e, Unsigned(es))
  {
    hide Utf16.Less;
    if es == [] || Utf16.Less(e.name, es[0].name) {
      assert ([e] + es)[1..] == es;
      InsertFront(e, es);
    } else {
      UnsignedInsert(e, es[1..]);
      assert ([es[0]] + Insert(e, es[1..]))[1..] == Insert(e, es[1..]);
      var r := Unsigned(es[1..]);
      assert ([es[0]] + r)[1..] == r;
    }
  }

  lemma InsertFront(e: Entry<Value>, es: Members)
    requires Sorted(es) && (es == [] || Utf16.Less(e.name, es[0].name))
    ensures Insert(e, Unsigned(es)) == [e] + Unsigned(es)
  {
    hide Utf16.Less;
    UnsignedMembers(es);
    var r := Unsigned(es);
    if r != [] {
      var j :| 0 <= j < |es| && es[j] == r[0];
      if j > 0 { Utf16.LessTransitive(e.name, es[0].name, es[j].name); }
    }
  }

  lemma {:induction false} UnsignedSort(es: Members)
    requires UniqueNames(es)
    ensures Unsigned(Sort(es)) == Sort(Unsigned(es))
  {
    if es != [] {
      UnsignedSort(es[1..]);
      SortSorts(es[1..]);
      UnsignedInsert(es[0], Sort(es[1..]));
      var r := Unsigned(es[1..]);
      assert ([es[0]] + r)[1..] == r;
    }
  }

  lemma UnsignedCanon(ms: Members)
    requires UniqueNames(ms)
    ensures Unsigned(CanonObj(ms)) == CanonObj(Unsigned(ms))
  {
    CanonMembersUnique(ms);
    UnsignedSort(CanonMembers(ms));
    UnsignedCanonMembers(ms);
  }

  // ---------------------------------------------------------------- the conditions do not see the order

  lemma CanonStrings(v: Value)
    ensures IsStrings(Canon(v)) <==> IsStrings(v)
    ensures IsStrings(v) ==> Canon(v) == v
  {
    if v.Arr? {
      var es := v.elems;
      var r := CanonElems(es);
      if es != [] { CanonElemAt(es, 0); }
      forall i | 0 <= i < |es| ensures r[i] == Canon(es[i]) { CanonElemAt(es, i); }
      if IsStrings(v) { assert r == es; }
      if IsStrings(Canon(v)) {
        forall i | 0 <= i < |es| ensures es[i].Str? { assert r[i].Str?; }
      }
    }
  }

  lemma CanonKind(v: Value)
    ensures v.Str? || Canon(v).Str? ==> Canon(v) == v
    ensures v.Num? || Canon(v).Num? ==> Canon(v) == v
    ensures v.Obj? <==> Canon(v).Obj?
  {
  }

  lemma CanonRef(v: Value)
    requires NoDup(v) && RefShape(v)
    ensures RefShape(Canon(v)) && SubField(Some(Canon(v)), "hash") == SubField(Some(v), "hash")
    ensures SubField(Some(Canon(v)), "locators") == SubField(Some(v), "locators")
  {
    hide Lookup, Names;
    var ms := v.members;
    CanonNames(ms);
    CanonField(ms, "hash");
    CanonField(ms, "locators");
    CanonKind(Lookup(ms, "hash").value);
    CanonStrings(Lookup(ms, "locators").value);
    assert Canon(v) == Obj(CanonObj(ms));
  }

  /** The fields whose values no normalisation touches. */
  ghost predicate SameScalars(u: Members, w: Members) {
    && Field(w, "v") == Field(u, "v") && Field(w, "type") == Field(u, "type") && Field(w, "actor") == Field(u, "actor")
    && Field(w, "created") == Field(u, "created") && Field(w, "nonce") == Field(u, "nonce")
    && Field(w, "channel") == Field(u, "channel") && Field(w, "parents") == Field(u, "parents")
  }

  lemma CanonScalars(u: Members)
    requires NoDup(Obj(u)) && VersionAndType(u) && Schema(u)
    ensures SameScalars(u, CanonObj(u))
  {
    hide Lookup, Names, NoDup, RefShape, Canon, CanonObj;
    KindsDiffer();
    UniqueOf(u);
    forall k ensures Field(CanonObj(u), k) == CanonOpt(Field(u, k)) { CanonField(u, k); }
    CanonKind(Field(u, "v").value);
    CanonKind(Field(u, "type").value);
    CanonKind(Field(u, "actor").value);
    CanonKind(Field(u, "created").value);
    CanonKind(Field(u, "nonce").value);
    if Field(u, "channel").Some? { CanonKind(Field(u, "channel").value); }
    if Field(u, "parents").Some? { CanonStrings(Field(u, "parents").value); }
  }

  /** The reference object keeps its shape, hash and locators. */
  lemma CanonReference(u: Members)
    requires NoDup(Obj(u)) && VersionAndType(u) && Schema(u)
    ensures var w := CanonObj(u);
            && (Reference(w) == None <==> Reference(u) == None)
            && (Reference(u).Some? ==> RefShape(Reference(w).value))
            && SubField(Reference(w), "hash") == SubField(Reference(u), "hash")
            && SubField(Reference(w), "locators") == SubField(Reference(u), "locators")
            && (IsPointer(w) <==> IsPointer(u)) && (IsChannel(w) <==> IsChannel(u))
  {
    hide Lookup, Names, NoDup, RefShape, Canon, CanonObj;
    KindsDiffer();
    UniqueOf(u);
    CanonScalars(u);
    CanonField(u, "ref");
    CanonField(u, "descriptor");
    NoDupField(u, "ref");
    NoDupField(u, "descriptor");
    if Reference(u).Some? {
      var v := Reference(u).value;
      CanonRef(v);
      assert Reference(CanonObj(u)) == Some(Canon(v));
    }
  }

  lemma CanonSchema(u: Members)
    requires NoDup(Obj(u)) && VersionAndType(u) && Schema(u)
    ensures VersionAndType(CanonObj(u)) && Schema(CanonObj(u))
  {
    hide Lookup, Names, NoDup, RefShape, Canon, CanonObj;
    KindsDiffer();
    UniqueOf(u);
    var w := CanonObj(u);
    CanonNames(u);
    CanonScalars(u);
    CanonReference(u);
    CanonField(u, "ref");
    CanonField(u, "descriptor");
    CanonField(u, "ext");
    if Field(u, "ext").Some? { CanonKind(Field(u, "ext").value); }
  }

  lemma CanonRest(u: Members)
    requires NoDup(Obj(u)) && VersionAndType(u) && Schema(u)
    ensures var w := CanonObj(u);
            && Locators(w) == Locators(u) && Parents(w) == Parents(u)
            && (Identifiers(u) ==> Identifiers(w)) && (NonceAndCreated(u) ==> NonceAndCreated(w))
               && (Counts(u) ==> Counts(w))
            && forall n: nat :: Units(w, n) == Units(u, n)
  {
    hide Lookup, Names, NoDup, RefShape, Canon, CanonObj, Schema, VersionAndType, IsSha256Id, IsNonce, IsCreated,
         IsActorId, ShortLocator;
    CanonScalars(u);
    CanonReference(u);
  }

  lemma CanonText(c: Suite, u: Members)
    requires NoDup(Obj(u))
    ensures Canonical(c, CanonObj(u)) == Canonical(c, u)
  {
    PrintCanon(c.fp, Obj(u));
  }

  /** Reordering the members of a valid assertion keeps it valid, with the same id and units. */
  lemma CanonValid(c: Suite, obj: Members)
    requires NoDup(Obj(obj)) && PyValidate(c, obj).Valid?
    ensures PyValidate(c, CanonObj(obj)) == PyValidate(c, obj)
  {
    hide PyValidate, PyFinish, NoDup, CanonObj, Unsigned, Schema, Identifiers, NonceAndCreated, Counts, Units, Utf8Len,
         Canonical,
         SignatureVerifies, VersionAndType, IdMatches, Field, StrField;
    var obj', u := CanonObj(obj), Unsigned(obj);
    var u' := CanonObj(u);
    VerdictsAgree(c, obj);
    CanonObjNoDup(obj);
    VerdictsAgree(c, obj');
    UniqueOf(obj);
    UnsignedCanon(obj);
    UnsignedNoDup(obj);
    CanonSchema(u);
    CanonRest(u);
    CanonText(c, u);
    CanonSigned(c, obj);
    ValidShape(c, obj);
    ValidShape(c, obj');
  }

  lemma CanonObjNoDup(obj: Members)
    requires NoDup(Obj(obj))
    ensures NoDup(Obj(CanonObj(obj)))
  {
    CanonNoDup(Obj(obj));
  }

  lemma ValidShape(c: Suite, obj: Members)
    requires PyValidate(c, obj).Valid?
    ensures var u := Unsigned(obj);
            PyValidate(c, obj) == Valid(IdOf(c.sha256(Canonical(c, u))), Units(u, Utf8Len(Canonical(c, u))))
  {
    hide PyCheckSchema, Units, Utf8Len, Canonical, SignatureVerifies, Unsigned;
  }

  lemma CanonSigned(c: Suite, obj: Members)
    requires NoDup(Obj(obj)) && ProtocolValid(c, obj)
    ensures var u := Unsigned(obj);
            IdMatches(c, CanonObj(obj), CanonObj(u)) && SignatureVerifies(c, CanonObj(obj), CanonObj(u))
  {
    hide Lookup, NoDup, Canon, CanonObj, Unsigned, Schema, VersionAndType, Identifiers, NonceAndCreated, Lengths,
         Canonical, WorkDone,
         IsSigHex, IsActorId;
    var u := Unsigned(obj);
    UnsignedNoDup(obj);
    UniqueOf(obj);
    CanonField(obj, "id");
    CanonField(obj, "sig");
    CanonKind(Field(obj, "id").value);
    CanonKind(Field(obj, "sig").value);
    CanonScalars(u);
    CanonText(c, u);
  }

  /** The canonical text of a valid envelope is itself valid, with the same id and units. */
  lemma CanonicalRevalidates(c: Suite, s: string)
    requires Faithful(c.fp) && ValidateText(c, s).Valid?
    ensures var env := ParseObject(c.fp, s).value;
            ValidateText(c, Print(c.fp, env)) == ValidateText(c, s)
  {
    hide Faithful, Parse, PyValidate, NoDup, Sound, Print, Canon;
    ParsedObject(c, s);
    var env := ParseObject(c.fp, s).value;
    ParseOfPrint(c.fp, env);
    assert Canon(env) == Obj(CanonObj(env.members)) by { CanonOfObj(env.members); }
    CanonValid(c, env.members);
  }

  lemma CanonOfObj(ms: Members)
    ensures Canon(Obj(ms)) == Obj(CanonObj(ms))
  {
  }

  lemma UniqueOf(u: Members)
    requires NoDup(Obj(u))
    ensures UniqueNames(u)
  {
  }
}
