/** Go's pipeline, in its own order, and its agreement with Python's and with section 20. */
module GoVerify {
  import opened Values
  import opened Decimals
  import opened Bytes
  import opened Protocol

  // ---------------------------------------------------------------- the nonce by string comparison

  /** Go's `<=` on strings. */
  predicate StringLe(a: string, b: string) {
    a == "" || (b != "" && (a[0] < b[0] || (a[0] == b[0] && StringLe(a[1..], b[1..]))))
  }

  const MAX_NONCE_TEXT := "18446744073709551615"

  predicate GoIsNonce(s: string) {
    if s == "0" then true
    else if |s| == 0 || |s| > 20 then false
    else if s[0] < '1' || s[0] > '9' then false
    else if !AllDigits(s) then false
    else if |s| < 20 then true
    else StringLe(s, MAX_NONCE_TEXT)
  }

  lemma HeadVal(s: string)
    requires s != "" && AllDigits(s)
    ensures DigitsVal(s) == DigitOf(s[0]) * IntPow10(|s| - 1) + DigitsVal(s[1..])
  {
    hide IntPow10, DigitsVal;
    assert s == [s[0]] + s[1..];
    DigitsValConcat([s[0]], s[1..]);
    OneDigit(s[0]);
  }

  lemma OneDigit(c: char)
    requires IsDigit(c)
    ensures DigitsVal([c]) == DigitOf(c)
  {
    assert [c][..0] == [];
  }

  lemma DigitGap(a: nat, b: nat, p: nat, x: nat, y: nat)
    requires a < b && x < p
    ensures a * p + x < b * p + y
  {
    assert (a + 1) * p <= b * p;
  }

  /** On numerals of one length, Go's string order is the order of the numbers. */
  lemma {:induction false} StringOrderIsNumeric(a: string, b: string)
    requires |a| == |b| && AllDigits(a) && AllDigits(b)
    ensures StringLe(a, b) <==> DigitsVal(a) <= DigitsVal(b)
  {
    hide DigitsVal, IntPow10;
    if a == "" {
      EmptyVal();
    } else {
      HeadVal(a);
      HeadVal(b);
      DigitsValBound(a[1..]);
      DigitsValBound(b[1..]);
      var p, x, y := IntPow10(|a| - 1), DigitsVal(a[1..]), DigitsVal(b[1..]);
      if a[0] < b[0] {
        DigitGap(DigitOf(a[0]), DigitOf(b[0]), p, x, y);
      } else if a[0] == b[0] {
        StringOrderIsNumeric(a[1..], b[1..]);
      } else {
        DigitGap(DigitOf(b[0]), DigitOf(a[0]), p, y, x);
      }
    }
  }

  lemma EmptyVal()
    ensures DigitsVal("") == 0
  {
  }

  lemma FourDigits(s: string)
    requires |s| == 4 && AllDigits(s)
    ensures DigitsVal(s) == 1000 * DigitOf(s[0]) + 100 * DigitOf(s[1]) + 10 * DigitOf(s[2]) + DigitOf(s[3])
  {
    hide DigitsVal, IntPow10;
    assert s[1..][1..] == s[2..] && s[2..][1..] == s[3..] && s[3..] == [s[3]];
    HeadVal(s);
    HeadVal(s[1..]);
    HeadVal(s[2..]);
    OneDigit(s[3]);
    SmallPowers();
  }

  lemma SmallPowers()
    ensures IntPow10(1) == 10 && IntPow10(2) == 100 && IntPow10(3) == 1000 && IntPow10(4) == 10000
  {
  }

  lemma AppendFour(a: string, b: string)
    requires AllDigits(a) && AllDigits(b) && |b| == 4
    ensures AllDigits(a + b) && DigitsVal(a + b) == 10000 * DigitsVal(a) + DigitsVal(b)
  {
    hide DigitsVal, IntPow10;
    DigitsValConcat(a, b);
    SmallPowers();
  }

  lemma MaxNonceText()
    ensures |MAX_NONCE_TEXT| == 20 && AllDigits(MAX_NONCE_TEXT) && DigitsVal(MAX_NONCE_TEXT) == MAX_NONCE
  {
    hide DigitsVal;
    FourDigits("1844");
    FourDigits("6744");
    FourDigits("0737");
    FourDigits("0955");
    FourDigits("1615");
    AppendFour("1844", "6744");
    AppendFour("1844" + "6744", "0737");
    AppendFour("1844" + "6744" + "0737", "0955");
    AppendFour("1844" + "6744" + "0737" + "0955", "1615");
    assert "1844" + "6744" + "0737" + "0955" + "1615" == MAX_NONCE_TEXT;
  }

  /** Go's nonce test and Python's accept the same texts. */
  lemma NonceAgrees(s: string)
    ensures GoIsNonce(s) <==> IsNonce(s)
  {
    hide DigitsVal, IntPow10, StringLe;
    MaxNonceText();
    if s == "0" {
      OneDigit('0');
      assert s == ['0'];
    } else if 1 <= |s| <= 20 && AllDigits(s) {
      DigitsValBound(s);
      if |s| == 20 {
        StringOrderIsNumeric(s, MAX_NONCE_TEXT);
      } else {
        PowBelowMax(|s|);
      }
    }
  }

  lemma {:induction false} PowBelowMax(k: nat)
    requires k < 20
    ensures IntPow10(k) <= MAX_NONCE
    decreases 20 - k
  {
    if k < 19 {
      PowBelowMax(k + 1);
    } else {
      assert IntPow10(4) == 10000;
      assert IntPow10(8) == 10000 * IntPow10(4);
      assert IntPow10(12) == 10000 * IntPow10(8);
      assert IntPow10(16) == 10000 * IntPow10(12);
      assert IntPow10(19) == 1000 * IntPow10(16);
    }
  }

  // ---------------------------------------------------------------- schema and identifiers

  predicate GoRefMember(m: Entry<Value>) {
    if m.name == "hash" then m.val.Str?
    else if m.name == "locators" then IsStrings(m.val)
    else false
  }

  predicate GoReferenceObject(v: Option<Value>) {
    && v.Some? && v.value.Obj? && |v.value.members| == 2
    && (forall i :: 0 <= i < 2 ==> GoRefMember(v.value.members[i]))
    && Lookup(v.value.members, "hash").Some? && Lookup(v.value.members, "locators").Some?
  }

  /** validateSchema: true when it returns no reason. */
  predicate GoSchema(u: Members, typ: string) {
    if !(forall i :: 0 <= i < |u| ==> u[i].name in REQUIRED + OPTIONAL) then false
    else if !(forall k :: k in REQUIRED ==> Field(u, k).Some?) then false
    else if !Field(u, "v").value.Num? then false
    else if !Field(u, "type").value.Str? then false
    else if !Field(u, "actor").value.Str? then false
    else if !Field(u, "created").value.Num? then false
    else if !Field(u, "nonce").value.Str? then false
    else if Field(u, "ext").Some? && !Field(u, "ext").value.Obj? then false
    else if typ == "pointer" then
      && Field(u, "descriptor") == None && StrField(u, "channel") && GoReferenceObject(Field(u, "ref"))
      && (Field(u, "parents").Some? ==> IsStrings(Field(u, "parents").value))
    else if typ == "channel" then
      && Field(u, "channel") == None && Field(u, "parents") == None && Field(u, "ref") == None
      && (Field(u, "descriptor").Some? ==> GoReferenceObject(Field(u, "descriptor")))
    else false
  }

  predicate GoIdentifiers(u: Members, typ: string) {
    if typ == "pointer" then
      && Field(u, "channel").Some? && IsIdStr(Field(u, "channel").value)
      && SubField(Field(u, "ref"), "hash").Some? && IsIdStr(SubField(Field(u, "ref"), "hash").value)
      && (var ps := Items(Field(u, "parents")); forall i :: 0 <= i < |ps| ==> IsIdStr(ps[i]))
    else if typ == "channel" then
      Field(u, "descriptor").Some? ==>
        SubField(Field(u, "descriptor"), "hash").Some? && IsIdStr(SubField(Field(u, "descriptor"), "hash").value)
    else true
  }

  function GoType(root: Members): string { if StrField(root, "type") then Field(root, "type").value.s else "" }

  /** Verify on a parsed object, in the order of Go's pipeline. */
  function GoVerify(c: Suite, root: Members): Verdict {
    if !NumField(root, "v") then Invalid
    else if Field(root, "v").value.n != 1.0 then Unsupported
    else
      var typ := GoType(root);
      if typ != "channel" && typ != "pointer" then Invalid
      else
        var u := Unsigned(root);
        if !GoSchema(u, typ) then Invalid
        else if !GoIdentifiers(u, typ) then Invalid
        else if !(StrField(u, "actor") && IsActorId(Field(u, "actor").value.s)) then Invalid
        else if !(StrField(u, "nonce") && GoIsNonce(Field(u, "nonce").value.s)) then Invalid
        else if !(NumField(u, "created") && IsCreated(Field(u, "created").value.n)) then Invalid
        else GoFinish(c, root, u, typ)
  }

  function GoLocators(u: Members, typ: string): seq<Value> {
    if typ == "pointer" then Items(SubField(Field(u, "ref"), "locators"))
    else if typ == "channel" then Items(SubField(Field(u, "descriptor"), "locators"))
    else []
  }

  function GoParentCount(u: Members, typ: string): nat {
    if typ == "pointer" then |Items(Field(u, "parents"))| else 0
  }

  function GoFinish(c: Suite, root: Members, u: Members, typ: string): Verdict {
    var jcs := Canonical(c, u);
    var d := c.sha256(jcs);
    var locs := GoLocators(u, typ);
    if Utf8Len(jcs) > MAX_JCS then Invalid
    else if |locs| > MAX_LOCATORS then Invalid
    else if exists i :: 0 <= i < |locs| && locs[i].Str? && Utf8Len(locs[i].s) > MAX_LOCATOR_BYTES then Invalid
    else if GoParentCount(u, typ) > MAX_PARENTS then Invalid
    else if !StrField(root, "id") then Invalid
    else if !IsSha256Id(Field(root, "id").value.s) then Invalid
    else if Field(root, "id").value.s != IdOf(d) then Invalid
    else
      var units := 1 + (Utf8Len(jcs) + 1023) / 1024 + |locs| + GoParentCount(u, typ)
          + (if typ == "channel" then 16 else 0);
      if BigEndianInt(d) > MAX_H / (units * UNIT_SCALE) then Invalid
      else if !SignatureVerifies(c, root, u) then Invalid
      else Valid(IdOf(d), units)
  }

  // ---------------------------------------------------------------- the parts agree

  lemma {:induction false} UnsignedLookup(ms: Members, k: string)
    requires k != "id" && k != "sig"
    ensures Lookup(Unsigned(ms), k) == Lookup(ms, k)
  {
    if ms != [] { UnsignedLookup(ms[1..], k); }
  }

  lemma {:induction false} UnsignedMembers(ms: Members)
    ensures forall i :: 0 <= i < |Unsigned(ms)| ==>
            Unsigned(ms)[i] in ms && Unsigned(ms)[i].name != "id" && Unsigned(ms)[i].name != "sig"
  {
    if ms != [] { UnsignedMembers(ms[1..]); }
  }

  lemma UnsignedNames(ms: Members)
    ensures "id" !in Names(Unsigned(ms)) && "sig" !in Names(Unsigned(ms))
  {
    UnsignedMembers(ms);
  }

  lemma {:induction false} UnsignedUnique(ms: Members)
    requires UniqueNames(ms)
    ensures UniqueNames(Unsigned(ms))
  {
    if ms != [] {
      UnsignedUnique(ms[1..]);
      UnsignedMembers(ms[1..]);
      var r := Unsigned(ms[1..]);
      forall i | 0 <= i < |r| ensures r[i].name != ms[0].name {
        var j :| 0 <= j < |ms[1..]| && ms[1..][j] == r[i];
        assert ms[j + 1] == r[i];
      }
    }
  }

  lemma NamesHas(ms: Members, k: string)
    ensures k in Names(ms) <==> Lookup(ms, k).Some?
  {
    LookupSome(ms, k);
  }

  lemma RequiredNames(ms: Members)
    ensures REQUIRED <= Names(ms) <==> forall k :: k in REQUIRED ==> Field(ms, k).Some?
  {
    hide Names;
    forall k ensures k in Names(ms) <==> Lookup(ms, k).Some? { NamesHas(ms, k); }
  }

  /** With unique names, Go's member-by-member test of a reference object is the shape of section 9. */
  lemma GoReferenceIsShape(v: Value)
    requires NoDup(v)
    ensures GoReferenceObject(Some(v)) <==> RefShape(v)
  {
    if v.Obj? {
      var ms := v.members;
      if RefShape(v) {
        NamesTwo(ms);
        LookupAt(ms, 0);
        LookupAt(ms, 1);
      }
      if GoReferenceObject(Some(v)) {
        assert ms[0].name != ms[1].name;
        LookupAt(ms, 0);
        LookupAt(ms, 1);
        TwoNames(ms);
      }
    }
  }

  lemma TwoNames(ms: Members)
    requires |ms| == 2 && {ms[0].name, ms[1].name} == {"hash", "locators"}
    ensures Names(ms) == {"hash", "locators"}
  {
    assert ms[0].name in Names(ms) && ms[1].name in Names(ms);
  }

  lemma {:induction false} NamesCount(ms: Members)
    requires UniqueNames(ms)
    ensures |Names(ms)| == |ms|
  {
    if ms != [] {
      var t, last := ms[..|ms| - 1], ms[|ms| - 1];
      NamesCount(t);
      forall k ensures k in Names(ms) <==> k in Names(t) + {last.name} {
        if k in Names(t) {
          var i :| 0 <= i < |t| && t[i].name == k;
          assert ms[i].name == k;
        }
      }
      assert Names(ms) == Names(t) + {last.name};
    }
  }

  lemma NamesTwo(ms: Members)
    requires UniqueNames(ms) && Names(ms) == {"hash", "locators"}
    ensures |ms| == 2 && ms[0].name in {"hash", "locators"} && ms[1].name in {"hash", "locators"}
            && ms[0].name != ms[1].name
  {
    NamesHas(ms, "hash");
    NamesHas(ms, "locators");
    LookupSome(ms, "hash");
    LookupSome(ms, "locators");
    NamesCount(ms);
    assert |{"hash", "locators"}| == 2;
    assert ms[0].name in Names(ms) && ms[1].name in Names(ms);
  }

  lemma KindsDiffer()
    ensures "pointer" != "channel"
  {
    assert "pointer"[0] != "channel"[0];
  }

  lemma PyRefMeans(v: Value)
    ensures RefShape(v) ==> SubField(Some(v), "hash").Some?
    ensures PyCheckRef(v) <==>
            && RefShape(v) && IsIdStr(SubField(Some(v), "hash").value)
            && |Items(SubField(Some(v), "locators"))| <= MAX_LOCATORS
            && forall i :: 0 <= i < |Items(SubField(Some(v), "locators"))| ==>
               ShortLocator(Items(SubField(Some(v), "locators"))[i])
  {
    hide Names, IsSha256Id, Lookup;
  }

  /** A pointer's part of check_schema. */
  lemma PyPointerMeans(ms: Members)
    requires IsPointer(ms)
    ensures PyCheckPointer(ms) == Pass <==>
            && Absent(ms, "descriptor") && StrField(ms, "channel") && IsIdStr(Field(ms, "channel").value)
            && Field(ms, "ref").Some? && PyCheckRef(Field(ms, "ref").value)
            && (Absent(ms, "parents") || IsStrings(Field(ms, "parents").value))
            && |Parents(ms)| <= MAX_PARENTS && forall i :: 0 <= i < |Parents(ms)| ==> IsIdStr(Parents(ms)[i])
    ensures PyCheckPointer(ms) != Unknown
  {
    hide PyCheckRef, IsSha256Id, Lookup;
  }

  ghost predicate SchemaSide(ms: Members) {
    VersionAndType(ms) && Schema(ms) && Identifiers(ms) && NonceAndCreated(ms) && Counts(ms)
  }

  lemma PyPointerSide(ms: Members)
    requires IsPointer(ms) && NumField(ms, "v")
    requires Names(ms) <= REQUIRED + OPTIONAL && Field(ms, "v").value.n == 1.0
    requires StrField(ms, "actor") && IsActorId(Field(ms, "actor").value.s)
    requires NumField(ms, "created") && IsCreated(Field(ms, "created").value.n)
    requires StrField(ms, "nonce") && IsNonce(Field(ms, "nonce").value.s)
    requires Absent(ms, "ext") || Field(ms, "ext").value.Obj?
    ensures PyCheckPointer(ms) == Pass <==> SchemaSide(ms)
  {
    hide PyCheckRef, RefShape, IsSha256Id, IsActorId, IsNonce, IsCreated, Names, Lookup, PyCheckPointer, ShortLocator;
    KindsDiffer();
    PyPointerMeans(ms);
    if Field(ms, "ref").Some? { PyRefMeans(Field(ms, "ref").value); }
  }

  lemma PyChannelSide(ms: Members)
    requires IsChannel(ms) && NumField(ms, "v")
    requires Names(ms) <= REQUIRED + OPTIONAL && Field(ms, "v").value.n == 1.0
    requires StrField(ms, "actor") && IsActorId(Field(ms, "actor").value.s)
    requires NumField(ms, "created") && IsCreated(Field(ms, "created").value.n)
    requires StrField(ms, "nonce") && IsNonce(Field(ms, "nonce").value.s)
    requires Absent(ms, "ext") || Field(ms, "ext").value.Obj?
    ensures SchemaSide(ms) <==>
            && Absent(ms, "channel") && Absent(ms, "parents") && Absent(ms, "ref")
            && (Field(ms, "descriptor").Some? ==> PyCheckRef(Field(ms, "descriptor").value))
  {
    hide PyCheckRef, RefShape, IsSha256Id, IsActorId, IsNonce, IsCreated, Names, Lookup, ShortLocator;
    KindsDiffer();
    if Field(ms, "descriptor").Some? { PyRefMeans(Field(ms, "descriptor").value); }
  }

  /** check_schema passes exactly when conditions 2 to 5 and the counts of condition 6 hold. */
  lemma PySchemaMeans(ms: Members)
    requires "id" !in Names(ms) && "sig" !in Names(ms)
    ensures PyCheckSchema(ms) == Pass <==> SchemaSide(ms)
    ensures PyCheckSchema(ms) == Unknown ==> OtherVersion(ms)
  {
    hide PyCheckRef, RefShape, IsSha256Id, IsActorId, IsNonce, Names, Lookup, PyCheckPointer, ShortLocator, Counts,
         Identifiers;
    assert Names(ms) <= CORE <==> Names(ms) <= REQUIRED + OPTIONAL;
    RequiredNames(ms);
    if PyCommon(ms) {
      assert Field(ms, "type").Some?;
      if IsPointer(ms) {
        PyPointerMeans(ms);
        PyPointerSide(ms);
      } else if IsChannel(ms) {
        PyChannelSide(ms);
      }
    } else if SchemaSide(ms) {
      SideCommon(ms);
    }
  }

  /** The checks of check_schema that come before the split by type. */
  ghost predicate PyCommon(ms: Members) {
    && Names(ms) <= REQUIRED + OPTIONAL && REQUIRED <= Names(ms)
    && NumField(ms, "v") && Field(ms, "v").value.n == 1.0 && (IsPointer(ms) || IsChannel(ms))
    && StrField(ms, "actor") && IsActorId(Field(ms, "actor").value.s)
    && NumField(ms, "created") && IsCreated(Field(ms, "created").value.n)
    && StrField(ms, "nonce") && IsNonce(Field(ms, "nonce").value.s)
    && (Absent(ms, "ext") || Field(ms, "ext").value.Obj?)
  }

  lemma SideCommon(ms: Members)
    requires SchemaSide(ms)
    ensures PyCommon(ms)
  {
    hide RefShape, IsSha256Id, IsActorId, IsNonce, IsCreated, Names, Lookup, Counts;
    RequiredNames(ms);
  }

  // ---------------------------------------------------------------- the pipelines agree

  lemma GoSchemaMeans(u: Members, typ: string)
    requires NoDup(Obj(u)) && Field(u, "type") == Some(Str(typ)) && (typ == "pointer" || typ == "channel")
    ensures GoSchema(u, typ) <==> Schema(u)
  {
    hide RefShape, GoReferenceObject, Lookup, NoDup;
    NoDupField(u, "ref");
    NoDupField(u, "descriptor");
    if Field(u, "ref").Some? { GoReferenceIsShape(Field(u, "ref").value); }
    if Field(u, "descriptor").Some? { GoReferenceIsShape(Field(u, "descriptor").value); }
    GoReferenceNone();
    assert (forall i :: 0 <= i < |u| ==> u[i].name in REQUIRED + OPTIONAL) <==> Names(u) <= REQUIRED + OPTIONAL;
  }

  lemma GoReferenceNone()
    ensures !GoReferenceObject(None)
  {
  }

  lemma NoDupField(u: Members, k: string)
    requires NoDup(Obj(u))
    ensures Field(u, k).Some? ==> NoDup(Field(u, k).value)
  {
    LookupSome(u, k);
  }

  lemma GoIdentifiersMeans(u: Members, typ: string)
    requires Field(u, "type") == Some(Str(typ)) && (typ == "pointer" || typ == "channel")
    requires Schema(u)
    ensures GoIdentifiers(u, typ) && IsActorId(Field(u, "actor").value.s) <==> Identifiers(u)
  {
    hide Lookup, IsSha256Id, IsActorId, Names;
    KindsDiffer();
    if typ == "pointer" {
      assert Reference(u) == Field(u, "ref") && Parents(u) == Items(Field(u, "parents"));
      assert Reference(u) == Some(Field(u, "ref").value);
      assert SubField(Reference(u), "hash").Some?;
      assert GoIdentifiers(u, typ) ==> Identifiers(u) || !IsActorId(Field(u, "actor").value.s);
      assert Identifiers(u) ==> GoIdentifiers(u, typ);
    } else {
      assert Reference(u) == Field(u, "descriptor") && Parents(u) == [];
      assert GoIdentifiers(u, typ) ==> Identifiers(u) || !IsActorId(Field(u, "actor").value.s);
      assert Identifiers(u) ==> GoIdentifiers(u, typ);
    }
  }

  lemma GoCountsMean(u: Members, typ: string)
    requires Field(u, "type") == Some(Str(typ)) && (typ == "pointer" || typ == "channel")
    ensures GoLocators(u, typ) == Locators(u) && GoParentCount(u, typ) == |Parents(u)|
  {
    hide Lookup;
  }

  lemma FinishAgrees(c: Suite, obj: Members, u: Members, typ: string)
    requires Field(u, "type") == Some(Str(typ)) && (typ == "pointer" || typ == "channel")
    requires Counts(u)
    ensures PyFinish(c, obj, u) == GoFinish(c, obj, u, typ)
    ensures PyFinish(c, obj, u).Valid? <==>
            Utf8Len(Canonical(c, u)) <= MAX_JCS && IdMatches(c, obj, u) && WorkDone(c, u)
                && SignatureVerifies(c, obj, u)
    ensures PyFinish(c, obj, u) != Unsupported
  {
    hide Lookup, IsSha256Id, Canonical, IdOf, SignatureVerifies, Utf8Len, BigEndianInt, Locators, Parents, GoLocators,
         GoParentCount;
    GoCountsMean(u, typ);
    IdIsTagged(c.sha256(Canonical(c, u)));
  }

  lemma FinishNeedsCounts(c: Suite, obj: Members, u: Members, typ: string)
    requires Field(u, "type") == Some(Str(typ)) && (typ == "pointer" || typ == "channel")
    requires !Counts(u)
    ensures GoFinish(c, obj, u, typ) == Invalid
  {
    hide Lookup, IsSha256Id, Canonical, IdOf, SignatureVerifies, BigEndianInt, Locators, Parents, GoLocators,
         GoParentCount;
    GoCountsMean(u, typ);
  }

  /** Both pipelines give one verdict on every parsed object: valid exactly under the conditions of
      section 20, unsupported exactly for a version number other than 1. */
  lemma VerdictsAgree(c: Suite, obj: Members)
    requires NoDup(Obj(obj))
    ensures PyValidate(c, obj) == GoVerify(c, obj)
    ensures PyValidate(c, obj).Valid? <==> ProtocolValid(c, obj)
    ensures PyValidate(c, obj).Unsupported? <==> OtherVersion(obj)
  {
    hide Lookup, IsSha256Id, IsActorId, IsNonce, GoIsNonce, IsCreated, NoDup, PyCheckSchema, GoSchema, GoIdentifiers,
         Schema,
         Identifiers, Counts, PyFinish, GoFinish, IdMatches, WorkDone, SignatureVerifies, Utf8Len, Canonical, Unsigned;
    var u := Unsigned(obj);
    UnsignedNames(obj);
    UnsignedLookup(obj, "v");
    UnsignedLookup(obj, "type");
    PySchemaMeans(u);
    UnsignedNoDup(obj);
    if NumField(obj, "v") && Field(obj, "v").value.n == 1.0 {
      var typ := GoType(obj);
      if typ == "channel" || typ == "pointer" {
        GoSchemaMeans(u, typ);
        if Schema(u) {
          SchemaFields(u);
          GoIdentifiersMeans(u, typ);
          NonceAgrees(Field(u, "nonce").value.s);
        }
        if Counts(u) { FinishAgrees(c, obj, u, typ); } else { FinishNeedsCounts(c, obj, u, typ); }
      }
    }
  }

  lemma SchemaFields(u: Members)
    requires Schema(u)
    ensures StrField(u, "actor") && StrField(u, "nonce") && NumField(u, "created")
  {
  }

  lemma UnsignedNoDup(obj: Members)
    requires NoDup(Obj(obj))
    ensures NoDup(Obj(Unsigned(obj)))
  {
    UnsignedUnique(obj);
    UnsignedMembers(obj);
  }
}
