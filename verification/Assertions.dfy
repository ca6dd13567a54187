/** A valid object is the writing of one typed assertion: section 20 said about octets, numbers and texts. */
module Assertions {
  import opened Values
  import opened Decimals
  import opened Bytes
  import opened Printing
  import opened RoundTrip
  import opened Documents
  import opened Protocol
  import opened GoVerify
  import opened Validation
  import opened Revalidation
  import Mining
  import Utf8

  datatype Ref = Ref(hash: Digest, locators: seq<string>)

  datatype Kind = Pointer(channel: Digest, ref: Ref, parents: Option<seq<Digest>>) | Channel(descriptor: Option<Ref>)

  datatype Assertion = Assertion(actor: Digest, created: nat, nonce: nat, ext: Option<Members>, kind: Kind)

  // ---------------------------------------------------------------- how an assertion is written

  function IdText(d: Digest): string { "sha256:" + Hex(d) }

  function ActorText(key: Digest): string { "ed25519:" + Hex(key) }

  function Strs(ss: seq<string>): Value { Arr(seq(|ss|, i requires 0 <= i < |ss| => Str(ss[i]))) }

  function IdStrs(ds: seq<Digest>): Value { Arr(seq(|ds|, i requires 0 <= i < |ds| => Str(IdText(ds[i])))) }

  function RefField(r: Ref, k: string): Option<Value> {
    if k == "hash" then Some(Str(IdText(r.hash)))
    else if k == "locators" then Some(Strs(r.locators))
    else None
  }

  ghost predicate WritesRef(v: Value, r: Ref) {
    v.Obj? && forall k :: Lookup(v.members, k) == RefField(r, k)
  }

  ghost predicate WritesRefOpt(v: Option<Value>, r: Option<Ref>) {
    && (v.Some? <==> r.Some?)
    && (r.Some? ==> WritesRef(v.value, r.value))
  }

  /** Every member but the reference object. */
  function PlainField(a: Assertion, k: string): Option<Value> {
    if k == "v" then Some(Num(1.0))
    else if k == "type" then Some(Str(if a.kind.Pointer? then "pointer" else "channel"))
    else if k == "actor" then Some(Str(ActorText(a.actor)))
    else if k == "created" then Some(Num(a.created as real))
    else if k == "nonce" then Some(Str(NatStr(a.nonce)))
    else if k == "ext" then if a.ext.Some? then Some(Obj(a.ext.value)) else None
    else if k == "channel" && a.kind.Pointer? then Some(Str(IdText(a.kind.channel)))
    else if k == "parents" && a.kind.Pointer? && a.kind.parents.Some? then Some(IdStrs(a.kind.parents.value))
    else None
  }

  predicate Elsewhere(k: string) { k == "id" || k == "sig" || k == "ref" || k == "descriptor" }

  function RefOf(a: Assertion): Option<Ref> { if a.kind.Pointer? then Some(a.kind.ref) else None }

  function DescriptorOf(a: Assertion): Option<Ref> { if a.kind.Pointer? then None else a.kind.descriptor }

  /** The members of U but the reference objects. */
  ghost predicate Plains(u: Members, a: Assertion) { forall k :: !Elsewhere(k) ==> Lookup(u, k) == PlainField(a, k) }

  /** The members other than id and sig are those of the assertion, in any order. */
  ghost predicate Writes(ms: Members, a: Assertion) {
    && Plains(ms, a)
    && WritesRefOpt(Lookup(ms, "ref"), RefOf(a))
    && WritesRefOpt(Lookup(ms, "descriptor"), DescriptorOf(a))
  }

  // ---------------------------------------------------------------- the conditions on an assertion

  function LocatorTexts(a: Assertion): seq<string> {
    match a.kind
    case Pointer(_, r, _) => r.locators
    case Channel(Some(r)) => r.locators
    case Channel(None) => []
  }

  function ParentIds(a: Assertion): seq<Digest> {
    if a.kind.Pointer? && a.kind.parents.Some? then a.kind.parents.value else []
  }

  /** One, one for each begun 1024 octets, one for each locator and parent, sixteen for a channel description. */
  function WorkUnits(a: Assertion, octets: nat): nat {
    octets / 1024 + (if octets % 1024 > 0 then 2 else 1) + |LocatorTexts(a)| + |ParentIds(a)|
        + (if a.kind.Channel? then 16 else 0)
  }

  /** A time below 2^53 and a nonce below 2^64. */
  predicate Bounded(a: Assertion) { a.created < 0x20_0000_0000_0000 && a.nonce < 0x1_0000_0000_0000_0000 }

  ghost predicate WithinLimits(a: Assertion) {
    && Bounded(a) && |LocatorTexts(a)| <= 256 && |ParentIds(a)| <= 1024
    && forall i :: 0 <= i < |LocatorTexts(a)| ==> |Utf8.Utf8(LocatorTexts(a)[i])| <= 8192
  }

  /** The digest, read as a number, times the units and 2^16 stays below 2^256. */
  predicate Done(d: Digest, units: nat) {
    BigEndianInt(d) * (units * 0x1_0000)
        < 0x1_0000_0000_0000_0000_0000_0000_0000_0000_0000_0000_0000_0000_0000_0000_0000_0000
  }

  ghost predicate SignedBy(c: Suite, obj: Members, key: Digest, d: Digest) {
    exists sig: seq<Byte> :: |sig| == 64 && Lookup(obj, "sig") == Some(Str(Hex(sig))) && c.verify(key, sig, d)
  }

  ghost predicate Meets20(c: Suite, obj: Members, a: Assertion) {
    var jcs := Canonical(c, Unsigned(obj));
    var d := c.sha256(jcs);
    && Writes(obj, a) && WithinLimits(a) && |Utf8.Utf8(jcs)| <= 0x10_0000
    && Lookup(obj, "id") == Some(Str(IdText(d)))
    && Done(d, WorkUnits(a, |Utf8.Utf8(jcs)|)) && SignedBy(c, obj, a.actor, d)
  }

  // ---------------------------------------------------------------- the forms of the fields

  lemma {:induction false} HexUnHex(s: string)
    requires IsLowerHex(s) && |s| % 2 == 0
    ensures Hex(UnHex(s)) == s
  {
    hide HexDigit, LowerHexVal, IsLowerHexDigit;
    if s != "" {
      HexUnHex(s[2..]);
      assert s == [s[0], s[1]] + s[2..];
      DigitHex(s[0]);
      DigitHex(s[1]);
    }
  }

  lemma DigitHex(c: char)
    requires IsLowerHexDigit(c)
    ensures HexDigit(LowerHexVal(c)) == c
  {
  }

  /** An identifier is the tagged hexadecimal text of 32 octets. */
  lemma IdForm(s: string)
    ensures IsSha256Id(s) <==> exists d: Digest :: s == IdText(d)
  {
    hide Hex, UnHex, IsLowerHex;
    if IsSha256Id(s) {
      HexUnHex(s[7..]);
      var d: Digest := UnHex(s[7..]);
      assert s == IdText(d);
    }
    if d: Digest :| s == IdText(d) { IdIsTagged(d); }
  }

  /** An actor is the tagged hexadecimal text of a key. */
  lemma ActorForm(s: string)
    ensures IsActorId(s) <==> exists key: Digest :: s == ActorText(key)
    ensures forall key: Digest :: s == ActorText(key) ==> |s| == 72 && IsLowerHex(s[8..]) && UnHex(s[8..]) == key
  {
    hide Hex, UnHex, IsLowerHex;
    if IsActorId(s) {
      HexUnHex(s[8..]);
      var key: Digest := UnHex(s[8..]);
      assert s == ActorText(key);
    }
    forall key: Digest | s == ActorText(key)
      ensures IsActorId(s) && |s| == 72 && IsLowerHex(s[8..]) && UnHex(s[8..]) == key
    {
      HexRoundTrip(key);
      assert s[8..] == Hex(key);
    }
  }

  /** A signature is the hexadecimal text of 64 octets. */
  lemma SigForm(s: string)
    ensures IsSigHex(s) <==> exists b: seq<Byte> :: |b| == 64 && s == Hex(b)
  {
    hide Hex, UnHex, IsLowerHex;
    if IsSigHex(s) { HexUnHex(s); }
    if b: seq<Byte> :| |b| == 64 && s == Hex(b) { HexRoundTrip(b); }
  }

  /** A nonce is the numeral of a number below 2^64. */
  lemma NonceForm(s: string)
    ensures IsNonce(s) <==> exists n: nat :: n < 0x1_0000_0000_0000_0000 && s == NatStr(n)
  {
    hide NatStr, DigitsVal;
    if IsNonce(s) {
      NumeralUnique(s);
      assert s == NatStr(DigitsVal(s));
    }
    if n: nat :| n < 0x1_0000_0000_0000_0000 && s == NatStr(n) { Mining.NonceIsNonce(n); }
  }

  predicate Counts53(x: real, n: nat) { n < 0x20_0000_0000_0000 && x == n as real }

  /** A creation time is a whole number below 2^53. */
  lemma CreatedForm(x: real)
    ensures IsCreated(x) <==> exists n: nat :: Counts53(x, n)
  {
    if IsCreated(x) {
      assert Counts53(x, x.Floor);
    }
  }

  // ---------------------------------------------------------------- reading a reference object

  function TextsOf(vs: seq<Value>): (ss: seq<string>)
    requires forall i :: 0 <= i < |vs| ==> vs[i].Str?
    ensures |ss| == |vs|
  {
    seq(|vs|, i requires 0 <= i < |vs| => vs[i].s)
  }

  lemma StrsOf(v: Value)
    requires IsStrings(v)
    ensures v == Strs(TextsOf(v.elems))
  {
  }

  /** A reference object is well shaped, its hash an identifier, exactly when it writes some reference. */
  lemma RefForm(v: Value)
    ensures RefShape(v) && IsIdStr(SubField(Some(v), "hash").value) <==> exists r :: WritesRef(v, r)
  {
    hide Lookup, Names, IsSha256Id, IdText;
    if RefShape(v) && IsIdStr(SubField(Some(v), "hash").value) { ReadRef(v); }
    if r :| WritesRef(v, r) { RefWritten(v, r); }
  }

  lemma ReadRef(v: Value)
    requires RefShape(v) && IsIdStr(SubField(Some(v), "hash").value)
    ensures exists r :: WritesRef(v, r)
  {
    hide Lookup, Names, IsSha256Id, IdText;
    var h := Lookup(v.members, "hash").value.s;
    IdForm(h);
    var d: Digest :| h == IdText(d);
    var l := Lookup(v.members, "locators").value;
    StrsOf(l);
    var r := Ref(d, TextsOf(l.elems));
    forall k ensures Lookup(v.members, k) == RefField(r, k) { NamesHas(v.members, k); }
    assert WritesRef(v, r);
  }

  lemma RefWritten(v: Value, r: Ref)
    requires WritesRef(v, r)
    ensures RefShape(v) && SubField(Some(v), "hash").value == Str(IdText(r.hash)) && IsIdStr(Str(IdText(r.hash)))
    ensures SubField(Some(v), "locators") == Some(Strs(r.locators))
  {
    hide Lookup, Names, IsSha256Id, IdText;
    IdForm(IdText(r.hash));
    assert Lookup(v.members, "hash") == RefField(r, "hash") && Lookup(v.members, "locators") == RefField(r, "locators");
    forall k ensures k in Names(v.members) <==> k == "hash" || k == "locators" {
      NamesHas(v.members, k);
      assert Lookup(v.members, k) == RefField(r, k);
    }
  }

  lemma ReadRefOpt(v: Option<Value>)
    requires v.Some? ==> RefShape(v.value) && IsIdStr(SubField(v, "hash").value)
    ensures exists r :: WritesRefOpt(v, r)
  {
    hide RefShape, WritesRef;
    if v.Some? {
      ReadRef(v.value);
      var r :| WritesRef(v.value, r);
      assert WritesRefOpt(v, Some(r));
    } else {
      assert WritesRefOpt(v, None);
    }
  }

  // ---------------------------------------------------------------- reading the parents

  ghost predicate AllIds(vs: seq<Value>) { forall i :: 0 <= i < |vs| ==> IsIdStr(vs[i]) }

  lemma {:induction false} ReadIds(vs: seq<Value>)
    requires AllIds(vs)
    ensures exists ds :: Arr(vs) == IdStrs(ds)
  {
    hide IsSha256Id, IdText;
    if vs == [] {
      assert Arr(vs) == IdStrs([]);
    } else {
      ReadIds(vs[1..]);
      var rest :| Arr(vs[1..]) == IdStrs(rest);
      IdForm(vs[0].s);
      var d: Digest :| vs[0].s == IdText(d);
      var ds := [d] + rest;
      assert vs[1..] == IdStrs(rest).elems;
      assert vs == [vs[0]] + vs[1..];
      assert vs == IdStrs(ds).elems;
    }
  }

  lemma IdsWritten(ds: seq<Digest>)
    ensures AllIds(IdStrs(ds).elems) && IsStrings(IdStrs(ds))
  {
    hide IsSha256Id, IdText;
    forall i | 0 <= i < |ds| ensures IsIdStr(IdStrs(ds).elems[i]) { IdForm(IdText(ds[i])); }
  }

  // ---------------------------------------------------------------- conditions 2 to 5

  /** The conditions on the members of U that do not look at lengths. */
  ghost predicate Shaped(u: Members) { VersionAndType(u) && Schema(u) && Identifiers(u) && NonceAndCreated(u) }

  lemma WritesUnsigned(obj: Members, a: Assertion)
    ensures Writes(obj, a) <==> Writes(Unsigned(obj), a)
  {
    hide Unsigned, WritesRefOpt, PlainField;
    UnsignedLookup(obj, "ref");
    UnsignedLookup(obj, "descriptor");
    forall k | !Elsewhere(k) ensures Lookup(Unsigned(obj), k) == Lookup(obj, k) { UnsignedLookup(obj, k); }
  }

  ghost predicate Scalars(u: Members, a: Assertion) {
    && Lookup(u, "actor") == Some(Str(ActorText(a.actor))) && Lookup(u, "nonce") == Some(Str(NatStr(a.nonce)))
    && Lookup(u, "created") == Some(Num(a.created as real))
    && Lookup(u, "ext") == (if a.ext.Some? then Some(Obj(a.ext.value)) else None)
    && Bounded(a)
  }

  lemma ReadScalars(u: Members)
    requires Shaped(u)
    ensures exists a :: Scalars(u, a)
  {
    hide Lookup, Names, IsActorId, IsNonce, IsCreated, ActorText, NatStr, RefShape, IsStrings, IsIdStr;
    ActorForm(Field(u, "actor").value.s);
    NonceForm(Field(u, "nonce").value.s);
    CreatedForm(Field(u, "created").value.n);
    var key: Digest :| Field(u, "actor").value.s == ActorText(key);
    var n: nat :| n < 0x1_0000_0000_0000_0000 && Field(u, "nonce").value.s == NatStr(n);
    var t: nat :| Counts53(Field(u, "created").value.n, t);
    var ext := if Field(u, "ext").Some? then Some(Field(u, "ext").value.members) else None;
    assert Scalars(u, Assertion(key, t, n, ext, Channel(None)));
  }

  ghost predicate KindOf(u: Members, k: Kind) {
    && k.Pointer? == IsPointer(u)
    && WritesRefOpt(Lookup(u, "ref"), if k.Pointer? then Some(k.ref) else None)
    && WritesRefOpt(Lookup(u, "descriptor"), if k.Pointer? then None else k.descriptor)
    && Lookup(u, "channel") == (if k.Pointer? then Some(Str(IdText(k.channel))) else None)
    && Lookup(u, "parents") == (if k.Pointer? && k.parents.Some? then Some(IdStrs(k.parents.value)) else None)
  }

  lemma ReadKind(u: Members)
    requires Shaped(u)
    ensures exists k :: KindOf(u, k)
  {
    hide Lookup, Names, RefShape, IsSha256Id, IdText, IdStrs, WritesRef;
    KindsDiffer();
    if IsPointer(u) {
      IdForm(Field(u, "channel").value.s);
      var ch: Digest :| Field(u, "channel").value.s == IdText(ch);
      RefHash(u);
      ReadRefOpt(Field(u, "ref"));
      var r :| WritesRefOpt(Field(u, "ref"), r);
      var ps: Option<seq<Digest>> := None;
      if Field(u, "parents").Some? {
        ParentsAreIds(u);
        ReadIds(Field(u, "parents").value.elems);
        var ds :| Field(u, "parents").value == IdStrs(ds);
        ps := Some(ds);
      }
      assert KindOf(u, Pointer(ch, r.value, ps));
    } else {
      RefHash(u);
      ReadRefOpt(Field(u, "descriptor"));
      var r :| WritesRefOpt(Field(u, "descriptor"), r);
      assert KindOf(u, Channel(r));
    }
  }

  lemma ParentsAreIds(u: Members)
    requires Shaped(u) && IsPointer(u) && Field(u, "parents").Some?
    ensures Field(u, "parents").value.Arr? && AllIds(Field(u, "parents").value.elems)
  {
    hide Lookup, Names, RefShape, IsIdStr, IsActorId, IsNonce, IsCreated;
    assert Field(u, "parents").value.elems == Parents(u);
  }

  lemma RefHash(u: Members)
    requires Shaped(u)
    ensures Reference(u).Some? ==> RefShape(Reference(u).value) && IsIdStr(SubField(Reference(u), "hash").value)
  {
    hide Lookup, Names, IsIdStr;
    KindsDiffer();
  }

  /** What meets conditions 2 to 5 writes an assertion. */
  lemma ReadAssertion(u: Members)
    requires Shaped(u) && "id" !in Names(u) && "sig" !in Names(u)
    ensures exists a :: Writes(u, a) && Bounded(a)
  {
    hide Lookup, Names, Schema, Identifiers, NonceAndCreated, IdText, IdStrs, ActorText, NatStr, WritesRefOpt;
    ReadScalars(u);
    ReadKind(u);
    var b :| Scalars(u, b);
    var kind :| KindOf(u, kind);
    var a := Assertion(b.actor, b.created, b.nonce, b.ext, kind);
    OnlyNames(u);
    PlainFields(u, a);
    assert Writes(u, a) && Bounded(a);
  }

  lemma OnlyNames(u: Members)
    requires Schema(u)
    ensures Names(u) <= REQUIRED + OPTIONAL
  {
  }

  lemma PlainFields(u: Members, a: Assertion)
    requires VersionAndType(u) && Names(u) <= REQUIRED + OPTIONAL && a.kind.Pointer? == IsPointer(u)
    requires Lookup(u, "actor") == PlainField(a, "actor") && Lookup(u, "created") == PlainField(a, "created")
    requires Lookup(u, "nonce") == PlainField(a, "nonce") && Lookup(u, "ext") == PlainField(a, "ext")
    requires Lookup(u, "channel") == PlainField(a, "channel") && Lookup(u, "parents") == PlainField(a, "parents")
    ensures Plains(u, a)
  {
    hide Lookup, Names, ActorText, IdText, NatStr, IdStrs;
    forall k | !Elsewhere(k) ensures Lookup(u, k) == PlainField(a, k) { NamesHas(u, k); }
  }

  lemma FirstFields(u: Members, a: Assertion)
    requires Plains(u, a)
    ensures Lookup(u, "v") == Some(Num(1.0))
    ensures Lookup(u, "type") == Some(Str(if a.kind.Pointer? then "pointer" else "channel"))
    ensures Lookup(u, "actor") == Some(Str(ActorText(a.actor))) && Lookup(u, "nonce") == Some(Str(NatStr(a.nonce)))
  {
    hide Lookup, ActorText, IdText, NatStr, IdStrs;
    assert Lookup(u, "v") == PlainField(a, "v") && Lookup(u, "type") == PlainField(a, "type");
    assert Lookup(u, "actor") == PlainField(a, "actor") && Lookup(u, "nonce") == PlainField(a, "nonce");
  }

  lemma OtherFields(u: Members, a: Assertion)
    requires Plains(u, a)
    ensures Lookup(u, "created") == Some(Num(a.created as real))
    ensures Lookup(u, "ext") == if a.ext.Some? then Some(Obj(a.ext.value)) else None
    ensures Lookup(u, "channel") == if a.kind.Pointer? then Some(Str(IdText(a.kind.channel))) else None
    ensures Lookup(u, "parents") ==
            if a.kind.Pointer? && a.kind.parents.Some? then Some(IdStrs(a.kind.parents.value)) else None
  {
    hide Lookup, ActorText, IdText, NatStr, IdStrs;
    assert Lookup(u, "created") == PlainField(a, "created") && Lookup(u, "ext") == PlainField(a, "ext");
    assert Lookup(u, "channel") == PlainField(a, "channel") && Lookup(u, "parents") == PlainField(a, "parents");
  }

  lemma FieldsAt(u: Members, a: Assertion)
    requires Plains(u, a)
    ensures Lookup(u, "v") == Some(Num(1.0))
    ensures Lookup(u, "type") == Some(Str(if a.kind.Pointer? then "pointer" else "channel"))
    ensures Lookup(u, "actor") == Some(Str(ActorText(a.actor))) && Lookup(u, "nonce") == Some(Str(NatStr(a.nonce)))
    ensures Lookup(u, "created") == Some(Num(a.created as real))
    ensures Lookup(u, "ext") == if a.ext.Some? then Some(Obj(a.ext.value)) else None
    ensures Lookup(u, "channel") == if a.kind.Pointer? then Some(Str(IdText(a.kind.channel))) else None
    ensures Lookup(u, "parents") ==
            if a.kind.Pointer? && a.kind.parents.Some? then Some(IdStrs(a.kind.parents.value)) else None
    ensures IsPointer(u) == a.kind.Pointer? && IsChannel(u) == a.kind.Channel?
  {
    hide Lookup, ActorText, IdText, NatStr, IdStrs, Plains;
    KindsDiffer();
    FirstFields(u, a);
    OtherFields(u, a);
  }

  lemma NoOtherNames(u: Members, a: Assertion)
    requires Plains(u, a) && "id" !in Names(u) && "sig" !in Names(u)
    ensures Names(u) <= REQUIRED + OPTIONAL
  {
    hide Lookup, Names, ActorText, IdText, NatStr, IdStrs;
    forall k | k in Names(u) ensures k in REQUIRED + OPTIONAL {
      NamesHas(u, k);
      if !Elsewhere(k) { assert Lookup(u, k) == PlainField(a, k); }
    }
  }

  /** The reference object that an assertion writes, and the members read off it. */
  lemma RefWrittenOpt(u: Members, a: Assertion)
    requires Writes(u, a)
    ensures Lookup(u, "ref").Some? == a.kind.Pointer?
    ensures Lookup(u, "descriptor").Some? == (a.kind.Channel? && a.kind.descriptor.Some?)
    ensures Reference(u).Some? ==> RefShape(Reference(u).value) && IsIdStr(SubField(Reference(u), "hash").value)
    ensures Reference(u) == Lookup(u, if a.kind.Pointer? then "ref" else "descriptor")
    ensures Protocol.Locators(u) == Strs(LocatorTexts(a)).elems
  {
    hide Lookup, Names, WritesRef, RefShape, IsIdStr, IdText, PlainField;
    FieldsAt(u, a);
    var r := if a.kind.Pointer? then Some(a.kind.ref) else a.kind.descriptor;
    if r.Some? { RefWritten(Reference(u).value, r.value); }
  }

  lemma ScalarsShaped(u: Members, a: Assertion)
    requires Writes(u, a) && Bounded(a)
    ensures IsActorId(ActorText(a.actor)) && IsNonce(NatStr(a.nonce)) && IsCreated(a.created as real)
  {
    hide IsActorId, IsNonce, IsCreated, ActorText, NatStr, Writes;
    ActorForm(ActorText(a.actor));
    NonceForm(NatStr(a.nonce));
    CreatedForm(a.created as real);
    assert Counts53(a.created as real, a.created);
  }

  lemma ParentsWritten(u: Members, a: Assertion)
    requires Writes(u, a)
    ensures Parents(u) == IdStrs(ParentIds(a)).elems && AllIds(Parents(u))
    ensures Field(u, "parents").Some? ==> IsStrings(Field(u, "parents").value)
  {
    hide Lookup, IsIdStr, IdText, WritesRefOpt, PlainField;
    FieldsAt(u, a);
    IdsWritten(ParentIds(a));
  }

  /** What writes an assertion meets conditions 2 to 5. */
  lemma WrittenShaped(u: Members, a: Assertion)
    requires Writes(u, a) && Bounded(a)
    requires "id" !in Names(u) && "sig" !in Names(u)
    ensures Shaped(u)
  {
    hide Lookup, Names, WritesRefOpt, RefShape, IsIdStr, IdText, PlainField, IsActorId, IsNonce, IsCreated, ActorText,
         NatStr, IsStrings, IdStrs;
    FieldsAt(u, a);
    NoOtherNames(u, a);
    RefWrittenOpt(u, a);
    ScalarsShaped(u, a);
    ParentsWritten(u, a);
    ChannelShaped(u, a);
  }

  lemma ChannelShaped(u: Members, a: Assertion)
    requires Plains(u, a)
    ensures IsPointer(u) && Field(u, "channel").Some? ==> IsIdStr(Field(u, "channel").value)
  {
    hide Lookup, IdText, PlainField, IsSha256Id;
    FieldsAt(u, a);
    if a.kind.Pointer? { IdForm(IdText(a.kind.channel)); }
  }

  /** Lengths and units are those of the assertion. */
  lemma Measured(u: Members, a: Assertion, octets: nat)
    requires Writes(u, a)
    ensures Counts(u) <==>
            && |LocatorTexts(a)| <= 256 && |ParentIds(a)| <= 1024
            && forall i :: 0 <= i < |LocatorTexts(a)| ==> |Utf8.Utf8(LocatorTexts(a)[i])| <= 8192
    ensures Units(u, octets) == WorkUnits(a, octets)
  {
    hide Lookup, WritesRefOpt, Plains, PlainField, IdText, Utf8Len, Utf8.Utf8, Protocol.Locators, Protocol.Parents,
         LocatorTexts, ParentIds;
    RefWrittenOpt(u, a);
    ParentsWritten(u, a);
    FieldsAt(u, a);
    var locs := LocatorTexts(a);
    forall i | 0 <= i < |locs| ensures |Utf8.Utf8(locs[i])| == Utf8Len(locs[i]) { Utf8.LengthIsOctets(locs[i]); }
    forall i | 0 <= i < |locs| ensures Protocol.Locators(u)[i] == Str(locs[i]) {}
  }

  lemma DoneIff(d: Digest, units: nat)
    requires units > 0
    ensures Done(d, units) <==> BigEndianInt(d) <= Target(units)
  {
    hide BigEndianInt;
    Quotient(BigEndianInt(d), units * 0x1_0000, MAX_H);
  }

  lemma Quotient(x: nat, y: nat, max: nat)
    requires y > 0
    ensures x * y <= max <==> x <= max / y
  {
    var q, r := max / y, max % y;
    assert max == q * y + r;
    if x <= q { Product(x, q, y); } else { Product(q + 1, x, y); }
  }

  lemma Product(a: nat, b: nat, y: nat)
    requires a <= b
    ensures a * y <= b * y
  {
  }

  // ---------------------------------------------------------------- section 20

  /** Conditions 2 to 6 on an assertion that the object writes. */
  lemma ConditionsOn(c: Suite, obj: Members, a: Assertion)
    requires Writes(obj, a)
    ensures var u := Unsigned(obj);
            Shaped(u) && Lengths(c, u) <==> WithinLimits(a) && |Utf8.Utf8(Canonical(c, u))| <= 0x10_0000
  {
    hide Shaped, Writes, Counts, Utf8Len, Utf8.Utf8, Canonical, Unsigned;
    var u := Unsigned(obj);
    WritesUnsigned(obj, a);
    UnsignedNames(obj);
    Measured(u, a, 0);
    Utf8.LengthIsOctets(Canonical(c, u));
    if Shaped(u) {
      ReadAssertion(u);
      var b :| Writes(u, b) && Bounded(b);
      OneReading(u, a, b);
    }
    if Bounded(a) { WrittenShaped(u, a); }
  }

  lemma SignatureOn(c: Suite, obj: Members, a: Assertion)
    requires Writes(obj, a)
    ensures SignatureVerifies(c, obj, Unsigned(obj)) <==>
            SignedBy(c, obj, a.actor, c.sha256(Canonical(c, Unsigned(obj))))
  {
    hide Lookup, Canonical, Unsigned, PlainField, WritesRefOpt, IsActorId, ActorText, Hex, UnHex, IsLowerHex, IsSigHex;
    var u, d := Unsigned(obj), c.sha256(Canonical(c, Unsigned(obj)));
    WritesUnsigned(obj, a);
    FieldsAt(u, a);
    ActorForm(ActorText(a.actor));
    if SignatureVerifies(c, obj, u) {
      SigForm(Field(obj, "sig").value.s);
      var b: seq<Byte> :| |b| == 64 && Field(obj, "sig").value.s == Hex(b);
      HexRoundTrip(b);
      assert SignedBy(c, obj, a.actor, d);
    }
    if SignedBy(c, obj, a.actor, d) {
      var b: seq<Byte> :| |b| == 64 && Lookup(obj, "sig") == Some(Str(Hex(b))) && c.verify(a.actor, b, d);
      SigForm(Hex(b));
      HexRoundTrip(b);
    }
  }

  /** For an object that writes an assertion, section 20 says what is said of the assertion. */
  lemma ProtocolMeans(c: Suite, obj: Members, a: Assertion)
    requires Writes(obj, a)
    ensures ProtocolValid(c, obj) <==> Meets20(c, obj, a)
  {
    hide VersionAndType, Schema, Identifiers, NonceAndCreated, Lengths, Utf8Len, Utf8.Utf8, Canonical, Unsigned, Writes,
         SignatureVerifies, SignedBy, WithinLimits, Done, Target, Units, WorkUnits, Lookup, Hex;
    var u := Unsigned(obj);
    var jcs := Canonical(c, u);
    ConditionsOn(c, obj, a);
    SignatureOn(c, obj, a);
    WritesUnsigned(obj, a);
    Utf8.LengthIsOctets(jcs);
    Measured(u, a, Utf8Len(jcs));
    DoneIff(c.sha256(jcs), Units(u, Utf8Len(jcs)));
  }

  /** An object is valid exactly when it writes an assertion that meets section 20. */
  lemma ValidIff(c: Suite, obj: Members)
    requires NoDup(Obj(obj))
    ensures PyValidate(c, obj).Valid? <==> exists a :: Meets20(c, obj, a)
  {
    hide PyValidate, ProtocolValid, Meets20, Writes, NoDup;
    VerdictsAgree(c, obj);
    if ProtocolValid(c, obj) {
      ValidWrites(c, obj);
      var a :| Writes(obj, a);
      ProtocolMeans(c, obj, a);
      assert Meets20(c, obj, a);
    }
    if a :| Meets20(c, obj, a) {
      assert Writes(obj, a) by { MeetsWrites(c, obj, a); }
      ProtocolMeans(c, obj, a);
    }
  }

  lemma MeetsWrites(c: Suite, obj: Members, a: Assertion)
    requires Meets20(c, obj, a)
    ensures Writes(obj, a)
  {
  }

  lemma ValidWrites(c: Suite, obj: Members)
    requires ProtocolValid(c, obj)
    ensures exists a :: Writes(obj, a)
  {
    hide VersionAndType, Schema, Identifiers, NonceAndCreated, Lengths, IdMatches, WorkDone, SignatureVerifies, Writes,
         Unsigned;
    UnsignedNames(obj);
    ReadAssertion(Unsigned(obj));
    var a :| Writes(Unsigned(obj), a) && Bounded(a);
    WritesUnsigned(obj, a);
    assert Writes(obj, a);
  }

  /** The id and the units of a valid object. */
  lemma ValidGives(c: Suite, obj: Members, a: Assertion)
    requires PyValidate(c, obj).Valid? && Writes(obj, a)
    ensures var jcs := Canonical(c, Unsigned(obj));
            PyValidate(c, obj) == Valid(IdText(c.sha256(jcs)), WorkUnits(a, |Utf8.Utf8(jcs)|))
  {
    hide PyValidate, Writes, Utf8Len, Utf8.Utf8, Canonical, Unsigned, Units, WorkUnits, Hex;
    var u := Unsigned(obj);
    ValidShape(c, obj);
    WritesUnsigned(obj, a);
    Utf8.LengthIsOctets(Canonical(c, u));
    Measured(u, a, Utf8Len(Canonical(c, u)));
  }

  // ---------------------------------------------------------------- one reading

  lemma IdTextOne(a: Digest, b: Digest)
    requires IdText(a) == IdText(b)
    ensures a == b
  {
    hide Hex;
    assert IdText(a)[7..] == Hex(a) && IdText(b)[7..] == Hex(b);
    HexInjective(a, b);
  }

  lemma IdStrsOne(a: seq<Digest>, b: seq<Digest>)
    requires IdStrs(a) == IdStrs(b)
    ensures a == b
  {
    hide IdText;
    assert |IdStrs(a).elems| == |a| && |IdStrs(b).elems| == |b|;
    forall i | 0 <= i < |a| ensures a[i] == b[i] {
      assert IdStrs(a).elems[i] == Str(IdText(a[i])) && IdStrs(b).elems[i] == Str(IdText(b[i]));
      IdTextOne(a[i], b[i]);
    }
  }

  lemma StrsOne(a: seq<string>, b: seq<string>)
    requires Strs(a) == Strs(b)
    ensures a == b
  {
    assert |Strs(a).elems| == |a| && |Strs(b).elems| == |b|;
    forall i | 0 <= i < |a| ensures a[i] == b[i] {
      assert Strs(a).elems[i] == Str(a[i]) && Strs(b).elems[i] == Str(b[i]);
    }
  }

  lemma RefOne(v: Value, r: Ref, s: Ref)
    requires WritesRef(v, r) && WritesRef(v, s)
    ensures r == s
  {
    hide Lookup, IdText, Strs;
    assert Lookup(v.members, "hash") == RefField(r, "hash") && Lookup(v.members, "locators") == RefField(r, "locators");
    IdTextOne(r.hash, s.hash);
    StrsOne(r.locators, s.locators);
  }

  /** An object writes at most one assertion. */
  lemma OneReading(u: Members, a: Assertion, b: Assertion)
    requires Writes(u, a) && Writes(u, b)
    ensures a == b
  {
    hide Lookup, IdText, IdStrs, ActorText, NatStr, PlainField, WritesRef;
    FieldsAt(u, a);
    FieldsAt(u, b);
    assert a.actor == b.actor by { ActorForm(ActorText(a.actor)); }
    assert a.nonce == b.nonce;
    if a.kind.Pointer? {
      IdTextOne(a.kind.channel, b.kind.channel);
      RefOne(Lookup(u, "ref").value, a.kind.ref, b.kind.ref);
      if a.kind.parents.Some? { IdStrsOne(a.kind.parents.value, b.kind.parents.value); }
    } else if a.kind.descriptor.Some? {
      RefOne(Lookup(u, "descriptor").value, a.kind.descriptor.value, b.kind.descriptor.value);
    }
  }

  // ---------------------------------------------------------------- texts

  /** The assertion that a text holds. */
  ghost predicate Holds(c: Suite, text: string, a: Assertion) {
    var v := ParseObject(c.fp, text);
    v.Some? && Writes(v.value.members, a)
  }

  function DigestOf(c: Suite, text: string): Digest
    requires ParseObject(c.fp, text).Some?
  {
    c.sha256(Canonical(c, Unsigned(ParseObject(c.fp, text).value.members)))
  }

  /** A valid text holds exactly one assertion. */
  lemma HoldsOne(c: Suite, text: string)
    requires Faithful(c.fp) && ValidateText(c, text).Valid?
    ensures exists a :: Holds(c, text, a)
    ensures forall a, b :: Holds(c, text, a) && Holds(c, text, b) ==> a == b
  {
    hide Faithful, PyValidate, Parse, Writes, NoDup, Sound, Meets20;
    ParsedObject(c, text);
    var obj := ParseObject(c.fp, text).value.members;
    ValidIff(c, obj);
    var a :| Meets20(c, obj, a);
    MeetsWrites(c, obj, a);
    assert Holds(c, text, a);
    forall a, b | Holds(c, text, a) && Holds(c, text, b) ensures a == b { OneReading(obj, a, b); }
  }
}
