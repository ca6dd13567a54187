/** The validity predicate of section 20 of the SPP v1 specification, and the two pipelines that decide it. */
module Protocol {
  import opened Values
  import opened Decimals
  import opened Bytes
  import opened Printing

  /** What the verifiers take from their libraries: number conversions, SHA-256 of the canonical text,
      and the SPP-Ed25519-1 check of (public key, signature, digest). */
  datatype Suite = Suite(fp: Binary64, sha256: string -> Digest, verify: (seq<Byte>, seq<Byte>, Digest) -> bool)

  const MAX_NONCE: nat := 0xFFFF_FFFF_FFFF_FFFF
  const MAX_CREATED: nat := 9007199254740991
  const MAX_JCS: nat := 1048576
  const MAX_LOCATORS: nat := 256
  const MAX_LOCATOR_BYTES: nat := 8192
  const MAX_PARENTS: nat := 1024
  const UNIT_SCALE: nat := 65536
  const MAX_H: nat := 0xFFFF_FFFF_FFFF_FFFF_FFFF_FFFF_FFFF_FFFF_FFFF_FFFF_FFFF_FFFF_FFFF_FFFF_FFFF_FFFF

  type Members = seq<Entry<Value>>

  // ---------------------------------------------------------------- grammar of the fields

  predicate Tagged(tag: string, n: nat, s: string) {
    |s| == |tag| + n && s[..|tag|] == tag && IsLowerHex(s[|tag|..])
  }

  predicate IsSha256Id(s: string) { Tagged("sha256:", 64, s) }

  predicate IsActorId(s: string) { Tagged("ed25519:", 64, s) }

  predicate IsSigHex(s: string) { |s| == 128 && IsLowerHex(s) }

  /** Section 17 as Python reads it: the pattern, then the integer bound. */
  predicate IsNonce(s: string) {
    && (s == "0" || (1 <= |s| <= 20 && AllDigits(s) && s[0] != '0'))
    && AllDigits(s) && DigitsVal(s) <= MAX_NONCE
  }

  predicate IsIntegral(x: real) { x == x.Floor as real }

  predicate IsCreated(x: real) { IsIntegral(x) && 0.0 <= x <= MAX_CREATED as real }

  function IdOf(d: Digest): string { "sha256:" + Hex(d) }

  lemma IdIsTagged(d: Digest)
    ensures IsSha256Id(IdOf(d)) && IdOf(d)[7..] == Hex(d)
  {
    HexRoundTrip(d);
  }

  // ---------------------------------------------------------------- fields of an assertion

  function Names(ms: Members): set<string> { set i | 0 <= i < |ms| :: ms[i].name }

  /** U: the object without its top-level id and sig. */
  function Unsigned(ms: Members): Members {
    if ms == [] then []
    else if ms[0].name == "id" || ms[0].name == "sig" then Unsigned(ms[1..])
    else [ms[0]] + Unsigned(ms[1..])
  }

  predicate IsStrings(v: Value) { v.Arr? && forall i :: 0 <= i < |v.elems| ==> v.elems[i].Str? }

  predicate IsPointer(ms: Members) { Lookup(ms, "type") == Some(Str("pointer")) }

  predicate IsChannel(ms: Members) { Lookup(ms, "type") == Some(Str("channel")) }

  function Field(ms: Members, k: string): Option<Value> { Lookup(ms, k) }

  /** The reference object: `ref` of a pointer, `descriptor` of a channel description. */
  function Reference(ms: Members): Option<Value> {
    if IsPointer(ms) then Field(ms, "ref") else if IsChannel(ms) then Field(ms, "descriptor") else None
  }

  function SubField(v: Option<Value>, k: string): Option<Value> {
    if v.Some? && v.value.Obj? then Lookup(v.value.members, k) else None
  }

  function Items(v: Option<Value>): seq<Value> { if v.Some? && v.value.Arr? then v.value.elems else [] }

  function Locators(ms: Members): seq<Value> { Items(SubField(Reference(ms), "locators")) }

  function Parents(ms: Members): seq<Value> { if IsPointer(ms) then Items(Field(ms, "parents")) else [] }

  function CeilKib(n: nat): nat { (n + 1023) / 1024 }

  /** Sections 15 and 16. */
  function Units(ms: Members, len: nat): (units: nat)
    ensures units > 0
  {
    1 + CeilKib(len) + |Locators(ms)| + |Parents(ms)| + (if IsChannel(ms) then 16 else 0)
  }

  function Target(units: nat): nat
    requires units > 0
  {
    MAX_H / (units * UNIT_SCALE)
  }

  function Canonical(c: Suite, ms: Members): string { Print(c.fp, Obj(ms)) }

  // ---------------------------------------------------------------- section 20, condition by condition

  const REQUIRED: set<string> := {"v", "type", "actor", "created", "nonce"}
  const OPTIONAL: set<string> := {"channel", "ref", "parents", "descriptor", "ext"}

  predicate RefShape(v: Value) {
    && v.Obj? && Names(v.members) == {"hash", "locators"}
    && SubField(Some(v), "hash").Some? && SubField(Some(v), "hash").value.Str?
    && SubField(Some(v), "locators").Some? && IsStrings(SubField(Some(v), "locators").value)
  }

  predicate StrField(ms: Members, k: string) { Field(ms, k).Some? && Field(ms, k).value.Str? }

  predicate NumField(ms: Members, k: string) { Field(ms, k).Some? && Field(ms, k).value.Num? }

  predicate Absent(ms: Members, k: string) { Field(ms, k) == None }

  /** Condition 2. */
  predicate VersionAndType(ms: Members) { Field(ms, "v") == Some(Num(1.0)) && (IsPointer(ms) || IsChannel(ms)) }

  /** Condition 3: the structural schema of section 7A. */
  predicate Schema(ms: Members) {
    && Names(ms) <= REQUIRED + OPTIONAL
    && NumField(ms, "v") && StrField(ms, "type") && StrField(ms, "actor") && NumField(ms, "created")
       && StrField(ms, "nonce")
    && (Absent(ms, "ext") || Field(ms, "ext").value.Obj?)
    && (IsPointer(ms) ==>
        && Absent(ms, "descriptor") && StrField(ms, "channel")
        && Field(ms, "ref").Some? && RefShape(Field(ms, "ref").value)
        && (Absent(ms, "parents") || IsStrings(Field(ms, "parents").value)))
    && (IsChannel(ms) ==>
        && Absent(ms, "channel") && Absent(ms, "parents") && Absent(ms, "ref")
        && (Absent(ms, "descriptor") || RefShape(Field(ms, "descriptor").value)))
  }

  predicate IsIdStr(v: Value) { v.Str? && IsSha256Id(v.s) }

  /** Condition 4: identifiers match section 4. */
  predicate Identifiers(ms: Members) {
    && (StrField(ms, "actor") ==> IsActorId(Field(ms, "actor").value.s))
    && (IsPointer(ms) && Field(ms, "channel").Some? ==> IsIdStr(Field(ms, "channel").value))
    && (SubField(Reference(ms), "hash").Some? ==> IsIdStr(SubField(Reference(ms), "hash").value))
    && (forall i :: 0 <= i < |Parents(ms)| ==> IsIdStr(Parents(ms)[i]))
  }

  /** Condition 5. */
  predicate NonceAndCreated(ms: Members) {
    && (StrField(ms, "nonce") ==> IsNonce(Field(ms, "nonce").value.s))
    && (NumField(ms, "created") ==> IsCreated(Field(ms, "created").value.n))
  }

  predicate ShortLocator(v: Value) { v.Str? ==> Utf8Len(v.s) <= MAX_LOCATOR_BYTES }

  predicate Counts(ms: Members) {
    && |Locators(ms)| <= MAX_LOCATORS
    && (forall i :: 0 <= i < |Locators(ms)| ==> ShortLocator(Locators(ms)[i]))
    && |Parents(ms)| <= MAX_PARENTS
  }

  /** Condition 6. */
  predicate Lengths(c: Suite, ms: Members) { Utf8Len(Canonical(c, ms)) <= MAX_JCS && Counts(ms) }

  /** Condition 7. */
  predicate IdMatches(c: Suite, obj: Members, u: Members) {
    Field(obj, "id") == Some(Str(IdOf(c.sha256(Canonical(c, u)))))
  }

  /** Condition 8. */
  predicate WorkDone(c: Suite, u: Members) {
    var jcs := Canonical(c, u);
    BigEndianInt(c.sha256(jcs)) <= Target(Units(u, Utf8Len(jcs)))
  }

  /** Condition 9. */
  predicate SignatureVerifies(c: Suite, obj: Members, u: Members) {
    && StrField(obj, "sig") && IsSigHex(Field(obj, "sig").value.s)
    && StrField(u, "actor") && IsActorId(Field(u, "actor").value.s)
    && c.verify(UnHex(Field(u, "actor").value.s[8..]), UnHex(Field(obj, "sig").value.s), c.sha256(Canonical(c, u)))
  }

  /** Section 20 for a parsed object. */
  predicate ProtocolValid(c: Suite, obj: Members) {
    var u := Unsigned(obj);
    && VersionAndType(u) && Schema(u) && Identifiers(u) && NonceAndCreated(u) && Lengths(c, u)
    && IdMatches(c, obj, u) && WorkDone(c, u) && SignatureVerifies(c, obj, u)
  }

  /** Section 19: a version number other than 1. */
  predicate OtherVersion(obj: Members) { NumField(obj, "v") && Field(obj, "v").value.n != 1.0 }

  datatype Verdict = Valid(id: string, units: nat) | Invalid | Unsupported

  // ---------------------------------------------------------------- Python: validate_object

  datatype Check = Pass | Fail | Unknown

  predicate PyCheckId(v: Option<Value>) { v.Some? && v.value.Str? && IsSha256Id(v.value.s) }

  predicate PyCheckRef(v: Value) {
    && v.Obj? && Names(v.members) == {"hash", "locators"}
    && PyCheckId(Lookup(v.members, "hash"))
    && (var locs := Lookup(v.members, "locators");
        && locs.Some? && locs.value.Arr? && |locs.value.elems| <= MAX_LOCATORS
        && forall i :: 0 <= i < |locs.value.elems| ==>
             locs.value.elems[i].Str? && Utf8Len(locs.value.elems[i].s) <= MAX_LOCATOR_BYTES)
  }

  const CORE: set<string> := REQUIRED + OPTIONAL + {"id", "sig"}

  /** check_schema, in the order the checks are made. */
  function PyCheckSchema(ms: Members): Check {
    if !(Names(ms) <= CORE) then Fail
    else if !(REQUIRED <= Names(ms)) then Fail
    else if !NumField(ms, "v") then Fail
    else if Field(ms, "v").value.n != 1.0 then Unknown
    else if !(Field(ms, "type") == Some(Str("channel")) || Field(ms, "type") == Some(Str("pointer"))) then Fail
    else if !(StrField(ms, "actor") && IsActorId(Field(ms, "actor").value.s)) then Fail
    else if !(NumField(ms, "created") && IsIntegral(Field(ms, "created").value.n)) then Fail
    else if Field(ms, "created").value.n < 0.0 || Field(ms, "created").value.n > MAX_CREATED as real then Fail
    else if !(StrField(ms, "nonce") && IsNonce(Field(ms, "nonce").value.s)) then Fail
    else if Field(ms, "ext").Some? && !Field(ms, "ext").value.Obj? then Fail
    else if Field(ms, "type") == Some(Str("pointer")) then PyCheckPointer(ms)
    else if Field(ms, "channel").Some? || Field(ms, "parents").Some? || Field(ms, "ref").Some? then Fail
    else if Field(ms, "descriptor").Some? && !PyCheckRef(Field(ms, "descriptor").value) then Fail
    else Pass
  }

  function PyCheckPointer(ms: Members): Check {
    if Field(ms, "descriptor").Some? || Field(ms, "channel") == None || Field(ms, "ref") == None then Fail
    else if !PyCheckId(Field(ms, "channel")) then Fail
    else if !PyCheckRef(Field(ms, "ref").value) then Fail
    else
      var parents := Field(ms, "parents");
      if parents == None then Pass
      else if !parents.value.Arr? || |parents.value.elems| > MAX_PARENTS then Fail
      else if exists i :: 0 <= i < |parents.value.elems| && !PyCheckId(Some(parents.value.elems[i])) then Fail
      else Pass
  }

  function PyValidate(c: Suite, obj: Members): Verdict {
    if OtherVersion(obj) then Unsupported
    else
      var u := Unsigned(obj);
      match PyCheckSchema(u)
      case Fail => Invalid
      case Unknown => Unsupported
      case Pass => PyFinish(c, obj, u)
  }

  function PyFinish(c: Suite, obj: Members, u: Members): Verdict {
    var jcs := Canonical(c, u);
    var digest := c.sha256(jcs);
    if Utf8Len(jcs) > MAX_JCS then Invalid
    else if !StrField(obj, "id") then Invalid
    else if Field(obj, "id").value.s != IdOf(digest) then Invalid
    else
      var units := Units(u, Utf8Len(jcs));
      if BigEndianInt(digest) > Target(units) then Invalid
      else if !SignatureVerifies(c, obj, u) then Invalid
      else Valid(IdOf(digest), units)
  }
}
