/** Whole texts through both verifiers, and the canonical text of a valid assertion. */
module Validation {
  import opened Values
  import opened Decimals
  import opened Bytes
  import opened Printers
  import opened RoundTrip
  import opened Documents
  import opened Protocol
  import opened GoVerify

  /** The verdict on a received text. */
  function ValidateText(c: Suite, s: string): Verdict {
    match ParseObject(c.fp, s)
    case None => Invalid
    case Some(v) => PyValidate(c, v.members)
  }

  ghost predicate Parsed(c: Suite, obj: Members) { NoDup(Obj(obj)) && Sound(c.fp, Obj(obj)) }

  lemma ParsedObject(c: Suite, s: string)
    requires Faithful(c.fp) && ParseObject(c.fp, s).Some?
    ensures Parsed(c, ParseObject(c.fp, s).value.members)
  {
    ParsedValues(c.fp, s);
  }

  lemma {:induction false} SoundNumeric(fp: Binary64, v: Value)
    requires Sound(fp, v)
    ensures Numeric(fp, v)
    decreases v
  {
    match v
    case Arr(es) => forall i | 0 <= i < |es| ensures Numeric(fp, es[i]) { SoundNumeric(fp, es[i]); }
    case Obj(ms) => forall i | 0 <= i < |ms| ensures Numeric(fp, ms[i].val) { SoundNumeric(fp, ms[i].val); }
    case _ =>
  }

  lemma UnsignedNumeric(c: Suite, obj: Members)
    requires Parsed(c, obj)
    ensures Numeric(c.fp, Obj(Unsigned(obj)))
  {
    SoundNumeric(c.fp, Obj(obj));
    UnsignedMembers(obj);
  }

  /** Python's verifier end to end: its parser, its schema check, its printer. */
  method PyValidateBytes(c: Suite, text: string) returns (r: Verdict)
    requires Faithful(c.fp)
    ensures r == ValidateText(c, text)
  {
    hide Faithful, SignatureVerifies, PyCheckSchema, Unsigned, Utf8Len, Units, Target;
    var v := PyParseObject(c.fp, text);
    if v == None { return Invalid; }
    var obj := v.value.members;
    ParsedObject(c, text);
    if OtherVersion(obj) { return Unsupported; }
    var u := Unsigned(obj);
    var check := PyCheckSchema(u);
    if check == Fail { return Invalid; }
    if check == Unknown { return Unsupported; }
    UnsignedNumeric(c, obj);
    var jcs := PyCanonicalize(c.fp, Obj(u));
    if Utf8Len(jcs) > MAX_JCS { return Invalid; }
    var digest := c.sha256(jcs);
    if !StrField(obj, "id") { return Invalid; }
    if Field(obj, "id").value.s != IdOf(digest) { return Invalid; }
    var units := Units(u, Utf8Len(jcs));
    if BigEndianInt(digest) > Target(units) { return Invalid; }
    if !SignatureVerifies(c, obj, u) { return Invalid; }
    return Valid(IdOf(digest), units);
  }

  /** Go's verifier end to end gives the same verdict on every text. */
  method GoVerifyBytes(c: Suite, text: string) returns (r: Verdict)
    requires Faithful(c.fp)
    ensures r == ValidateText(c, text)
  {
    hide Faithful, SignatureVerifies, PyValidate, GoSchema, GoIdentifiers, GoFinish, Unsigned, GoIsNonce, IsActorId,
         IsCreated, Lookup;
    var v := GoParseIJson(c.fp, text);
    if v == None { return Invalid; }
    var root := v.value.members;
    ParsedObject(c, text);
    VerdictsAgree(c, root);
    if !NumField(root, "v") { return Invalid; }
    if Field(root, "v").value.n != 1.0 { return Unsupported; }
    var typ := GoType(root);
    if typ != "channel" && typ != "pointer" { return Invalid; }
    var u := Unsigned(root);
    if !GoSchema(u, typ) || !GoIdentifiers(u, typ) { return Invalid; }
    if !(StrField(u, "actor") && IsActorId(Field(u, "actor").value.s)) { return Invalid; }
    if !(StrField(u, "nonce") && GoIsNonce(Field(u, "nonce").value.s)) { return Invalid; }
    if !(NumField(u, "created") && IsCreated(Field(u, "created").value.n)) { return Invalid; }
    UnsignedNumeric(c, root);
    r := GoTail(c, root, u, typ);
  }

  method GoTail(c: Suite, root: Members, u: Members, typ: string) returns (r: Verdict)
    requires Faithful(c.fp) && Numeric(c.fp, Obj(u))
    ensures r == GoFinish(c, root, u, typ)
  {
    hide Faithful, SignatureVerifies, Lookup, Numeric, IsSha256Id, Utf8Len, GoLocators, GoParentCount;
    var jcs := GoCanonicalize(c.fp, Obj(u));
    if Utf8Len(jcs) > MAX_JCS { return Invalid; }
    var locs := GoLocators(u, typ);
    if |locs| > MAX_LOCATORS { return Invalid; }
    if exists i :: 0 <= i < |locs| && locs[i].Str? && Utf8Len(locs[i].s) > MAX_LOCATOR_BYTES { return Invalid; }
    if GoParentCount(u, typ) > MAX_PARENTS { return Invalid; }
    var d := c.sha256(jcs);
    if !StrField(root, "id") { return Invalid; }
    if !IsSha256Id(Field(root, "id").value.s) { return Invalid; }
    if Field(root, "id").value.s != IdOf(d) { return Invalid; }
    var units := 1 + (Utf8Len(jcs) + 1023) / 1024 + |locs| + GoParentCount(u, typ)
        + (if typ == "channel" then 16 else 0);
    if BigEndianInt(d) > MAX_H / (units * UNIT_SCALE) { return Invalid; }
    if !SignatureVerifies(c, root, u) { return Invalid; }
    return Valid(IdOf(d), units);
  }
}
