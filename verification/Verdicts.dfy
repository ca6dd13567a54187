/** The verdicts of the two programs, each with its own signature check. */
module Verdicts {
  import opened Values
  import opened Decimals
  import opened Bytes
  import opened Printing
  import opened RoundTrip
  import opened Documents
  import opened Protocol
  import opened Validation
  import Ed = Ed25519
  import opened Conformance
  import opened GoVerify
  import opened Revalidation
  import Sorting
  import opened Mining
  import opened TemplateMiner

  function PySuite(fp: Binary64, sha256: string -> Digest, g: Ed.Curve): Suite {
    Suite(fp, sha256, (a: seq<Byte>, sig: seq<Byte>, d: Digest) => Ed.Verify(g, a, sig, d))
  }

  function GoSuite(fp: Binary64, sha256: string -> Digest, g: Ed.Curve): Suite {
    Suite(fp, sha256, (a: seq<Byte>, sig: seq<Byte>, d: Digest) => GoSignature(g, a, sig, d))
  }

  /** Section 20 with the profile of section 8A as condition 9. */
  function ProfileSuite(fp: Binary64, sha256: string -> Digest, g: Ed.Curve): Suite {
    Suite(fp, sha256, (a: seq<Byte>, sig: seq<Byte>, d: Digest) => Conforms(g, a, sig, d))
  }

  /** The actor's key or the R of the signature is the encoding of the signed identity. */
  predicate UsesSignedOne(obj: Members) {
    var actor, sig := Field(Unsigned(obj), "actor"), Field(obj, "sig");
    || (actor.Some? && actor.value.Str? && IsActorId(actor.value.s) && UnHex(actor.value.s[8..]) == SIGNED_ONE)
    || (sig.Some? && sig.value.Str? && IsSigHex(sig.value.s) && UnHex(sig.value.s)[..32] == SIGNED_ONE)
  }

  predicate TextUsesSignedOne(fp: Binary64, s: string) {
    match ParseObject(fp, s)
    case Some(v) => UsesSignedOne(v.members)
    case None => false
  }

  /** Two suites that differ in the signature check alone: the verdicts differ only where that decides. */
  lemma OnlySignatureDiffers(c: Suite, w: Suite, obj: Members)
    requires w.fp == c.fp && w.sha256 == c.sha256
    ensures var u := Unsigned(obj);
            && (PyValidate(c, obj).Valid? ==> SignatureVerifies(c, obj, u))
            && (SignatureVerifies(c, obj, u) == SignatureVerifies(w, obj, u) ==>
               PyValidate(c, obj) == PyValidate(w, obj))
            && (PyValidate(c, obj).Valid? && !SignatureVerifies(w, obj, u) ==> PyValidate(w, obj) == Invalid)
            && (!PyValidate(c, obj).Valid? && !SignatureVerifies(w, obj, u) ==>
               PyValidate(w, obj) == PyValidate(c, obj))
  {
    hide Unsigned, PyCheckSchema, OtherVersion, SignatureVerifies, Units, Utf8Len, Target, Print, Lookup;
  }

  lemma SignaturesOf(fp: Binary64, sha256: string -> Digest, g: Ed.Curve, obj: Members)
    requires Ed.GroupLaws(g) && Ed.RootLaws(g)
    ensures var c, w, u := PySuite(fp, sha256, g), ProfileSuite(fp, sha256, g), Unsigned(obj);
            && (SignatureVerifies(w, obj, u) ==> SignatureVerifies(c, obj, u))
            && (SignatureVerifies(c, obj, u) ==> (SignatureVerifies(w, obj, u) <==> !UsesSignedOne(obj)))
  {
    hide Ed.Verify, Conforms, Ed.GroupLaws, Ed.RootLaws, Unsigned, Lookup, Print, IsLowerHex, UnHex;
    var u := Unsigned(obj);
    if StrField(obj, "sig") && IsSigHex(Field(obj, "sig").value.s) && StrField(u, "actor")
        && IsActorId(Field(u, "actor").value.s) {
      var a, sig := UnHex(Field(u, "actor").value.s[8..]), UnHex(Field(obj, "sig").value.s);
      VerifyAgainstProfile(g, a, sig, sha256(Print(fp, Obj(u))));
    }
  }

  /** On every text: Python's verdict is section 20's unless it is valid and uses the signed identity, where
      section 20 says invalid. */
  lemma PyVerdictIff(fp: Binary64, sha256: string -> Digest, g: Ed.Curve, s: string)
    requires Ed.GroupLaws(g) && Ed.RootLaws(g)
    ensures var py, spec := ValidateText(PySuite(fp, sha256, g), s), ValidateText(ProfileSuite(fp, sha256, g), s);
            && (py == spec <==> !(py.Valid? && TextUsesSignedOne(fp, s)))
            && (py != spec ==> spec == Invalid)
  {
    hide PyValidate, SignatureVerifies, UsesSignedOne, Parse, Ed.GroupLaws, Ed.RootLaws, Unsigned;
    if ParseObject(fp, s).Some? {
      var obj := ParseObject(fp, s).value.members;
      var c, w := PySuite(fp, sha256, g), ProfileSuite(fp, sha256, g);
      OnlySignatureDiffers(c, w, obj);
      SignaturesOf(fp, sha256, g, obj);
    }
  }

  /** On every text Go's verdict is section 20's. */
  lemma GoVerdict(fp: Binary64, sha256: string -> Digest, g: Ed.Curve, s: string)
    ensures ValidateText(GoSuite(fp, sha256, g), s) == ValidateText(ProfileSuite(fp, sha256, g), s)
  {
    hide PyValidate, Parse, Unsigned, GoSignature, Conforms, Print, Lookup, UnHex, IsLowerHex;
    if ParseObject(fp, s).Some? {
      var obj := ParseObject(fp, s).value.members;
      var c, w := GoSuite(fp, sha256, g), ProfileSuite(fp, sha256, g);
      forall a, sig, d ensures c.verify(a, sig, d) == w.verify(a, sig, d) { GoConforms(g, a, sig, d); }
      OnlySignatureDiffers(c, w, obj);
    }
  }

  /** On every text the two programs, each with its own signature check, return the same verdict unless Python
      accepts a text whose key or R is the signed identity; Go then says invalid. */
  lemma ProgramsAgreeIff(fp: Binary64, sha256: string -> Digest, g: Ed.Curve, s: string)
    requires Ed.GroupLaws(g) && Ed.RootLaws(g)
    ensures var py, go := ValidateText(PySuite(fp, sha256, g), s), ValidateText(GoSuite(fp, sha256, g), s);
            && (py == go <==> !(py.Valid? && TextUsesSignedOne(fp, s)))
            && (py != go ==> go == Invalid)
  {
    hide ValidateText, TextUsesSignedOne, Ed.GroupLaws, Ed.RootLaws;
    PyVerdictIff(fp, sha256, g, s);
    GoVerdict(fp, sha256, g, s);
  }

  lemma LawsGive(g: Ed.Curve)
    requires Ed.CurveLaws(g)
    ensures Ed.GroupLaws(g) && Ed.RootLaws(g)
  {
  }

  lemma EnvelopeActor(c: Suite, u: Members, n: int, sig: seq<Byte>)
    ensures Field(Envelope(c, Drop(u, "nonce"), NonceText(n), sig), "actor") == Field(u, "actor")
  {
    hide Lookup, Drop, Candidate, Put, NonceText, CandidateText, Hex;
    var cand := Candidate(Drop(u, "nonce"), NonceText(n));
    SealedFields(cand, IdOf(c.sha256(CandidateText(c, Drop(u, "nonce"), NonceText(n)))), sig);
    CandidateField(u, NonceText(n), "actor");
  }

  lemma KeyText(key: seq<Byte>)
    requires |key| == 32
    ensures var s := "ed25519:" + Hex(key); IsActorId(s) && UnHex(s[8..]) == key
  {
    hide IsLowerHexDigit, UnHex, Hex;
    HexRoundTrip(key);
    assert ("ed25519:" + Hex(key))[8..] == Hex(key);
  }

  lemma TextUsesKey(c: Suite, env: Members)
    requires Faithful(c.fp) && Parsed(c, env) && Field(env, "actor") == Some(Str("ed25519:" + Hex(SIGNED_ONE)))
    ensures TextUsesSignedOne(c.fp, Canonical(c, env))
  {
    hide Faithful, Parse, NoDup, Sound, Print, Sorting.Canon, CanonObj, Lookup, Unsigned, UnHex, Hex, IsLowerHex;
    ParseOfPrint(c.fp, Obj(env));
    CanonOfObj(env);
    UniqueOf(env);
    CanonField(env, "actor");
    CanonKind(Field(env, "actor").value);
    UnsignedLookup(CanonObj(env), "actor");
    assert |SIGNED_ONE| == 32;
    KeyText(SIGNED_ONE);
  }

  /** A text at which they differ: an assertion that does its work, with the signed identity as its actor's key and
      a signature at which Python and section 8A differ. */
  lemma TextDiffers(fp: Binary64, sha256: string -> Digest, g: Ed.Curve, u: Members, n: int, s: nat)
    requires Faithful(fp) && Ed.CurveLaws(g) && 0 < s < Ed.L
    requires var c := PySuite(fp, sha256, g);
             && Parsed(c, u) && Bare(u) && PyCheckSchema(WithNonce(u)) == Pass && 0 <= n <= MAX_NONCE
             && Field(u, "actor") == Some(Str("ed25519:" + Hex(SIGNED_ONE)))
             && Sized(c, Drop(u, "nonce"), n) && Meets(c, Drop(u, "nonce"), n)
    ensures var c := PySuite(fp, sha256, g);
            var sig := Ed.Encode(Ed.Mul(g, s, g.base)) + Ed.ToLittle(s, 32);
            var text := Canonical(c, Envelope(c, Drop(u, "nonce"), NonceText(n), sig));
            ValidateText(c, text).Valid? && ValidateText(GoSuite(fp, sha256, g), text) == Invalid
  {
    hide Faithful, Ed.CurveLaws, Ed.Verify, Ed.Encode, Ed.Mul, Ed.ToLittle, Conforms, Parsed, Bare, PyCheckSchema,
         WithNonce,
         Drop, Lookup, Sized, Meets, ValidateText, PyValidate, Canonical, NonceText, CandidateText, Envelope, Units,
         Utf8Len;
    var c := PySuite(fp, sha256, g);
    var sig := Ed.Encode(Ed.Mul(g, s, g.base)) + Ed.ToLittle(s, 32);
    var env := Envelope(c, Drop(u, "nonce"), NonceText(n), sig);
    var digest := sha256(CandidateText(c, Drop(u, "nonce"), NonceText(n)));
    KeyDiffers(g, s, digest);
    SealedVerdict(c, u, SIGNED_ONE, sig, n);
    EnvelopeParsed(c, u, n, sig);
    ObjectText(c, env);
    EnvelopeActor(c, u, n, sig);
    TextUsesKey(c, env);
    LawsGive(g);
    ProgramsAgreeIff(fp, sha256, g, Canonical(c, env));
  }

  /** Both programs end to end on one text. */
  method BothVerdicts(fp: Binary64, sha256: string -> Digest, g: Ed.Curve, s: string) returns (py: Verdict, go: Verdict)
    requires Faithful(fp) && Ed.GroupLaws(g) && Ed.RootLaws(g)
    ensures !TextUsesSignedOne(fp, s) ==> py == go
    ensures py != go ==> py.Valid? && go == Invalid && TextUsesSignedOne(fp, s)
    ensures go == ValidateText(ProfileSuite(fp, sha256, g), s)
  {
    hide Faithful, ValidateText, TextUsesSignedOne, Ed.GroupLaws, Ed.RootLaws;
    py := PyValidateBytes(PySuite(fp, sha256, g), s);
    go := GoVerifyBytes(GoSuite(fp, sha256, g), s);
    ProgramsAgreeIff(fp, sha256, g, s);
    GoVerdict(fp, sha256, g, s);
  }
}
