/** The naive miner: try nonces in order, sign the first candidate that meets its own target. */
module Mining {
  import opened Values
  import opened Decimals
  import opened Bytes
  import opened Sorting
  import opened Printing
  import opened Printers
  import opened RoundTrip
  import opened Protocol
  import opened GoVerify
  import opened Validation
  import Lexing
  import Ed = Ed25519

  // ---------------------------------------------------------------- dictionaries

  /** dict assignment: replace in place, or append. */
  function Put(ms: Members, k: string, v: Value): Members {
    if ms == [] then [Entry(k, v)]
    else if ms[0].name == k then [Entry(k, v)] + ms[1..]
    else [ms[0]] + Put(ms[1..], k, v)
  }

  function Drop(ms: Members, k: string): Members {
    if ms == [] then [] else if ms[0].name == k then Drop(ms[1..], k) else [ms[0]] + Drop(ms[1..], k)
  }

  lemma {:induction false} PutLookup(ms: Members, k: string, v: Value, j: string)
    ensures Lookup(Put(ms, k, v), j) == if j == k then Some(v) else Lookup(ms, j)
  {
    if ms != [] {
      PutLookup(ms[1..], k, v, j);
      if ms[0].name == k {
        assert ([Entry(k, v)] + ms[1..])[1..] == ms[1..];
      } else {
        assert ([ms[0]] + Put(ms[1..], k, v))[1..] == Put(ms[1..], k, v);
      }
    }
  }

  lemma {:induction false} PutNew(ms: Members, k: string, v: Value)
    requires Lookup(ms, k) == None
    ensures Put(ms, k, v) == ms + [Entry(k, v)]
  {
    if ms != [] { PutNew(ms[1..], k, v); }
  }

  lemma {:induction false} DropLookup(ms: Members, k: string, j: string)
    ensures Lookup(Drop(ms, k), j) == if j == k then None else Lookup(ms, j)
  {
    if ms != [] {
      DropLookup(ms[1..], k, j);
      var r := Drop(ms[1..], k);
      assert ([ms[0]] + r)[1..] == r;
    }
  }

  lemma {:induction false} DropMembers(ms: Members, k: string)
    ensures forall i :: 0 <= i < |Drop(ms, k)| ==> Drop(ms, k)[i] in ms && Drop(ms, k)[i].name != k
  {
    if ms != [] { DropMembers(ms[1..], k); }
  }

  lemma {:induction false} DropUnique(ms: Members, k: string)
    requires UniqueNames(ms)
    ensures UniqueNames(Drop(ms, k))
  {
    if ms != [] {
      DropUnique(ms[1..], k);
      DropMembers(ms[1..], k);
      var r := Drop(ms[1..], k);
      forall i | 0 <= i < |r| ensures r[i].name != ms[0].name {
        var j :| 0 <= j < |ms[1..]| && ms[1..][j] == r[i];
        assert ms[j + 1] == r[i];
      }
    }
  }

  // ---------------------------------------------------------------- candidates

  /** str(n), which for a negative start value has a sign. */
  function NonceText(n: int): string { if n < 0 then "-" + NatStr(-n) else NatStr(n) }

  /** The body with a nonce; a dict display puts the new key last. */
  function Candidate(body: Members, nonce: string): Members { body + [Entry("nonce", Str(nonce))] }

  function CandidateText(c: Suite, body: Members, nonce: string): string { Canonical(c, Candidate(body, nonce)) }

  predicate Sized(c: Suite, body: Members, n: int) { Utf8Len(CandidateText(c, body, NonceText(n))) <= MAX_JCS }

  /** The candidate's digest is within the target of its own units. */
  predicate Meets(c: Suite, body: Members, n: int) {
    var t := CandidateText(c, body, NonceText(n));
    BigEndianInt(c.sha256(t)) <= Target(Units(Candidate(body, NonceText(n)), Utf8Len(t)))
  }

  /** `n` is the first nonce from `start` that meets its target. */
  ghost predicate First(c: Suite, body: Members, start: int, n: int) {
    start <= n <= MAX_NONCE && Meets(c, body, n) && forall m :: start <= m < n ==> !Meets(c, body, m)
  }

  function Sealed(cand: Members, id: string, sig: seq<Byte>): Members {
    Put(Put(cand, "id", Str(id)), "sig", Str(Hex(sig)))
  }

  function Envelope(c: Suite, body: Members, nonce: string, sig: seq<Byte>): Members {
    Sealed(Candidate(body, nonce), IdOf(c.sha256(CandidateText(c, body, nonce))), sig)
  }

  function WithNonce(u: Members): Members {
    match Lookup(u, "nonce")
    case Some(_) => u
    case None => u + [Entry("nonce", Str("0"))]
  }

  lemma NonceIsNonce(n: int)
    requires n <= MAX_NONCE
    ensures IsNonce(NonceText(n)) <==> 0 <= n
  {
    hide NatStr, DigitsVal, IntPow10;
    OneDigit('0');
    if n < 0 {
      assert NonceText(n)[0] == '-';
    } else if n > 0 {
      var s := NatStr(n);
      ZeroText(s);
      if |s| > 20 {
        DigitsValBound(s);
        PowAboveMax(|s| - 1);
      }
    } else {
      assert NatStr(0) == ['0'] by { ZeroIsZero(); }
    }
  }

  lemma ZeroIsZero()
    ensures NatStr(0) == "0"
  {
  }

  lemma ZeroText(s: string)
    requires AllDigits(s) && s != "" && DigitsVal(s) > 0 && (s[0] == '0' ==> s == "0")
    ensures s[0] != '0'
  {
    OneDigit('0');
    assert "0" == ['0'];
  }

  lemma {:induction false} PowAboveMax(k: nat)
    requires k >= 20
    ensures IntPow10(k) > MAX_NONCE
  {
    if k > 20 {
      PowAboveMax(k - 1);
    } else {
      assert IntPow10(4) == 10000;
      assert IntPow10(8) == 10000 * IntPow10(4);
      assert IntPow10(12) == 10000 * IntPow10(8);
      assert IntPow10(16) == 10000 * IntPow10(12);
      assert IntPow10(20) == 10000 * IntPow10(16);
    }
  }

  datatype Trial = Oversized | Misses | Hits(digest: Digest)

  predicate Tried(c: Suite, body: Members, nonce: int, t: Trial) {
    match t
    case Oversized => !Sized(c, body, nonce)
    case Misses => Sized(c, body, nonce) && !Meets(c, body, nonce)
    case Hits(d) =>
      && Sized(c, body, nonce) && Meets(c, body, nonce)
      && d == c.sha256(CandidateText(c, body, NonceText(nonce)))
  }

  /** One candidate: too large, above its target, or within it. */
  method TryNonce(c: Suite, body: Members, nonce: int) returns (t: Trial)
    requires Faithful(c.fp) && Numeric(c.fp, Obj(Candidate(body, NonceText(nonce))))
    ensures Tried(c, body, nonce, t)
  {
    hide Faithful, Numeric, Units, Utf8Len, Target, Print, NonceText, Candidate;
    var cand := Candidate(body, NonceText(nonce));
    var jcs := PyCanonicalize(c.fp, Obj(cand));
    if Utf8Len(jcs) > MAX_JCS { return Oversized; }
    var digest := c.sha256(jcs);
    if BigEndianInt(digest) <= Target(Units(cand, Utf8Len(jcs))) { return Hits(digest); }
    return Misses;
  }

  datatype Mined =
    | Refused                      // the schema check fails
    | TooLarge(n: int)             // a candidate exceeds the length maximum
    | BadKey(n: int)               // the key cannot sign
    | Exhausted                    // no nonce is left
    | Found(env: Members, n: int)

  ghost predicate NoneBefore(c: Suite, body: Members, start: int, n: int) {
    forall m :: start <= m < n ==> Sized(c, body, m) && !Meets(c, body, m)
  }

  /** What each outcome of mine_and_sign means. */
  ghost predicate NaiveOutcome(c: Suite, g: Ed.Curve, u: Members, sk: seq<Byte>, start: int, r: Mined) {
    var body := Drop(u, "nonce");
    && (r == Refused <==> PyCheckSchema(WithNonce(u)) != Pass)
    && match r
       case Refused => true
       case TooLarge(n) => start <= n <= MAX_NONCE && NoneBefore(c, body, start, n) && !Sized(c, body, n)
       case BadKey(n) => |sk| != 32 && First(c, body, start, n) && NoneBefore(c, body, start, n)
       case Exhausted => NoneBefore(c, body, start, MAX_NONCE + 1)
       case Found(env, n) =>
         var sig := Ed.Sign(g, sk, c.sha256(CandidateText(c, body, NonceText(n))));
         && First(c, body, start, n) && NoneBefore(c, body, start, n) && Sized(c, body, n)
         && sig.Some? && env == Envelope(c, body, NonceText(n), sig.value)
  }

  /** mine_and_sign: the outcome and the nonce it stopped at. */
  method MineAndSign(c: Suite, g: Ed.Curve, u: Members, sk: seq<Byte>, start: int) returns (r: Mined)
    requires Faithful(c.fp) && Numeric(c.fp, Obj(u))
    ensures NaiveOutcome(c, g, u, sk, start, r)
  {
    hide Faithful, Sound, PyCheckSchema, CandidateText, Sized, Meets, NonceText, Numeric;
    if PyCheckSchema(WithNonce(u)) != Pass { return Refused; }
    var body := Drop(u, "nonce");
    var nonce := start;
    while nonce <= MAX_NONCE
      invariant start <= nonce && NoneBefore(c, body, start, nonce)
      decreases MAX_NONCE - nonce
    {
      CandidateNumeric(c, u, NonceText(nonce));
      var t := TryNonce(c, body, nonce);
      match t {
        case Oversized => return TooLarge(nonce);
        case Hits(digest) =>
          var sig := Ed.Sign(g, sk, digest);
          if sig == None { return BadKey(nonce); }
          return Found(Sealed(Candidate(body, NonceText(nonce)), IdOf(digest), sig.value), nonce);
        case Misses =>
      }
      nonce := nonce + 1;
    }
    return Exhausted;
  }

  lemma CandidateNumeric(c: Suite, u: Members, nonce: string)
    requires Numeric(c.fp, Obj(u))
    ensures Numeric(c.fp, Obj(Candidate(Drop(u, "nonce"), nonce)))
  {
    DropMembers(u, "nonce");
  }

  // ---------------------------------------------------------------- what was mined is valid

  /** The verifier's signature check is SPP-Ed25519-1 on this curve. */
  ghost predicate ChecksSignatures(c: Suite, g: Ed.Curve) {
    forall a, sig, d :: c.verify(a, sig, d) == Ed.Verify(g, a, sig, d)
  }

  lemma CandidateField(u: Members, nonce: string, k: string)
    ensures Lookup(Candidate(Drop(u, "nonce"), nonce), k) == if k == "nonce" then Some(Str(nonce)) else Lookup(u, k)
  {
    var body := Drop(u, "nonce");
    DropLookup(u, "nonce", k);
    DropLookup(u, "nonce", "nonce");
    LookupAppend(body, [Entry("nonce", Str(nonce))], k);
    LookupSome(body, k);
  }

  lemma WithNonceField(u: Members, k: string)
    ensures Lookup(WithNonce(u), k) == if k == "nonce" && Lookup(u, k) == None then Some(Str("0")) else Lookup(u, k)
  {
    if Lookup(u, "nonce") == None {
      LookupAppend(u, [Entry("nonce", Str("0"))], k);
      LookupSome(u, k);
    }
  }

  lemma NamesByField(a: Members, b: Members)
    requires forall k :: Lookup(a, k).Some? <==> Lookup(b, k).Some?
    ensures Names(a) == Names(b)
  {
    hide Names;
    forall k ensures k in Names(a) <==> k in Names(b) { NamesHas(a, k); NamesHas(b, k); }
  }

  /** check_schema looks only at the set of names and at fields by name. */
  lemma SchemaByFields(a: Members, b: Members)
    requires Names(a) == Names(b) && forall k :: k != "nonce" ==> Field(a, k) == Field(b, k)
    requires StrField(a, "nonce") && IsNonce(Field(a, "nonce").value.s)
    requires PyCheckSchema(b) == Pass
    ensures PyCheckSchema(a) == Pass
  {
    hide Names, Lookup, PyCheckRef, IsActorId, IsSha256Id, IsNonce;
    assert PyCheckPointer(a) == PyCheckPointer(b);
  }

  lemma CandidateSchema(u: Members, n: int)
    requires PyCheckSchema(WithNonce(u)) == Pass && 0 <= n <= MAX_NONCE
    ensures PyCheckSchema(Candidate(Drop(u, "nonce"), NonceText(n))) == Pass
  {
    hide Names, Lookup, PyCheckSchema, IsNonce, NonceText, Candidate, WithNonce;
    var a, b := Candidate(Drop(u, "nonce"), NonceText(n)), WithNonce(u);
    forall k ensures Lookup(a, k).Some? <==> Lookup(b, k).Some? {
      CandidateField(u, NonceText(n), k);
      WithNonceField(u, k);
    }
    forall k | k != "nonce" ensures Field(a, k) == Field(b, k) {
      CandidateField(u, NonceText(n), k);
      WithNonceField(u, k);
    }
    NamesByField(a, b);
    CandidateField(u, NonceText(n), "nonce");
    NonceIsNonce(n);
    SchemaByFields(a, b);
  }

  predicate Bare(u: Members) { Lookup(u, "id") == None && Lookup(u, "sig") == None }

  /** For a body without id and sig the sealed candidate is the candidate plus those two members. */
  lemma SealedShape(cand: Members, id: string, sig: seq<Byte>)
    requires Bare(cand)
    ensures Sealed(cand, id, sig) == cand + [Entry("id", Str(id))] + [Entry("sig", Str(Hex(sig)))]
    ensures Unsigned(Sealed(cand, id, sig)) == cand
  {
    PutNew(cand, "id", Str(id));
    PutLookup(cand, "id", Str(id), "sig");
    PutNew(Put(cand, "id", Str(id)), "sig", Str(Hex(sig)));
    UnsignedAppend(cand, [Entry("id", Str(id)), Entry("sig", Str(Hex(sig)))]);
    assert cand + [Entry("id", Str(id))] + [Entry("sig", Str(Hex(sig)))] ==
        cand + [Entry("id", Str(id)), Entry("sig", Str(Hex(sig)))];
  }

  lemma {:induction false} UnsignedAppend(a: Members, b: Members)
    requires Bare(a) && forall i :: 0 <= i < |b| ==> b[i].name == "id" || b[i].name == "sig"
    ensures Unsigned(a + b) == a
  {
    if a == [] {
      assert a + b == b;
      AllDropped(b);
    } else {
      assert (a + b)[1..] == a[1..] + b;
      UnsignedAppend(a[1..], b);
      assert a == [a[0]] + a[1..];
    }
  }

  lemma {:induction false} AllDropped(b: Members)
    requires forall i :: 0 <= i < |b| ==> b[i].name == "id" || b[i].name == "sig"
    ensures Unsigned(b) == []
  {
    if b != [] { AllDropped(b[1..]); }
  }

  lemma SealedFields(cand: Members, id: string, sig: seq<Byte>)
    ensures var e := Sealed(cand, id, sig);
            && Field(e, "id") == Some(Str(id)) && Field(e, "sig") == Some(Str(Hex(sig)))
            && forall k :: k != "id" && k != "sig" ==> Field(e, k) == Field(cand, k)
  {
    hide Lookup, Put;
    forall k ensures Field(Sealed(cand, id, sig), k) ==
        (if k == "sig" then Some(Str(Hex(sig))) else if k == "id" then Some(Str(id)) else Field(cand, k)) {
      PutLookup(cand, "id", Str(id), k);
      PutLookup(Put(cand, "id", Str(id)), "sig", Str(Hex(sig)), k);
    }
  }

  /** Sealing a candidate that does its work with any signature: the verdict is the signature check's. */
  lemma SealedVerdict(c: Suite, u: Members, key: seq<Byte>, sig: seq<Byte>, n: int)
    requires PyCheckSchema(WithNonce(u)) == Pass && Bare(u) && 0 <= n <= MAX_NONCE
    requires |key| == 32 && |sig| == 64 && Field(u, "actor") == Some(Str("ed25519:" + Hex(key)))
    requires Sized(c, Drop(u, "nonce"), n) && Meets(c, Drop(u, "nonce"), n)
    ensures var t := CandidateText(c, Drop(u, "nonce"), NonceText(n));
            PyValidate(c, Envelope(c, Drop(u, "nonce"), NonceText(n), sig)) ==
            if c.verify(key, sig, c.sha256(t))
            then Valid(IdOf(c.sha256(t)), Units(Candidate(Drop(u, "nonce"), NonceText(n)), Utf8Len(t)))
            else Invalid
  {
    hide PyCheckSchema, Canonical, NonceText, Units, Utf8Len, Unsigned, Candidate, Lookup, Sealed, Hex, UnHex;
    var body, nonce := Drop(u, "nonce"), NonceText(n);
    var cand := Candidate(body, nonce);
    var digest := c.sha256(Canonical(c, cand));
    CandidateSchema(u, n);
    CandidateField(u, nonce, "id");
    CandidateField(u, nonce, "sig");
    CandidateField(u, nonce, "v");
    CandidateField(u, nonce, "actor");
    SealedShape(cand, IdOf(digest), sig);
    SealedFields(cand, IdOf(digest), sig);
    HexRoundTrip(sig);
    ActorOf(cand, key);
    SchemaVersion(cand);
  }

  /** So a nonce is one that the miner takes exactly when some signature of the key makes its envelope valid. */
  lemma SealedValidIff(c: Suite, u: Members, key: seq<Byte>, sig: seq<Byte>, n: int)
    requires PyCheckSchema(WithNonce(u)) == Pass && Bare(u) && 0 <= n <= MAX_NONCE
    requires |key| == 32 && |sig| == 64 && Field(u, "actor") == Some(Str("ed25519:" + Hex(key)))
    ensures PyValidate(c, Envelope(c, Drop(u, "nonce"), NonceText(n), sig)).Valid? <==>
            && Sized(c, Drop(u, "nonce"), n) && Meets(c, Drop(u, "nonce"), n)
            && c.verify(key, sig, c.sha256(CandidateText(c, Drop(u, "nonce"), NonceText(n))))
  {
    hide PyCheckSchema, Canonical, NonceText, Units, Utf8Len, Unsigned, Candidate, Lookup, Sealed, Hex, UnHex;
    var body, nonce := Drop(u, "nonce"), NonceText(n);
    var cand := Candidate(body, nonce);
    var digest := c.sha256(Canonical(c, cand));
    if Sized(c, body, n) && Meets(c, body, n) {
      SealedVerdict(c, u, key, sig, n);
    } else {
      CandidateField(u, nonce, "id");
      CandidateField(u, nonce, "sig");
      SealedShape(cand, IdOf(digest), sig);
    }
  }

  /** Whatever the miner finds for a U without id and sig, signed by the key its actor names, the verifier accepts
      with the id and units it was mined for, unless the nonce scalar is zero modulo L. */
  lemma MinedIsValid(c: Suite, g: Ed.Curve, u: Members, sk: seq<Byte>, n: int)
    requires ChecksSignatures(c, g) && Ed.CurveLaws(g) && |sk| == 32
    requires PyCheckSchema(WithNonce(u)) == Pass && Bare(u) && 0 <= n <= MAX_NONCE
    requires Field(u, "actor") == Some(Str("ed25519:" + Hex(Ed.PublicKey(g, sk))))
    requires Sized(c, Drop(u, "nonce"), n) && Meets(c, Drop(u, "nonce"), n)
    ensures var t := CandidateText(c, Drop(u, "nonce"), NonceText(n));
            var sig := Ed.Sign(g, sk, c.sha256(t));
            && sig.Some?
            && PyValidate(c, Envelope(c, Drop(u, "nonce"), NonceText(n), sig.value)) ==
               if Ed.NonceScalar(g, sk, c.sha256(t)) != 0
               then Valid(IdOf(c.sha256(t)), Units(Candidate(Drop(u, "nonce"), NonceText(n)), Utf8Len(t)))
               else Invalid
  {
    hide PyCheckSchema, PyValidate, WithNonce, Bare, Ed.Verify, Ed.Sign, Ed.Encode, Ed.Mul, Ed.NonceScalar,
         Ed.CurveLaws,
         CandidateText, Sized, Meets, NonceText, Units, Utf8Len, Candidate, Lookup, Drop, Hex;
    var digest := c.sha256(CandidateText(c, Drop(u, "nonce"), NonceText(n)));
    Ed.SignVerifies(g, sk, digest);
    SealedVerdict(c, u, Ed.PublicKey(g, sk), Ed.Sign(g, sk, digest).value, n);
  }

  lemma SchemaVersion(ms: Members)
    requires PyCheckSchema(ms) == Pass
    ensures !OtherVersion(ms)
  {
    hide PyCheckPointer, PyCheckRef;
  }

  lemma ActorOf(cand: Members, key: seq<Byte>)
    requires PyCheckSchema(cand) == Pass && Field(cand, "actor") == Some(Str("ed25519:" + Hex(key)))
    ensures var s := Field(cand, "actor").value.s;
            IsActorId(s) && UnHex(s[8..]) == key
  {
    hide PyCheckPointer, PyCheckRef, Lookup, IsNonce;
    HexRoundTrip(key);
    var s := Field(cand, "actor").value.s;
    assert s[8..] == Hex(key);
  }

  // ---------------------------------------------------------------- a body that already carries id or sig

  lemma {:induction false} UnsignedPut(ms: Members, k: string, v: Value)
    requires k == "id" || k == "sig"
    ensures Unsigned(Put(ms, k, v)) == Unsigned(ms)
  {
    if ms == [] {
      assert [Entry(k, v)][1..] == [];
    } else if ms[0].name == k {
      assert ([Entry(k, v)] + ms[1..])[1..] == ms[1..];
    } else {
      UnsignedPut(ms[1..], k, v);
      assert ([ms[0]] + Put(ms[1..], k, v))[1..] == Put(ms[1..], k, v);
    }
  }

  lemma CandidateParsed(c: Suite, u: Members, n: int)
    requires Parsed(c, u)
    ensures Parsed(c, Candidate(Drop(u, "nonce"), NonceText(n)))
  {
    hide NatStr;
    var body := Drop(u, "nonce");
    DropUnique(u, "nonce");
    DropMembers(u, "nonce");
    NonceClean(n);
    assert Lexing.Clean("nonce");
    var cand := Candidate(body, NonceText(n));
    forall i | 0 <= i < |cand|
      ensures Lexing.Clean(cand[i].name) && Sound(c.fp, cand[i].val) && NoDup(cand[i].val)
    {
      if i < |body| { assert cand[i] == body[i]; } else { assert cand[i] == Entry("nonce", Str(NonceText(n))); }
    }
    forall i, j | 0 <= i < j < |cand| ensures cand[i].name != cand[j].name {
      assert cand[i] == body[i];
      if j < |body| { assert cand[j] == body[j]; }
    }
  }

  lemma NonceClean(n: int)
    ensures Lexing.Clean(NonceText(n))
  {
    hide NatStr, DigitsVal;
    var s := NatStr(if n < 0 then -n else n);
    assert AllDigits(s);
  }

  lemma UnsignedParsed(c: Suite, ms: Members)
    requires Parsed(c, ms)
    ensures Parsed(c, Unsigned(ms))
  {
    UnsignedNoDup(ms);
    UnsignedMembers(ms);
  }

  /** check_schema reads neither id nor sig, so mine_and_sign takes a U with either as it takes it without. */
  lemma SchemaIgnoresSigned(u: Members, k: string, v: Value)
    requires k == "id" || k == "sig"
    ensures PyCheckSchema(WithNonce(Put(u, k, v))) == PyCheckSchema(WithNonce(u)) && !Bare(Put(u, k, v))
  {
    hide Names, Lookup, Put, WithNonce, PyCheckSchema;
    var a, b := WithNonce(Put(u, k, v)), WithNonce(u);
    PutLookup(u, k, v, k);
    forall j ensures Lookup(a, j) == if j == k then Some(v) else Lookup(b, j) {
      PutLookup(u, k, v, j);
      PutLookup(u, k, v, "nonce");
      WithNonceField(Put(u, k, v), j);
      WithNonceField(u, j);
    }
    forall j ensures j in Names(a) <==> j in Names(b) || j == k {
      NamesHas(a, j);
      NamesHas(b, j);
    }
    SchemaBySameFields(a, b, k);
  }

  lemma SchemaBySameFields(a: Members, b: Members, k: string)
    requires k == "id" || k == "sig"
    requires Names(a) == Names(b) + {k} && forall j :: j != k ==> Field(a, j) == Field(b, j)
    ensures PyCheckSchema(a) == PyCheckSchema(b)
  {
    hide Names, Lookup, PyCheckRef, IsActorId, IsSha256Id, IsNonce;
    assert PyCheckPointer(a) == PyCheckPointer(b);
    assert Names(a) <= CORE <==> Names(b) <= CORE;
    assert REQUIRED <= Names(a) <==> REQUIRED <= Names(b);
  }

  /** check_schema lets a U with id or sig through, but what is mined from it is never valid, unless the
      two texts that differ in those members collide under SHA-256. */
  lemma SignedBodyNeverValid(c: Suite, u: Members, n: int, sig: seq<Byte>)
    requires Faithful(c.fp) && Parsed(c, u) && !Bare(u)
    requires var cand := Candidate(Drop(u, "nonce"), NonceText(n));
             c.sha256(Canonical(c, cand)) == c.sha256(Canonical(c, Unsigned(cand))) ==>
               Canonical(c, cand) == Canonical(c, Unsigned(cand))
    ensures !PyValidate(c, Envelope(c, Drop(u, "nonce"), NonceText(n), sig)).Valid?
  {
    hide Faithful, NoDup, Sound, PyCheckSchema, Print, NonceText, Candidate, Unsigned, Units, Utf8Len,
         SignatureVerifies, Lookup, Sealed,
         SameValue, OtherVersion;
    var cand := Candidate(Drop(u, "nonce"), NonceText(n));
    var digest := c.sha256(Canonical(c, cand));
    var env := Sealed(cand, IdOf(digest), sig);
    UnsignedSealed(cand, IdOf(digest), sig);
    SealedFields(cand, IdOf(digest), sig);
    CandidateParsed(c, u, n);
    UnsignedParsed(c, cand);
    if PyValidate(c, env).Valid? {
      SameIdSameDigest(digest, c.sha256(Canonical(c, Unsigned(cand))));
      PrintInjective(c.fp, Obj(cand), Obj(Unsigned(cand)));
      CandidateField(u, NonceText(n), "id");
      CandidateField(u, NonceText(n), "sig");
      KeepsSigned(cand);
    }
  }

  lemma UnsignedSealed(cand: Members, id: string, sig: seq<Byte>)
    ensures Unsigned(Sealed(cand, id, sig)) == Unsigned(cand)
  {
    UnsignedPut(cand, "id", Str(id));
    UnsignedPut(Put(cand, "id", Str(id)), "sig", Str(Hex(sig)));
  }

  lemma SameIdSameDigest(d: Digest, e: Digest)
    ensures IdOf(d) == IdOf(e) ==> d == e
  {
    if IdOf(d) == IdOf(e) {
      assert IdOf(d)[7..] == Hex(d) && IdOf(e)[7..] == Hex(e);
      HexInjective(d, e);
    }
  }

  lemma KeepsSigned(cand: Members)
    requires !Bare(cand)
    ensures !SameValue(Obj(cand), Obj(Unsigned(cand)))
  {
    hide SameValue;
    var k := if Lookup(cand, "id").Some? then "id" else "sig";
    LookupSome(cand, k);
    var i :| 0 <= i < |cand| && cand[i].name == k;
    UnsignedNames(cand);
    NamesHas(Unsigned(cand), k);
    MissingMember(cand, Unsigned(cand), i);
  }

  lemma MissingMember(a: Members, b: Members, i: nat)
    requires i < |a| && Lookup(b, a[i].name) == None
    ensures !SameValue(Obj(a), Obj(b))
  {
  }

  /** So a U that mines well fails once an id or sig is put into it: the miner does not refuse it, and what it
      finds is not valid. */
  lemma SignedInputFails(c: Suite, g: Ed.Curve, u: Members, k: string, v: Value, sk: seq<Byte>, start: int, r: Mined)
    requires Faithful(c.fp) && Parsed(c, Put(u, k, v)) && PyCheckSchema(WithNonce(u)) == Pass
            && (k == "id" || k == "sig")
    requires NaiveOutcome(c, g, Put(u, k, v), sk, start, r)
    requires r.Found? ==> (
             var cand := Candidate(Drop(Put(u, k, v), "nonce"), NonceText(r.n));
             c.sha256(Canonical(c, cand)) == c.sha256(Canonical(c, Unsigned(cand))) ==>
               Canonical(c, cand) == Canonical(c, Unsigned(cand)))
    ensures r != Refused && (r.Found? ==> !PyValidate(c, r.env).Valid?)
  {
    hide Faithful, Parsed, PyCheckSchema, Put, Canonical, NonceText, Candidate, Unsigned, Bare, Meets, Sized,
         CandidateText, PyValidate, Envelope,
         Ed.Sign, WithNonce, Drop;
    SchemaIgnoresSigned(u, k, v);
    if r.Found? {
      var sig := Ed.Sign(g, sk, c.sha256(CandidateText(c, Drop(Put(u, k, v), "nonce"), NonceText(r.n))));
      SignedBodyNeverValid(c, Put(u, k, v), r.n, sig.value);
    }
  }

  /** A negative start value makes the miner try nonces the schema refuses. */
  lemma NegativeNeverValid(c: Suite, u: Members, n: int, sig: seq<Byte>)
    requires n < 0
    ensures !PyValidate(c, Envelope(c, Drop(u, "nonce"), NonceText(n), sig)).Valid?
  {
    hide PyFinish, PyCheckPointer, PyCheckRef, IsNonce, NonceText, Candidate, Unsigned, Lookup, Sealed, OtherVersion,
         Names, Canonical;
    var cand := Candidate(Drop(u, "nonce"), NonceText(n));
    var id := IdOf(c.sha256(CandidateText(c, Drop(u, "nonce"), NonceText(n))));
    UnsignedSealed(cand, id, sig);
    UnsignedLookup(cand, "nonce");
    CandidateField(u, NonceText(n), "nonce");
    NonceIsNonce(n);
  }

  /** Accepted exactly when the input carried neither id nor sig, the nonce is not negative, and the nonce scalar
      of the signature is not zero modulo L. */
  lemma MinedValidIff(c: Suite, g: Ed.Curve, u: Members, sk: seq<Byte>, n: int)
    requires Faithful(c.fp) && ChecksSignatures(c, g) && Ed.CurveLaws(g) && |sk| == 32 && Parsed(c, u)
    requires PyCheckSchema(WithNonce(u)) == Pass && n <= MAX_NONCE
    requires Field(u, "actor") == Some(Str("ed25519:" + Hex(Ed.PublicKey(g, sk))))
    requires Sized(c, Drop(u, "nonce"), n) && Meets(c, Drop(u, "nonce"), n)
    requires var cand := Candidate(Drop(u, "nonce"), NonceText(n));
             c.sha256(Canonical(c, cand)) == c.sha256(Canonical(c, Unsigned(cand))) ==>
               Canonical(c, cand) == Canonical(c, Unsigned(cand))
    ensures var digest := c.sha256(CandidateText(c, Drop(u, "nonce"), NonceText(n)));
            var sig := Ed.Sign(g, sk, digest);
            sig.Some? && (PyValidate(c, Envelope(c, Drop(u, "nonce"), NonceText(n), sig.value)).Valid? <==>
                          Bare(u) && 0 <= n && Ed.NonceScalar(g, sk, digest) != 0)
  {
    hide *;
    SignReturns(g, sk, c.sha256(CandidateText(c, Drop(u, "nonce"), NonceText(n))));
    var sig := Ed.Sign(g, sk, c.sha256(CandidateText(c, Drop(u, "nonce"), NonceText(n))));
    if n < 0 {
      NegativeNeverValid(c, u, n, sig.value);
    } else if Bare(u) {
      MinedIsValid(c, g, u, sk, n);
    } else {
      SignedBodyNeverValid(c, u, n, sig.value);
    }
  }

  lemma SignReturns(g: Ed.Curve, sk: seq<Byte>, d: Digest)
    ensures Ed.Sign(g, sk, d).Some? <==> |sk| == 32
  {
  }
}
