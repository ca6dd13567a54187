/** The agent's mine(): nested loops over digit widths and nonces, and its agreement with the naive miner. */
module TemplateMiner {
  import opened Values
  import opened Decimals
  import opened Bytes
  import opened Printing
  import opened Printers
  import opened RoundTrip
  import opened Protocol
  import opened Validation
  import opened Revalidation
  import opened Mining
  import opened Template
  import Sorting
  import Lexing
  import Ed = Ed25519

  // ---------------------------------------------------------------- units

  /** The nonce plays no part in the units but through the length. */
  lemma UnitsOfCandidate(u: Members, nonce: string, len: nat)
    ensures Units(Drop(u, "nonce"), len) == Units(Candidate(Drop(u, "nonce"), nonce), len)
  {
    hide Lookup, Drop, Candidate;
    forall k | k != "nonce" ensures Lookup(Drop(u, "nonce"), k) == Lookup(Candidate(Drop(u, "nonce"), nonce), k) {
      DropLookup(u, "nonce", k);
      CandidateField(u, nonce, k);
    }
  }

  function NonceLength(c: Suite, u: Members, n: int): nat { Utf8Len(CandidateText(c, Drop(u, "nonce"), NonceText(n))) }

  function NonceUnits(c: Suite, u: Members, n: int): nat {
    Units(Candidate(Drop(u, "nonce"), NonceText(n)), NonceLength(c, u, n))
  }

  lemma LengthOfNonce(c: Suite, u: Members, n: nat)
    requires AgentBuilt(c, u) && n <= MAX_NONCE
    ensures NonceLength(c, u, 0) <= NonceLength(c, u, n) <= NonceLength(c, u, 0) + 19
  {
    hide AgentBuilt, CandidateText, Head, Tail, NatStr, Utf8Len, AllDigits, IsNonce, IntPow10, DigitsVal;
    var base := Drop(u, "nonce");
    var s := NonceText(n);
    NonceDigits(n);
    NonceDigits(0);
    ZeroIsZero();
    CandidateUnique(c, u, s);
    CandidateUnique(c, u, NonceText(0));
    TextAroundNonce(c, base, s);
    TextAroundNonce(c, base, NonceText(0));
    LengthAround(Head(c, base), s, Tail(c, base));
    LengthAround(Head(c, base), NonceText(0), Tail(c, base));
  }

  lemma NonceDigits(n: nat)
    requires n <= MAX_NONCE
    ensures AllDigits(NonceText(n)) && 1 <= |NonceText(n)| <= 20
  {
    hide NatStr, DigitsVal;
    NonceIsNonce(n);
  }

  /** Over all nonces the units take at most two values, and these are consecutive. */
  lemma UnitsTwoValues(c: Suite, u: Members, n: nat)
    requires AgentBuilt(c, u) && n <= MAX_NONCE
    ensures NonceUnits(c, u, 0) <= NonceUnits(c, u, n) <= NonceUnits(c, u, 0) + 1
  {
    hide AgentBuilt, NonceLength, CeilKib, NonceText, Locators, Parents, IsChannel;
    LengthOfNonce(c, u, n);
    UnitsOfCandidate(u, NonceText(0), NonceLength(c, u, n));
    UnitsOfCandidate(u, NonceText(n), NonceLength(c, u, n));
    KibStep(NonceLength(c, u, 0), NonceLength(c, u, n));
  }

  lemma KibStep(a: nat, b: nat)
    requires a <= b <= a + 1024
    ensures CeilKib(a) <= CeilKib(b) <= CeilKib(a) + 1
  {
  }

  // ---------------------------------------------------------------- one width

  datatype Search = Miss | Hit(n: nat, digits: string, digest: Digest)

  ghost predicate MissesIn(c: Suite, base: Members, lo: int, hi: int) {
    forall m :: lo <= m < hi ==> !Meets(c, base, m)
  }

  /** Slice assignment into the buffer. */
  method Overwrite(buf: array<char>, off: nat, digits: string)
    requires off + |digits| <= buf.Length
    modifies buf
    ensures buf[..] == Patch(old(buf[..]), off, digits)
  {
    for i := 0 to |digits|
      invariant buf[..] == old(buf[..])[..off] + digits[..i] + old(buf[..])[off + i..]
    {
      buf[off + i] := digits[i];
    }
    assert digits[..|digits|] == digits;
  }

  lemma TemplateNumeric(c: Suite, u: Members, nonce: string)
    requires AgentBuilt(c, u)
    ensures Numeric(c.fp, Obj(Candidate(Drop(u, "nonce"), nonce)))
    ensures Print(c.fp, Obj(Candidate(Drop(u, "nonce"), nonce))) == CandidateText(c, Drop(u, "nonce"), nonce)
  {
    hide Numeric, Schema, WithNonce;
    SoundNumeric(c.fp, Obj(u));
    CandidateNumeric(c, u, nonce);
  }

  /** The search finds the top-level nonce: the defensive branch for a missing marker is dead. */
  lemma MarkerFound(c: Suite, u: Members, nonce: string, idx: int)
    requires Faithful(c.fp) && AgentBuilt(c, u) && AllDigits(nonce)
    requires var t := CandidateText(c, Drop(u, "nonce"), nonce);
             && -1 <= idx && (idx >= 0 ==> Occurs(t, MARKER, idx))
             && forall i :: 0 <= i && (idx >= 0 ==> i < idx) ==> !Occurs(t, MARKER, i)
    ensures idx == |Head(c, Drop(u, "nonce"))|
  {
    hide AgentBuilt, CandidateText, Head, Occurs, AllDigits, Faithful;
    MarkerFirst(c, u, nonce, if idx >= 0 then idx else 0);
  }

  lemma BufferIs(a: string, t: string)
    requires |a| == |t| && forall i :: 0 <= i < |t| ==> a[i] == t[i]
    ensures a == t
  {
  }

  lemma InWidth(n: nat, w: nat)
    requires w > 0 && Lo(w) <= n <= Hi(w)
    ensures Padded(n, w) == NonceText(n) && AllDigits(Padded(n, w)) && |Padded(n, w)| == w && n <= MAX_NONCE
  {
    hide NatStr, IntPow10, Padded;
    WidthDigits(n, w);
  }

  /** The target of the template is the target of every candidate of its width. */
  lemma MeetsByTemplate(c: Suite, u: Members, placeholder: string, n: nat)
    requires AgentBuilt(c, u) && AllDigits(placeholder) && AllDigits(NonceText(n)) && |placeholder| == |NonceText(n)|
    ensures var base := Drop(u, "nonce");
            Meets(c, base, n) <==>
            BigEndianInt(c.sha256(CandidateText(c, base, NonceText(n)))) <=
                Target(Units(base, Utf8Len(CandidateText(c, base, placeholder))))
  {
    hide AgentBuilt, CandidateText, NonceText, Utf8Len, AllDigits, Units, Target;
    PatchIsCandidate(c, u, placeholder, NonceText(n));
    UnitsOfCandidate(u, NonceText(n), Utf8Len(CandidateText(c, Drop(u, "nonce"), NonceText(n))));
  }

  lemma OneMoreMiss(c: Suite, base: Members, lo: int, n: int)
    requires MissesIn(c, base, lo, n) && !Meets(c, base, n)
    ensures MissesIn(c, base, lo, n + 1)
  {
    hide Meets;
  }

  lemma NoMissYet(c: Suite, base: Members, lo: int)
    ensures MissesIn(c, base, lo, lo)
  {
  }

  lemma MissesJoin(c: Suite, base: Members, lo: int, mid: int, hi: int)
    requires MissesIn(c, base, lo, mid)
    ensures hi <= mid ==> MissesIn(c, base, lo, hi)
    ensures MissesIn(c, base, mid, hi) ==> MissesIn(c, base, lo, hi)
  {
    hide Meets;
  }

  /** What the search of one width means: nothing there, or the first nonce there that meets its target. */
  ghost predicate Searched(c: Suite, base: Members, w: nat, r: Search)
    requires w > 0
  {
    match r
    case Miss => MissesIn(c, base, Lo(w), Hi(w) + 1)
    case Hit(n, digits, digest) =>
      && Lo(w) <= n <= Hi(w) && MissesIn(c, base, Lo(w), n) && Meets(c, base, n)
      && digits == NonceText(n) && digest == c.sha256(CandidateText(c, base, digits))
  }

  lemma SearchedHit(c: Suite, base: Members, w: nat, n: nat, digits: string, digest: Digest)
    requires w > 0
    ensures Searched(c, base, w, Hit(n, digits, digest)) <==>
            && Lo(w) <= n <= Hi(w) && MissesIn(c, base, Lo(w), n) && Meets(c, base, n)
            && digits == NonceText(n) && digest == c.sha256(CandidateText(c, base, digits))
  {
  }

  lemma SearchedMiss(c: Suite, base: Members, w: nat)
    requires w > 0
    ensures Searched(c, base, w, Miss) <==> MissesIn(c, base, Lo(w), Hi(w) + 1)
  {
  }

  /** All nonces of one width against one template. */
  method MineWidth(c: Suite, u: Members, base: Members, w: nat) returns (r: Search)
    requires Faithful(c.fp) && AgentBuilt(c, u) && base == Drop(u, "nonce") && 1 <= w <= 20
    ensures Searched(c, base, w, r)
  {
    hide *;
    var lo, hi := Lo(w), Hi(w);
    var placeholder := Placeholder(w);
    TemplateNumeric(c, u, placeholder);
    var template := PyCanonicalize(c.fp, Obj(Candidate(base, placeholder)));
    PlaceholderDigits(w);
    var idx := Find(template, MARKER);
    MarkerFound(c, u, placeholder, idx);
    var off := idx + |MARKER|;
    var target := Target(Units(base, Utf8Len(template)));
    var buf := new char[|template|](i requires 0 <= i < |template| => template[i]);
    BufferIs(buf[..], template);
    ghost var shown := placeholder;
    NoMissYet(c, base, lo);
    var n := lo;
    while n <= hi
      invariant lo <= n && MissesIn(c, base, lo, n)
      invariant AllDigits(shown) && |shown| == w && buf[..] == CandidateText(c, base, shown)
      decreases hi - n
    {
      var digits := Padded(n, w);
      InWidth(n, w);
      PatchIsCandidate(c, u, shown, digits);
      Overwrite(buf, off, digits);
      shown := digits;
      var digest := c.sha256(buf[..]);
      PatchIsCandidate(c, u, placeholder, digits);
      MeetsByTemplate(c, u, placeholder, n);
      SearchedHit(c, base, w, n, digits, digest);
      if BigEndianInt(digest) <= target { return Hit(n, digits, digest); }
      OneMoreMiss(c, base, lo, n);
      n := n + 1;
    }
    MissesJoin(c, base, lo, n, hi + 1);
    SearchedMiss(c, base, w);
    return Miss;
  }

  // ---------------------------------------------------------------- sealing what was found

  lemma AsciiClean(s: string)
    requires forall i :: 0 <= i < |s| ==> s[i] as int < 128
    ensures Lexing.Clean(s)
  {
  }

  lemma HexClean(d: seq<Byte>)
    ensures Lexing.Clean(Hex(d)) && Lexing.Clean("sha256:" + Hex(d))
  {
    hide Lexing.Clean, Hex;
    var s := Hex(d);
    assert IsLowerHex(s) by { HexRoundTrip(d); }
    forall i | 0 <= i < |s| ensures s[i] as int < 128 { assert IsLowerHexDigit(s[i]); }
    AsciiClean(s);
    AsciiClean("sha256:" + s);
  }

  /** One more string member of a new name keeps an object printable and parseable. */
  lemma MoreParsed(c: Suite, ms: Members, k: string, s: string)
    requires Parsed(c, ms) && Lookup(ms, k) == None && Lexing.Clean(k) && Lexing.Clean(s)
    ensures Parsed(c, Put(ms, k, Str(s)))
  {
    hide Lexing.Clean;
    PutNew(ms, k, Str(s));
    var all := ms + [Entry(k, Str(s))];
    forall i | 0 <= i < |all| ensures Lexing.Clean(all[i].name) && Sound(c.fp, all[i].val) && NoDup(all[i].val) {
      if i < |ms| { assert all[i] == ms[i]; } else { assert all[i] == Entry(k, Str(s)); }
    }
    forall i, j | 0 <= i < j < |all| ensures all[i].name != all[j].name {
      assert all[i] == ms[i];
      if j < |ms| { assert all[j] == ms[j]; } else { LookupAt(ms, i); }
    }
  }

  lemma BuiltParsed(c: Suite, u: Members)
    requires AgentBuilt(c, u)
    ensures Parsed(c, u) && Bare(u)
  {
    hide Parsed, Bare, Lookup, Schema, WithNonce;
    BuiltBare(c, u);
  }

  lemma EnvelopeParsed(c: Suite, u: Members, n: int, sig: seq<Byte>)
    requires Parsed(c, u) && Bare(u)
    ensures Parsed(c, Envelope(c, Drop(u, "nonce"), NonceText(n), sig))
  {
    hide Parsed, Lookup, Put, Hex, NonceText, Candidate, CandidateText, Lexing.IsNonchar, Drop;
    var cand := Candidate(Drop(u, "nonce"), NonceText(n));
    var digest := c.sha256(CandidateText(c, Drop(u, "nonce"), NonceText(n)));
    CandidateParsed(c, u, n);
    CandidateField(u, NonceText(n), "id");
    CandidateField(u, NonceText(n), "sig");
    HexClean(digest);
    HexClean(sig);
    AsciiClean("id");
    AsciiClean("sig");
    MoreParsed(c, cand, "id", IdOf(digest));
    PutLookup(cand, "id", Str(IdOf(digest)), "sig");
    MoreParsed(c, Put(cand, "id", Str(IdOf(digest))), "sig", Hex(sig));
  }

  lemma FinishId(c: Suite, obj: Members)
    requires PyValidate(c, obj).Valid?
    ensures Field(obj, "id") == Some(Str(PyValidate(c, obj).id))
  {
    hide PyCheckSchema, Canonical, Units, Utf8Len, SignatureVerifies, Unsigned, OtherVersion;
  }

  /** Validating the canonical text of an object: what the object itself validates to, under its own id. */
  lemma ObjectText(c: Suite, env: Members)
    requires Faithful(c.fp) && Parsed(c, env)
    ensures var r := ValidateText(c, Canonical(c, env));
            && (r.Valid? ==> Field(env, "id") == Some(Str(r.id)))
            && (PyValidate(c, env).Valid? ==> r == PyValidate(c, env))
  {
    hide Faithful, Parse, PyValidate, NoDup, Sound, Print, Sorting.Canon, Lookup, CanonObj;
    ParseOfPrint(c.fp, Obj(env));
    CanonOfObj(env);
    UniqueOf(env);
    CanonField(env, "id");
    var r := ValidateText(c, Canonical(c, env));
    assert r == PyValidate(c, CanonObj(env));
    if r.Valid? { FinishId(c, CanonObj(env)); CanonStr(Lookup(env, "id"), r.id); }
    if PyValidate(c, env).Valid? { CanonValid(c, env); }
  }

  lemma CanonStr(v: Option<Value>, s: string)
    requires CanonOpt(v) == Some(Str(s))
    ensures v == Some(Str(s))
  {
  }

  datatype Outcome =
    | Spent                          // no nonce is left
    | NoKey(at: nat)                 // the key cannot sign
    | Rejected(at: nat)              // the reference verifier refuses the envelope
    | Made(env: Members, at: nat)

  ghost predicate Chosen(c: Suite, base: Members, n: nat) {
    n <= MAX_NONCE && MissesIn(c, base, 0, n) && Meets(c, base, n)
  }

  /** What each outcome of the agent's mine means. */
  ghost predicate AgentOutcome(c: Suite, g: Ed.Curve, u: Members, sk: seq<Byte>, r: Outcome) {
    var base := Drop(u, "nonce");
    match r
    case Spent => MissesIn(c, base, 0, MAX_NONCE + 1)
    case NoKey(n) => |sk| != 32 && Chosen(c, base, n)
    case Rejected(n) =>
      var sig := Ed.Sign(g, sk, c.sha256(CandidateText(c, base, NonceText(n))));
      Chosen(c, base, n) && sig.Some?
          && !ValidateText(c, Canonical(c, Envelope(c, base, NonceText(n), sig.value))).Valid?
    case Made(env, n) =>
      var digest := c.sha256(CandidateText(c, base, NonceText(n)));
      var sig := Ed.Sign(g, sk, digest);
      var verdict := ValidateText(c, Canonical(c, env));
      && Chosen(c, base, n) && sig.Some? && env == Envelope(c, base, NonceText(n), sig.value)
      && verdict.Valid? && verdict.id == IdOf(digest)
  }

  /** Build, sign and check the envelope for the nonce that was found. */
  method Seal(c: Suite, g: Ed.Curve, u: Members, base: Members, sk: seq<Byte>, n: nat, digits: string, digest: Digest)
      returns (r: Outcome)
    requires Faithful(c.fp) && AgentBuilt(c, u) && base == Drop(u, "nonce") && Chosen(c, base, n)
    requires digits == NonceText(n) && digest == c.sha256(CandidateText(c, base, digits))
    ensures AgentOutcome(c, g, u, sk, r) && !r.Spent?
  {
    hide Faithful, AgentBuilt, Chosen, Ed.Sign, CandidateText, NonceText, Put, Drop, Candidate, ValidateText, Parsed,
         Numeric, Print, Sealed, Lookup,
         Hex, IdOf;
    var sig := Ed.Sign(g, sk, digest);
    if sig == None { SignReturns(g, sk, digest); return NoKey(n); }
    PutNonce(u, digits);
    var env := Sealed(Put(base, "nonce", Str(digits)), IdOf(digest), sig.value);
    BuiltParsed(c, u);
    EnvelopeParsed(c, u, n, sig.value);
    ParsedNumeric(c, env);
    var raw := PyCanonicalize(c.fp, Obj(env));
    var info := PyValidateBytes(c, raw);
    ObjectText(c, env);
    SealedFields(Candidate(base, digits), IdOf(digest), sig.value);
    if !info.Valid? { return Rejected(n); }
    return Made(env, n);
  }

  lemma ParsedNumeric(c: Suite, env: Members)
    requires Parsed(c, env)
    ensures Numeric(c.fp, Obj(env))
  {
    SoundNumeric(c.fp, Obj(env));
  }

  lemma PutNonce(u: Members, digits: string)
    ensures Put(Drop(u, "nonce"), "nonce", Str(digits)) == Candidate(Drop(u, "nonce"), digits)
  {
    DropLookup(u, "nonce", "nonce");
    PutNew(Drop(u, "nonce"), "nonce", Str(digits));
  }

  lemma FirstWidth()
    ensures Lo(1) == 0
  {
  }

  /** The agent's mine: widths in order, so the nonces of all widths are tried in order from 0 to 2^64-1. */
  method Mine(c: Suite, g: Ed.Curve, u: Members, sk: seq<Byte>) returns (r: Outcome)
    requires Faithful(c.fp) && AgentBuilt(c, u)
    ensures AgentOutcome(c, g, u, sk, r)
  {
    hide *;
    var base := Drop(u, "nonce");
    FirstWidth();
    NoMissYet(c, base, 0);
    var w := 1;
    while w <= 20
      invariant 1 <= w <= 21
      invariant w <= 20 ==> MissesIn(c, base, 0, Lo(w))
      invariant w == 21 ==> MissesIn(c, base, 0, MAX_NONCE + 1)
    {
      var s := MineWidth(c, u, base, w);
      InRange(w);
      match s {
        case Hit(n, digits, digest) =>
          SearchedHit(c, base, w, n, digits, digest);
          MissesJoin(c, base, 0, Lo(w), n);
          NowChosen(c, base, n);
          r := Seal(c, g, u, base, sk, n, digits, digest);
          return;
        case Miss =>
          SearchedMiss(c, base, w);
          MissesJoin(c, base, 0, Lo(w), Hi(w) + 1);
      }
      w := w + 1;
    }
    r := Spent;
    SpentMeans(c, g, u, sk);
  }

  lemma InRange(w: nat)
    requires 1 <= w <= 20
    ensures Hi(w) <= MAX_NONCE && (w < 20 ==> Hi(w) + 1 == Lo(w + 1)) && (w == 20 ==> Hi(w) == MAX_NONCE)
  {
    hide IntPow10;
    if w < 20 { WidthsMeet(w); } else { LastWidth(); }
  }

  lemma NowChosen(c: Suite, base: Members, n: nat)
    requires n <= MAX_NONCE && MissesIn(c, base, 0, n) && Meets(c, base, n)
    ensures Chosen(c, base, n)
  {
  }

  lemma SpentMeans(c: Suite, g: Ed.Curve, u: Members, sk: seq<Byte>)
    requires MissesIn(c, Drop(u, "nonce"), 0, MAX_NONCE + 1)
    ensures AgentOutcome(c, g, u, sk, Spent)
  {
  }

  // ---------------------------------------------------------------- agreement with the naive miner

  /** Whenever the naive loop from 0 succeeds, the agent's miner stops at the same nonce, hence with the same
      digest and target, and what it makes is the same envelope. */
  lemma MinersAgree(c: Suite, g: Ed.Curve, u: Members, sk: seq<Byte>, naive: Mined, agent: Outcome)
    requires NaiveOutcome(c, g, u, sk, 0, naive) && naive.Found? && AgentOutcome(c, g, u, sk, agent)
    ensures (agent.Made? || agent.Rejected?) && agent.at == naive.n
    ensures agent.Made? ==> agent.env == naive.env
  {
    hide Meets, Sized, CandidateText, NonceText, Drop, Ed.Sign, Envelope, ValidateText, PyCheckSchema, WithNonce,
         Canonical;
    SignReturns(g, sk, c.sha256(CandidateText(c, Drop(u, "nonce"), NonceText(naive.n))));
  }

  /** The signer's key fits the actor, and its nonce scalar for the n-th candidate is not zero modulo L. */
  ghost predicate OwnKey(c: Suite, g: Ed.Curve, u: Members, sk: seq<Byte>, n: int) {
    && ChecksSignatures(c, g) && Ed.CurveLaws(g) && |sk| == 32
    && Field(u, "actor") == Some(Str("ed25519:" + Hex(Ed.PublicKey(g, sk))))
    && Ed.NonceScalar(g, sk, c.sha256(CandidateText(c, Drop(u, "nonce"), NonceText(n)))) != 0
  }

  /** With the signer's own key and a non-zero nonce scalar the agent's miner does make that envelope, and the
      verifier accepts it. */
  lemma AgentSucceeds(c: Suite, g: Ed.Curve, u: Members, sk: seq<Byte>, env: Members, n: nat, agent: Outcome)
    requires NaiveOutcome(c, g, u, sk, 0, Found(env, n)) && AgentOutcome(c, g, u, sk, agent)
    requires OwnKey(c, g, u, sk, n) && Faithful(c.fp) && AgentBuilt(c, u)
    ensures agent == Made(env, n) && PyValidate(c, env).Valid?
  {
    hide Meets, Sized, CandidateText, NonceText, Drop, Ed.Sign, Envelope, ValidateText, PyCheckSchema, WithNonce,
         Canonical, Parsed,
         AgentBuilt, ChecksSignatures, Ed.CurveLaws, Ed.PublicKey, Ed.NonceScalar, PyValidate, Lookup, Faithful, Hex,
         Units,
         Utf8Len, NoneBefore;
    MinersAgree(c, g, u, sk, Found(env, n), agent);
    var sig := Ed.Sign(g, sk, c.sha256(CandidateText(c, Drop(u, "nonce"), NonceText(n))));
    BuiltParsed(c, u);
    MinedIsValid(c, g, u, sk, n);
    EnvelopeParsed(c, u, n, sig.value);
    ObjectText(c, env);
  }
}
