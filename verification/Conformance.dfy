/** The signature profile of section 8A of the SPP v1 specification, and how the two implementations meet it. */
module Conformance {
  import opened Values
  import opened Bytes
  import opened Ed25519

  // ---------------------------------------------------------------- the profile

  /** Decoding as in section 5.1.3 of RFC 8032, which fails for x = 0 with the sign bit set, then the
      canonical re-encoding of section 8A. */
  function StrictDecode(g: Curve, b: seq<Byte>): Option<Point> {
    if |b| != 32 || YOf(b) >= P then None
    else
      match g.recover(YOf(b))
      case None => None
      case Some(x0) =>
        if x0 == 0 && SignOf(b) then None
        else
          var p := (if SignOf(b) then P - x0 else x0, YOf(b));
          if Encode(p) == b then Some(p) else None
  }

  /** Section 8A, steps 1 to 10. */
  function Conforms(g: Curve, a: seq<Byte>, sig: seq<Byte>, d: Digest): bool {
    && |a| == 32 && |sig| == 64
    && Checked(g, StrictDecode(g, a), StrictDecode(g, sig[..32]), a, sig[..32], FromLittle(sig[32..]), d)
  }

  /** Strict decoding inverts encoding on curve points and accepts nothing else. */
  lemma StrictDecodeIff(g: Curve, b: seq<Byte>, p: Point)
    requires RootLaws(g)
    ensures StrictDecode(g, b) == Some(p) <==> g.on(p) && Encode(p) == b
  {
    hide FromLittle, Encode;
    if StrictDecode(g, b) == Some(p) { assert RootOk(g, YOf(b)); }
    if g.on(p) && Encode(p) == b {
      assert PointRecovers(g, p);
      EncodesTo(p, b);
    }
  }

  // ---------------------------------------------------------------- Go

  /** SetBytes, which reduces y and negates modulo P, then the comparison of the re-encoded octets. */
  function GoDecode(g: Curve, b: seq<Byte>): Option<Point> {
    if |b| != 32 then None
    else
      var y := YOf(b) % P;
      match g.recover(y)
      case None => None
      case Some(x0) =>
        var p := (if SignOf(b) then (P - x0) % P else x0, y);
        if Encode(p) == b then Some(p) else None
  }

  /** SPPEd25519Verify. */
  function GoSignature(g: Curve, a: seq<Byte>, sig: seq<Byte>, d: Digest): bool {
    && |a| == 32 && |sig| == 64
    && Checked(g, GoDecode(g, a), GoDecode(g, sig[..32]), a, sig[..32], FromLittle(sig[32..]), d)
  }

  lemma GoDecodesStrictly(g: Curve, b: seq<Byte>)
    ensures GoDecode(g, b) == StrictDecode(g, b)
  {
    hide FromLittle, Encode;
    if |b| == 32 {
      var y := YOf(b) % P;
      if g.recover(y).Some? {
        var x0 := g.recover(y).value;
        EncodesTo((if SignOf(b) then (P - x0) % P else x0, y), b);
      }
    }
  }

  /** Go decides exactly the profile. */
  lemma GoConforms(g: Curve, a: seq<Byte>, sig: seq<Byte>, d: Digest)
    ensures GoSignature(g, a, sig, d) == Conforms(g, a, sig, d)
  {
    hide FromLittle, GoDecode, StrictDecode, Checked;
    if |a| == 32 && |sig| == 64 {
      GoDecodesStrictly(g, a);
      GoDecodesStrictly(g, sig[..32]);
    }
  }

  // ---------------------------------------------------------------- Python

  /** The octets 1, 0, ..., 0, 128: y = 1 with the sign bit set. */
  const SIGNED_ONE: seq<Byte> := [
    1, 0, 0, 0, 0, 0, 0, 0, 0, 0, 0, 0, 0, 0, 0, 0,
    0, 0, 0, 0, 0, 0, 0, 0, 0, 0, 0, 0, 0, 0, 0, 128]

  lemma {:induction false} ZeroOctets(k: nat)
    ensures FromLittle(seq(k, i => 0)) == 0
  {
    if k > 0 {
      assert seq(k, i => 0)[1..] == seq(k - 1, i => 0);
      ZeroOctets(k - 1);
    }
  }

  lemma SignedOneIff(b: seq<Byte>)
    requires |b| == 32
    ensures b == SIGNED_ONE <==> YOf(b) == 1 && SignOf(b)
  {
    hide FromLittle, Pow256;
    var low := [1] + seq(30, i => 0);
    ZeroOctets(30);
    assert low[1..] == seq(30, i => 0);
    assert FromLittle(low) == 1 by { FirstOctet(low); }
    FromLittleAppend(low, 128);
    assert SIGNED_ONE == low + [128];
    HighOctet();
    FromLittleBound(b);
    assert FromLittle(SIGNED_ONE) == 1 + TWO_255;
    if YOf(b) == 1 && SignOf(b) { LittleInjective(b, SIGNED_ONE); }
  }

  lemma FirstOctet(b: seq<Byte>)
    requires b != []
    ensures FromLittle(b) == b[0] + 256 * FromLittle(b[1..])
  {
  }

  /** decode_point differs from the profile only for a zero root with the sign bit set, where x becomes P. */
  lemma DecodesAlike(g: Curve, b: seq<Byte>)
    requires RootLaws(g) && |b| == 32
    ensures var zero := YOf(b) < P && SignOf(b) && g.recover(YOf(b)) == Some(0);
            && (zero ==> StrictDecode(g, b) == None && Decode(g, b) == Some((P, YOf(b))))
            && (zero ==> YOf(b) == 1 || YOf(b) == P - 1)
            && (!zero ==> StrictDecode(g, b) == Decode(g, b))
  {
    hide FromLittle, Encode, Decode;
    DecodeMeans(g, b);
    assert RootOk(g, YOf(b));
    var y := YOf(b);
    if y < P && g.recover(y).Some? {
      var x0 := g.recover(y).value;
      EncodesTo((if SignOf(b) then P - x0 else x0, y), b);
    }
  }

  lemma OneRecovers(g: Curve)
    requires GroupLaws(g) && RootLaws(g)
    ensures g.recover(1) == Some(0)
  {
    assert PointRecovers(g, IDENT);
  }

  /** The point (0, -1) is not killed by the odd number L, in whichever coordinates it is held. */
  lemma MinusOneNotKilled(g: Curve)
    requires GroupLaws(g) && RootLaws(g)
    ensures Mul(g, L, (P, P - 1)) == MINUS_ONE != IDENT
  {
    hide GroupLaws, Mul;
    assert Red((P, P - 1)) == MINUS_ONE;
    MulRed(g, L, (P, P - 1));
    MulAdd(g, L - 1, 1, MINUS_ONE);
    MulMul(g, L / 2, 2, L - 1, MINUS_ONE);
    MulOne(g, MINUS_ONE);
    MulAdd(g, 1, 1, MINUS_ONE);
    MulIdent(g, L / 2);
    IdentIdent(g);
    AddLaws(g, MINUS_ONE, IDENT, MINUS_ONE);
  }

  /** Held as (P, 1), the identity has only itself as multiples, and adds nothing. */
  lemma IdentityAtP(g: Curve, n: nat, q: Point)
    requires GroupLaws(g) && Near(g, q)
    ensures Mul(g, n, (P, 1)) == IDENT && g.add((P, 1), q) == Red(q) && Near(g, (P, 1))
  {
    hide GroupLaws, Mul;
    assert Red((P, 1)) == IDENT;
    IdentIdent(g);
    MulRed(g, n, (P, 1));
    MulIdent(g, n);
    NearLaws(g, (P, 1), q);
    AddLaws(g, Red(q), IDENT, IDENT);
  }

  /** What the checks on one decoded point admit. */
  predicate Admits(g: Curve, dp: Option<Point>) { dp.Some? && dp.value != IDENT && Mul(g, L, dp.value) == IDENT }

  /** The octets whose point Python admits and the profile does not are exactly those of the signed identity. */
  lemma AdmitsAlike(g: Curve, b: seq<Byte>)
    requires GroupLaws(g) && RootLaws(g) && |b| == 32
    ensures Admits(g, StrictDecode(g, b)) ==> StrictDecode(g, b) == Decode(g, b)
    ensures b != SIGNED_ONE && Admits(g, Decode(g, b)) ==> StrictDecode(g, b) == Decode(g, b)
    ensures b == SIGNED_ONE ==> StrictDecode(g, b) == None && Decode(g, b) == Some((P, 1)) && Admits(g, Decode(g, b))
  {
    hide FromLittle, StrictDecode, Decode, Mul, GroupLaws, RootLaws, SignOf;
    DecodesAlike(g, b);
    SignedOneIff(b);
    OneRecovers(g);
    MinusOneNotKilled(g);
    GroundIdent(g);
    IdentityAtP(g, L, IDENT);
  }

  lemma GroundIdent(g: Curve)
    requires GroupLaws(g)
    ensures Near(g, IDENT)
  {
  }

  /** Python accepts whatever the profile accepts, and more only when the key or R is that encoding. */
  lemma VerifyAgainstProfile(g: Curve, a: seq<Byte>, sig: seq<Byte>, d: Digest)
    requires GroupLaws(g) && RootLaws(g)
    ensures Conforms(g, a, sig, d) ==> Verify(g, a, sig, d)
    ensures Verify(g, a, sig, d) ==> |a| == 32 && |sig| == 64
    ensures Verify(g, a, sig, d) ==> (Conforms(g, a, sig, d) <==> a != SIGNED_ONE && sig[..32] != SIGNED_ONE)
  {
    hide FromLittle, StrictDecode, Decode, Mul, GroupLaws, RootLaws, Challenge;
    if |a| == 32 && |sig| == 64 {
      AdmitsAlike(g, a);
      AdmitsAlike(g, sig[..32]);
    }
  }

  /** For every input: the two decisions are equal unless Python accepts with that encoding as key or R. */
  lemma VerifyConformsIff(g: Curve, a: seq<Byte>, sig: seq<Byte>, d: Digest)
    requires GroupLaws(g) && RootLaws(g) && |a| == 32 && |sig| == 64
    ensures Verify(g, a, sig, d) == Conforms(g, a, sig, d) <==>
            !(Verify(g, a, sig, d) && (a == SIGNED_ONE || sig[..32] == SIGNED_ONE))
  {
    hide Verify, Conforms, GroupLaws, RootLaws;
    VerifyAgainstProfile(g, a, sig, d);
  }

  // ---------------------------------------------------------------- inputs at which they differ

  /** With the signed identity as key the equation is [S]B = R: it does not involve the digest. */
  lemma KeyDiffers(g: Curve, s: nat, d: Digest)
    requires CurveLaws(g) && 0 < s < L
    ensures var sig := Encode(Mul(g, s, g.base)) + ToLittle(s, 32);
            Verify(g, SIGNED_ONE, sig, d) && !Conforms(g, SIGNED_ONE, sig, d)
  {
    hide FromLittle, Decode, Conforms, Mul, GroupLaws, BaseOrder, RootLaws, Challenge, Encode, ToLittle;
    var pr := Mul(g, s, g.base);
    var sig := Encode(pr) + ToLittle(s, 32);
    assert sig[..32] == Encode(pr) && sig[32..] == ToLittle(s, 32);
    assert |SIGNED_ONE| == 32;
    MultipleAdmitted(g, s);
    ScalarOctets(s);
    AdmitsAlike(g, SIGNED_ONE);
    OnIsNear(g, pr);
    var k := Challenge(g, sig[..32], SIGNED_ONE, d);
    IdentityAtP(g, k, pr);
    AddLaws(g, pr, pr, pr);
    VerifyAgainstProfile(g, SIGNED_ONE, sig, d);
  }

  lemma MultipleAdmitted(g: Curve, s: nat)
    requires CurveLaws(g) && s % L != 0
    ensures var p := Mul(g, s, g.base);
            && g.on(p) && Decode(g, Encode(p)) == Some(p)
            && Admits(g, Some(p)) && Encode(p) != SIGNED_ONE
  {
    hide FromLittle, Decode, Mul, GroupLaws, RootLaws, Encode;
    MultipleKilled(g, s);
    var p := Mul(g, s, g.base);
    DecodeEncode(g, p);
    assert KillsBase(g, s);
    AdmitsAlike(g, Encode(p));
    OnIsNear(g, p);
    assert Red((P, 1)) == IDENT;
  }

  lemma ScalarOctets(s: nat)
    requires s < L
    ensures FromLittle(ToLittle(s, 32)) == s
  {
    hide FromLittle, ToLittle, Pow256;
    OrderFits();
    LittleRoundTrip(s, 32);
  }

  /** With the signed identity as R the equation is [S]B = [k]A: under the key [t]B it holds for S = kt mod L. */
  lemma NonceDiffers(g: Curve, t: nat, d: Digest)
    requires CurveLaws(g) && t % L != 0
    ensures var a := Encode(Mul(g, t, g.base));
            var sig := SIGNED_ONE + ToLittle(Challenge(g, SIGNED_ONE, a, d) * t % L, 32);
            Verify(g, a, sig, d) && !Conforms(g, a, sig, d)
  {
    hide FromLittle, Decode, Conforms, Mul, GroupLaws, BaseOrder, RootLaws, Challenge, Encode, ToLittle;
    var pa := Mul(g, t, g.base);
    var a := Encode(pa);
    var k := Challenge(g, SIGNED_ONE, a, d);
    var s := k * t % L;
    var sig := SIGNED_ONE + ToLittle(s, 32);
    assert |SIGNED_ONE| == 32 && sig[..32] == SIGNED_ONE && sig[32..] == ToLittle(s, 32);
    MultipleAdmitted(g, t);
    ScalarOctets(s);
    AdmitsAlike(g, SIGNED_ONE);
    SignedNonceEquation(g, k, t);
    VerifyAgainstProfile(g, a, sig, d);
  }

  lemma SignedNonceEquation(g: Curve, k: nat, t: nat)
    requires GroupLaws(g) && BaseOrder(g)
    ensures Mul(g, k * t % L, g.base) == g.add((P, 1), Mul(g, k, Mul(g, t, g.base)))
  {
    hide Mul, GroupLaws, BaseOrder;
    BaseOn(g);
    BaseKilled(g);
    MulModL(g, k * t, g.base);
    MulMul(g, k, t, k * t, g.base);
    MulOn(g, k * t, g.base);
    OnIsNear(g, Mul(g, k * t, g.base));
    IdentityAtP(g, k, Mul(g, k * t, g.base));
  }

  lemma BothDiffer(g: Curve, d: Digest)
    requires CurveLaws(g)
    ensures var sig := SIGNED_ONE + ToLittle(0, 32); Verify(g, SIGNED_ONE, sig, d) && !Conforms(g, SIGNED_ONE, sig, d)
  {
    hide FromLittle, Decode, Conforms, Mul, GroupLaws, BaseOrder, RootLaws, Challenge, ToLittle;
    var sig := SIGNED_ONE + ToLittle(0, 32);
    assert |SIGNED_ONE| == 32 && sig[..32] == SIGNED_ONE && sig[32..] == ToLittle(0, 32);
    ScalarOctets(0);
    AdmitsAlike(g, SIGNED_ONE);
    GroundIdent(g);
    IdentityAtP(g, Challenge(g, SIGNED_ONE, SIGNED_ONE, d), IDENT);
    MulZero(g, g.base);
    assert Red(IDENT) == IDENT;
    VerifyAgainstProfile(g, SIGNED_ONE, sig, d);
  }

  /** The encoding of a non-zero multiple of the base point, as honest keys and nonces are. */
  ghost predicate Multiple(g: Curve, b: seq<Byte>) { exists n: nat :: n % L != 0 && b == Encode(Mul(g, n, g.base)) }

  ghost predicate Agree(g: Curve, a: seq<Byte>, t: seq<Byte>, d: Digest) { Verify(g, a, t, d) == Conforms(g, a, t, d) }

  /** For a key and an R that are multiples of the base point or the signed identity: Python decides the profile
      for every S and every digest if and only if neither is the signed identity. */
  lemma ConformsIff(g: Curve, a: seq<Byte>, r: seq<Byte>)
    requires CurveLaws(g) && |a| == 32 && |r| == 32
    requires (a == SIGNED_ONE || Multiple(g, a)) && (r == SIGNED_ONE || Multiple(g, r))
    ensures (forall t, d :: |t| == 32 ==> Agree(g, a, r + t, d)) <==> a != SIGNED_ONE && r != SIGNED_ONE
  {
    hide FromLittle, Verify, Conforms, Mul, GroupLaws, BaseOrder, RootLaws, Challenge, ToLittle, Encode;
    var d: Digest := seq(32, i => 0);
    if a != SIGNED_ONE && r != SIGNED_ONE {
      forall t, d | |t| == 32 ensures Agree(g, a, r + t, d) {
        assert (r + t)[..32] == r;
        VerifyAgainstProfile(g, a, r + t, d);
      }
    } else if a == SIGNED_ONE && r == SIGNED_ONE {
      BothDiffer(g, d);
      assert !Agree(g, a, r + ToLittle(0, 32), d);
    } else if a == SIGNED_ONE {
      var n: nat :| n % L != 0 && r == Encode(Mul(g, n, g.base));
      SameResidue(g, n);
      KeyDiffers(g, n % L, d);
      assert !Agree(g, a, r + ToLittle(n % L, 32), d);
    } else {
      var n: nat :| n % L != 0 && a == Encode(Mul(g, n, g.base));
      NonceDiffers(g, n, d);
      assert !Agree(g, a, r + ToLittle(Challenge(g, SIGNED_ONE, a, d) * n % L, 32), d);
    }
  }

  lemma SameResidue(g: Curve, n: nat)
    requires GroupLaws(g) && BaseOrder(g)
    ensures Mul(g, n, g.base) == Mul(g, n % L, g.base)
  {
    hide Mul, GroupLaws, BaseOrder;
    BaseOn(g);
    BaseKilled(g);
    MulModL(g, n, g.base);
  }

  /** Signatures made by sign conform to the profile, unless the nonce scalar is zero modulo L. */
  lemma SignConforms(g: Curve, sk: seq<Byte>, d: Digest)
    requires CurveLaws(g) && |sk| == 32
    ensures Sign(g, sk, d).Some?
    ensures Conforms(g, PublicKey(g, sk), Sign(g, sk, d).value, d) <==> NonceScalar(g, sk, d) != 0
  {
    hide FromLittle, Verify, Conforms, Mul, GroupLaws, BaseOrder, RootLaws, Challenge, ToLittle, Encode, SecretScalar,
         NonceScalar;
    SignVerifies(g, sk, d);
    var sig, r := Sign(g, sk, d).value, NonceScalar(g, sk, d);
    ResidueSmall(g, sk, d);
    SecretNotMultiple(g, sk);
    MultipleAdmitted(g, SecretScalar(g, sk));
    VerifyAgainstProfile(g, PublicKey(g, sk), sig, d);
    if r != 0 {
      MultipleAdmitted(g, r);
      assert sig[..32] == Encode(Mul(g, r, g.base));
    }
  }
}
