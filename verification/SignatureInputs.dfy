/** What signing and verifying hash, and section 8A said about points instead of octets. */
module SignatureInputs {
  import opened Values
  import opened Bytes
  import opened Ed25519
  import opened Conformance
  import Utf8

  // ---------------------------------------------------------------- constants and octets

  /** P is 2^255 - 19 and L is 2^252 + 27742317777372353535851937790883648493. */
  lemma Primes()
    ensures P + 19 == TWO_255 && 2 * TWO_254 == TWO_255
    ensures 4 * (L - 27742317777372353535851937790883648493) == TWO_254
  {
  }

  /** The first octet counts least. */
  lemma {:induction false} LittleIsReversed(b: seq<Byte>)
    ensures FromLittle(b) == BigEndianInt(Reversed(b))
  {
    if b != [] {
      LittleIsReversed(b[1..]);
      var r := Reversed(b);
      assert r[..|r| - 1] == Reversed(b[1..]) && r[|r| - 1] == b[0];
    }
  }

  function Reversed(b: seq<Byte>): seq<Byte> { if b == [] then [] else Reversed(b[1..]) + [b[0]] }

  /** "SPP/1/assertion", a zero octet, and the digest. */
  function Tagged(d: Digest): seq<Byte> { Utf8.Utf8("SPP/1/assertion") + [0] + d }

  lemma MessageIsTagged(d: Digest)
    ensures Message(d) == Tagged(d)
  {
    TagOctets();
  }

  lemma TagOctets()
    ensures Utf8.Utf8("SPP/1/assertion") + [0] == PREFIX
  {
    hide Utf8.Utf8, Utf8.Octets;
    var s: string := "SPP/1/assertion";
    assert |s| == 15;
    AsciiOctets(s);
    var o := Utf8.Utf8(s);
    assert o + [0] ==
           [o[0], o[1], o[2], o[3], o[4], o[5], o[6], o[7], o[8], o[9], o[10], o[11], o[12], o[13], o[14], 0];
  }

  lemma {:induction false} AsciiOctets(s: string)
    requires forall i :: 0 <= i < |s| ==> s[i] as int < 128
    ensures |Utf8.Utf8(s)| == |s| && forall i :: 0 <= i < |s| ==> Utf8.Utf8(s)[i] == s[i] as int
  {
    if s != "" {
      AsciiOctets(s[1..]);
      assert Utf8.Octets(s[0]) == [s[0] as int];
    }
  }

  // ---------------------------------------------------------------- clamping

  /** RFC 8032, section 5.1.5: three low bits of the first octet cleared, the highest bit of the last cleared and the
      second highest set. */
  function ClampedOctets(b: seq<Byte>): seq<Byte>
    requires |b| == 32
  {
    [b[0] / 8 * 8] + b[1..31] + [b[31] % 64 + 64]
  }

  lemma ClampIsOctets(b: seq<Byte>)
    requires |b| == 32
    ensures Clamp(FromLittle(b)) == FromLittle(ClampedOctets(b))
  {
    hide FromLittle, Pow256;
    var m := FromLittle(b[1..31]);
    var t := Pow256(30);
    Power30();
    Ends(b, b[0], b[31]);
    Ends(ClampedOctets(b), b[0] / 8 * 8, b[31] % 64 + 64);
    FromLittleBound(b[1..31]);
    ClampSum(b[0], m, t, b[31]);
  }

  lemma Ends(b: seq<Byte>, first: Byte, last: Byte)
    requires |b| == 32 && b[0] == first && b[31] == last
    ensures FromLittle(b) == first + 256 * (FromLittle(b[1..31]) + Pow256(30) * last)
  {
    hide Pow256;
    assert b[1..] == b[1..31] + [last];
    FromLittleAppend(b[1..31], last);
  }

  lemma Power30()
    ensures Pow256(30) * 16384 == TWO_254
  {
    HighOctet();
    assert Pow256(31) == 256 * Pow256(30);
  }

  lemma ClampSum(first: nat, m: nat, t: nat, last: nat)
    requires first < 256 && last < 256 && m < t && t * 16384 == TWO_254
    ensures Clamp(first + 256 * (m + t * last)) == first / 8 * 8 + 256 * (m + t * (last % 64 + 64))
  {
    var q, r := last / 64, last % 64;
    var low := first + 256 * (m + t * r);
    LowRange(first, m, t, r);
    Spread(first, m, t, q, r);
    Remainder(q, low);
    Spread(first / 8 * 8, m, t, 1, r);
    DropBits(first, m + t * r);
  }

  lemma Spread(first: nat, m: nat, t: nat, q: nat, r: nat)
    ensures first + 256 * (m + t * (64 * q + r)) == t * 16384 * q + (first + 256 * (m + t * r))
  {
    assert t * (64 * q + r) == t * 64 * q + t * r;
  }

  lemma Remainder(q: nat, low: nat)
    requires low < TWO_254
    ensures (TWO_254 * q + low) % TWO_254 == low
  {
  }

  lemma DropBits(first: nat, high: nat)
    ensures (first + 256 * high) / 8 * 8 == first / 8 * 8 + 256 * high
  {
  }

  lemma LowRange(first: nat, m: nat, t: nat, r: nat)
    requires first < 256 && m < t && r < 64
    ensures first + 256 * (m + t * r) < t * 16384
  {
    assert t * r <= t * 63;
  }

  // ---------------------------------------------------------------- section 8A on points

  /** The conditions of section 8A on the points A and R. */
  predicate Meets8A(g: Curve, a: seq<Byte>, sig: seq<Byte>, d: Digest, pa: Point, pr: Point)
    requires |sig| == 64
  {
    var s := FromLittle(sig[32..]);
    var k := FromLittle(g.sha512(sig[..32] + a + Tagged(d))) % L;
    && g.on(pa) && Encode(pa) == a && pa != IDENT && Mul(g, L, pa) == IDENT
    && g.on(pr) && Encode(pr) == sig[..32] && pr != IDENT && Mul(g, L, pr) == IDENT
    && s < L && Mul(g, s, g.base) == g.add(pr, Mul(g, k, pa))
  }

  /** The profile accepts exactly when the key and R are the encodings of curve points with those properties. */
  lemma ConformsMeans(g: Curve, a: seq<Byte>, sig: seq<Byte>, d: Digest)
    requires RootLaws(g)
    ensures Conforms(g, a, sig, d) <==>
            |a| == 32 && |sig| == 64 && exists pa, pr :: Meets8A(g, a, sig, d, pa, pr)
  {
    hide RootLaws, StrictDecode, FromLittle, Mul, Encode, Tagged, Message;
    MessageIsTagged(d);
    if Conforms(g, a, sig, d) {
      var pa, pr := StrictDecode(g, a).value, StrictDecode(g, sig[..32]).value;
      StrictDecodeIff(g, a, pa);
      StrictDecodeIff(g, sig[..32], pr);
      SameHashed(sig[..32], a, d);
      assert Meets8A(g, a, sig, d, pa, pr);
    }
    if |a| == 32 && |sig| == 64 && exists pa, pr :: Meets8A(g, a, sig, d, pa, pr) {
      var pa, pr :| Meets8A(g, a, sig, d, pa, pr);
      StrictDecodeIff(g, a, pa);
      StrictDecodeIff(g, sig[..32], pr);
      SameHashed(sig[..32], a, d);
    }
  }

  lemma SameHashed(r: seq<Byte>, a: seq<Byte>, d: Digest)
    ensures r + a + Message(d) == r + a + Tagged(d)
  {
    MessageIsTagged(d);
  }

  // ---------------------------------------------------------------- hash inputs

  /** The same curve with another SHA-512. */
  ghost predicate SameCurve(g: Curve, h: Curve) { h == g.(sha512 := h.sha512) }

  lemma {:induction false} MulSame(g: Curve, h: Curve, n: nat, p: Point)
    requires SameCurve(g, h)
    ensures Mul(g, n, p) == Mul(h, n, p)
  {
    if n > 0 { MulSame(g, h, n - 1, p); }
  }

  lemma CheckedSame(g: Curve, h: Curve, da: Option<Point>, dr: Option<Point>, a: seq<Byte>, r: seq<Byte>, s: nat,
      d: Digest)
    requires SameCurve(g, h) && g.sha512(r + a + Tagged(d)) == h.sha512(r + a + Tagged(d))
    ensures Checked(g, da, dr, a, r, s, d) == Checked(h, da, dr, a, r, s, d)
  {
    hide Mul, FromLittle, Tagged, Message;
    SameHashed(r, a, d);
    var k := Challenge(g, r, a, d);
    if da.Some? && dr.Some? {
      MulSame(g, h, L, da.value);
      MulSame(g, h, L, dr.value);
      MulSame(g, h, s, g.base);
      MulSame(g, h, k, da.value);
    }
  }

  lemma DecodesSame(g: Curve, h: Curve, b: seq<Byte>)
    requires SameCurve(g, h)
    ensures Decode(g, b) == Decode(h, b) && StrictDecode(g, b) == StrictDecode(h, b) && GoDecode(g, b) == GoDecode(h, b)
  {
    hide FromLittle, Encode;
  }

  /** Every verification reads SHA-512 at R, A, the tag and the digest, in that order, and nowhere else. */
  lemma VerifyReads(g: Curve, h: Curve, a: seq<Byte>, sig: seq<Byte>, d: Digest)
    requires SameCurve(g, h)
    requires |sig| == 64 ==> g.sha512(sig[..32] + a + Tagged(d)) == h.sha512(sig[..32] + a + Tagged(d))
    ensures Verify(g, a, sig, d) == Verify(h, a, sig, d)
    ensures Conforms(g, a, sig, d) == Conforms(h, a, sig, d)
    ensures GoSignature(g, a, sig, d) == GoSignature(h, a, sig, d)
  {
    hide Checked, Decode, StrictDecode, GoDecode, FromLittle, Tagged;
    if |a| == 32 && |sig| == 64 {
      var r, s := sig[..32], FromLittle(sig[32..]);
      DecodesSame(g, h, a);
      DecodesSame(g, h, r);
      CheckedSame(g, h, Decode(g, a), Decode(g, r), a, r, s, d);
      CheckedSame(g, h, StrictDecode(g, a), StrictDecode(g, r), a, r, s, d);
      CheckedSame(g, h, GoDecode(g, a), GoDecode(g, r), a, r, s, d);
    }
  }

  /** The public key reads the first half of the hash of the private key. */
  lemma PublicKeyReads(g: Curve, h: Curve, sk: seq<Byte>)
    requires SameCurve(g, h) && g.sha512(sk)[..32] == h.sha512(sk)[..32]
    ensures PublicKey(g, sk) == PublicKey(h, sk)
  {
    hide Mul, FromLittle, Encode;
    MulSame(g, h, SecretScalar(g, sk), g.base);
  }

  /** The nonce scalar reads the second half, and the hash of that half, the tag and the digest. */
  lemma NonceReads(g: Curve, h: Curve, sk: seq<Byte>, d: Digest)
    requires g.sha512(sk)[32..] == h.sha512(sk)[32..]
    requires var m := g.sha512(sk)[32..] + Tagged(d); g.sha512(m) == h.sha512(m)
    ensures NonceScalar(g, sk, d) == NonceScalar(h, sk, d)
  {
    hide FromLittle, Tagged, Message;
    MessageIsTagged(d);
  }

  /** A signature reads the hash of the key, the hash for the nonce, and the hash of R, A, the tag and the digest. */
  lemma SignReads(g: Curve, h: Curve, sk: seq<Byte>, d: Digest)
    requires SameCurve(g, h) && g.sha512(sk) == h.sha512(sk)
    requires var m := g.sha512(sk)[32..] + Tagged(d); g.sha512(m) == h.sha512(m)
    requires var m := Encode(Mul(g, NonceScalar(g, sk, d), g.base)) + PublicKey(g, sk) + Tagged(d);
             g.sha512(m) == h.sha512(m)
    ensures Sign(g, sk, d) == Sign(h, sk, d)
  {
    hide Mul, FromLittle, Encode, Tagged, Message, ToLittle, NonceScalar;
    PublicKeyReads(g, h, sk);
    NonceReads(g, h, sk, d);
    MulSame(g, h, NonceScalar(g, sk, d), g.base);
    MulSame(g, h, SecretScalar(g, sk), g.base);
    SameHashed(Encode(Mul(g, NonceScalar(g, sk, d), g.base)), PublicKey(g, sk), d);
  }
}
