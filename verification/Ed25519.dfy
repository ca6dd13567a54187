/** SPP-Ed25519-1 over the group of curve points: scalar multiplication, signing, verification. */
module Ed25519 {
  import opened Values
  import opened Bytes

  /** Affine coordinates, as the implementation holds them. */
  type Point = (nat, nat)

  const IDENT: Point := (0, 1)

  type Hash64 = h: seq<Byte> | |h| == 64 witness seq(64, i => 0)

  const P: nat := 0x7FFFFFFFFFFFFFFFFFFFFFFFFFFFFFFFFFFFFFFFFFFFFFFFFFFFFFFFFFFFFFED

  /** What recovering x gives: an even reduced number. */
  type Root = x: nat | x < P && x % 2 == 0 witness 0

  /** The parts taken as given: which reduced pairs are curve points, point addition, the base point, the even
      square root that recovers x from y, and SHA-512. `neg` only witnesses that inverses exist. */
  datatype Curve = Curve(
    on: Point -> bool, add: (Point, Point) -> Point, neg: Point -> Point, base: Point,
    recover: nat -> Option<Root>, sha512: seq<Byte> -> Hash64)

  const TWO_254: nat := 0x4000000000000000000000000000000000000000000000000000000000000000
  const L: nat := 0x1000000000000000000000000000000014DEF9DEA2F79CD65812631A5CF5D3ED

  function Red(p: Point): Point { (p.0 % P, p.1 % P) }

  // The laws of addition, one instance each.

  predicate Adds(g: Curve, p: Point, q: Point) {
    && (g.on(p) && g.on(q) ==> g.on(g.add(p, q)) && g.add(p, q) == g.add(q, p))
    && g.add(p, q) == g.add(Red(p), Red(q))
  }

  predicate Associates(g: Curve, p: Point, q: Point, r: Point) {
    g.on(p) && g.on(q) && g.on(r) ==> g.add(g.add(p, q), r) == g.add(p, g.add(q, r))
  }

  predicate HasInverse(g: Curve, p: Point) {
    g.on(p) ==> Red(p) == p && g.add(p, IDENT) == p && g.on(g.neg(p)) && g.add(p, g.neg(p)) == IDENT
  }

  /** Curve points, in reduced coordinates, form a commutative group, and addition reads coordinates modulo P. */
  ghost predicate GroupLaws(g: Curve) {
    && g.on(IDENT) && g.on(g.base)
    && (forall p, q :: Adds(g, p, q))
    && (forall p, q, r :: Associates(g, p, q, r))
    && (forall p :: HasInverse(g, p))
  }

  /** n-fold addition. */
  function Mul(g: Curve, n: nat, p: Point): Point {
    if n == 0 then IDENT else g.add(p, Mul(g, n - 1, p))
  }

  predicate KillsBase(g: Curve, n: nat) { Mul(g, n, g.base) == IDENT <==> n % L == 0 }

  /** The base point has order L. */
  ghost predicate BaseOrder(g: Curve) { forall n: nat :: KillsBase(g, n) }

  /** The square root, with either sign, gives a curve point; it is zero for y = 1 and y = -1 only. */
  predicate RootOk(g: Curve, y: nat) {
    match g.recover(y)
    case None => true
    case Some(x) =>
      && (y < P ==> g.on((x, y)) && (x > 0 ==> g.on((P - x, y))))
      && (y < P && x == 0 ==> y == 1 || y == P - 1)
  }

  predicate PointRecovers(g: Curve, p: Point) {
    g.on(p) ==> p.0 < P && p.1 < P && g.recover(p.1) == Some(if p.0 % 2 == 0 then p.0 else P - p.0)
  }

  const MINUS_ONE: Point := (0, P - 1)

  /** What is taken as given about recovering x, and that the point (0, -1) has order two. */
  ghost predicate RootLaws(g: Curve) {
    && (forall y: nat :: RootOk(g, y)) && (forall p :: PointRecovers(g, p))
    && g.on(MINUS_ONE) && g.add(MINUS_ONE, MINUS_ONE) == IDENT
  }

  ghost predicate CurveLaws(g: Curve) { GroupLaws(g) && BaseOrder(g) && RootLaws(g) }

  // ---------------------------------------------------------------- multiples

  lemma AddLaws(g: Curve, p: Point, q: Point, r: Point)
    requires GroupLaws(g) && g.on(p) && g.on(q) && g.on(r)
    ensures g.on(g.add(p, q)) && g.add(p, q) == g.add(q, p)
    ensures g.add(g.add(p, q), r) == g.add(p, g.add(q, r))
    ensures g.add(p, IDENT) == p && g.add(IDENT, p) == p && g.on(IDENT)
  {
    assert Adds(g, p, q) && Adds(g, p, IDENT) && Associates(g, p, q, r) && HasInverse(g, p);
  }

  lemma {:induction false} MulOn(g: Curve, n: nat, p: Point)
    requires GroupLaws(g) && g.on(p)
    ensures g.on(Mul(g, n, p))
  {
    hide GroupLaws;
    if n > 0 { MulOn(g, n - 1, p); AddLaws(g, p, Mul(g, n - 1, p), p); } else { AddLaws(g, p, p, p); }
  }

  lemma {:induction false} MulAdd(g: Curve, a: nat, b: nat, p: Point)
    requires GroupLaws(g) && g.on(p)
    ensures Mul(g, a + b, p) == g.add(Mul(g, a, p), Mul(g, b, p))
  {
    hide GroupLaws;
    MulOn(g, b, p);
    AddLaws(g, Mul(g, b, p), p, p);
    if a > 0 {
      MulAdd(g, a - 1, b, p);
      MulOn(g, a - 1, p);
      AddLaws(g, p, Mul(g, a - 1, p), Mul(g, b, p));
    }
  }

  lemma {:induction false} MulMul(g: Curve, a: nat, b: nat, c: nat, p: Point)
    requires GroupLaws(g) && g.on(p) && c == a * b
    ensures Mul(g, c, p) == Mul(g, a, Mul(g, b, p))
  {
    hide GroupLaws, Mul;
    MulOn(g, b, p);
    if a == 0 {
      MulZero(g, p);
      MulZero(g, Mul(g, b, p));
    } else {
      OneMore(a, b);
      MulMul(g, a - 1, b, c - b, p);
      MulAdd(g, b, c - b, p);
      MulSucc(g, a, Mul(g, b, p));
    }
  }

  lemma OneMore(a: nat, b: nat)
    requires a > 0
    ensures a * b == b + (a - 1) * b && (a - 1) * b >= 0
  {
  }

  lemma MulSucc(g: Curve, n: nat, p: Point)
    requires n > 0
    ensures Mul(g, n, p) == g.add(p, Mul(g, n - 1, p))
  {
  }

  lemma {:induction false} MulOfSum(g: Curve, n: nat, p: Point, q: Point)
    requires GroupLaws(g) && g.on(p) && g.on(q)
    ensures Mul(g, n, g.add(p, q)) == g.add(Mul(g, n, p), Mul(g, n, q))
  {
    hide GroupLaws;
    if n == 0 {
      AddLaws(g, p, q, p);
      IdentIdent(g);
    } else {
      MulOfSum(g, n - 1, p, q);
      MulOn(g, n - 1, p);
      MulOn(g, n - 1, q);
      Exchange(g, p, q, Mul(g, n - 1, p), Mul(g, n - 1, q));
    }
  }

  lemma IdentIdent(g: Curve)
    requires GroupLaws(g)
    ensures g.add(IDENT, IDENT) == IDENT && g.on(IDENT)
  {
    assert HasInverse(g, IDENT);
  }

  lemma Exchange(g: Curve, p: Point, q: Point, r: Point, s: Point)
    requires GroupLaws(g) && g.on(p) && g.on(q) && g.on(r) && g.on(s)
    ensures g.add(g.add(p, q), g.add(r, s)) == g.add(g.add(p, r), g.add(q, s))
  {
    hide GroupLaws;
    AddLaws(g, p, q, r);
    AddLaws(g, r, s, p);
    AddLaws(g, q, r, s);
    AddLaws(g, r, q, s);
    AddLaws(g, q, s, p);
    AddLaws(g, p, q, g.add(r, s));
    AddLaws(g, p, r, g.add(q, s));
  }

  /** Adding the same point cannot be undone by anything else. */
  lemma Cancel(g: Curve, p: Point, q: Point, r: Point)
    requires GroupLaws(g) && g.on(p) && g.on(q) && g.on(r) && g.add(p, r) == g.add(q, r)
    ensures p == q
  {
    assert HasInverse(g, p) && HasInverse(g, q) && HasInverse(g, r);
    assert Associates(g, p, r, g.neg(r)) && Associates(g, q, r, g.neg(r));
  }

  /** A point in coordinates that need not be reduced. */
  predicate Near(g: Curve, p: Point) { g.on(Red(p)) }

  lemma NearLaws(g: Curve, p: Point, q: Point)
    requires GroupLaws(g) && Near(g, p) && Near(g, q)
    ensures g.add(p, q) == g.add(Red(p), Red(q)) && g.on(g.add(p, q)) && Red(g.add(p, q)) == g.add(p, q)
    ensures Red(Red(p)) == Red(p)
  {
    assert Adds(g, p, q) && Adds(g, Red(p), Red(q)) && HasInverse(g, g.add(p, q));
  }

  lemma OnIsNear(g: Curve, p: Point)
    requires GroupLaws(g) && g.on(p)
    ensures Near(g, p) && Red(p) == p
  {
    assert HasInverse(g, p);
  }

  /** Multiples do not depend on the coordinates a point is held in. */
  lemma {:induction false} MulRed(g: Curve, n: nat, p: Point)
    requires GroupLaws(g) && Near(g, p)
    ensures Mul(g, n, p) == Mul(g, n, Red(p))
  {
    hide GroupLaws, Red;
    if n > 0 {
      MulRed(g, n - 1, p);
      MulOn(g, n - 1, Red(p));
      var m := Mul(g, n - 1, Red(p));
      OnIsNear(g, m);
      OnIsNear(g, Red(p));
      NearLaws(g, p, m);
      NearLaws(g, Red(p), m);
    }
  }

  /** The double-and-add loop computes n-fold addition. */
  method PointMul(g: Curve, s0: nat, pt: Point) returns (r: Point)
    requires GroupLaws(g) && Near(g, pt)
    ensures r == Mul(g, s0, pt)
  {
    hide GroupLaws, Mul, Red;
    r := IDENT;
    var q, s := pt, s0;
    MulRed(g, s0, pt);
    MulOn(g, s0, Red(pt));
    AddLaws(g, Mul(g, s0, Red(pt)), Red(pt), Red(pt));
    while s != 0
      invariant g.on(r) && Near(g, q) && g.add(r, Mul(g, s, Red(q))) == Mul(g, s0, pt)
      decreases s
    {
      var t := Red(q);
      Halve(g, s, t);
      ghost var h := Mul(g, s / 2, g.add(t, t));
      AddLaws(g, t, t, t);
      MulOn(g, s / 2, g.add(t, t));
      AddLaws(g, r, t, h);
      NearLaws(g, q, q);
      OnIsNear(g, r);
      NearLaws(g, r, q);
      if s % 2 == 1 {
        r := g.add(r, q);
      }
      q := g.add(q, q);
      OnIsNear(g, q);
      s := s / 2;
    }
    MulZero(g, Red(q));
    AddLaws(g, r, r, r);
  }

  lemma MulZero(g: Curve, p: Point)
    ensures Mul(g, 0, p) == IDENT
  {
  }

  lemma Halve(g: Curve, s: nat, q: Point)
    requires GroupLaws(g) && g.on(q)
    ensures var h := Mul(g, s / 2, g.add(q, q));
            Mul(g, s, q) == if s % 2 == 1 then g.add(q, h) else h
  {
    hide GroupLaws;
    MulOfSum(g, s / 2, q, q);
    MulAdd(g, s / 2, s / 2, q);
    assert s % 2 == 1 ==> s == 1 + (s / 2 + s / 2);
  }

  // ---------------------------------------------------------------- scalars

  /** Clear the low three bits and everything from bit 254 up, then set bit 254. */
  function Clamp(s: nat): nat { (s % TWO_254) / 8 * 8 + TWO_254 }

  /** A clamped scalar is never a multiple of the group order. */
  lemma ClampedNotMultiple(s: nat)
    ensures Clamp(s) % L != 0
  {
    var t := Clamp(s);
    assert t % 8 == 0 && TWO_254 <= t < 2 * TWO_254 by { ClampRange(s); }
    var m, r := t / L, t % L;
    assert t == m * L + r && 0 <= r < L by { DivideBy(t, L); }
    if r == 0 {
      SmallFactor(t, m);
      OddOrder(m);
    }
  }

  lemma ClampRange(s: nat)
    ensures Clamp(s) % 8 == 0 && TWO_254 <= Clamp(s) < 2 * TWO_254
  {
  }

  lemma DivideBy(t: nat, n: nat)
    requires n > 0
    ensures t == (t / n) * n + t % n && 0 <= t % n < n
  {
  }

  lemma SmallFactor(t: nat, m: nat)
    requires t == m * L && TWO_254 <= t < 2 * TWO_254
    ensures 1 <= m < 8
  {
    if m >= 8 { AtLeastEight(m); }
  }

  lemma AtLeastEight(m: nat)
    requires m >= 8
    ensures m * L >= 8 * L
  {
  }

  lemma OddOrder(m: nat)
    requires 1 <= m < 8
    ensures (m * L) % 8 != 0
  {
    assert m == 1 || m == 2 || m == 3 || m == 4 || m == 5 || m == 6 || m == 7;
  }

  /** Scalars act through their residue modulo L on points killed by L. */
  lemma MulModL(g: Curve, n: nat, p: Point)
    requires GroupLaws(g) && g.on(p) && Mul(g, L, p) == IDENT
    ensures Mul(g, n, p) == Mul(g, n % L, p)
  {
    hide GroupLaws, Mul;
    var q, r := n / L, n % L;
    DivideBy(n, L);
    MulAdd(g, q * L, r, p);
    MulMul(g, q, L, q * L, p);
    MulIdent(g, q);
    MulOn(g, r, p);
    AddLaws(g, Mul(g, r, p), p, p);
  }

  lemma {:induction false} MulIdent(g: Curve, n: nat)
    requires GroupLaws(g)
    ensures Mul(g, n, IDENT) == IDENT
  {
    hide GroupLaws;
    IdentIdent(g);
    if n > 0 { MulIdent(g, n - 1); }
  }

  // ---------------------------------------------------------------- exact and cofactored equations

  /** On points killed by L, multiplying by 8 loses nothing: 8 is invertible modulo L. */
  lemma EightIsInvertible(g: Curve, p: Point)
    requires GroupLaws(g) && g.on(p) && Mul(g, L, p) == IDENT && Mul(g, 8, p) == IDENT
    ensures p == IDENT
  {
    hide GroupLaws, Mul;
    var a: nat := (3 * L + 1) / 8;
    assert 8 * a == 3 * L + 1;
    MulMul(g, a, 8, a * 8, p);
    MulIdent(g, a);
    MulAdd(g, 3 * L, 1, p);
    MulMul(g, 3, L, 3 * L, p);
    MulIdent(g, 3);
    assert a * 8 == 3 * L + 1;
    MulOne(g, p);
    AddLaws(g, p, p, p);
  }

  lemma MulOne(g: Curve, p: Point)
    requires GroupLaws(g) && g.on(p)
    ensures Mul(g, 1, p) == p
  {
    assert Mul(g, 0, p) == IDENT && HasInverse(g, p);
  }

  /** For points of the order-L subgroup, the exact equation and the equation multiplied by 8 agree. */
  lemma CofactorAgrees(g: Curve, x: Point, y: Point)
    requires GroupLaws(g) && g.on(x) && g.on(y) && Mul(g, L, x) == IDENT && Mul(g, L, y) == IDENT
    ensures x == y <==> Mul(g, 8, x) == Mul(g, 8, y)
  {
    hide GroupLaws, Mul;
    if Mul(g, 8, x) == Mul(g, 8, y) {
      NegLaws(g, y);
      var z := g.neg(y);
      var d := g.add(x, z);
      AddLaws(g, x, z, x);
      KillsNeg(g, L, y);
      MulOfSum(g, L, x, z);
      IdentIdent(g);
      MulOfSum(g, 8, x, z);
      MulOfSum(g, 8, y, z);
      MulIdent(g, 8);
      EightIsInvertible(g, d);
      Cancel(g, x, y, z);
    }
  }

  lemma NegLaws(g: Curve, p: Point)
    requires GroupLaws(g) && g.on(p)
    ensures g.on(g.neg(p)) && g.add(p, g.neg(p)) == IDENT
  {
    assert HasInverse(g, p);
  }

  lemma KillsNeg(g: Curve, n: nat, p: Point)
    requires GroupLaws(g) && g.on(p) && Mul(g, n, p) == IDENT
    ensures g.on(g.neg(p)) && Mul(g, n, g.neg(p)) == IDENT
  {
    hide GroupLaws, Mul;
    NegLaws(g, p);
    MulOfSum(g, n, p, g.neg(p));
    MulIdent(g, n);
    MulOn(g, n, g.neg(p));
    AddLaws(g, Mul(g, n, g.neg(p)), p, p);
  }

  // ---------------------------------------------------------------- octets of a scalar

  function Pow256(k: nat): nat { if k == 0 then 1 else 256 * Pow256(k - 1) }

  function ToLittle(n: nat, k: nat): (b: seq<Byte>)
    ensures |b| == k
  {
    if k == 0 then [] else [n % 256] + ToLittle(n / 256, k - 1)
  }

  function FromLittle(b: seq<Byte>): nat { if b == [] then 0 else b[0] + 256 * FromLittle(b[1..]) }

  lemma {:induction false} LittleRoundTrip(n: nat, k: nat)
    requires n < Pow256(k)
    ensures FromLittle(ToLittle(n, k)) == n
  {
    if k > 0 {
      LittleRoundTrip(n / 256, k - 1);
      assert ToLittle(n, k)[1..] == ToLittle(n / 256, k - 1);
    }
  }

  lemma {:induction false} LittleInjective(a: seq<Byte>, b: seq<Byte>)
    requires |a| == |b| && FromLittle(a) == FromLittle(b)
    ensures a == b
  {
    if a != [] {
      LittleInjective(a[1..], b[1..]);
      assert a == [a[0]] + a[1..] && b == [b[0]] + b[1..];
    }
  }

  lemma {:induction false} FromLittleAppend(a: seq<Byte>, c: Byte)
    ensures FromLittle(a + [c]) == FromLittle(a) + Pow256(|a|) * c
  {
    if a == [] {
      assert a + [c] == [c] && [c][1..] == [];
    } else {
      assert (a + [c])[1..] == a[1..] + [c];
      FromLittleAppend(a[1..], c);
      Shift(FromLittle(a[1..]), Pow256(|a| - 1), c);
    }
  }

  lemma Shift(n: nat, p: nat, c: nat)
    ensures 256 * (n + p * c) == 256 * n + (256 * p) * c
  {
  }

  lemma {:induction false} FromLittleBound(b: seq<Byte>)
    ensures FromLittle(b) < Pow256(|b|)
  {
    if b != [] { FromLittleBound(b[1..]); }
  }

  const TWO_255: nat := 0x8000000000000000000000000000000000000000000000000000000000000000

  lemma {:induction false} HighOctet()
    ensures Pow256(32) == 2 * TWO_255 && Pow256(31) * 128 == TWO_255
  {
    assert Pow256(4) == 0x1_0000_0000;
    assert Pow256(8) == 0x1_0000_0000 * Pow256(4);
    assert Pow256(12) == 0x1_0000_0000 * Pow256(8);
    assert Pow256(16) == 0x1_0000_0000 * Pow256(12);
    assert Pow256(20) == 0x1_0000_0000 * Pow256(16);
    assert Pow256(24) == 0x1_0000_0000 * Pow256(20);
    assert Pow256(28) == 0x1_0000_0000 * Pow256(24);
    assert Pow256(32) == 0x1_0000_0000 * Pow256(28);
    assert Pow256(32) == 256 * Pow256(31);
  }

  lemma OrderFits()
    ensures L < Pow256(32)
  {
    hide Pow256;
    HighOctet();
  }

  // ---------------------------------------------------------------- octets of a point

  /** encode_point: y in little-endian octets, the parity of x in the top bit. */
  function Encode(p: Point): (b: seq<Byte>)
    ensures |b| == 32
  {
    var b := ToLittle(p.1, 32);
    if p.0 % 2 == 1 && b[31] < 128 then b[..31] + [b[31] + 128] else b
  }

  function YOf(b: seq<Byte>): nat { FromLittle(b) % TWO_255 }

  predicate SignOf(b: seq<Byte>) { FromLittle(b) / TWO_255 % 2 == 1 }

  /** decode_point, in the order of its checks. */
  function Decode(g: Curve, b: seq<Byte>): Option<Point> {
    if |b| != 32 then None
    else
      var y := YOf(b);
      if y >= P then None
      else
        match g.recover(y)
        case None => None
        case Some(x0) =>
          var x := if SignOf(b) then P - x0 else x0;
          if x == 0 && SignOf(b) then None
          else if Encode((x, y)) != b then None
          else Some((x, y))
  }

  lemma EncodeValue(p: Point)
    requires p.1 < TWO_255
    ensures FromLittle(Encode(p)) == p.1 + (if p.0 % 2 == 1 then TWO_255 else 0)
  {
    hide ToLittle, FromLittle, Pow256;
    HighOctet();
    LittleRoundTrip(p.1, 32);
    var b := ToLittle(p.1, 32);
    assert b == b[..31] + [b[31]];
    FromLittleAppend(b[..31], b[31]);
    TopSmall(FromLittle(b[..31]), Pow256(31), b[31]);
    if p.0 % 2 == 1 { FromLittleAppend(b[..31], b[31] + 128); }
  }

  lemma Grow(p: nat, a: nat, c: nat)
    requires a <= c
    ensures p * a <= p * c
  {
  }

  lemma TopSmall(low: nat, p: nat, c: nat)
    requires low + p * c < p * 128
    ensures c < 128
  {
    if c >= 128 { Grow(p, 128, c); }
  }

  /** What 32 octets are the encoding of. */
  lemma EncodesTo(p: Point, b: seq<Byte>)
    requires |b| == 32 && p.1 < TWO_255
    ensures Encode(p) == b <==> p.1 == YOf(b) && (p.0 % 2 == 1 <==> SignOf(b))
  {
    hide FromLittle, Encode, Pow256;
    EncodeValue(p);
    FromLittleBound(b);
    HighOctet();
    if p.1 == YOf(b) && (p.0 % 2 == 1 <==> SignOf(b)) { LittleInjective(Encode(p), b); }
  }

  /** The checks after the square root never fail: decoding is choosing the sign of the root. */
  lemma DecodeMeans(g: Curve, b: seq<Byte>)
    requires RootLaws(g) && |b| == 32
    ensures var y := YOf(b);
            Decode(g, b) ==
            if y >= P || g.recover(y) == None then None
            else Some((if SignOf(b) then P - g.recover(y).value else g.recover(y).value, y))
  {
    hide FromLittle, Encode;
    var y := YOf(b);
    assert RootOk(g, y);
    if y < P && g.recover(y).Some? {
      var x0 := g.recover(y).value;
      EncodesTo((if SignOf(b) then P - x0 else x0, y), b);
    }
  }

  /** decode_point computes x = P exactly when the sign bit is set and the root is zero. */
  lemma UnreducedIff(g: Curve, b: seq<Byte>)
    requires RootLaws(g) && |b| == 32
    ensures Decode(g, b).Some? && Decode(g, b).value.0 >= P <==> YOf(b) < P && SignOf(b) && g.recover(YOf(b)) == Some(0)
    ensures Decode(g, b).Some? && Decode(g, b).value.0 >= P ==> Decode(g, b).value.0 == P
    ensures Decode(g, b).Some? ==> g.on(Red(Decode(g, b).value))
  {
    hide FromLittle, Decode;
    DecodeMeans(g, b);
    assert RootOk(g, YOf(b));
    PointReduced(g, b);
  }

  lemma PointReduced(g: Curve, b: seq<Byte>)
    requires RootLaws(g)
    ensures var y := YOf(b);
            y < P && g.recover(y).Some? ==>
            g.on(Red((g.recover(y).value, y))) && g.on(Red((P - g.recover(y).value, y)))
  {
    hide FromLittle;
    var y := YOf(b);
    assert RootOk(g, y);
    if y < P && g.recover(y).Some? {
      var x0 := g.recover(y).value;
      assert Red((x0, y)) == (x0, y);
      assert Red((P - x0, y)) == (if x0 == 0 then (0, y) else (P - x0, y));
    }
  }

  /** Every curve point is decoded from its encoding. */
  lemma DecodeEncode(g: Curve, p: Point)
    requires RootLaws(g) && g.on(p)
    ensures Decode(g, Encode(p)) == Some(p)
  {
    hide FromLittle, Encode, Decode;
    assert PointRecovers(g, p);
    EncodesTo(p, Encode(p));
    DecodeMeans(g, Encode(p));
  }

  // ---------------------------------------------------------------- signing and verification

  /** ASCII("SPP/1/assertion") and a zero octet, then the digest. */
  const PREFIX: seq<Byte> := [83, 80, 80, 47, 49, 47, 97, 115, 115, 101, 114, 116, 105, 111, 110, 0]

  function Message(d: Digest): seq<Byte> { PREFIX + d }

  function SecretScalar(g: Curve, sk: seq<Byte>): nat { Clamp(FromLittle(g.sha512(sk)[..32])) }

  function PublicKey(g: Curve, sk: seq<Byte>): seq<Byte> { Encode(Mul(g, SecretScalar(g, sk), g.base)) }

  function NonceScalar(g: Curve, sk: seq<Byte>, d: Digest): nat {
    FromLittle(g.sha512(g.sha512(sk)[32..] + Message(d))) % L
  }

  function Challenge(g: Curve, r: seq<Byte>, a: seq<Byte>, d: Digest): nat {
    FromLittle(g.sha512(r + a + Message(d))) % L
  }

  /** sign: None is the refusal of a key that is not 32 octets. */
  function Sign(g: Curve, sk: seq<Byte>, d: Digest): Option<seq<Byte>> {
    if |sk| != 32 then None
    else
      var s := SecretScalar(g, sk);
      var a := Encode(Mul(g, s, g.base));
      var r := NonceScalar(g, sk, d);
      var rBytes := Encode(Mul(g, r, g.base));
      var k := Challenge(g, rBytes, a, d);
      Some(rBytes + ToLittle((r + k * s) % L, 32))
  }

  /** The checks on S and on the decoded points, and the equation. */
  function Checked(g: Curve, da: Option<Point>, dr: Option<Point>, a: seq<Byte>, rBytes: seq<Byte>, s: nat,
      d: Digest): bool {
    if s >= L then false
    else if da == None || dr == None then false
    else
      var pa, pr := da.value, dr.value;
      if pa == IDENT || pr == IDENT then false
      else if Mul(g, L, pa) != IDENT then false
      else if Mul(g, L, pr) != IDENT then false
      else Mul(g, s, g.base) == g.add(pr, Mul(g, Challenge(g, rBytes, a, d), pa))
  }

  /** verify_spp_ed25519_1. */
  function Verify(g: Curve, a: seq<Byte>, sig: seq<Byte>, d: Digest): bool {
    && |a| == 32 && |sig| == 64
    && Checked(g, Decode(g, a), Decode(g, sig[..32]), a, sig[..32], FromLittle(sig[32..]), d)
  }

  lemma BaseKilled(g: Curve)
    requires BaseOrder(g)
    ensures Mul(g, L, g.base) == IDENT
  {
    hide Mul;
    assert KillsBase(g, L) && L % L == 0;
  }

  /** Any multiple of the base point is killed by L. */
  lemma MultipleKilled(g: Curve, n: nat)
    requires GroupLaws(g) && BaseOrder(g)
    ensures g.on(Mul(g, n, g.base)) && Mul(g, L, Mul(g, n, g.base)) == IDENT
  {
    hide Mul, GroupLaws, BaseOrder;
    BaseOn(g);
    MulOn(g, n, g.base);
    MulMul(g, L, n, L * n, g.base);
    MulMul(g, n, L, L * n, g.base);
    BaseKilled(g);
    MulIdent(g, n);
  }

  lemma BaseOn(g: Curve)
    requires GroupLaws(g)
    ensures g.on(g.base)
  {
  }

  /** [r + k*s mod L]B is [r]B + [k]([s]B). */
  lemma SigningEquation(g: Curve, r: nat, k: nat, s: nat)
    requires GroupLaws(g) && BaseOrder(g)
    ensures Mul(g, (r + k * s) % L, g.base) == g.add(Mul(g, r, g.base), Mul(g, k, Mul(g, s, g.base)))
  {
    hide Mul, GroupLaws, BaseOrder;
    BaseOn(g);
    BaseKilled(g);
    MulModL(g, r + k * s, g.base);
    MulAdd(g, r, k * s, g.base);
    MulMul(g, k, s, k * s, g.base);
  }

  /** The two halves of a signature. */
  lemma SignedParts(g: Curve, sk: seq<Byte>, d: Digest)
    requires |sk| == 32
    ensures Sign(g, sk, d).Some? && |Sign(g, sk, d).value| == 64
    ensures var s, r := SecretScalar(g, sk), NonceScalar(g, sk, d);
            var sig, rBytes := Sign(g, sk, d).value, Encode(Mul(g, r, g.base));
            && sig[..32] == rBytes && |PublicKey(g, sk)| == 32
            && FromLittle(sig[32..]) == (r + Challenge(g, rBytes, PublicKey(g, sk), d) * s) % L
  {
    hide Mul, SecretScalar, NonceScalar, Challenge, FromLittle, ToLittle, Encode, Pow256;
    var s, r := SecretScalar(g, sk), NonceScalar(g, sk, d);
    var rBytes := Encode(Mul(g, r, g.base));
    var sOut := (r + Challenge(g, rBytes, PublicKey(g, sk), d) * s) % L;
    var sig := Sign(g, sk, d).value;
    assert sig[..32] == rBytes && sig[32..] == ToLittle(sOut, 32);
    OrderFits();
    LittleRoundTrip(sOut, 32);
  }

  /** A signature verifies under the signer's key exactly when its nonce scalar is not zero modulo L; with zero,
      R is the identity. */
  lemma SignVerifies(g: Curve, sk: seq<Byte>, d: Digest)
    requires CurveLaws(g) && |sk| == 32
    ensures Sign(g, sk, d).Some? && |Sign(g, sk, d).value| == 64
    ensures Verify(g, PublicKey(g, sk), Sign(g, sk, d).value, d) <==> NonceScalar(g, sk, d) != 0
  {
    hide Sign, Mul, GroupLaws, RootLaws, SecretScalar, NonceScalar, Challenge, FromLittle, ToLittle, Encode, Decode;
    var s, r := SecretScalar(g, sk), NonceScalar(g, sk, d);
    SignedParts(g, sk, d);
    SecretNotMultiple(g, sk);
    ResidueSmall(g, sk, d);
    assert r % L == r;
    assert KillsBase(g, r) && KillsBase(g, s);
    MultipleKilled(g, s);
    MultipleKilled(g, r);
    DecodeEncode(g, Mul(g, s, g.base));
    DecodeEncode(g, Mul(g, r, g.base));
    SigningEquation(g, r, Challenge(g, Encode(Mul(g, r, g.base)), PublicKey(g, sk), d), s);
  }

  lemma ResidueSmall(g: Curve, sk: seq<Byte>, d: Digest)
    ensures NonceScalar(g, sk, d) < L
  {
    hide FromLittle;
  }

  lemma SecretNotMultiple(g: Curve, sk: seq<Byte>)
    ensures SecretScalar(g, sk) % L != 0
  {
    ClampedNotMultiple(FromLittle(g.sha512(sk)[..32]));
  }

  /** For one key, digest and R there is at most one accepted S: signatures are not malleable in S. */
  lemma UniqueS(g: Curve, a: seq<Byte>, sig: seq<Byte>, sig': seq<Byte>, d: Digest)
    requires GroupLaws(g) && BaseOrder(g)
    requires Verify(g, a, sig, d) && Verify(g, a, sig', d) && sig[..32] == sig'[..32]
    ensures sig == sig'
  {
    hide Mul, GroupLaws, Challenge, FromLittle;
    var s, t := FromLittle(sig[32..]), FromLittle(sig'[32..]);
    if s <= t { SameScalar(g, s, t); } else { SameScalar(g, t, s); }
    LittleInjective(sig[32..], sig'[32..]);
    assert sig == sig[..32] + sig[32..] && sig' == sig'[..32] + sig'[32..];
  }

  lemma SameScalar(g: Curve, s: nat, t: nat)
    requires GroupLaws(g) && BaseOrder(g) && s <= t < L && Mul(g, s, g.base) == Mul(g, t, g.base)
    ensures s == t
  {
    hide Mul, GroupLaws;
    BaseOn(g);
    MulAdd(g, t - s, s, g.base);
    MulOn(g, s, g.base);
    MulOn(g, t - s, g.base);
    AddLaws(g, Mul(g, s, g.base), g.base, g.base);
    Cancel(g, Mul(g, t - s, g.base), IDENT, Mul(g, s, g.base));
    assert KillsBase(g, t - s) && (t - s) % L == t - s;
  }

  /** Verification may evaluate the exact equation or its multiple by 8, with k reduced modulo L or not:
      on the points it has already admitted all four agree. */
  lemma EquationForms(g: Curve, pa: Point, pr: Point, s: nat, k0: nat)
    requires GroupLaws(g) && BaseOrder(g) && g.on(pa) && g.on(pr)
    requires Mul(g, L, pa) == IDENT && Mul(g, L, pr) == IDENT
    ensures Mul(g, k0, pa) == Mul(g, k0 % L, pa)
    ensures var left, right := Mul(g, s, g.base), g.add(pr, Mul(g, k0, pa));
            left == right <==> Mul(g, 8, left) == Mul(g, 8, right)
  {
    hide Mul, GroupLaws, BaseOrder;
    MulModL(g, k0, pa);
    MultipleKilled(g, s);
    MulOn(g, k0, pa);
    MulMul(g, L, k0, L * k0, pa);
    MulMul(g, k0, L, L * k0, pa);
    MulIdent(g, k0);
    MulOfSum(g, L, pr, Mul(g, k0, pa));
    IdentIdent(g);
    AddLaws(g, pr, Mul(g, k0, pa), pr);
    CofactorAgrees(g, Mul(g, s, g.base), g.add(pr, Mul(g, k0, pa)));
  }

  lemma DecodedNear(g: Curve, b: seq<Byte>)
    requires RootLaws(g)
    ensures Decode(g, b).Some? ==> Near(g, Decode(g, b).value)
  {
    hide FromLittle, RootLaws, Red;
    if |b| == 32 { UnreducedIff(g, b); }
  }

  /** The verifier as it runs, with the double-and-add loop. */
  method VerifySignature(g: Curve, a: seq<Byte>, sig: seq<Byte>, d: Digest) returns (ok: bool)
    requires GroupLaws(g) && RootLaws(g)
    ensures ok == Verify(g, a, sig, d)
  {
    hide Mul, GroupLaws, RootLaws, Challenge, FromLittle, Decode, Near;
    if |a| != 32 || |sig| != 64 { return false; }
    var rBytes, s := sig[..32], FromLittle(sig[32..]);
    if s >= L { return false; }
    var da, dr := Decode(g, a), Decode(g, rBytes);
    DecodedNear(g, a);
    DecodedNear(g, rBytes);
    if da == None || dr == None { return false; }
    if da.value == IDENT || dr.value == IDENT { return false; }
    var la := PointMul(g, L, da.value);
    if la != IDENT { return false; }
    var lr := PointMul(g, L, dr.value);
    if lr != IDENT { return false; }
    BaseOn(g);
    OnIsNear(g, g.base);
    var left := PointMul(g, s, g.base);
    var ka := PointMul(g, Challenge(g, rBytes, a, d), da.value);
    return left == g.add(dr.value, ka);
  }
}
