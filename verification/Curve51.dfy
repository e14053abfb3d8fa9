/** The 64-bit implementation's inversion, ladder and byte formats. */
module Curve51 {
  import opened Bits
  import opened Bytes
  import opened Field25519
  import opened Rfc7748
  import opened Limbs51
  import opened InversionChain
  import opened Format51
  import opened ExtraStep
  import BasePointCertificate
  import LE = LittleEndian

  /** `crecip_crecip`: the addition chain computes the power p - 2. */
  method Crecip(out: array<u64>, z: array<u64>)
    requires out.Length == 5 && Red(z)
    modifies out
    ensures Red(out) && F(out) == FPow(old(F(z)), P - 2)
  {
    hide F, AtMost, Of, FMul, FPow, Pow2, Ones;
    ghost var x := F(z);
    var a, t, b, c := new u64[5], new u64[5], new u64[5], new u64[5];
    RedIsDiff(z);
    FSquareTimes(a, z, 1);
    RedIsDiff(a);
    FSquareTimes(t, a, 2);
    Times51(b, t, z);
    Times51(a, b, a);
    RedIsDiff(a);
    FSquareTimes(t, a, 1);
    Times51(b, t, b);
    Start(x);
    assert F(a) == FPow(x, 11) && F(b) == FPow(x, Ones(5));
    CrecipTail(x, out, a, t, b, c);
  }

  method CrecipTail(ghost x: Elem, out: array<u64>, a: array<u64>, t: array<u64>, b: array<u64>, c: array<u64>)
    requires out.Length == 5 && Red(a) && Red(b) && Red(t) && c.Length == 5
    requires a != t && a != b && a != c && t != b && t != c && b != c
    requires F(a) == FPow(x, 11) && F(b) == FPow(x, Ones(5))
    modifies out, t, b, c
    ensures Red(out) && F(out) == FPow(x, P - 2)
  {
    hide F, AtMost, Of, FMul, FPow, Pow2, Ones;
    AppendOnes(x, t, b, b, b, 5, 5);
    AppendOnes(x, t, c, b, b, 10, 10);
    AppendOnes(x, t, t, c, c, 20, 20);
    AppendOnes(x, t, b, t, b, 40, 10);
    AppendOnes(x, t, c, b, b, 50, 50);
    AppendOnes(x, t, t, c, c, 100, 100);
    AppendOnes(x, t, t, t, b, 200, 50);
    RedIsDiff(t);
    FSquareTimes(t, t, 5);
    Times51(out, t, a);
    Finish(x);
  }

  /** t := u^(2^n); o := t * v, in exponents of x. */
  method AppendOnes(ghost x: Elem, t: array<u64>, o: array<u64>, u: array<u64>, v: array<u64>, ghost k: nat, n: nat)
    requires n >= 1 && t.Length == 5 && o.Length == 5 && Red(u) && Red(v) && t != v
    requires F(u) == FPow(x, Ones(k)) && F(v) == FPow(x, Ones(n))
    modifies t, o
    ensures Red(t) && Red(o) && F(o) == FPow(x, Ones(k + n))
  {
    hide F, AtMost, Of, FMul, FPow, Pow2, Ones;
    RedIsDiff(u);
    FSquareTimes(t, u, n);
    Times51(o, t, v);
    Append(x, k, n);
  }

  /** `fmul` on reduced operands. */
  method Times51(o: array<u64>, a: array<u64>, b: array<u64>)
    requires o.Length == 5 && Red(a) && Red(b)
    modifies o
    ensures Red(o) && F(o) == FMul(old(F(a)), old(F(b)))
  {
    RedIsDiff(a);
    RedIsDiff(b);
    FMulArrays(o, a, b);
  }

  // ----- the ladder step

  /** fsum and fdifference on both points, then the two mixed products:
      x, z := A, B and xxp, zzp := CB, DA. */
  method MixedProducts(x: array<u64>, z: array<u64>, xp: array<u64>, zp: array<u64>, xxp: array<u64>, zzp: array<u64>)
    requires x != z && x != xp && x != zp && z != xp && z != zp && xp != zp
    requires xxp !in {x, z, xp, zp, zzp} && zzp !in {x, z, xp, zp} && xxp.Length == zzp.Length == 5
    requires Red(x) && Red(z) && Red(xp) && Red(zp)
    modifies x, z, xp, zp, xxp, zzp
    ensures Sum(x) && Diff(z) && Red(xxp) && Red(zzp)
    ensures var (a, b) := old((FAdd(F(x), F(z)), FSub(F(x), F(z))));
            var (c, d) := old((FAdd(F(xp), F(zp)), FSub(F(xp), F(zp))));
            F(x) == a && F(z) == b && F(xxp) == FMul(c, b) && F(zzp) == FMul(d, a)
  {
    hide F, AtMost, Of, FAdd, FSub, FMul;
    var origx := Clone(x);
    RedIsSmall(x);
    FSum(x, z);
    FDifference(z, origx);
    var origxp := Clone(xp);
    RedIsSmall(xp);
    FSum(xp, zp);
    FDifference(zp, origxp);
    FMulArrays(xxp, xp, z);
    MulComm(F(zp), F(x));
    FMulArrays(zzp, x, zp);
  }

  method Clone(a: array<u64>) returns (r: array<u64>)
    requires Red(a)
    ensures fresh(r) && Red(r) && F(r) == F(a)
  {
    r := new u64[5];
    r[0], r[1], r[2], r[3], r[4] := a[0], a[1], a[2], a[3], a[4];
  }

  lemma RedIsSmall(a: array<u64>)
    requires Red(a)
    ensures AtMost(Of(a), SUM - RED)
  {
  }

  /** x3, z3 from the mixed products. */
  method ThirdPoint(x3: array<u64>, z3: array<u64>, xxp: array<u64>, zzp: array<u64>, qx: array<u64>)
    requires x3 !in {z3, xxp, zzp, qx} && z3 !in {xxp, zzp, qx} && xxp !in {zzp, qx} && zzp != qx
    requires x3.Length == z3.Length == 5 && Red(xxp) && Red(zzp) && Red(qx)
    modifies x3, z3, xxp, zzp
    ensures Red(x3) && Red(z3)
    ensures var sum, diff := FAdd(old(F(zzp)), old(F(xxp))), FSub(old(F(zzp)), old(F(xxp)));
            F(x3) == FMul(sum, sum) && F(z3) == FMul(F(qx), FMul(diff, diff))
  {
    hide F, AtMost, Of, FAdd, FSub, FMul, Pow2;
    AddComm(F(xxp), F(zzp));
    SquareOfDifference(F(xxp), F(zzp));
    var orig := Clone(xxp);
    RedIsSmall(xxp);
    FSum(xxp, zzp);
    FDifference(zzp, orig);
    SumIsDiff(xxp);
    Square(x3, xxp);
    var zzzp := new u64[5];
    Square(zzzp, zzp);
    MulComm(F(zzzp), F(qx));
    Times51(z3, zzzp, qx);
  }

  /** `fsquare_fsquare_times` with a count of one. */
  method Square(o: array<u64>, a: array<u64>)
    requires o.Length == 5 && Diff(a)
    modifies o
    ensures Red(o) && F(o) == FMul(old(F(a)), old(F(a)))
  {
    FSquareTimes(o, a, 1);
    assert Pow2(1) == 2;
    PowOfTwo(old(F(a)));
  }

  lemma SumIsDiff(a: array<u64>)
    requires Sum(a)
    ensures Diff(a)
  {
  }

  /** x2, z2 from x = A and z = B. */
  method SecondPoint(x2: array<u64>, z2: array<u64>, x: array<u64>, z: array<u64>)
    requires x2 !in {z2, x, z} && z2 !in {x, z} && x != z && x2.Length == z2.Length == 5
    requires Sum(x) && Diff(z)
    modifies x2, z2
    ensures Red(x2) && Red(z2)
    ensures var aa, bb := FMul(F(x), F(x)), FMul(F(z), F(z));
            var e := FSub(aa, bb);
            F(x2) == FMul(aa, bb) && F(z2) == FMul(e, FAdd(aa, FMul(121665, e)))
  {
    hide F, AtMost, Of, FAdd, FSub, FMul;
    var xx, zz, zzz := new u64[5], new u64[5], new u64[5];
    SumIsDiff(x);
    Square(xx, x);
    Square(zz, z);
    Times51(x2, xx, zz);
    FDifference(zz, xx);
    FScalar(zzz, zz, 121665);
    MulComm(F(zz), 121665);
    AddComm(F(zzz), F(xx));
    FSum(zzz, xx);
    MulComm(F(zzz), F(zz));
    FMulArrays(z2, zzz, zz);
  }

  /** A projective point: the two arrays behind a point pointer of the source. */
  datatype Point = Point(x: array<u64>, z: array<u64>)

  ghost predicate Apart(p: Point, q: Point) {
    {p.x, p.z} !! {q.x, q.z}
  }

  ghost predicate Ok(p: Point)
    reads p.x, p.z
  {
    p.x != p.z && Red(p.x) && Red(p.z)
  }

  ghost predicate Sized(p: Point) {
    p.x != p.z && p.x.Length == p.z.Length == 5
  }

  ghost function At(p: Point, q: Point): Coords
    requires Sized(p) && Sized(q)
    reads p.x, p.z, q.x, q.z
  {
    Coords(F(p.x), F(p.z), F(q.x), F(q.z))
  }

  /** Every limb of the new coordinates is again below 2^51 + 2^13, no operation on the way
      wraps, and the coordinates are those of RFC 7748. */
  method AddAndDouble(pp: Point, ppq: Point, p: Point, pq: Point, qx: array<u64>)
    requires Sized(pp) && Sized(ppq) && Ok(p) && Ok(pq) && Red(qx)
    requires Apart(pp, ppq) && Apart(pp, p) && Apart(pp, pq) && Apart(ppq, p) && Apart(ppq, pq) && Apart(p, pq)
    requires qx !in {pp.x, pp.z, ppq.x, ppq.z, p.x, p.z, pq.x, pq.z}
    modifies pp.x, pp.z, ppq.x, ppq.z, p.x, p.z, pq.x, pq.z
    ensures Ok(pp) && Ok(ppq)
    ensures At(pp, ppq) == Step(F(qx), old(At(p, pq)))
  {
    hide F, AtMost, Of, FAdd, FSub, FMul;
    var xxp, zzp := new u64[5], new u64[5];
    MixedProducts(p.x, p.z, pq.x, pq.z, xxp, zzp);
    ThirdPoint(ppq.x, ppq.z, xxp, zzp, qx);
    SecondPoint(pp.x, pp.z, p.x, p.z);
  }

  // ----- the ladder loops

  lemma MaskedSwap64(x: u64, y: u64, mask: int)
    requires mask == 0 || mask == 0xffff_ffff_ffff_ffff
    ensures var t := And(mask, Xor(x, y));
            && Xor(x, t) == (if mask == 0 then x else y) && Xor(y, t) == (if mask == 0 then y else x)
  {
    hide And, Xor, Pow2;
    Pow2Values();
    XorNonNegative(x, y);
    XorRange(x, y, 64);
    AndMask(Xor(x, y), 64);
    AndZero(Xor(x, y));
    XorUndo(x, y);
    XorComm(x, y);
    XorUndo(y, x);
    XorZero(x);
    XorZero(y);
  }

  method Swap5(a: array<u64>, b: array<u64>, swap: u64)
    requires a != b && Red(a) && Red(b) && (swap == 0 || swap == 0xffff_ffff_ffff_ffff)
    modifies a, b
    ensures Red(a) && Red(b)
    ensures F(a) == (if swap == 0 then old(F(a)) else old(F(b)))
    ensures F(b) == (if swap == 0 then old(F(b)) else old(F(a)))
  {
    hide And, Xor, Reduce, Val;
    for ctr := 5 downto 0
      invariant forall k :: 0 <= k < ctr ==> a[k] == old(a[k]) && b[k] == old(b[k])
      invariant forall k :: ctr <= k < 5 ==> a[k] == (if swap == 0 then old(a[k]) else old(b[k]))
      invariant forall k :: ctr <= k < 5 ==> b[k] == (if swap == 0 then old(b[k]) else old(a[k]))
    {
      MaskedSwap64(a[ctr], b[ctr], swap);
      var x := And(swap, Xor(a[ctr], b[ctr]));
      a[ctr] := Xor(a[ctr], x);
      b[ctr] := Xor(b[ctr], x);
    }
  }

  method PointSwap(p: Point, q: Point, iswap: u64)
    requires Ok(p) && Ok(q) && Apart(p, q) && (iswap == 0 || iswap == 1)
    modifies p.x, p.z, q.x, q.z
    ensures Ok(p) && Ok(q) && At(p, q) == CSwap(iswap == 1, old(At(p, q)))
  {
    hide F, AtMost, Of;
    var swap := (0 - iswap) % 0x1_0000_0000_0000_0000;
    Swap5(p.x, q.x, swap);
    Swap5(p.z, q.z, swap);
  }

  /** One ladder step on the top bit of byt, from (nq, nqpq) to (nq2, nqpq2). */
  method SmallLoopStep(nq: Point, nqpq: Point, nq2: Point, nqpq2: Point, qx: array<u64>, byt: u8)
    requires Ok(nq) && Ok(nqpq) && Sized(nq2) && Sized(nqpq2) && Red(qx)
    requires Apart(nq2, nqpq2) && Apart(nq2, nq) && Apart(nq2, nqpq) && Apart(nqpq2, nq) && Apart(nqpq2, nqpq) && Apart(nq, nqpq)
    requires qx !in {nq.x, nq.z, nqpq.x, nqpq.z, nq2.x, nq2.z, nqpq2.x, nqpq2.z}
    modifies nq.x, nq.z, nqpq.x, nqpq.z, nq2.x, nq2.z, nqpq2.x, nqpq2.z
    ensures Ok(nq2) && Ok(nqpq2)
    ensures At(nq2, nqpq2) == StepBothWays(byt >= 128, F(qx), old(At(nq, nqpq)))
  {
    hide F, AtMost, Of, Step;
    var bit := byt / 128;
    PointSwap(nq, nqpq, bit);
    AddAndDouble(nq2, nqpq2, nq, nqpq, qx);
    PointSwap(nq2, nqpq2, bit);
  }

  function Shl(b: u8, m: nat): u8 {
    if m == 0 then b else (2 * (Shl(b, m - 1) as int)) % 0x100
  }

  lemma DoubleBit(x: u8, j: nat)
    requires 1 <= j <= 7
    ensures LE.Bit((2 * (x as int)) % 0x100, j) == LE.Bit(x, j - 1)
  {
    assert (2 * (x as int)) % 0x100 / 2 == x % 128;
    assert Pow2(7) == 128;
    LE.BitLow(x % 128, x / 128, 7, j - 1);
  }

  lemma {:induction false} ShlBit(b: u8, m: nat, j: nat)
    requires m <= j <= 7
    ensures LE.Bit(Shl(b, m), j) == LE.Bit(b, j - m)
    decreases m
  {
    hide LE.Bit;
    if m > 0 {
      DoubleBit(Shl(b, m - 1), j);
      ShlBit(b, m - 1, j - 1);
    }
  }

  lemma ShlTop(b: u8, m: nat)
    requires m <= 7
    ensures Shl(b, m) >= 128 <==> LE.Bit(b, 7 - m)
  {
    ShlBit(b, m, 7);
    assert Pow2(7) == 128;
    LE.BitShift(Shl(b, m), 7);
    hide LE.Bit, Shl;
  }

  /** Four double steps consume the eight bits of a byte, most significant first. */
  method SmallLoop(nq: Point, nqpq: Point, nq2: Point, nqpq2: Point, qx: array<u64>, b: u8)
    requires Ok(nq) && Ok(nqpq) && Sized(nq2) && Sized(nqpq2) && Red(qx)
    requires Apart(nq2, nqpq2) && Apart(nq2, nq) && Apart(nq2, nqpq) && Apart(nqpq2, nq) && Apart(nqpq2, nqpq) && Apart(nq, nqpq)
    requires qx !in {nq.x, nq.z, nqpq.x, nqpq.z, nq2.x, nq2.z, nqpq2.x, nqpq2.z}
    modifies nq.x, nq.z, nqpq.x, nqpq.z, nq2.x, nq2.z, nqpq2.x, nqpq2.z
    ensures Ok(nq) && Ok(nqpq)
    ensures At(nq, nqpq) == ByteSteps(F(qx), old(At(nq, nqpq)), b, 8)
  {
    hide F, AtMost, Of, StepBothWays, LE.Bit;
    ghost var s, q := At(nq, nqpq), F(qx);
    var byt := b;
    for i := 0 to 4
      invariant Ok(nq) && Ok(nqpq) && Red(qx) && F(qx) == q
      invariant byt == Shl(b, 2 * i)
      invariant At(nq, nqpq) == ByteSteps(q, s, b, 2 * i)
    {
      ShlTop(b, 2 * i);
      ShlTop(b, 2 * i + 1);
      SmallLoopStep(nq, nqpq, nq2, nqpq2, qx, byt);
      assert At(nq2, nqpq2) == ByteSteps(q, s, b, 2 * i + 1);
      byt := (2 * (byt as int)) % 0x100;
      SmallLoopStep(nq2, nqpq2, nq, nqpq, qx, byt);
      byt := (2 * (byt as int)) % 0x100;
    }
  }

  method NewPoint(low: u8) returns (p: Point)
    ensures fresh(p.x) && fresh(p.z) && Ok(p) && F(p.x) == low && F(p.z) == 0
  {
    var x := new u64[5](_ => 0);
    var z := new u64[5](_ => 0);
    x[0] := low;
    p := Point(x, z);
  }

  /** `ladder_bigloop_cmult_big_loop`: the bytes of the scalar from the last one down. */
  method BigLoop(n: array<u8>, nq: Point, nqpq: Point, nq2: Point, nqpq2: Point, qx: array<u64>)
    requires n.Length == 32 && Ok(nq) && Ok(nqpq) && Sized(nq2) && Sized(nqpq2) && Red(qx)
    requires Apart(nq2, nqpq2) && Apart(nq2, nq) && Apart(nq2, nqpq) && Apart(nqpq2, nq) && Apart(nqpq2, nqpq) && Apart(nq, nqpq)
    requires qx !in {nq.x, nq.z, nqpq.x, nqpq.z, nq2.x, nq2.z, nqpq2.x, nqpq2.z}
    requires At(nq, nqpq) == RunExtra(LE.Decode(n[..]), F(qx), 256)
    modifies nq.x, nq.z, nqpq.x, nqpq.z, nq2.x, nq2.z, nqpq2.x, nqpq2.z
    ensures Ok(nq) && Ok(nqpq)
    ensures At(nq, nqpq) == RunExtra(LE.Decode(n[..]), F(qx), 0)
  {
    hide F, AtMost, Of, StepBothWays, LE.Bit, LE.Decode;
    ghost var k, x1 := LE.Decode(n[..]), F(qx);
    for i := 32 downto 0
      invariant Ok(nq) && Ok(nqpq) && Red(qx) && F(qx) == x1
      invariant At(nq, nqpq) == RunExtra(k, x1, 8 * i)
    {
      SmallLoop(nq, nqpq, nq2, nqpq2, qx, n[i]);
      RunByBytes(n[..], x1, i, 8);
    }
  }

  /** The 256 steps of `ladder_cmult`. */
  method LadderCmult(n: array<u8>, q: Point) returns (nq: Point)
    requires n.Length == 32 && Ok(q) && F(q.z) == 1
    ensures Ok(nq) && fresh(nq.x) && fresh(nq.z)
    ensures var r := RunExtra(LE.Decode(n[..]), F(q.x), 0); F(nq.x) == r.x2 && F(nq.z) == r.z2
  {
    hide F, AtMost, Of, StepBothWays, LE.Bit, LE.Decode;
    ghost var key, x1 := n[..], F(q.x);
    nq := NewPoint(1);
    var nq2 := NewPoint(0);
    var nqpq2 := NewPoint(0);
    var x := Clone(q.x);
    var z := Clone(q.z);
    var nqpq := Point(x, z);
    BigLoop(n, nq, nqpq, nq2, nqpq2, q.x);
  }

  // ----- the whole function

  method ClampSecret(secret: array<u8>) returns (e: array<u8>)
    requires secret.Length == 32
    ensures fresh(e) && e.Length == 32 && e[..] == Clamp(secret[..])
  {
    hide And, Or;
    e := new u8[32];
    forall k | 0 <= k < 32 { e[k] := secret[k]; }
    ClampMasks(e[31]);
    ClampMasks(e[0]);
    e[0] := And(248, e[0]);
    e[31] := Or(64, And(127, e[31]));
    assert e[..] == Clamp(secret[..]);
  }

  /** `curve25519_generic` of the 64-bit implementation, for every secret and every point: the result of
      its 256-step ladder, canonically encoded. */
  method Generic51(mypublic: array<u8>, secret: array<u8>, basepoint: array<u8>)
    requires mypublic.Length == secret.Length == basepoint.Length == 32
    modifies mypublic
    ensures var r := RunExtra(DecodeScalar(old(secret[..])), DecodeU(old(basepoint[..])), 0);
            mypublic[..] == LE.Encode(Affine(r.x2, r.z2), 32)
  {
    hide F, AtMost, Of, FMul, FPow, RunExtra, LE.Encode, LE.Decode, Reduce, Clamp;
    var q := NewPoint(0);
    FExpand(q.x, basepoint);
    var one := NewPoint(1);
    q := Point(q.x, one.x);
    var e := ClampSecret(secret);
    var nq := LadderCmult(e, q);
    var zmone, sc := new u64[5], new u64[5];
    Crecip(zmone, nq.z);
    Times51(sc, nq.x, zmone);
    RedIs63(sc);
    FContract(mypublic, sc);
  }

  lemma RedIs63(a: array<u64>)
    requires Red(a)
    ensures AtMost(Of(a), 0x7fff_ffff_ffff_ffff)
  {
  }

  /** In spite of the extra step, the 64-bit result is X25519 wherever (4u)^(p-1) = 1. */
  lemma Generic51IsX25519(secret: Key, point: Key)
    requires FPow(ExtraFactor(DecodeU(point)), P - 1) == 1
    ensures var r := RunExtra(DecodeScalar(secret), DecodeU(point), 0);
            LE.Encode(Affine(r.x2, r.z2), 32) == X25519(secret, point)
  {
    hide FMul, FPow, RunExtra, LE.Encode, ScalarMult, Affine, DecodeU, DecodeScalar;
    ExtraStepHarmless(secret, DecodeU(point));
  }

  /** `curve25519_generate_public` of the 64-bit implementation returns the RFC 7748 public key
      for every secret. */
  method GeneratePublic51(pub: array<u8>, secret: array<u8>)
    requires pub.Length == secret.Length == 32
    modifies pub
    ensures pub[..] == PublicKey(old(secret[..]))
  {
    hide FMul, FPow, RunExtra, LE.Encode, X25519, Affine, DecodeU, DecodeScalar;
    ghost var key: Key := secret[..];
    var basepoint := new u8[32](i => if i == 0 then 9 else 0);
    assert basepoint[..] == BASE;
    FactorOfBase();
    BasePointCertificate.UnitPower();
    Generic51IsX25519(key, BASE);
    Generic51(pub, secret, basepoint);
  }

  lemma FactorOfBase()
    ensures ExtraFactor(DecodeU(BASE)) == 36
  {
    BaseDecodes();
  }
}
