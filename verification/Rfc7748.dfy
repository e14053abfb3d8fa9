/** The function X25519 of section 5 of RFC 7748, over field elements rather than limbs. */
module Rfc7748 {
  import opened Bits
  import opened Bytes
  import opened Field25519
  import LE = LittleEndian

  function Clamp(k: Key): Key {
    k[0 := k[0] - k[0] % 8][31 := k[31] % 64 + 64]
  }

  function DecodeScalar(k: Key): nat { LE.Decode(Clamp(k)) }

  function DecodeU(u: Key): Elem { Reduce(LE.Decode(u[31 := u[31] % 128])) }

  /** The projective coordinates of the two points that the Montgomery ladder carries. */
  datatype Coords = Coords(x2: Elem, z2: Elem, x3: Elem, z3: Elem)

  datatype Ladder = Ladder(coords: Coords, swap: bool)

  function CSwap(swap: bool, s: Coords): Coords {
    if swap then Coords(s.x3, s.z3, s.x2, s.z2) else s
  }

  function Step(x1: Elem, s: Coords): Coords {
    var a := FAdd(s.x2, s.z2);
    var aa := FMul(a, a);
    var b := FSub(s.x2, s.z2);
    var bb := FMul(b, b);
    var e := FSub(aa, bb);
    var c := FAdd(s.x3, s.z3);
    var d := FSub(s.x3, s.z3);
    var da := FMul(d, a);
    var cb := FMul(c, b);
    var sum, diff := FAdd(da, cb), FSub(da, cb);
    Coords(FMul(aa, bb), FMul(e, FAdd(aa, FMul(121665, e))), FMul(sum, sum), FMul(x1, FMul(diff, diff)))
  }

  /** The state when bits 254 down to t of the scalar have been processed, with the
      swap that is still pending. */
  function Run(k: nat, x1: Elem, t: nat): Ladder
    requires t <= 255
    decreases 255 - t
  {
    if t == 255 then Ladder(Coords(1, 0, x1, 1), false)
    else
      var s := Run(k, x1, t + 1);
      var bit := LE.Bit(k, t);
      Ladder(Step(x1, CSwap(s.swap != bit, s.coords)), bit)
  }

  function Affine(x: Elem, z: Elem): Elem { FMul(x, FPow(z, P - 2)) }

  function ScalarMult(k: nat, u: Elem): Elem {
    var s := Run(k, u, 0);
    var r := CSwap(s.swap, s.coords);
    Affine(r.x2, r.z2)
  }

  function X25519(k: Key, u: Key): Key {
    LE.Encode(ScalarMult(DecodeScalar(k), DecodeU(u)), 32)
  }

  /** The u-coordinate 9 of the base point. */
  const BASE: Key := [9] + Zeros(31)

  function PublicKey(secret: Key): Key { X25519(secret, BASE) }

  // ----- ladders that swap before and after every step

  function StepBothWays(bit: bool, x1: Elem, s: Coords): Coords {
    CSwap(bit, Step(x1, CSwap(bit, s)))
  }

  function RunBothWays(k: nat, x1: Elem, t: nat): Coords
    requires t <= 255
    decreases 255 - t
  {
    if t == 255 then Coords(1, 0, x1, 1) else StepBothWays(LE.Bit(k, t), x1, RunBothWays(k, x1, t + 1))
  }

  /** The coordinates of the deferred ladder with the pending swap carried out. */
  function Settled(k: nat, x1: Elem, t: nat): Coords
    requires t <= 255
  {
    CSwap(Run(k, x1, t).swap, Run(k, x1, t).coords)
  }

  /** Undoing the swap at the end of each step leaves the same state as carrying it over,
      up to the pending swap. */
  lemma {:induction false} SwapDisciplinesAgree(k: nat, x1: Elem, t: nat)
    requires t <= 255
    ensures RunBothWays(k, x1, t) == Settled(k, x1, t)
    decreases 255 - t
  {
    if t < 255 {
      SwapDisciplinesAgree(k, x1, t + 1);
    }
  }

  /** The ladder of the 64-bit implementation takes one step more, for bit 255. */
  function RunExtra(k: nat, x1: Elem, t: nat): Coords
    requires t <= 256
    decreases 256 - t
  {
    if t == 256 then Coords(1, 0, x1, 1) else StepBothWays(LE.Bit(k, t), x1, RunExtra(k, x1, t + 1))
  }

  /** n steps for the n most significant bits of a byte. */
  function ByteSteps(x1: Elem, s: Coords, b: u8, n: nat): Coords
    requires n <= 8
  {
    if n == 0 then s else StepBothWays(LE.Bit(b, 8 - n), x1, ByteSteps(x1, s, b, n - 1))
  }

  /** The ladder after n bits of byte i. */
  function AfterBits(z: seq<u8>, x1: Elem, i: nat, n: nat): Coords
    requires |z| == 32 && i < 32 && n <= 8
  {
    RunExtra(LE.Decode(z), x1, 8 * i + 8 - n)
  }

  lemma {:induction false} RunByBytes(z: seq<u8>, x1: Elem, i: nat, n: nat)
    requires |z| == 32 && i < 32 && n <= 8
    ensures AfterBits(z, x1, i, n) == ByteSteps(x1, AfterBits(z, x1, i, 0), z[i], n)
    decreases n
  {
    hide StepBothWays, LE.Bit, LE.Decode;
    if n > 0 {
      RunByBytes(z, x1, i, n - 1);
      LE.BitOfByte(z, 8 * i + 8 - n);
    }
  }

  /** With e = aa - bb, the form bb + 121666 e used by fiat32 is the form aa + 121665 e. */
  lemma CurveConstantForms(aa: Elem, bb: Elem)
    ensures var e := FSub(aa, bb); FAdd(bb, FMul(121666, e)) == FAdd(aa, FMul(121665, e))
  {
    hide Reduce, FAdd, FMul;
    ScaledSum(bb, 121666, aa - bb);
    ScaledSum(aa, 121665, aa - bb);
  }

  lemma ScaledSum(a: Elem, c: Elem, e: int)
    ensures FAdd(a, FMul(c, Reduce(e))) == Reduce(a + c * e)
  {
    hide Reduce;
    Canonical(a);
    Canonical(c);
    ReduceMul(c, e);
    ReduceAdd(a, c * e);
  }

  /** The clamping masks of the sources: z[31] & 127 | 64 and z[0] & 248. */
  lemma ClampMasks(x: u8)
    ensures Or(64, And(127, x)) == x % 64 + 64
    ensures And(248, x) == x - x % 8
  {
    hide And, Or;
    SetBit6(x);
    AndDouble(124, x);
    AndDouble(62, x / 2);
    AndDouble(31, x / 4);
    Mask5(x / 8);
  }

  lemma SetBit6(x: u8)
    ensures Or(64, And(127, x)) == x % 64 + 64
  {
    hide And, Or;
    assert Pow2(6) == 64 && Pow2(7) == 128;
    AndMask(x, 7);
    OrTopBit(6, x % 128);
  }

  lemma Mask5(x: int)
    ensures And(31, x) == x % 32
  {
    hide And;
    assert Pow2(5) == 32;
    AndMask(x, 5);
  }

  // ----- what decoding a scalar and a coordinate does to the numbers

  /** Every scalar lies in [2^254, 2^255), is a multiple of 8, and has the other bits of its key. */
  lemma ScalarBits(k: Key)
    ensures Pow2(254) <= DecodeScalar(k) < Pow2(255) && DecodeScalar(k) % 8 == 0
    ensures forall t :: 3 <= t <= 253 ==> (LE.Bit(DecodeScalar(k), t) <==> LE.Bit(LE.Decode(k), t))
  {
    hide Pow2, LE.Bit;
    ClampedRange(k);
    forall t | 3 <= t <= 253 ensures LE.Bit(DecodeScalar(k), t) <==> LE.Bit(LE.Decode(k), t) { ClampedBit(k, t); }
  }

  lemma ClampedRange(k: Key)
    ensures Pow2(254) <= DecodeScalar(k) < Pow2(255) && DecodeScalar(k) % 8 == 0
  {
    hide LE.Decode, Pow2;
    var z, n := Clamp(k), 248;
    TopByte(z, n);
    WeightedRange(LE.Decode(z[..31]), Pow2(n), z[31]);
    FirstByte(z);
  }

  /** A string of 32 bytes by its last byte and the others. */
  lemma TopByte(z: seq<u8>, n: nat)
    requires |z| == 32 && n == 248
    ensures LE.Decode(z) == LE.Decode(z[..31]) + Pow2(n) * z[31] && LE.Decode(z[..31]) < Pow2(n)
    ensures Pow2(254) == Pow2(n) * 64 && Pow2(255) == Pow2(n) * 128
  {
    hide LE.Decode, Pow2;
    assert z == z[..31] + [z[31]];
    LE.DecodeConcat(z[..31], [z[31]]);
    LE.DecodeBound(z[..31]);
    OneByte(z[31]);
    SmallPowers();
    Pow2Add(n, 6);
    Pow2Add(n, 7);
  }

  lemma WeightedRange(low: int, w: int, b: int)
    requires 0 <= low < w && 0 <= b < 128
    ensures low + w * b < w * 128 && (b >= 64 ==> w * 64 <= low + w * b)
  {
    MulMono(b + 1, 128, w);
    if b >= 64 { MulMono(64, b, w); }
  }

  lemma SmallPowers()
    ensures Pow2(6) == 64 && Pow2(7) == 128
  {
  }

  lemma OneByte(b: u8)
    ensures LE.Decode([b]) == b
  {
    assert LE.Decode([b][1..]) == 0;
  }

  lemma FirstByte(z: seq<u8>)
    requires z != []
    ensures LE.Decode(z) % 8 == z[0] % 8
  {
  }

  lemma ClampedBit(k: Key, t: nat)
    requires 3 <= t <= 253
    ensures LE.Bit(DecodeScalar(k), t) <==> LE.Bit(LE.Decode(k), t)
  {
    hide LE.Bit, LE.Decode;
    var z := Clamp(k);
    LE.BitOfByte(z, t);
    LE.BitOfByte(k, t);
    if t < 8 {
      LowBitsGone(k[0], t);
    } else if t >= 248 {
      HighBitsSet(k[31], t - 248);
    }
  }

  lemma LowBitsGone(b: u8, j: nat)
    requires 3 <= j < 8
    ensures LE.Bit(b - b % 8, j) <==> LE.Bit(b, j)
  {
    assert LE.Bit(b, j) == LE.Bit(b / 2, j - 1) == LE.Bit(b / 4, j - 2) == LE.Bit(b / 8, j - 3);
    var c: nat := b - b % 8;
    assert LE.Bit(c, j) == LE.Bit(c / 2, j - 1) == LE.Bit(c / 4, j - 2) == LE.Bit(c / 8, j - 3);
    assert c / 2 / 2 / 2 == b / 2 / 2 / 2;
  }

  lemma HighBitsSet(b: u8, j: nat)
    requires j < 6
    ensures LE.Bit(b % 64 + 64, j) <==> LE.Bit(b, j)
  {
    hide LE.Bit;
    assert Pow2(6) == 64;
    LE.BitLow(b % 64, 1, 6, j);
    LE.BitLow(b % 64, b / 64, 6, j);
  }

  /** A coordinate is read modulo 2^255 and then modulo p. */
  lemma CoordinateValue(u: Key)
    ensures DecodeU(u) == LE.Decode(u) % Pow2(255) % P
  {
    hide LE.Decode, Pow2, Reduce;
    var v, n := u[31 := u[31] % 128], 248;
    assert u[..31] == v[..31];
    TopByte(u, n);
    TopByte(v, n);
    WeightedRange(LE.Decode(v[..31]), Pow2(n), v[31]);
    TopBitOff(LE.Decode(u[..31]), Pow2(n), u[31]);
    ModUnique(LE.Decode(u), Pow2(255), u[31] / 128, LE.Decode(v));
    ReduceIsMod(LE.Decode(v));
  }

  lemma TopBitOff(low: int, w: int, b: int)
    ensures low + w * b == w * 128 * (b / 128) + (low + w * (b % 128))
  {
    assert b == 128 * (b / 128) + b % 128;
  }

  /** The base point decodes to 9. */
  lemma BaseDecodes()
    ensures DecodeU(BASE) == 9
  {
    var b := BASE[31 := BASE[31] % 128];
    assert b == BASE;
    ZerosDecode(31);
    assert BASE[1..] == Zeros(31);
  }

  /** A public key read off a ladder that swaps before and after each step. */
  lemma PublicKeyBothWays(secret: Key)
    ensures var r := RunBothWays(LE.Decode(Clamp(secret)), 9, 0);
            PublicKey(secret) == LE.Encode(FMul(r.x2, FPow(r.z2, P - 2)), 32)
  {
    hide FMul, FPow, LE.Encode, Run;
    BaseDecodes();
    SwapDisciplinesAgree(DecodeScalar(secret), 9, 0);
  }

  lemma {:induction false} ZerosDecode(n: nat)
    ensures LE.Decode(Zeros(n)) == 0
  {
    if n > 0 {
      assert Zeros(n)[1..] == Zeros(n - 1);
      ZerosDecode(n - 1);
    }
  }

  // ----- the step in Montgomery's formulas

  /** The doubled point on y^2 = x^3 + 486662 x^2 + x, and the sum of two points whose difference has
      u-coordinate x1, as formulas in the projective coordinates. */
  function DoubledX(x: Elem, z: Elem): Elem {
    var d := FSub(FMul(x, x), FMul(z, z)); FMul(d, d)
  }

  function DoubledZ(x: Elem, z: Elem): Elem {
    var xz := FMul(x, z); FMul(FMul(4, xz), FAdd(FAdd(FMul(x, x), FMul(486662, xz)), FMul(z, z)))
  }

  function SumX(s: Coords): Elem {
    var d := FSub(FMul(s.x2, s.x3), FMul(s.z2, s.z3)); FMul(4, FMul(d, d))
  }

  function SumZ(x1: Elem, s: Coords): Elem {
    var d := FSub(FMul(s.x2, s.z3), FMul(s.z2, s.x3)); FMul(x1, FMul(4, FMul(d, d)))
  }

  /** The step of RFC 7748 doubles the first point and adds the two. */
  lemma StepIsMontgomery(x1: Elem, s: Coords)
    ensures Step(x1, s) == Coords(DoubledX(s.x2, s.z2), DoubledZ(s.x2, s.z2), SumX(s), SumZ(x1, s))
  {
    hide FMul, FAdd, FSub, DoubledX, DoubledZ, SumX, SumZ;
    StepDoubles(s.x2, s.z2);
    StepAdds(s);
  }

  lemma StepDoubles(x: Elem, z: Elem)
    ensures var a, b := FAdd(x, z), FSub(x, z);
            var aa, bb := FMul(a, a), FMul(b, b);
            var e := FSub(aa, bb);
            FMul(aa, bb) == DoubledX(x, z) && FMul(e, FAdd(aa, FMul(121665, e))) == DoubledZ(x, z)
  {
    hide FMul, Reduce;
    var a, b, xx, xz, zz := x as int + z as int, x as int - z as int, x * x, x * z, z * z;
    SumTimesDifference(x, z);
    ReduceMul(a, a);
    ReduceMul(b, b);
    var aa, bb := a * a, b * b;
    ReduceSub(aa, bb);
    ReduceMul(aa, bb);
    ScaledSum(Reduce(aa), 121665, aa - bb);
    MulIs(x, x);
    MulIs(z, z);
    MulIs(x, z);
    ReduceSub(xx, zz);
    ReduceMul(xx - zz, xx - zz);
    SquareOfProduct(a, b);
    DoubledZIs(x, z);
    ReduceAdd(aa, 121665 * (aa - bb));
    ReduceMul(121665, aa - bb);
    Canonical(121665);
    ReduceMul(aa - bb, aa + 121665 * (aa - bb));
  }

  lemma DoubledZIs(x: Elem, z: Elem)
    ensures DoubledZ(x, z) == Reduce((4 * (x * z)) * (x * x + 486662 * (x * z) + z * z))
  {
    hide FMul, Reduce;
    var xx, xz, zz := x * x, x * z, z * z;
    MulIs(x, x);
    MulIs(z, z);
    MulIs(x, z);
    Canonical(4);
    Canonical(486662);
    ReduceMul(4, xz);
    ReduceMul(486662, xz);
    ReduceAdd(xx, 486662 * xz);
    ReduceAdd(xx + 486662 * xz, zz);
    ReduceMul(4 * xz, xx + 486662 * xz + zz);
  }

  lemma SumTimesDifference(x: int, z: int)
    ensures (x + z) * (x - z) == x * x - z * z
    ensures (x + z) * (x + z) == x * x + 2 * (x * z) + z * z && (x - z) * (x - z) == x * x - 2 * (x * z) + z * z
  {
  }

  lemma SquareOfProduct(a: int, b: int)
    ensures (a * a) * (b * b) == (a * b) * (a * b)
  {
  }

  lemma StepAdds(s: Coords)
    ensures var da, cb := FMul(FSub(s.x3, s.z3), FAdd(s.x2, s.z2)), FMul(FAdd(s.x3, s.z3), FSub(s.x2, s.z2));
            var sum, diff := FAdd(da, cb), FSub(da, cb);
            FMul(sum, sum) == SumX(s) && forall x1 :: FMul(x1, FMul(diff, diff)) == SumZ(x1, s)
  {
    hide FMul, Reduce;
    var x, z, u, w := s.x2 as int, s.z2 as int, s.x3 as int, s.z3 as int;
    var da, cb := (u - w) * (x + z), (u + w) * (x - z);
    ReduceMul(u - w, x + z);
    ReduceMul(u + w, x - z);
    ReduceAdd(da, cb);
    ReduceSub(da, cb);
    ReduceMul(da + cb, da + cb);
    ReduceMul(da - cb, da - cb);
    CrossSums(x, z, u, w);
    var e, g := x * u - z * w, x * w - z * u;
    FourTimesSquare(s.x2, s.x3, s.z2, s.z3);
    FourTimesSquare(s.x2, s.z3, s.z2, s.x3);
    TwiceSquared(e);
    TwiceSquared(-g);
    SquareSign(g);
  }

  lemma CrossSums(x: int, z: int, u: int, w: int)
    ensures (u - w) * (x + z) + (u + w) * (x - z) == 2 * (x * u - z * w)
    ensures (u - w) * (x + z) - (u + w) * (x - z) == 2 * -(x * w - z * u)
  {
  }

  lemma TwiceSquared(e: int)
    ensures (2 * e) * (2 * e) == 4 * (e * e)
  {
  }

  lemma SquareSign(g: int)
    ensures (-g) * (-g) == g * g
  {
  }

  lemma FourTimesSquare(a: Elem, b: Elem, c: Elem, d: Elem)
    ensures var m := FSub(FMul(a, b), FMul(c, d));
            var e := a * b - c * d;
            FMul(4, FMul(m, m)) == Reduce(4 * (e * e))
  {
    hide FMul, Reduce;
    var e := a * b - c * d;
    MulIs(a, b);
    MulIs(c, d);
    ReduceSub(a * b, c * d);
    ReduceMul(e, e);
    Canonical(4);
    ReduceMul(4, e * e);
  }

  // ----- projective scaling

  /** (x2 : z2) scaled by l and (x3 : z3) scaled by m. */
  function Scale(l: Elem, m: Elem, s: Coords): Coords {
    Coords(FMul(l, s.x2), FMul(l, s.z2), FMul(m, s.x3), FMul(m, s.z3))
  }

  /** A ladder step sends scaled points to scaled points. */
  lemma StepScales(x1: Elem, l: Elem, m: Elem, s: Coords)
    ensures var ll, lm := FMul(l, l), FMul(l, m);
            Step(x1, Scale(l, m, s)) == Scale(FMul(ll, ll), FMul(lm, lm), Step(x1, s))
  {
    var a, b := FAdd(s.x2, s.z2), FSub(s.x2, s.z2);
    var c, d := FAdd(s.x3, s.z3), FSub(s.x3, s.z3);
    var ll, lm := FMul(l, l), FMul(l, m);
    Distribute(l, s.x2, s.z2);
    Distribute(m, s.x3, s.z3);
    var aa, bb := FMul(a, a), FMul(b, b);
    MulScale(l, a, l, a);
    MulScale(l, b, l, b);
    Distribute(ll, aa, bb);
    MulScale(ll, aa, ll, bb);
    var e := FSub(aa, bb);
    ScaleOut(121665, ll, e);
    Distribute(ll, aa, FMul(121665, e));
    MulScale(ll, e, ll, FAdd(aa, FMul(121665, e)));
    var da, cb := FMul(d, a), FMul(c, b);
    MulScale(m, d, l, a);
    MulScale(m, c, l, b);
    MulComm(m, l);
    Distribute(lm, da, cb);
    var sum, diff := FAdd(da, cb), FSub(da, cb);
    MulScale(lm, sum, lm, sum);
    MulScale(lm, diff, lm, diff);
    ScaleOut(x1, FMul(lm, lm), FMul(diff, diff));
  }

  lemma ScaleOut(c: Elem, l: Elem, a: Elem)
    ensures FMul(c, FMul(l, a)) == FMul(l, FMul(c, a))
  {
    MulAssoc(c, l, a);
    MulComm(c, l);
    MulAssoc(l, c, a);
  }
}
