/** The 32-bit implementation's conditional swap, inversion and ladder. */
module Curve25 {
  import opened Bits
  import opened Bytes
  import opened Field25519
  import opened MixedRadix
  import opened Limbs25
  import opened Format25
  import opened Rfc7748
  import opened InversionChain
  import LE = LittleEndian

  // ----- fe_cswap

  function Limbs(t: Ten): (s: seq<u32>)
    requires Tight(t)
    ensures |s| == 10
  {
    [t.v0, t.v1, t.v2, t.v3, t.v4, t.v5, t.v6, t.v7, t.v8, t.v9]
  }

  function FromLimbs(s: seq<u32>): Ten
    requires |s| == 10
  {
    Ten(s[0], s[1], s[2], s[3], s[4], s[5], s[6], s[7], s[8], s[9])
  }

  lemma MaskedSwap32(x: u32, y: u32, mask: int)
    requires mask == 0 || mask == 0xffff_ffff
    ensures var t := And(mask, Xor(x, y));
            && 0 <= t < 0x1_0000_0000
            && Xor(x, t) == (if mask == 0 then x else y) && Xor(y, t) == (if mask == 0 then y else x)
  {
    hide And, Xor, Pow2;
    Pow2Values();
    XorNonNegative(x, y);
    XorRange(x, y, 32);
    AndMask(Xor(x, y), 32);
    AndZero(Xor(x, y));
    XorUndo(x, y);
    XorComm(x, y);
    XorUndo(y, x);
    XorZero(x);
    XorZero(y);
  }

  /** `fe_cswap` exchanges the two elements when b is 1 and leaves them when b is 0. */
  method FeCSwap(f: Ten, g: Ten, b: u32) returns (f': Ten, g': Ten)
    requires Tight(f) && Tight(g) && (b == 0 || b == 1)
    ensures b == 0 ==> f' == f && g' == g
    ensures b == 1 ==> f' == g && g' == f
  {
    hide And, Xor;
    var mask := (0 - b) % 0x1_0000_0000;
    var p, q := Limbs(f), Limbs(g);
    for i := 0 to 10
      invariant |p| == |q| == 10
      invariant forall k :: i <= k < 10 ==> p[k] == Limbs(f)[k] && q[k] == Limbs(g)[k]
      invariant forall k :: 0 <= k < i ==> p[k] == (if b == 0 then Limbs(f)[k] else Limbs(g)[k])
      invariant forall k :: 0 <= k < i ==> q[k] == (if b == 0 then Limbs(g)[k] else Limbs(f)[k])
    {
      MaskedSwap32(p[i], q[i], mask);
      var x: u32 := And(mask, Xor(p[i], q[i]));
      p := p[i := Xor(p[i], x)];
      q := q[i := Xor(q[i], x)];
    }
    f', g' := FromLimbs(p), FromLimbs(q);
  }

  // ----- fe_loose_invert

  /** n squarings: the first of u, the others in place. */
  method SqrTimes(u: Ten, n: nat) returns (t: Ten)
    requires Loose(u) && n >= 1
    ensures Tight(t) && F(t) == FPow(F(u), Pow2(n))
  {
    hide F, FMul, FPow, FeMul, FeSqr, AtMost;
    t := FeSqr(u);
    PowOfTwo(F(u));
    assert Pow2(1) == 2 * Pow2(0);
    for i := 1 to n
      invariant Tight(t) && F(t) == FPow(F(u), Pow2(i))
    {
      TightIsLoose(t);
      t := FeSqr(t);
      PowAdd(F(u), Pow2(i), Pow2(i));
    }
  }

  lemma TightIsLoose(t: Ten)
    requires Tight(t)
    ensures Loose(t)
  {
  }

  function MulTight(a: Ten, b: Ten): (r: Ten)
    requires Tight(a) && Tight(b)
    ensures Tight(r) && F(r) == FMul(F(a), F(b))
  {
    hide F, FMul, FeMul, AtMost;
    TightIsLoose(a);
    TightIsLoose(b);
    FeMul(a, b)
  }

  /** u^(2^n) * v: n squarings and a multiplication. */
  method SqrTimesMul(u: Ten, v: Ten, n: nat) returns (t: Ten)
    requires n >= 1 && Tight(u) && Tight(v)
    ensures Tight(t) && F(t) == FMul(FPow(F(u), Pow2(n)), F(v))
  {
    hide F, FMul, FPow, Pow2, AtMost, MulTight;
    TightIsLoose(u);
    t := SqrTimes(u, n);
    t := MulTight(t, v);
  }

  /** `fe_loose_invert`: the addition chain computes the power p - 2. */
  method LooseInvert(z: Ten) returns (out: Ten)
    requires Loose(z)
    ensures Tight(out) && F(out) == FPow(F(z), P - 2)
  {
    hide F, FMul, FPow, Pow2, Ones, AtMost, MulTight, FeMul;
    ghost var x := F(z);
    var t0 := SqrTimes(z, 1);
    TightIsLoose(t0);
    var t1 := SqrTimes(t0, 2);
    TightIsLoose(t1);
    MulComm(x, F(t1));
    t1 := FeMul(z, t1);
    MulComm(F(t0), F(t1));
    t0 := MulTight(t0, t1);
    TightIsLoose(t0);
    var t2 := SqrTimes(t0, 1);
    MulComm(F(t1), F(t2));
    t1 := MulTight(t1, t2);
    Start(x);
    Append(x, 5, 5);
    t1 := SqrTimesMul(t1, t1, 5);
    Append(x, 10, 10);
    t2 := SqrTimesMul(t1, t1, 10);
    Append(x, 20, 20);
    var t3 := SqrTimesMul(t2, t2, 20);
    Append(x, 40, 10);
    t1 := SqrTimesMul(t3, t1, 10);
    Append(x, 50, 50);
    t2 := SqrTimesMul(t1, t1, 50);
    Append(x, 100, 100);
    t3 := SqrTimesMul(t2, t2, 100);
    Append(x, 200, 50);
    t1 := SqrTimesMul(t3, t1, 50);
    TightIsLoose(t1);
    t1 := SqrTimes(t1, 5);
    out := MulTight(t1, t0);
    Finish(x);
  }

  // ----- the ladder

  /** One pass of the loop body of `curve25519_generic` after the swaps, on limbs. */
  method LadderStep25(x1: Ten, x2: Ten, z2: Ten, x3: Ten, z3: Ten) returns (x2': Ten, z2': Ten, x3': Ten, z3': Ten)
    requires Tight(x1) && Tight(x2) && Tight(z2) && Tight(x3) && Tight(z3)
    ensures Tight(x2') && Tight(z2') && Tight(x3') && Tight(z3')
    ensures Coords(F(x2'), F(z2'), F(x3'), F(z3')) == Step(F(x1), Coords(F(x2), F(z2), F(x3), F(z3)))
  {
    hide F, FMul, FAdd, FSub, FeMul, FeSqr, FeAdd, FeSub, FeMul121666, MulTight, AtMost;
    var tmp0l := FeSub(x3, z3);
    var tmp1l := FeSub(x2, z2);
    var x2l := FeAdd(x2, z2);
    var z2l := FeAdd(x3, z3);
    z3' := FeMul(tmp0l, x2l);
    z2' := FeMul(z2l, tmp1l);
    var tmp0 := FeSqr(tmp1l);
    var tmp1 := FeSqr(x2l);
    var x3l := FeAdd(z3', z2');
    z2l := FeSub(z3', z2');
    x2' := MulTight(tmp1, tmp0);
    tmp1l := FeSub(tmp1, tmp0);
    z2' := FeSqr(z2l);
    z3' := FeMul121666(tmp1l);
    x3' := FeSqr(x3l);
    tmp0l := FeAdd(tmp0, z3');
    MulComm(F(tmp1l), 121666);
    CurveConstantForms(F(tmp1), F(tmp0));
    z3' := MulTight(x1, z2');
    z2' := FeMul(tmp1l, tmp0l);
  }

  const ONE: Ten := Ten(1, 0, 0, 0, 0, 0, 0, 0, 0, 0)
  const NIL: Ten := Ten(0, 0, 0, 0, 0, 0, 0, 0, 0, 0)

  lemma OneAndNil()
    ensures Tight(ONE) && F(ONE) == 1 && Tight(NIL) && F(NIL) == 0
  {
  }

  /** All 255 iterations keep the limb bounds and hold the ladder state of RFC 7748, pending swap included. */
  method Ladder25(e: Key, x1: Ten) returns (x2: Ten, z2: Ten)
    requires Tight(x1)
    ensures Tight(x2) && Tight(z2)
    ensures var s := Run(LE.Decode(e), F(x1), 0); var r := CSwap(s.swap, s.coords); F(x2) == r.x2 && F(z2) == r.z2
  {
    hide F, AtMost, Step, LE.Bit, LE.Decode;
    ghost var k, u := LE.Decode(e), F(x1);
    OneAndNil();
    x2, z2 := ONE, NIL;
    var x3, z3 := x1, ONE;
    var swap: u32 := 0;
    for pos := 255 downto 0
      invariant Tight(x2) && Tight(z2) && Tight(x3) && Tight(z3) && (swap == 0 || swap == 1)
      invariant Run(k, u, pos) == Ladder(Coords(F(x2), F(z2), F(x3), F(z3)), swap == 1)
    {
      var b: u32 := e[pos / 8] / Pow2(pos % 8) % 2;
      LE.BitShift(e[pos / 8], pos % 8);
      LE.BitOfByte(e, pos);
      var flip := if swap == b then 0 else 1;
      x2, x3 := FeCSwap(x2, x3, flip);
      z2, z3 := FeCSwap(z2, z3, flip);
      swap := b;
      x2, z2, x3, z3 := LadderStep25(x1, x2, z2, x3, z3);
    }
    x2, x3 := FeCSwap(x2, x3, swap);
    z2, z3 := FeCSwap(z2, z3, swap);
  }

  /** `curve25519_generic` of the 32-bit implementation is X25519 for every scalar and every point. */
  method Generic25(scalar: Key, point: Key) returns (out: Key)
    ensures out == X25519(scalar, point)
  {
    hide F, AtMost, Run, LE.Encode, LE.Decode, FMul, FPow, DecodeU, FeFromBytes, MulTight, FeToBytes, Clamp;
    var e := ClampBytes(scalar);
    var x1 := FeFromBytes(point);
    var x2, z2 := Ladder25(e, x1);
    TightIsLoose(z2);
    z2 := LooseInvert(z2);
    x2 := MulTight(x2, z2);
    out := FeToBytes(x2);
    LE.EncodeDecode(out);
  }

  function ClampBytes(s: Key): (e: Key)
    ensures e == Clamp(s)
  {
    hide And, Or;
    ClampMasks(s[31]);
    ClampMasks(s[0]);
    s[0 := And(248, s[0])][31 := Or(64, And(127, s[31]))]
  }

  /** `curve25519_generate_public` of the 32-bit implementation. */
  method GeneratePublic25(secret: Key) returns (pub: Key)
    ensures pub == PublicKey(secret)
  {
    pub := Generic25(secret, BASE);
  }
}
