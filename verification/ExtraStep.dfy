/** The 64-bit ladder takes a step for bit 255, which clamping has cleared.  That step leaves the
    first point alone and multiplies the coordinates of the second by 4u, and the final division
    removes every such factor. */
module ExtraStep {
  import opened Bits
  import opened Bytes
  import opened Field25519
  import opened Rfc7748
  import LE = LittleEndian

  lemma TopBitClear(k: Key)
    ensures !LE.Bit(DecodeScalar(k), 255)
  {
    hide LE.Decode;
    var z := Clamp(k);
    LE.BitOfByte(z, 255);
    LE.BitShift(z[31], 7);
    assert Pow2(7) == 128;
  }

  function ExtraFactor(u: Elem): Elem { FMul(4, u) }

  /** What the extra step computes. */
  lemma FirstStep(u: Elem)
    ensures Step(u, Coords(1, 0, u, 1)) == Scale(1, ExtraFactor(u), Coords(1, 0, u, 1))
  {
    hide FAdd, FSub, FMul, Reduce;
    Units();
    DoubledSum(u);
    DoubledDifference(u);
    MulOne(ExtraFactor(u));
    MulOne(0);
    MulOne(FSub(u, 1));
    MulOne(FAdd(u, 1));
    MulZero(FAdd(1, FMul(121665, 0)));
  }

  lemma Units()
    ensures FAdd(1, 0) == 1 && FSub(1, 0) == 1 && FSub(1, 1) == 0 && FMul(1, 1) == 1
  {
  }

  lemma MulZero(a: Elem)
    ensures FMul(0, a) == 0
  {
    MulIs(0, a);
    assert 0 * a == 0;
  }

  lemma DoubledSum(u: Elem)
    ensures var s := FAdd(FSub(u, 1), FAdd(u, 1)); FMul(s, s) == FMul(ExtraFactor(u), u)
  {
    hide Reduce, FMul;
    ReduceAdd(u - 1, u + 1);
    ReduceMul(2 * u, 2 * u);
    ReduceMul(4 * u, u);
    MulIs(4, u);
    Canonical(u);
    FourSquares(u);
  }

  lemma FourSquares(u: int)
    ensures (2 * u) * (2 * u) == (4 * u) * u
  {
  }

  lemma DoubledDifference(u: Elem)
    ensures var d := FSub(FSub(u, 1), FAdd(u, 1)); FMul(u, FMul(d, d)) == ExtraFactor(u)
  {
    hide Reduce, FMul;
    ReduceSub(u - 1, u + 1);
    assert (u - 1) - (u + 1) == -2;
    ReduceMul(-2, -2);
    Canonical(4);
    MulComm(u, 4);
  }

  lemma SwapScale(bit: bool, l: Elem, m: Elem, s: Coords)
    ensures CSwap(bit, Scale(l, m, s)) == (if bit then Scale(m, l, CSwap(bit, s)) else Scale(l, m, CSwap(bit, s)))
  {
  }

  lemma PowerProducts(c: Elem, i: nat, j: nat)
    ensures var l, m := FPow(c, i), FPow(c, j);
            && FMul(FMul(l, l), FMul(l, l)) == FPow(c, i + i + (i + i))
            && FMul(FMul(l, m), FMul(l, m)) == FPow(c, i + j + (i + j))
  {
    hide FMul, FPow;
    PowAdd(c, i, i);
    PowAdd(c, i, j);
    PowAdd(c, i + i, i + i);
    PowAdd(c, i + j, i + j);
  }

  /** The plain ladder, its points scaled by powers of 4u. */
  function ScaledRun(k: nat, u: Elem, t: nat, i: nat, j: nat): Coords
    requires t <= 255
  {
    Scale(FPow(ExtraFactor(u), i), FPow(ExtraFactor(u), j), RunBothWays(k, u, t))
  }

  /** From bit 254 on, the two ladders differ by powers of 4u. */
  lemma {:induction false} StaysScaled(k: nat, u: Elem, t: nat) returns (i: nat, j: nat)
    requires t <= 255 && !LE.Bit(k, 255)
    ensures RunExtra(k, u, t) == ScaledRun(k, u, t, i, j)
    decreases 255 - t
  {
    hide Step, FMul, FPow, LE.Bit, Scale;
    var c := ExtraFactor(u);
    if t == 255 {
      FirstStep(u);
      PowOfTwo(c);
      ZeroPower(c);
      i, j := 0, 1;
    } else {
      var i', j' := StaysScaled(k, u, t + 1);
      var bit, s := LE.Bit(k, t), RunBothWays(k, u, t + 1);
      var l, m := FPow(c, i'), FPow(c, j');
      SwapScale(bit, l, m, s);
      i, j := if bit then j' else i', if bit then i' else j';
      StepScales(u, FPow(c, i), FPow(c, j), CSwap(bit, s));
      PowerProducts(c, i, j);
      i, j := i + i + (i + i), i + j + (i + j);
      SwapScale(bit, FPow(c, i), FPow(c, j), Step(u, CSwap(bit, s)));
      if bit { i, j := j, i; }
    }
  }

  lemma ZeroPower(c: Elem)
    ensures FPow(c, 0) == 1
  {
  }

  /** Division removes a common factor l whose power p - 1 is one. */
  lemma FactorCancels(l: Elem, x: Elem, z: Elem)
    requires FPow(l, P - 1) == 1
    ensures Affine(FMul(l, x), FMul(l, z)) == Affine(x, z)
  {
    hide FMul, FPow;
    PowMul(l, z, P - 2);
    MulScale(l, x, FPow(l, P - 2), FPow(z, P - 2));
    PowAdd(l, 1, P - 2);
    PowOfTwo(l);
    MulOne(Affine(x, z));
  }

  lemma PowerOfUnit(c: Elem, i: nat)
    requires FPow(c, P - 1) == 1
    ensures FPow(FPow(c, i), P - 1) == 1
  {
    hide FMul, FPow;
    PowPow(c, i, P - 1);
    PowPow(c, P - 1, i);
    assert i * (P - 1) == (P - 1) * i;
    PowOne(i);
  }

  /** The extra step does not change the result whenever (4u)^(p-1) = 1. */
  lemma ExtraStepHarmless(k: Key, u: Elem)
    requires FPow(ExtraFactor(u), P - 1) == 1
    ensures var r := RunExtra(DecodeScalar(k), u, 0); Affine(r.x2, r.z2) == ScalarMult(DecodeScalar(k), u)
  {
    hide FMul, FPow, LE.Bit, LE.Decode, Run, RunBothWays, RunExtra, Affine, Clamp;
    TopBitClear(k);
    var n := DecodeScalar(k);
    var i, j := StaysScaled(n, u, 0);
    PowerOfUnit(ExtraFactor(u), i);
    SwapDisciplinesAgree(n, u, 0);
    var s := RunBothWays(n, u, 0);
    FactorCancels(FPow(ExtraFactor(u), i), s.x2, s.z2);
  }
}
