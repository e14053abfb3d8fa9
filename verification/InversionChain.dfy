/** The exponents of the addition chain of squarings and multiplications that the 64-bit and
    32-bit implementations use for inversion. */
module InversionChain {
  import opened Bits
  import opened Field25519

  /** n one bits. */
  function Ones(n: nat): nat { Pow2(n) - 1 }

  /** n squarings and a multiplication append n one bits to the exponent. */
  lemma Append(x: Elem, k: nat, n: nat)
    ensures FMul(FPow(FPow(x, Ones(k)), Pow2(n)), FPow(x, Ones(n))) == FPow(x, Ones(k + n))
  {
    hide FMul, FPow, Pow2;
    PowPow(x, Ones(k), Pow2(n));
    Pow2Add(k, n);
    var a, b := Pow2(k), Pow2(n);
    AppendExponent(a, b);
    PowAdd(x, (a - 1) * b, b - 1);
  }

  lemma AppendExponent(a: nat, b: nat)
    requires a >= 1 && b >= 1
    ensures (a - 1) * b >= 0 && (a - 1) * b + (b - 1) == a * b - 1
  {
    assert (a - 1) * b == a * b - b;
    MulMono(1, a, b);
  }

  /** The first five multiplications reach the exponents 11 and 31. */
  lemma Start(x: Elem)
    ensures var x2 := FPow(x, Pow2(1)); var x9 := FMul(FPow(x2, Pow2(2)), x); var x11 := FMul(x9, x2);
            x11 == FPow(x, 11) && FMul(FPow(x11, Pow2(1)), x9) == FPow(x, Ones(5))
  {
    hide FMul, FPow;
    assert Pow2(1) == 2 && Pow2(2) == 4 && Pow2(5) == 32;
    PowPow(x, 2, 4);
    PowOfTwo(x);
    PowAdd(x, 8, 1);
    PowAdd(x, 9, 2);
    PowPow(x, 11, 2);
    PowAdd(x, 22, 9);
  }

  /** The last step: 2^255 - 21 = p - 2. */
  lemma Finish(x: Elem)
    ensures FMul(FPow(FPow(x, Ones(250)), Pow2(5)), FPow(x, 11)) == FPow(x, P - 2)
  {
    hide FMul, FPow, Ones;
    var n := 250;
    TwoTo250(n);
    OnesValue(n);
    assert Pow2(5) == 32;
    PowPow(x, Ones(n), 32);
    PowAdd(x, Ones(n) * 32, 11);
  }

  lemma OnesValue(n: nat)
    ensures Ones(n) == Pow2(n) - 1
  {
  }
}
