/** The 64-bit implementation: five limbs in radix 2^51 with 128-bit products. */
module Limbs51 {
  import opened Bits
  import opened Field25519

  const W: int := 0x8_0000_0000_0000

  /** The five limbs of an array. */
  datatype Five = Five(v0: int, v1: int, v2: int, v3: int, v4: int)

  function Val(f: Five): int {
    f.v0 + W * (f.v1 + W * (f.v2 + W * (f.v3 + W * f.v4)))
  }

  predicate AtMost(f: Five, bound: int) {
    0 <= f.v0 <= bound && 0 <= f.v1 <= bound && 0 <= f.v2 <= bound && 0 <= f.v3 <= bound && 0 <= f.v4 <= bound
  }

  ghost function Of(a: array<u64>): Five
    requires a.Length == 5
    reads a
  {
    Five(a[0], a[1], a[2], a[3], a[4])
  }

  ghost function OfWide(a: array<u128>): Five
    requires a.Length == 5
    reads a
  {
    Five(a[0], a[1], a[2], a[3], a[4])
  }

  ghost function F(a: array<u64>): Elem
    requires a.Length == 5
    reads a
  {
    Reduce(Val(Of(a)))
  }

  // The limb bounds of the ladder: products, sums of two products, differences of two products.
  const RED: int := 0x8_0000_0000_0000 + 0x1fff
  const SUM: int := 0x10_0000_0000_0000 + 0x400_0000
  const DIFF: int := 0x40_0000_0000_0000 + 0x8_0000_0000_0000 + 0x2000

  ghost predicate Red(a: array<u64>)
    reads a
  {
    a.Length == 5 && AtMost(Of(a), RED)
  }

  ghost predicate Sum(a: array<u64>)
    reads a
  {
    a.Length == 5 && AtMost(Of(a), SUM)
  }

  ghost predicate Diff(a: array<u64>)
    reads a
  {
    a.Length == 5 && AtMost(Of(a), DIFF)
  }

  // ----- carrying

  function Carry4(t: Five): Five {
    var t1 := t.v1 + t.v0 / W;
    var t2 := t.v2 + t1 / W;
    var t3 := t.v3 + t2 / W;
    var t4 := t.v4 + t3 / W;
    Five(t.v0 % W, t1 % W, t2 % W, t3 % W, t4)
  }

  function CarryTop(t: Five): Five { t.(v0 := t.v0 + 19 * (t.v4 / W), v4 := t.v4 % W) }

  function CarryLow(t: Five): Five { t.(v0 := t.v0 % W, v1 := t.v1 + t.v0 / W) }

  lemma CarryVals(t: Five)
    ensures Val(Carry4(t)) == Val(t)
    ensures Val(CarryTop(t)) == Val(t) - P * (t.v4 / W)
    ensures Val(CarryLow(t)) == Val(t)
  {
    Carry4Val(t);
    assert t.v4 == W * (t.v4 / W) + t.v4 % W;
    assert t.v0 == W * (t.v0 / W) + t.v0 % W;
  }

  lemma Carry4Val(t: Five)
    ensures Val(Carry4(t)) == Val(t)
  {
    var t1 := t.v1 + t.v0 / W;
    var t2 := t.v2 + t1 / W;
    var t3 := t.v3 + t2 / W;
    assert t.v0 == W * (t.v0 / W) + t.v0 % W;
    assert t1 == W * (t1 / W) + t1 % W;
    assert t2 == W * (t2 / W) + t2 % W;
    assert t3 == W * (t3 / W) + t3 % W;
  }

  /** What every multiplication does to its five wide sums. */
  function Reduced(t: Five): Five { CarryLow(CarryTop(Carry4(t))) }

  lemma ReducedKeeps(t: Five)
    ensures Reduce(Val(Reduced(t))) == Reduce(Val(t))
    ensures Reduce(Val(CarryTop(Carry4(t)))) == Reduce(Val(t))
  {
    hide Val, Reduce, Carry4, CarryTop, CarryLow;
    var c := Carry4(t);
    CarryVals(t);
    CarryVals(c);
    CarryVals(CarryTop(c));
    ReduceShift(Val(t), -(c.v4 / W));
  }

  // The bound on the wide sums below which the carry out of limb 4, times 19, still fits in 64 bits.
  const TOPSUM: int := 0x6800_0000_0000_0000_0000_0000_0000
  const LOWSUM: int := 0x8_0000_0000_0000_0000_0000_0000_0000

  predicate WideOk(t: Five) {
    0 <= t.v0 <= LOWSUM && 0 <= t.v1 <= LOWSUM && 0 <= t.v2 <= LOWSUM && 0 <= t.v3 <= LOWSUM && 0 <= t.v4 <= TOPSUM
  }

  lemma WideFits(t: Five)
    requires WideOk(t)
    ensures var c := Carry4(t);
            && AtMost(c.(v4 := 0), W - 1) && 0 <= c.v4 && 19 * (c.v4 / W) + W < 0x1_0000_0000_0000_0000
    ensures AtMost(Reduced(t), RED)
  {
    var t1 := t.v1 + t.v0 / W;
    var t2 := t.v2 + t1 / W;
    var t3 := t.v3 + t2 / W;
    var c := 0x2_0000_0000_0000_0000;
    assert t1 <= LOWSUM + c && t2 <= LOWSUM + c && t3 <= LOWSUM + c;
    assert t.v4 + t3 / W <= TOPSUM + c;
  }

  // ----- multiplication

  /** The five wide sums that `fmul` accumulates while it rotates its first operand. */
  function MulWide(a: Five, b: Five): Five {
    Five(a.v0 * b.v0 + (19 * a.v4) * b.v1 + (19 * a.v3) * b.v2 + (19 * a.v2) * b.v3 + (19 * a.v1) * b.v4,
         a.v1 * b.v0 + a.v0 * b.v1 + (19 * a.v4) * b.v2 + (19 * a.v3) * b.v3 + (19 * a.v2) * b.v4,
         a.v2 * b.v0 + a.v1 * b.v1 + a.v0 * b.v2 + (19 * a.v4) * b.v3 + (19 * a.v3) * b.v4,
         a.v3 * b.v0 + a.v2 * b.v1 + a.v1 * b.v2 + a.v0 * b.v3 + (19 * a.v4) * b.v4,
         a.v4 * b.v0 + a.v3 * b.v1 + a.v2 * b.v2 + a.v1 * b.v3 + a.v0 * b.v4)
  }

  function Times(a: Five, s: int): Five { Five(a.v0 * s, a.v1 * s, a.v2 * s, a.v3 * s, a.v4 * s) }

  function Plus(a: Five, b: Five): Five { Five(a.v0 + b.v0, a.v1 + b.v1, a.v2 + b.v2, a.v3 + b.v3, a.v4 + b.v4) }

  /** `fmul_shift_reduce`: multiply by 2^51 and reduce. */
  function ShiftReduced(a: Five): Five { Five(19 * a.v4, a.v0, a.v1, a.v2, a.v3) }

  lemma TimesVal(a: Five, s: int)
    ensures Val(Times(a, s)) == Val(a) * s
  {
    Factor(a.v3, a.v4, s);
    Factor(a.v2, a.v3 + W * a.v4, s);
    Factor(a.v1, a.v2 + W * (a.v3 + W * a.v4), s);
    Factor(a.v0, a.v1 + W * (a.v2 + W * (a.v3 + W * a.v4)), s);
  }

  lemma Factor(x: int, y: int, s: int)
    ensures (x + W * y) * s == x * s + W * (y * s)
  {
  }

  lemma PlusVal(a: Five, b: Five)
    ensures Val(Plus(a, b)) == Val(a) + Val(b)
  {
  }

  lemma ShiftReducedVal(a: Five)
    ensures Val(ShiftReduced(a)) == W * Val(a) - P * a.v4
  {
  }

  // ----- the rows that `fmul` adds up, one for each limb of its second operand

  function MulRows(a: Five, s: seq<int>): Five
    decreases s
  {
    if s == [] then Five(0, 0, 0, 0, 0) else Plus(Times(a, s[0]), MulRows(ShiftReduced(a), s[1..]))
  }

  function RadixVal(s: seq<int>): int {
    if s == [] then 0 else s[0] + W * RadixVal(s[1..])
  }

  function Limbs(b: Five): seq<int> { [b.v0] + ([b.v1] + ([b.v2] + ([b.v3] + ([b.v4] + [])))) }

  /** The rows stand for the product of the operands, but for some multiple of p. */
  lemma {:induction false} MulRowsOver(a: Five, s: seq<int>) returns (k: int)
    ensures Val(MulRows(a, s)) == Val(a) * RadixVal(s) + P * k
    decreases s
  {
    hide Val, Times, Plus, ShiftReduced;
    k := 0;
    if s == [] {
      NoRows(a);
    } else {
      var d := ShiftReduced(a);
      k := MulRowsOver(d, s[1..]);
      PlusVal(Times(a, s[0]), MulRows(d, s[1..]));
      TimesVal(a, s[0]);
      ShiftReducedVal(a);
      ShiftedRow(Val(a), Val(d), a.v4, s[0], RadixVal(s[1..]));
      k := k - a.v4 * RadixVal(s[1..]);
    }
  }

  lemma NoRows(a: Five)
    ensures MulRows(a, []) == Five(0, 0, 0, 0, 0) && Val(Five(0, 0, 0, 0, 0)) == 0 && RadixVal([]) == 0
  {
  }

  lemma ShiftedRow(v: int, w: int, k: int, x: int, r: int)
    requires w == W * v - P * k
    ensures v * x + w * r == v * (x + W * r) - P * (k * r)
  {
    assert w * r == W * v * r - P * k * r;
  }

  lemma RowFirst(a: Five, x: int, s: seq<int>)
    ensures MulRows(a, [x] + s) == Plus(Times(a, x), MulRows(ShiftReduced(a), s))
    ensures RadixVal([x] + s) == x + W * RadixVal(s)
  {
    assert ([x] + s)[1..] == s;
  }

  lemma MulWideRows(a: Five, b: Five)
    ensures MulWide(a, b) == MulRows(a, Limbs(b))
  {
    hide MulWide, Times, ShiftReduced, MulRows;
    var a1 := ShiftReduced(a);
    var a2 := ShiftReduced(a1);
    var a3 := ShiftReduced(a2);
    MulWideIsSum(a, b);
    var s4 := [b.v4] + [];
    var s3 := [b.v3] + s4;
    var s2 := [b.v2] + s3;
    RowFirst(a, b.v0, [b.v1] + s2);
    RowFirst(a1, b.v1, s2);
    RowFirst(a2, b.v2, s3);
    RowFirst(a3, b.v3, s4);
    RowFirst(ShiftReduced(a3), b.v4, []);
    NoRows(ShiftReduced(ShiftReduced(a3)));
  }

  lemma LimbsVal(b: Five)
    ensures RadixVal(Limbs(b)) == Val(b)
  {
    hide RadixVal;
    var s4 := [b.v4] + [];
    var s3 := [b.v3] + s4;
    var s2 := [b.v2] + s3;
    RowFirst(b, b.v0, [b.v1] + s2);
    RowFirst(b, b.v1, s2);
    RowFirst(b, b.v2, s3);
    RowFirst(b, b.v3, s4);
    RowFirst(b, b.v4, []);
    NoRows(b);
  }

  lemma MulWideIsSum(a: Five, b: Five)
    ensures var a1 := ShiftReduced(a); var a2 := ShiftReduced(a1); var a3 := ShiftReduced(a2); var a4 := ShiftReduced(a3);
            MulWide(a, b) == Plus(Plus(Plus(Plus(Times(a, b.v0), Times(a1, b.v1)), Times(a2, b.v2)), Times(a3, b.v3)), Times(a4, b.v4))
  {
  }

  lemma ProductAtMost(x: int, y: int, a: int, b: int)
    requires 0 <= x <= a && 0 <= y <= b
    ensures 0 <= x * y <= a * b
  {
    MulMono(0, x, y);
    MulMono(x, a, y);
    MulMono(y, b, a);
  }

  lemma TimesAtMost(f: Five, s: int, a: int, b: int)
    requires AtMost(f, a) && 0 <= s <= b
    ensures AtMost(Times(f, s), a * b)
  {
    ProductAtMost(f.v0, s, a, b);
    ProductAtMost(f.v1, s, a, b);
    ProductAtMost(f.v2, s, a, b);
    ProductAtMost(f.v3, s, a, b);
    ProductAtMost(f.v4, s, a, b);
  }

  /** The wide sums of two operands with limbs up to a and b, when the product of the bounds allows it. */
  lemma MulWideFits(f: Five, g: Five, a: int, b: int)
    requires AtMost(f, a) && AtMost(g, b)
    requires 5 * (a * b) <= TOPSUM && 77 * (a * b) <= LOWSUM
    ensures WideOk(MulWide(f, g))
  {
    TimesAtMost(f, g.v0, a, b);
    TimesAtMost(f, g.v1, a, b);
    TimesAtMost(f, g.v2, a, b);
    TimesAtMost(f, g.v3, a, b);
    TimesAtMost(f, g.v4, a, b);
    MulWideByTerms(f, g);
  }

  lemma MulWideByTerms(f: Five, g: Five)
    ensures var r0, r1, r2, r3, r4 := Times(f, g.v0), Times(f, g.v1), Times(f, g.v2), Times(f, g.v3), Times(f, g.v4);
            MulWide(f, g) == Five(
              r0.v0 + 19 * (r1.v4 + r2.v3 + r3.v2 + r4.v1), r0.v1 + r1.v0 + 19 * (r2.v4 + r3.v3 + r4.v2),
              r0.v2 + r1.v1 + r2.v0 + 19 * (r3.v4 + r4.v3), r0.v3 + r1.v2 + r2.v1 + r3.v0 + 19 * r4.v4,
              r0.v4 + r1.v3 + r2.v2 + r3.v1 + r4.v0)
  {
  }

  // ----- the source's routines on arrays

  method SumScalarMultiplication(output: array<u128>, input: array<u64>, s: u64)
    requires output.Length == input.Length == 5
    requires AtMost(Of(input), 0x1000_0000_0000_0000) && s <= 0x80_0000_0000_0000
    requires AtMost(OfWide(output), 0x100_0000_0000_0000_0000_0000_0000_0000)
    modifies output
    ensures OfWide(output) == Plus(old(OfWide(output)), Times(Of(input), s))
  {
    TimesAtMost(Of(input), s, 0x1000_0000_0000_0000, 0x80_0000_0000_0000);
    output[0] := output[0] + input[0] * s;
    output[1] := output[1] + input[1] * s;
    output[2] := output[2] + input[2] * s;
    output[3] := output[3] + input[3] * s;
    output[4] := output[4] + input[4] * s;
  }

  method ShiftReduce(output: array<u64>)
    requires output.Length == 5 && output[4] <= 0x80_0000_0000_0000
    modifies output
    ensures Of(output) == ShiftReduced(old(Of(output)))
  {
    var tmp := output[4];
    output[4] := output[3];
    output[3] := output[2];
    output[2] := output[1];
    output[1] := output[0];
    output[0] := 19 * tmp;
  }

  method CarryWide(tmp: array<u128>)
    requires tmp.Length == 5 && WideOk(OfWide(tmp))
    modifies tmp
    ensures OfWide(tmp) == Carry4(old(OfWide(tmp)))
  {
    hide Low, CarryInto, Carry4;
    ghost var t := OfWide(tmp);
    var t0, t1, t2, t3, t4 := tmp[0], tmp[1], tmp[2], tmp[3], tmp[4];
    tmp[0], tmp[1] := Low(t0), CarryInto(t1, t0);
    t1 := tmp[1];
    tmp[1], tmp[2] := Low(t1), CarryInto(t2, t1);
    t2 := tmp[2];
    tmp[2], tmp[3] := Low(t2), CarryInto(t3, t2);
    t3 := tmp[3];
    tmp[3], tmp[4] := Low(t3), CarryInto(t4, t3);
    Carry4Is(t, t1, t2, t3, tmp[4]);
  }

  function Low(x: u128): (r: u128)
    ensures r == x % W
  {
    x % W
  }

  lemma Carry4Is(t: Five, t1: int, t2: int, t3: int, t4: int)
    requires t1 == t.v1 + t.v0 / W && t2 == t.v2 + t1 / W && t3 == t.v3 + t2 / W && t4 == t.v4 + t3 / W
    ensures Carry4(t) == Five(t.v0 % W, t1 % W, t2 % W, t3 % W, t4)
  {
  }

  /** The next limb with the carry of the one below. */
  function CarryInto(next: u128, low: u128): (r: u128)
    requires next <= LOWSUM && low <= 2 * LOWSUM
    ensures r == next + low / W && r <= 2 * LOWSUM
  {
    next + low / W
  }

  method MulShiftReduce(output: array<u128>, input: array<u64>, input2: array<u64>)
    requires output.Length == input.Length == input2.Length == 5 && input != input2
    requires OfWide(output) == Five(0, 0, 0, 0, 0)
    requires AtMost(Of(input), DIFF) && AtMost(Of(input2), DIFF)
    modifies output, input
    ensures OfWide(output) == MulWide(old(Of(input)), Of(input2))
  {
    hide MulWide;
    ghost var a, b := Of(input), Of(input2);
    MulWideIsSum(a, b);
    PartialSums(a, b);
    SumScalarMultiplication(output, input, input2[0]);
    ShiftReduce(input);
    SumScalarMultiplication(output, input, input2[1]);
    ShiftReduce(input);
    SumScalarMultiplication(output, input, input2[2]);
    ShiftReduce(input);
    SumScalarMultiplication(output, input, input2[3]);
    ShiftReduce(input);
    SumScalarMultiplication(output, input, input2[4]);
  }

  lemma PlusAtMost(f: Five, g: Five, a: int, b: int)
    requires AtMost(f, a) && AtMost(g, b)
    ensures AtMost(Plus(f, g), a + b)
  {
  }

  lemma PartialSums(a: Five, b: Five)
    requires AtMost(a, DIFF) && AtMost(b, DIFF)
    ensures var a1 := ShiftReduced(a); var a2 := ShiftReduced(a1); var a3 := ShiftReduced(a2);
            var r0, r1, r2, r3 := Times(a, b.v0), Times(a1, b.v1), Times(a2, b.v2), Times(a3, b.v3);
            var c := 0x100_0000_0000_0000_0000_0000_0000_0000;
            && AtMost(Plus(Five(0, 0, 0, 0, 0), r0), c) && AtMost(Plus(r0, r1), c) && AtMost(Plus(Plus(r0, r1), r2), c)
            && AtMost(Plus(Plus(Plus(r0, r1), r2), r3), c)
  {
    hide Times, Plus;
    var a1 := ShiftReduced(a);
    var a2 := ShiftReduced(a1);
    var a3 := ShiftReduced(a2);
    var m, n := 0x1000_0000_0000_0000, 0x80_0000_0000_0000;
    TimesAtMost(a, b.v0, m, n);
    TimesAtMost(a1, b.v1, m, n);
    TimesAtMost(a2, b.v2, m, n);
    TimesAtMost(a3, b.v3, m, n);
    var r0, r1, r2, r3 := Times(a, b.v0), Times(a1, b.v1), Times(a2, b.v2), Times(a3, b.v3);
    PlusAtMost(Five(0, 0, 0, 0, 0), r0, 0, m * n);
    PlusAtMost(r0, r1, m * n, m * n);
    PlusAtMost(Plus(r0, r1), r2, 2 * (m * n), m * n);
    PlusAtMost(Plus(Plus(r0, r1), r2), r3, 3 * (m * n), m * n);
  }

  /** The common tail of `fmul_fmul` and `fsquare_fsquare_`. */
  method ReduceWide(output: array<u64>, t: array<u128>)
    requires output.Length == t.Length == 5 && WideOk(OfWide(t))
    modifies output, t
    ensures Of(output) == Reduced(old(OfWide(t)))
    ensures Red(output) && F(output) == Reduce(Val(old(OfWide(t))))
  {
    ghost var w := OfWide(t);
    WideFits(w);
    ReducedKeeps(w);
    FoldWide(output, t);
    var i0, i1 := output[0], output[1];
    output[0] := i0 % W;
    output[1] := i1 + i0 / W;
  }

  method FoldWide(output: array<u64>, t: array<u128>)
    requires output.Length == t.Length == 5 && WideOk(OfWide(t))
    modifies output, t
    ensures Of(output) == CarryTop(Carry4(old(OfWide(t))))
  {
    hide Carry4;
    WideFits(OfWide(t));
    CarryWide(t);
    var b4, b0 := t[4], t[0];
    t[4] := b4 % W;
    var top: u64 := b4 / W;
    t[0] := b0 + 19 * top;
    output[0], output[1], output[2], output[3], output[4] := t[0], t[1], t[2], t[3], t[4];
  }

  method FMulArrays(output: array<u64>, input: array<u64>, input2: array<u64>)
    requires output.Length == 5 && Sum(input) && Diff(input2)
    modifies output
    ensures Red(output) && F(output) == FMul(old(F(input)), old(F(input2)))
    ensures Of(output) == Reduced(MulWide(old(Of(input)), old(Of(input2))))
  {
    hide MulWide, Reduced, Reduce, Val, FMul;
    ghost var a, b := Of(input), Of(input2);
    var tmp := new u64[5];
    tmp[0], tmp[1], tmp[2], tmp[3], tmp[4] := input[0], input[1], input[2], input[3], input[4];
    var t := new u128[5](_ => 0);
    MulShiftReduce(t, tmp, input2);
    MulWideFits(a, b, SUM, DIFF);
    MulWideRows(a, b);
    LimbsVal(b);
    ghost var k := MulRowsOver(a, Limbs(b));
    ReduceShift(Val(a) * Val(b), k);
    ReduceMul(Val(a), Val(b));
    ReduceWide(output, t);
  }

  /** The five sums of `fsquare_fsquare__`, with its doubled and scaled limbs. */
  function SquareWide(r: Five): Five {
    var d0, d1, d2, d419 := r.v0 * 2, r.v1 * 2, r.v2 * 2 * 19, r.v4 * 19;
    var d4 := d419 * 2;
    Five(r.v0 * r.v0 + d4 * r.v1 + d2 * r.v3,
         d0 * r.v1 + d4 * r.v2 + (r.v3 * 19) * r.v3,
         d0 * r.v2 + r.v1 * r.v1 + d4 * r.v3,
         d0 * r.v3 + d1 * r.v2 + r.v4 * d419,
         d0 * r.v4 + d1 * r.v3 + r.v2 * r.v2)
  }

  /** Squaring produces the very sums of multiplying a number by itself. */
  lemma SquareIsProduct(r: Five)
    ensures SquareWide(r) == MulWide(r, r)
  {
    hide MulWide;
    MulWideByTerms(r, r);
    Scaled(38, r.v4, r.v1);
    Scaled(38, r.v2, r.v3);
    Scaled(2, r.v0, r.v1);
    Scaled(38, r.v4, r.v2);
    Scaled(19, r.v3, r.v3);
    Scaled(2, r.v0, r.v2);
    Scaled(38, r.v4, r.v3);
    Scaled(2, r.v0, r.v3);
    Scaled(2, r.v1, r.v2);
    Scaled(19, r.v4, r.v4);
    Scaled(2, r.v0, r.v4);
    Scaled(2, r.v1, r.v3);
  }

  lemma Scaled(c: int, x: int, y: int)
    ensures (x * c) * y == c * (x * y) && y * (x * c) == c * (x * y) && x * y == y * x
  {
  }

  method FSquare(tmp: array<u128>, output: array<u64>)
    requires tmp.Length == 5 && Diff(output)
    modifies tmp, output
    ensures Red(output) && F(output) == FMul(old(F(output)), old(F(output)))
    ensures Of(output) == Reduced(MulWide(old(Of(output)), old(Of(output))))
  {
    hide MulWide, Reduced, Reduce, Val, FMul;
    ghost var a := Of(output);
    MulWideFits(a, a, DIFF, DIFF);
    SquareIsProduct(a);
    MulWideRows(a, a);
    LimbsVal(a);
    ghost var k := MulRowsOver(a, Limbs(a));
    ReduceShift(Val(a) * Val(a), k);
    ReduceMul(Val(a), Val(a));
    SquareSums(tmp, output);
    ReduceWide(output, tmp);
  }

  method SquareSums(tmp: array<u128>, output: array<u64>)
    requires tmp.Length == 5 && Diff(output) && WideOk(SquareWide(Of(output)))
    modifies tmp
    ensures OfWide(tmp) == SquareWide(Of(output))
  {
    var r0, r1, r2, r3, r4 := output[0], output[1], output[2], output[3], output[4];
    var d0: u64 := r0 * 2;
    var d1: u64 := r1 * 2;
    var d2: u64 := r2 * 2 * 19;
    var d419: u64 := r4 * 19;
    var d4: u64 := d419 * 2;
    tmp[0] := Sum3(r0, r0, d4, r1, d2, r3);
    tmp[1] := Sum3(d0, r1, d4, r2, r3 * 19, r3);
    tmp[2] := Sum3(d0, r2, r1, r1, d4, r3);
    tmp[3] := Sum3(d0, r3, d1, r2, r4, d419);
    tmp[4] := Sum3(d0, r4, d1, r3, r2, r2);
  }

  /** A sum of three 128-bit products, which never wraps for limbs of this size. */
  function Sum3(a: u64, b: u64, c: u64, d: u64, e: u64, f: u64): (r: u128)
    requires a <= 0x1000_0000_0000_0000 && b <= 0x1000_0000_0000_0000 && c <= 0x1000_0000_0000_0000
    requires d <= 0x1000_0000_0000_0000 && e <= 0x1000_0000_0000_0000 && f <= 0x1000_0000_0000_0000
  {
    ProductAtMost(a, b, 0x1000_0000_0000_0000, 0x1000_0000_0000_0000);
    ProductAtMost(c, d, 0x1000_0000_0000_0000, 0x1000_0000_0000_0000);
    ProductAtMost(e, f, 0x1000_0000_0000_0000, 0x1000_0000_0000_0000);
    WideProduct(a, b) + WideProduct(c, d) + WideProduct(e, f)
  }

  function WideProduct(a: int, b: int): int { a * b }

  /** `fsquare_fsquare_times`: n squarings, n at least 1. */
  method FSquareTimes(output: array<u64>, input: array<u64>, count: nat)
    requires output.Length == 5 && Diff(input) && count >= 1
    modifies output
    ensures Red(output) && F(output) == FPow(old(F(input)), Pow2(count))
  {
    hide MulWide, Reduced, Reduce, Val, FMul, FPow;
    ghost var x := F(input);
    var t := new u128[5];
    output[0], output[1], output[2], output[3], output[4] := input[0], input[1], input[2], input[3], input[4];
    FSquare(t, output);
    PowOfTwo(x);
    for i := 1 to count
      invariant Red(output) && F(output) == FPow(x, Pow2(i))
    {
      RedIsDiff(output);
      FSquare(t, output);
      PowAdd(x, Pow2(i), Pow2(i));
    }
  }

  lemma RedIsDiff(a: array<u64>)
    requires Red(a)
    ensures Diff(a) && Sum(a)
  {
  }

  method FSum(a: array<u64>, b: array<u64>)
    requires a != b && a.Length == 5 && AtMost(Of(a), SUM - RED) && Red(b)
    modifies a
    ensures Sum(a) && F(a) == FAdd(old(F(a)), F(b))
  {
    hide Reduce, Val, FAdd;
    ghost var x, y := Of(a), Of(b);
    a[0], a[1], a[2], a[3], a[4] := a[0] + b[0], a[1] + b[1], a[2] + b[2], a[3] + b[3], a[4] + b[4];
    SumReduces(x, y);
  }

  lemma SumReduces(x: Five, y: Five)
    ensures Reduce(Val(Plus(x, y))) == FAdd(Reduce(Val(x)), Reduce(Val(y)))
  {
    hide Reduce, Val, FAdd;
    PlusVal(x, y);
    ReduceAdd(Val(x), Val(y));
  }

  /** a := b - a, with 8p added so that no limb is negative. */
  method FDifference(a: array<u64>, b: array<u64>)
    requires a != b && Red(a) && Red(b)
    modifies a
    ensures Diff(a) && F(a) == FSub(F(b), old(F(a)))
  {
    ghost var x, y := Of(a), Of(b);
    a[0] := b[0] + 0x3fffffffffff68 - a[0];
    a[1] := b[1] + 0x3ffffffffffff8 - a[1];
    a[2] := b[2] + 0x3ffffffffffff8 - a[2];
    a[3] := b[3] + 0x3ffffffffffff8 - a[3];
    a[4] := b[4] + 0x3ffffffffffff8 - a[4];
    DifferenceReduces(x, y, Of(a));
  }

  lemma DifferenceReduces(x: Five, y: Five, r: Five)
    requires r == Five(y.v0 + 0x3fffffffffff68 - x.v0, y.v1 + 0x3ffffffffffff8 - x.v1, y.v2 + 0x3ffffffffffff8 - x.v2,
                       y.v3 + 0x3ffffffffffff8 - x.v3, y.v4 + 0x3ffffffffffff8 - x.v4)
    ensures Reduce(Val(r)) == FSub(Reduce(Val(y)), Reduce(Val(x)))
  {
    hide Reduce, FSub;
    assert Val(r) == Val(y) - Val(x) + P * 8;
    ReduceShift(Val(y) - Val(x), 8);
    ReduceSub(Val(y), Val(x));
  }

  method FScalar(output: array<u64>, b: array<u64>, s: u64)
    requires output.Length == 5 && Diff(b) && s <= 0x1_ffff
    modifies output
    ensures AtMost(Of(output), SUM - RED) && F(output) == FMul(old(F(b)), s)
  {
    hide Reduced, Reduce, Val, FMul, Times;
    ghost var x := Of(b);
    var tmp := new u128[5];
    ScalarSums(tmp, b, s);
    TimesAtMost(x, s, DIFF, 0x1_ffff);
    SmallCarries(Times(x, s));
    ReducedKeeps(Times(x, s));
    TimesVal(x, s);
    Canonical(s);
    ReduceMul(Val(x), s);
    FoldWide(output, tmp);
  }

  method ScalarSums(tmp: array<u128>, b: array<u64>, s: u64)
    requires tmp.Length == 5 && Diff(b) && s <= 0x1_ffff
    modifies tmp
    ensures OfWide(tmp) == Times(Of(b), s)
  {
    TimesAtMost(Of(b), s, DIFF, 0x1_ffff);
    tmp[0] := WideProduct(b[0], s);
    tmp[1] := WideProduct(b[1], s);
    tmp[2] := WideProduct(b[2], s);
    tmp[3] := WideProduct(b[3], s);
    tmp[4] := WideProduct(b[4], s);
  }

  lemma SmallCarries(t: Five)
    requires AtMost(t, 0x100_0000_0000_0000_0000)
    ensures AtMost(CarryTop(Carry4(t)), SUM - RED)
  {
    var t1 := t.v1 + t.v0 / W;
    var t2 := t.v2 + t1 / W;
    var t3 := t.v3 + t2 / W;
    assert 0 <= t1 / W <= 0x20_0000 && 0 <= t2 / W <= 0x20_0001 && 0 <= t3 / W <= 0x20_0001;
  }
}
