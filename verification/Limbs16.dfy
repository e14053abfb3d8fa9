/** The embeddable library's public-key generation: field elements are arrays of sixteen
    signed 64-bit limbs in radix 2^16. */
module Limbs16 {
  import opened Bits
  import opened Bytes
  import opened Field25519
  import opened Rfc7748
  import LE = LittleEndian

  // ----- what an array of limbs stands for

  function Val(s: seq<int>): int {
    if s == [] then 0 else s[0] + 0x1_0000 * Val(s[1..])
  }

  ghost function F(a: array<i64>): Elem
    reads a
  {
    Reduce(Val(a[..]))
  }

  predicate TightLimbs(s: seq<int>) {
    |s| == 16 && -38 <= s[0] <= 65573 && forall i :: 1 <= i < 16 ==> 0 <= s[i] <= 65535
  }

  predicate Within(s: seq<int>, bound: int) {
    |s| == 16 && forall i :: 0 <= i < 16 ==> -bound <= s[i] <= bound
  }

  /** The bound that every multiplication establishes. */
  ghost predicate Tight(a: array<i64>)
    reads a
  {
    a.Length == 16 && TightLimbs(a[..])
  }

  /** The bound that every multiplication accepts. */
  ghost predicate Loose(a: array<i64>)
    reads a
  {
    a.Length == 16 && Within(a[..], 0x400_0000)
  }

  /** x * 2^(16 n). */
  function Shift(n: nat, x: int): int {
    if n == 0 then x else 0x1_0000 * Shift(n - 1, x)
  }

  lemma {:induction false} ShiftAdd(n: nat, x: int, y: int)
    ensures Shift(n, x + y) == Shift(n, x) + Shift(n, y)
  {
    if n > 0 { ShiftAdd(n - 1, x, y); }
  }

  lemma {:induction false} ShiftShift(m: nat, n: nat, x: int)
    ensures Shift(m, Shift(n, x)) == Shift(m + n, x)
  {
    if m > 0 { ShiftShift(m - 1, n, x); }
  }

  lemma {:induction false} ShiftMul(n: nat, x: int, y: int)
    ensures Shift(n, x * y) == x * Shift(n, y)
  {
    if n > 0 {
      ShiftMul(n - 1, x, y);
      var w := Shift(n - 1, y);
      assert 0x1_0000 * (x * w) == x * (0x1_0000 * w);
    }
  }

  lemma {:induction false} ValSplit(s: seq<int>, i: nat)
    requires i <= |s|
    ensures Val(s) == Val(s[..i]) + Shift(i, Val(s[i..]))
  {
    if i == 0 {
      assert s[..0] == [] && s[0..] == s;
    } else {
      ValSplit(s[1..], i - 1);
      assert s[..i][1..] == s[1..][..i - 1];
      assert s[1..][i - 1..] == s[i..];
    }
  }

  lemma ValSnoc(s: seq<int>, i: nat)
    requires i < |s|
    ensures Val(s[..i + 1]) == Val(s[..i]) + Shift(i, s[i])
  {
    ValSplit(s[..i + 1], i);
    assert s[..i + 1][..i] == s[..i];
    assert s[..i + 1][i..] == [s[i]];
    assert Val([s[i]]) == s[i];
  }

  lemma {:induction false} ValUpdate(s: seq<int>, k: nat, d: int)
    requires k < |s|
    ensures Val(s[k := s[k] + d]) == Val(s) + Shift(k, d)
  {
    var u := s[k := s[k] + d];
    if k > 0 {
      assert u[1..] == s[1..][k - 1 := s[1..][k - 1] + d];
      ValUpdate(s[1..], k - 1, d);
    } else {
      assert u[1..] == s[1..];
    }
  }

  // ----- carrying

  /** The carry into limb i. */
  function CarryIn(s: seq<int>, i: nat): int
    requires i <= |s|
  {
    if i == 0 then 0 else (s[i - 1] + CarryIn(s, i - 1)) / 0x1_0000
  }

  function Digit(s: seq<int>, i: nat): int
    requires i < |s|
  {
    (s[i] + CarryIn(s, i)) % 0x1_0000
  }

  /** One pass of `carry`: the carry out of the top limb returns to limb 0, times 38. */
  predicate Carried(s: seq<int>, r: seq<int>) {
    && |s| == |r| == 16
    && r[0] == Digit(s, 0) + 38 * CarryIn(s, |s|)
    && forall i :: 1 <= i < 16 ==> r[i] == Digit(s, i)
  }

  lemma {:induction false} CarryBound(s: seq<int>, i: nat, bound: int)
    requires bound >= 0 && i <= |s|
    requires forall j :: 0 <= j < i ==> -0xffff * bound <= s[j] <= 0xffff * bound
    ensures -bound - 1 <= CarryIn(s, i) <= bound
  {
    if i > 0 { CarryBound(s, i - 1, bound); }
  }

  lemma {:induction false} DigitsVal(s: seq<int>, r: seq<int>, i: nat)
    requires i <= |s| == |r|
    requires forall j :: 0 <= j < i ==> r[j] == Digit(s, j)
    ensures Val(s[..i]) == Val(r[..i]) + Shift(i, CarryIn(s, i))
  {
    if i == 0 {
      assert s[..0] == [] && r[..0] == [];
    } else {
      var k := i - 1;
      DigitsVal(s, r, k);
      ValSnoc(s, k);
      ValSnoc(r, k);
      var c, n := CarryIn(s, k), CarryIn(s, i);
      assert s[k] + c == r[k] + 0x1_0000 * n;
      ShiftAdd(k, s[k], c);
      ShiftAdd(k, r[k], 0x1_0000 * n);
      ShiftShift(k, 1, n);
    }
  }

  lemma ShiftTop(x: int)
    ensures Shift(16, x) == (2 * P + 38) * x
  {
    ShiftShift(8, 8, x);
    ShiftShift(4, 4, x);
    ShiftShift(4, 4, Shift(8, x));
    ShiftFour(x);
    ShiftFour(Shift(4, x));
    ShiftFour(Shift(8, x));
    ShiftFour(Shift(4, Shift(8, x)));
  }

  lemma ShiftFour(x: int)
    ensures Shift(4, x) == 0x1_0000_0000_0000_0000 * x
  {
    assert Shift(3, x) == 0x1_0000 * Shift(2, x);
    assert Shift(1, x) == 0x1_0000 * x;
  }

  lemma CarriedVal(s: seq<int>, r: seq<int>)
    requires Carried(s, r)
    ensures Val(r) == Val(s) - 2 * P * CarryIn(s, |s|)
  {
    var c := CarryIn(s, |s|);
    var d := r[0 := r[0] + -38 * c];
    DigitsVal(s, d, 16);
    assert s[..16] == s && d[..16] == d;
    ValUpdate(r, 0, -38 * c);
    ShiftTop(c);
  }

  /** `carry` preserves the field element. */
  lemma CarriedReduces(s: seq<int>, r: seq<int>)
    requires Carried(s, r)
    ensures Reduce(Val(r)) == Reduce(Val(s))
  {
    hide Carried, Val, Reduce, CarryIn;
    CarriedVal(s, r);
    var c := CarryIn(s, |s|);
    ReduceShift(Val(s), -2 * c);
  }

  lemma NoCarry(s: seq<int>)
    ensures CarryIn(s, 0) == 0
  {
  }

  lemma CarryStep(s: seq<int>, i: nat, x: int)
    requires i < |s| && Within(s, 0x4000_0000_0000_0000) && x == s[i] + CarryIn(s, i)
    ensures x / 0x1_0000 == CarryIn(s, i + 1) && x % 0x1_0000 == Digit(s, i)
    ensures -0x4000_4000_4002 <= x / 0x1_0000 <= 0x4000_4000_4001
  {
    CarryBound(s, i + 1, 0x4000_4000_4001);
  }

  method Carry(o: array<i64>)
    requires o.Length == 16 && Within(o[..], 0x4000_0000_0000_0000)
    modifies o
    ensures Carried(old(o[..]), o[..])
  {
    hide CarryIn, Digit;
    ghost var s := o[..];
    NoCarry(s);
    for i := 0 to 16
      invariant forall k :: i < k < 16 ==> o[k] == s[k]
      invariant 0 < i < 16 ==> o[0] == Digit(s, 0) && 0 <= o[0] <= 0xffff
      invariant i == 16 ==> o[0] == Digit(s, 0) + 38 * CarryIn(s, |s|)
      invariant forall k :: 0 < k < i ==> o[k] == Digit(s, k)
      invariant i < 16 ==> o[i] == s[i] + CarryIn(s, i)
    {
      CarryStep(s, i, o[i]);
      var c: i64 := o[i] / 0x1_0000;
      if i == 15 {
        o[0] := o[0] + 38 * c;
      } else {
        o[i + 1] := o[i + 1] + c;
      }
      o[i] := o[i] % 0x1_0000;
    }
  }

  // ----- limb bounds after one, two and three passes

  predicate SemiTight(s: seq<int>) {
    |s| == 16 && -0x20_0000_0000_0000 <= s[0] <= 0x20_0000_0000_0000 && forall i :: 1 <= i < 16 ==> 0 <= s[i] <= 65535
  }

  predicate Canonical16(s: seq<int>) {
    |s| == 16 && forall i :: 0 <= i < 16 ==> 0 <= s[i] <= 65535
  }

  lemma FirstPass(s: seq<int>, r: seq<int>)
    requires Within(s, 0x4000_0000_0000_0000) && Carried(s, r)
    ensures SemiTight(r)
  {
    CarryBound(s, |s|, 0x4000_4000_4001);
  }

  lemma {:induction false} CarriesSettle(s: seq<int>, i: nat)
    requires SemiTight(s) && 4 <= i <= 16
    ensures -1 <= CarryIn(s, i) <= 1
  {
    if i == 4 {
      assert -0x20_0000_0000 <= CarryIn(s, 1) <= 0x20_0000_0000;
      assert -0x20_0001 <= CarryIn(s, 2) <= 0x20_0001;
      assert -0x22 <= CarryIn(s, 3) <= 0x22;
    } else {
      CarriesSettle(s, i - 1);
    }
  }

  lemma SecondPass(s: seq<int>, r: seq<int>)
    requires SemiTight(s) && Carried(s, r)
    ensures TightLimbs(r)
  {
    CarriesSettle(s, |s|);
  }

  /** With tight limbs a carry survives to the top only if it was there at the bottom. */
  lemma {:induction false} CarryChain(s: seq<int>, i: nat)
    requires TightLimbs(s) && 1 <= i <= 16
    ensures -1 <= CarryIn(s, i) <= 1 && (CarryIn(s, i) == 0 || CarryIn(s, i) == CarryIn(s, 1))
  {
    if i == 1 {
      assert CarryIn(s, 1) == s[0] / 0x1_0000;
    } else {
      CarryChain(s, i - 1);
    }
  }

  lemma ThirdPass(s: seq<int>, r: seq<int>)
    requires TightLimbs(s) && Carried(s, r)
    ensures Canonical16(r)
  {
    CarryChain(s, |s|);
    assert CarryIn(s, 1) == s[0] / 0x1_0000;
  }

  // ----- the field operations

  method CSwap16(p: array<i64>, q: array<i64>, b: int)
    requires p != q && p.Length == q.Length == 16 && (b == 0 || b == 1)
    modifies p, q
    ensures b == 0 ==> p[..] == old(p[..]) && q[..] == old(q[..])
    ensures b == 1 ==> p[..] == old(q[..]) && q[..] == old(p[..])
    ensures F(p) == (if b == 1 then old(F(q)) else old(F(p)))
    ensures F(q) == (if b == 1 then old(F(p)) else old(F(q)))
    ensures old(Tight(p) && Tight(q)) ==> Tight(p) && Tight(q)
  {
    var c: i64 := -1 - (b - 1);
    for i := 0 to 16
      invariant forall k :: i <= k < 16 ==> p[k] == old(p[k]) && q[k] == old(q[k])
      invariant forall k :: 0 <= k < i ==> p[k] == (if b == 1 then old(q[k]) else old(p[k]))
      invariant forall k :: 0 <= k < i ==> q[k] == (if b == 1 then old(p[k]) else old(q[k]))
    {
      MaskedSwap(p[i], q[i], c);
      var t: i64 := And(c, Xor(p[i], q[i]));
      p[i] := Xor(p[i], t);
      q[i] := Xor(q[i], t);
    }
    assert p[..] == (if b == 1 then old(q[..]) else old(p[..]));
    assert q[..] == (if b == 1 then old(p[..]) else old(q[..]));
  }

  lemma MaskedSwap(x: i64, y: i64, c: int)
    requires c == 0 || c == -1
    ensures var t := And(c, Xor(x, y));
            && -0x8000_0000_0000_0000 <= t < 0x8000_0000_0000_0000
            && Xor(x, t) == (if c == 0 then x else y) && Xor(y, t) == (if c == 0 then y else x)
  {
    Pow2Values();
    XorRange(x, y, 63);
    XorUndo(x, y);
    XorComm(x, y);
    XorUndo(y, x);
    XorZero(x);
    XorZero(y);
  }

  lemma {:induction false} ValSum(a: seq<int>, b: seq<int>, r: seq<int>)
    requires |a| == |b| == |r|
    ensures (forall i :: 0 <= i < |r| ==> r[i] == a[i] + b[i]) ==> Val(r) == Val(a) + Val(b)
    ensures (forall i :: 0 <= i < |r| ==> r[i] == a[i] - b[i]) ==> Val(r) == Val(a) - Val(b)
  {
    if |r| > 0 { ValSum(a[1..], b[1..], r[1..]); }
  }

  method Add(o: array<i64>, a: array<i64>, b: array<i64>)
    requires o.Length == 16 && Tight(a) && Tight(b)
    modifies o
    ensures Loose(o) && F(o) == FAdd(old(F(a)), old(F(b)))
  {
    ghost var x, y := a[..], b[..];
    for i := 0 to 16
      invariant forall k :: 0 <= k < i ==> o[k] == x[k] + y[k]
      invariant forall k :: i <= k < 16 ==> a[k] == x[k] && b[k] == y[k]
    {
      o[i] := a[i] + b[i];
    }
    ValSum(x, y, o[..]);
    ReduceAdd(Val(x), Val(y));
  }

  method Subtract(o: array<i64>, a: array<i64>, b: array<i64>)
    requires o.Length == 16 && Tight(a) && Tight(b)
    modifies o
    ensures Loose(o) && F(o) == FSub(old(F(a)), old(F(b)))
  {
    ghost var x, y := a[..], b[..];
    for i := 0 to 16
      invariant forall k :: 0 <= k < i ==> o[k] == x[k] - y[k]
      invariant forall k :: i <= k < 16 ==> a[k] == x[k] && b[k] == y[k]
    {
      o[i] := a[i] - b[i];
    }
    ValSum(x, y, o[..]);
    ReduceSub(Val(x), Val(y));
  }

  // ----- multiplication

  /** t after rows 0..i of the product and j terms of row i. */
  predicate Accumulated(t: seq<int>, a: seq<int>, b: seq<int>, i: nat, j: nat)
    requires |a| == |b| == 16 && i < 16 && j <= 16
  {
    |t| == 31 && Val(t) == Val(a[..i]) * Val(b) + Shift(i, a[i] * Val(b[..j]))
  }

  lemma AccumulateTerm(t: seq<int>, a: seq<int>, b: seq<int>, i: nat, j: nat)
    requires |a| == |b| == 16 && i < 16 && j < 16 && Accumulated(t, a, b, i, j)
    ensures Accumulated(t[i + j := t[i + j] + a[i] * b[j]], a, b, i, j + 1)
  {
    var x, d := a[i], a[i] * b[j];
    ValUpdate(t, i + j, d);
    ValSnoc(b, j);
    var v, w := Val(b[..j]), Shift(j, b[j]);
    ShiftMul(j, x, b[j]);
    ShiftShift(i, j, d);
    assert x * (v + w) == x * v + x * w;
    ShiftAdd(i, x * v, x * w);
  }

  lemma AccumulateRow(t: seq<int>, a: seq<int>, b: seq<int>, i: nat)
    requires |a| == |b| == 16 && i < 16 && Accumulated(t, a, b, i, 16)
    ensures Val(t) == Val(a[..i + 1]) * Val(b)
  {
    assert b[..16] == b;
    ValSnoc(a, i);
    var v, y := Val(a[..i]), Val(b);
    ShiftMul(i, y, a[i]);
    assert y * a[i] == a[i] * y;
    hide *;
    SumTimes(v, Shift(i, a[i]), y);
  }

  lemma SumTimes(v: int, s: int, y: int)
    ensures (v + s) * y == v * y + y * s
  {
  }

  lemma StartRow(t: seq<int>, a: seq<int>, b: seq<int>, i: nat)
    requires |a| == |b| == 16 && i < 16 && |t| == 31 && Val(t) == Val(a[..i]) * Val(b)
    ensures Accumulated(t, a, b, i, 0)
  {
    assert b[..0] == [];
    ShiftMul(i, 0, 0);
  }

  const M: int := 0x10_0000_0000_0000

  /** The schoolbook product with the limbs above 2^256 folded back. */
  method Product(a: array<i64>, b: array<i64>) returns (t: array<i64>)
    requires Loose(a) && Loose(b)
    ensures fresh(t) && t.Length == 31 && Within(t[..16], 0x4000_0000_0000_0000)
    ensures Reduce(Val(t[..16])) == FMul(F(a), F(b))
  {
    hide Reduce, FMul, Val, Accumulated;
    ghost var x, y := a[..], b[..];
    t := new i64[31](_ => 0);
    ZeroVal(t[..]);
    ZeroVal(x[..0]);
    for i := 0 to 16
      invariant a[..] == x && b[..] == y
      invariant Val(t[..]) == Val(x[..i]) * Val(y)
      invariant forall k :: 0 <= k < 31 ==> -M * i <= t[k] <= M * i
    {
      StartRow(t[..], x, y, i);
      for j := 0 to 16
        invariant a[..] == x && b[..] == y
        invariant Accumulated(t[..], x, y, i, j)
        invariant forall k :: 0 <= k < 31 ==> -M * i <= t[k] <= M * i || (k < i + j && -M * (i + 1) <= t[k] <= M * (i + 1))
      {
        AccumulateTerm(t[..], x, y, i, j);
        ProductBound(a[i], b[j]);
        var term: i64 := a[i] * b[j];
        t[i + j] := t[i + j] + term;
      }
      AccumulateRow(t[..], x, y, i);
    }
    assert x[..16] == x;
    FoldTop(t, x, y);
  }

  method MultMod(o: array<i64>, a: array<i64>, b: array<i64>)
    requires o.Length == 16 && Loose(a) && Loose(b)
    modifies o
    ensures Tight(o) && F(o) == FMul(old(F(a)), old(F(b)))
  {
    var t := Product(a, b);
    ghost var s0 := t[..16];
    forall i | 0 <= i < 16 { o[i] := t[i]; }
    assert o[..] == s0;
    Carry(o);
    ghost var s1 := o[..];
    FirstPass(s0, s1);
    Carry(o);
    SecondPass(s1, o[..]);
    CarriedReduces(s0, s1);
    CarriedReduces(s1, o[..]);
    hide Reduce, Val;
  }

  lemma {:induction false} ZeroVal(s: seq<int>)
    requires forall i :: 0 <= i < |s| ==> s[i] == 0
    ensures Val(s) == 0
  {
    if s != [] { ZeroVal(s[1..]); }
  }

  lemma ProductBound(x: int, y: int)
    requires -0x400_0000 <= x <= 0x400_0000 && -0x400_0000 <= y <= 0x400_0000
    ensures -M <= x * y <= M
  {
    MulRange(x, y, 0x400_0000);
  }

  /** The limbs of weight 2^256 and above return to the bottom, times 38. */
  method FoldTop(t: array<i64>, ghost x: seq<int>, ghost y: seq<int>)
    requires t.Length == 31 && Val(t[..]) == Val(x) * Val(y)
    requires forall k :: 0 <= k < 31 ==> -M * 16 <= t[k] <= M * 16
    modifies t
    ensures Within(t[..16], 0x4000_0000_0000_0000)
    ensures Reduce(Val(t[..16])) == FMul(Reduce(Val(x)), Reduce(Val(y)))
  {
    hide Val, Reduce, FMul, Shift;
    ghost var s := t[..];
    ZeroVal(s[16..16]);
    for i := 0 to 15
      invariant forall k :: 0 <= k < i ==> -M * 16 * 39 <= t[k] <= M * 16 * 39
      invariant forall k :: i <= k < 31 ==> t[k] == s[k]
      invariant Val(t[..16]) == Val(s[..16]) + 38 * Val(s[16..16 + i])
    {
      ghost var before := t[..16];
      t[i] := t[i] + 38 * t[i + 16];
      ValUpdate(before, i, 38 * s[16 + i]);
      assert t[..16] == before[i := before[i] + 38 * s[16 + i]];
      ShiftMul(i, 38, s[16 + i]);
      ValSnoc(s[16..], i);
      assert s[16..][..i] == s[16..16 + i] && s[16..][..i + 1] == s[16..16 + i + 1];
    }
    assert s[16..31] == s[16..];
    FoldedReduces(s, t[..16]);
    ReduceMul(Val(x), Val(y));
  }

  lemma FoldedReduces(s: seq<int>, r: seq<int>)
    requires |s| == 31 && Val(r) == Val(s[..16]) + 38 * Val(s[16..])
    ensures Reduce(Val(r)) == Reduce(Val(s))
  {
    hide Val, Reduce, Shift;
    var hi := Val(s[16..]);
    ValSplit(s, 16);
    ShiftTop(hi);
    ReduceShift(Val(s), -2 * hi);
  }

  // ----- inversion

  /** The exponent reached after n rounds of `invert`. */
  function InvertExponent(n: nat): nat {
    if n == 0 then 1
    else 2 * InvertExponent(n - 1) + (if n == 250 || n == 252 then 0 else 1)
  }

  lemma {:induction false} InvertExponentOnes(n: nat)
    requires n <= 249
    ensures InvertExponent(n) == Pow2(n + 1) - 1
  {
    if n > 0 { InvertExponentOnes(n - 1); }
  }

  /** Skipping the multiplication in rounds a = 4 and a = 2 gives the exponent 2^255 - 21. */
  lemma InvertExponentIsInverse(n: nat)
    requires n == 254
    ensures InvertExponent(n) == P - 2
  {
    InvertExponentOnes(n - 5);
    InvertExponentTail(n - 5);
    TwoTo250(n - 4);
  }

  lemma InvertExponentTail(m: nat)
    requires m == 249
    ensures InvertExponent(m + 5) == 32 * InvertExponent(m) + 11
  {
    hide InvertExponent;
    InvertExponentStep(m + 1);
    InvertExponentStep(m + 2);
    InvertExponentStep(m + 3);
    InvertExponentStep(m + 4);
    InvertExponentStep(m + 5);
  }

  lemma InvertExponentStep(n: nat)
    requires n > 0
    ensures InvertExponent(n) == 2 * InvertExponent(n - 1) + (if n == 250 || n == 252 then 0 else 1)
  {
  }

  lemma TightIsLoose(a: array<i64>)
    requires Tight(a)
    ensures Loose(a)
  {
  }

  method Copy(o: array<i64>, a: array<i64>)
    requires o.Length == a.Length == 16
    modifies o
    ensures o[..] == old(a[..]) && F(o) == old(F(a))
    ensures old(Tight(a)) ==> Tight(o)
    ensures old(Loose(a)) ==> Loose(o)
  {
    forall k | 0 <= k < 16 { o[k] := a[k]; }
    assert o[..] == old(a[..]);
  }

  lemma InvertRound(x: Elem, n: nat)
    requires n > 0
    ensures var y := FPow(x, InvertExponent(n - 1));
            FPow(x, InvertExponent(n)) == if n == 250 || n == 252 then FMul(y, y) else FMul(FMul(y, y), x)
  {
    hide FMul, FPow, InvertExponent;
    InvertExponentStep(n);
    var e := InvertExponent(n - 1);
    PowAdd(x, e, e);
    PowAdd(x, e + e, 1);
    PowOfTwo(x);
  }

  method Invert(o: array<i64>, i: array<i64>)
    requires o.Length == 16 && Loose(i)
    modifies o
    ensures Tight(o) && F(o) == FPow(old(F(i)), P - 2)
  {
    hide F, Tight, FMul, Val, Reduce, FPow;
    ghost var x := F(i);
    var c := new i64[16];
    Copy(c, i);
    PowOfTwo(x);
    for a := 254 downto 0
      invariant Loose(i) && F(i) == x
      invariant Loose(c) && (a < 254 ==> Tight(c))
      invariant F(c) == FPow(x, InvertExponent(254 - a))
    {
      InvertRound(x, 254 - a);
      MultMod(c, c, c);
      TightIsLoose(c);
      if a != 2 && a != 4 {
        MultMod(c, c, i);
        TightIsLoose(c);
      }
    }
    InvertExponentIsInverse(254);
    Copy(o, c);
  }

  // ----- canonical output

  function PrimeLimb(i: nat): int {
    if i == 0 then 0xffed else if i < 15 then 0xffff else 0x7fff
  }

  function PrimeLimbs(n: nat): (s: seq<int>)
    ensures |s| == n && forall i :: 0 <= i < n ==> s[i] == PrimeLimb(i)
  {
    if n == 0 then [] else PrimeLimbs(n - 1) + [PrimeLimb(n - 1)]
  }

  lemma {:induction false} PrimeLimbsVal(n: nat)
    requires n <= 15
    ensures Val(PrimeLimbs(n)) == if n == 0 then 0 else Shift(n, 1) - 19
  {
    if n > 0 {
      var s := PrimeLimbs(n);
      PrimeLimbsVal(n - 1);
      ValSnoc(s, n - 1);
      assert s[..n] == s && s[..n - 1] == PrimeLimbs(n - 1);
      if n > 1 {
        ShiftMul(n - 1, 0xffff, 1);
      }
    }
  }

  lemma PrimeLimbsArePrime(n: nat)
    requires n == 16
    ensures Val(PrimeLimbs(n)) == P
  {
    var s := PrimeLimbs(n);
    PrimeLimbsVal(n - 1);
    ValSnoc(s, n - 1);
    assert s[..n] == s && s[..n - 1] == PrimeLimbs(n - 1);
    ShiftMul(n - 1, 0x7fff, 1);
    ShiftTop(1);
    assert Shift(n, 1) == 0x1_0000 * Shift(n - 1, 1);
  }

  lemma {:induction false} ValBounds(s: seq<int>)
    requires forall i :: 0 <= i < |s| ==> 0 <= s[i] <= 0xffff
    ensures 0 <= Val(s) < Shift(|s|, 1)
  {
    if s != [] { ValBounds(s[1..]); }
  }

  /** The difference t - p so far: limbs below i - 1 are reduced and limb i - 1 may be negative. */
  predicate Subtracting(t: seq<int>, m: seq<int>, i: nat)
  {
    && |t| == |m| == 16 && 1 <= i <= 16
    && (forall k :: 0 <= k < i - 1 ==> 0 <= m[k] <= 0xffff)
    && -0x1_0000 <= m[i - 1] <= 0xffff
    && Val(m[..i]) == Val(t[..i]) - Val(PrimeLimbs(i))
  }

  function Borrow(x: int): int { (x / 0x1_0000) % 2 }

  lemma BorrowIs(x: int)
    requires -0x1_0000 <= x <= 0xffff
    ensures 0 <= Borrow(x) <= 1 && x % 0x1_0000 == x + 0x1_0000 * Borrow(x)
  {
  }

  lemma PrimeLimbsSnoc(i: nat)
    ensures PrimeLimbs(i + 1)[..i] == PrimeLimbs(i) && PrimeLimbs(i + 1)[i] == PrimeLimb(i)
  {
  }

  lemma SubtractLimb(t: seq<int>, m: seq<int>, r: seq<int>, i: nat)
    requires Canonical16(t) && i < 16 && Subtracting(t, m, i)
    requires r == m[i := t[i] - PrimeLimb(i) - Borrow(m[i - 1])][i - 1 := m[i - 1] % 0x1_0000]
    ensures Subtracting(t, r, i + 1)
  {
    hide Val, PrimeLimbs, Borrow;
    var b := Borrow(m[i - 1]);
    BorrowIs(m[i - 1]);
    PrimeLimbsSnoc(i);
    var pl := PrimeLimbs(i + 1);
    ValSnoc(t, i);
    ValSnoc(pl, i);
    assert pl[..i + 1] == pl && pl[..i] == PrimeLimbs(i);
    ValSnoc(r, i);
    ValUpdate(m[..i], i - 1, 0x1_0000 * b);
    assert r[..i] == m[..i][i - 1 := m[i - 1] + 0x1_0000 * b];
    ShiftShift(i - 1, 1, b);
    ShiftAdd(i, t[i] - pl[i] - b, b);
    ShiftAdd(i, t[i] - pl[i], pl[i]);
  }

  /** The difference is negative exactly when its top limb is. */
  lemma DifferenceSign(t: seq<int>, m: seq<int>)
    requires Canonical16(t) && Subtracting(t, m, 16)
    ensures Val(m) == Val(t) - P && (Val(m) < 0 <==> m[15] < 0)
  {
    hide Val, Shift, PrimeLimbs;
    var low, i := m[..15], 15;
    assert m[..16] == m && t[..16] == t;
    PrimeLimbsArePrime(16);
    ValSnoc(m, i);
    ValBounds(low);
    ShiftMul(i, m[15], 1);
    TopLimbSign(Val(low), Shift(i, 1), m[15]);
  }

  lemma TopLimbSign(low: int, w: int, top: int)
    requires 0 <= low < w
    ensures low + top * w < 0 <==> top < 0
  {
    if top < 0 {
      MulMono(top, -1, w);
    } else {
      MulMono(0, top, w);
    }
  }

  function SubtractOnce(v: int): int { if v >= P then v - P else v }

  method TrySubtract(t: array<i64>, m: array<i64>)
    requires t != m && t.Length == m.Length == 16 && Canonical16(t[..])
    modifies t, m
    ensures Canonical16(t[..]) && Val(t[..]) == SubtractOnce(old(Val(t[..])))
  {
    ghost var s := t[..];
    m[0] := t[0] - 0xffed;
    StartSubtract(s, m[..]);
    for i := 1 to 15
      invariant t[..] == s
      invariant Subtracting(s, m[..], i)
    {
      ghost var before := m[..];
      m[i] := t[i] - 0xffff - Borrow(m[i - 1]);
      m[i - 1] := m[i - 1] % 0x1_0000;
      SubtractLimb(s, before, m[..], i);
    }
    ghost var before := m[..];
    m[15] := t[15] - 0x7fff - Borrow(m[14]);
    var b := Borrow(m[15]);
    m[14] := m[14] % 0x1_0000;
    SubtractLimb(s, before, m[..], 15);
    DifferenceSign(s, m[..]);
    assert b == if m[15] < 0 then 1 else 0;
    CSwap16(t, m, 1 - b);
  }

  lemma StartSubtract(t: seq<int>, m: seq<int>)
    requires Canonical16(t) && |m| == 16 && m[0] == t[0] - 0xffed
    ensures Subtracting(t, m, 1)
  {
    assert m[..1] == [m[0]] && t[..1] == [t[0]] && PrimeLimbs(1) == [0xffed];
  }

  /** Two conditional subtractions bring any 256-bit number to its residue. */
  lemma TwoSubtractions(v: int)
    requires 0 <= v < 2 * P + 38
    ensures SubtractOnce(SubtractOnce(v)) == Reduce(v)
  {
  }

  function Pair(lo: int, hi: int): int { lo + 256 * hi }

  lemma {:induction false} BytesVal(t: seq<int>, o: seq<u8>)
    requires |o| == 2 * |t| && forall i :: 0 <= i < |t| ==> t[i] == Pair(o[2 * i], o[2 * i + 1])
    ensures LE.Decode(o) == Val(t)
  {
    if t != [] {
      assert t[0] == Pair(o[2 * 0], o[2 * 0 + 1]);
      forall i | 0 <= i < |t[1..]| ensures t[1..][i] == Pair(o[2..][2 * i], o[2..][2 * i + 1]) {
        assert t[i + 1] == Pair(o[2 * (i + 1)], o[2 * (i + 1) + 1]);
      }
      BytesVal(t[1..], o[2..]);
      assert o[1..][1..] == o[2..];
    }
  }

  /** The three carries at the start of `pack`. */
  method CarryThrice(t: array<i64>)
    requires t.Length == 16 && Within(t[..], 0x4000_0000_0000_0000)
    modifies t
    ensures Canonical16(t[..]) && Reduce(Val(t[..])) == old(Reduce(Val(t[..])))
  {
    hide Reduce, Val, Carried, SemiTight, TightLimbs;
    ghost var s0 := t[..];
    Carry(t);
    ghost var s1 := t[..];
    FirstPass(s0, s1);
    SemiTightIsWithin(s1);
    Carry(t);
    ghost var s2 := t[..];
    SecondPass(s1, s2);
    TightIsWithin(s2);
    Carry(t);
    ThirdPass(s2, t[..]);
    CarriedReduces(s0, s1);
    CarriedReduces(s1, s2);
    CarriedReduces(s2, t[..]);
  }

  lemma SemiTightIsWithin(s: seq<int>)
    requires SemiTight(s)
    ensures Within(s, 0x4000_0000_0000_0000)
  {
  }

  lemma TightIsWithin(s: seq<int>)
    requires TightLimbs(s)
    ensures Within(s, 0x4000_0000_0000_0000)
  {
  }

  method Pack(o: array<u8>, n: array<i64>)
    requires o.Length == 32 && n.Length == 16 && Within(n[..], 0x4000_0000_0000_0000)
    modifies o
    ensures o[..] == LE.Encode(F(n), 32)
  {
    ghost var v := F(n);
    var m, t := new i64[16], new i64[16];
    Copy(t, n);
    CarryThrice(t);
    ghost var s3 := t[..];
    ValBounds(s3);
    ShiftTop(1);
    TwoSubtractions(Val(s3));
    TrySubtract(t, m);
    TrySubtract(t, m);
    assert Val(t[..]) == v;
    WriteBytes(o, t);
    LE.EncodeDecode(o[..]);
  }

  method WriteBytes(o: array<u8>, t: array<i64>)
    requires o.Length == 32 && t.Length == 16 && Canonical16(t[..])
    modifies o
    ensures LE.Decode(o[..]) == Val(t[..])
  {
    for i := 0 to 16
      invariant forall k :: 0 <= k < i ==> t[k] == Pair(o[2 * k], o[2 * k + 1])
    {
      o[2 * i] := t[i] % 0x100;
      o[2 * i + 1] := t[i] / 0x100;
    }
    BytesVal(t[..], o[..]);
  }

  // ----- the ladder

  method Constant(low: u16, next: u16) returns (k: array<i64>)
    ensures fresh(k) && Tight(k) && Loose(k) && F(k) == Reduce(low + 0x1_0000 * next)
  {
    k := new i64[16](_ => 0);
    ZeroVal(k[..]);
    ghost var z := k[..];
    k[0] := low;
    k[1] := next;
    ValUpdate(z, 0, low);
    ValUpdate(z[0 := low], 1, next);
    assert k[..] == z[0 := z[0] + low][1 := next];
    assert Shift(1, next) == 0x1_0000 * next;
  }

  method MultConstant(o: array<i64>, a: array<i64>, low: u16, next: u16)
    requires o.Length == 16 && Loose(a)
    modifies o
    ensures Tight(o) && F(o) == FMul(Reduce(low + 0x1_0000 * next), old(F(a)))
  {
    hide F, Tight, Loose, FMul, Reduce;
    var k := Constant(low, next);
    MulComm(F(k), F(a));
    MultMod(o, a, k);
  }

  ghost predicate Distinct(s: seq<array<i64>>) {
    forall i, j :: 0 <= i < j < |s| ==> s[i] != s[j]
  }

  /** The ladder coordinates held in the four arrays a, b, c, d of the source. */
  ghost function Held(a: array<i64>, b: array<i64>, c: array<i64>, d: array<i64>): Coords
    reads a, b, c, d
  {
    Coords(F(a), F(c), F(b), F(d))
  }

  ghost predicate AllTight(a: array<i64>, b: array<i64>, c: array<i64>, d: array<i64>)
    reads a, b, c, d
  {
    Tight(a) && Tight(b) && Tight(c) && Tight(d)
  }

  /** The first eight operations of an iteration: (a, c, d, f) := (CB, DA, AA, BB). */
  method Step16Products(a: array<i64>, b: array<i64>, c: array<i64>, d: array<i64>, e: array<i64>, f: array<i64>)
    requires Distinct([a, b, c, d, e, f]) && e.Length == f.Length == 16
    requires AllTight(a, b, c, d)
    modifies a, b, c, d, e, f
    ensures Tight(a) && Tight(c) && Tight(d) && Tight(f) && b.Length == 16
    ensures var s := old(Held(a, b, c, d));
            var p, q := FAdd(s.x2, s.z2), FSub(s.x2, s.z2);
            && F(d) == FMul(p, p) && F(f) == FMul(q, q)
            && F(a) == FMul(FAdd(s.x3, s.z3), q) && F(c) == FMul(FSub(s.x3, s.z3), p)
  {
    hide F, Tight, Loose, FAdd, FSub, FMul;
    var s := [a, b, c, d, e, f];
    assert a == s[0] && b == s[1] && c == s[2] && d == s[3] && e == s[4] && f == s[5];
    TightLength(a);
    TightLength(b);
    TightLength(c);
    TightLength(d);
    Add(e, a, c);
    Subtract(a, a, c);
    Add(c, b, d);
    Subtract(b, b, d);
    MultMod(d, e, e);
    MultMod(f, a, a);
    MultMod(a, c, a);
    MultMod(c, b, e);
  }

  /** The other twelve: from the four products to the next coordinates. */
  method Step16Combine(a: array<i64>, b: array<i64>, c: array<i64>, d: array<i64>, e: array<i64>, f: array<i64>)
    requires Distinct([a, b, c, d, e, f]) && b.Length == e.Length == 16
    requires Tight(a) && Tight(c) && Tight(d) && Tight(f)
    modifies a, b, c, d, e, f
    ensures AllTight(a, b, c, d)
    ensures var (aa, bb, cb, da) := old((F(d), F(f), F(a), F(c)));
            var g, sum, diff := FSub(aa, bb), FAdd(da, cb), FSub(da, cb);
            && F(a) == FMul(aa, bb) && F(c) == FMul(g, FAdd(aa, FMul(121665, g)))
            && F(b) == FMul(sum, sum) && F(d) == FMul(9, FMul(diff, diff))
  {
    hide F, Tight, Loose, FAdd, FSub, FMul;
    var s := [a, b, c, d, e, f];
    assert a == s[0] && b == s[1] && c == s[2] && d == s[3] && e == s[4] && f == s[5];
    TightLength(a);
    TightLength(c);
    TightLength(d);
    Canonical(0xdb41 + 0x1_0000);
    Canonical(9);
    SquareOfDifference(F(c), F(a));
    AddComm(F(c), F(a));
    Add(e, a, c);
    Subtract(a, a, c);
    MultMod(b, a, a);
    Subtract(c, d, f);
    MultConstant(a, c, 0xdb41, 1);
    AddComm(F(a), F(d));
    Add(a, a, d);
    MultMod(c, c, a);
    TightIsLoose(d);
    TightIsLoose(f);
    MultMod(a, d, f);
    TightIsLoose(b);
    MultConstant(d, b, 9, 0);
    MultMod(b, e, e);
  }

  /** One iteration of the loop computes the step of RFC 7748, with the swap undone at its end. */
  method Step16(a: array<i64>, b: array<i64>, c: array<i64>, d: array<i64>, e: array<i64>, f: array<i64>, r: int)
    requires Distinct([a, b, c, d, e, f]) && e.Length == f.Length == 16 && (r == 0 || r == 1)
    requires AllTight(a, b, c, d)
    modifies a, b, c, d, e, f
    ensures AllTight(a, b, c, d)
    ensures Held(a, b, c, d) == StepBothWays(r == 1, 9, old(Held(a, b, c, d)))
  {
    hide F, Tight, FAdd, FSub, FMul;
    var s := [a, b, c, d, e, f];
    assert a == s[0] && b == s[1] && c == s[2] && d == s[3] && e == s[4] && f == s[5];
    TightLength(a);
    TightLength(b);
    TightLength(c);
    TightLength(d);
    CSwap16(a, b, r);
    CSwap16(c, d, r);
    Step16Products(a, b, c, d, e, f);
    Step16Combine(a, b, c, d, e, f);
    CSwap16(a, b, r);
    CSwap16(c, d, r);
  }

  lemma TightLength(a: array<i64>)
    requires Tight(a)
    ensures a.Length == 16
  {
  }

  method ClampKey(z: array<u8>)
    requires z.Length == 32
    modifies z
    ensures z[..] == Clamp(old(z[..]))
  {
    hide And, Or;
    ClampMasks(z[31]);
    ClampMasks(z[0]);
    z[31] := Or(64, And(127, z[31]));
    z[0] := And(248, z[0]);
    assert z[..] == Clamp(old(z[..]));
  }

  lemma KeyBit(z: seq<u8>, i: nat)
    requires i < 8 * |z|
    ensures z[i / 8] / Pow2(i % 8) % 2 == if LE.Bit(LE.Decode(z), i) then 1 else 0
  {
    hide LE.Bit, LE.Decode, Pow2;
    LE.BitShift(z[i / 8], i % 8);
    LE.BitOfByte(z, i);
  }

  /** All 255 iterations keep the limb bound and follow the ladder of RFC 7748. */
  method Ladder16(z: array<u8>) returns (x: array<i64>, w: array<i64>)
    requires z.Length == 32
    ensures fresh(x) && fresh(w) && x != w && Tight(x) && Tight(w)
    ensures var s := RunBothWays(LE.Decode(z[..]), 9, 0); F(x) == s.x2 && F(w) == s.z2
  {
    hide F, Tight, Loose, Reduce, StepBothWays, LE.Bit, LE.Decode, Pow2;
    ghost var k, key := LE.Decode(z[..]), z[..];
    var a := Constant(1, 0);
    var b := Constant(9, 0);
    var c := Constant(0, 0);
    var d := Constant(1, 0);
    var e, f := new i64[16], new i64[16];
    Canonical(1);
    Canonical(9);
    Canonical(0);
    for i := 255 downto 0
      invariant z[..] == key
      invariant AllTight(a, b, c, d)
      invariant Held(a, b, c, d) == RunBothWays(k, 9, i)
    {
      var r := z[i / 8] / Pow2(i % 8) % 2;
      KeyBit(key, i);
      Step16(a, b, c, d, e, f, r);
    }
    x, w := a, c;
  }

  /** `wg_generate_public_key` returns the public key of RFC 7748 for every private key. */
  method GeneratePublicKey(publicKey: array<u8>, privateKey: array<u8>)
    requires publicKey.Length == privateKey.Length == 32
    modifies publicKey
    ensures publicKey[..] == PublicKey(old(privateKey[..]))
  {
    hide F, Tight, Loose, FMul, FPow, Reduce, PublicKey, RunBothWays, LE.Decode, LE.Encode;
    ghost var secret: Key := privateKey[..];
    var z := new u8[32];
    forall k | 0 <= k < 32 { z[k] := privateKey[k]; }
    assert z[..] == secret;
    ClampKey(z);
    assert z[..] == Clamp(secret);
    var a, c := Ladder16(z);
    PublicKeyBothWays(secret);
    ghost var r := RunBothWays(LE.Decode(Clamp(secret)), 9, 0);
    assert F(a) == r.x2 && F(c) == r.z2;
    TightIsLoose(a);
    TightIsLoose(c);
    TightLength(a);
    TightLength(c);
    Invert(c, c);
    TightIsLoose(c);
    assert F(c) == FPow(r.z2, P - 2) && F(a) == r.x2;
    MultMod(a, a, c);
    TightIsLoose(a);
    LooseIsWithin(a);
    Pack(publicKey, a);
  }

  lemma LooseIsWithin(a: array<i64>)
    requires Loose(a)
    ensures a.Length == 16 && Within(a[..], 0x4000_0000_0000_0000)
  {
  }
}
