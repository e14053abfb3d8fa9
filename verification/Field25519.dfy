/** The field of section 4.1 of RFC 7748: the integers modulo p = 2^255 - 19. */
module Field25519 {
  import opened Bits

  const P: int := 0x7fffffff_ffffffff_ffffffff_ffffffff_ffffffff_ffffffff_ffffffff_ffffffed

  type Elem = x: int | 0 <= x < P

  /** The residue of x, by adding or subtracting p. */
  function Reduce(x: int): Elem
    decreases if x < 0 then P - x else x
  {
    if x < 0 then Reduce(x + P) else if x < P then x else Reduce(x - P)
  }

  lemma {:induction false} ReduceIsMod(x: int)
    ensures Reduce(x) == x % P
    decreases if x < 0 then P - x else x
  {
    if x < 0 {
      ReduceIsMod(x + P);
      ModShift(x, 1);
    } else if x >= P {
      ReduceIsMod(x - P);
      ModShift(x, -1);
    }
  }

  lemma ModShift(x: int, k: int)
    ensures (x + P * k) % P == x % P
  {
  }

  function FAdd(a: Elem, b: Elem): Elem { Reduce(a + b) }

  function FSub(a: Elem, b: Elem): Elem { Reduce(a - b) }

  /** The sum of b copies of a. */
  function Copies(a: nat, b: nat): nat {
    if b == 0 then 0 else a + Copies(a, b - 1)
  }

  lemma {:induction false} CopiesProduct(a: nat, b: nat)
    ensures Copies(a, b) == a * b
  {
    if b > 0 { CopiesProduct(a, b - 1); }
  }

  /** The residue of a product, which is written as a repeated sum to keep proofs about it linear. */
  function FMul(a: Elem, b: Elem): Elem { Reduce(Copies(a, b)) }

  function FPow(a: Elem, e: nat): Elem {
    if e == 0 then 1 else FMul(a, FPow(a, e - 1))
  }

  // ----- reduction is a ring homomorphism

  lemma Canonical(a: Elem)
    ensures Reduce(a) == a
  {
  }

  lemma ReduceShift(x: int, k: int)
    ensures Reduce(x + P * k) == Reduce(x)
  {
    hide Reduce;
    ReduceIsMod(x + P * k);
    ReduceIsMod(x);
    ModShift(x, k);
  }

  lemma ReduceAdd(a: int, b: int)
    ensures Reduce(a + b) == FAdd(Reduce(a), Reduce(b))
  {
    hide Reduce;
    var x := Residue(a);
    var y := Residue(b);
    ReduceShift(x as int + y as int, a / P + b / P);
  }

  lemma ReduceSub(a: int, b: int)
    ensures Reduce(a - b) == FSub(Reduce(a), Reduce(b))
  {
    hide Reduce;
    var x := Residue(a);
    var y := Residue(b);
    ReduceShift(x as int - y as int, a / P - b / P);
  }

  lemma Residue(a: int) returns (x: Elem)
    ensures x == Reduce(a) && a == x + P * (a / P)
  {
    hide Reduce;
    x := Reduce(a);
    ReduceIsMod(a);
  }

  lemma MulIs(a: Elem, b: Elem)
    ensures FMul(a, b) == Reduce(a * b)
  {
    hide Reduce, Copies;
    CopiesProduct(a, b);
  }

  lemma ReduceMul(a: int, b: int)
    ensures Reduce(a * b) == FMul(Reduce(a), Reduce(b))
  {
    hide Reduce, FMul;
    var k := MulResidues(a, b);
    MulIs(Reduce(a), Reduce(b));
    ReduceShift(Reduce(a) * Reduce(b), k);
  }

  lemma MulResidues(a: int, b: int) returns (k: int)
    ensures a * b == Reduce(a) * Reduce(b) + P * k
  {
    hide Reduce;
    var i, j := a / P, b / P;
    var x := Residue(a);
    var y := Residue(b);
    MulSplit(x, i, y, j, P);
    k := x * j + i * y + P * (i * j);
  }

  lemma MulSplit(x: int, i: int, y: int, j: int, p: int)
    ensures (x + p * i) * (y + p * j) == x * y + p * (x * j + i * y + p * (i * j))
  {
    assert (x + p * i) * (y + p * j) == x * (y + p * j) + (p * i) * (y + p * j);
    assert x * (p * j) == p * (x * j);
    assert (p * i) * (y + p * j) == p * (i * y) + p * (p * (i * j));
  }

  // ----- ring laws

  lemma AddComm(a: Elem, b: Elem)
    ensures FAdd(a, b) == FAdd(b, a)
  {
  }

  lemma MulComm(a: Elem, b: Elem)
    ensures FMul(a, b) == FMul(b, a)
  {
    hide FMul;
    MulIs(a, b);
    MulIs(b, a);
    assert a * b == b * a;
  }

  lemma MulAssoc(a: Elem, b: Elem, c: Elem)
    ensures FMul(FMul(a, b), c) == FMul(a, FMul(b, c))
  {
    hide Reduce, FMul;
    Canonical(a);
    Canonical(c);
    MulIs(a, b);
    MulIs(b, c);
    ReduceMul(a * b, c);
    ReduceMul(a, b * c);
    IntAssoc(a, b, c);
  }

  lemma IntAssoc(a: int, b: int, c: int)
    ensures (a * b) * c == a * (b * c)
  {
  }

  function PairProduct(s: Elem, a: Elem, t: Elem, b: Elem): Elem { FMul(FMul(s, a), FMul(t, b)) }

  /** Scales move out of a product. */
  lemma MulScale(s: Elem, a: Elem, t: Elem, b: Elem)
    ensures PairProduct(s, a, t, b) == PairProduct(s, t, a, b)
  {
    MulAssoc(s, a, FMul(t, b));
    MulAssoc(a, t, b);
    MulComm(a, t);
    MulAssoc(t, a, b);
    MulAssoc(s, t, FMul(a, b));
  }

  lemma Distribute(s: Elem, a: Elem, b: Elem)
    ensures FAdd(FMul(s, a), FMul(s, b)) == FMul(s, FAdd(a, b))
    ensures FSub(FMul(s, a), FMul(s, b)) == FMul(s, FSub(a, b))
  {
    hide Reduce, FMul;
    Canonical(s);
    MulIs(s, a);
    MulIs(s, b);
    ReduceMul(s, a + b);
    ReduceMul(s, a - b);
    ReduceAdd(s * a, s * b);
    ReduceSub(s * a, s * b);
    IntDistribute(s, a, b);
  }

  lemma IntDistribute(s: int, a: int, b: int)
    ensures s * (a + b) == s * a + s * b
    ensures s * (a - b) == s * a - s * b
  {
  }

  /** Squaring does not see the sign of a difference. */
  lemma SquareOfDifference(a: Elem, b: Elem)
    ensures FMul(FSub(a, b), FSub(a, b)) == FMul(FSub(b, a), FSub(b, a))
  {
    hide Reduce, FMul;
    ReduceMul(a - b, a - b);
    ReduceMul(b - a, b - a);
    NegSquare(a - b);
  }

  lemma NegSquare(d: int)
    ensures d * d == (-d) * (-d)
  {
  }

  // ----- powers

  lemma MulOne(a: Elem)
    ensures FMul(1, a) == a && FMul(a, 1) == a
  {
    hide FMul;
    MulIs(1, a);
    MulComm(1, a);
    Canonical(a);
  }

  lemma {:induction false} PowAdd(a: Elem, d: nat, e: nat)
    ensures FPow(a, d + e) == FMul(FPow(a, d), FPow(a, e))
  {
    hide FMul;
    MulOne(FPow(a, e));
    if d > 0 {
      PowAdd(a, d - 1, e);
      assert d + e - 1 == d - 1 + e;
      MulAssoc(a, FPow(a, d - 1), FPow(a, e));
    }
  }

  lemma {:induction false} PowPow(a: Elem, d: nat, e: nat)
    ensures d * e >= 0 && FPow(FPow(a, d), e) == FPow(a, d * e)
    decreases e
  {
    hide FMul;
    if e > 0 {
      PowPow(a, d, e - 1);
      assert d * e == d + d * (e - 1);
      PowAdd(a, d, d * (e - 1));
    }
  }

  lemma {:induction false} PowMul(a: Elem, b: Elem, e: nat)
    ensures FPow(FMul(a, b), e) == FMul(FPow(a, e), FPow(b, e))
  {
    hide FMul;
    MulOne(1);
    if e > 0 {
      PowMul(a, b, e - 1);
      MulScale(a, b, FPow(a, e - 1), FPow(b, e - 1));
    }
  }

  lemma {:induction false} PowOne(e: nat)
    ensures FPow(1, e) == 1
  {
    hide FMul;
    MulOne(1);
    if e > 0 { PowOne(e - 1); }
  }

  lemma TwoTo250(n: nat)
    requires n == 250
    ensures 32 * Pow2(n) == P + 19
  {
    hide Pow2;
    Pow2Values();
    Pow2Add(64, 64);
    Pow2Add(63, 64);
    Pow2Add(128, 127);
    Pow2Add(n, 5);
  }

  lemma PowOfTwo(a: Elem)
    ensures FPow(a, 1) == a && FPow(a, 2) == FMul(a, a)
  {
    hide FMul;
    MulOne(a);
    assert FPow(a, 1) == FMul(a, FPow(a, 0));
    assert FPow(a, 2) == FMul(a, FPow(a, 1));
  }
}

/** Little-endian byte strings. */
module LittleEndian {
  import opened Bits

  function Decode(s: seq<u8>): nat {
    if s == [] then 0 else s[0] + 256 * Decode(s[1..])
  }

  function Encode(v: nat, n: nat): (s: seq<u8>)
    ensures |s| == n
  {
    if n == 0 then [] else [v % 256] + Encode(v / 256, n - 1)
  }

  lemma {:induction false} DecodeBound(s: seq<u8>)
    ensures Decode(s) < Pow2(8 * |s|)
  {
    if s != [] {
      DecodeBound(s[1..]);
      Pow2Add(8, 8 * |s[1..]|);
      assert Pow2(8) == 256;
    }
  }

  /** Encoding undoes decoding, so a byte string is the only one of its length with its value. */
  lemma {:induction false} EncodeDecode(s: seq<u8>)
    ensures Encode(Decode(s), |s|) == s
  {
    if s != [] {
      EncodeDecode(s[1..]);
      ModUnique(Decode(s), 256, Decode(s[1..]), s[0]);
    }
  }

  lemma {:induction false} DecodeEncode(v: nat, n: nat)
    requires v < Pow2(8 * n)
    ensures Decode(Encode(v, n)) == v
  {
    if n > 0 {
      Pow2Add(8, 8 * (n - 1));
      assert Pow2(8) == 256;
      DecodeEncode(v / 256, n - 1);
      assert Encode(v, n)[1..] == Encode(v / 256, n - 1);
    }
  }

  lemma {:induction false} DecodeConcat(a: seq<u8>, b: seq<u8>)
    ensures Decode(a + b) == Decode(a) + Pow2(8 * |a|) * Decode(b)
  {
    if a == [] {
      assert a + b == b;
    } else {
      DecodeConcat(a[1..], b);
      assert (a + b)[1..] == a[1..] + b;
      Pow2Values();
      Pow2Add(8, 8 * |a[1..]|);
      ByteWeight(Pow2(8 * |a[1..]|), Decode(b));
    }
  }

  lemma ByteWeight(p: int, x: int)
    ensures (256 * p) * x == 256 * (p * x)
  {
  }

  /** Bit t of a number, counted from the least significant. */
  predicate Bit(v: nat, t: nat) {
    if t == 0 then v % 2 == 1 else Bit(v / 2, t - 1)
  }

  /** The shift-and-mask form of the same test. */
  lemma {:induction false} BitShift(v: nat, t: nat)
    ensures v / Pow2(t) % 2 == if Bit(v, t) then 1 else 0
  {
    if t > 0 {
      BitShift(v / 2, t - 1);
      DivHalf(v, Pow2(t - 1));
    }
  }

  lemma {:induction false} BitLow(b: nat, rest: nat, n: nat, t: nat)
    requires t < n
    ensures Bit(b + Pow2(n) * rest, t) == Bit(b, t)
    decreases n
  {
    var k := Pow2(n - 1) * rest;
    assert Pow2(n) * rest == 2 * k;
    if t > 0 {
      BitLow(b / 2, rest, n - 1, t - 1);
      assert (b + 2 * k) / 2 == b / 2 + k;
    }
  }

  lemma {:induction false} BitDrop8(v: nat, t: nat)
    requires t >= 8
    ensures Bit(v, t) == Bit(v / 256, t - 8)
  {
    BitDrop4(v, t);
    BitDrop4(v / 16, t - 4);
  }

  lemma BitDrop4(v: nat, t: nat)
    requires t >= 4
    ensures Bit(v, t) == Bit(v / 16, t - 4)
  {
    assert Bit(v, t) == Bit(v / 2, t - 1) == Bit(v / 4, t - 2) == Bit(v / 8, t - 3);
  }

  /** Bit t of the value is bit t % 8 of byte t / 8. */
  lemma {:induction false} BitOfByte(s: seq<u8>, t: nat)
    requires t < 8 * |s|
    ensures Bit(Decode(s), t) == Bit(s[t / 8], t % 8)
  {
    if t < 8 {
      assert Pow2(8) == 256;
      BitLow(s[0], Decode(s[1..]), 8, t);
    } else {
      BitDrop8(Decode(s), t);
      ModUnique(Decode(s), 256, Decode(s[1..]), s[0]);
      BitOfByte(s[1..], t - 8);
    }
  }
}
