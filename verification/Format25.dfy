/** Canonical form and byte formats of the 32-bit implementation. */
module Format25 {
  import opened Bits
  import opened Bytes
  import opened Field25519
  import opened MixedRadix
  import opened Limbs25
  import opened Rfc7748
  import LE = LittleEndian

  // ----- fe_freeze

  /** `subborrow_u26` and `subborrow_u25`: up is minus the borrow. */
  function SubBorrow(c: int, a: int, b: int, radix: int): (r: Carry)
    requires (radix == A || radix == B) && 0 <= a <= radix + radix / 8 && radix - 32 <= b < radix && 0 <= c <= 1
    ensures a - b - c == r.low + radix * r.up && 0 <= r.low < radix && -1 <= r.up <= 0
  {
    var x: u32 := (a - b - c) % 0x1_0000_0000;
    Carry(x % radix, -(x / 0x8000_0000))
  }

  /** `addcarryx_u26` and `addcarryx_u25` */
  function AddCarry(c: int, a: int, b: int, radix: int): (r: Carry)
    requires (radix == A || radix == B) && 0 <= a < radix && 0 <= b < radix && 0 <= c <= 1
    ensures a + b + c == r.low + radix * r.up && 0 <= r.low < radix && 0 <= r.up <= 1
  {
    var x: u32 := a + b + c;
    Carry(x % radix, x / radix % 2)
  }

  predicate Canonical25(t: Ten) { AtMost(t, A - 1, B - 1) }

  const PRIME: Ten := Ten(0x3ffffed, 0x1ffffff, 0x3ffffff, 0x1ffffff, 0x3ffffff, 0x1ffffff, 0x3ffffff, 0x1ffffff, 0x3ffffff, 0x1ffffff)

  /** Five steps of the borrow chain, on limbs x minus limbs p. */
  function SubFive(c: int, x0: int, x1: int, x2: int, x3: int, x4: int, p0: int, a: int, b: int): (h: Half)
    requires ((a == A && b == B) || (a == B && b == A)) && 0 <= c <= 1 && a - 32 <= p0 < a
    requires 0 <= x0 <= a + a / 8 && 0 <= x1 <= b + b / 8 && 0 <= x2 <= a + a / 8 && 0 <= x3 <= b + b / 8 && 0 <= x4 <= a + a / 8
    ensures 0 <= h.l0 < a && 0 <= h.l1 < b && 0 <= h.l2 < a && 0 <= h.l3 < b && 0 <= h.l4 < a && -1 <= h.up <= 0
  {
    hide SubBorrow;
    var r0 := SubBorrow(c, x0, p0, a);
    var r1 := SubBorrow(-r0.up, x1, b - 1, b);
    var r2 := SubBorrow(-r1.up, x2, a - 1, a);
    var r3 := SubBorrow(-r2.up, x3, b - 1, b);
    var r4 := SubBorrow(-r3.up, x4, a - 1, a);
    Half(r0.low, r1.low, r2.low, r3.low, r4.low, r4.up)
  }

  lemma SubFiveVal(c: int, x0: int, x1: int, x2: int, x3: int, x4: int, p0: int, a: int, b: int)
    requires ((a == A && b == B) || (a == B && b == A)) && 0 <= c <= 1 && a - 32 <= p0 < a
    requires 0 <= x0 <= a + a / 8 && 0 <= x1 <= b + b / 8 && 0 <= x2 <= a + a / 8 && 0 <= x3 <= b + b / 8 && 0 <= x4 <= a + a / 8
    ensures HalfVal(SubFive(c, x0, x1, x2, x3, x4, p0, a, b), a, b)
            == FiveVal(x0, x1, x2, x3, x4, a, b) - FiveVal(p0, b - 1, a - 1, b - 1, a - 1, a, b) - c
  {
    hide SubBorrow;
    if a == A {} else {}
  }

  function AddFive(c: int, x0: int, x1: int, x2: int, x3: int, x4: int, p0: int, p1: int, p2: int, a: int, b: int): (h: Half)
    requires ((a == A && b == B) || (a == B && b == A)) && 0 <= c <= 1 && 0 <= p0 < a && 0 <= p1 < b && 0 <= p2 < a
    requires 0 <= x0 < a && 0 <= x1 < b && 0 <= x2 < a && 0 <= x3 < b && 0 <= x4 < a
    ensures 0 <= h.l0 < a && 0 <= h.l1 < b && 0 <= h.l2 < a && 0 <= h.l3 < b && 0 <= h.l4 < a && 0 <= h.up <= 1
  {
    hide AddCarry;
    var r0 := AddCarry(c, x0, p0, a);
    var r1 := AddCarry(r0.up, x1, p1, b);
    var r2 := AddCarry(r1.up, x2, p2, a);
    var r3 := AddCarry(r2.up, x3, p1, b);
    var r4 := AddCarry(r3.up, x4, p2, a);
    Half(r0.low, r1.low, r2.low, r3.low, r4.low, r4.up)
  }

  lemma AddFiveVal(c: int, x0: int, x1: int, x2: int, x3: int, x4: int, p0: int, p1: int, p2: int, a: int, b: int)
    requires ((a == A && b == B) || (a == B && b == A)) && 0 <= c <= 1 && 0 <= p0 < a && 0 <= p1 < b && 0 <= p2 < a
    requires 0 <= x0 < a && 0 <= x1 < b && 0 <= x2 < a && 0 <= x3 < b && 0 <= x4 < a
    ensures HalfVal(AddFive(c, x0, x1, x2, x3, x4, p0, p1, p2, a, b), a, b)
            == FiveVal(x0, x1, x2, x3, x4, a, b) + FiveVal(p0, p1, p2, p1, p2, a, b) + c
  {
    hide AddCarry;
    if a == A {} else {}
  }

  /** `cmovznz32` */
  function CMov(t: u32, z: u32, nz: u32): int {
    var m := (if t != 0 then -1 else 0) % 0x1_0000_0000;
    Or(And(m, nz), And((-1 - m) % 0x1_0000_0000, z))
  }

  lemma CMovCorrect(t: u32, z: u32, nz: u32)
    ensures CMov(t, z, nz) == if t == 0 then z else nz
  {
    hide And, Or, Pow2;
    Pow2Values();
    AndMask(nz, 32);
    AndMask(z, 32);
    AndZero(nz);
    AndZero(z);
    OrZero(nz);
    OrNothing(z);
  }

  lemma MaskedConstant(c: u32)
    ensures And(0xffff_ffff, c) == c && And(0, c) == 0
  {
    hide And, Pow2;
    Pow2Values();
    AndMask(c, 32);
    AndZero(c);
  }

  /** t - p with borrows: limbs and the borrow out of the top. */
  function Lowered(t: Ten): (r: (Ten, int))
    requires Tight(t)
    ensures Canonical25(r.0) && -1 <= r.1 <= 0
  {
    hide SubFive;
    var lo := SubFive(0, t.v0, t.v1, t.v2, t.v3, t.v4, 0x3ffffed, A, B);
    var hi := SubFive(-lo.up, t.v5, t.v6, t.v7, t.v8, t.v9, B - 1, B, A);
    (Ten(lo.l0, lo.l1, lo.l2, lo.l3, lo.l4, hi.l0, hi.l1, hi.l2, hi.l3, hi.l4), hi.up)
  }

  lemma LoweredVal(t: Ten)
    requires Tight(t)
    ensures var r := Lowered(t); Val(r.0) == Val(t) - P - (P + 19) * r.1
  {
    hide SubFive, FiveVal, HalfVal, Val;
    var lo := SubFive(0, t.v0, t.v1, t.v2, t.v3, t.v4, 0x3ffffed, A, B);
    var hi := SubFive(-lo.up, t.v5, t.v6, t.v7, t.v8, t.v9, B - 1, B, A);
    SubFiveVal(0, t.v0, t.v1, t.v2, t.v3, t.v4, 0x3ffffed, A, B);
    SubFiveVal(-lo.up, t.v5, t.v6, t.v7, t.v8, t.v9, B - 1, B, A);
    LowerJoin(t, lo, hi);
  }

  lemma LowerJoin(t: Ten, lo: Half, hi: Half)
    requires HalfVal(lo, A, B) == FiveVal(t.v0, t.v1, t.v2, t.v3, t.v4, A, B) - FiveVal(0x3ffffed, B - 1, A - 1, B - 1, A - 1, A, B)
    requires HalfVal(hi, B, A) == FiveVal(t.v5, t.v6, t.v7, t.v8, t.v9, B, A) - FiveVal(B - 1, A - 1, B - 1, A - 1, B - 1, B, A) + lo.up
    ensures Val(Ten(lo.l0, lo.l1, lo.l2, lo.l3, lo.l4, hi.l0, hi.l1, hi.l2, hi.l3, hi.l4)) == Val(t) - P - (P + 19) * hi.up
  {
  }

  /** t + p with carries, or t itself when mask is zero. */
  function Raised(t: Ten, mask: u32): (r: (Ten, int))
    requires Canonical25(t) && (mask == 0 || mask == 0xffff_ffff)
    ensures Canonical25(r.0) && 0 <= r.1 <= 1
  {
    hide AddFive, And;
    MaskedConstant(0x3ffffed);
    MaskedConstant(0x1ffffff);
    MaskedConstant(0x3ffffff);
    var lo := AddFive(0, t.v0, t.v1, t.v2, t.v3, t.v4, And(mask, 0x3ffffed), And(mask, 0x1ffffff), And(mask, 0x3ffffff), A, B);
    var hi := AddFive(lo.up, t.v5, t.v6, t.v7, t.v8, t.v9, And(mask, 0x1ffffff), And(mask, 0x3ffffff), And(mask, 0x1ffffff), B, A);
    (Ten(lo.l0, lo.l1, lo.l2, lo.l3, lo.l4, hi.l0, hi.l1, hi.l2, hi.l3, hi.l4), hi.up)
  }

  lemma RaisedVal(t: Ten, mask: u32)
    requires Canonical25(t) && (mask == 0 || mask == 0xffff_ffff)
    ensures var r := Raised(t, mask); Val(r.0) == Val(t) + (if mask == 0 then 0 else P) - (P + 19) * r.1
  {
    hide AddFive, FiveVal, HalfVal, And, Val;
    MaskedConstant(0x3ffffed);
    MaskedConstant(0x1ffffff);
    MaskedConstant(0x3ffffff);
    var p0, p1, p2 := And(mask, 0x3ffffed), And(mask, 0x1ffffff), And(mask, 0x3ffffff);
    var lo := AddFive(0, t.v0, t.v1, t.v2, t.v3, t.v4, p0, p1, p2, A, B);
    var hi := AddFive(lo.up, t.v5, t.v6, t.v7, t.v8, t.v9, p1, p2, p1, B, A);
    AddFiveVal(0, t.v0, t.v1, t.v2, t.v3, t.v4, p0, p1, p2, A, B);
    AddFiveVal(lo.up, t.v5, t.v6, t.v7, t.v8, t.v9, p1, p2, p1, B, A);
    RaiseJoin(t, lo, hi, p0, p1, p2);
    AddedPrime(p0, p1, p2);
  }

  lemma RaiseJoin(t: Ten, lo: Half, hi: Half, p0: int, p1: int, p2: int)
    requires HalfVal(lo, A, B) == FiveVal(t.v0, t.v1, t.v2, t.v3, t.v4, A, B) + FiveVal(p0, p1, p2, p1, p2, A, B)
    requires HalfVal(hi, B, A) == FiveVal(t.v5, t.v6, t.v7, t.v8, t.v9, B, A) + FiveVal(p1, p2, p1, p2, p1, B, A) + lo.up
    ensures Val(Ten(lo.l0, lo.l1, lo.l2, lo.l3, lo.l4, hi.l0, hi.l1, hi.l2, hi.l3, hi.l4))
            == Val(t) + Val(Ten(p0, p1, p2, p1, p2, p1, p2, p1, p2, p1)) - (P + 19) * hi.up
  {
  }

  lemma AddedPrime(p0: int, p1: int, p2: int)
    ensures p0 == p1 == p2 == 0 ==> Val(Ten(p0, p1, p2, p1, p2, p1, p2, p1, p2, p1)) == 0
    ensures p0 == 0x3ffffed && p1 == 0x1ffffff && p2 == 0x3ffffff ==> Val(Ten(p0, p1, p2, p1, p2, p1, p2, p1, p2, p1)) == P
  {
  }

  lemma ValRange(t: Ten)
    ensures Canonical25(t) ==> 0 <= Val(t) < P + 19
    ensures Tight(t) ==> 0 <= Val(t) < 2 * P
  {
  }

  function Freeze(t: Ten): Ten
    requires Tight(t)
  {
    hide Lowered, Raised, CMov;
    var low := Lowered(t);
    CMovCorrect(-low.1, 0, 0xffff_ffff);
    Raised(low.0, CMov(-low.1, 0, 0xffff_ffff)).0
  }

  /** `fe_freeze` returns the representative in [0, p) of every tight element. */
  lemma FreezeIs(t: Ten)
    requires Tight(t)
    ensures Canonical25(Freeze(t)) && Val(Freeze(t)) == F(t)
  {
    hide Lowered, Raised, Val, CMov, Reduce;
    var low := Lowered(t);
    CMovCorrect(-low.1, 0, 0xffff_ffff);
    var mask: u32 := CMov(-low.1, 0, 0xffff_ffff);
    var r := Raised(low.0, mask);
    LoweredVal(t);
    RaisedVal(low.0, mask);
    ValRange(t);
    ValRange(low.0);
    ValRange(r.0);
    FreezeCases(Val(t), Val(low.0), low.1, Val(r.0), r.1);
  }

  lemma FreezeCases(v: int, l: int, borrow: int, r: int, carry: int)
    requires 0 <= v < 2 * P && l == v - P - (P + 19) * borrow && -1 <= borrow <= 0 && 0 <= carry <= 1
    requires r == l + (if borrow == 0 then 0 else P) - (P + 19) * carry && 0 <= l < P + 19 && 0 <= r < P + 19
    ensures r == Reduce(v)
  {
  }

  // ----- fe_tobytes

  /** A byte taken from inside one limb: (x >> n) as u8. */
  function Low8(x: int, k: int): u8
    requires k > 0
  {
    x / k % 0x100
  }

  predicate Spans(high: int, k: int, low: int) {
    k in {2, 4, 8, 16, 32, 64} && 0 <= high && 0 <= low < k
  }

  /** A byte that spans two limbs: low | (high << n) as u8. */
  function Mix(high: int, k: int, low: int): (b: u8)
    requires Spans(high, k, low)
    ensures b == k * (high % (0x100 / k)) + low
  {
    hide Or;
    MixIsSum(high, k, low);
    MixIsByte(high, k, low);
    Or(high * k % 0x100, low)
  }

  lemma MixIsByte(high: int, k: int, low: int)
    requires Spans(high, k, low)
    ensures 0 <= k * (high % (0x100 / k)) + low < 0x100
  {
    if k == 2 {} else if k == 4 {} else if k == 8 {} else if k == 16 {} else if k == 32 {} else {}
  }

  lemma MixIsSum(high: int, k: int, low: int)
    requires Spans(high, k, low)
    ensures Or(high * k % 0x100, low) == k * (high % (0x100 / k)) + low
  {
    hide Or, Pow2;
    var h := high % (0x100 / k);
    assert high * k % 0x100 == h * k by { MixTruncates(high, k, low); }
    ByteShifts();
    var n := if k == 2 then 1 else if k == 4 then 2 else if k == 8 then 3 else if k == 16 then 4 else if k == 32 then 5 else 6;
    OrDisjoint(h, low, n);
  }

  lemma ByteShifts()
    ensures Pow2(1) == 2 && Pow2(2) == 4 && Pow2(3) == 8 && Pow2(4) == 16 && Pow2(5) == 32 && Pow2(6) == 64
  {
  }

  lemma MixTruncates(high: int, k: int, low: int)
    requires Spans(high, k, low)
    ensures high * k % 0x100 == high % (0x100 / k) * k
  {
    assert k * (0x100 / k) == 0x100;
    TruncatedShift(high, k, 0x100 / k);
  }

  /** Peeling one byte off a limb from above or below. */
  lemma NextByte(x: nat, k: nat)
    requires k > 0
    ensures x / k == Low8(x, k) + 0x100 * (x / (k * 0x100))
    ensures x % (k * 0x100) == x % k + k * Low8(x, k) as int
  {
    DivDiv(x, k, 0x100);
  }

  /** `fe_tobytes` after freezing. */
  function ToBytes(h: Ten): (s: seq<u8>)
    requires Canonical25(h)
    ensures |s| == 32
  {
    hide Mix, Low8;
    [Low8(h.v0, 0x1), Low8(h.v0, 0x100), Low8(h.v0, 0x10000), Mix(h.v1, 0x4, h.v0 / 0x1000000),
     Low8(h.v1, 0x40), Low8(h.v1, 0x4000), Mix(h.v2, 0x8, h.v1 / 0x400000), Low8(h.v2, 0x20),
     Low8(h.v2, 0x2000), Mix(h.v3, 0x20, h.v2 / 0x200000), Low8(h.v3, 0x8), Low8(h.v3, 0x800),
     Mix(h.v4, 0x40, h.v3 / 0x80000), Low8(h.v4, 0x4), Low8(h.v4, 0x400), Low8(h.v4, 0x40000),
     Low8(h.v5, 0x1), Low8(h.v5, 0x100), Low8(h.v5, 0x10000), Mix(h.v6, 0x2, h.v5 / 0x1000000),
     Low8(h.v6, 0x80), Low8(h.v6, 0x8000), Mix(h.v7, 0x8, h.v6 / 0x800000), Low8(h.v7, 0x20),
     Low8(h.v7, 0x2000), Mix(h.v8, 0x10, h.v7 / 0x200000), Low8(h.v8, 0x10), Low8(h.v8, 0x1000),
     Mix(h.v9, 0x40, h.v8 / 0x100000), Low8(h.v9, 0x4), Low8(h.v9, 0x400), Low8(h.v9, 0x40000)]
  }

  function Quad(s: seq<u8>, i: nat): int
    requires i + 4 <= |s|
  {
    s[i] as int + 0x100 * (s[i + 1] as int) + 0x1_0000 * (s[i + 2] as int) + 0x100_0000 * (s[i + 3] as int)
  }

  lemma FirstQuad(s: seq<u8>)
    requires |s| >= 4
    ensures LE.Decode(s) == Quad(s, 0) + 0x1_0000_0000 * LE.Decode(s[4..])
  {
    assert s[1..][1..] == s[2..] && s[2..][1..] == s[3..] && s[3..][1..] == s[4..];
    assert LE.Decode(s) == s[0] as int + 256 * LE.Decode(s[1..]);
    assert LE.Decode(s[1..]) == s[1] as int + 256 * LE.Decode(s[2..]);
    assert LE.Decode(s[2..]) == s[2] as int + 256 * LE.Decode(s[3..]);
    assert LE.Decode(s[3..]) == s[3] as int + 256 * LE.Decode(s[4..]);
  }

  lemma QuadAt(s: seq<u8>, i: nat)
    requires i + 4 <= |s|
    ensures LE.Decode(s[i..]) == Quad(s, i) + 0x1_0000_0000 * LE.Decode(s[i + 4..])
  {
    hide LE.Decode;
    FirstQuad(s[i..]);
    assert s[i..][4..] == s[i + 4..];
  }

  function EightWords(a0: int, a1: int, a2: int, a3: int, a4: int, a5: int, a6: int, a7: int): int {
    var q := 0x1_0000_0000;
    a0 + q * (a1 + q * (a2 + q * (a3 + q * (a4 + q * (a5 + q * (a6 + q * a7))))))
  }

  lemma DecodeWords(s: seq<u8>)
    requires |s| == 32
    ensures LE.Decode(s) == EightWords(Quad(s, 0), Quad(s, 4), Quad(s, 8), Quad(s, 12), Quad(s, 16), Quad(s, 20), Quad(s, 24), Quad(s, 28))
  {
    hide LE.Decode, Quad;
    assert s[0..] == s;
    QuadAt(s, 0);
    QuadAt(s, 4);
    QuadAt(s, 8);
    QuadAt(s, 12);
    QuadAt(s, 16);
    QuadAt(s, 20);
    QuadAt(s, 24);
    QuadAt(s, 28);
    NoBytes(s[32..]);
  }

  lemma NoBytes(s: seq<u8>)
    requires s == []
    ensures LE.Decode(s) == 0
  {
  }

  function Word(b0: u8, b1: u8, b2: u8, b3: u8): int {
    b0 as int + 0x100 * (b1 as int) + 0x1_0000 * (b2 as int) + 0x100_0000 * (b3 as int)
  }

  lemma ToBytesQuads(h: Ten)
    requires Canonical25(h)
    ensures var s := ToBytes(h);
            && Quad(s, 0) == Word(Low8(h.v0, 0x1), Low8(h.v0, 0x100), Low8(h.v0, 0x10000), Mix(h.v1, 0x4, h.v0 / 0x1000000))
            && Quad(s, 4) == Word(Low8(h.v1, 0x40), Low8(h.v1, 0x4000), Mix(h.v2, 0x8, h.v1 / 0x400000), Low8(h.v2, 0x20))
            && Quad(s, 8) == Word(Low8(h.v2, 0x2000), Mix(h.v3, 0x20, h.v2 / 0x200000), Low8(h.v3, 0x8), Low8(h.v3, 0x800))
            && Quad(s, 12) == Word(Mix(h.v4, 0x40, h.v3 / 0x80000), Low8(h.v4, 0x4), Low8(h.v4, 0x400), Low8(h.v4, 0x40000))
            && Quad(s, 16) == Word(Low8(h.v5, 0x1), Low8(h.v5, 0x100), Low8(h.v5, 0x10000), Mix(h.v6, 0x2, h.v5 / 0x1000000))
            && Quad(s, 20) == Word(Low8(h.v6, 0x80), Low8(h.v6, 0x8000), Mix(h.v7, 0x8, h.v6 / 0x800000), Low8(h.v7, 0x20))
            && Quad(s, 24) == Word(Low8(h.v7, 0x2000), Mix(h.v8, 0x10, h.v7 / 0x200000), Low8(h.v8, 0x10), Low8(h.v8, 0x1000))
            && Quad(s, 28) == Word(Mix(h.v9, 0x40, h.v8 / 0x100000), Low8(h.v9, 0x4), Low8(h.v9, 0x400), Low8(h.v9, 0x40000))
  {
    hide Mix, Low8;
  }

  lemma Word0(h: Ten)
    requires Canonical25(h)
    ensures Word(Low8(h.v0, 0x1), Low8(h.v0, 0x100), Low8(h.v0, 0x10000), Mix(h.v1, 0x4, h.v0 / 0x1000000)) == h.v0 + 0x400_0000 * (h.v1 % 64)
  {
    hide Mix, Low8;
    NextByte(h.v0, 0x1);
    NextByte(h.v0, 0x100);
    NextByte(h.v0, 0x10000);
  }

  lemma Word1(h: Ten)
    requires Canonical25(h)
    ensures Word(Low8(h.v1, 0x40), Low8(h.v1, 0x4000), Mix(h.v2, 0x8, h.v1 / 0x400000), Low8(h.v2, 0x20)) == h.v1 / 64 + 0x8_0000 * (h.v2 % 0x2000)
  {
    hide Mix, Low8;
    NextByte(h.v1, 0x40);
    NextByte(h.v1, 0x4000);
    NextByte(h.v2, 0x20);
  }

  lemma Word2(h: Ten)
    requires Canonical25(h)
    ensures Word(Low8(h.v2, 0x2000), Mix(h.v3, 0x20, h.v2 / 0x200000), Low8(h.v3, 0x8), Low8(h.v3, 0x800)) == h.v2 / 0x2000 + 0x2000 * (h.v3 % 0x8_0000)
  {
    hide Mix, Low8;
    NextByte(h.v2, 0x2000);
    NextByte(h.v3, 0x8);
    NextByte(h.v3, 0x800);
  }

  lemma Word3(h: Ten)
    requires Canonical25(h)
    ensures Word(Mix(h.v4, 0x40, h.v3 / 0x80000), Low8(h.v4, 0x4), Low8(h.v4, 0x400), Low8(h.v4, 0x40000)) == h.v3 / 0x8_0000 + 64 * h.v4
  {
    hide Mix, Low8;
    NextByte(h.v4, 0x4);
    NextByte(h.v4, 0x400);
    NextByte(h.v4, 0x40000);
  }

  lemma Word4(h: Ten)
    requires Canonical25(h)
    ensures Word(Low8(h.v5, 0x1), Low8(h.v5, 0x100), Low8(h.v5, 0x10000), Mix(h.v6, 0x2, h.v5 / 0x1000000)) == h.v5 + 0x200_0000 * (h.v6 % 128)
  {
    hide Mix, Low8;
    NextByte(h.v5, 0x1);
    NextByte(h.v5, 0x100);
    NextByte(h.v5, 0x10000);
  }

  lemma Word5(h: Ten)
    requires Canonical25(h)
    ensures Word(Low8(h.v6, 0x80), Low8(h.v6, 0x8000), Mix(h.v7, 0x8, h.v6 / 0x800000), Low8(h.v7, 0x20)) == h.v6 / 128 + 0x8_0000 * (h.v7 % 0x2000)
  {
    hide Mix, Low8;
    NextByte(h.v6, 0x80);
    NextByte(h.v6, 0x8000);
    NextByte(h.v7, 0x20);
  }

  lemma Word6(h: Ten)
    requires Canonical25(h)
    ensures Word(Low8(h.v7, 0x2000), Mix(h.v8, 0x10, h.v7 / 0x200000), Low8(h.v8, 0x10), Low8(h.v8, 0x1000)) == h.v7 / 0x2000 + 0x1000 * (h.v8 % 0x10_0000)
  {
    hide Mix, Low8;
    NextByte(h.v7, 0x2000);
    NextByte(h.v8, 0x10);
    NextByte(h.v8, 0x1000);
  }

  lemma Word7(h: Ten)
    requires Canonical25(h)
    ensures Word(Mix(h.v9, 0x40, h.v8 / 0x100000), Low8(h.v9, 0x4), Low8(h.v9, 0x400), Low8(h.v9, 0x40000)) == h.v8 / 0x10_0000 + 64 * h.v9
  {
    hide Mix, Low8;
    NextByte(h.v9, 0x4);
    NextByte(h.v9, 0x400);
    NextByte(h.v9, 0x40000);
  }

  lemma ToBytesVal(h: Ten)
    requires Canonical25(h)
    ensures LE.Decode(ToBytes(h)) == Val(h)
  {
    hide Mix, Low8, Word, Quad, ToBytes, Val, EightWords, LE.Decode;
    DecodeWords(ToBytes(h));
    ToBytesQuads(h);
    Word0(h);
    Word1(h);
    Word2(h);
    Word3(h);
    Word4(h);
    Word5(h);
    Word6(h);
    Word7(h);
    WordsVal(h);
  }

  lemma WordsVal(h: Ten)
    requires Canonical25(h)
    ensures Val(h) == EightWords(h.v0 + 0x400_0000 * (h.v1 % 64),
                                 h.v1 / 64 + 0x8_0000 * (h.v2 % 0x2000),
                                 h.v2 / 0x2000 + 0x2000 * (h.v3 % 0x8_0000),
                                 h.v3 / 0x8_0000 + 64 * h.v4,
                                 h.v5 + 0x200_0000 * (h.v6 % 128),
                                 h.v6 / 128 + 0x8_0000 * (h.v7 % 0x2000),
                                 h.v7 / 0x2000 + 0x1000 * (h.v8 % 0x10_0000),
                                 h.v8 / 0x10_0000 + 64 * h.v9)
  {
  }

  /** `fe_tobytes` writes the unique little-endian representative in [0, p). */
  function FeToBytes(f: Ten): (s: seq<u8>)
    requires Tight(f)
    ensures |s| == 32 && LE.Decode(s) == F(f)
  {
    hide ToBytes, Freeze, LE.Decode, F;
    FreezeIs(f);
    ToBytesVal(Freeze(f));
    ToBytes(Freeze(f))
  }

  // ----- fe_frombytes

  /** Bits of two neighbouring words: low | ((high & (2^m - 1)) << n). */
  function Splice(low: int, high: int, m: nat, n: nat): int {
    Or(And(Pow2(m) - 1, high) * Pow2(n), low)
  }

  lemma SpliceIsSum(low: int, high: int, m: nat, n: nat)
    requires 0 <= low < Pow2(n) && high >= 0
    ensures Splice(low, high, m, n) == high % Pow2(m) * Pow2(n) + low
  {
    hide And, Or, Pow2;
    AndMask(high, m);
    OrDisjoint(high % Pow2(m), low, n);
  }

  function Words25(a0: u32, a1: u32, a2: u32, a3: u32, a4: u32, a5: u32, a6: u32, a7: u32): Ten {
    Ten(And(0x3ff_ffff, a0),
        Splice(a0 / 0x400_0000, a1, 19, 6),
        Splice(a1 / 0x8_0000, a2, 13, 13),
        Splice(a2 / 0x2000, a3, 6, 19),
        a3 / 0x40,
        And(0x1ff_ffff, a4),
        Splice(a4 / 0x200_0000, a5, 19, 7),
        Splice(a5 / 0x8_0000, a6, 12, 13),
        Splice(a6 / 0x1000, a7, 6, 20),
        And(0x1ff_ffff, a7 / 0x40))
  }

  function Spread25(a0: u32, a1: u32, a2: u32, a3: u32, a4: u32, a5: u32, a6: u32, a7: u32): Ten {
    Ten(a0 % 0x400_0000,
        a1 % 0x8_0000 * 0x40 + a0 / 0x400_0000,
        a2 % 0x2000 * 0x2000 + a1 / 0x8_0000,
        a3 % 0x40 * 0x8_0000 + a2 / 0x2000,
        a3 / 0x40,
        a4 % 0x200_0000,
        a5 % 0x8_0000 * 0x80 + a4 / 0x200_0000,
        a6 % 0x1000 * 0x2000 + a5 / 0x8_0000,
        a7 % 0x40 * 0x10_0000 + a6 / 0x1000,
        a7 / 0x40 % 0x200_0000)
  }

  lemma SpliceWidths()
    ensures Pow2(6) == 0x40 && Pow2(7) == 0x80 && Pow2(12) == 0x1000 && Pow2(13) == 0x2000 && Pow2(19) == 0x8_0000 && Pow2(20) == 0x10_0000
    ensures Pow2(25) == 0x200_0000 && Pow2(26) == 0x400_0000
  {
    Pow2Add(6, 13);
    Pow2Add(7, 13);
    Pow2Add(12, 13);
    Pow2Add(13, 13);
  }

  lemma WordsSpread(a0: u32, a1: u32, a2: u32, a3: u32, a4: u32, a5: u32, a6: u32, a7: u32)
    ensures Words25(a0, a1, a2, a3, a4, a5, a6, a7) == Spread25(a0, a1, a2, a3, a4, a5, a6, a7)
  {
    hide And, Splice, Pow2;
    SpliceWidths();
    AndMask(a0, 26);
    SpliceIsSum(a0 / 0x400_0000, a1, 19, 6);
    SpliceIsSum(a1 / 0x8_0000, a2, 13, 13);
    SpliceIsSum(a2 / 0x2000, a3, 6, 19);
    AndMask(a4, 25);
    SpliceIsSum(a4 / 0x200_0000, a5, 19, 7);
    SpliceIsSum(a5 / 0x8_0000, a6, 12, 13);
    SpliceIsSum(a6 / 0x1000, a7, 6, 20);
    AndMask(a7 / 0x40, 25);
  }

  lemma SpreadVal(a0: u32, a1: u32, a2: u32, a3: u32, a4: u32, a5: u32, a6: u32, a7: u32)
    ensures var t := Spread25(a0, a1, a2, a3, a4, a5, a6, a7);
            Canonical25(t) && Val(t) == EightWords(a0, a1, a2, a3, a4, a5, a6, a7 % 0x8000_0000)
  {
    assert a7 % 0x8000_0000 == a7 % 0x40 + 0x40 * (a7 / 0x40 % 0x200_0000);
  }

  function LoadedWords(s: Key): Ten {
    QuadRange(s, 0);
    QuadRange(s, 4);
    QuadRange(s, 8);
    QuadRange(s, 12);
    QuadRange(s, 16);
    QuadRange(s, 20);
    QuadRange(s, 24);
    QuadRange(s, 28);
    Words25(Quad(s, 0), Quad(s, 4), Quad(s, 8), Quad(s, 12), Quad(s, 16), Quad(s, 20), Quad(s, 24), Quad(s, 28))
  }

  lemma LoadedWordsVal(a0: u32, a1: u32, a2: u32, a3: u32, a4: u32, a5: u32, a6: u32, a7: u32)
    ensures var t := Words25(a0, a1, a2, a3, a4, a5, a6, a7);
            Tight(t) && Val(t) == EightWords(a0, a1, a2, a3, a4, a5, a6, a7 % 0x8000_0000)
  {
    hide Words25, Spread25, EightWords, Val;
    WordsSpread(a0, a1, a2, a3, a4, a5, a6, a7);
    SpreadVal(a0, a1, a2, a3, a4, a5, a6, a7);
  }

  lemma ClearedDecodes(s: Key)
    ensures LE.Decode(s[31 := s[31] % 128])
            == EightWords(Quad(s, 0), Quad(s, 4), Quad(s, 8), Quad(s, 12), Quad(s, 16), Quad(s, 20), Quad(s, 24), Quad(s, 28) % 0x8000_0000)
  {
    hide LE.Decode, EightWords, Quad;
    ClearTopBit(s);
    DecodeWords(s[31 := s[31] % 128]);
  }

  /** `fe_frombytes` reads the number, ignoring the top bit, and accepts every byte string. */
  function FeFromBytes(s: Key): (t: Ten)
    ensures Tight(t) && Val(t) == LE.Decode(s[31 := s[31] % 128]) && F(t) == DecodeU(s)
  {
    hide LE.Decode, Words25, EightWords, Val, Reduce, Quad, Tight;
    QuadRange(s, 0);
    QuadRange(s, 4);
    QuadRange(s, 8);
    QuadRange(s, 12);
    QuadRange(s, 16);
    QuadRange(s, 20);
    QuadRange(s, 24);
    QuadRange(s, 28);
    LoadedWordsVal(Quad(s, 0), Quad(s, 4), Quad(s, 8), Quad(s, 12), Quad(s, 16), Quad(s, 20), Quad(s, 24), Quad(s, 28));
    ClearedDecodes(s);
    LoadedWords(s)
  }

  lemma QuadRange(s: seq<u8>, i: nat)
    requires i + 4 <= |s|
    ensures 0 <= Quad(s, i) < 0x1_0000_0000
  {
  }

  lemma ClearTopBit(s: Key)
    ensures var t := s[31 := s[31] % 128];
            && Quad(t, 0) == Quad(s, 0) && Quad(t, 4) == Quad(s, 4) && Quad(t, 8) == Quad(s, 8) && Quad(t, 12) == Quad(s, 12)
            && Quad(t, 16) == Quad(s, 16) && Quad(t, 20) == Quad(s, 20) && Quad(t, 24) == Quad(s, 24)
            && Quad(t, 28) == Quad(s, 28) % 0x8000_0000
  {
  }
}
