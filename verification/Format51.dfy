/** Bytes to and from the 64-bit implementation's limbs. */
module Format51 {
  import opened Bits
  import opened Field25519
  import opened Limbs51
  import opened Rfc7748
  import LE = LittleEndian

  // ----- masks

  const ONES: int := 0xffff_ffff_ffff_ffff

  function EqMask(a: u64, b: u64): int {
    var x := Xor(a, b);
    var minusX := (-1 - x + 1) % 0x1_0000_0000_0000_0000;
    var xnx := Or(x, minusX) / 0x8000_0000_0000_0000;
    (xnx - 1) % 0x1_0000_0000_0000_0000
  }

  function GteMask(a: u64, b: u64): int {
    var xXorY := Xor(a, b);
    var xSubY := ((a as int) - b) % 0x1_0000_0000_0000_0000;
    var q := Or(xXorY, Xor(xSubY, b));
    var top := Xor(a, q) / 0x8000_0000_0000_0000;
    (top - 1) % 0x1_0000_0000_0000_0000
  }

  /** `u64_eq_mask` is all ones exactly on equal words. */
  lemma EqMaskCorrect(a: u64, b: u64)
    ensures EqMask(a, b) == if a == b then ONES else 0
  {
    hide Xor, Or, Pow2;
    var x := Xor(a, b);
    Pow2Values();
    XorNonNegative(a, b);
    XorRange(a, b, 64);
    XorUndo(a, b);
    XorZero(a);
    var minusX := (-1 - x + 1) % 0x1_0000_0000_0000_0000;
    OrBounds(x, minusX, 64);
    XorSelf(a);
    OrNothing(x);
  }

  lemma {:induction false} XorSelf(x: int)
    requires x >= 0
    ensures Xor(x, x) == 0
  {
    if x > 0 { XorSelf(x / 2); }
  }

  /** `u64_gte_mask` is all ones exactly when a >= b, for every pair of words. */
  lemma GteMaskCorrect(a: u64, b: u64)
    ensures GteMask(a, b) == if a >= b then ONES else 0
  {
    hide Xor, Or, Pow2;
    var d := ((a as int) - b) % 0x1_0000_0000_0000_0000;
    var x, y := Xor(a, b), Xor(d, b);
    TopBit(a, b);
    TopBit(d, b);
    var q := Or(x, y);
    OrTop(x, y);
    TopBit(a, q);
  }

  function Top(x: int): int { x / 0x8000_0000_0000_0000 }

  lemma TopBit(x: u64, y: u64)
    ensures 0 <= Xor(x, y) < 0x1_0000_0000_0000_0000
    ensures Top(Xor(x, y)) == if Top(x) == Top(y) then 0 else 1
  {
    Pow2Values();
    XorNonNegative(x, y);
    XorRange(x, y, 64);
    XorShift(x, y, 63);
    OneBitXor(Top(x), Top(y));
    hide Xor, Pow2;
  }

  lemma OneBitXor(x: int, y: int)
    requires 0 <= x <= 1 && 0 <= y <= 1
    ensures Xor(x, y) == if x == y then 0 else 1
  {
    assert Xor(1, y) == 2 * Xor(0, y / 2) + (if 1 == y % 2 then 0 else 1);
  }

  lemma OrTop(x: u64, y: u64)
    ensures 0 <= Or(x, y) < 0x1_0000_0000_0000_0000
    ensures Top(Or(x, y)) == if Top(x) == 0 && Top(y) == 0 then 0 else 1
  {
    hide Or, Pow2;
    Pow2Values();
    OrBounds(x, y, 64);
    if Top(x) == 0 && Top(y) == 0 {
      OrBounds(x, y, 63);
    }
  }

  // ----- contraction

  function Contracted(t: Five): Five { Reduced(CarryTop(Carry4(t))) }

  /** Two carry passes bring every limb of any 63-bit input below 2^51. */
  lemma ContractedBounds(t: Five)
    requires AtMost(t, 0x7fff_ffff_ffff_ffff)
    ensures AtMost(Contracted(t), W - 1) && Reduce(Val(Contracted(t))) == Reduce(Val(t))
  {
    hide Reduce, Val;
    var u := CarryTop(Carry4(t));
    FirstPass(t);
    SecondPass(u);
    ReducedKeeps(t);
    ReducedKeeps(u);
  }

  predicate NearlyReduced(u: Five) {
    AtMost(u.(v0 := 0), W - 1) && 0 <= u.v0 < W + 0x2_0000
  }

  lemma FirstPass(t: Five)
    requires AtMost(t, 0x7fff_ffff_ffff_ffff)
    ensures NearlyReduced(CarryTop(Carry4(t)))
  {
    var t1 := t.v1 + t.v0 / W;
    var t2 := t.v2 + t1 / W;
    var t3 := t.v3 + t2 / W;
    assert 0 <= t1 / W <= 0x1000 && 0 <= t2 / W <= 0x1000 && 0 <= t3 / W <= 0x1000;
  }

  /** A carry that reaches the top limb has emptied the limbs below it. */
  lemma SecondPass(u: Five)
    requires NearlyReduced(u)
    ensures AtMost(Reduced(u), W - 1)
  {
    var c0 := u.v0 / W;
    var t1 := u.v1 + c0;
    var t2 := u.v2 + t1 / W;
    var t3 := u.v3 + t2 / W;
    var t4 := u.v4 + t3 / W;
    assert 0 <= c0 <= 1 && 0 <= t1 / W <= c0 && 0 <= t2 / W <= t1 / W && 0 <= t3 / W <= t2 / W && 0 <= t4 / W <= t3 / W;
    assert c0 == 1 ==> u.v0 % W < 0x2_0000;
    var c := Carry4(u);
    assert c == Five(u.v0 % W, t1 % W, t2 % W, t3 % W, t4);
    var w := CarryTop(c);
    assert 0 <= w.v0 < W;
  }

  predicate AtLeastP(a: Five) {
    a.v0 >= W - 19 && a.v1 == W - 1 && a.v2 == W - 1 && a.v3 == W - 1 && a.v4 == W - 1
  }

  lemma AtLeastPCorrect(a: Five)
    requires AtMost(a, W - 1)
    ensures 0 <= Val(a) < P + 19 && (AtLeastP(a) <==> Val(a) >= P)
  {
  }

  function TrimMask(a: Five): int
    requires AtMost(a, W - 1)
  {
    And(And(And(And(GteMask(a.v0, W - 19), EqMask(a.v1, W - 1)), EqMask(a.v2, W - 1)), EqMask(a.v3, W - 1)), EqMask(a.v4, W - 1))
  }

  lemma TrimMaskCorrect(a: Five)
    requires AtMost(a, W - 1)
    ensures TrimMask(a) == if AtLeastP(a) then ONES else 0
  {
    hide And, EqMask, GteMask;
    GteMaskCorrect(a.v0, W - 19);
    EqMaskCorrect(a.v1, W - 1);
    EqMaskCorrect(a.v2, W - 1);
    EqMaskCorrect(a.v3, W - 1);
    EqMaskCorrect(a.v4, W - 1);
    AndOnes(ONES);
    AndOnes(0);
    AndZero(0);
    AndZero(ONES);
  }

  lemma AndOnes(x: u64)
    ensures And(ONES, x) == x && And(x, ONES) == x
  {
    hide And, Pow2;
    Pow2Values();
    AndMask(x, 64);
    AndComm(x, ONES);
  }

  lemma {:induction false} AndComm(x: int, y: int)
    requires x >= 0 && y >= 0
    ensures And(x, y) == And(y, x)
    decreases x + y
  {
    if x > 0 || y > 0 { AndComm(x / 2, y / 2); }
  }

  lemma AndNone(x: u64)
    ensures And(x, 0) == 0
  {
    AndComm(x, 0);
  }

  /** `format_fcontract_trim` subtracts p exactly when the number is at least p. */
  method Trim(input: array<u64>)
    requires input.Length == 5 && AtMost(Of(input), W - 1)
    modifies input
    ensures AtMost(Of(input), W - 1) && Val(Of(input)) == Reduce(old(Val(Of(input))))
  {
    hide And, EqMask, GteMask;
    ghost var a := Of(input);
    TrimMaskCorrect(a);
    AtLeastPCorrect(a);
    AndOnes(W - 19);
    AndOnes(W - 1);
    AndNone(W - 19);
    AndNone(W - 1);
    var mask := And(And(And(And(GteMask(input[0], W - 19), EqMask(input[1], W - 1)), EqMask(input[2], W - 1)),
                    EqMask(input[3], W - 1)), EqMask(input[4], W - 1));
    input[0] := input[0] - And(W - 19, mask);
    input[1] := input[1] - And(W - 1, mask);
    input[2] := input[2] - And(W - 1, mask);
    input[3] := input[3] - And(W - 1, mask);
    input[4] := input[4] - And(W - 1, mask);
  }

  // ----- packing limbs into 64-bit words

  function Word0(t: Five): int { Or(t.v1 * W % 0x1_0000_0000_0000_0000, t.v0) }

  function Word1(t: Five): int { Or(t.v2 * 0x40_0000_0000 % 0x1_0000_0000_0000_0000, t.v1 / 0x2000) }

  function Word2(t: Five): int { Or(t.v3 * 0x200_0000 % 0x1_0000_0000_0000_0000, t.v2 / 0x400_0000) }

  function Word3(t: Five): int { Or(t.v4 * 0x1000 % 0x1_0000_0000_0000_0000, t.v3 / 0x80_0000_0000) }

  lemma ShiftedOr(x: nat, k: nat, low: nat, n: nat, m: nat)
    requires n + m == 64 && k == Pow2(n) && low < k
    ensures Or(x * k % 0x1_0000_0000_0000_0000, low) == k * (x % Pow2(m)) + low
  {
    hide Or, Pow2;
    Pow2Values();
    Pow2Add(n, m);
    var h := Pow2(m);
    TruncatedShift(x, k, h);
    assert k * (x % h) == (x % h) * k;
    OrDisjoint(x % h, low, n);
  }

  lemma WordValues(t: Five)
    requires AtMost(t, W - 1)
    ensures Word0(t) == W * (t.v1 % 0x2000) + t.v0
    ensures Word1(t) == 0x40_0000_0000 * (t.v2 % 0x400_0000) + t.v1 / 0x2000
    ensures Word2(t) == 0x200_0000 * (t.v3 % 0x80_0000_0000) + t.v2 / 0x400_0000
    ensures Word3(t) == 0x1000 * t.v4 + t.v3 / 0x80_0000_0000
  {
    hide Or, Pow2;
    SmallPowers();
    ShiftedOr(t.v1, W, t.v0, 51, 13);
    ShiftedOr(t.v2, 0x40_0000_0000, t.v1 / 0x2000, 38, 26);
    ShiftedOr(t.v3, 0x200_0000, t.v2 / 0x400_0000, 25, 39);
    ShiftedOr(t.v4, 0x1000, t.v3 / 0x80_0000_0000, 12, 52);
  }

  lemma SmallPowers()
    ensures Pow2(51) == W && Pow2(13) == 0x2000 && Pow2(38) == 0x40_0000_0000 && Pow2(26) == 0x400_0000
    ensures Pow2(25) == 0x200_0000 && Pow2(39) == 0x80_0000_0000 && Pow2(12) == 0x1000 && Pow2(52) == 2 * W
  {
    hide Pow2;
    Pow2Values();
    Pow2Add(8, 5);
    Pow2Add(13, 13);
    Pow2Add(12, 13);
    Pow2Add(26, 25);
    Pow2Add(26, 26);
    Pow2Add(26, 12);
    Pow2Add(26, 13);
  }

  lemma WordsVal(t: Five)
    requires AtMost(t, W - 1)
    ensures var q := 0x1_0000_0000_0000_0000;
            Word0(t) + q * (Word1(t) + q * (Word2(t) + q * Word3(t))) == Val(t)
    ensures Word0(t) < 0x1_0000_0000_0000_0000 && Word1(t) < 0x1_0000_0000_0000_0000
    ensures Word2(t) < 0x1_0000_0000_0000_0000 && Word3(t) < 0x1_0000_0000_0000_0000
  {
    hide Word0, Word1, Word2, Word3;
    WordValues(t);
  }

  /** `put_unaligned_le64` */
  method PutLe64(s: u64, d: array<u8>, at: nat)
    requires at + 8 <= d.Length
    modifies d
    ensures d[at..at + 8] == LE.Encode(s, 8)
    ensures d[..at] == old(d[..at]) && d[at + 8..] == old(d[at + 8..])
  {
    var l := LE.Encode(s, 8);
    forall k | 0 <= k < 8 { d[at + k] := l[k]; }
  }

  lemma FirstWord(w: u64, rest: seq<u8>)
    ensures LE.Decode(LE.Encode(w, 8) + rest) == w + 0x1_0000_0000_0000_0000 * LE.Decode(rest)
  {
    hide LE.Decode, LE.Encode, Pow2;
    Pow2Values();
    LE.DecodeConcat(LE.Encode(w, 8), rest);
    LE.DecodeEncode(w, 8);
  }

  lemma FourWords(o: seq<u8>, w0: u64, w1: u64, w2: u64, w3: u64)
    requires o == LE.Encode(w0, 8) + (LE.Encode(w1, 8) + (LE.Encode(w2, 8) + LE.Encode(w3, 8)))
    ensures var q := 0x1_0000_0000_0000_0000; LE.Decode(o) == w0 + q * (w1 + q * (w2 + q * w3))
  {
    hide LE.Decode, LE.Encode;
    var b3 := LE.Encode(w3, 8);
    var b2 := LE.Encode(w2, 8) + b3;
    FirstWord(w2, b3);
    FirstWord(w1, b2);
    FirstWord(w0, LE.Encode(w1, 8) + b2);
    Pow2Values();
    LE.DecodeEncode(w3, 8);
  }

  method Store(output: array<u8>, input: array<u64>)
    requires output.Length == 32 && input.Length == 5 && AtMost(Of(input), W - 1)
    modifies output
    ensures output[..] == LE.Encode(Val(Of(input)), 32)
  {
    hide Word0, Word1, Word2, Word3, Or, LE.Encode, LE.Decode, Val;
    ghost var t := Of(input);
    WordsVal(t);
    WordNonNegative(t);
    var o0: u64 := Word0(Five(input[0], input[1], input[2], input[3], input[4]));
    var o1: u64 := Word1(Five(input[0], input[1], input[2], input[3], input[4]));
    var o2: u64 := Word2(Five(input[0], input[1], input[2], input[3], input[4]));
    var o3: u64 := Word3(Five(input[0], input[1], input[2], input[3], input[4]));
    ghost var e0, e1, e2, e3 := LE.Encode(o0, 8), LE.Encode(o1, 8), LE.Encode(o2, 8), LE.Encode(o3, 8);
    PutLe64(o0, output, 0);
    assert output[..8] == e0;
    PutLe64(o1, output, 8);
    assert output[..16] == output[..8] + output[8..16] == e0 + e1;
    PutLe64(o2, output, 16);
    assert output[..24] == output[..16] + output[16..24] == e0 + e1 + e2;
    PutLe64(o3, output, 24);
    assert output[..] == output[..24] + output[24..32] == e0 + e1 + e2 + e3;
    assert e0 + e1 + e2 + e3 == e0 + (e1 + (e2 + e3));
    FourWords(output[..], o0, o1, o2, o3);
    LE.EncodeDecode(output[..]);
  }

  lemma WordNonNegative(t: Five)
    requires AtMost(t, W - 1)
    ensures Word0(t) >= 0 && Word1(t) >= 0 && Word2(t) >= 0 && Word3(t) >= 0
  {
    hide Word0, Word1, Word2, Word3;
    WordValues(t);
  }

  method CarryPass(input: array<u64>)
    requires input.Length == 5 && AtMost(Of(input), 0x7fff_ffff_ffff_ffff)
    modifies input
    ensures Of(input) == Carry4(old(Of(input)))
  {
    var t0, t1, t2, t3, t4 := input[0], input[1], input[2], input[3], input[4];
    var t1': u64 := t1 + t0 / W;
    var t2': u64 := t2 + t1' / W;
    var t3': u64 := t3 + t2' / W;
    var t4': u64 := t4 + t3' / W;
    input[0], input[1], input[2], input[3], input[4] := t0 % W, t1' % W, t2' % W, t3' % W, t4';
  }

  method ModuloCarryTop(b: array<u64>)
    requires b.Length == 5 && b[0] < W
    modifies b
    ensures Of(b) == CarryTop(old(Of(b)))
  {
    var b4, b0 := b[4], b[0];
    b[4] := b4 % W;
    b[0] := b0 + 19 * (b4 / W);
  }

  /** `format_fcontract` writes the unique little-endian representative in [0, p), for every
      input with limbs below 2^63. */
  method FContract(output: array<u8>, input: array<u64>)
    requires output.Length == 32 && input.Length == 5 && AtMost(Of(input), 0x7fff_ffff_ffff_ffff)
    modifies output, input
    ensures output[..] == LE.Encode(old(F(input)), 32)
  {
    hide Carry4, Reduce, Val, LE.Encode;
    ghost var t := Of(input);
    FirstPass(t);
    ContractedBounds(t);
    Carry4Low(t);
    CarryPass(input);
    ModuloCarryTop(input);
    ghost var u := Of(input);
    Carry4Low(u);
    CarryPass(input);
    ModuloCarryTop(input);
    var i0, i1 := input[0], input[1];
    LowCarryFits(u);
    input[0] := i0 % W;
    input[1] := i1 + i0 / W;
    assert Of(input) == Contracted(t);
    Trim(input);
    Store(output, input);
  }

  lemma Carry4Low(t: Five)
    ensures 0 <= Carry4(t).v0 < W
  {
  }

  lemma LowCarryFits(u: Five)
    ensures 0 <= Carry4(u).v1 < W
  {
  }

  // ----- expansion

  /** The thirty-two bytes cut where limb boundaries fall inside a byte. */
  datatype Parts = Parts(a: int, b6: int, b: int, b12: int, c: int, b19: int, d: int, b25: int, e: int, b31: int)

  predicate PartsOk(p: Parts) {
    && 0 <= p.a < 0x1_0000_0000_0000 && 0 <= p.b6 < 256 && 0 <= p.b < 0x100_0000_0000 && 0 <= p.b12 < 256
    && 0 <= p.c < 0x1_0000_0000_0000 && 0 <= p.b19 < 256 && 0 <= p.d < 0x100_0000_0000 && 0 <= p.b25 < 256
    && 0 <= p.e < 0x100_0000_0000 && 0 <= p.b31 < 256
  }

  function Joined(p: Parts): int {
    var x := 0x1_0000_0000_0000;
    var y := 0x100_0000_0000;
    p.a + x * (p.b6 + 256 * (p.b + y * (p.b12 + 256 * (p.c + x * (p.b19 + 256 * (p.d + y * (p.b25 + 256 * (p.e + y * p.b31))))))))
  }

  function Limbs(p: Parts): Five {
    Five(p.a + 0x1_0000_0000_0000 * (p.b6 % 8),
         p.b6 / 8 + 32 * p.b + 0x2000_0000_0000 * (p.b12 % 64),
         p.b12 / 64 + 4 * p.c + 0x4_0000_0000_0000 * (p.b19 % 2),
         p.b19 / 2 + 128 * p.d + 0x8000_0000_0000 * (p.b25 % 16),
         p.b25 / 16 + 16 * p.e + 0x1000_0000_0000 * (p.b31 % 128))
  }

  lemma LimbsVal(p: Parts)
    requires PartsOk(p)
    ensures AtMost(Limbs(p), W - 1) && Val(Limbs(p)) == Joined(p.(b31 := p.b31 % 128))
  {
  }

  function Le(s: seq<u8>, i: nat, n: nat): int
    requires i + n <= |s|
  {
    LE.Decode(s[i..i + n])
  }

  lemma LeSplit(s: seq<u8>, i: nat, n: nat, m: nat)
    requires i + n + m <= |s|
    ensures Le(s, i, n + m) == Le(s, i, n) + Pow2(8 * n) * Le(s, i + n, m)
    ensures 0 <= Le(s, i, n) < Pow2(8 * n)
  {
    hide LE.Decode;
    assert s[i..i + n + m] == s[i..i + n] + s[i + n..i + n + m];
    LE.DecodeConcat(s[i..i + n], s[i + n..i + n + m]);
    LE.DecodeBound(s[i..i + n]);
  }

  lemma LeOne(s: seq<u8>, i: nat)
    requires i < |s|
    ensures Le(s, i, 1) == s[i]
  {
    assert s[i..i + 1] == [s[i]];
    assert LE.Decode([s[i]]) == s[i] + 256 * LE.Decode([]);
  }

  function PartsOf(s: seq<u8>): Parts
    requires |s| == 32
  {
    Parts(Le(s, 0, 6), s[6], Le(s, 7, 5), s[12], Le(s, 13, 6), s[19], Le(s, 20, 5), s[25], Le(s, 26, 5), s[31])
  }

  /** One byte, then n bytes. */
  lemma ByteThen(s: seq<u8>, i: nat, n: nat)
    requires i + 1 + n <= |s|
    ensures Le(s, i, 1 + n) == s[i] as int + 256 * Le(s, i + 1, n)
  {
    hide Le, Pow2;
    Pow2Values();
    LeSplit(s, i, 1, n);
    LeOne(s, i);
  }

  lemma SixThen(s: seq<u8>, i: nat, n: nat)
    requires i + 6 + n <= |s|
    ensures Le(s, i, 6 + n) == Le(s, i, 6) + 0x1_0000_0000_0000 * Le(s, i + 6, n) && 0 <= Le(s, i, 6) < 0x1_0000_0000_0000
  {
    hide Le, Pow2;
    Pow2Values();
    Pow2Add(32, 16);
    LeSplit(s, i, 6, n);
  }

  lemma FiveThen(s: seq<u8>, i: nat, n: nat)
    requires i + 5 + n <= |s|
    ensures Le(s, i, 5 + n) == Le(s, i, 5) + 0x100_0000_0000 * Le(s, i + 5, n) && 0 <= Le(s, i, 5) < 0x100_0000_0000
  {
    hide Le, Pow2;
    Pow2Values();
    Pow2Add(32, 8);
    LeSplit(s, i, 5, n);
  }

  lemma PartsJoin(s: seq<u8>)
    requires |s| == 32
    ensures PartsOk(PartsOf(s)) && Joined(PartsOf(s)) == LE.Decode(s)
  {
    hide LE.Decode, Le;
    SixThen(s, 0, 26);
    ByteThen(s, 6, 25);
    FiveThen(s, 7, 20);
    ByteThen(s, 12, 19);
    SixThen(s, 13, 13);
    ByteThen(s, 19, 12);
    FiveThen(s, 20, 7);
    ByteThen(s, 25, 6);
    FiveThen(s, 26, 1);
    LeOne(s, 31);
    LeAll(s);
  }

  lemma LeAll(s: seq<u8>)
    requires |s| == 32
    ensures Le(s, 0, 32) == LE.Decode(s)
  {
    assert s[0..32] == s;
  }

  /** The five overlapping words that `format_fexpand` loads, in terms of the parts. */
  lemma Words(s: seq<u8>)
    requires |s| == 32
    ensures var p := PartsOf(s); var x := 0x1_0000_0000_0000; var y := 0x100_0000_0000;
            && Le(s, 0, 8) == p.a + x * (p.b6 + 256 * (s[7] as int))
            && Le(s, 6, 8) == p.b6 + 256 * (p.b + y * (p.b12 + 256 * (s[13] as int)))
            && Le(s, 12, 8) == p.b12 + 256 * (p.c + x * p.b19)
            && Le(s, 19, 8) == p.b19 + 256 * (p.d + y * (p.b25 + 256 * (s[26] as int)))
            && Le(s, 24, 8) == s[24] + 256 * (p.b25 + 256 * (p.e + y * p.b31))
  {
    hide Le;
    SixThen(s, 0, 2);
    ByteThen(s, 6, 1);
    LeOne(s, 7);
    ByteThen(s, 6, 7);
    FiveThen(s, 7, 2);
    ByteThen(s, 12, 1);
    LeOne(s, 13);
    ByteThen(s, 12, 7);
    SixThen(s, 13, 1);
    LeOne(s, 19);
    ByteThen(s, 19, 7);
    FiveThen(s, 20, 2);
    ByteThen(s, 25, 1);
    LeOne(s, 26);
    ByteThen(s, 24, 7);
    ByteThen(s, 25, 6);
    FiveThen(s, 26, 1);
    LeOne(s, 31);
  }

  lemma ShiftedWords(p: Parts, h7: int, h13: int, h26: int, l24: int)
    requires PartsOk(p) && 0 <= h7 < 256 && 0 <= h13 < 256 && 0 <= h26 < 256 && 0 <= l24 < 256
    ensures var l := Limbs(p); var x := 0x1_0000_0000_0000; var y := 0x100_0000_0000;
            && (p.a + x * (p.b6 + 256 * h7)) % W == l.v0
            && (p.b6 + 256 * (p.b + y * (p.b12 + 256 * h13))) / 8 % W == l.v1
            && (p.b12 + 256 * (p.c + x * p.b19)) / 64 % W == l.v2
            && (p.b19 + 256 * (p.d + y * (p.b25 + 256 * h26))) / 2 % W == l.v3
            && (l24 + 256 * (p.b25 + 256 * (p.e + y * p.b31))) / 0x1000 % W == l.v4
  {
    hide Limbs;
    ShiftedLow(p, h7, h13);
    ShiftedHigh(p, h26, l24);
  }

  lemma ShiftedLow(p: Parts, h7: int, h13: int)
    requires PartsOk(p) && 0 <= h7 < 256 && 0 <= h13 < 256
    ensures var l := Limbs(p); var x := 0x1_0000_0000_0000; var y := 0x100_0000_0000;
            && (p.a + x * (p.b6 + 256 * h7)) % W == l.v0
            && (p.b6 + 256 * (p.b + y * (p.b12 + 256 * h13))) / 8 % W == l.v1
  {
    var l, x, y := Limbs(p), 0x1_0000_0000_0000, 0x100_0000_0000;
    Slice(p.a + x * (p.b6 + 256 * h7), 1, l.v0, 0, p.b6 / 8 + 32 * h7);
    Slice(p.b6 + 256 * (p.b + y * (p.b12 + 256 * h13)), 8, l.v1, p.b6 % 8, p.b12 / 64 + 4 * h13);
  }

  lemma ShiftedHigh(p: Parts, h26: int, l24: int)
    requires PartsOk(p) && 0 <= h26 < 256 && 0 <= l24 < 256
    ensures var l := Limbs(p); var x := 0x1_0000_0000_0000; var y := 0x100_0000_0000;
            && (p.b12 + 256 * (p.c + x * p.b19)) / 64 % W == l.v2
            && (p.b19 + 256 * (p.d + y * (p.b25 + 256 * h26))) / 2 % W == l.v3
            && (l24 + 256 * (p.b25 + 256 * (p.e + y * p.b31))) / 0x1000 % W == l.v4
  {
    var l, x, y := Limbs(p), 0x1_0000_0000_0000, 0x100_0000_0000;
    Slice(p.b12 + 256 * (p.c + x * p.b19), 64, l.v2, p.b12 % 64, p.b19 / 2);
    Slice(p.b19 + 256 * (p.d + y * (p.b25 + 256 * h26)), 2, l.v3, p.b19 % 2, p.b25 / 16 + 16 * h26);
    Slice(l24 + 256 * (p.b25 + 256 * (p.e + y * p.b31)), 0x1000, l.v4, l24 + 256 * (p.b25 % 16), p.b31 / 128);
  }

  lemma Slice(x: int, sh: int, q: int, low: int, hi: int)
    requires 0 <= low < sh && 0 <= q < W && x == sh * (q + W * hi) + low
    ensures x / sh % W == q
  {
    ModUnique(x, sh, q + W * hi, low);
    ModUnique(q + W * hi, W, hi, q);
  }

  /** `format_fexpand` reads the number, ignoring the top bit, and accepts every byte string. */
  method FExpand(output: array<u64>, input: array<u8>)
    requires output.Length == 5 && input.Length == 32
    modifies output
    ensures AtMost(Of(output), W - 1) && Val(Of(output)) == LE.Decode(input[..][31 := input[31] % 128])
    ensures Red(output) && F(output) == DecodeU(input[..])
  {
    hide LE.Decode, Val, Reduce, Joined, Limbs;
    ghost var s := input[..];
    ghost var p := PartsOf(s);
    var i0: u64 := GetLe64(input, 0);
    var i1: u64 := GetLe64(input, 6);
    var i2: u64 := GetLe64(input, 12);
    var i3: u64 := GetLe64(input, 19);
    var i4: u64 := GetLe64(input, 24);
    output[0] := i0 % W;
    output[1] := i1 / 8 % W;
    output[2] := i2 / 64 % W;
    output[3] := i3 / 2 % W;
    output[4] := i4 / 0x1000 % W;
    PartsJoin(s);
    ShiftedWords(p, s[7], s[13], s[26], s[24]);
    Words(s);
    assert Of(output) == Limbs(p);
    LimbsVal(p);
    ClearTop(s);
  }

  /** `get_unaligned_le64` */
  method GetLe64(a: array<u8>, at: nat) returns (l: u64)
    requires at + 8 <= a.Length
    ensures l == Le(a[..], at, 8)
  {
    hide LE.Decode, Pow2;
    var w := a[at..at + 8];
    LE.DecodeBound(w);
    Pow2Values();
    assert w == a[..][at..at + 8];
    l := LE.Decode(w);
  }

  lemma ClearTop(s: seq<u8>)
    requires |s| == 32
    ensures LE.Decode(s[31 := s[31] % 128]) == Joined(PartsOf(s).(b31 := s[31] % 128))
  {
    hide LE.Decode, Joined;
    var t := s[31 := s[31] % 128];
    PartsJoin(t);
    assert t[0..6] == s[0..6] && t[7..12] == s[7..12] && t[13..19] == s[13..19] && t[20..25] == s[20..25] && t[26..31] == s[26..31];
  }

  /** Expanding undoes contracting: a canonical encoding reads back as the number it was written from. */
  lemma ExpandUndoesContract(v: Elem, s: seq<u8>)
    requires s == LE.Encode(v, 32)
    ensures s[31] < 128 && LE.Decode(s[31 := s[31] % 128]) == v
  {
    hide LE.Decode, LE.Encode;
    TwoTo255();
    LE.DecodeEncode(v, 32);
    PartsJoin(s);
    hide PartsOf;
    TopByteSmall(PartsOf(s));
    assert s[31 := s[31] % 128] == s;
  }

  lemma TwoTo255()
    ensures Pow2(8 * 32) == 2 * P + 38
  {
    hide Pow2;
    Pow2Values();
    Pow2Add(64, 64);
    Pow2Add(128, 128);
  }

  lemma TopByteSmall(p: Parts)
    requires PartsOk(p) && Joined(p) < P
    ensures p.b31 < 128
  {
  }
}
