/** C's bitwise operators on integers.  A negative operand stands for its infinite
    two's complement expansion, so one definition serves signed and unsigned words of
    any width; `/` and `%` by a power of two are the arithmetic right shift and the
    low-bits mask. */
module Bits {

  type u8 = x: int | 0 <= x < 0x100
  type u16 = x: int | 0 <= x < 0x1_0000
  type u32 = x: int | 0 <= x < 0x1_0000_0000
  type u64 = x: int | 0 <= x < 0x1_0000_0000_0000_0000
  type u128 = x: int | 0 <= x < 0x1_0000_0000_0000_0000_0000_0000_0000_0000
  type i64 = x: int | -0x8000_0000_0000_0000 <= x < 0x8000_0000_0000_0000

  function Xor(x: int, y: int): int
    decreases if x < 0 then -x else x
  {
    if x == 0 then y
    else if x == -1 then -1 - y
    else 2 * Xor(x / 2, y / 2) + (if x % 2 == y % 2 then 0 else 1)
  }

  function And(x: int, y: int): int
    decreases if x < 0 then -x else x
  {
    if x == 0 then 0
    else if x == -1 then y
    else 2 * And(x / 2, y / 2) + (if x % 2 == 1 && y % 2 == 1 then 1 else 0)
  }

  function Or(x: int, y: int): int
    decreases if x < 0 then -x else x
  {
    if x == 0 then y
    else if x == -1 then -1
    else 2 * Or(x / 2, y / 2) + (if x % 2 == 1 || y % 2 == 1 then 1 else 0)
  }

  function Pow2(n: nat): (r: nat)
    ensures r >= 1
  {
    if n == 0 then 1 else 2 * Pow2(n - 1)
  }

  lemma {:induction false} Pow2Add(a: nat, b: nat)
    ensures Pow2(a + b) == Pow2(a) * Pow2(b)
  {
    if a > 0 {
      Pow2Add(a - 1, b);
      assert a + b - 1 == a - 1 + b;
      assert 2 * (Pow2(a - 1) * Pow2(b)) == (2 * Pow2(a - 1)) * Pow2(b);
    }
  }

  lemma Pow2Values()
    ensures Pow2(5) == 0x20 && Pow2(8) == 0x100 && Pow2(12) == 0x1000 && Pow2(16) == 0x1_0000 && Pow2(32) == 0x1_0000_0000
    ensures Pow2(63) == 0x8000_0000_0000_0000 && Pow2(64) == 0x1_0000_0000_0000_0000
  {
    Pow2Add(16, 16);
    Pow2Add(15, 16);
    Pow2Add(31, 32);
  }

  lemma {:induction false} XorUndo(x: int, y: int)
    ensures Xor(x, Xor(x, y)) == y
    decreases if x < 0 then -x else x
  {
    if x != 0 && x != -1 {
      var w := Xor(x, y);
      assert w / 2 == Xor(x / 2, y / 2) && (w % 2 == 0 <==> x % 2 == y % 2);
      XorUndo(x / 2, y / 2);
    }
  }

  lemma {:induction false} XorComm(x: int, y: int)
    ensures Xor(x, y) == Xor(y, x)
    decreases if x < 0 then -x else x
  {
    if x != 0 && x != -1 && y != 0 && y != -1 {
      XorComm(x / 2, y / 2);
    } else {
      XorZero(x);
      XorZero(y);
      XorOnes(x);
      XorOnes(y);
    }
  }

  lemma {:induction false} XorZero(x: int)
    ensures Xor(x, 0) == x
    decreases if x < 0 then -x else x
  {
    if x != 0 && x != -1 { XorZero(x / 2); }
  }

  lemma {:induction false} XorOnes(x: int)
    ensures Xor(x, -1) == -1 - x
    decreases if x < 0 then -x else x
  {
    if x != 0 && x != -1 { XorOnes(x / 2); }
  }

  /** Words of n + 1 bits are closed under exclusive or. */
  lemma {:induction false} XorRange(x: int, y: int, n: nat)
    requires 0 <= x + Pow2(n) < 2 * Pow2(n) && 0 <= y + Pow2(n) < 2 * Pow2(n)
    ensures 0 <= Xor(x, y) + Pow2(n) < 2 * Pow2(n)
    decreases n
  {
    if x != 0 && x != -1 {
      assert n > 0;
      XorRange(x / 2, y / 2, n - 1);
    }
  }

  /** An and is negative exactly when both operands are, and never exceeds a
      non-negative operand. */
  lemma {:induction false} AndSign(x: int, y: int)
    ensures And(x, y) < 0 <==> x < 0 && y < 0
    ensures x >= 0 ==> And(x, y) <= x
    ensures y >= 0 ==> And(x, y) <= y
    decreases if x < 0 then -x else x
  {
    if x != 0 && x != -1 {
      AndSign(x / 2, y / 2);
    }
  }

  /** Masking with n one bits is the remainder by 2^n. */
  lemma {:induction false} AndMask(x: int, n: nat)
    ensures And(Pow2(n) - 1, x) == x % Pow2(n)
    decreases n
  {
    hide And;
    AndZero(x);
    if n > 0 {
      AndMask(x / 2, n - 1);
      AndOdd(Pow2(n - 1) - 1, x);
      HalfMod(x, Pow2(n - 1));
    }
  }

  lemma AndZero(x: int)
    ensures And(0, x) == 0
  {
  }

  lemma AndOdd(m: int, x: int)
    requires m >= 0
    ensures And(2 * m + 1, x) == 2 * And(m, x / 2) + x % 2
  {
  }

  lemma AndDouble(m: int, x: int)
    requires m >= 1
    ensures And(2 * m, x) == 2 * And(m, x / 2)
  {
  }

  lemma {:induction false} XorShift(x: int, y: int, n: nat)
    requires x >= 0 && y >= 0
    ensures Xor(x, y) >= 0 && Xor(x, y) / Pow2(n) == Xor(x / Pow2(n), y / Pow2(n))
    decreases n
  {
    hide Xor;
    XorNonNegative(x, y);
    if n > 0 {
      XorHalf(x, y);
      XorShift(x / 2, y / 2, n - 1);
      DivHalf(x, Pow2(n - 1));
      DivHalf(y, Pow2(n - 1));
      DivHalf(Xor(x, y), Pow2(n - 1));
    }
  }

  lemma XorHalf(x: int, y: int)
    ensures Xor(x, y) / 2 == Xor(x / 2, y / 2)
  {
  }

  lemma {:induction false} XorNonNegative(x: int, y: int)
    requires x >= 0 && y >= 0
    ensures Xor(x, y) >= 0
    decreases x
  {
    if x > 0 { XorNonNegative(x / 2, y / 2); }
  }

  /** An or of n-bit words is an n-bit word at least as large as either. */
  lemma {:induction false} OrBounds(x: int, y: int, n: nat)
    requires 0 <= x < Pow2(n) && 0 <= y < Pow2(n)
    ensures x <= Or(x, y) < Pow2(n) && y <= Or(x, y)
  {
    if x > 0 { OrBounds(x / 2, y / 2, n - 1); }
  }

  /** Or-ing a word into cleared low bits is adding it. */
  lemma {:induction false} OrDisjoint(x: int, y: int, n: nat)
    requires x >= 0 && 0 <= y < Pow2(n)
    ensures Or(x * Pow2(n), y) == x * Pow2(n) + y
    decreases n
  {
    if n == 0 {
      OrZero(x);
    } else {
      var h := x * Pow2(n - 1);
      assert x * Pow2(n) == 2 * h;
      OrDisjoint(x, y / 2, n - 1);
    }
  }

  lemma OrNothing(x: int)
    ensures Or(0, x) == x
  {
  }

  lemma {:induction false} OrZero(x: int)
    requires x >= 0
    ensures Or(x, 0) == x
  {
    if x > 0 { OrZero(x / 2); }
  }

  /** Setting bit n of a word of n + 1 bits. */
  lemma {:induction false} OrTopBit(n: nat, x: int)
    requires 0 <= x < 2 * Pow2(n)
    ensures Or(Pow2(n), x) == x % Pow2(n) + Pow2(n)
  {
    if n > 0 {
      OrTopBit(n - 1, x / 2);
      HalfMod(x, Pow2(n - 1));
    } else {
      assert Or(1, x) == 2 * Or(0, x / 2) + 1;
    }
  }

  lemma MulMono(a: int, b: int, c: int)
    requires a <= b && c >= 0
    ensures a * c <= b * c
  {
  }

  /** A product of two numbers of size at most n has size at most n^2. */
  lemma MulRange(x: int, y: int, n: int)
    requires -n <= x <= n && -n <= y <= n
    ensures -(n * n) <= x * y <= n * n
  {
    var (u, v) := (if x < 0 then -x else x, if y < 0 then -y else y);
    MulMono(u, n, v);
    MulMono(v, n, n);
    assert u * v == x * y || u * v == -(x * y);
  }

  lemma HalfMod(x: int, h: int)
    requires h > 0
    ensures x % (2 * h) == 2 * (x / 2 % h) + x % 2
  {
    var q, r := x / 2 / h, x / 2 % h;
    assert x == 2 * h * q + (2 * r + x % 2) by {
      assert x / 2 == h * q + r;
      assert 2 * (h * q) == 2 * h * q;
    }
    ModUnique(x, 2 * h, q, 2 * r + x % 2);
  }

  lemma TruncatedShift(x: nat, k: nat, h: nat)
    requires k > 0 && h > 0
    ensures k * h > 0 && (x * k) % (k * h) == k * (x % h)
  {
    var q, r := x / h, x % h;
    assert x == h * q + r;
    assert x * k == (k * h) * q + k * r by { assert (h * q + r) * k == (h * q) * k + r * k; Regroup(h, q, k); }
    MulMono(r, h - 1, k);
    ModUnique(x * k, k * h, q, k * r);
  }

  lemma Regroup(h: int, q: int, k: int)
    ensures (h * q) * k == (k * h) * q
  {
  }

  lemma DivDiv(x: nat, a: nat, b: nat)
    requires a > 0 && b > 0
    ensures a * b > 0 && x / (a * b) == x / a / b && x % (a * b) == x % a + a * (x / a % b)
  {
    var y := x / a;
    var q, r := y / b, y % b;
    DivDivParts(x, a, b, y, q, r);
    MulMono(r, b - 1, a);
    ModUnique(x, a * b, q, a * r + x % a);
  }

  lemma DivDivParts(x: int, a: int, b: int, y: int, q: int, r: int)
    requires a > 0 && y == x / a && y == b * q + r
    ensures x == (a * b) * q + (a * r + x % a)
  {
    assert x == a * y + x % a;
    assert a * (b * q + r) == a * (b * q) + a * r;
    assert a * (b * q) == (a * b) * q;
  }

  lemma DivHalf(x: nat, b: nat)
    requires b > 0
    ensures x / (2 * b) == x / 2 / b
  {
    var q, r := x / 2 / b, x / 2 % b;
    assert x / 2 == b * q + r;
    assert 2 * b * q == 2 * (b * q);
    ModUnique(x, 2 * b, q, 2 * r + x % 2);
  }

  lemma ModUnique(x: int, m: int, q: int, r: int)
    requires 0 <= r < m && x == m * q + r
    ensures x % m == r && x / m == q
  {
    var d := q - x / m;
    assert m * (x / m) + x % m == x;
    assert m * d == x % m - r by { assert m * d == m * q - m * (x / m); }
    assert d >= 1 ==> m * d >= m;
    assert d <= -1 ==> m * d <= -m;
  }
}
