/** Keys as base64 and hexadecimal text (sections 4 and 8 of RFC 4648), encoded and decoded without branches. */
module KeyText {
  import opened Bits
  import opened Bytes
  import opened IpText

  // ----- the branch-free building blocks

  /** An arithmetic shift by eight. */
  function Shr8(x: int): int { x / 0x100 }

  lemma SignOf(x: int)
    requires -0x100 <= x < 0x100
    ensures Shr8(x) == if x < 0 then -1 else 0
  {
  }

  lemma AndEnds(y: int)
    ensures And(-1, y) == y && And(0, y) == 0
  {
  }

  lemma {:induction false} AndRange(x: int, y: int, n: nat)
    requires 0 <= x + Pow2(n) < 2 * Pow2(n) && 0 <= y + Pow2(n) < 2 * Pow2(n)
    ensures 0 <= And(x, y) + Pow2(n) < 2 * Pow2(n)
    decreases n
  {
    if x != 0 && x != -1 {
      assert n > 0;
      AndRange(x / 2, y / 2, n - 1);
    }
  }

  lemma {:induction false} OrSign(x: int, y: int)
    ensures Or(x, y) < 0 <==> x < 0 || y < 0
    decreases if x < 0 then -x else x
  {
    if x != 0 && x != -1 { OrSign(x / 2, y / 2); }
  }

  /** All ones when lo <= c <= hi, zero otherwise. */
  function InClass(lo: int, hi: int, c: int): int { Shr8(And(lo - 1 - c, c - (hi + 1))) }

  lemma InClassIs(lo: int, hi: int, c: int)
    requires 0 <= lo <= hi < 128 && -128 <= c < 256
    ensures InClass(lo, hi, c) == if lo <= c <= hi then -1 else 0
  {
    hide And, Pow2;
    assert Pow2(8) == 0x100 by { Pow2Values(); }
    AndRange(lo - 1 - c, c - (hi + 1), 8);
    AndSign(lo - 1 - c, c - (hi + 1));
    SignOf(And(lo - 1 - c, c - (hi + 1)));
  }

  // ----- base64 characters

  /** The base64 alphabet. */
  function Letter(v: int): char
    requires 0 <= v < 64
  {
    if v < 26 then 'A' + v as char
    else if v < 52 then 'a' + (v - 26) as char
    else if v < 62 then '0' + (v - 52) as char
    else if v == 62 then '+' else '/'
  }

  /** The position of a character in the alphabet, or -1. */
  function Sextet(c: char): (v: int)
    ensures -1 <= v < 64
  {
    if 'A' <= c <= 'Z' then c as int - 'A' as int
    else if 'a' <= c <= 'z' then c as int - 'a' as int + 26
    else if '0' <= c <= '9' then c as int - '0' as int + 52
    else if c == '+' then 62 else if c == '/' then 63 else -1
  }

  lemma SextetOfLetter(v: int)
    requires 0 <= v < 64
    ensures Sextet(Letter(v)) == v
  {
  }

  lemma LetterOfSextet(c: char)
    requires Sextet(c) >= 0
    ensures Letter(Sextet(c)) == c
  {
  }

  /** The expression of `encode_base64`. */
  function EncodeChar(v: int): int {
    v + 65 + And(Shr8(25 - v), 6) - And(Shr8(51 - v), 75) - And(Shr8(61 - v), 15) + And(Shr8(62 - v), 3)
  }

  lemma EncodeCharIs(v: int)
    requires 0 <= v < 64
    ensures EncodeChar(v) == Letter(v) as int
  {
    hide And;
    SignOf(25 - v);
    SignOf(51 - v);
    SignOf(61 - v);
    SignOf(62 - v);
    AndEnds(6);
    AndEnds(75);
    AndEnds(15);
    AndEnds(3);
  }

  /** The expression of `decode_base64`; a char may be signed or not. */
  function DecodeChar(c: int): int {
    -1 + And(InClass(65, 90, c), c - 64) + And(InClass(97, 122, c), c - 70) + And(InClass(48, 57, c), c + 5)
    + And(InClass(43, 43, c), 63) + And(InClass(47, 47, c), 64)
  }

  lemma DecodeCharIs(c: char, signed: int)
    requires c as int < 256 && (signed == c as int || (c as int >= 128 && signed == c as int - 256))
    ensures DecodeChar(signed) == Sextet(c)
  {
    hide And, InClass;
    InClassIs(65, 90, signed);
    InClassIs(97, 122, signed);
    InClassIs(48, 57, signed);
    InClassIs(43, 43, signed);
    InClassIs(47, 47, signed);
    AndEnds(signed - 64);
    AndEnds(signed - 70);
    AndEnds(signed + 5);
    AndEnds(63);
    AndEnds(64);
  }

  // ----- blocks of three bytes and four characters

  predicate ByteString(s: string) { forall i :: 0 <= i < |s| ==> s[i] as int < 256 }

  /** A C string without its terminator. */
  type Text = s: string | ByteString(s) witness ""

  function Pack(b: seq<u8>): (s: string)
    requires |b| == 3
    ensures |s| == 4
  {
    [Letter(b[0] / 4), Letter(b[0] % 4 * 16 + b[1] / 16), Letter(b[1] % 16 * 4 + b[2] / 64), Letter(b[2] % 64)]
  }

  predicate Digits(s: string) { forall i :: 0 <= i < |s| ==> Sextet(s[i]) >= 0 }

  function Word(s: string): (v: int)
    requires |s| == 4 && Digits(s)
    ensures 0 <= v < 0x100_0000
  {
    0x4_0000 * Sextet(s[0]) + 0x1000 * Sextet(s[1]) + 0x40 * Sextet(s[2]) + Sextet(s[3])
  }

  function Split(v: int): (b: seq<u8>)
    requires 0 <= v < 0x100_0000
    ensures |b| == 3
  {
    [v / 0x1_0000, v / 0x100 % 0x100, v % 0x100]
  }

  lemma SplitParts(s0: int, s1: int, s2: int, s3: int)
    requires 0 <= s0 < 64 && 0 <= s1 < 64 && 0 <= s2 < 64 && 0 <= s3 < 64
    ensures var v := 0x4_0000 * s0 + 0x1000 * s1 + 0x40 * s2 + s3;
            && 0 <= v < 0x100_0000 && v / 0x1_0000 == 4 * s0 + s1 / 16
            && v / 0x100 % 0x100 == s1 % 16 * 16 + s2 / 4 && v % 0x100 == s2 % 4 * 64 + s3
  {
    var v := 0x4_0000 * s0 + 0x1000 * s1 + 0x40 * s2 + s3;
    ModUnique(v, 0x1_0000, 4 * s0 + s1 / 16, s1 % 16 * 0x1000 + 0x40 * s2 + s3);
    ModUnique(v, 0x100, 0x400 * s0 + 0x10 * s1 + s2 / 4, s2 % 4 * 64 + s3);
    ModUnique(v / 0x100, 0x100, 4 * s0 + s1 / 16, s1 % 16 * 16 + s2 / 4);
  }

  lemma PackDigits(b: seq<u8>)
    requires |b| == 3
    ensures Digits(Pack(b))
    ensures Sextet(Pack(b)[0]) == b[0] / 4 && Sextet(Pack(b)[1]) == b[0] % 4 * 16 + b[1] / 16
    ensures Sextet(Pack(b)[2]) == b[1] % 16 * 4 + b[2] / 64 && Sextet(Pack(b)[3]) == b[2] % 64
  {
    hide Letter, Sextet;
    SextetOfLetter(b[0] / 4);
    SextetOfLetter(b[0] % 4 * 16 + b[1] / 16);
    SextetOfLetter(b[1] % 16 * 4 + b[2] / 64);
    SextetOfLetter(b[2] % 64);
  }

  lemma SplitPack(b: seq<u8>)
    requires |b| == 3
    ensures Digits(Pack(b)) && Split(Word(Pack(b))) == b
  {
    hide Letter, Sextet, Digits, Pack;
    PackDigits(b);
    SplitParts(b[0] / 4, b[0] % 4 * 16 + b[1] / 16, b[1] % 16 * 4 + b[2] / 64, b[2] % 64);
    Nibbles(b[0], b[1], b[2]);
  }

  lemma Nibbles(x: u8, y: u8, z: u8)
    ensures 4 * (x / 4) + (x % 4 * 16 + y / 16) / 16 == x
    ensures (x % 4 * 16 + y / 16) % 16 * 16 + (y % 16 * 4 + z / 64) / 4 == y
    ensures (y % 16 * 4 + z / 64) % 4 * 64 + z % 64 == z
  {
    ModUnique(x % 4 * 16 + y / 16, 16, x % 4, y / 16);
    ModUnique(y % 16 * 4 + z / 64, 4, y % 16, z / 64);
  }

  lemma Sextets(s0: int, s1: int, s2: int, s3: int, x: int, y: int, z: int)
    requires 0 <= s0 < 64 && 0 <= s1 < 64 && 0 <= s2 < 64 && 0 <= s3 < 64
    requires x == 4 * s0 + s1 / 16 && y == s1 % 16 * 16 + s2 / 4 && z == s2 % 4 * 64 + s3
    ensures x / 4 == s0 && x % 4 * 16 + y / 16 == s1 && y % 16 * 4 + z / 64 == s2 && z % 64 == s3
  {
    ModUnique(x, 4, s0, s1 / 16);
    ModUnique(y, 16, s1 % 16, s2 / 4);
    ModUnique(z, 64, s2 % 4, s3);
  }

  lemma PackSplit(s: string)
    requires |s| == 4 && Digits(s)
    ensures Pack(Split(Word(s))) == s
  {
    hide Letter, Sextet;
    var s0, s1, s2, s3 := Sextet(s[0]), Sextet(s[1]), Sextet(s[2]), Sextet(s[3]);
    SplitParts(s0, s1, s2, s3);
    var b := Split(Word(s));
    Sextets(s0, s1, s2, s3, b[0], b[1], b[2]);
    LetterOfSextet(s[0]);
    LetterOfSextet(s[1]);
    LetterOfSextet(s[2]);
    LetterOfSextet(s[3]);
  }

  // ----- whole keys

  /** n blocks of bytes as n blocks of characters. */
  function PackAll(b: seq<u8>, n: nat): (s: string)
    requires |b| == 3 * n
    ensures |s| == 4 * n
  {
    if n == 0 then "" else PackAll(b[..3 * n - 3], n - 1) + Pack(b[3 * n - 3..])
  }

  function SplitAll(s: string, n: nat): (b: seq<u8>)
    requires |s| == 4 * n && Digits(s)
    ensures |b| == 3 * n
  {
    if n == 0 then [] else SplitAll(s[..4 * n - 4], n - 1) + Split(Word(s[4 * n - 4..]))
  }

  lemma {:induction false} SplitAllPackAll(b: seq<u8>, n: nat)
    requires |b| == 3 * n
    ensures Digits(PackAll(b, n)) && SplitAll(PackAll(b, n), n) == b
  {
    hide Pack, Split, Word, Sextet;
    if n > 0 {
      var init, last := b[..3 * n - 3], b[3 * n - 3..];
      SplitAllPackAll(init, n - 1);
      SplitPack(last);
      var s := PackAll(b, n);
      assert s[..4 * n - 4] == PackAll(init, n - 1) && s[4 * n - 4..] == Pack(last);
    }
  }

  lemma {:induction false} PackAllSplitAll(s: string, n: nat)
    requires |s| == 4 * n && Digits(s)
    ensures PackAll(SplitAll(s, n), n) == s
  {
    hide Pack, Split, Word, Sextet;
    if n > 0 {
      var init, last := s[..4 * n - 4], s[4 * n - 4..];
      PackAllSplitAll(init, n - 1);
      PackSplit(last);
      var b := SplitAll(s, n);
      assert b[..3 * n - 3] == SplitAll(init, n - 1) && b[3 * n - 3..] == Split(Word(last));
    }
  }

  /** A key in base64: ten blocks, then two bytes in three characters, then padding. */
  function Base64(key: Key): (s: string)
    ensures |s| == 44
  {
    PackAll(key[..30], 10) + Pack(key[30..] + [0])[..3] + "="
  }

  /** The strings a decoder may accept: base64 of the right length with zero pad bits. */
  predicate WellFormed(s: string) {
    |s| == 44 && s[43] == '=' && Digits(s[..43]) && Sextet(s[42]) % 4 == 0
  }

  /** The last three characters, completed to a block. */
  function Tail(s: string): (t: string)
    requires |s| == 44 && Digits(s[..43])
    ensures |t| == 4 && Digits(t)
  {
    s[40..43] + "A"
  }

  function KeyOf(s: string): Key
    requires |s| == 44 && Digits(s[..43])
  {
    SplitAll(s[..40], 10) + Split(Word(Tail(s)))[..2]
  }

  /** Decoding undoes encoding, for every key. */
  lemma DecodeEncode(key: Key)
    ensures WellFormed(Base64(key)) && KeyOf(Base64(key)) == key
  {
    hide PackAll, SplitAll, Pack, Split, Word, Sextet, Letter;
    var s, last := Base64(key), key[30..] + [0];
    SplitAllPackAll(key[..30], 10);
    PackDigits(last);
    SplitPack(last);
    assert s[..40] == PackAll(key[..30], 10) && s[40..43] == Pack(last)[..3];
    assert Digits(s[..43]) by {
      forall i | 0 <= i < 43 ensures Sextet(s[i]) >= 0 {
        assert if i < 40 then s[i] == s[..40][i] else s[i] == Pack(last)[i - 40];
      }
    }
    ZeroLetter();
    LetterOfSextet(Pack(last)[3]);
    assert Tail(s) == Pack(last);
    assert s[42] == Pack(last)[2];
    LastSextet(key[31]);
  }

  lemma LastSextet(y: u8)
    ensures (y % 16 * 4 + 0 / 64) % 4 == 0
  {
  }

  lemma ZeroLetter()
    ensures Letter(0) == 'A' && Sextet('A') == 0
  {
  }

  /** An accepted string is the only text of its key: it re-encodes to itself. */
  lemma EncodeDecode(s: string)
    requires WellFormed(s)
    ensures Base64(KeyOf(s)) == s
  {
    hide PackAll, SplitAll, Pack, Split, Word, Sextet, Letter;
    var key := KeyOf(s);
    PackAllSplitAll(s[..40], 10);
    PackSplit(Tail(s));
    LowByte(s);
    assert key[..30] == SplitAll(s[..40], 10);
    assert key[30..] + [0] == Split(Word(Tail(s)));
    assert s[40..43] == Tail(s)[..3];
    assert s == s[..40] + s[40..43] + "=";
  }

  /** The low byte of the last block holds the pad bits. */
  lemma LowByte(s: string)
    requires |s| == 44 && Digits(s[..43])
    ensures Split(Word(Tail(s)))[2] == Sextet(s[42]) % 4 * 64
  {
    hide Sextet, Letter;
    ZeroLetter();
    var t := Tail(s);
    assert t[2] == s[42] && t[3] == 'A';
    SplitParts(Sextet(t[0]), Sextet(t[1]), Sextet(t[2]), Sextet(t[3]));
  }

  // ----- the encoder

  lemma LowBits(x: int)
    ensures And(0x3f, x) == x % 0x40 && And(0xff, x) == x % 0x100 && And(1, x) == x % 2
  {
    hide And;
    assert Pow2(6) == 0x40 && Pow2(8) == 0x100 && Pow2(1) == 2 by { Pow2Values(); }
    AndMask(x, 6);
    AndMask(x, 8);
    AndMask(x, 1);
  }

  /** The four six-bit inputs of `encode_base64`. */
  function Inputs(a: u8, b: u8, c: u8): (r: seq<int>)
    ensures |r| == 4
  {
    [And(0x3f, a / 4), And(0x3f, Or(a as int * 16, b / 16)), And(0x3f, Or(b as int * 4, c / 64)), And(0x3f, c)]
  }

  lemma InputsAre(a: u8, b: u8, c: u8)
    ensures Inputs(a, b, c) == [a / 4, a % 4 * 16 + b / 16, b % 16 * 4 + c / 64, c % 64]
  {
    hide And, Or;
    assert Pow2(4) == 16 && Pow2(2) == 4;
    OrDisjoint(a, b / 16, 4);
    OrDisjoint(b, c / 64, 2);
    LowBits(a / 4);
    LowBits(16 * a as int + b / 16);
    LowBits(4 * b as int + c / 64);
    LowBits(c);
    ModUnique(16 * a as int + b / 16, 64, a / 4, a % 4 * 16 + b / 16);
    ModUnique(4 * b as int + c / 64, 64, b / 16, b % 16 * 4 + c / 64);
  }

  /** `encode_base64` into dest at an offset */
  method EncodeBase64(dest: array<char>, at: nat, src: seq<u8>)
    requires |src| == 3 && at + 4 <= dest.Length
    modifies dest
    ensures dest[at..at + 4] == Pack(src)
    ensures dest[..at] == old(dest[..at]) && dest[at + 4..] == old(dest[at + 4..])
  {
    hide And, Or, Letter, EncodeChar;
    var input := Inputs(src[0], src[1], src[2]);
    InputsAre(src[0], src[1], src[2]);
    var i := 0;
    while i < 4
      invariant 0 <= i <= 4
      invariant forall k :: 0 <= k < i ==> dest[at + k] == Pack(src)[k]
      invariant dest[..at] == old(dest[..at]) && dest[at + 4..] == old(dest[at + 4..])
    {
      EncodeCharIs(input[i]);
      dest[at + i] := EncodeChar(input[i]) as char;
      i := i + 1;
    }
  }

  /** `key_to_base64` */
  method KeyToBase64(dest: array<char>, key: Key)
    requires dest.Length == 45
    modifies dest
    ensures dest[..44] == Base64(key) && dest[44] == 0 as char
  {
    hide Pack, PackAll;
    var i := 0;
    assert PackAll([], 0) == "" by { NothingPacked(); }
    assert key[..0] == [];
    while i < 10
      invariant 0 <= i <= 10 && dest[..4 * i] == PackAll(key[..3 * i], i)
    {
      EncodeBase64(dest, i * 4, key[i * 3..i * 3 + 3]);
      PackNext(key, i);
      assert dest[..4 * i + 4] == dest[..4 * i] + dest[4 * i..4 * i + 4];
      i := i + 1;
    }
    EncodeBase64(dest, i * 4, [key[i * 3], key[i * 3 + 1], 0]);
    assert dest[..40] == PackAll(key[..30], 10);
    assert [key[30], key[31], 0] == key[30..] + [0];
    assert dest[40..43] == dest[40..44][..3];
    dest[43] := '=';
    dest[44] := 0 as char;
    assert dest[..44] == dest[..40] + dest[40..43] + [dest[43]];
  }

  lemma NothingPacked()
    ensures PackAll([], 0) == ""
  {
  }

  lemma PackNext(key: Key, i: nat)
    requires i < 10
    ensures PackAll(key[..3 * (i + 1)], i + 1) == PackAll(key[..3 * i], i) + Pack(key[3 * i..3 * i + 3])
  {
    hide Pack;
    var b := key[..3 * (i + 1)];
    assert b[..3 * i] == key[..3 * i] && b[3 * i..] == key[3 * i..3 * i + 3];
  }

  // ----- the decoder

  lemma {:induction false} OrRange(x: int, y: int, n: nat)
    requires 0 <= x + Pow2(n) < 2 * Pow2(n) && 0 <= y + Pow2(n) < 2 * Pow2(n)
    ensures 0 <= Or(x, y) + Pow2(n) < 2 * Pow2(n)
    decreases n
  {
    if x != 0 && x != -1 {
      assert n > 0;
      OrRange(x / 2, y / 2, n - 1);
    }
  }

  /** The value read from the first i of four characters, negative once one of them is not a digit. */
  ghost predicate Reads(val: int, s: string, i: nat)
    requires |s| == 4 && i <= 4
  {
    && -0x100_0000 <= val < 0x100_0000
    && (val < 0 <==> !Digits(s[..i]))
    && (val >= 0 ==> val == Partial(s, i))
  }

  function Partial(s: string, i: nat): int
    requires |s| == 4 && i <= 4
  {
    (if i > 0 then 0x4_0000 * Sextet(s[0]) else 0) + (if i > 1 then 0x1000 * Sextet(s[1]) else 0)
    + (if i > 2 then 0x40 * Sextet(s[2]) else 0) + (if i > 3 then Sextet(s[3]) else 0)
  }

  lemma DigitsSnoc(s: string, i: nat)
    requires i < |s|
    ensures Digits(s[..i + 1]) <==> Digits(s[..i]) && Sextet(s[i]) >= 0
  {
    hide Sextet;
    assert forall k :: 0 <= k < i ==> s[..i + 1][k] == s[..i][k];
    assert s[..i + 1][i] == s[i];
  }

  /** 2^(18 - 6 i) */
  function Shift(i: nat): int
    requires i < 4
  {
    if i == 0 then 0x4_0000 else if i == 1 then 0x1000 else if i == 2 then 0x40 else 1
  }

  /** Or-ing in the next digit. */
  lemma ReadsNext(val: int, s: string, i: nat)
    requires |s| == 4 && i < 4 && Reads(val, s, i)
    ensures Reads(Or(val, Sextet(s[i]) * Shift(i)), s, i + 1)
  {
    hide Or, Sextet, Digits, Pow2;
    var d := Sextet(s[i]);
    assert Pow2(24) == 0x100_0000 && Pow2(18) == 0x4_0000 && Pow2(12) == 0x1000 && Pow2(6) == 0x40 && Pow2(0) == 1 by { Powers(); }
    OrRange(val, d * Shift(i), 24);
    OrSign(val, d * Shift(i));
    DigitsSnoc(s, i);
    if val >= 0 && d >= 0 { OrNext(val, s, i); }
  }

  lemma Powers()
    ensures Pow2(24) == 0x100_0000 && Pow2(18) == 0x4_0000 && Pow2(12) == 0x1000 && Pow2(6) == 0x40 && Pow2(0) == 1
  {
    Pow2Values();
    Pow2Add(8, 16);
    Pow2Add(6, 12);
  }

  lemma OrNext(val: int, s: string, i: nat)
    requires |s| == 4 && i < 4 && val >= 0 && Sextet(s[i]) >= 0 && Digits(s[..i]) && val == Partial(s, i)
    ensures Or(val, Sextet(s[i]) * Shift(i)) == Partial(s, i + 1)
  {
    hide Or, Sextet, Pow2;
    Powers();
    var d := Sextet(s[i]);
    if i == 0 {
      OrNothing(d * Shift(0));
    } else {
      assert s[..i][0] == s[0] && (i > 1 ==> s[..i][1] == s[1]) && (i > 2 ==> s[..i][2] == s[2]);
      var s0, s1, s2 := Sextet(s[0]), if i > 1 then Sextet(s[1]) else 0, if i > 2 then Sextet(s[2]) else 0;
      if i == 1 {
        OrDisjoint(s0, d * 0x1000, 18);
      } else if i == 2 {
        OrDisjoint(0x40 * s0 + s1, d * 0x40, 12);
      } else {
        OrDisjoint(0x1000 * s0 + 0x40 * s1 + s2, d, 6);
      }
    }
  }

  /** `decode_base64`: negative exactly when some character is outside the alphabet. */
  method DecodeBase64(src: Text) returns (val: int)
    requires |src| == 4
    ensures -0x100_0000 <= val < 0x100_0000
    ensures if Digits(src) then val == Word(src) else val < 0
  {
    hide Or, DecodeChar, Sextet, Shift, Partial, Digits;
    assert Reads(0, src, 0) by { ReadsNothing(src); }
    val := 0;
    var i := 0;
    while i < 4
      invariant 0 <= i <= 4 && Reads(val, src, i)
    {
      DecodeCharIs(src[i], src[i] as int);
      ReadsNext(val, src, i);
      val := Or(val, DecodeChar(src[i] as int) * Shift(i));
      i := i + 1;
    }
    assert src[..4] == src;
    if Digits(src) { WholeWord(src); }
  }

  lemma ReadsNothing(s: string)
    requires |s| == 4
    ensures Reads(0, s, 0)
  {
  }

  lemma WholeWord(s: string)
    requires |s| == 4 && Digits(s)
    ensures Partial(s, 4) == Word(s)
  {
    hide Sextet;
  }

  /** (uint32_t)x >> 31 */
  function SignBit(x: int): int { x % 0x1_0000_0000 / 0x8000_0000 }

  lemma SignBitIs(x: int)
    requires -0x8000_0000 <= x < 0x8000_0000
    ensures SignBit(x) == if x < 0 then 1 else 0
  {
    if x < 0 { ModUnique(x, 0x1_0000_0000, -1, x + 0x1_0000_0000); }
  }

  /** 1 & ((x - 1) >> 8) */
  function ZeroFlag(x: int): int { And(1, Shr8(x - 1)) }

  lemma ZeroFlagIs(x: int)
    requires 0 <= x < 0x100
    ensures ZeroFlag(x) == if x == 0 then 1 else 0
  {
    hide And;
    SignOf(x - 1);
    LowBits(Shr8(x - 1));
  }

  lemma OrByte(x: int, y: int)
    requires 0 <= x < 0x100 && 0 <= y < 0x100
    ensures 0 <= Or(x, y) < 0x100 && (Or(x, y) == 0 <==> x == 0 && y == 0)
  {
    hide Or, Pow2;
    assert Pow2(8) == 0x100 by { Pow2Values(); }
    OrBounds(x, y, 8);
    OrNothing(y);
  }

  method StoreBlock(key: array<u8>, at: nat, val: int)
    requires at + 3 <= key.Length
    modifies key
    ensures key[..at] == old(key[..at])
    ensures 0 <= val < 0x100_0000 ==> key[at..at + 3] == Split(val)
  {
    hide And;
    LowBits(val / 0x1_0000);
    LowBits(val / 0x100);
    LowBits(val);
    key[at] := And(0xff, val / 0x1_0000);
    key[at + 1] := And(0xff, val / 0x100);
    key[at + 2] := And(0xff, val);
  }

  /** `key_from_base64` accepts exactly the canonical texts, and decodes them. */
  method KeyFromBase64(key: array<u8>, base64: Text) returns (ok: bool)
    requires key.Length == 32
    modifies key
    ensures ok <==> WellFormed(base64)
    ensures ok ==> key[..] == KeyOf(base64)
  {
    hide Or, And, Sextet, Word, Split, SplitAll, Digits, SignBit, ZeroFlag;
    if |base64| != 44 || base64[43] != '=' {
      return false;
    }
    var ret, i := 0, 0;
    NothingSplit(base64);
    while i < 10
      invariant 0 <= i <= 10 && 0 <= ret < 0x100
      invariant ret == 0 <==> Digits(base64[..4 * i])
      invariant ret == 0 ==> key[..3 * i] == SplitAll(base64[..4 * i], i)
    {
      var block := base64[4 * i..4 * i + 4];
      var val := DecodeBase64(block);
      SignBitIs(val);
      OrByte(ret, SignBit(val));
      ret := Or(ret, SignBit(val));
      StoreBlock(key, i * 3, val);
      SplitNext(base64, i);
      assert key[..3 * i + 3] == key[..3 * i] + key[3 * i..3 * i + 3];
      i := i + 1;
    }
    ok := FinishKey(key, base64, ret);
  }

  lemma NothingSplit(s: string)
    requires |s| == 44
    ensures Digits(s[..0]) && SplitAll(s[..0], 0) == []
  {
  }

  lemma DigitsConcat(a: string, b: string)
    ensures Digits(a + b) <==> Digits(a) && Digits(b)
  {
    hide Sextet;
    if Digits(a + b) {
      forall i | 0 <= i < |a| ensures Sextet(a[i]) >= 0 { assert (a + b)[i] == a[i]; }
      forall i | 0 <= i < |b| ensures Sextet(b[i]) >= 0 { assert (a + b)[|a| + i] == b[i]; }
    }
  }

  lemma SplitNext(s: string, i: nat)
    requires |s| == 44 && i < 10
    ensures Digits(s[..4 * (i + 1)]) <==> Digits(s[..4 * i]) && Digits(s[4 * i..4 * i + 4])
    ensures Digits(s[..4 * (i + 1)]) ==>
      SplitAll(s[..4 * (i + 1)], i + 1) == SplitAll(s[..4 * i], i) + Split(Word(s[4 * i..4 * i + 4]))
  {
    hide Split, Word, Digits, Sextet;
    var t := s[..4 * (i + 1)];
    assert t[..4 * i] == s[..4 * i] && t[4 * i..] == s[4 * i..4 * i + 4];
    assert t == s[..4 * i] + s[4 * i..4 * i + 4];
    DigitsConcat(s[..4 * i], s[4 * i..4 * i + 4]);
  }

  /** The last block: two bytes, and pad bits that must be zero. */
  method FinishKey(key: array<u8>, base64: Text, ret0: int) returns (ok: bool)
    requires key.Length == 32 && |base64| == 44 && base64[43] == '=' && 0 <= ret0 < 0x100
    requires ret0 == 0 <==> Digits(base64[..40])
    requires ret0 == 0 ==> key[..30] == SplitAll(base64[..40], 10)
    modifies key
    ensures ok <==> WellFormed(base64)
    ensures ok ==> key[..] == KeyOf(base64)
  {
    hide Or, And, Sextet, Word, Split, SplitAll, Digits, SignBit, ZeroFlag;
    var tail := base64[40..43] + "A";
    var val := DecodeBase64(tail);
    TailDigits(base64);
    SignBitIs(val);
    LowBits(val);
    OrByte(SignBit(val), And(0xff, val));
    OrByte(ret0, Or(SignBit(val), And(0xff, val)));
    var ret := Or(ret0, Or(SignBit(val), And(0xff, val)));
    LowBits(val / 0x1_0000);
    LowBits(val / 0x100);
    key[30] := And(0xff, val / 0x1_0000);
    key[31] := And(0xff, val / 0x100);
    ZeroFlagIs(ret);
    ok := ZeroFlag(ret) == 1;
    if Digits(base64[..43]) {
      LowByte(base64);
      SplitIs(val);
      assert key[..] == key[..30] + [key[30], key[31]];
    }
  }

  lemma SplitIs(v: int)
    requires 0 <= v < 0x100_0000
    ensures Split(v)[..2] == [v / 0x1_0000 % 0x100, v / 0x100 % 0x100] && Split(v)[2] == v % 0x100
  {
  }

  lemma TailDigits(s: string)
    requires |s| == 44
    ensures Digits(s[..43]) <==> Digits(s[..40]) && Digits(s[40..43] + "A")
    ensures Digits(s[..43]) ==> Tail(s) == s[40..43] + "A"
    ensures Digits(s[..43]) ==> Sextet(s[42]) >= 0
  {
    hide Sextet;
    ZeroLetter();
    assert s[..43] == s[..40] + s[40..43];
    DigitsConcat(s[..40], s[40..43]);
    DigitsConcat(s[40..43], "A");
    assert s[..43][42] == s[42];
  }

  // ----- the highlighter's key check

  /** `is_valid_key` */
  method IsValidKey(s: string) returns (ok: bool)
    ensures ok <==> WellFormed(s)
  {
    hide Sextet, Digits;
    if |s| != 44 || s[43] != '=' {
      return false;
    }
    var i := 0;
    assert Digits(s[..0]) by { NothingSplit(s); }
    while i < 42
      invariant 0 <= i <= 42 && Digits(s[..i])
    {
      DigitsSnoc(s, i);
      InAlphabet(s[i]);
      if !Decimal(s[i]) && !Alphabetic(s[i]) && s[i] != '/' && s[i] != '+' {
        DigitsPrefix(s, i);
        return false;
      }
      i := i + 1;
    }
    DigitsSnoc(s, 42);
    PadBits(s[42]);
    ok := s[42] in PAD_LETTERS;
  }

  lemma InAlphabet(c: char)
    ensures Sextet(c) >= 0 <==> Decimal(c) || Alphabetic(c) || c == '/' || c == '+'
  {
  }

  lemma DigitsPrefix(s: string, i: nat)
    requires |s| == 44 && i < 43 && Sextet(s[i]) < 0
    ensures !Digits(s[..43])
  {
    hide Sextet;
    assert s[..43][i] == s[i];
  }

  const PAD_LETTERS := "AEIMQUYcgkosw048"

  lemma PadLetter(k: nat)
    requires k < 16
    ensures Sextet(PAD_LETTERS[k]) == 4 * k
  {
    var c := PAD_LETTERS[k];
    assert if k < 7 then c as int == 65 + 4 * k else if k < 13 then c as int == 71 + 4 * k else c as int == 4 * k - 4;
  }

  /** The sixteen characters whose two low bits are zero. */
  lemma PadBits(c: char)
    ensures c in PAD_LETTERS <==> Sextet(c) >= 0 && Sextet(c) % 4 == 0
  {
    hide Sextet, Letter;
    if c in PAD_LETTERS {
      var k :| 0 <= k < 16 && PAD_LETTERS[k] == c;
      PadLetter(k);
    }
    if Sextet(c) >= 0 && Sextet(c) % 4 == 0 {
      var k := Sextet(c) / 4;
      PadLetter(k);
      LetterOfSextet(c);
      LetterOfSextet(PAD_LETTERS[k]);
    }
  }

  // ----- hexadecimal

  function HexLetter(v: int): char
    requires 0 <= v < 16
  {
    if v < 10 then '0' + v as char else 'a' + (v - 10) as char
  }

  function HexValue(c: char): (v: int)
    ensures -1 <= v < 16
  {
    if '0' <= c <= '9' then c as int - '0' as int
    else if 'a' <= c <= 'f' then c as int - 'a' as int + 10
    else if 'A' <= c <= 'F' then c as int - 'A' as int + 10
    else -1
  }

  /** One digit of `key_to_hex`, in 32-bit arithmetic truncated to a char. */
  function EncodeNibble(v: int): int {
    (87 + v + And((v - 10) % 0x1_0000_0000 / 0x100, 0xffff_ffd9)) % 0x100
  }

  lemma EncodeNibbleIs(v: int)
    requires 0 <= v < 16
    ensures EncodeNibble(v) == HexLetter(v) as int
  {
    hide And, Pow2;
    BelowMask(v, 10);
    AndEnds(0xffff_ffd9);
    if v < 10 {
      assert Pow2(24) == 0x100_0000 by { Powers(); }
      AndMask(0xffff_ffd9, 24);
      ModUnique(0x100_0030 + v, 0x100, 0x1_0000, 0x30 + v);
    }
  }

  /** The masks and values that `key_from_hex` computes for one character. */
  function DigitPart(c: int): int { Xor(48, c) }

  function DigitMask(c: int): int { (DigitPart(c) - 10) % 0x1_0000_0000 / 0x100 % 0x100 }

  function LetterPart(c: int): int { (And(0xffff_ffdf, c) - 55) % 0x100 }

  function LetterMask(c: int): int {
    Xor((LetterPart(c) - 10) % 0x1_0000_0000, (LetterPart(c) - 16) % 0x1_0000_0000) / 0x100 % 0x100
  }

  lemma DigitPartIs(c: int)
    requires 0 <= c < 0x100
    ensures 0 <= DigitPart(c) < 0x100
    ensures DigitPart(c) < 10 <==> 48 <= c <= 57
    ensures DigitPart(c) < 10 ==> DigitPart(c) == c - 48
  {
    hide Xor;
    XorEven(24, c);
    XorEven(12, c / 2);
    XorEven(6, c / 4);
    XorEven(3, c / 8);
    XorThree(c / 16);
    FourHalves(c);
    assert Xor(48, c) == 16 * Xor(3, c / 16) + c % 16;
  }

  lemma FourHalves(c: int)
    requires 0 <= c < 0x100
    ensures c / 2 / 2 == c / 4 && c / 4 / 2 == c / 8 && c / 8 / 2 == c / 16
    ensures c % 2 + 2 * (c / 2 % 2) + 4 * (c / 4 % 2) + 8 * (c / 8 % 2) == c % 16
  {
  }

  lemma XorEven(m: int, x: int)
    requires m >= 1
    ensures Xor(2 * m, x) == 2 * Xor(m, x / 2) + x % 2
  {
  }

  lemma XorThree(d: int)
    requires 0 <= d < 16
    ensures 0 <= Xor(3, d) < 16 && (Xor(3, d) == 0 <==> d == 3)
  {
    assert Xor(3, d) == 2 * Xor(1, d / 2) + (1 - d % 2);
    assert Xor(1, d / 2) == 2 * (d / 2 / 2) + (1 - d / 2 % 2);
  }

  lemma BelowMask(x: int, n: int)
    requires 0 <= x < 0x100 && 0 < n < 0x100
    ensures (x - n) % 0x1_0000_0000 / 0x100 == if x < n then 0xff_ffff else 0
  {
    if x < n {
      ModUnique(x - n, 0x1_0000_0000, -1, x - n + 0x1_0000_0000);
      ModUnique(x - n + 0x1_0000_0000, 0x100, 0xff_ffff, x - n + 0x100);
    }
  }

  lemma DigitMaskIs(c: int)
    requires 0 <= c < 0x100
    ensures DigitMask(c) == if 48 <= c <= 57 then 0xff else 0
  {
    hide DigitPart;
    DigitPartIs(c);
    BelowMask(DigitPart(c), 10);
  }

  function Half(x: int): int { x / 2 }

  function Odd(x: int): int { x % 2 }

  lemma AndBit(m: int, x: int)
    requires m >= 1
    ensures And(2 * m + 1, x) == 2 * And(m, Half(x)) + Odd(x) && And(2 * m, x) == 2 * And(m, Half(x))
  {
    hide And;
    AndOdd(m, x);
    AndDouble(m, x);
  }

  lemma ClearBitFive(c0: int, c1: int, c2: int, c3: int, c4: int, c5: int, c6: int)
    requires c1 == Half(c0) && c2 == Half(c1) && c3 == Half(c2) && c4 == Half(c3) && c5 == Half(c4) && c6 == Half(c5)
    ensures And(0xffff_ffdf, c0)
         == Odd(c0) + 2 * Odd(c1) + 4 * Odd(c2) + 8 * Odd(c3) + 16 * Odd(c4) + 64 * And(0x3ff_ffff, c6)
  {
    hide And, Half, Odd;
    AndBit(0x7fff_ffef, c0);
    AndBit(0x3fff_fff7, c1);
    AndBit(0x1fff_fffb, c2);
    AndBit(0xfff_fffd, c3);
    AndBit(0x7ff_fffe, c4);
    AndBit(0x3ff_ffff, c5);
  }

  /** c & ~32 */
  lemma ClearCase(c: int)
    requires 0 <= c < 0x100
    ensures And(0xffff_ffdf, c) == c - c / 32 % 2 * 32
  {
    hide And, Half, Odd;
    Halves(c);
    ClearBitFive(c, c / 2, c / 4, c / 8, c / 16, c / 32, c / 64);
    SmallAnd(c / 64);
    OddSum(c);
  }

  lemma SmallAnd(x: int)
    requires 0 <= x < 0x400_0000
    ensures And(0x3ff_ffff, x) == x
  {
    hide And, Pow2;
    assert Pow2(26) == 0x400_0000 by {
      Powers();
      Pow2Add(8, 18);
      Pow2Values();
    }
    AndMask(x, 26);
  }

  lemma Halves(c: int)
    requires 0 <= c < 0x100
    ensures c / 2 == Half(c) && c / 4 == Half(c / 2) && c / 8 == Half(c / 4) && c / 16 == Half(c / 8)
    ensures c / 32 == Half(c / 16) && c / 64 == Half(c / 32)
  {
  }

  lemma OddSum(c: int)
    requires 0 <= c < 0x100
    ensures Odd(c) + 2 * Odd(c / 2) + 4 * Odd(c / 4) + 8 * Odd(c / 8) + 16 * Odd(c / 16) + 64 * (c / 64) == c - c / 32 % 2 * 32
  {
    FourHalves(c);
    SixHalves(c);
  }

  lemma SixHalves(c: int)
    requires 0 <= c < 0x100
    ensures c % 16 + 16 * (c / 16 % 2) == c % 32 && 64 * (c / 64) + c % 32 == c - c / 32 % 2 * 32
  {
  }

  lemma LetterPartIs(c: int)
    requires 0 <= c < 0x100
    ensures 0 <= LetterPart(c) < 0x100
    ensures 10 <= LetterPart(c) < 16 <==> 65 <= c <= 70 || 97 <= c <= 102
    ensures 65 <= c <= 70 ==> LetterPart(c) == c - 55
    ensures 97 <= c <= 102 ==> LetterPart(c) == c - 87
  {
    hide And;
    ClearCase(c);
    var u := c - c / 32 % 2 * 32;
    if u < 55 { ModUnique(u - 55, 0x100, -1, u - 55 + 0x100); }
  }

  lemma LetterMaskIs(c: int)
    requires 0 <= c < 0x100
    ensures LetterMask(c) == if 65 <= c <= 70 || 97 <= c <= 102 then 0xff else 0
  {
    hide LetterPart, Xor, Pow2;
    LetterPartIs(c);
    var p := LetterPart(c);
    assert Pow2(8) == 0x100 by { Pow2Values(); }
    XorShift((p - 10) % 0x1_0000_0000, (p - 16) % 0x1_0000_0000, 8);
    BelowMask(p, 10);
    BelowMask(p, 16);
    XorZero(0xff_ffff);
    XorComm(0, 0xff_ffff);
    XorZero(0);
    XorUndo(0xff_ffff, 0);
  }

  /** The value of one character, and whether it is a digit. */
  function Nibble(c: int): int { Or(And(DigitMask(c), DigitPart(c)), And(LetterMask(c), LetterPart(c))) }

  function BadNibble(c: int): int { Shr8(Or(DigitMask(c), LetterMask(c)) - 1) % 0x100 }

  lemma ByteMask(x: int)
    requires 0 <= x < 0x100
    ensures And(0xff, x) == x && And(0, x) == 0 && Or(x, 0) == x && Or(0, x) == x
  {
    hide And, Or;
    LowBits(x);
    AndEnds(x);
    OrZero(x);
    OrNothing(x);
  }

  lemma NibbleIs(c: char)
    requires c as int < 0x100
    ensures Nibble(c as int) == if HexValue(c) >= 0 then HexValue(c) else 0
    ensures BadNibble(c as int) == if HexValue(c) >= 0 then 0 else 0xff
  {
    hide And, Or, DigitMask, LetterMask, DigitPart, LetterPart;
    var n := c as int;
    DigitMaskIs(n);
    DigitPartIs(n);
    LetterMaskIs(n);
    LetterPartIs(n);
    ByteMask(DigitPart(n));
    ByteMask(LetterPart(n));
    ByteMask(0xff);
    ByteMask(0);
    SignOf(0xff - 1);
    SignOf(0 - 1);
  }

  function Hex(b: seq<u8>): (s: string)
    ensures |s| == 2 * |b|
  {
    if b == [] then "" else Hex(b[..|b| - 1]) + [HexLetter(b[|b| - 1] / 16), HexLetter(b[|b| - 1] % 16)]
  }

  predicate HexDigits(s: string) { forall i :: 0 <= i < |s| ==> HexValue(s[i]) >= 0 }

  function Unhex(s: string, n: nat): (b: seq<u8>)
    requires |s| == 2 * n && HexDigits(s)
    ensures |b| == n
  {
    if n == 0 then []
    else
      var k := 2 * n - 2;
      Unhex(s[..k], n - 1) + [16 * HexValue(s[k]) + HexValue(s[k + 1])]
  }

  lemma HexValueOfLetter(v: int)
    requires 0 <= v < 16
    ensures HexValue(HexLetter(v)) == v
  {
  }

  /** Hexadecimal decoding undoes encoding. */
  lemma {:induction false} UnhexHex(b: seq<u8>)
    ensures HexDigits(Hex(b)) && Unhex(Hex(b), |b|) == b
  {
    hide HexValue, HexLetter;
    if b != [] {
      var init, x := b[..|b| - 1], b[|b| - 1];
      UnhexHex(init);
      HexValueOfLetter(x / 16);
      HexValueOfLetter(x % 16);
      assert Hex(b)[..|Hex(b)| - 2] == Hex(init);
    }
  }

  /** `key_to_hex` */
  method KeyToHex(dest: array<char>, key: Key)
    requires dest.Length == 65
    modifies dest
    ensures dest[..64] == Hex(key) && dest[64] == 0 as char
  {
    hide EncodeNibble, HexLetter, Hex;
    assert Hex(key[..0]) == [] by { NothingHex(key); }
    var i := 0;
    while i < 32
      invariant 0 <= i <= 32 && dest[..2 * i] == Hex(key[..i])
    {
      EncodeNibbleIs(key[i] / 16);
      EncodeNibbleIs(key[i] % 16);
      dest[i * 2] := EncodeNibble(key[i] / 16) as char;
      dest[i * 2 + 1] := EncodeNibble(key[i] % 16) as char;
      HexNext(key, i);
      assert dest[..2 * i + 2] == dest[..2 * i] + [dest[2 * i], dest[2 * i + 1]];
      i := i + 1;
    }
    assert key[..32] == key;
    dest[64] := 0 as char;
  }

  lemma NothingHex(key: Key)
    ensures Hex(key[..0]) == []
  {
  }

  lemma HexNext(b: seq<u8>, i: nat)
    requires i < |b|
    ensures Hex(b[..i + 1]) == Hex(b[..i]) + [HexLetter(b[i] / 16), HexLetter(b[i] % 16)]
  {
    hide HexLetter;
    assert b[..i + 1][..i] == b[..i];
  }

  /** `key_from_hex` accepts exactly 64 hexadecimal digits of either case. */
  method KeyFromHex(key: array<u8>, hex: Text) returns (ok: bool)
    requires key.Length == 32
    modifies key
    ensures ok <==> |hex| == 64 && HexDigits(hex)
    ensures ok ==> key[..] == Unhex(hex, 32)
  {
    hide Nibble, BadNibble, Or, HexValue, Unhex, ZeroFlag, HexDigits;
    if |hex| != 64 {
      return false;
    }
    var ret, i := 0, 0;
    NothingUnhexed(hex);
    while i < 32
      invariant 0 <= i <= 32 && 0 <= ret < 0x100
      invariant ret == 0 <==> HexDigits(hex[..2 * i])
      invariant ret == 0 ==> key[..i] == Unhex(hex[..2 * i], i)
    {
      var c, d := hex[2 * i], hex[2 * i + 1];
      NibbleIs(c);
      NibbleIs(d);
      OrByte(ret, BadNibble(c as int));
      OrByte(Or(ret, BadNibble(c as int)), BadNibble(d as int));
      ret := Or(Or(ret, BadNibble(c as int)), BadNibble(d as int));
      JoinNibbles(Nibble(c as int), Nibble(d as int));
      key[i] := Or(Nibble(c as int) * 16 % 0x100, Nibble(d as int));
      UnhexNext(hex, i);
      assert key[..i + 1] == key[..i] + [key[i]];
      i := i + 1;
    }
    assert hex[..64] == hex;
    ZeroFlagIs(ret);
    ok := ZeroFlag(ret) == 1;
  }

  lemma JoinNibbles(x: int, y: int)
    requires 0 <= x < 16 && 0 <= y < 16
    ensures Or(x * 16 % 0x100, y) == 16 * x + y
  {
    hide Or;
    assert Pow2(4) == 16;
    OrDisjoint(x, y, 4);
  }

  lemma NothingUnhexed(s: string)
    ensures HexDigits(s[..0]) && Unhex(s[..0], 0) == []
  {
  }

  lemma UnhexNext(s: string, i: nat)
    requires 2 * i + 2 <= |s|
    ensures HexDigits(s[..2 * (i + 1)]) <==> HexDigits(s[..2 * i]) && HexValue(s[2 * i]) >= 0 && HexValue(s[2 * i + 1]) >= 0
    ensures HexDigits(s[..2 * (i + 1)]) ==>
      Unhex(s[..2 * (i + 1)], i + 1) == Unhex(s[..2 * i], i) + [16 * HexValue(s[2 * i]) + HexValue(s[2 * i + 1])]
  {
    hide HexValue;
    var t := s[..2 * (i + 1)];
    assert t[..2 * i] == s[..2 * i] && t[2 * i] == s[2 * i] && t[2 * i + 1] == s[2 * i + 1];
    assert forall k :: 0 <= k < 2 * i ==> t[k] == s[..2 * i][k];
  }

  /** `key_is_zero` */
  method KeyIsZero(key: Key) returns (zero: bool)
    ensures zero <==> forall i :: 0 <= i < 32 ==> key[i] == 0
  {
    hide Or, ZeroFlag;
    var acc, i := 0, 0;
    while i < 32
      invariant 0 <= i <= 32 && 0 <= acc < 0x100
      invariant acc == 0 <==> forall k :: 0 <= k < i ==> key[k] == 0
    {
      OrByte(acc, key[i]);
      acc := Or(acc, key[i]);
      i := i + 1;
    }
    ZeroFlagIs(acc);
    zero := ZeroFlag(acc) == 1;
  }

  // ----- the texts as numbers

  /** The characters of base64 in order. */
  lemma AlphabetIs(v: int)
    requires 0 <= v < 64
    ensures Letter(v) == (if v < 26 then "ABCDEFGHIJKLMNOPQRSTUVWXYZ"[v]
                          else if v < 52 then "abcdefghijklmnopqrstuvwxyz"[v - 26] else "0123456789+/"[v - 52])
    ensures forall c :: Sextet(c) == v <==> c == Letter(v)
  {
    hide Letter, Sextet;
    if v < 26 { CapitalAt(v); } else if v < 52 { SmallAt(v); } else { FigureAt(v); }
    SextetOfLetter(v);
    forall c ensures Sextet(c) == v <==> c == Letter(v) {
      if Sextet(c) == v { LetterOfSextet(c); }
    }
  }

  lemma CapitalAt(v: int)
    requires 0 <= v < 26
    ensures Letter(v) == "ABCDEFGHIJKLMNOPQRSTUVWXYZ"[v]
  {
  }

  lemma SmallAt(v: int)
    requires 26 <= v < 52
    ensures Letter(v) == "abcdefghijklmnopqrstuvwxyz"[v - 26]
  {
  }

  lemma FigureAt(v: int)
    requires 52 <= v < 64
    ensures Letter(v) == "0123456789+/"[v - 52]
  {
  }

  /** The digits of a text in base 64. */
  function TextNumber(s: string): int {
    if s == "" then 0 else 64 * TextNumber(s[..|s| - 1]) + Sextet(s[|s| - 1])
  }

  /** The bytes of a key as one number, the first byte the most significant. */
  function BigEndian(b: seq<u8>): int {
    if b == [] then 0 else 0x100 * BigEndian(b[..|b| - 1]) + b[|b| - 1]
  }

  lemma TextSnoc(s: string, c: char)
    ensures TextNumber(s + [c]) == 64 * TextNumber(s) + Sextet(c)
  {
    assert (s + [c])[..|s|] == s;
  }

  lemma ByteSnoc(b: seq<u8>, x: u8)
    ensures BigEndian(b + [x]) == 0x100 * BigEndian(b) + x as int
  {
    assert (b + [x])[..|b|] == b;
  }

  lemma TextBlock(s: string, t: string)
    requires |t| == 4 && Digits(t)
    ensures TextNumber(s + t[..3]) == 0x4_0000 * TextNumber(s) + Word(t) / 64
    ensures TextNumber(s + t) == 0x100_0000 * TextNumber(s) + Word(t)
  {
    hide TextNumber, Sextet;
    TextSnoc(s, t[0]);
    TextSnoc(s + [t[0]], t[1]);
    TextSnoc(s + [t[0]] + [t[1]], t[2]);
    TextSnoc(s + [t[0]] + [t[1]] + [t[2]], t[3]);
    assert s + t[..3] == s + [t[0]] + [t[1]] + [t[2]];
    assert s + t == s + [t[0]] + [t[1]] + [t[2]] + [t[3]];
    ModUnique(Word(t), 64, 0x1000 * Sextet(t[0]) + 0x40 * Sextet(t[1]) + Sextet(t[2]), Sextet(t[3]));
  }

  lemma ByteBlock(b: seq<u8>, c: seq<u8>)
    requires |c| == 3
    ensures BigEndian(b + c) == 0x100_0000 * BigEndian(b) + (0x1_0000 * c[0] as int + 0x100 * c[1] as int + c[2] as int)
    ensures BigEndian(b + c[..2]) == 0x1_0000 * BigEndian(b) + (0x100 * c[0] as int + c[1] as int)
  {
    hide BigEndian;
    ByteSnoc(b, c[0]);
    ByteSnoc(b + [c[0]], c[1]);
    ByteSnoc(b + [c[0]] + [c[1]], c[2]);
    assert b + c == b + [c[0]] + [c[1]] + [c[2]];
    assert b + c[..2] == b + [c[0]] + [c[1]];
  }

  lemma PackWord(b: seq<u8>)
    requires |b| == 3
    ensures Digits(Pack(b)) && Word(Pack(b)) == 0x1_0000 * b[0] as int + 0x100 * b[1] as int + b[2] as int
  {
    hide Pack, Word;
    SplitPack(b);
    var v := Word(Pack(b));
    assert v == 0x1_0000 * (v / 0x1_0000) + 0x100 * (v / 0x100 % 0x100) + v % 0x100 by {
      assert v / 0x1_0000 == v / 0x100 / 0x100;
    }
  }

  lemma {:induction false} PackAllNumber(b: seq<u8>, n: nat)
    requires |b| == 3 * n
    ensures TextNumber(PackAll(b, n)) == BigEndian(b)
  {
    hide Pack, Word, TextNumber, BigEndian;
    if n == 0 {
      NoNumber();
    } else {
      var init, last := b[..3 * n - 3], b[3 * n - 3..];
      PackAllNumber(init, n - 1);
      PackWord(last);
      TextBlock(PackAll(init, n - 1), Pack(last));
      ByteBlock(init, last);
      assert b == init + last;
    }
  }

  lemma NoNumber()
    ensures TextNumber("") == 0 && BigEndian([]) == 0
  {
  }

  /** The text of a key is its number in base 64, shifted by the two pad bits, with an equals sign at the end. */
  lemma Base64Number(key: Key)
    ensures TextNumber(Base64(key)[..43]) == 4 * BigEndian(key) && Base64(key)[43] == '='
  {
    hide Pack, Word, TextNumber, BigEndian, PackAll;
    var init, last, n := key[..30], key[30..] + [0], 10;
    PackAllNumber(init, n);
    PackWord(last);
    TextBlock(PackAll(init, n), Pack(last));
    ByteBlock(init, last);
    assert key == init + last[..2];
    assert Base64(key)[..43] == PackAll(init, n) + Pack(last)[..3];
    ModUnique(0x1_0000 * last[0] as int + 0x100 * last[1] as int, 64, 0x400 * last[0] as int + 4 * last[1] as int, 0);
  }

  /** The values of hexadecimal digits, of either case. */
  lemma HexDigitIs(c: char, v: int)
    requires 0 <= v < 16
    ensures HexValue(c) == v <==> c == "0123456789abcdef"[v] || c == "0123456789ABCDEF"[v]
    ensures HexLetter(v) == "0123456789abcdef"[v]
  {
  }

  /** The two characters of each byte, the high digit first. */
  lemma {:induction false} HexAt(b: seq<u8>, i: nat)
    requires i < |b|
    ensures Hex(b)[2 * i] == "0123456789abcdef"[b[i] / 16] && Hex(b)[2 * i + 1] == "0123456789abcdef"[b[i] % 16]
  {
    hide HexLetter;
    if i < |b| - 1 {
      HexAt(b[..|b| - 1], i);
    } else {
      HexDigitIs('0', b[i] / 16);
      HexDigitIs('0', b[i] % 16);
    }
  }

  lemma {:induction false} UnhexAt(s: string, n: nat, i: nat)
    requires |s| == 2 * n && HexDigits(s) && i < n
    ensures Unhex(s, n)[i] as int == 16 * HexValue(s[2 * i]) + HexValue(s[2 * i + 1])
  {
    hide HexValue;
    if i < n - 1 { UnhexAt(s[..2 * n - 2], n - 1, i); }
  }
}
