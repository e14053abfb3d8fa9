/** `validate_netmask`: whether an address has no bits beyond its prefix (section 3.1 of RFC 4632). */
module Netmask {
  import opened Bits
  import Device

  /** The address read as one big-endian number, from its 32-bit words in order. */
  function Number(words: seq<u32>): nat {
    if words == [] then 0 else 0x1_0000_0000 * Number(words[..|words| - 1]) + words[|words| - 1]
  }

  /** A network-order word of the address. */
  function WordAt(ip: seq<u8>, i: nat): u32
    requires 4 * i + 4 <= |ip|
  {
    0x100_0000 * ip[4 * i] as int + 0x1_0000 * ip[4 * i + 1] as int + 0x100 * ip[4 * i + 2] as int + ip[4 * i + 3] as int
  }

  function Words(ip: seq<u8>, n: nat): (w: seq<u32>)
    requires 4 * n <= |ip|
    ensures |w| == n && forall i :: 0 <= i < n ==> w[i] == WordAt(ip, i)
  {
    if n == 0 then [] else Words(ip, n - 1) + [WordAt(ip, n - 1)]
  }

  /** The bytes as a number, one at a time. */
  function ByteNumber(ip: seq<u8>): nat {
    if ip == [] then 0 else 0x100 * ByteNumber(ip[..|ip| - 1]) + ip[|ip| - 1]
  }

  lemma {:induction false} WordsAreBytes(ip: seq<u8>, n: nat)
    requires |ip| == 4 * n
    ensures Number(Words(ip, n)) == ByteNumber(ip)
  {
    hide ByteNumber, Number;
    if n == 0 {
      NothingCounts();
    } else {
      var k := 4 * n - 4;
      WordsAreBytes(ip[..k], n - 1);
      WordsPrefix(ip, ip[..k], n - 1);
      NumberSnoc(Words(ip, n - 1), WordAt(ip, n - 1));
      FourBytes(ip);
    }
  }

  lemma NothingCounts()
    ensures Number([]) == 0 && ByteNumber([]) == 0
  {
  }

  lemma NumberSnoc(words: seq<u32>, w: u32)
    ensures Number(words + [w]) == 0x1_0000_0000 * Number(words) + w as int
  {
    assert (words + [w])[..|words|] == words;
  }

  lemma {:induction false} WordsPrefix(ip: seq<u8>, init: seq<u8>, n: nat)
    requires |init| == 4 * n <= |ip| && init == ip[..4 * n]
    ensures Words(ip, n) == Words(init, n)
  {
    hide Words;
    forall i | 0 <= i < n ensures WordAt(ip, i) == WordAt(init, i) {
      assert init[4 * i] == ip[4 * i] && init[4 * i + 1] == ip[4 * i + 1] && init[4 * i + 2] == ip[4 * i + 2] && init[4 * i + 3] == ip[4 * i + 3];
    }
  }

  lemma FourBytes(ip: seq<u8>)
    requires |ip| >= 4
    ensures var k := |ip| - 4;
            ByteNumber(ip) == 0x1_0000_0000 * ByteNumber(ip[..k])
              + 0x100_0000 * ip[k] as int + 0x1_0000 * ip[k + 1] as int + 0x100 * ip[k + 2] as int + ip[k + 3] as int
  {
    var k := |ip| - 4;
    var i1, i2, i3 := ip[..k + 1], ip[..k + 2], ip[..k + 3];
    assert i1[..k] == ip[..k] && i2[..k + 1] == i1 && i3[..k + 2] == i2;
    assert ByteNumber(i1) == 0x100 * ByteNumber(ip[..k]) + ip[k];
    assert ByteNumber(i2) == 0x100 * ByteNumber(i1) + ip[k + 1];
    assert ByteNumber(i3) == 0x100 * ByteNumber(i2) + ip[k + 2];
  }

  // ----- divisibility, word by word

  lemma ModSplit(h: nat, w: nat, n: nat)
    requires w < 0x1_0000_0000 && n >= 32
    ensures (0x1_0000_0000 * h + w) % Pow2(n) == 0 <==> w == 0 && h % Pow2(n - 32) == 0
  {
    hide Pow2;
    var p := Pow2(n - 32);
    assert Pow2(n) == 0x1_0000_0000 * p by {
      Pow2Values();
      Pow2Add(32, n - 32);
    }
    var v := 0x1_0000_0000 * h + w;
    ModUnique(h, p, h / p, h % p);
    Parts(h, w, p);
    ModUnique(v, 0x1_0000_0000 * p, h / p, 0x1_0000_0000 * (h % p) + w);
  }

  lemma Parts(h: nat, w: nat, p: nat)
    requires p >= 1 && w < 0x1_0000_0000
    ensures 0x1_0000_0000 * h + w == 0x1_0000_0000 * p * (h / p) + (0x1_0000_0000 * (h % p) + w)
    ensures 0 <= 0x1_0000_0000 * (h % p) + w < 0x1_0000_0000 * p
  {
    assert h == p * (h / p) + h % p;
  }

  lemma ModLow(h: nat, w: nat, n: nat)
    requires n <= 32
    ensures (0x1_0000_0000 * h + w) % Pow2(n) == w % Pow2(n)
  {
    hide Pow2;
    var p, q := Pow2(n), Pow2(32 - n);
    assert 0x1_0000_0000 == p * q by {
      Pow2Values();
      Pow2Add(n, 32 - n);
    }
    assert 0x1_0000_0000 * h + w == p * (q * h + w / p) + w % p by {
      assert p * q * h == p * (q * h);
      assert w == p * (w / p) + w % p;
      assert p * (q * h + w / p) == p * (q * h) + p * (w / p);
    }
    ModUnique(0x1_0000_0000 * h + w, p, q * h + w / p, w % p);
  }

  /** ~0 >> shift, for a shift below 32 */
  function Mask(shift: nat): nat
    requires shift < 32
  {
    0xffff_ffff / Pow2(shift)
  }

  lemma MaskIs(shift: nat)
    requires shift < 32
    ensures Mask(shift) == Pow2(32 - shift) - 1
  {
    hide Pow2;
    var p, q := Pow2(shift), Pow2(32 - shift);
    assert 0x1_0000_0000 == q * p by {
      Pow2Values();
      Pow2Add(32 - shift, shift);
    }
    assert 0xffff_ffff == p * (q - 1) + (p - 1);
    ModUnique(0xffff_ffff, p, q - 1, p - 1);
  }

  /** The prefix length covers every bit that is set in the first n words. */
  predicate Clear(words: seq<u32>, cidr: nat) {
    cidr >= 32 * |words| || Number(words) % Pow2(32 * |words| - cidr) == 0
  }

  /** One word of the loop, from the last one down. */
  lemma ClearStep(words: seq<u32>, cidr: nat)
    requires words != [] && cidr < 32 * |words|
    ensures var i, w := |words| - 1, words[|words| - 1];
            Clear(words, cidr) <==>
              (And(if cidr > 32 * i then Mask(cidr - 32 * i) else 0xffff_ffff, w) == 0) && Clear(words[..i], cidr)
  {
    hide Pow2, And, Mask;
    var i, w, h := |words| - 1, words[|words| - 1], Number(words[..|words| - 1]);
    if cidr > 32 * i {
      MaskIs(cidr - 32 * i);
      AndMask(w, 32 * |words| - cidr);
      ModLow(h, w, 32 * |words| - cidr);
    } else {
      assert Pow2(32) == 0x1_0000_0000 by { Pow2Values(); }
      AndMask(w, 32);
      ModSplit(h, w, 32 * |words| - cidr);
      if cidr == 32 * i { assert Pow2(0) == 1 by { PowZero(); } }
    }
  }

  lemma PowZero()
    ensures Pow2(0) == 1
  {
  }

  /** `validate_netmask` */
  method ValidateNetmask(family: u16, ip: seq<u8>, cidr: u8) returns (ok: bool)
    requires |ip| == 16
    ensures family == Device.AF_INET ==> (ok <==> cidr as int >= 32 || ByteNumber(ip[..4]) % Pow2(32 - cidr as int) == 0)
    ensures family == Device.AF_INET6 ==> (ok <==> cidr as int >= 128 || ByteNumber(ip) % Pow2(128 - cidr as int) == 0)
    ensures family != Device.AF_INET && family != Device.AF_INET6 ==> ok
  {
    hide Pow2, And, Mask, Number, ByteNumber, Words;
    if family != Device.AF_INET && family != Device.AF_INET6 {
      return true;
    }
    var last := if family == Device.AF_INET then 0 else 3;
    ok := ScanWords(ip, last, cidr);
    if family == Device.AF_INET {
      WordsPrefix(ip, ip[..4], 1);
      WordsAreBytes(ip[..4], 1);
    } else {
      WordsAreBytes(ip, 4);
    }
  }

  method ScanWords(ip: seq<u8>, last: nat, cidr: u8) returns (ok: bool)
    requires |ip| == 16 && last < 4
    ensures ok <==> Clear(Words(ip, last + 1), cidr)
  {
    hide Pow2, And, Mask, Number, Clear, Words;
    ghost var all := Words(ip, last + 1);
    var i: int := last;
    assert all[..last + 1] == all;
    while i >= 0
      invariant -1 <= i <= last && (Clear(all, cidr) <==> Clear(all[..i + 1], cidr))
    {
      if cidr as int >= 32 * (i + 1) {
        ClearCovered(all[..i + 1], cidr);
        return true;
      }
      var mask := 0xffff_ffff;
      if cidr as int > 32 * i {
        mask := Mask(cidr as int - 32 * i);
      }
      ClearStep(all[..i + 1], cidr);
      assert all[..i + 1][..i] == all[..i];
      if And(mask, WordAt(ip, i)) != 0 {
        return false;
      }
      i := i - 1;
    }
    ClearCovered(all[..0], cidr);
    return true;
  }

  lemma ClearCovered(words: seq<u32>, cidr: nat)
    requires cidr >= 32 * |words|
    ensures Clear(words, cidr)
  {
  }
}
