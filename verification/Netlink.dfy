/** Netlink messages: attributes in type-length-value form (section 2.2 of RFC 3549), written into a
    fixed buffer with nests that can be cancelled, and walked by the reader. */
module Netlink {
  import opened Bits
  import opened Bytes

  const NESTED: int := 0x8000

  type AttrType = t: int | 0 <= t < 0x4000

  function Align(n: nat): (r: nat)
    ensures r % 4 == 0 && n <= r < n + 4
  {
    (n + 3) / 4 * 4
  }

  function Le16(v: u16): (s: seq<u8>)
    ensures |s| == 2
  {
    [v % 0x100, v / 0x100]
  }

  function At16(b: seq<u8>, i: nat): int
    requires i + 2 <= |b|
  {
    b[i] as int + 0x100 * b[i + 1] as int
  }

  predicate Aligned(b: seq<u8>) { |b| % 4 == 0 }

  lemma AlignedConcat(a: seq<u8>, b: seq<u8>)
    ensures Aligned(a) && Aligned(b) ==> Aligned(a + b)
  {
  }

  lemma AlignedEmpty()
    ensures Aligned([])
  {
  }

  predicate Sized(data: seq<u8>) { |data| + 4 < 0x1_0000 }

  /** The bytes of one attribute: length, type, payload and padding. */
  function Attr(rawType: u16, data: seq<u8>): (s: seq<u8>)
    requires Sized(data)
    ensures |s| == 4 + Align(|data|) && Aligned(s)
  {
    Le16(4 + |data|) + Le16(rawType) + data + Zeros(Align(|data|) - |data|)
  }

  /** The layout of an attribute: its length without padding, its type, both with the low byte first, the payload,
      and zeros up to a multiple of four. */
  lemma AttrLayout(rawType: u16, data: seq<u8>)
    requires Sized(data)
    ensures var s, end := Attr(rawType, data), 4 + |data|;
            && s[0] + 0x100 * s[1] as int == end && s[2] + 0x100 * s[3] as int == rawType && s[4..end] == data
            && |s| % 4 == 0 && |s| < end + 4 && forall i :: end <= i < |s| ==> s[i] == 0
  {
  }

  // ----- the writer

  /** b is prefix, then the header of an open nest whose length is not yet known, then body. */
  ghost predicate Nesting(b: seq<u8>, prefix: seq<u8>, t: AttrType, body: seq<u8>) {
    && |b| == |prefix| + 4 + |body|
    && b[..|prefix|] == prefix
    && b[|prefix| + 2..|prefix| + 4] == Le16(NESTED + t)
    && b[|prefix| + 4..] == body
  }

  lemma NestingGrows(b: seq<u8>, prefix: seq<u8>, t: AttrType, body: seq<u8>, more: seq<u8>)
    requires Nesting(b, prefix, t, body)
    ensures Nesting(b + more, prefix, t, body + more)
  {
    var c := b + more;
    assert c[..|prefix|] == b[..|prefix|];
    assert c[|prefix| + 2..|prefix| + 4] == b[|prefix| + 2..|prefix| + 4];
    assert c[|prefix| + 4..] == b[|prefix| + 4..] + more;
  }

  lemma NestingLength(b: seq<u8>, prefix: seq<u8>, t: AttrType, body: seq<u8>)
    requires Nesting(b, prefix, t, body)
    ensures |b| == |prefix| + 4 + |body|
  {
  }

  class Message {
    const buf: array<u8>
    var len: nat

    ghost predicate Valid()
      reads this
    {
      len <= buf.Length && len % 4 == 0
    }

    ghost function Bytes(): (b: seq<u8>)
      reads this, buf
      requires Valid()
      ensures |b| == len && Aligned(b)
    {
      buf[..len]
    }

    constructor (size: nat)
      ensures Valid() && fresh(buf) && buf.Length == size && len == 0
    {
      buf := new u8[size];
      len := 0;
    }

    /** Starts a new message in the same buffer; what follows the headers is left over from the last one. */
    method Prepare(header: seq<u8>)
      requires |header| <= buf.Length && Aligned(header)
      modifies this`len, buf
      ensures Valid() && Bytes() == header
    {
      Fill(0, header);
      len := |header|;
    }

    /** Copies bytes into the buffer at an offset. */
    method Fill(at: nat, data: seq<u8>)
      requires at + |data| <= buf.Length
      modifies buf
      ensures buf[..at + |data|] == old(buf[..at]) + data
      ensures buf[at + |data|..] == old(buf[at + |data|..])
    {
      forall k | 0 <= k < |data| { buf[at + k] := data[k]; }
      assert buf[..at + |data|] == buf[..at] + buf[at..at + |data|];
    }

    /** `mnl_attr_put` */
    method Put(rawType: u16, data: seq<u8>)
      requires Valid() && Sized(data) && len + 4 + Align(|data|) <= buf.Length
      modifies this`len, buf
      ensures Valid() && Bytes() == old(Bytes()) + Attr(rawType, data)
    {
      hide Le16, Zeros, Align, Aligned, Attr;
      AlignHeader(|data|);
      ghost var before := Bytes();
      var attr, pad := len, Align(|data|) - |data|;
      var head := Le16(4 + |data|) + Le16(rawType);
      Fill(attr, head);
      Fill(attr + 4, data);
      Fill(attr + 4 + |data|, Zeros(pad));
      len := len + Align(4 + |data|);
      AlignedSum(attr, Align(4 + |data|));
      Associate(before, head, data, Zeros(pad));
      AttrParts(rawType, data);
    }

    static lemma AlignedSum(m: nat, n: nat)
      requires m % 4 == 0 && n % 4 == 0
      ensures (m + n) % 4 == 0
    {
    }

    static lemma AttrParts(rawType: u16, data: seq<u8>)
      requires Sized(data)
      ensures Attr(rawType, data) == Le16(4 + |data|) + Le16(rawType) + data + Zeros(Align(|data|) - |data|)
    {
      hide Le16, Zeros, Align;
    }

    static lemma AlignHeader(n: nat)
      ensures Align(4 + n) == 4 + Align(n)
    {
    }

    static lemma Associate(p: seq<u8>, a: seq<u8>, b: seq<u8>, c: seq<u8>)
      ensures p + a + b + c == p + (a + b + c)
    {
    }

    /** `mnl_attr_put_check` writes nothing when the attribute does not fit. */
    method PutCheck(limit: nat, rawType: u16, data: seq<u8>) returns (ok: bool)
      requires Valid() && Sized(data) && limit <= buf.Length
      modifies this`len, buf
      ensures Valid() && ok == (old(len) + |Attr(rawType, data)| <= limit)
      ensures Bytes() == if ok then old(Bytes()) + Attr(rawType, data) else old(Bytes())
    {
      if len + 4 + Align(|data|) > limit {
        return false;
      }
      Put(rawType, data);
      return true;
    }

    /** `mnl_attr_nest_start`: the length field of the header is left as it was in the buffer. */
    method NestStart(t: AttrType) returns (start: nat)
      requires Valid() && len + 4 <= buf.Length
      modifies this`len, buf
      ensures Valid() && start == old(len) && Nesting(Bytes(), old(Bytes()), t, [])
    {
      start := len;
      Fill(start + 2, Le16(NESTED + t));
      len := len + 4;
    }

    /** `mnl_attr_nest_start_check` */
    method NestStartCheck(limit: nat, t: AttrType) returns (ok: bool, start: nat)
      requires Valid() && limit <= buf.Length
      modifies this`len, buf
      ensures Valid() && ok == (old(len) + 4 <= limit) && start == old(len)
      ensures if ok then Nesting(Bytes(), old(Bytes()), t, []) else Bytes() == old(Bytes())
    {
      if len + 4 > limit {
        return false, len;
      }
      start := NestStart(t);
      ok := true;
    }

    /** `mnl_attr_nest_end` turns an open nest into a complete attribute. */
    method NestEnd(start: nat, ghost prefix: seq<u8>, ghost t: AttrType, ghost body: seq<u8>)
      requires Valid() && start == |prefix| && Nesting(Bytes(), prefix, t, body) && Sized(body) && Aligned(body)
      modifies buf
      ensures Valid() && Bytes() == prefix + Attr(NESTED + t, body)
    {
      hide Le16, Zeros;
      ghost var before := Bytes();
      var n := Le16(len - start);
      Fill(start, n);
      assert buf[start + 2..len] == before[start + 2..] by {
        assert buf[start + 2..len] == buf[start + 2..][..len - start - 2];
        assert before[start + 2..] == old(buf[start + 2..])[..len - start - 2];
      }
      assert Bytes() == buf[..start + 2] + buf[start + 2..len];
      assert before[start + 2..] == Le16(NESTED + t) + body;
      assert Align(|body|) == |body|;
      assert Zeros(0) == [];
      assert Attr(NESTED + t, body) == n + (Le16(NESTED + t) + body);
    }

    /** `mnl_attr_nest_cancel` restores the length at the start of the nest. */
    method NestCancel(start: nat)
      requires Valid() && start <= len && start % 4 == 0
      modifies this`len
      ensures Valid() && len == start && Bytes() == old(Bytes())[..start]
    {
      len := len - (len - start);
    }
  }

  // ----- the reader

  /** An attribute as a callback sees it: the raw type field and the payload. */
  datatype Item = Item(rawType: int, payload: seq<u8>)

  /** `mnl_attr_ok` */
  predicate AttrOk(b: seq<u8>) {
    |b| >= 4 && At16(b, 0) >= 4 && At16(b, 0) <= |b|
  }

  /** The attributes visited by `mnl_attr_for_each_nested`. */
  function Walk(b: seq<u8>): seq<Item>
    decreases |b|
  {
    if !AttrOk(b) then []
    else
      var n := At16(b, 0);
      [Item(At16(b, 2), b[4..n])] + if Align(n) <= |b| then Walk(b[Align(n)..]) else []
  }

  /** `mnl_attr_get_type` */
  function TypeOf(item: Item): int { item.rawType % 0x4000 }

  lemma WalkStep(b: seq<u8>)
    ensures !AttrOk(b) ==> Walk(b) == []
    ensures AttrOk(b) ==>
      var n := At16(b, 0);
      Walk(b) == [Item(At16(b, 2), b[4..n])] + if Align(n) <= |b| then Walk(b[Align(n)..]) else []
  {
    hide Align;
  }

  /** The walk as the loop of the source performs it. */
  method ParseNested(b: seq<u8>) returns (items: seq<Item>)
    ensures items == Walk(b)
  {
    hide Walk, Align, At16;
    items := [];
    var attr := 0;
    assert b[0..] == b;
    while attr <= |b| && AttrOk(b[attr..])
      invariant 0 <= attr
      invariant items + (if attr <= |b| then Walk(b[attr..]) else []) == Walk(b)
      decreases |b| - attr
    {
      var rest := b[attr..];
      WalkStep(rest);
      var n := At16(rest, 0);
      items := items + [Item(At16(rest, 2), rest[4..n])];
      if Align(n) <= |rest| { assert rest[Align(n)..] == b[attr + Align(n)..]; }
      attr := attr + Align(n);
    }
    if attr <= |b| { WalkStep(b[attr..]); }
  }

  lemma Le16At(v: u16, b: seq<u8>, i: nat)
    requires i + 2 <= |b| && b[i..i + 2] == Le16(v)
    ensures At16(b, i) == v
  {
    assert b[i] == b[i..i + 2][0] && b[i + 1] == b[i..i + 2][1];
  }

  /** The walk steps over one written attribute. */
  lemma WalkAttr(rawType: u16, data: seq<u8>, rest: seq<u8>)
    requires Sized(data)
    ensures Walk(Attr(rawType, data) + rest) == [Item(rawType, data)] + Walk(rest)
  {
    hide Align, Le16, Zeros;
    var b := Attr(rawType, data) + rest;
    assert b[0..2] == Le16(4 + |data|) && b[2..4] == Le16(rawType) && b[4..4 + |data|] == data;
    Le16At(4 + |data|, b, 0);
    Le16At(rawType, b, 2);
    Message.AlignHeader(|data|);
    assert b[Align(4 + |data|)..] == rest;
  }
}
