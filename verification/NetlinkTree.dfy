/** Trees of attributes: what a caller writes with puts, nests and cancelled nests is what a
    reader finds. */
module NetlinkTree {
  import opened Bits
  import opened Bytes
  import opened Netlink

  datatype Tree = Leaf(t: AttrType, data: seq<u8>) | Node(t: AttrType, kids: seq<Tree>)

  /** What a caller may do between two points of a message. */
  datatype Cmd = PutCmd(t: AttrType, data: seq<u8>) | NestCmd(t: AttrType, body: seq<Cmd>, cancelled: bool)

  /** The attributes that survive the cancellations. */
  function Kept(cmds: seq<Cmd>): seq<Tree> {
    if cmds == [] then [] else KeptOne(cmds[0]) + Kept(cmds[1..])
  }

  function KeptOne(cmd: Cmd): seq<Tree> {
    match cmd
    case PutCmd(t, data) => [Leaf(t, data)]
    case NestCmd(t, body, cancelled) => if cancelled then [] else [Node(t, Kept(body))]
  }

  /** The buffer space that running the commands can need, cancelled nests included. */
  function Room(cmds: seq<Cmd>): nat {
    if cmds == [] then 0 else RoomOne(cmds[0]) + Room(cmds[1..])
  }

  function RoomOne(cmd: Cmd): nat {
    match cmd
    case PutCmd(t, data) => 4 + Align(|data|)
    case NestCmd(t, body, cancelled) => 4 + Room(body)
  }

  function Size(ts: seq<Tree>): nat {
    if ts == [] then 0 else SizeOne(ts[0]) + Size(ts[1..])
  }

  function SizeOne(tree: Tree): nat {
    match tree
    case Leaf(t, data) => 4 + Align(|data|)
    case Node(t, kids) => 4 + Size(kids)
  }

  lemma {:induction false} SizeAligned(ts: seq<Tree>)
    ensures Size(ts) % 4 == 0
  {
    hide Align;
    if ts != [] {
      SizeAligned(ts[1..]);
      SizeOneAligned(ts[0]);
    }
  }

  lemma {:induction false} SizeOneAligned(tree: Tree)
    ensures SizeOne(tree) % 4 == 0
  {
    hide Align, Size;
    if tree.Node? { SizeAligned(tree.kids); }
  }

  lemma EncodedAligned(ts: seq<Tree>)
    requires Fits(ts)
    ensures Aligned(Encoded(ts))
  {
    SizeAligned(ts);
  }

  /** Every attribute is short enough for its 16-bit length field. */
  predicate Fits(ts: seq<Tree>) {
    ts == [] || (FitsOne(ts[0]) && Fits(ts[1..]))
  }

  predicate FitsOne(tree: Tree) {
    match tree
    case Leaf(t, data) => Sized(data)
    case Node(t, kids) => Fits(kids) && Size(kids) + 4 < 0x1_0000
  }

  function Encoded(ts: seq<Tree>): (b: seq<u8>)
    requires Fits(ts)
    ensures |b| == Size(ts)
  {
    if ts == [] then [] else EncodedOne(ts[0]) + Encoded(ts[1..])
  }

  function EncodedOne(tree: Tree): (b: seq<u8>)
    requires FitsOne(tree)
    ensures |b| == SizeOne(tree)
  {
    match tree
    case Leaf(t, data) => Attr(t, data)
    case Node(t, kids) =>
      SizeAligned(kids);
      Attr(NESTED + t, Encoded(kids))
  }

  lemma {:induction false} KeptFits(cmds: seq<Cmd>)
    requires Room(cmds) < 0x1_0000
    ensures Fits(Kept(cmds)) && Size(Kept(cmds)) <= Room(cmds)
  {
    if cmds != [] {
      KeptFits(cmds[1..]);
      KeptOneFits(cmds[0]);
      ConsFits(KeptOne(cmds[0]), Kept(cmds[1..]));
    }
  }

  lemma {:induction false} KeptOneFits(cmd: Cmd)
    requires RoomOne(cmd) < 0x1_0000
    ensures Fits(KeptOne(cmd)) && Size(KeptOne(cmd)) <= RoomOne(cmd)
  {
    if cmd.NestCmd? { KeptFits(cmd.body); }
    NoneOrOne(KeptOne(cmd));
  }

  lemma NoneOrOne(ts: seq<Tree>)
    requires |ts| <= 1
    ensures Fits(ts) <==> (ts == [] || FitsOne(ts[0]))
    ensures Size(ts) == if ts == [] then 0 else SizeOne(ts[0])
    ensures Fits(ts) ==> Encoded(ts) == if ts == [] then [] else EncodedOne(ts[0])
  {
    if ts != [] { assert ts[1..] == []; }
  }

  lemma ConsFits(head: seq<Tree>, tail: seq<Tree>)
    requires |head| <= 1
    ensures Fits(head + tail) <==> Fits(head) && Fits(tail)
    ensures Size(head + tail) == Size(head) + Size(tail)
    ensures Fits(head + tail) ==> Encoded(head + tail) == Encoded(head) + Encoded(tail)
  {
    NoneOrOne(head);
    if head == [] {
      assert head + tail == tail;
    } else {
      assert (head + tail)[1..] == tail;
    }
  }

  lemma Unfold(cmds: seq<Cmd>)
    ensures cmds == [] ==> Fits(Kept(cmds)) && Encoded(Kept(cmds)) == []
    ensures cmds != [] ==> Kept(cmds) == KeptOne(cmds[0]) + Kept(cmds[1..])
    ensures cmds != [] ==> Room(cmds) == RoomOne(cmds[0]) + Room(cmds[1..])
  {
  }

  /** Running commands appends exactly the encoding of what was kept; cancelled nests leave no trace. */
  method Run(m: Message, cmds: seq<Cmd>)
    requires m.Valid() && m.len + Room(cmds) <= m.buf.Length && Room(cmds) < 0x1_0000
    modifies m`len, m.buf
    ensures m.Valid() && Fits(Kept(cmds)) && m.Bytes() == old(m.Bytes()) + Encoded(Kept(cmds))
    decreases cmds, 1
  {
    hide Encoded, EncodedOne, Fits, FitsOne, Size, SizeOne, Kept, KeptOne, Room, RoomOne, Aligned;
    Unfold(cmds);
    if cmds != [] {
      KeptFits(cmds[1..]);
      KeptOneFits(cmds[0]);
      KeptOneShort(cmds[0]);
      ConsFits(KeptOne(cmds[0]), Kept(cmds[1..]));
      ghost var before := m.Bytes();
      RunOne(m, cmds[0]);
      RoomIsLength(cmds[0]);
      Run(m, cmds[1..]);
      Concat(before, Encoded(KeptOne(cmds[0])), Encoded(Kept(cmds[1..])));
    }
  }

  lemma RoomIsLength(cmd: Cmd)
    requires RoomOne(cmd) < 0x1_0000
    ensures Fits(KeptOne(cmd)) && |Encoded(KeptOne(cmd))| <= RoomOne(cmd)
  {
    KeptOneFits(cmd);
  }

  lemma Concat(a: seq<u8>, b: seq<u8>, c: seq<u8>)
    ensures a + b + c == a + (b + c)
  {
  }

  lemma KeptOneShort(cmd: Cmd)
    ensures |KeptOne(cmd)| <= 1
  {
  }

  method RunOne(m: Message, cmd: Cmd)
    requires m.Valid() && m.len + RoomOne(cmd) <= m.buf.Length && RoomOne(cmd) < 0x1_0000
    modifies m`len, m.buf
    ensures m.Valid() && Fits(KeptOne(cmd)) && m.Bytes() == old(m.Bytes()) + Encoded(KeptOne(cmd))
    decreases cmd, 1
  {
    hide Attr, Align, Aligned, Room, Size, Kept, Fits, Encoded;
    KeptOneFits(cmd);
    NoneOrOne(KeptOne(cmd));
    match cmd {
      case PutCmd(t, data) =>
        m.Put(t, data);
      case NestCmd(t, body, cancelled) =>
        RunNest(m, t, body, cancelled);
    }
  }

  method RunNest(m: Message, t: AttrType, body: seq<Cmd>, cancelled: bool)
    requires m.Valid() && m.len + 4 + Room(body) <= m.buf.Length && 4 + Room(body) < 0x1_0000
    modifies m`len, m.buf
    ensures m.Valid() && Fits(Kept(body)) && Sized(Encoded(Kept(body)))
    ensures m.Bytes() == old(m.Bytes()) + if cancelled then [] else Attr(NESTED + t, Encoded(Kept(body)))
    decreases body, 2
  {
    hide Attr, Align, Aligned, Room, Size, Kept, Fits, Encoded, Nesting;
    KeptFits(body);
    EncodedAligned(Kept(body));
    ghost var before := m.Bytes();
    var start := m.NestStart(t);
    ghost var inside := m.Bytes();
    NestingLength(inside, before, t, []);
    Run(m, body);
    NestingGrows(inside, before, t, [], Encoded(Kept(body)));
    assert [] + Encoded(Kept(body)) == Encoded(Kept(body));
    FinishNest(m, start, before, t, Encoded(Kept(body)), cancelled);
  }

  /** The end of a nest: kept or cancelled. */
  method FinishNest(m: Message, start: nat, ghost before: seq<u8>, ghost t: AttrType, ghost body: seq<u8>, cancelled: bool)
    requires m.Valid() && start == |before| && Aligned(before)
    requires Nesting(m.Bytes(), before, t, body) && Sized(body) && Aligned(body)
    modifies m`len, m.buf
    ensures m.Valid() && m.Bytes() == if cancelled then before else before + Attr(NESTED + t, body)
  {
    hide Attr, Align;
    if cancelled {
      m.NestCancel(start);
    } else {
      m.NestEnd(start, before, t, body);
    }
  }

  /** A reader that walks the attributes and descends into every one flagged as nested. */
  function ReadTrees(b: seq<u8>): seq<Tree>
    decreases |b|
  {
    if !AttrOk(b) then []
    else
      var n, raw := At16(b, 0), At16(b, 2);
      [if raw >= NESTED then Node(raw % 0x4000, ReadTrees(b[4..n])) else Leaf(raw % 0x4000, b[4..n])]
      + if Align(n) <= |b| then ReadTrees(b[Align(n)..]) else []
  }

  /** The reader visits exactly the attributes of the walk, by type and payload. */
  lemma {:induction false} ReadTreesFollowWalk(b: seq<u8>)
    ensures |ReadTrees(b)| == |Walk(b)|
    ensures forall i :: 0 <= i < |Walk(b)| ==>
      var item := Walk(b)[i];
      ReadTrees(b)[i] == if item.rawType >= NESTED then Node(TypeOf(item), ReadTrees(item.payload)) else Leaf(TypeOf(item), item.payload)
    decreases |b|
  {
    hide Align, At16;
    if AttrOk(b) && Align(At16(b, 0)) <= |b| { ReadTreesFollowWalk(b[Align(At16(b, 0))..]); }
  }

  lemma ReadAttr(raw: u16, data: seq<u8>, rest: seq<u8>)
    requires Sized(data)
    ensures ReadTrees(Attr(raw, data) + rest)
         == [if raw >= NESTED then Node(raw % 0x4000, ReadTrees(data)) else Leaf(raw % 0x4000, data)] + ReadTrees(rest)
  {
    hide Align, Le16, Zeros;
    var b := Attr(raw, data) + rest;
    assert b[0..2] == Le16(4 + |data|) && b[2..4] == Le16(raw) && b[4..4 + |data|] == data;
    Le16At(4 + |data|, b, 0);
    Le16At(raw, b, 2);
    Message.AlignHeader(|data|);
    assert b[Align(4 + |data|)..] == rest;
  }

  /** Reading undoes writing, for every tree. */
  lemma {:induction false} ReadEncoded(ts: seq<Tree>)
    requires Fits(ts)
    ensures ReadTrees(Encoded(ts)) == ts
    decreases ts, 1
  {
    hide Attr, EncodedOne, SizeOne, FitsOne;
    if ts != [] {
      ReadEncoded(ts[1..]);
      ReadEncodedOne(ts[0], Encoded(ts[1..]));
    }
  }

  lemma {:induction false} ReadEncodedOne(tree: Tree, rest: seq<u8>)
    requires FitsOne(tree)
    ensures ReadTrees(EncodedOne(tree) + rest) == [tree] + ReadTrees(rest)
    decreases tree, 0
  {
    hide Attr, ReadTrees;
    match tree
    case Leaf(t, data) =>
      ReadAttr(t, data, rest);
    case Node(t, kids) =>
      ReadEncoded(kids);
      ReadAttr(NESTED + t, Encoded(kids), rest);
  }

  /** Whatever puts, nests and cancellations produced a message, its reader sees the kept tree. */
  lemma ReadsBackWhatWasKept(cmds: seq<Cmd>)
    requires Room(cmds) < 0x1_0000
    ensures Fits(Kept(cmds)) && ReadTrees(Encoded(Kept(cmds))) == Kept(cmds)
  {
    KeptFits(cmds);
    ReadEncoded(Kept(cmds));
  }
}
