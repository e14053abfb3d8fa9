/** The netlink round trip: what `wg_set_device` sends, `wg_get_device` rebuilds. */
module RoundTrip {
  import opened Bits
  import opened Bytes
  import opened Netlink
  import opened Device
  import opened DeviceWriter
  import opened Coalesce
  import opened DeviceReader

  // ----- one message

  function SeenDevice(d: ReadDevice, dev: Device): ReadDevice {
    SeenMark(SeenPort(SeenPrivate(d, dev), dev), dev)
  }

  function SeenPrivate(d: ReadDevice, dev: Device): ReadDevice {
    if dev.hasPrivateKey then d.(privateKey := dev.privateKey, hasPrivateKey := true) else d
  }

  function SeenPort(d: ReadDevice, dev: Device): ReadDevice {
    if dev.hasListenPort then d.(listenPort := dev.listenPort) else d
  }

  function SeenMark(d: ReadDevice, dev: Device): ReadDevice {
    if dev.hasFwmark then d.(fwmark := dev.fwmark) else d
  }

  lemma PrivateBack(d: ReadDevice, dev: Device, rest: seq<u8>)
    ensures FoldDevice(d, Walk(PrivateKeyBytes(dev) + rest)) == FoldDevice(SeenPrivate(d, dev), Walk(rest))
  {
    hide Attr, Walk, FoldDevice;
    if dev.hasPrivateKey { StepDevice(d, 3, dev.privateKey, rest); } else { assert [] + rest == rest; }
  }

  lemma PortBack(d: ReadDevice, dev: Device, rest: seq<u8>)
    ensures FoldDevice(d, Walk(ListenPortBytes(dev) + rest)) == FoldDevice(SeenPort(d, dev), Walk(rest))
  {
    hide Attr, Walk, FoldDevice, Le16;
    At16Le16(dev.listenPort);
    if dev.hasListenPort { StepDevice(d, 6, Le16(dev.listenPort), rest); } else { assert [] + rest == rest; }
  }

  lemma MarkBack(d: ReadDevice, dev: Device, rest: seq<u8>)
    ensures FoldDevice(d, Walk(FwmarkBytes(dev) + rest)) == FoldDevice(SeenMark(d, dev), Walk(rest))
  {
    hide Attr, Walk, FoldDevice, Le32, At32;
    At32Le32(dev.fwmark);
    if dev.hasFwmark { StepDevice(d, 7, Le32(dev.fwmark), rest); } else { assert [] + rest == rest; }
  }

  lemma DeviceFlagsBack(d: ReadDevice, dev: Device, rest: seq<u8>)
    ensures FoldDevice(d, Walk(DeviceFlagBytes(dev) + rest)) == FoldDevice(d, Walk(rest))
  {
    hide Attr, Walk, FoldDevice, Le32;
    if dev.replacePeers { StepDevice(d, 5, Le32(1), rest); } else { assert [] + rest == rest; }
  }

  lemma DeviceBack(d: ReadDevice, dev: Device, rest: seq<u8>)
    ensures FoldDevice(d, Walk(DeviceBytes(dev) + rest)) == FoldDevice(SeenDevice(d, dev), Walk(rest))
  {
    hide Walk, FoldDevice, PrivateKeyBytes, ListenPortBytes, FwmarkBytes, DeviceFlagBytes, SeenPrivate, SeenPort, SeenMark;
    var a, b, c, e := PrivateKeyBytes(dev), ListenPortBytes(dev), FwmarkBytes(dev), DeviceFlagBytes(dev);
    assert DeviceBytes(dev) + rest == a + (b + (c + (e + rest)));
    PrivateBack(d, dev, b + (c + (e + rest)));
    PortBack(SeenPrivate(d, dev), dev, c + (e + rest));
    MarkBack(SeenPort(SeenPrivate(d, dev), dev), dev, e + rest);
    DeviceFlagsBack(SeenDevice(d, dev), dev, rest);
  }

  lemma NameBack(d: ReadDevice, dev: Device, rest: seq<u8>)
    ensures FoldDevice(d, Walk(NameBytes(dev) + rest)) == FoldDevice(d, Walk(rest))
  {
    hide Attr, Walk, FoldDevice;
    StepDevice(d, 2, dev.name + [0], rest);
  }

  lemma OpeningBack(header: Header, d: ReadDevice, dev: Device, first: bool, rest: seq<u8>)
    ensures |Opening(header, dev, first)| >= 20
    ensures FoldDevice(d, Walk((Opening(header, dev, first) + rest)[20..]))
         == FoldDevice(if first then SeenDevice(d, dev) else d, Walk(rest))
  {
    hide Walk, FoldDevice, NameBytes, DeviceBytes, SeenDevice;
    var after := (Opening(header, dev, first) + rest)[20..];
    if first {
      assert after == NameBytes(dev) + (DeviceBytes(dev) + rest);
      NameBack(d, dev, DeviceBytes(dev) + rest);
      DeviceBack(d, dev, rest);
    } else {
      assert after == NameBytes(dev) + rest;
      NameBack(d, dev, rest);
    }
  }

  lemma PeersItemBack(d: ReadDevice, fs: seq<Fragment>)
    requires MessageFits(fs) && GoodFragments(fs)
    ensures FoldDevice(d, Walk(Attr(NESTED + 8, FragmentsBytes(fs)))) == (d.(peers := d.peers + SeenAll(fs)), true)
  {
    hide Attr, Walk, FragmentsBytes, FoldPeers, GoodFragments, SeenAll, AllFit;
    var nest := Attr(NESTED + 8, FragmentsBytes(fs));
    assert nest + [] == nest;
    StepDevice(d, NESTED + 8, FragmentsBytes(fs), []);
    PeersNestBack(d.peers, fs);
    WalkNothing();
  }

  lemma MessageBack(header: Header, d: ReadDevice, dev: Device, first: bool, fs: seq<Fragment>)
    requires MessageFits(fs) && GoodFragments(fs) && (dev.peers == [] ==> fs == [])
    ensures var e := if first then SeenDevice(d, dev) else d;
            ReadMessage(d, MessageBytes(header, dev, first, fs)) == (e.(peers := e.peers + SeenAll(fs)), true)
  {
    hide Attr, Walk, FragmentsBytes, FoldDevice, GoodFragments, AllFit, Opening, SeenDevice;
    var e := if first then SeenDevice(d, dev) else d;
    if dev.peers == [] {
      assert Opening(header, dev, first) + [] == Opening(header, dev, first);
      OpeningBack(header, d, dev, first, []);
      FoldNothing(e);
      assert e.peers + SeenAll(fs) == e.peers;
    } else {
      OpeningBack(header, d, dev, first, Attr(NESTED + 8, FragmentsBytes(fs)));
      PeersItemBack(e, fs);
    }
  }

  lemma FoldNothing(d: ReadDevice)
    ensures FoldDevice(d, Walk([])) == (d, true)
  {
    WalkNothing();
  }

  // ----- all messages

  /** Every message is read into the same device, until one fails. */
  function ReadAll(messages: seq<seq<u8>>): (ReadDevice, bool) {
    if messages == [] then (BlankDevice(), true)
    else
      var (d, ok) := ReadAll(messages[..|messages| - 1]);
      if ok then ReadMessage(d, messages[|messages| - 1]) else (d, false)
  }

  predicate GoodPeers(ps: seq<Peer>) { forall i :: 0 <= i < |ps| ==> GoodIps(ps[i].allowedIps) }

  predicate IpsGood(fs: seq<Fragment>) {
    forall i :: 0 <= i < |fs| ==> GoodIps(fs[i].p.allowedIps) && (fs[i].nest || fs[i].p.allowedIps == [])
  }

  lemma GoodConcat(a: seq<AllowedIp>, b: seq<AllowedIp>)
    requires GoodIps(a + b)
    ensures GoodIps(a) && GoodIps(b)
  {
    hide GoodIp;
    forall i | 0 <= i < |a| ensures GoodIp(a[i]) { assert (a + b)[i] == a[i]; }
    forall i | 0 <= i < |b| ensures GoodIp(b[i]) { assert (a + b)[|a| + i] == b[i]; }
  }

  lemma RejoinedStarts(fs: seq<Fragment>)
    requires ContinuationsOk(fs) && fs != []
    ensures Rejoined(fs) != [] && Scalars(Rejoined(fs)[|Rejoined(fs)| - 1]) == Scalars(fs[|fs| - 1].p)
  {
    if !fs[|fs| - 1].first { RejoinedStarts(fs[..|fs| - 1]); }
  }

  lemma GoodSnoc(r: seq<Peer>, p: Peer)
    ensures GoodPeers(r + [p]) <==> GoodPeers(r) && GoodIps(p.allowedIps)
  {
    hide GoodIps;
    if GoodPeers(r + [p]) {
      forall i | 0 <= i < |r| ensures GoodIps(r[i].allowedIps) { assert (r + [p])[i] == r[i]; }
      assert (r + [p])[|r|] == p;
    }
  }

  function LastOf(r: seq<Peer>): (p: Peer)
    ensures r != [] ==> p == r[|r| - 1]
  {
    if r == [] then Peer(Zeros(32), false, false, false, Zeros(32), Zeros(28), false, 0, []) else r[|r| - 1]
  }

  /** A list that ends in a first fragment stands for one peer more. */
  lemma EndsFresh(fs: seq<Fragment>)
    requires fs != [] && fs[|fs| - 1].first
    ensures Rejoined(fs) == Rejoined(fs[..|fs| - 1]) + [fs[|fs| - 1].p]
  {
  }

  /** A list that ends in a continuation stands for the same peers, the last one extended. */
  lemma EndsContinued(fs: seq<Fragment>, last: Peer)
    requires fs != [] && ContinuationsOk(fs) && !fs[|fs| - 1].first
    requires var r := Rejoined(fs[..|fs| - 1]); r != [] ==> last == r[|r| - 1]
    ensures var r := Rejoined(fs[..|fs| - 1]);
            && r != [] && Scalars(last) == Scalars(fs[|fs| - 1].p) && fs[|fs| - 1].p.allowedIps != []
            && Rejoined(fs) == r[..|r| - 1] + [Extended(last, fs[|fs| - 1].p.allowedIps)]
  {
    hide Scalars, Extended;
    RejoinedStarts(fs[..|fs| - 1]);
  }

  lemma ContinuationsBefore(fs: seq<Fragment>)
    requires fs != [] && ContinuationsOk(fs)
    ensures ContinuationsOk(fs[..|fs| - 1])
  {
    hide Scalars;
  }

  lemma {:induction false} PiecesGood(fs: seq<Fragment>)
    requires ContinuationsOk(fs) && NestsOk(fs) && GoodPeers(Rejoined(fs))
    ensures IpsGood(fs)
  {
    hide GoodIps, Scalars, Rejoined, ContinuationsOk, GoodPeers;
    if fs != [] {
      var pre, f := fs[..|fs| - 1], fs[|fs| - 1];
      var r := Rejoined(pre);
      ContinuationsBefore(fs);
      if f.first {
        EndsFresh(fs);
        GoodSnoc(r, f.p);
      } else {
        var last := LastOf(r);
        EndsContinued(fs, last);
        var init := r[..|r| - 1];
        GoodSnoc(init, Extended(last, f.p.allowedIps));
        GoodConcat(last.allowedIps, f.p.allowedIps);
        GoodSnoc(init, last);
        assert r == init + [last];
      }
      PiecesGood(pre);
    }
  }

  // ----- the fragments coalesce into the peers

  function SeenPeers(ps: seq<Peer>): seq<Parsed> {
    if ps == [] then [] else SeenPeers(ps[..|ps| - 1]) + [Seen(ps[|ps| - 1])]
  }

  predicate DistinctNeighbours(ps: seq<Peer>) {
    forall i :: 0 < i < |ps| ==> ps[i - 1].publicKey != ps[i].publicKey
  }

  lemma {:induction false} SeenPeersAt(ps: seq<Peer>)
    ensures |SeenPeers(ps)| == |ps|
    ensures ps != [] ==> SeenPeers(ps)[|ps| - 1] == Seen(ps[|ps| - 1]) && SeenPeers(ps)[..|ps| - 1] == SeenPeers(ps[..|ps| - 1])
  {
    hide Seen;
    if ps != [] { SeenPeersAt(ps[..|ps| - 1]); }
  }

  lemma SeenPeersSnoc(ps: seq<Peer>, p: Peer)
    ensures SeenPeers(ps + [p]) == SeenPeers(ps) + [Seen(p)]
  {
    hide Seen;
    assert (ps + [p])[..|ps|] == ps;
  }

  lemma SeenFacts(p: Peer)
    ensures Seen(p).publicKey == p.publicKey && Seen(p).allowedIps == p.allowedIps && CanMerge(Seen(p))
  {
  }

  /** A continuation extends what the reader already has of the peer. */
  lemma MergeSeen(p: Peer, f: Fragment)
    requires !f.first && f.p.allowedIps != []
    ensures Merge(Seen(p), SeenFragment(f)) == Seen(Extended(p, f.p.allowedIps))
  {
    hide IsZero, SeenEndpoint, Zeros;
  }

  lemma {:induction false} CoalescedBack(fs: seq<Fragment>)
    requires ContinuationsOk(fs) && DistinctNeighbours(Rejoined(fs))
    ensures Coalesced(SeenAll(fs)) == Merged(SeenPeers(Rejoined(fs)))
  {
    hide Rejoined, ContinuationsOk, Seen, SeenFragment, Coalesced, Merge, CanMerge, SeenPeers;
    if fs == [] {
      NothingRejoined();
    } else {
      var pre, f := fs[..|fs| - 1], fs[|fs| - 1];
      var r := Rejoined(pre);
      ContinuationsBefore(fs);
      DistinctBefore(fs);
      CoalescedBack(pre);
      CoalescedSnoc(SeenAll(pre), SeenFragment(f));
      SeenHeads(f);
      SeenPeersAt(r);
      if f.first {
        EndsFresh(fs);
        if r != [] {
          SeenFacts(r[|r| - 1]);
          assert Rejoined(fs)[|r| - 1] == r[|r| - 1] && Rejoined(fs)[|r|] == f.p;
          assert r[|r| - 1].publicKey != f.p.publicKey;
        }
        SeenPeersSnoc(r, f.p);
        assert SeenFragment(f) == Seen(f.p) by { SeenFirst(f); }
      } else {
        var last := LastOf(r);
        EndsContinued(fs, last);
        var init := r[..|r| - 1];
        SeenFacts(last);
        MergeSeen(last, f);
        SeenPeersSnoc(init, Extended(last, f.p.allowedIps));
      }
    }
  }

  lemma SeenFirst(f: Fragment)
    ensures f.first ==> SeenFragment(f) == Seen(f.p)
  {
  }

  lemma NothingRejoined()
    ensures Rejoined([]) == [] && SeenPeers([]) == [] && Coalesced([]) == Merged([])
  {
  }

  lemma DistinctBefore(fs: seq<Fragment>)
    requires fs != [] && ContinuationsOk(fs) && DistinctNeighbours(Rejoined(fs))
    ensures DistinctNeighbours(Rejoined(fs[..|fs| - 1]))
  {
    hide Rejoined, ContinuationsOk;
    var r, all := Rejoined(fs[..|fs| - 1]), Rejoined(fs);
    if fs[|fs| - 1].first { EndsFresh(fs); } else { EndsContinued(fs, LastOf(r)); }
    forall i | 0 < i < |r| ensures r[i - 1].publicKey != r[i].publicKey {
      assert all[i - 1].publicKey == r[i - 1].publicKey && all[i].publicKey == r[i].publicKey;
    }
  }

  // ----- the whole run

  lemma {:induction false} SeenAllConcat(a: seq<Fragment>, b: seq<Fragment>)
    ensures SeenAll(a + b) == SeenAll(a) + SeenAll(b)
  {
    hide SeenFragment;
    if b == [] {
      assert a + b == a;
    } else {
      SeenAllConcat(a, b[..|b| - 1]);
      assert (a + b)[..|a + b| - 1] == a + b[..|b| - 1];
    }
  }

  lemma IpsGoodConcat(a: seq<Fragment>, b: seq<Fragment>)
    requires IpsGood(a + b) && AllFit(b)
    ensures IpsGood(a) && GoodFragments(b)
  {
    hide GoodIps, FragmentFits;
    forall i | 0 <= i < |a| ensures GoodIps(a[i].p.allowedIps) && (a[i].nest || a[i].p.allowedIps == []) { assert (a + b)[i] == a[i]; }
    forall i | 0 <= i < |b| ensures GoodFragment(b[i]) { assert (a + b)[|a| + i] == b[i]; }
  }

  lemma CarriesLast(sent: seq<seq<u8>>, plan: seq<seq<Fragment>>, headers: nat -> Header, dev: Device, limit: nat)
    requires Carries(sent, plan, headers, dev, limit) && sent != []
    ensures var n := |sent| - 1;
            && |plan| == n + 1 && Carries(sent[..n], plan[..n], headers, dev, limit) && MessageFits(plan[n])
            && sent[n] == MessageBytes(headers(n), dev, n == 0, plan[n])
  {
    hide MessageBytes, MessageFits;
  }

  /** What the reader holds after n messages. */
  function After(n: nat, dev: Device, fs: seq<Fragment>): ReadDevice {
    (if n == 0 then BlankDevice() else SeenDevice(BlankDevice(), dev)).(peers := SeenAll(fs))
  }

  lemma AfterNext(n: nat, dev: Device, a: seq<Fragment>, b: seq<Fragment>)
    ensures n > 0 || a == [] ==>
      var d := After(n, dev, a);
      var e := if n == 0 then SeenDevice(d, dev) else d;
      e.(peers := e.peers + SeenAll(b)) == After(n + 1, dev, a + b)
  {
    hide SeenFragment, Zeros;
    SeenAllConcat(a, b);
  }

  lemma {:induction false} AllBack(sent: seq<seq<u8>>, plan: seq<seq<Fragment>>, headers: nat -> Header, dev: Device, limit: nat)
    requires Carries(sent, plan, headers, dev, limit) && IpsGood(Flat(plan)) && (dev.peers == [] ==> Flat(plan) == [])
    ensures ReadAll(sent) == (After(|sent|, dev, Flat(plan)), true)
  {
    hide Carries, MessageFits, MessageBytes, IpsGood, GoodFragments, ReadMessage, SeenDevice, After, SeenAll;
    if sent == [] {
      NothingRead(sent, plan, headers, dev, limit);
    } else {
      var n := |sent| - 1;
      CarriesLast(sent, plan, headers, dev, limit);
      assert plan[..n] + [plan[n]] == plan;
      FlatSnoc(plan[..n], plan[n]);
      MessageFitsAll(plan[n]);
      IpsGoodConcat(Flat(plan[..n]), plan[n]);
      AllBack(sent[..n], plan[..n], headers, dev, limit);
      MessageBack(headers(n), After(n, dev, Flat(plan[..n])), dev, n == 0, plan[n]);
      AfterNext(n, dev, Flat(plan[..n]), plan[n]);
    }
  }

  lemma MessageFitsAll(fs: seq<Fragment>)
    requires MessageFits(fs)
    ensures AllFit(fs)
  {
  }

  lemma NothingRead(sent: seq<seq<u8>>, plan: seq<seq<Fragment>>, headers: nat -> Header, dev: Device, limit: nat)
    requires sent == [] && Carries(sent, plan, headers, dev, limit)
    ensures Flat(plan) == [] && ReadAll(sent) == (After(0, dev, []), true)
  {
  }

  datatype Got = Rebuilt(device: ReadDevice) | ReadError | Crash

  /** `wg_get_device` over the messages of one dump. */
  function GetDevice(messages: seq<seq<u8>>): Got {
    var (d, ok) := ReadAll(messages);
    if !ok then ReadError
    else match Coalesced(d.peers)
      case NullDereference => Crash
      case Merged(peers) => Rebuilt(d.(peers := peers))
  }

  // ----- when the reader follows a null pointer

  /** Any messages at all leave the tail pointers in order. */
  lemma {:induction false} ReadAllTails(messages: seq<seq<u8>>)
    ensures TailsOk(ReadAll(messages).0.peers)
  {
    hide FoldDevice, Walk;
    if messages != [] {
      var d := ReadAll(messages[..|messages| - 1]).0;
      var message := messages[|messages| - 1];
      ReadAllTails(messages[..|messages| - 1]);
      if |message| >= 20 { FoldDeviceTails(d, Walk(message[20..])); }
    }
  }

  /** Reading any messages dereferences null exactly when they parse and an empty piece sits between two
      others of its peer. */
  lemma ReaderCrashesExactlyOnGaps(messages: seq<seq<u8>>)
    ensures GetDevice(messages) == Crash <==> ReadAll(messages).1 && HasGap(ReadAll(messages).0.peers)
  {
    hide ReadAll, Coalesced, HasGap, TailsOk;
    ReadAllTails(messages);
    CrashesExactlyOnGaps(ReadAll(messages).0.peers);
  }

  /** Three pieces of one peer, of which the middle one has no allowed IPs. */
  function GapPieces(p: Peer, ip: AllowedIp): seq<Fragment> {
    var with := p.(allowedIps := [ip]);
    [Fragment(with, true, true)] + [Fragment(p.(allowedIps := []), false, false)] + [Fragment(with, false, true)]
  }

  lemma OneIpFits(f: Fragment)
    requires |f.p.allowedIps| <= 1
    ensures FragmentFits(f) && |FragmentBytes(f)| <= 168
  {
    hide Attr, IpBytes, HeadBytes;
    if f.p.allowedIps != [] { assert IpsBytes(f.p.allowedIps[..0]) == []; }
  }

  lemma FragmentsSnoc(fs: seq<Fragment>, f: Fragment)
    requires AllFit(fs) && FragmentFits(f)
    ensures AllFit(fs + [f]) && FragmentsBytes(fs + [f]) == FragmentsBytes(fs) + Attr(NESTED, FragmentBytes(f))
  {
    hide Attr, FragmentBytes, FragmentFits;
    assert (fs + [f])[..|fs|] == fs;
  }

  lemma GapPiecesFit(p: Peer, ip: AllowedIp)
    ensures MessageFits(GapPieces(p, ip))
  {
    hide Attr, FragmentBytes, FragmentFits, FragmentsBytes, AllFit;
    var fs := GapPieces(p, ip);
    OneIpFits(fs[0]);
    OneIpFits(fs[1]);
    OneIpFits(fs[2]);
    NoFragments();
    FragmentsSnoc([], fs[0]);
    assert [] + [fs[0]] == [fs[0]];
    FragmentsSnoc([fs[0]], fs[1]);
    FragmentsSnoc([fs[0]] + [fs[1]], fs[2]);
  }

  lemma NoFragments()
    ensures AllFit([]) && FragmentsBytes([]) == []
  {
  }

  lemma SeenAllSnoc(fs: seq<Fragment>, f: Fragment)
    ensures SeenAll(fs + [f]) == SeenAll(fs) + [SeenFragment(f)]
  {
    hide SeenFragment;
    assert (fs + [f])[..|fs|] == fs;
  }

  lemma GapPiecesGap(p: Peer, ip: AllowedIp)
    ensures HasGap(SeenAll(GapPieces(p, ip)))
  {
    hide SeenFragment, SeenAll, SeenHead;
    var fs := GapPieces(p, ip);
    SeenAllSnoc([], fs[0]);
    assert [] + [fs[0]] == [fs[0]];
    SeenAllSnoc([fs[0]], fs[1]);
    SeenAllSnoc([fs[0]] + [fs[1]], fs[2]);
    NoneSeen();
    SeenHeads(fs[0]);
    SeenHeads(fs[1]);
    SeenHeads(fs[2]);
    assert Gap(SeenAll(fs), 1);
  }

  lemma NoneSeen()
    ensures SeenAll([]) == []
  {
  }

  /** A message on which the reader does dereference null, whatever its headers and device attributes are. */
  lemma GapMessage(header: Header, dev: Device, p: Peer, ip: AllowedIp)
    requires dev.peers != [] && GoodIp(ip)
    ensures MessageFits(GapPieces(p, ip)) && GetDevice([MessageBytes(header, dev, true, GapPieces(p, ip))]) == Crash
  {
    hide MessageBytes, MessageFits, FragmentFits, ReadMessage, SeenAll, HasGap, SeenDevice, GetDevice;
    var fs := GapPieces(p, ip);
    GapPiecesFit(p, ip);
    MessageFitsAll(fs);
    GapPiecesGap(p, ip);
    MessageBack(header, BlankDevice(), dev, true, fs);
    NoPeersSeen(dev);
    var messages := [MessageBytes(header, dev, true, fs)];
    assert messages[..0] == [];
    ReaderCrashesExactlyOnGaps(messages);
    assert [] + SeenAll(fs) == SeenAll(fs);
  }

  lemma NoPeersSeen(dev: Device)
    ensures SeenDevice(BlankDevice(), dev).peers == []
  {
  }

  lemma {:induction false} ReadAllStops(messages: seq<seq<u8>>, n: nat)
    requires n <= |messages| && !ReadAll(messages[..n]).1
    ensures !ReadAll(messages).1
    decreases |messages|
  {
    hide ReadMessage;
    if n < |messages| {
      assert messages[..|messages| - 1][..n] == messages[..n];
      ReadAllStops(messages[..|messages| - 1], n);
    } else {
      assert messages[..n] == messages;
    }
  }

  /** The attributes of one message, one callback at a time. */
  method ParseMessage(d0: ReadDevice, message: seq<u8>) returns (d: ReadDevice, ok: bool)
    ensures (d, ok) == ReadMessage(d0, message)
  {
    hide Walk, DeviceItem, FoldDevice;
    d, ok := d0, true;
    if |message| < 20 {
      return;
    }
    var items := ParseNested(message[20..]);
    var i := 0;
    while i < |items|
      invariant 0 <= i <= |items|
      invariant ok && FoldDevice(d, items[i..]) == FoldDevice(d0, items)
    {
      FoldDeviceStep(d, items, i);
      var next := DeviceItem(d, items[i]);
      d, ok := next.0, next.1;
      if !ok {
        return;
      }
      i := i + 1;
    }
    FoldDeviceStep(d, items, i);
  }

  lemma FoldDeviceStep(d: ReadDevice, items: seq<Item>, i: nat)
    requires i <= |items|
    ensures i == |items| ==> FoldDevice(d, items[i..]) == (d, true)
    ensures i < |items| ==>
      var next := DeviceItem(d, items[i]);
      FoldDevice(d, items[i..]) == if next.1 then FoldDevice(next.0, items[i + 1..]) else next
  {
    hide DeviceItem;
  }

  method ReadMessages(messages: seq<seq<u8>>) returns (got: Got)
    ensures got == GetDevice(messages)
  {
    hide ReadMessage, Coalesced, BlankDevice;
    var d, i := BlankDevice(), 0;
    while i < |messages|
      invariant 0 <= i <= |messages| && ReadAll(messages[..i]) == (d, true)
    {
      assert messages[..i + 1][..i] == messages[..i];
      var ok;
      d, ok := ParseMessage(d, messages[i]);
      if !ok {
        ReadAllStops(messages, i + 1);
        return ReadError;
      }
      i := i + 1;
    }
    assert messages[..i] == messages;
    var merged := CoalescePeers(d.peers);
    match merged {
      case NullDereference => got := Crash;
      case Merged(peers) => got := Rebuilt(d.(peers := peers));
    }
  }

  /** Whatever the buffer size and however the device was split, reading the messages back gives every peer
      with its key, preshared key, endpoint, keepalive and allowed IPs, once each and in order. */
  lemma ReadsBack(sent: seq<seq<u8>>, plan: seq<seq<Fragment>>, headers: nat -> Header, dev: Device, limit: nat)
    requires |sent| >= 1 && Carries(sent, plan, headers, dev, limit)
    requires Rejoined(Flat(plan)) == dev.peers && ContinuationsOk(Flat(plan)) && NestsOk(Flat(plan))
    requires GoodPeers(dev.peers) && DistinctNeighbours(dev.peers)
    ensures GetDevice(sent) == Rebuilt(SeenDevice(BlankDevice(), dev).(peers := SeenPeers(dev.peers)))
  {
    hide Carries, ContinuationsOk, NestsOk, Rejoined, GoodPeers, DistinctNeighbours, ReadAll, Coalesced, SeenPeers, SeenAll, BlankDevice, SeenDevice, IpsGood;
    PiecesGood(Flat(plan));
    if Flat(plan) != [] { RejoinedStarts(Flat(plan)); }
    AllBack(sent, plan, headers, dev, limit);
    CoalescedBack(Flat(plan));
  }

  lemma {:induction false} SeenKeys(ps: seq<Peer>)
    ensures |SeenPeers(ps)| == |ps| && forall i :: 0 <= i < |ps| ==> SeenPeers(ps)[i].publicKey == ps[i].publicKey
  {
    hide Seen;
    if ps != [] {
      SeenKeys(ps[..|ps| - 1]);
      SeenFacts(ps[|ps| - 1]);
    }
  }

  lemma RepeatsMerge(ps: seq<Parsed>, peers: seq<Peer>)
    requires Coalesced(ps) == Merged(SeenPeers(peers))
    ensures DistinctNeighbours(peers)
  {
    hide Coalesced, SeenPeers;
    CoalescingConserves(ps);
    SeenKeys(peers);
    forall i | 0 < i < |peers| ensures peers[i - 1].publicKey != peers[i].publicKey {
      assert SeenPeers(peers)[i - 1].publicKey != SeenPeers(peers)[i].publicKey;
    }
  }

  /** The sequence of peers is restored exactly when no two neighbours have the same key. */
  lemma ReadsBackExactly(sent: seq<seq<u8>>, plan: seq<seq<Fragment>>, headers: nat -> Header, dev: Device, limit: nat)
    requires |sent| >= 1 && Carries(sent, plan, headers, dev, limit)
    requires Rejoined(Flat(plan)) == dev.peers && ContinuationsOk(Flat(plan)) && NestsOk(Flat(plan))
    requires GoodPeers(dev.peers)
    ensures GetDevice(sent) == Rebuilt(SeenDevice(BlankDevice(), dev).(peers := SeenPeers(dev.peers))) <==> DistinctNeighbours(dev.peers)
  {
    hide Carries, ContinuationsOk, NestsOk, Rejoined, GoodPeers, DistinctNeighbours, ReadAll, Coalesced, SeenPeers, SeenAll, BlankDevice, SeenDevice;
    if DistinctNeighbours(dev.peers) { ReadsBack(sent, plan, headers, dev, limit); }
    if GetDevice(sent) == Rebuilt(SeenDevice(BlankDevice(), dev).(peers := SeenPeers(dev.peers))) {
      RepeatsMerge(ReadAll(sent).0.peers, dev.peers);
    }
  }

  // ----- the rebuilt device, field by field

  predicate RestoredPeer(q: Parsed, p: Peer) {
    var family := p.endpoint[0] + 0x100 * p.endpoint[1] as int;
    && q.hasPublicKey && q.publicKey == p.publicKey && q.allowedIps == p.allowedIps
    && (q.hasPresharedKey <==> p.hasPresharedKey && exists i :: 0 <= i < 32 && p.presharedKey[i] != 0)
    && (forall i :: 0 <= i < 32 ==> q.presharedKey[i] == if p.hasPresharedKey then p.presharedKey[i] else 0)
    && (forall i :: 0 <= i < 28 ==> q.endpoint[i] == if family == 10 || (family == 2 && i < 16) then p.endpoint[i] else 0)
    && q.keepalive == if p.hasKeepalive then p.keepalive else 0
  }

  predicate Restored(d: ReadDevice, dev: Device) {
    && d.hasPrivateKey == dev.hasPrivateKey
    && (forall i :: 0 <= i < 32 ==> d.privateKey[i] == if dev.hasPrivateKey then dev.privateKey[i] else 0)
    && d.listenPort == (if dev.hasListenPort then dev.listenPort else 0)
    && d.fwmark == (if dev.hasFwmark then dev.fwmark else 0)
    && |d.peers| == |dev.peers| && forall i :: 0 <= i < |d.peers| ==> RestoredPeer(d.peers[i], dev.peers[i])
  }

  lemma ZerosAt(n: nat)
    ensures forall i :: 0 <= i < n ==> Zeros(n)[i] == 0
  {
  }

  lemma SeenIsRestored(p: Peer)
    ensures RestoredPeer(Seen(p), p)
  {
    hide Zeros;
    ZerosAt(32);
    ZerosAt(28);
  }

  lemma {:induction false} SeenPeersRestored(ps: seq<Peer>)
    ensures |SeenPeers(ps)| == |ps| && forall i :: 0 <= i < |ps| ==> RestoredPeer(SeenPeers(ps)[i], ps[i])
  {
    hide RestoredPeer, Seen;
    if ps != [] {
      SeenPeersRestored(ps[..|ps| - 1]);
      SeenIsRestored(ps[|ps| - 1]);
    }
  }

  lemma SeenDeviceRestored(dev: Device)
    ensures Restored(SeenDevice(BlankDevice(), dev).(peers := SeenPeers(dev.peers)), dev)
  {
    hide Zeros, SeenPeers, RestoredPeer;
    ZerosAt(32);
    SeenPeersRestored(dev.peers);
  }

  method SetThenGet(headers: nat -> Header, dev: Device, limit: nat) returns (got: Got)
    requires 0x1000 <= limit <= 0x2000
    requires GoodPeers(dev.peers) && DistinctNeighbours(dev.peers)
    ensures got == Rebuilt(SeenDevice(BlankDevice(), dev).(peers := SeenPeers(dev.peers))) && Restored(got.device, dev)
  {
    hide Carries, ContinuationsOk, NestsOk, Rejoined, GoodPeers, DistinctNeighbours, GetDevice, SeenPeers, BlankDevice, SeenDevice, Restored;
    SeenDeviceRestored(dev);
    var sent;
    ghost var plan;
    sent, plan := SetDevice(headers, dev, limit);
    ReadsBack(sent, plan, headers, dev, limit);
    got := ReadMessages(sent);
  }
}
