/** `wg_get_device`: rebuilding a device from messages, and the round trip through `wg_set_device`. */
module DeviceReader {
  import opened Bits
  import opened Bytes
  import opened Netlink
  import opened Device
  import opened Coalesce

  // ----- allowed IPs

  function BlankIp(): AllowedIp { AllowedIp(0, Zeros(16), 0) }

  /** `parse_allowedip` */
  function IpItem(ip: AllowedIp, item: Item): AllowedIp {
    var n := |item.payload|;
    match TypeOf(item)
    case 1 => if n == 2 then ip.(family := At16(item.payload, 0)) else ip
    case 2 => if n == 4 then ip.(ip := item.payload + ip.ip[4..]) else if n == 16 then ip.(ip := item.payload) else ip
    case 3 => if n == 1 then ip.(cidr := item.payload[0]) else ip
    case _ => ip
  }

  function FoldIp(ip: AllowedIp, items: seq<Item>): AllowedIp
    decreases |items|
  {
    if items == [] then ip else FoldIp(IpItem(ip, items[0]), items[1..])
  }

  predicate Usable(ip: AllowedIp) {
    (ip.family == AF_INET && ip.cidr <= 32) || (ip.family == AF_INET6 && ip.cidr <= 128)
  }

  /** `parse_allowedips` over the nest: each allowed IP is appended before it is checked. */
  function FoldIps(ips: seq<AllowedIp>, items: seq<Item>): (seq<AllowedIp>, bool)
    decreases |items|
  {
    if items == [] then (ips, true)
    else
      var ip := FoldIp(BlankIp(), Walk(items[0].payload));
      if Usable(ip) then FoldIps(ips + [ip], items[1..]) else (ips + [ip], false)
  }

  // ----- peers

  function BlankPeer(): Parsed {
    Parsed(false, Zeros(32), false, Zeros(32), Zeros(28), 0, [], false)
  }

  predicate IsZero(key: Key) { forall i :: 0 <= i < 32 ==> key[i] == 0 }

  function ReadEndpoint(e: Endpoint, payload: seq<u8>): Endpoint {
    if |payload| < 16 then e
    else if At16(payload, 0) == AF_INET && |payload| == 16 then payload + e[16..]
    else if At16(payload, 0) == AF_INET6 && |payload| == 28 then payload
    else e
  }

  /** `parse_peer` */
  function PeerItem(p: Parsed, item: Item): (Parsed, bool) {
    var n := |item.payload|;
    match TypeOf(item)
    case 1 => (if n == 32 then p.(publicKey := item.payload, hasPublicKey := true) else p, true)
    case 2 =>
      (if n == 32 then p.(presharedKey := item.payload, hasPresharedKey := p.hasPresharedKey || !IsZero(item.payload)) else p, true)
    case 4 => (p.(endpoint := ReadEndpoint(p.endpoint, item.payload)), true)
    case 5 => (if n == 2 then p.(keepalive := At16(item.payload, 0)) else p, true)
    case 9 =>
      var (ips, ok) := FoldIps(p.allowedIps, Walk(item.payload));
      (p.(allowedIps := ips, tail := p.tail || ips != []), ok)
    case _ => (p, true)
  }

  function FoldPeer(p: Parsed, items: seq<Item>): (Parsed, bool)
    decreases |items|
  {
    if items == [] then (p, true)
    else
      var (q, ok) := PeerItem(p, items[0]);
      if ok then FoldPeer(q, items[1..]) else (q, false)
  }

  /** `parse_peers` over the nest: a peer whose attributes stopped early stays, as long as it has a key. */
  function FoldPeers(ps: seq<Parsed>, items: seq<Item>): (seq<Parsed>, bool)
    decreases |items|
  {
    if items == [] then (ps, true)
    else
      var p := FoldPeer(BlankPeer(), Walk(items[0].payload)).0;
      if p.hasPublicKey then FoldPeers(ps + [p], items[1..]) else (ps + [p], false)
  }

  // ----- the device

  datatype ReadDevice = ReadDevice(hasPrivateKey: bool, privateKey: Key, listenPort: u16, fwmark: u32, peers: seq<Parsed>)

  function BlankDevice(): ReadDevice { ReadDevice(false, Zeros(32), 0, 0, []) }

  function At32(b: seq<u8>): (v: u32)
    requires |b| == 4
  {
    b[0] as int + 0x100 * b[1] as int + 0x1_0000 * b[2] as int + 0x100_0000 * b[3] as int
  }

  /** `parse_device`, for the attributes `wg_set_device` writes; the name is not part of this model. */
  function DeviceItem(d: ReadDevice, item: Item): (ReadDevice, bool) {
    var n := |item.payload|;
    match TypeOf(item)
    case 3 => (if n == 32 then d.(privateKey := item.payload, hasPrivateKey := true) else d, true)
    case 6 => (if n == 2 then d.(listenPort := At16(item.payload, 0)) else d, true)
    case 7 => (if n == 4 then d.(fwmark := At32(item.payload)) else d, true)
    case 8 =>
      var (ps, ok) := FoldPeers(d.peers, Walk(item.payload));
      (d.(peers := ps), ok)
    case _ => (d, true)
  }

  function FoldDevice(d: ReadDevice, items: seq<Item>): (ReadDevice, bool)
    decreases |items|
  {
    if items == [] then (d, true)
    else
      var (e, ok) := DeviceItem(d, items[0]);
      if ok then FoldDevice(e, items[1..]) else (e, false)
  }

  /** The attributes of one message start after 20 bytes of headers. */
  function ReadMessage(d: ReadDevice, message: seq<u8>): (ReadDevice, bool) {
    if |message| < 20 then (d, true) else FoldDevice(d, Walk(message[20..]))
  }

  // ----- the tail pointers, whatever is read

  lemma {:induction false} FoldIpsGrow(ips: seq<AllowedIp>, items: seq<Item>)
    ensures |FoldIps(ips, items).0| >= |ips|
    decreases |items|
  {
    hide FoldIp, Usable, Walk;
    if items != [] { FoldIpsGrow(ips + [FoldIp(BlankIp(), Walk(items[0].payload))], items[1..]); }
  }

  lemma {:induction false} FoldPeerTail(p: Parsed, items: seq<Item>)
    requires TailOk(p)
    ensures TailOk(FoldPeer(p, items).0)
    decreases |items|
  {
    hide FoldIps, Walk, IsZero, ReadEndpoint;
    if items != [] {
      FoldIpsGrow(p.allowedIps, Walk(items[0].payload));
      FoldPeerTail(PeerItem(p, items[0]).0, items[1..]);
    }
  }

  lemma {:induction false} FoldPeersTails(ps: seq<Parsed>, items: seq<Item>)
    requires TailsOk(ps)
    ensures TailsOk(FoldPeers(ps, items).0)
    decreases |items|
  {
    hide FoldPeer, Walk;
    if items != [] {
      var p := FoldPeer(BlankPeer(), Walk(items[0].payload)).0;
      FoldPeerTail(BlankPeer(), Walk(items[0].payload));
      FoldPeersTails(ps + [p], items[1..]);
    }
  }

  lemma {:induction false} FoldDeviceTails(d: ReadDevice, items: seq<Item>)
    requires TailsOk(d.peers)
    ensures TailsOk(FoldDevice(d, items).0.peers)
    decreases |items|
  {
    hide FoldPeers, Walk, TailsOk;
    if items != [] {
      FoldPeersTails(d.peers, Walk(items[0].payload));
      FoldDeviceTails(DeviceItem(d, items[0]).0, items[1..]);
    }
  }

  // ----- reading what was written: one attribute at a time

  lemma At16Le16(v: u16)
    ensures At16(Le16(v), 0) == v
  {
  }

  lemma At32Le32(v: u32)
    ensures At32(Le32(v)) == v
  {
    hide Zeros;
    assert v == v % 0x100 + 0x100 * (v / 0x100 % 0x100) + 0x1_0000 * (v / 0x1_0000 % 0x100) + 0x100_0000 * (v / 0x100_0000) by {
      assert v / 0x1_0000 == v / 0x100 / 0x100 && v / 0x100_0000 == v / 0x1_0000 / 0x100;
    }
  }

  lemma WalkNothing()
    ensures Walk([]) == []
  {
  }

  lemma StepIp(ip: AllowedIp, rawType: u16, data: seq<u8>, rest: seq<u8>)
    requires Sized(data)
    ensures FoldIp(ip, Walk(Attr(rawType, data) + rest)) == FoldIp(IpItem(ip, Item(rawType, data)), Walk(rest))
  {
    hide Attr, Walk, IpItem;
    WalkAttr(rawType, data, rest);
  }

  lemma StepPeer(p: Parsed, rawType: u16, data: seq<u8>, rest: seq<u8>)
    requires Sized(data)
    ensures var (q, ok) := PeerItem(p, Item(rawType, data));
            FoldPeer(p, Walk(Attr(rawType, data) + rest)) == if ok then FoldPeer(q, Walk(rest)) else (q, false)
  {
    hide Attr, Walk, PeerItem;
    WalkAttr(rawType, data, rest);
  }

  lemma StepDevice(d: ReadDevice, rawType: u16, data: seq<u8>, rest: seq<u8>)
    requires Sized(data)
    ensures var (e, ok) := DeviceItem(d, Item(rawType, data));
            FoldDevice(d, Walk(Attr(rawType, data) + rest)) == if ok then FoldDevice(e, Walk(rest)) else (e, false)
  {
    hide Attr, Walk, DeviceItem;
    WalkAttr(rawType, data, rest);
  }

  // ----- allowed IPs come back

  /** A prefix length that fits one of the two families. */
  predicate InRange(ip: AllowedIp) { (ip.family == 2 && ip.cidr <= 32) || (ip.family == 10 && ip.cidr <= 128) }

  /** An allowed IP that `wg_get_device` can represent: its family decides which bytes of the union count. */
  predicate GoodIp(ip: AllowedIp) {
    || (ip.family == 2 && ip.cidr <= 32 && forall i :: 4 <= i < 16 ==> ip.ip[i] == 0)
    || (ip.family == 10 && ip.cidr <= 128)
  }

  /** What the reader sees of an allowed IP, whatever its family and prefix length are. */
  function SeenIp(ip: AllowedIp): AllowedIp {
    ip.(ip := if ip.family == 2 then ip.ip[..4] + Zeros(12) else if ip.family == 10 then ip.ip else Zeros(16))
  }

  lemma ZerosSplit()
    ensures Zeros(16)[4..] == Zeros(12)
  {
  }

  lemma RangeIs(ip: AllowedIp)
    ensures Usable(SeenIp(ip)) <==> InRange(ip)
    ensures GoodIp(ip) ==> SeenIp(ip) == ip && InRange(ip)
  {
    if GoodIp(ip) && ip.family == 2 {
      assert ip.ip == ip.ip[..4] + ip.ip[4..] && ip.ip[4..] == Zeros(12);
    }
  }

  lemma PayloadBack(ip: AllowedIp, rest: seq<u8>)
    ensures FoldIp(BlankIp().(family := ip.family), Walk(IpPayload(ip) + rest)) == FoldIp(SeenIp(ip).(cidr := 0), Walk(rest))
  {
    hide Attr, Walk, FoldIp, Zeros;
    ZerosSplit();
    if ip.family == AF_INET {
      StepIp(BlankIp().(family := ip.family), 2, ip.ip[..4], rest);
    } else if ip.family == AF_INET6 {
      StepIp(BlankIp().(family := ip.family), 2, ip.ip, rest);
    } else {
      assert [] + rest == rest;
    }
  }

  /** Every allowed IP that is written is read. */
  lemma IpBack(ip: AllowedIp)
    ensures FoldIp(BlankIp(), Walk(IpBytes(ip))) == SeenIp(ip)
  {
    hide Attr, Walk, FoldIp, Zeros, IpPayload, Le16, SeenIp;
    var family, payload, mask := Attr(1, Le16(ip.family)), IpPayload(ip), Attr(3, [ip.cidr]);
    assert IpBytes(ip) == family + (payload + mask);
    StepIp(BlankIp(), 1, Le16(ip.family), payload + mask);
    At16Le16(ip.family);
    PayloadBack(ip, mask);
    StepIp(SeenIp(ip).(cidr := 0), 3, [ip.cidr], []);
    assert mask + [] == mask;
    FoldIpNothing(SeenIp(ip));
    SeenCidr(ip);
  }

  lemma SeenCidr(ip: AllowedIp)
    ensures SeenIp(ip).cidr == ip.cidr
  {
  }

  lemma FoldIpNothing(ip: AllowedIp)
    ensures FoldIp(ip, Walk([])) == ip
  {
    WalkNothing();
  }

  predicate GoodIps(ips: seq<AllowedIp>) { forall i :: 0 <= i < |ips| ==> GoodIp(ips[i]) }

  predicate AllInRange(ips: seq<AllowedIp>) { forall i :: 0 <= i < |ips| ==> InRange(ips[i]) }

  function SeenIps(ips: seq<AllowedIp>): seq<AllowedIp> {
    if ips == [] then [] else SeenIps(ips[..|ips| - 1]) + [SeenIp(ips[|ips| - 1])]
  }

  lemma StepIps(ips: seq<AllowedIp>, ip: AllowedIp, rest: seq<u8>)
    ensures FoldIps(ips, Walk(Attr(NESTED, IpBytes(ip)) + rest))
         == if InRange(ip) then FoldIps(ips + [SeenIp(ip)], Walk(rest)) else (ips + [SeenIp(ip)], false)
  {
    hide Attr, Walk, IpBytes, FoldIp, SeenIp, InRange, Usable;
    WalkAttr(NESTED, IpBytes(ip), rest);
    IpBack(ip);
    RangeIs(ip);
  }

  lemma {:induction false} IpsBack(ips: seq<AllowedIp>, more: seq<AllowedIp>, rest: seq<u8>)
    requires AllInRange(more)
    ensures FoldIps(ips, Walk(IpsBytes(more) + rest)) == FoldIps(ips + SeenIps(more), Walk(rest))
    decreases |more|
  {
    hide Attr, Walk, IpBytes, FoldIps, InRange, SeenIp;
    if more == [] {
      assert IpsBytes(more) + rest == rest && ips + SeenIps(more) == ips;
    } else {
      var pre, ip := more[..|more| - 1], more[|more| - 1];
      var one := Attr(NESTED, IpBytes(ip));
      assert IpsBytes(more) + rest == IpsBytes(pre) + (one + rest);
      IpsBack(ips, pre, one + rest);
      StepIps(ips + SeenIps(pre), ip, rest);
      assert ips + SeenIps(pre) + [SeenIp(ip)] == ips + SeenIps(more);
    }
  }

  lemma {:induction false} IpsConcat(a: seq<AllowedIp>, b: seq<AllowedIp>)
    ensures IpsBytes(a + b) == IpsBytes(a) + IpsBytes(b)
  {
    hide Attr, IpBytes, IpsBytes;
    if b == [] {
      assert a + b == a;
      NoIps([]);
    } else {
      var pre, ip := b[..|b| - 1], b[|b| - 1];
      assert b == pre + [ip] && a + b == a + pre + [ip];
      IpsConcat(a, pre);
      IpsAppend(pre, ip);
      IpsAppend(a + pre, ip);
    }
  }

  lemma IpsAppend(ips: seq<AllowedIp>, ip: AllowedIp)
    ensures IpsBytes(ips + [ip]) == IpsBytes(ips) + Attr(NESTED, IpBytes(ip))
  {
    hide Attr, IpBytes;
    assert (ips + [ip])[..|ips|] == ips;
  }

  /** A nest of allowed IPs is read in order up to the end, or up to the first one of another family or with a
      longer prefix than its family has; that one is still appended. */
  lemma NestReads(ips: seq<AllowedIp>, n: nat)
    requires n <= |ips| && AllInRange(ips[..n])
    ensures n == |ips| ==> FoldIps([], Walk(IpsBytes(ips))) == (SeenIps(ips), true)
    ensures n < |ips| && !InRange(ips[n]) ==> FoldIps([], Walk(IpsBytes(ips))) == (SeenIps(ips[..n + 1]), false)
  {
    hide Walk, IpsBytes, InRange, SeenIp, Attr, FoldIps, AllInRange;
    var a, b := ips[..n], ips[n..];
    assert ips == a + b;
    IpsConcat(a, b);
    IpsBack([], a, IpsBytes(b));
    assert [] + SeenIps(a) == SeenIps(a);
    if n == |ips| {
      assert a == ips && b == [];
      NoIps(SeenIps(a));
    } else {
      FirstOfIps(b);
      StepIps(SeenIps(a), ips[n], IpsBytes(b[1..]));
      assert ips[..n + 1][..n] == a;
    }
  }

  lemma NoIps(ips: seq<AllowedIp>)
    ensures IpsBytes([]) == [] && FoldIps(ips, Walk(IpsBytes([]))) == (ips, true)
  {
    WalkNothing();
  }

  lemma FirstOfIps(ips: seq<AllowedIp>)
    requires ips != []
    ensures IpsBytes(ips) == Attr(NESTED, IpBytes(ips[0])) + IpsBytes(ips[1..])
  {
    hide Attr, IpBytes, IpsBytes;
    assert ips == [ips[0]] + ips[1..] && [] + [ips[0]] == [ips[0]];
    IpsConcat([ips[0]], ips[1..]);
    IpsAppend([], ips[0]);
    NoIps([]);
  }

  lemma {:induction false} GoodSeen(ips: seq<AllowedIp>)
    requires GoodIps(ips)
    ensures SeenIps(ips) == ips && AllInRange(ips)
  {
    hide GoodIp, SeenIp, InRange;
    if ips != [] {
      GoodSeen(ips[..|ips| - 1]);
      RangeIs(ips[|ips| - 1]);
    }
  }

  /** The allowed-IPs nest of any fragment reads back whole. */
  lemma NestBack(ips: seq<AllowedIp>)
    requires GoodIps(ips)
    ensures FoldIps([], Walk(IpsBytes(ips))) == (ips, true)
  {
    hide Walk, IpsBytes, GoodIps, AllInRange, SeenIps, FoldIps;
    GoodSeen(ips);
    assert ips[..|ips|] == ips;
    NestReads(ips, |ips|);
  }

  // ----- peers come back

  function SeenEndpoint(e: Endpoint): Endpoint {
    if Family(e) == AF_INET then e[..16] + Zeros(28)[16..] else if Family(e) == AF_INET6 then e else Zeros(28)
  }

  /** A peer as a reader sees it after all its fragments. */
  function Seen(p: Peer): Parsed {
    Parsed(true, p.publicKey, p.hasPresharedKey && !IsZero(p.presharedKey), if p.hasPresharedKey then p.presharedKey else Zeros(32),
           SeenEndpoint(p.endpoint), if p.hasKeepalive then p.keepalive else 0, p.allowedIps, p.allowedIps != [])
  }

  /** One fragment as the reader sees it: a continuation has only the key and its allowed IPs. */
  function SeenFragment(f: Fragment): Parsed {
    if f.first then Seen(f.p)
    else BlankPeer().(publicKey := f.p.publicKey, hasPublicKey := true, allowedIps := f.p.allowedIps, tail := f.p.allowedIps != [])
  }

  /** The peer after the attributes that come before the allowed IPs. */
  function SeenHead(f: Fragment): Parsed { SeenFragment(f).(allowedIps := [], tail := false) }

  function SeenKey(p: Peer): Parsed { BlankPeer().(publicKey := p.publicKey, hasPublicKey := true) }

  function SeenPreshared(p: Peer): Parsed {
    SeenKey(p).(hasPresharedKey := p.hasPresharedKey && !IsZero(p.presharedKey), presharedKey := if p.hasPresharedKey then p.presharedKey else Zeros(32))
  }

  lemma KeyBack(p: Peer, rest: seq<u8>)
    ensures FoldPeer(BlankPeer(), Walk(KeyBytes(p) + rest)) == FoldPeer(SeenKey(p), Walk(rest))
  {
    hide Attr, Walk, FoldPeer, Zeros;
    StepPeer(BlankPeer(), 1, p.publicKey, rest);
  }

  lemma PresharedBack(p: Peer, rest: seq<u8>)
    ensures FoldPeer(SeenKey(p), Walk(PresharedBytes(p) + rest)) == FoldPeer(SeenPreshared(p), Walk(rest))
  {
    hide Attr, Walk, FoldPeer, Zeros, IsZero;
    if p.hasPresharedKey {
      StepPeer(SeenKey(p), 2, p.presharedKey, rest);
    } else {
      assert [] + rest == rest;
    }
  }

  lemma EndpointBack(p: Peer, rest: seq<u8>)
    ensures FoldPeer(SeenPreshared(p), Walk(EndpointBytes(p) + rest))
         == FoldPeer(SeenPreshared(p).(endpoint := SeenEndpoint(p.endpoint)), Walk(rest))
  {
    hide Attr, Walk, FoldPeer, Zeros, IsZero;
    var q := SeenPreshared(p);
    if Family(p.endpoint) == AF_INET {
      StepPeer(q, 4, p.endpoint[..16], rest);
    } else if Family(p.endpoint) == AF_INET6 {
      StepPeer(q, 4, p.endpoint, rest);
    } else {
      assert [] + rest == rest;
    }
  }

  lemma KeepaliveBack(p: Peer, rest: seq<u8>)
    ensures FoldPeer(SeenPreshared(p).(endpoint := SeenEndpoint(p.endpoint)), Walk(KeepaliveBytes(p) + rest))
         == FoldPeer(SeenHead(Fragment(p, true, false)), Walk(rest))
  {
    hide Attr, Walk, FoldPeer, Zeros, IsZero, SeenEndpoint, Le16;
    if p.hasKeepalive {
      At16Le16(p.keepalive);
      StepPeer(SeenPreshared(p).(endpoint := SeenEndpoint(p.endpoint)), 5, Le16(p.keepalive), rest);
    } else {
      assert [] + rest == rest;
    }
  }

  lemma OnceBack(p: Peer, rest: seq<u8>)
    ensures FoldPeer(SeenKey(p), Walk(OnceBytes(p) + rest)) == FoldPeer(SeenHead(Fragment(p, true, false)), Walk(rest))
  {
    hide Walk, FoldPeer, PresharedBytes, EndpointBytes, KeepaliveBytes, SeenKey, SeenPreshared, SeenHead, SeenEndpoint;
    assert OnceBytes(p) + rest == PresharedBytes(p) + (EndpointBytes(p) + (KeepaliveBytes(p) + rest));
    PresharedBack(p, EndpointBytes(p) + (KeepaliveBytes(p) + rest));
    EndpointBack(p, KeepaliveBytes(p) + rest);
    KeepaliveBack(p, rest);
  }

  /** The reader ignores the flags. */
  lemma FlagsBack(q: Parsed, flags: u32, rest: seq<u8>)
    ensures FoldPeer(q, Walk(FlagBytes(flags) + rest)) == FoldPeer(q, Walk(rest))
  {
    hide Attr, Walk, FoldPeer, Le32;
    if flags != 0 {
      StepPeer(q, 3, Le32(flags), rest);
    } else {
      assert [] + rest == rest;
    }
  }

  lemma SeenHeads(f: Fragment)
    ensures f.first ==> SeenHead(f) == SeenHead(Fragment(f.p, true, false))
    ensures !f.first ==> SeenHead(f) == SeenKey(f.p)
    ensures SeenHead(f).(allowedIps := f.p.allowedIps, tail := f.p.allowedIps != []) == SeenFragment(f)
    ensures SeenHead(f).allowedIps == [] && !SeenHead(f).tail && SeenFragment(f).hasPublicKey
    ensures SeenFragment(f).tail == (SeenFragment(f).allowedIps != [])
    ensures SeenFragment(f).publicKey == f.p.publicKey && SeenFragment(f).allowedIps == f.p.allowedIps
  {
  }

  lemma HeadBack(f: Fragment, rest: seq<u8>)
    ensures FoldPeer(BlankPeer(), Walk(HeadBytes(f.p, f.first) + rest)) == FoldPeer(SeenHead(f), Walk(rest))
  {
    hide Walk, FoldPeer, KeyBytes, OnceBytes, FlagBytes, PeerFlags, SeenKey, SeenHead, BlankPeer;
    var p, flags := f.p, FlagBytes(PeerFlags(f.p, f.first));
    SeenHeads(f);
    if f.first {
      assert HeadBytes(p, true) + rest == KeyBytes(p) + (OnceBytes(p) + (flags + rest));
      KeyBack(p, OnceBytes(p) + (flags + rest));
      OnceBack(p, flags + rest);
    } else {
      assert HeadBytes(p, false) + rest == KeyBytes(p) + (flags + rest);
      KeyBack(p, flags + rest);
    }
    FlagsBack(SeenHead(f), PeerFlags(p, f.first), rest);
  }

  /** A fragment the writer produces for a peer with readable allowed IPs. */
  predicate GoodFragment(f: Fragment) {
    FragmentFits(f) && GoodIps(f.p.allowedIps) && (f.nest || f.p.allowedIps == [])
  }

  lemma IpNestBack(f: Fragment)
    requires GoodFragment(f)
    ensures FoldPeer(SeenHead(f), Walk(NestBytes(f))) == (SeenFragment(f), true)
  {
    hide Attr, Walk, FoldIps, IpsBytes, GoodIps, SeenHead, SeenFragment;
    SeenHeads(f);
    WalkNothing();
    if f.nest {
      NestBack(f.p.allowedIps);
      var nest := Attr(NESTED + 9, IpsBytes(f.p.allowedIps));
      assert nest + [] == nest;
      StepPeer(SeenHead(f), NESTED + 9, IpsBytes(f.p.allowedIps), []);
    }
  }

  lemma FragmentBack(f: Fragment)
    requires GoodFragment(f)
    ensures FoldPeer(BlankPeer(), Walk(FragmentBytes(f))) == (SeenFragment(f), true)
  {
    hide Walk, FoldPeer, HeadBytes, NestBytes, SeenHead, SeenFragment, BlankPeer;
    HeadBack(f, NestBytes(f));
    IpNestBack(f);
  }

  /** Reading a fragment stops at the first allowed IP that is out of range, and the peer keeps those up to it. */
  lemma FragmentStops(f: Fragment, n: nat)
    requires FragmentFits(f) && f.nest && n < |f.p.allowedIps| && AllInRange(f.p.allowedIps[..n]) && !InRange(f.p.allowedIps[n])
    ensures FoldPeer(BlankPeer(), Walk(FragmentBytes(f)))
         == (SeenFragment(f).(allowedIps := SeenIps(f.p.allowedIps[..n + 1]), tail := true), false)
  {
    hide Attr, Walk, FoldIps, IpsBytes, HeadBytes, SeenHead, SeenFragment, BlankPeer, InRange, AllInRange, SeenIp;
    HeadBack(f, NestBytes(f));
    SeenHeads(f);
    NestReads(f.p.allowedIps, n);
    var nest := Attr(NESTED + 9, IpsBytes(f.p.allowedIps));
    assert nest + [] == nest;
    StepPeer(SeenHead(f), NESTED + 9, IpsBytes(f.p.allowedIps), []);
    assert SeenIps(f.p.allowedIps[..n + 1]) != [];
  }

  function SeenAll(fs: seq<Fragment>): seq<Parsed> {
    if fs == [] then [] else SeenAll(fs[..|fs| - 1]) + [SeenFragment(fs[|fs| - 1])]
  }

  lemma StepPeers(ps: seq<Parsed>, f: Fragment, rest: seq<u8>)
    requires GoodFragment(f)
    ensures FoldPeers(ps, Walk(Attr(NESTED, FragmentBytes(f)) + rest)) == FoldPeers(ps + [SeenFragment(f)], Walk(rest))
  {
    hide Attr, Walk, FragmentBytes, FoldPeer, SeenFragment, BlankPeer;
    WalkAttr(NESTED, FragmentBytes(f), rest);
    FragmentBack(f);
    SeenHeads(f);
  }

  predicate GoodFragments(fs: seq<Fragment>) { forall i :: 0 <= i < |fs| ==> GoodFragment(fs[i]) }

  lemma {:induction false} PeersBack(ps: seq<Parsed>, fs: seq<Fragment>, rest: seq<u8>)
    requires AllFit(fs) && GoodFragments(fs)
    ensures FoldPeers(ps, Walk(FragmentsBytes(fs) + rest)) == FoldPeers(ps + SeenAll(fs), Walk(rest))
    decreases |fs|
  {
    hide Attr, Walk, FragmentBytes, FoldPeers, SeenFragment, GoodFragment, FragmentFits;
    if fs == [] {
      assert FragmentsBytes(fs) + rest == rest && ps + SeenAll(fs) == ps;
    } else {
      var pre, f := fs[..|fs| - 1], fs[|fs| - 1];
      var one := Attr(NESTED, FragmentBytes(f));
      assert FragmentsBytes(fs) + rest == FragmentsBytes(pre) + (one + rest);
      PeersBack(ps, pre, one + rest);
      StepPeers(ps + SeenAll(pre), f, rest);
      assert ps + SeenAll(pre) + [SeenFragment(f)] == ps + SeenAll(fs);
    }
  }

  /** The peers nest of a message reads back as its fragments. */
  lemma PeersNestBack(ps: seq<Parsed>, fs: seq<Fragment>)
    requires AllFit(fs) && GoodFragments(fs)
    ensures FoldPeers(ps, Walk(FragmentsBytes(fs))) == (ps + SeenAll(fs), true)
  {
    hide Walk, FragmentsBytes, GoodFragment, SeenAll, FragmentFits;
    PeersBack(ps, fs, []);
    assert FragmentsBytes(fs) + [] == FragmentsBytes(fs);
    WalkNothing();
  }
}
