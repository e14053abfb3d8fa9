/** What `wg_get_device` makes of any bytes at all, said of the attributes it walks over: which one of several
    counts, which are ignored, and where reading stops. */
module ReaderFields {
  import opened Bits
  import opened Bytes
  import opened Netlink
  import opened Device
  import opened Coalesce
  import opened DeviceReader

  // ----- the latest attribute of a kind

  /** A type, a payload length, and the address family the payload begins with, unless it is 0. */
  datatype Slot = Slot(number: int, size: nat, family: int)

  predicate Fits(item: Item, s: Slot) {
    && item.rawType % 0x4000 == s.number && |item.payload| == s.size
    && (s.family != 0 && s.size >= 2 ==> item.payload[0] + 0x100 * item.payload[1] as int == s.family)
  }

  predicate FitsEither(item: Item, s: Slot, t: Slot) { Fits(item, s) || Fits(item, t) }

  /** v is the payload of the last item that fits, or d when none does. */
  ghost predicate Latest(items: seq<Item>, s: Slot, t: Slot, v: seq<u8>, d: seq<u8>) {
    || (v == d && forall i :: 0 <= i < |items| ==> !FitsEither(items[i], s, t))
    || exists i :: LatestAt(items, s, t, i) && v == items[i].payload
  }

  predicate LatestAt(items: seq<Item>, s: Slot, t: Slot, i: int) {
    0 <= i < |items| && FitsEither(items[i], s, t) && forall j :: i < j < |items| ==> !FitsEither(items[j], s, t)
  }

  predicate Some(items: seq<Item>, s: Slot) { exists i :: 0 <= i < |items| && Fits(items[i], s) }

  /** A union: the longer payload sets it all, the shorter one only its beginning. */
  ghost predicate Overlaid(items: seq<Item>, short: Slot, long: Slot, v: seq<u8>, dw: seq<u8>, du: seq<u8>) {
    exists w, u :: Latest(items, short, long, w, dw) && Latest(items, long, long, u, du) && Joined(v, w, u, short.size)
  }

  predicate Joined(v: seq<u8>, w: seq<u8>, u: seq<u8>, n: nat) {
    n <= |v| && n <= |w| && n <= |u| && v == w[..n] + u[n..]
  }

  function Either(x: Item, s: Slot, t: Slot, d: seq<u8>): seq<u8> { if FitsEither(x, s, t) then x.payload else d }

  lemma LatestNext(items: seq<Item>, s: Slot, t: Slot, v: seq<u8>, d: seq<u8>)
    requires items != [] && Latest(items[1..], s, t, v, Either(items[0], s, t, d))
    ensures Latest(items, s, t, v, d)
  {
    hide FitsEither;
    var rest := items[1..];
    if i :| LatestAt(rest, s, t, i) && v == rest[i].payload {
      assert LatestAt(items, s, t, i + 1);
    } else {
      assert forall j :: 0 < j < |items| ==> items[j] == rest[j - 1];
      assert FitsEither(items[0], s, t) ==> LatestAt(items, s, t, 0);
    }
  }

  lemma LatestNothing(s: Slot, t: Slot, d: seq<u8>)
    ensures Latest([], s, t, d, d)
  {
  }

  lemma SomeNext(items: seq<Item>, s: Slot)
    requires items != []
    ensures Some(items, s) <==> Fits(items[0], s) || Some(items[1..], s)
  {
    hide Fits;
    assert forall j :: 0 < j < |items| ==> items[j] == items[1..][j - 1];
    if Some(items[1..], s) {
      var i :| 0 <= i < |items[1..]| && Fits(items[1..][i], s);
      assert Fits(items[i + 1], s);
    }
  }

  lemma OverlaidNext(items: seq<Item>, short: Slot, long: Slot, v: seq<u8>, dw: seq<u8>, du: seq<u8>)
    requires items != []
    requires Overlaid(items[1..], short, long, v, Either(items[0], short, long, dw), Either(items[0], long, long, du))
    ensures Overlaid(items, short, long, v, dw, du)
  {
    hide Latest, Joined, Either;
    var dw', du' := Either(items[0], short, long, dw), Either(items[0], long, long, du);
    var w, u :| Latest(items[1..], short, long, w, dw') && Latest(items[1..], long, long, u, du') && Joined(v, w, u, short.size);
    LatestNext(items, short, long, w, dw);
    LatestNext(items, long, long, u, du);
  }

  lemma OverlaidNothing(short: Slot, long: Slot, v: seq<u8>, dw: seq<u8>, du: seq<u8>)
    requires Joined(v, dw, du, short.size)
    ensures Overlaid([], short, long, v, dw, du)
  {
    LatestNothing(short, long, dw);
    LatestNothing(long, long, du);
  }

  // ----- allowed IPs

  const FAMILY := Slot(1, 2, 0)
  const IPV4 := Slot(2, 4, 0)
  const IPV6 := Slot(2, 16, 0)
  const CIDR := Slot(3, 1, 0)

  /** The three fields of an allowed IP, starting from the given bytes. */
  ghost predicate IpRead(items: seq<Item>, ip: AllowedIp, family: seq<u8>, dw: seq<u8>, du: seq<u8>, cidr: seq<u8>) {
    Latest(items, FAMILY, FAMILY, Le16(ip.family), family) && Overlaid(items, IPV4, IPV6, ip.ip, dw, du) && Latest(items, CIDR, CIDR, [ip.cidr], cidr)
  }

  lemma IpReadNext(items: seq<Item>, ip: AllowedIp, family: seq<u8>, dw: seq<u8>, du: seq<u8>, cidr: seq<u8>)
    requires items != []
    requires IpRead(items[1..], ip, Either(items[0], FAMILY, FAMILY, family), Either(items[0], IPV4, IPV6, dw), Either(items[0], IPV6, IPV6, du),
                    Either(items[0], CIDR, CIDR, cidr))
    ensures IpRead(items, ip, family, dw, du, cidr)
  {
    hide Latest, Overlaid, Either, Le16;
    LatestNext(items, FAMILY, FAMILY, Le16(ip.family), family);
    OverlaidNext(items, IPV4, IPV6, ip.ip, dw, du);
    LatestNext(items, CIDR, CIDR, [ip.cidr], cidr);
  }

  lemma IpItemRead(ip: AllowedIp, x: Item, dw: seq<u8>, du: seq<u8>)
    requires Joined(ip.ip, dw, du, 4) && |du| == 16
    ensures var r := IpItem(ip, x);
            && Le16(r.family) == Either(x, FAMILY, FAMILY, Le16(ip.family)) && [r.cidr] == Either(x, CIDR, CIDR, [ip.cidr])
            && Joined(r.ip, Either(x, IPV4, IPV6, dw), Either(x, IPV6, IPV6, du), 4) && |Either(x, IPV6, IPV6, du)| == 16
  {
  }

  lemma {:induction false} IpFields(ip: AllowedIp, items: seq<Item>, dw: seq<u8>, du: seq<u8>)
    requires Joined(ip.ip, dw, du, 4) && |du| == 16
    ensures IpRead(items, FoldIp(ip, items), Le16(ip.family), dw, du, [ip.cidr])
    decreases |items|
  {
    hide Latest, Overlaid, Joined, Either, IpItem, Le16, IpRead;
    if items == [] {
      NothingRead(ip, dw, du);
    } else {
      var x := items[0];
      IpItemRead(ip, x, dw, du);
      IpFields(IpItem(ip, x), items[1..], Either(x, IPV4, IPV6, dw), Either(x, IPV6, IPV6, du));
      IpReadNext(items, FoldIp(ip, items), Le16(ip.family), dw, du, [ip.cidr]);
    }
  }

  lemma NothingRead(ip: AllowedIp, dw: seq<u8>, du: seq<u8>)
    requires Joined(ip.ip, dw, du, 4)
    ensures IpRead([], ip, Le16(ip.family), dw, du, [ip.cidr])
  {
    hide Le16;
    OverlaidNothing(IPV4, IPV6, ip.ip, dw, du);
  }

  /** One item of an allowed-IPs nest. */
  function ReadIp(item: Item): AllowedIp { FoldIp(BlankIp(), Walk(item.payload)) }

  lemma ReadIpFields(item: Item)
    ensures IpRead(Walk(item.payload), ReadIp(item), [0, 0], Zeros(16), Zeros(16), [0])
  {
    hide Walk, IpRead, Zeros;
    IpFields(BlankIp(), Walk(item.payload), Zeros(16), Zeros(16));
  }

  function ReadIps(items: seq<Item>): seq<AllowedIp> {
    if items == [] then [] else [ReadIp(items[0])] + ReadIps(items[1..])
  }

  /** Items are read up to the first allowed IP that is out of range, which is appended too. */
  ghost predicate NestRead(items: seq<Item>, n: nat, ok: bool) {
    && n <= |items| && (ok ==> n == |items|) && (!ok ==> n > 0 && !InRange(ReadIp(items[n - 1])))
    && forall i :: 0 <= i < n && (ok || i < n - 1) ==> InRange(ReadIp(items[i]))
  }

  lemma {:induction false} NestFields(ips: seq<AllowedIp>, items: seq<Item>) returns (n: nat)
    ensures n <= |items| && NestRead(items, n, FoldIps(ips, items).1) && FoldIps(ips, items).0 == ips + ReadIps(items[..n])
    decreases |items|
  {
    hide FoldIp, Walk, Usable, InRange, NestRead, ReadIps;
    n := 0;
    if items == [] {
      NoIpsRead(items);
    } else {
      var ip := ReadIp(items[0]);
      UsableIs(ip);
      var m: nat := 0;
      if InRange(ip) {
        m := NestFields(ips + [ip], items[1..]);
        NestReadNext(items, m, FoldIps(ips, items).1);
      } else {
        BadIp(items);
      }
      n := m + 1;
      FirstIpRead(items, m);
      assert ips + [ip] + ReadIps(items[1..][..m]) == ips + ReadIps(items[..n]);
    }
  }

  lemma NoIpsRead(items: seq<Item>)
    requires items == []
    ensures NestRead(items, 0, true) && ReadIps(items[..0]) == []
  {
  }

  lemma NestReadNext(items: seq<Item>, m: nat, ok: bool)
    requires items != [] && InRange(ReadIp(items[0])) && NestRead(items[1..], m, ok)
    ensures NestRead(items, m + 1, ok)
  {
    hide ReadIp, InRange;
    assert forall i :: 0 < i < |items| ==> items[i] == items[1..][i - 1];
  }

  lemma BadIp(items: seq<Item>)
    requires items != [] && !InRange(ReadIp(items[0]))
    ensures NestRead(items, 1, false) && ReadIps(items[1..][..0]) == []
  {
    hide ReadIp, InRange;
  }

  lemma FirstIpRead(items: seq<Item>, m: nat)
    requires m < |items|
    ensures ReadIps(items[..m + 1]) == [ReadIp(items[0])] + ReadIps(items[1..][..m])
  {
    hide ReadIp;
    assert items[..m + 1][1..] == items[1..][..m];
  }

  lemma UsableIs(ip: AllowedIp)
    ensures Usable(ip) <==> InRange(ip)
  {
  }

  lemma {:induction false} FoldIpsFrom(ips: seq<AllowedIp>, items: seq<Item>)
    ensures FoldIps(ips, items) == (ips + FoldIps([], items).0, FoldIps([], items).1)
    decreases |items|
  {
    hide FoldIp, Walk, Usable;
    if items == [] {
      assert ips + [] == ips;
    } else {
      var ip := ReadIp(items[0]);
      FoldIpsFrom(ips + [ip], items[1..]);
      FoldIpsFrom([] + [ip], items[1..]);
      assert ips + [ip] + FoldIps([], items[1..]).0 == ips + ([] + [ip] + FoldIps([], items[1..]).0);
      assert ips + [ip] == ips + ([] + [ip]);
    }
  }

  // ----- peers

  const KEY := Slot(1, 32, 0)
  const PRESHARED := Slot(2, 32, 0)
  const ENDPOINT4 := Slot(4, 16, 2)
  const ENDPOINT6 := Slot(4, 28, 10)
  const KEEPALIVE := Slot(5, 2, 0)

  predicate RealPreshared(item: Item) { Fits(item, PRESHARED) && exists k :: 0 <= k < 32 && item.payload[k] != 0 }

  predicate SomeReal(items: seq<Item>) { exists i :: 0 <= i < |items| && RealPreshared(items[i]) }

  predicate IsIpList(item: Item) { item.rawType % 0x4000 == 9 }

  /** The allowed IPs of an item, and whether all of them are in range. */
  function ListOf(item: Item): (seq<AllowedIp>, bool) { if IsIpList(item) then FoldIps([], Walk(item.payload)) else ([], true) }

  function AllIps(items: seq<Item>): seq<AllowedIp> { if items == [] then [] else ListOf(items[0]).0 + AllIps(items[1..]) }

  /** What the items make of a peer that was p. */
  ghost predicate PeerRead(items: seq<Item>, q: Parsed, p: Parsed, dw: seq<u8>, du: seq<u8>) {
    && Latest(items, KEY, KEY, q.publicKey, p.publicKey) && (q.hasPublicKey <==> p.hasPublicKey || Some(items, KEY))
    && Latest(items, PRESHARED, PRESHARED, q.presharedKey, p.presharedKey) && (q.hasPresharedKey <==> p.hasPresharedKey || SomeReal(items))
    && Overlaid(items, ENDPOINT4, ENDPOINT6, q.endpoint, dw, du)
    && Latest(items, KEEPALIVE, KEEPALIVE, Le16(q.keepalive), Le16(p.keepalive))
    && q.allowedIps == p.allowedIps + AllIps(items)
  }

  lemma SomeRealNext(items: seq<Item>)
    requires items != []
    ensures SomeReal(items) <==> RealPreshared(items[0]) || SomeReal(items[1..])
  {
    hide RealPreshared;
    assert forall j :: 0 < j < |items| ==> items[j] == items[1..][j - 1];
    if SomeReal(items[1..]) {
      var i :| 0 <= i < |items[1..]| && RealPreshared(items[1..][i]);
      assert RealPreshared(items[i + 1]);
    }
  }

  lemma PeerReadNext(items: seq<Item>, q: Parsed, p: Parsed, r: Parsed, dw: seq<u8>, du: seq<u8>)
    requires items != []
    requires PeerRead(items[1..], q, r, Either(items[0], ENDPOINT4, ENDPOINT6, dw), Either(items[0], ENDPOINT6, ENDPOINT6, du))
    requires Step(p, items[0], r)
    ensures PeerRead(items, q, p, dw, du)
  {
    hide Latest, Overlaid, Either, Some, SomeReal, RealPreshared, Fits, ListOf, Le16;
    LatestNext(items, KEY, KEY, q.publicKey, p.publicKey);
    LatestNext(items, PRESHARED, PRESHARED, q.presharedKey, p.presharedKey);
    LatestNext(items, KEEPALIVE, KEEPALIVE, Le16(q.keepalive), Le16(p.keepalive));
    OverlaidNext(items, ENDPOINT4, ENDPOINT6, q.endpoint, dw, du);
    SomeNext(items, KEY);
    SomeRealNext(items);
    assert p.allowedIps + ListOf(items[0]).0 + AllIps(items[1..]) == p.allowedIps + AllIps(items);
  }

  /** One item turns p into r. */
  predicate Step(p: Parsed, x: Item, r: Parsed) {
    && r.publicKey == Either(x, KEY, KEY, p.publicKey) && (r.hasPublicKey <==> p.hasPublicKey || Fits(x, KEY))
    && r.presharedKey == Either(x, PRESHARED, PRESHARED, p.presharedKey) && (r.hasPresharedKey <==> p.hasPresharedKey || RealPreshared(x))
    && Le16(r.keepalive) == Either(x, KEEPALIVE, KEEPALIVE, Le16(p.keepalive))
    && r.allowedIps == p.allowedIps + ListOf(x).0
  }

  lemma PeerItemStep(p: Parsed, x: Item, dw: seq<u8>, du: seq<u8>)
    requires Joined(p.endpoint, dw, du, 16) && |du| == 28
    ensures Step(p, x, PeerItem(p, x).0) && PeerItem(p, x).1 == ListOf(x).1
    ensures Joined(PeerItem(p, x).0.endpoint, Either(x, ENDPOINT4, ENDPOINT6, dw), Either(x, ENDPOINT6, ENDPOINT6, du), 16)
    ensures |Either(x, ENDPOINT6, ENDPOINT6, du)| == 28
  {
    hide PeerItem, Step, ListOf, Joined, Either;
    PeerItemKeeps(p, x);
    EndpointStep(p, x, dw, du);
  }

  lemma PeerItemKeeps(p: Parsed, x: Item)
    ensures Step(p, x, PeerItem(p, x).0) && PeerItem(p, x).1 == ListOf(x).1
  {
    hide Walk, FoldIps, ReadEndpoint;
    FoldIpsFrom(p.allowedIps, Walk(x.payload));
    assert p.allowedIps + [] == p.allowedIps;
  }

  lemma EndpointStep(p: Parsed, x: Item, dw: seq<u8>, du: seq<u8>)
    requires Joined(p.endpoint, dw, du, 16) && |du| == 28
    ensures Joined(PeerItem(p, x).0.endpoint, Either(x, ENDPOINT4, ENDPOINT6, dw), Either(x, ENDPOINT6, ENDPOINT6, du), 16)
    ensures |Either(x, ENDPOINT6, ENDPOINT6, du)| == 28
  {
    hide Walk, FoldIps, IsZero;
  }

  ghost predicate PeerStops(items: seq<Item>, n: nat, ok: bool) {
    && n <= |items| && (ok ==> n == |items|) && (!ok ==> n > 0 && !ListOf(items[n - 1]).1)
    && forall i :: 0 <= i < n && (ok || i < n - 1) ==> ListOf(items[i]).1
  }

  /** Items of a peer are read up to the first list with an allowed IP out of range. */
  lemma {:induction false} PeerFields(p: Parsed, items: seq<Item>, dw: seq<u8>, du: seq<u8>) returns (n: nat)
    requires Joined(p.endpoint, dw, du, 16) && |du| == 28
    ensures PeerStops(items, n, FoldPeer(p, items).1) && PeerRead(items[..n], FoldPeer(p, items).0, p, dw, du)
    decreases |items|
  {
    hide Latest, Overlaid, Joined, Either, PeerItem, Le16, PeerRead, Step, ListOf;
    n := 0;
    if items == [] {
      PeerReadNothing(p, dw, du);
      assert items[..n] == [];
    } else {
      var x := items[0];
      var dw', du' := Either(x, ENDPOINT4, ENDPOINT6, dw), Either(x, ENDPOINT6, ENDPOINT6, du);
      var r := PeerItem(p, x).0;
      PeerItemStep(p, x, dw, du);
      var m: nat := 0;
      if PeerItem(p, x).1 {
        m := PeerFields(r, items[1..], dw', du');
        assert forall i :: 0 < i < |items| ==> items[i] == items[1..][i - 1];
      } else {
        PeerReadNothing(r, dw', du');
        assert items[1..][..m] == [];
      }
      n := m + 1;
      assert items[..n][1..] == items[1..][..m];
      PeerReadNext(items[..n], FoldPeer(p, items).0, p, r, dw, du);
    }
  }

  lemma PeerReadNothing(p: Parsed, dw: seq<u8>, du: seq<u8>)
    requires Joined(p.endpoint, dw, du, 16)
    ensures PeerRead([], p, p, dw, du)
  {
    hide Le16;
    OverlaidNothing(ENDPOINT4, ENDPOINT6, p.endpoint, dw, du);
  }

  /** One item of a peers nest. */
  function ReadPeer(item: Item): Parsed { FoldPeer(BlankPeer(), Walk(item.payload)).0 }

  lemma ReadPeerFields(item: Item) returns (n: nat)
    ensures PeerStops(Walk(item.payload), n, FoldPeer(BlankPeer(), Walk(item.payload)).1)
    ensures PeerRead(Walk(item.payload)[..n], ReadPeer(item), BlankPeer(), Zeros(28), Zeros(28))
  {
    hide Walk, PeerRead, PeerStops, Zeros;
    assert Zeros(28)[..16] + Zeros(28)[16..] == Zeros(28);
    n := PeerFields(BlankPeer(), Walk(item.payload), Zeros(28), Zeros(28));
  }

  function ReadPeers(items: seq<Item>): seq<Parsed> {
    if items == [] then [] else [ReadPeer(items[0])] + ReadPeers(items[1..])
  }

  /** Peers are read up to the first one without a public key, which is appended too. */
  ghost predicate PeersRead(items: seq<Item>, n: nat, ok: bool) {
    && n <= |items| && (ok ==> n == |items|) && (!ok ==> n > 0 && !ReadPeer(items[n - 1]).hasPublicKey)
    && forall i :: 0 <= i < n && (ok || i < n - 1) ==> ReadPeer(items[i]).hasPublicKey
  }

  lemma {:induction false} PeersFields(ps: seq<Parsed>, items: seq<Item>) returns (n: nat)
    ensures n <= |items| && PeersRead(items, n, FoldPeers(ps, items).1) && FoldPeers(ps, items).0 == ps + ReadPeers(items[..n])
    decreases |items|
  {
    hide FoldPeer, Walk, PeersRead, ReadPeers;
    n := 0;
    if items == [] {
      NoPeersRead(items);
    } else {
      var p := ReadPeer(items[0]);
      var m: nat := 0;
      if p.hasPublicKey {
        m := PeersFields(ps + [p], items[1..]);
        PeersReadNext(items, m, FoldPeers(ps, items).1);
      } else {
        KeylessPeer(items);
      }
      n := m + 1;
      FirstPeerRead(items, m);
      assert ps + [p] + ReadPeers(items[1..][..m]) == ps + ReadPeers(items[..n]);
    }
  }

  lemma NoPeersRead(items: seq<Item>)
    requires items == []
    ensures PeersRead(items, 0, true) && ReadPeers(items[..0]) == []
  {
  }

  lemma PeersReadNext(items: seq<Item>, m: nat, ok: bool)
    requires items != [] && ReadPeer(items[0]).hasPublicKey && PeersRead(items[1..], m, ok)
    ensures PeersRead(items, m + 1, ok)
  {
    hide ReadPeer;
    assert forall i :: 0 < i < |items| ==> items[i] == items[1..][i - 1];
  }

  lemma KeylessPeer(items: seq<Item>)
    requires items != [] && !ReadPeer(items[0]).hasPublicKey
    ensures PeersRead(items, 1, false) && ReadPeers(items[1..][..0]) == []
  {
    hide ReadPeer;
  }

  lemma FirstPeerRead(items: seq<Item>, m: nat)
    requires m < |items|
    ensures ReadPeers(items[..m + 1]) == [ReadPeer(items[0])] + ReadPeers(items[1..][..m])
  {
    hide ReadPeer;
    assert items[..m + 1][1..] == items[1..][..m];
  }

  lemma {:induction false} FoldPeersFrom(ps: seq<Parsed>, items: seq<Item>)
    ensures FoldPeers(ps, items) == (ps + FoldPeers([], items).0, FoldPeers([], items).1)
    decreases |items|
  {
    hide FoldPeer, Walk;
    if items == [] {
      assert ps + [] == ps;
    } else {
      var p := ReadPeer(items[0]);
      FoldPeersFrom(ps + [p], items[1..]);
      FoldPeersFrom([] + [p], items[1..]);
      assert ps + [p] + FoldPeers([], items[1..]).0 == ps + ([] + [p] + FoldPeers([], items[1..]).0);
      assert ps + [p] == ps + ([] + [p]);
    }
  }

  // ----- devices

  const PRIVATE := Slot(3, 32, 0)
  const PORT := Slot(6, 2, 0)
  const MARK := Slot(7, 4, 0)

  predicate IsPeerList(item: Item) { item.rawType % 0x4000 == 8 }

  function PeersOf(item: Item): (seq<Parsed>, bool) { if IsPeerList(item) then FoldPeers([], Walk(item.payload)) else ([], true) }

  function AllPeers(items: seq<Item>): seq<Parsed> { if items == [] then [] else PeersOf(items[0]).0 + AllPeers(items[1..]) }

  ghost predicate DeviceRead(items: seq<Item>, e: ReadDevice, d: ReadDevice) {
    && Latest(items, PRIVATE, PRIVATE, e.privateKey, d.privateKey) && (e.hasPrivateKey <==> d.hasPrivateKey || Some(items, PRIVATE))
    && Latest(items, PORT, PORT, Le16(e.listenPort), Le16(d.listenPort)) && Latest(items, MARK, MARK, Le32(e.fwmark), Le32(d.fwmark))
    && e.peers == d.peers + AllPeers(items)
  }

  predicate DeviceStep(d: ReadDevice, x: Item, e: ReadDevice) {
    && e.privateKey == Either(x, PRIVATE, PRIVATE, d.privateKey) && (e.hasPrivateKey <==> d.hasPrivateKey || Fits(x, PRIVATE))
    && Le16(e.listenPort) == Either(x, PORT, PORT, Le16(d.listenPort)) && Le32(e.fwmark) == Either(x, MARK, MARK, Le32(d.fwmark))
    && e.peers == d.peers + PeersOf(x).0
  }

  lemma At32Bytes(b: seq<u8>)
    requires |b| == 4
    ensures Le32(At32(b)) == b
  {
    var v := At32(b);
    assert v / 0x100 == b[1] as int + 0x100 * b[2] as int + 0x1_0000 * b[3] as int;
    assert v / 0x1_0000 == b[2] as int + 0x100 * b[3] as int;
  }

  lemma DeviceItemStep(d: ReadDevice, x: Item)
    ensures DeviceStep(d, x, DeviceItem(d, x).0) && DeviceItem(d, x).1 == PeersOf(x).1
  {
    hide Walk, FoldPeers, Le32, At32;
    FoldPeersFrom(d.peers, Walk(x.payload));
    assert d.peers + [] == d.peers;
    if |x.payload| == 4 { At32Bytes(x.payload); }
  }

  lemma DeviceReadNext(items: seq<Item>, e: ReadDevice, d: ReadDevice, f: ReadDevice)
    requires items != [] && DeviceRead(items[1..], e, f) && DeviceStep(d, items[0], f)
    ensures DeviceRead(items, e, d)
  {
    hide Latest, Either, Some, Fits, PeersOf, Le16, Le32;
    LatestNext(items, PRIVATE, PRIVATE, e.privateKey, d.privateKey);
    LatestNext(items, PORT, PORT, Le16(e.listenPort), Le16(d.listenPort));
    LatestNext(items, MARK, MARK, Le32(e.fwmark), Le32(d.fwmark));
    SomeNext(items, PRIVATE);
    assert d.peers + PeersOf(items[0]).0 + AllPeers(items[1..]) == d.peers + AllPeers(items);
  }

  ghost predicate DeviceStops(items: seq<Item>, n: nat, ok: bool) {
    && n <= |items| && (ok ==> n == |items|) && (!ok ==> n > 0 && !PeersOf(items[n - 1]).1)
    && forall i :: 0 <= i < n && (ok || i < n - 1) ==> PeersOf(items[i]).1
  }

  /** The attributes of a message are read up to the first peers nest with a peer that has no key. */
  lemma {:induction false} DeviceFields(d: ReadDevice, items: seq<Item>) returns (n: nat)
    ensures DeviceStops(items, n, FoldDevice(d, items).1) && DeviceRead(items[..n], FoldDevice(d, items).0, d)
    decreases |items|
  {
    hide Latest, Either, DeviceItem, DeviceRead, DeviceStep, PeersOf;
    n := 0;
    if items == [] {
      DeviceReadNothing(d);
      assert items[..n] == [];
    } else {
      var x := items[0];
      var f := DeviceItem(d, x).0;
      DeviceItemStep(d, x);
      var m: nat := 0;
      if DeviceItem(d, x).1 {
        m := DeviceFields(f, items[1..]);
        assert forall i :: 0 < i < |items| ==> items[i] == items[1..][i - 1];
      } else {
        DeviceReadNothing(f);
        assert items[1..][..m] == [];
      }
      n := m + 1;
      assert items[..n][1..] == items[1..][..m];
      DeviceReadNext(items[..n], FoldDevice(d, items).0, d, f);
    }
  }

  lemma DeviceReadNothing(d: ReadDevice)
    ensures DeviceRead([], d, d)
  {
    hide Le16, Le32;
  }
}
