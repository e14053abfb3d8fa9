/** The device, its peers and their allowed IPs, and the attribute bytes that stand for them. */
module Device {
  import opened Bits
  import opened Bytes
  import opened Netlink

  type Address = s: seq<u8> | |s| == 16 witness Zeros(16)
  /** The endpoint union: a socket address whose first two bytes are its family. */
  type Endpoint = s: seq<u8> | |s| == 28 witness Zeros(28)
  type Name = s: seq<u8> | |s| <= 15 witness []
  type Header = s: seq<u8> | |s| == 20 witness Zeros(20)

  const AF_INET: int := 2
  const AF_INET6: int := 10

  /** The address union holds an IPv4 address in its first four bytes. */
  datatype AllowedIp = AllowedIp(family: u16, ip: Address, cidr: u8)

  datatype Peer = Peer(publicKey: Key, removeMe: bool, replaceAllowedIps: bool, hasPresharedKey: bool, presharedKey: Key,
                       endpoint: Endpoint, hasKeepalive: bool, keepalive: u16, allowedIps: seq<AllowedIp>)

  datatype Device = Device(name: Name, hasPrivateKey: bool, privateKey: Key, hasListenPort: bool, listenPort: u16,
                           hasFwmark: bool, fwmark: u32, replacePeers: bool, peers: seq<Peer>)

  function Family(e: Endpoint): int { At16(e, 0) }

  function Le32(v: u32): (s: seq<u8>)
    ensures |s| == 4
  {
    [v % 0x100, v / 0x100 % 0x100, v / 0x1_0000 % 0x100, v / 0x100_0000]
  }

  // ----- allowed IPs

  function IpPayload(ip: AllowedIp): (b: seq<u8>)
    ensures |b| <= 20 && Aligned(b)
  {
    hide Attr;
    if ip.family == AF_INET then Attr(2, ip.ip[..4]) else if ip.family == AF_INET6 then Attr(2, ip.ip) else []
  }

  function IpBytes(ip: AllowedIp): (b: seq<u8>)
    ensures |b| <= 36 && Aligned(b)
  {
    hide Attr, Align, IpPayload, Le16, Aligned;
    AlignedConcat(Attr(1, Le16(ip.family)), IpPayload(ip));
    AlignedConcat(Attr(1, Le16(ip.family)) + IpPayload(ip), Attr(3, [ip.cidr]));
    Attr(1, Le16(ip.family)) + IpPayload(ip) + Attr(3, [ip.cidr])
  }

  function IpsBytes(ips: seq<AllowedIp>): seq<u8> {
    hide Attr, Align, IpBytes;
    if ips == [] then [] else IpsBytes(ips[..|ips| - 1]) + Attr(NESTED, IpBytes(ips[|ips| - 1]))
  }

  lemma {:induction false} IpsAligned(ips: seq<AllowedIp>)
    ensures Aligned(IpsBytes(ips))
  {
    hide Attr, Align, IpBytes, Aligned;
    if ips != [] {
      IpsAligned(ips[..|ips| - 1]);
      AlignedConcat(IpsBytes(ips[..|ips| - 1]), Attr(NESTED, IpBytes(ips[|ips| - 1])));
    } else {
      AlignedEmpty();
    }
  }

  // ----- fragments of peers

  /** One peer nest of one message: p.allowedIps are the allowed IPs of this fragment only, first says
      whether it is the peer's first fragment, nest whether it has an allowed-IPs nest. */
  datatype Fragment = Fragment(p: Peer, first: bool, nest: bool)

  predicate FragmentFits(f: Fragment) { |IpsBytes(f.p.allowedIps)| < 0xc000 }

  function PresharedBytes(p: Peer): (b: seq<u8>)
    ensures |b| <= 36 && Aligned(b)
  {
    if p.hasPresharedKey then Attr(2, p.presharedKey) else []
  }

  function EndpointBytes(p: Peer): (b: seq<u8>)
    ensures |b| <= 32 && Aligned(b)
  {
    if Family(p.endpoint) == AF_INET then Attr(4, p.endpoint[..16])
    else if Family(p.endpoint) == AF_INET6 then Attr(4, p.endpoint)
    else []
  }

  function KeepaliveBytes(p: Peer): (b: seq<u8>)
    ensures |b| <= 8 && Aligned(b)
  {
    if p.hasKeepalive then Attr(5, Le16(p.keepalive)) else []
  }

  /** What only the first fragment of a peer carries, besides the replace flag. */
  function OnceBytes(p: Peer): (b: seq<u8>)
    ensures |b| <= 76 && Aligned(b)
  {
    hide PresharedBytes, EndpointBytes, KeepaliveBytes, Aligned;
    AlignedConcat(PresharedBytes(p), EndpointBytes(p));
    AlignedConcat(PresharedBytes(p) + EndpointBytes(p), KeepaliveBytes(p));
    PresharedBytes(p) + EndpointBytes(p) + KeepaliveBytes(p)
  }

  function PeerFlags(p: Peer, first: bool): u32 {
    (if p.removeMe then 1 else 0) + if first && p.replaceAllowedIps then 2 else 0
  }

  function FlagBytes(flags: u32): (b: seq<u8>)
    ensures |b| <= 8 && Aligned(b)
  {
    if flags != 0 then Attr(3, Le32(flags)) else []
  }

  function KeyBytes(p: Peer): (b: seq<u8>)
    ensures |b| == 36 && Aligned(b)
  {
    Attr(1, p.publicKey)
  }

  function HeadBytes(p: Peer, first: bool): (b: seq<u8>)
    ensures |b| <= 120 && Aligned(b)
  {
    hide Attr, Align, OnceBytes, FlagBytes, PeerFlags, Zeros, Aligned;
    var key, flags := KeyBytes(p), FlagBytes(PeerFlags(p, first));
    AlignedConcat(key, OnceBytes(p));
    AlignedConcat(key, flags);
    AlignedConcat(key + OnceBytes(p), flags);
    if first then key + OnceBytes(p) + flags else key + flags
  }

  function NestBytes(f: Fragment): (b: seq<u8>)
    requires FragmentFits(f)
    ensures |b| <= 0xc008 && Aligned(b)
  {
    hide Attr, IpsBytes;
    if f.nest then Attr(NESTED + 9, IpsBytes(f.p.allowedIps)) else []
  }

  function FragmentBytes(f: Fragment): (b: seq<u8>)
    requires FragmentFits(f)
    ensures Sized(b) && Aligned(b)
  {
    hide HeadBytes, NestBytes, Aligned;
    AlignedConcat(HeadBytes(f.p, f.first), NestBytes(f));
    HeadBytes(f.p, f.first) + NestBytes(f)
  }

  predicate AllFit(fs: seq<Fragment>) { forall i :: 0 <= i < |fs| ==> FragmentFits(fs[i]) }

  function FragmentsBytes(fs: seq<Fragment>): seq<u8>
    requires AllFit(fs)
  {
    hide Attr, Align, FragmentBytes, FragmentFits;
    if fs == [] then [] else FragmentsBytes(fs[..|fs| - 1]) + Attr(NESTED, FragmentBytes(fs[|fs| - 1]))
  }

  lemma {:induction false} FragmentsAligned(fs: seq<Fragment>)
    requires AllFit(fs)
    ensures Aligned(FragmentsBytes(fs))
  {
    hide Attr, Align, FragmentBytes, FragmentFits, Aligned;
    if fs != [] {
      FragmentsAligned(fs[..|fs| - 1]);
      AlignedConcat(FragmentsBytes(fs[..|fs| - 1]), Attr(NESTED, FragmentBytes(fs[|fs| - 1])));
    } else {
      AlignedEmpty();
    }
  }

  // ----- messages

  function PrivateKeyBytes(dev: Device): (b: seq<u8>)
    ensures |b| <= 36 && Aligned(b)
  {
    if dev.hasPrivateKey then Attr(3, dev.privateKey) else []
  }

  function ListenPortBytes(dev: Device): (b: seq<u8>)
    ensures |b| <= 8 && Aligned(b)
  {
    if dev.hasListenPort then Attr(6, Le16(dev.listenPort)) else []
  }

  function FwmarkBytes(dev: Device): (b: seq<u8>)
    ensures |b| <= 8 && Aligned(b)
  {
    if dev.hasFwmark then Attr(7, Le32(dev.fwmark)) else []
  }

  function DeviceFlagBytes(dev: Device): (b: seq<u8>)
    ensures |b| <= 8 && Aligned(b)
  {
    if dev.replacePeers then Attr(5, Le32(1)) else []
  }

  function DeviceBytes(dev: Device): (b: seq<u8>)
    ensures |b| <= 60 && Aligned(b)
  {
    hide PrivateKeyBytes, ListenPortBytes, FwmarkBytes, DeviceFlagBytes, Aligned;
    AlignedConcat(PrivateKeyBytes(dev), ListenPortBytes(dev));
    AlignedConcat(PrivateKeyBytes(dev) + ListenPortBytes(dev), FwmarkBytes(dev));
    AlignedConcat(PrivateKeyBytes(dev) + ListenPortBytes(dev) + FwmarkBytes(dev), DeviceFlagBytes(dev));
    PrivateKeyBytes(dev) + ListenPortBytes(dev) + FwmarkBytes(dev) + DeviceFlagBytes(dev)
  }

  /** The interface name with its terminator. */
  function NameBytes(dev: Device): (b: seq<u8>)
    ensures |b| <= 20 && Aligned(b)
  {
    hide Attr;
    Attr(2, dev.name + [0])
  }

  /** Everything before the peers nest; only the first message carries the device's own attributes. */
  function Opening(header: Header, dev: Device, first: bool): (b: seq<u8>)
    ensures |b| <= 100 && Aligned(b)
  {
    hide NameBytes, DeviceBytes, Zeros;
    AlignedConcat(header, NameBytes(dev));
    AlignedConcat(header + NameBytes(dev), DeviceBytes(dev));
    if first then header + NameBytes(dev) + DeviceBytes(dev) else header + NameBytes(dev)
  }

  predicate MessageFits(fs: seq<Fragment>) { AllFit(fs) && Sized(FragmentsBytes(fs)) }

  function MessageBytes(header: Header, dev: Device, first: bool, fs: seq<Fragment>): seq<u8>
    requires MessageFits(fs)
  {
    hide Attr, Opening, FragmentsBytes, FragmentFits;
    if dev.peers == [] then Opening(header, dev, first)
    else Opening(header, dev, first) + Attr(NESTED + 8, FragmentsBytes(fs))
  }

  // ----- what a list of fragments says about the peers

  /** Gluing every continuation onto the peer before it. */
  function Rejoined(fs: seq<Fragment>): seq<Peer> {
    if fs == [] then []
    else
      var r, f := Rejoined(fs[..|fs| - 1]), fs[|fs| - 1];
      if f.first then r + [f.p]
      else if r == [] then []
      else r[..|r| - 1] + [Extended(r[|r| - 1], f.p.allowedIps)]
  }

  function Extended(p: Peer, ips: seq<AllowedIp>): Peer { p.(allowedIps := p.allowedIps + ips) }

  function Scalars(p: Peer): Peer { p.(allowedIps := []) }

  /** A continuation repeats its peer's key and flags and brings at least one allowed IP. */
  predicate ContinuationsOk(fs: seq<Fragment>) {
    forall i :: 0 <= i < |fs| && !fs[i].first ==>
      i > 0 && Scalars(fs[i].p) == Scalars(fs[i - 1].p) && fs[i].p.allowedIps != [] && fs[i].nest
  }

  /** Allowed IPs are carried in a nest. */
  predicate NestsOk(fs: seq<Fragment>) {
    forall i :: 0 <= i < |fs| ==> fs[i].nest || fs[i].p.allowedIps == []
  }

  lemma RejoinSnoc(fs: seq<Fragment>, f: Fragment)
    ensures var r := Rejoined(fs);
            Rejoined(fs + [f]) == if f.first then r + [f.p] else if r == [] then [] else r[..|r| - 1] + [Extended(r[|r| - 1], f.p.allowedIps)]
  {
    assert (fs + [f])[..|fs|] == fs;
  }
}
