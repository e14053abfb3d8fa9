/** The receiver of the set-device command as the kernel's header documents it, reading attributes by their
    numbers, and what the messages of `wg_set_device` make of a device. */
module Receiver {
  import opened Bits
  import opened Bytes
  import opened Netlink
  import opened Device
  import opened DeviceWriter
  import LE = LittleEndian
  import RT = RoundTrip

  // ----- attributes by number

  predicate Has(items: seq<Item>, t: int) {
    items != [] && (items[0].rawType == t || Has(items[1..], t))
  }

  /** The payload of the first attribute of a type, or nothing. */
  function Get(items: seq<Item>, t: int): seq<u8> {
    if items == [] then [] else if items[0].rawType == t then items[0].payload else Get(items[1..], t)
  }

  function Number(items: seq<Item>, t: int): nat { LE.Decode(Get(items, t)) }

  predicate Flag(items: seq<Item>, t: int, bit: nat)
    requires bit > 0
  {
    Number(items, t) / bit % 2 == 1
  }

  // ----- what the receiver holds

  /** An allowed IP on the wire. */
  datatype Route = Route(family: int, address: seq<u8>, cidr: int)

  datatype Held = Held(presharedKey: seq<u8>, endpoint: seq<u8>, keepalive: int, routes: seq<Route>)

  type Table = map<seq<u8>, Held>

  datatype Kernel = Kernel(privateKey: seq<u8>, listenPort: int, fwmark: int, peers: Table)

  function HeldOf(peers: Table, key: seq<u8>): Held { if key in peers then peers[key] else Held([], [], 0, []) }

  function HearRoutes(items: seq<Item>): seq<Route> {
    if items == [] then []
    else
      var route := Walk(items[|items| - 1].payload);
      HearRoutes(items[..|items| - 1]) + [Route(Number(route, 1), Get(route, 2), Number(route, 3))]
  }

  /** One peer nest: bit 0 of attribute 3 removes the peer, bit 1 empties its allowed IPs before the list is added. */
  function HearPeer(peers: Table, items: seq<Item>): Table {
    var key := Get(items, 1);
    if Flag(items, 3, 1) then peers - {key}
    else
      var was := HeldOf(peers, key);
      peers[key := Held(if Has(items, 2) then Get(items, 2) else was.presharedKey,
                        if Has(items, 4) then Get(items, 4) else was.endpoint,
                        if Has(items, 5) then Number(items, 5) else was.keepalive,
                        (if Flag(items, 3, 2) then [] else was.routes) + HearRoutes(Walk(Get(items, 0x8009))))]
  }

  function HearPeers(peers: Table, items: seq<Item>): Table {
    if items == [] then peers else HearPeer(HearPeers(peers, items[..|items| - 1]), Walk(items[|items| - 1].payload))
  }

  /** One message: bit 0 of attribute 5 removes all peers before the list is added. */
  function HearMessage(k: Kernel, items: seq<Item>): Kernel {
    Kernel(if Has(items, 3) then Get(items, 3) else k.privateKey,
           if Has(items, 6) then Number(items, 6) else k.listenPort,
           if Has(items, 7) then Number(items, 7) else k.fwmark,
           HearPeers(if Flag(items, 5, 1) then map[] else k.peers, Walk(Get(items, 0x8008))))
  }

  /** The attributes of a message start behind 20 bytes of headers. */
  function Attributes(message: seq<u8>): seq<Item> { if |message| < 20 then [] else Walk(message[20..]) }

  function HearAll(k: Kernel, messages: seq<seq<u8>>): Kernel {
    if messages == [] then k
    else HearMessage(HearAll(k, messages[..|messages| - 1]), Attributes(messages[|messages| - 1]))
  }

  // ----- what setting a device means

  function RouteOf(ip: AllowedIp): Route {
    Route(ip.family, if ip.family == 2 then ip.ip[..4] else if ip.family == 10 then ip.ip else [], ip.cidr)
  }

  function RoutesOf(ips: seq<AllowedIp>): seq<Route> {
    if ips == [] then [] else RoutesOf(ips[..|ips| - 1]) + [RouteOf(ips[|ips| - 1])]
  }

  function FamilyOf(e: Endpoint): int { e[0] + 0x100 * e[1] as int }

  /** A peer is removed, or is added or updated with what is set in it. */
  function SetPeer(peers: Table, p: Peer): Table {
    if p.removeMe then peers - {p.publicKey}
    else
      var was := HeldOf(peers, p.publicKey);
      peers[p.publicKey := Held(if p.hasPresharedKey then p.presharedKey else was.presharedKey,
                                if FamilyOf(p.endpoint) == 2 then p.endpoint[..16] else if FamilyOf(p.endpoint) == 10 then p.endpoint else was.endpoint,
                                if p.hasKeepalive then p.keepalive else was.keepalive,
                                (if p.replaceAllowedIps then [] else was.routes) + RoutesOf(p.allowedIps))]
  }

  function SetPeers(peers: Table, ps: seq<Peer>): Table {
    if ps == [] then peers else SetPeer(SetPeers(peers, ps[..|ps| - 1]), ps[|ps| - 1])
  }

  function SetKernel(k: Kernel, dev: Device): Kernel {
    Kernel(if dev.hasPrivateKey then dev.privateKey else k.privateKey,
           if dev.hasListenPort then dev.listenPort else k.listenPort,
           if dev.hasFwmark then dev.fwmark else k.fwmark,
           SetPeers(if dev.replacePeers then map[] else k.peers, dev.peers))
  }

  // ----- the items of what is written

  /** The walk over b sees the items, whatever follows. */
  ghost predicate Encodes(b: seq<u8>, items: seq<Item>) {
    forall rest :: Walk(b + rest) == items + Walk(rest)
  }

  lemma WalkWhole(b: seq<u8>, items: seq<Item>)
    requires Encodes(b, items)
    ensures Walk(b) == items
  {
    assert b + [] == b;
    assert Walk([]) == [];
    assert Walk(b + []) == items + Walk([]);
  }

  function Opt(c: bool, t: int, data: seq<u8>): seq<Item> { if c then [Item(t, data)] else [] }

  lemma EncodesOpt(c: bool, t: u16, data: seq<u8>)
    requires Sized(data)
    ensures Encodes(if c then Attr(t, data) else [], Opt(c, t, data))
  {
    hide Attr, Walk;
    forall rest ensures Walk((if c then Attr(t, data) else []) + rest) == Opt(c, t, data) + Walk(rest) {
      if c { WalkAttr(t, data, rest); } else { assert [] + rest == rest; }
    }
  }

  lemma EncodesConcat(a: seq<u8>, x: seq<Item>, b: seq<u8>, y: seq<Item>)
    requires Encodes(a, x) && Encodes(b, y)
    ensures Encodes(a + b, x + y)
  {
    hide Walk;
    forall rest ensures Walk(a + b + rest) == x + y + Walk(rest) {
      assert a + b + rest == a + (b + rest);
      assert Walk(a + (b + rest)) == x + Walk(b + rest) && Walk(b + rest) == y + Walk(rest);
    }
  }

  lemma EncodesNothing()
    ensures Encodes([], [])
  {
    hide Walk;
    forall rest: seq<u8> ensures Walk([] + rest) == [] + Walk(rest) { assert [] + rest == rest; }
  }

  /** Looking an attribute up behind one that may be there. */
  lemma GetOpt(c: bool, t: int, data: seq<u8>, rest: seq<Item>, u: int)
    ensures Get(Opt(c, t, data) + rest, u) == if c && t == u then data else Get(rest, u)
    ensures Has(Opt(c, t, data) + rest, u) <==> (c && t == u) || Has(rest, u)
  {
    assert (Opt(true, t, data) + rest)[1..] == rest;
    assert !c ==> Opt(c, t, data) + rest == rest;
  }

  // ----- allowed IPs

  function RouteItems(ip: AllowedIp): seq<Item> {
    Opt(true, 1, Le16(ip.family))
    + (Opt(ip.family == 2 || ip.family == 10, 2, if ip.family == 2 then ip.ip[..4] else ip.ip) + (Opt(true, 3, [ip.cidr]) + []))
  }

  lemma RouteEncodes(ip: AllowedIp)
    ensures Walk(IpBytes(ip)) == RouteItems(ip)
  {
    hide Attr, Walk, Le16, Encodes, Opt;
    var a, c := Attr(1, Le16(ip.family)), Attr(3, [ip.cidr]);
    var data := if ip.family == 2 then ip.ip[..4] else ip.ip;
    var some := ip.family == 2 || ip.family == 10;
    EncodesOpt(true, 1, Le16(ip.family));
    EncodesOpt(some, 2, data);
    EncodesOpt(true, 3, [ip.cidr]);
    var x, y, z := Opt(true, 1, Le16(ip.family)), Opt(some, 2, data), Opt(true, 3, [ip.cidr]);
    EncodesConcat(a, x, IpPayload(ip), y);
    EncodesConcat(a + IpPayload(ip), x + y, c, z);
    WalkWhole(IpBytes(ip), x + y + z);
    assert x + y + z == x + (y + (z + []));
  }

  lemma NumberFirst(a: u8, rest: seq<u8>)
    ensures LE.Decode([a] + rest) == a + 0x100 * LE.Decode(rest)
  {
    assert ([a] + rest)[1..] == rest;
  }

  lemma ByteNumber(v: u8)
    ensures LE.Decode([v]) == v
  {
    assert [v] + [] == [v];
    NumberFirst(v, []);
  }

  lemma Le16Number(v: u16)
    ensures LE.Decode(Le16(v)) == v
  {
    hide LE.Decode;
    assert Le16(v) == [v % 0x100] + [v / 0x100];
    NumberFirst(v % 0x100, [v / 0x100]);
    ByteNumber(v / 0x100);
  }

  lemma Le32Number(v: u32)
    ensures LE.Decode(Le32(v)) == v
  {
    hide LE.Decode;
    var a, b, c, d := v % 0x100, v / 0x100 % 0x100, v / 0x1_0000 % 0x100, v / 0x100_0000;
    assert Le32(v) == [a] + ([b] + ([c] + [d]));
    NumberFirst(a, [b] + ([c] + [d]));
    NumberFirst(b, [c] + [d]);
    NumberFirst(c, [d]);
    ByteNumber(d);
    assert v / 0x1_0000 == v / 0x100 / 0x100 && v / 0x100_0000 == v / 0x1_0000 / 0x100;
  }

  /** The three attributes of an allowed IP are read by number. */
  lemma RouteHeard(ip: AllowedIp)
    ensures var items := Walk(IpBytes(ip)); Route(Number(items, 1), Get(items, 2), Number(items, 3)) == RouteOf(ip)
  {
    hide Walk, Get, Has, Opt, IpBytes, Le16, LE.Decode;
    RouteEncodes(ip);
    Le16Number(ip.family);
    ByteNumber(ip.cidr);
    RouteGet(ip, 1);
    RouteGet(ip, 2);
    RouteGet(ip, 3);
  }

  lemma RouteGet(ip: AllowedIp, u: int)
    ensures Get(RouteItems(ip), u) ==
      if u == 1 then Le16(ip.family)
      else if u == 2 then (if ip.family == 2 then ip.ip[..4] else if ip.family == 10 then ip.ip else [])
      else if u == 3 then [ip.cidr] else []
  {
    hide Opt, Le16, Get;
    var data := if ip.family == 2 then ip.ip[..4] else ip.ip;
    var some := ip.family == 2 || ip.family == 10;
    var z := Opt(true, 3, [ip.cidr]) + [];
    GetOpt(true, 3, [ip.cidr], [], u);
    GetOpt(some, 2, data, z, u);
    GetOpt(true, 1, Le16(ip.family), Opt(some, 2, data) + z, u);
    GetNothing(u);
  }

  lemma GetNothing(u: int)
    ensures Get([], u) == [] && !Has([], u)
  {
  }

  function IpItems(ips: seq<AllowedIp>): seq<Item> {
    if ips == [] then [] else IpItems(ips[..|ips| - 1]) + [Item(NESTED, IpBytes(ips[|ips| - 1]))]
  }

  lemma {:induction false} IpsEncode(ips: seq<AllowedIp>)
    ensures Encodes(IpsBytes(ips), IpItems(ips))
  {
    hide Attr, Encodes, IpBytes;
    if ips == [] {
      EncodesNothing();
    } else {
      var ip := IpBytes(ips[|ips| - 1]);
      IpsEncode(ips[..|ips| - 1]);
      EncodesOpt(true, NESTED, ip);
      EncodesConcat(IpsBytes(ips[..|ips| - 1]), IpItems(ips[..|ips| - 1]), Attr(NESTED, ip), [Item(NESTED, ip)]);
    }
  }

  lemma {:induction false} RoutesHeard(ips: seq<AllowedIp>)
    ensures HearRoutes(IpItems(ips)) == RoutesOf(ips)
  {
    hide Walk, Get, Has, RouteOf, IpBytes;
    if ips != [] {
      RoutesHeard(ips[..|ips| - 1]);
      RouteHeard(ips[|ips| - 1]);
    }
  }

  // ----- fragments

  function FlagsOf(f: Fragment): u32 { (if f.p.removeMe then 1 else 0) + if f.first && f.p.replaceAllowedIps then 2 else 0 }

  predicate HasEndpoint(p: Peer) { FamilyOf(p.endpoint) == 2 || FamilyOf(p.endpoint) == 10 }

  function EndpointOf(p: Peer): seq<u8> { if FamilyOf(p.endpoint) == 2 then p.endpoint[..16] else p.endpoint }

  function OnceItems(p: Peer): seq<Item> {
    Opt(p.hasPresharedKey, 2, p.presharedKey) + (Opt(HasEndpoint(p), 4, EndpointOf(p)) + Opt(p.hasKeepalive, 5, Le16(p.keepalive)))
  }

  function TailItems(f: Fragment): seq<Item> {
    Opt(FlagsOf(f) != 0, 3, Le32(FlagsOf(f))) + (Opt(f.nest, 0x8009, IpsBytes(f.p.allowedIps)) + [])
  }

  function FragmentItems(f: Fragment): seq<Item> {
    Opt(true, 1, f.p.publicKey) + ((if f.first then OnceItems(f.p) else []) + TailItems(f))
  }

  lemma OnceEncodes(p: Peer)
    ensures Encodes(OnceBytes(p), OnceItems(p))
  {
    hide Attr, Encodes, Opt, Le16;
    EncodesOpt(p.hasPresharedKey, 2, p.presharedKey);
    EncodesOpt(HasEndpoint(p), 4, EndpointOf(p));
    EncodesOpt(p.hasKeepalive, 5, Le16(p.keepalive));
    var x, y, z := Opt(p.hasPresharedKey, 2, p.presharedKey), Opt(HasEndpoint(p), 4, EndpointOf(p)), Opt(p.hasKeepalive, 5, Le16(p.keepalive));
    EncodesConcat(PresharedBytes(p), x, EndpointBytes(p), y);
    EncodesConcat(PresharedBytes(p) + EndpointBytes(p), x + y, KeepaliveBytes(p), z);
    assert x + y + z == x + (y + z);
  }

  lemma TailEncodes(f: Fragment)
    requires FragmentFits(f)
    ensures Encodes(FlagBytes(PeerFlags(f.p, f.first)) + NestBytes(f), TailItems(f))
  {
    hide Attr, Encodes, Opt, Le32, IpsBytes;
    EncodesOpt(FlagsOf(f) != 0, 3, Le32(FlagsOf(f)));
    EncodesOpt(f.nest, 0x8009, IpsBytes(f.p.allowedIps));
    var x, y := Opt(FlagsOf(f) != 0, 3, Le32(FlagsOf(f))), Opt(f.nest, 0x8009, IpsBytes(f.p.allowedIps));
    EncodesConcat(FlagBytes(PeerFlags(f.p, f.first)), x, NestBytes(f), y);
    assert x + y == x + (y + []);
  }

  lemma FragmentEncodes(f: Fragment)
    requires FragmentFits(f)
    ensures Walk(FragmentBytes(f)) == FragmentItems(f)
  {
    hide Attr, Walk, Encodes, Opt, OnceBytes, OnceItems, TailItems, FlagBytes, PeerFlags, NestBytes, FragmentFits;
    var p, tail := f.p, FlagBytes(PeerFlags(f.p, f.first)) + NestBytes(f);
    var once, items := if f.first then OnceBytes(p) else [], if f.first then OnceItems(p) else [];
    if f.first { OnceEncodes(p); } else { EncodesNothing(); }
    EncodesOpt(true, 1, p.publicKey);
    TailEncodes(f);
    EncodesConcat(once, items, tail, TailItems(f));
    EncodesConcat(KeyBytes(p), Opt(true, 1, p.publicKey), once + tail, items + TailItems(f));
    assert FragmentBytes(f) == KeyBytes(p) + (once + tail);
    WalkWhole(FragmentBytes(f), FragmentItems(f));
  }

  lemma OnceGet(p: Peer, tail: seq<Item>, u: int)
    ensures Get(OnceItems(p) + tail, u) ==
      if u == 2 && p.hasPresharedKey then p.presharedKey
      else if u == 4 && HasEndpoint(p) then EndpointOf(p)
      else if u == 5 && p.hasKeepalive then Le16(p.keepalive)
      else Get(tail, u)
    ensures Has(OnceItems(p) + tail, u) <==>
      (u == 2 && p.hasPresharedKey) || (u == 4 && HasEndpoint(p)) || (u == 5 && p.hasKeepalive) || Has(tail, u)
  {
    hide Opt, Get, Has, Le16, HasEndpoint, EndpointOf;
    var k, e := Opt(p.hasKeepalive, 5, Le16(p.keepalive)), Opt(HasEndpoint(p), 4, EndpointOf(p));
    GetOpt(p.hasKeepalive, 5, Le16(p.keepalive), tail, u);
    GetOpt(HasEndpoint(p), 4, EndpointOf(p), k + tail, u);
    GetOpt(p.hasPresharedKey, 2, p.presharedKey, e + (k + tail), u);
    assert OnceItems(p) + tail == Opt(p.hasPresharedKey, 2, p.presharedKey) + (e + (k + tail));
  }

  /** Every attribute of a fragment by its number. */
  lemma FragmentGet(f: Fragment, u: int)
    ensures Get(FragmentItems(f), u) ==
      if u == 1 then f.p.publicKey
      else if u == 2 && f.first && f.p.hasPresharedKey then f.p.presharedKey
      else if u == 3 && FlagsOf(f) != 0 then Le32(FlagsOf(f))
      else if u == 4 && f.first && HasEndpoint(f.p) then EndpointOf(f.p)
      else if u == 5 && f.first && f.p.hasKeepalive then Le16(f.p.keepalive)
      else if u == 0x8009 && f.nest then IpsBytes(f.p.allowedIps)
      else []
    ensures Has(FragmentItems(f), u) <==>
      || u == 1 || (u == 2 && f.first && f.p.hasPresharedKey) || (u == 3 && FlagsOf(f) != 0)
      || (u == 4 && f.first && HasEndpoint(f.p)) || (u == 5 && f.first && f.p.hasKeepalive) || (u == 0x8009 && f.nest)
  {
    hide Opt, Get, Has, Le16, Le32, IpsBytes, FlagsOf, HasEndpoint, EndpointOf, OnceItems;
    var p, tail := f.p, TailItems(f);
    GetNothing(u);
    GetOpt(f.nest, 0x8009, IpsBytes(p.allowedIps), [], u);
    GetOpt(FlagsOf(f) != 0, 3, Le32(FlagsOf(f)), Opt(f.nest, 0x8009, IpsBytes(p.allowedIps)) + [], u);
    OnceGet(p, tail, u);
    assert [] + tail == tail;
    GetOpt(true, 1, p.publicKey, (if f.first then OnceItems(p) else []) + tail, u);
  }

  /** The flags of a fragment, read off its bytes: bit 0 exactly when the peer is to be removed, bit 1 exactly in
      the first fragment of a peer whose allowed IPs are to be replaced, and no other. */
  lemma FlagsHeard(f: Fragment)
    requires FragmentFits(f)
    ensures var items := Walk(FragmentBytes(f));
            && (Flag(items, 3, 1) <==> f.p.removeMe) && (Flag(items, 3, 2) <==> f.first && f.p.replaceAllowedIps)
            && Number(items, 3) < 4
  {
    hide Walk, Get, FlagsOf;
    FlagsNumber(f);
    FlagBits(f);
  }

  lemma FlagsNumber(f: Fragment)
    requires FragmentFits(f)
    ensures Number(Walk(FragmentBytes(f)), 3) == FlagsOf(f)
  {
    hide Walk, Get, Has, FragmentItems, LE.Decode, Le32, FlagsOf;
    FragmentEncodes(f);
    FragmentGet(f, 3);
    Le32Number(FlagsOf(f));
    NothingNumber();
  }

  lemma FlagBits(f: Fragment)
    ensures (FlagsOf(f) % 2 == 1 <==> f.p.removeMe) && (FlagsOf(f) / 2 % 2 == 1 <==> f.first && f.p.replaceAllowedIps)
    ensures FlagsOf(f) < 4
  {
  }

  lemma NothingNumber()
    ensures LE.Decode([]) == 0
  {
  }

  /** A fragment as the receiver takes it. */
  function HearFragment(peers: Table, f: Fragment): Table {
    if f.p.removeMe then peers - {f.p.publicKey}
    else
      var was, p := HeldOf(peers, f.p.publicKey), f.p;
      peers[p.publicKey := Held(if f.first && p.hasPresharedKey then p.presharedKey else was.presharedKey,
                                if f.first && HasEndpoint(p) then EndpointOf(p) else was.endpoint,
                                if f.first && p.hasKeepalive then p.keepalive else was.keepalive,
                                (if f.first && p.replaceAllowedIps then [] else was.routes) + RoutesOf(p.allowedIps))]
  }

  lemma NestHeard(f: Fragment)
    requires f.nest || f.p.allowedIps == []
    ensures HearRoutes(Walk(if f.nest then IpsBytes(f.p.allowedIps) else [])) == RoutesOf(f.p.allowedIps)
  {
    hide Walk, HearRoutes, RoutesOf, IpsBytes, IpItems, Encodes;
    IpsEncode(f.p.allowedIps);
    WalkWhole(IpsBytes(f.p.allowedIps), IpItems(f.p.allowedIps));
    RoutesHeard(f.p.allowedIps);
    NoIpBytes();
  }

  lemma NoIpBytes()
    ensures IpsBytes([]) == []
  {
  }

  lemma FragmentHeard(peers: Table, f: Fragment)
    requires FragmentFits(f) && (f.nest || f.p.allowedIps == [])
    ensures HearPeer(peers, Walk(FragmentBytes(f))) == HearFragment(peers, f)
  {
    hide Walk, Get, Has, FragmentItems, LE.Decode, Le16, Le32, HearRoutes, RoutesOf, IpsBytes, FlagsOf, HasEndpoint, EndpointOf, Flag, HeldOf;
    FlagsHeard(f);
    FragmentEncodes(f);
    FragmentGet(f, 1);
    FragmentGet(f, 2);
    FragmentGet(f, 4);
    FragmentGet(f, 5);
    FragmentGet(f, 0x8009);
    Le16Number(f.p.keepalive);
    NestHeard(f);
  }

  function HearFragments(peers: Table, fs: seq<Fragment>): Table {
    if fs == [] then peers else HearFragment(HearFragments(peers, fs[..|fs| - 1]), fs[|fs| - 1])
  }

  function FragmentsItems(fs: seq<Fragment>): seq<Item>
    requires AllFit(fs)
  {
    hide FragmentBytes, FragmentFits;
    if fs == [] then [] else FragmentsItems(fs[..|fs| - 1]) + [Item(NESTED, FragmentBytes(fs[|fs| - 1]))]
  }

  lemma {:induction false} FragmentsEncode(fs: seq<Fragment>)
    requires AllFit(fs)
    ensures Encodes(FragmentsBytes(fs), FragmentsItems(fs))
  {
    hide Attr, Encodes, FragmentBytes, FragmentFits;
    if fs == [] {
      EncodesNothing();
    } else {
      var pre, b := fs[..|fs| - 1], FragmentBytes(fs[|fs| - 1]);
      FragmentsEncode(pre);
      EncodesOpt(true, NESTED, b);
      EncodesConcat(FragmentsBytes(pre), FragmentsItems(pre), Attr(NESTED, b), [Item(NESTED, b)]);
    }
  }

  lemma {:induction false} FragmentsHeard(peers: Table, fs: seq<Fragment>)
    requires AllFit(fs) && NestsOk(fs)
    ensures HearPeers(peers, FragmentsItems(fs)) == HearFragments(peers, fs)
  {
    hide Walk, FragmentBytes, FragmentFits, HearPeer, HearFragment;
    if fs != [] {
      FragmentsHeard(peers, fs[..|fs| - 1]);
      FragmentHeard(HearFragments(peers, fs[..|fs| - 1]), fs[|fs| - 1]);
    }
  }

  // ----- all fragments set the peers they were cut from

  lemma {:induction false} RoutesConcat(a: seq<AllowedIp>, b: seq<AllowedIp>)
    ensures RoutesOf(a + b) == RoutesOf(a) + RoutesOf(b)
  {
    hide RouteOf;
    if b == [] {
      assert a + b == a;
    } else {
      var pre, ip := b[..|b| - 1], b[|b| - 1];
      RoutesConcat(a, pre);
      assert (a + b)[..|a + b| - 1] == a + pre;
    }
  }

  lemma SetPeersSnoc(peers: Table, ps: seq<Peer>, p: Peer)
    ensures SetPeers(peers, ps + [p]) == SetPeer(SetPeers(peers, ps), p)
  {
    hide SetPeer;
    assert (ps + [p])[..|ps|] == ps;
  }

  lemma FirstSets(peers: Table, f: Fragment)
    requires f.first
    ensures HearFragment(peers, f) == SetPeer(peers, f.p)
  {
    hide HeldOf;
  }

  /** A continuation adds its allowed IPs to what its peer already has. */
  lemma ContinuationAdds(peers: Table, last: Peer, f: Fragment)
    requires !f.first && Scalars(f.p) == Scalars(last)
    ensures HearFragment(SetPeer(peers, last), f) == SetPeer(peers, Extended(last, f.p.allowedIps))
  {
    hide HasEndpoint, EndpointOf, RoutesOf;
    assert f.p.publicKey == last.publicKey && f.p.removeMe == last.removeMe by {
      assert Scalars(f.p).publicKey == Scalars(last).publicKey && Scalars(f.p).removeMe == Scalars(last).removeMe;
    }
    RoutesConcat(last.allowedIps, f.p.allowedIps);
    var key := last.publicKey;
    if last.removeMe {
      assert peers - {key} - {key} == peers - {key};
    } else {
      var was := SetPeer(peers, last)[key];
      var all := (if last.replaceAllowedIps then [] else HeldOf(peers, key).routes) + RoutesOf(last.allowedIps) + RoutesOf(f.p.allowedIps);
      assert all == (if last.replaceAllowedIps then [] else HeldOf(peers, key).routes) + (RoutesOf(last.allowedIps) + RoutesOf(f.p.allowedIps));
      assert SetPeer(peers, last)[key := was.(routes := all)] == peers[key := was.(routes := all)];
    }
  }

  lemma {:induction false} FragmentsSet(peers: Table, fs: seq<Fragment>)
    requires ContinuationsOk(fs)
    ensures HearFragments(peers, fs) == SetPeers(peers, Rejoined(fs))
  {
    hide HearFragment, SetPeer, Rejoined, ContinuationsOk, Scalars;
    if fs == [] {
      NoPeers(peers);
    } else {
      var pre, f := fs[..|fs| - 1], fs[|fs| - 1];
      var r := Rejoined(pre);
      RT.ContinuationsBefore(fs);
      FragmentsSet(peers, pre);
      if f.first {
        RT.EndsFresh(fs);
        FirstSets(HearFragments(peers, pre), f);
        SetPeersSnoc(peers, r, f.p);
      } else {
        var last := RT.LastOf(r);
        RT.EndsContinued(fs, last);
        var init := r[..|r| - 1];
        assert r == init + [last];
        SetPeersSnoc(peers, init, last);
        ContinuationAdds(SetPeers(peers, init), last, f);
        SetPeersSnoc(peers, init, Extended(last, f.p.allowedIps));
      }
    }
  }

  lemma NoPeers(peers: Table)
    ensures SetPeers(peers, Rejoined([])) == peers && HearFragments(peers, []) == peers
  {
  }

  lemma {:induction false} HearConcat(peers: Table, a: seq<Fragment>, b: seq<Fragment>)
    ensures HearFragments(peers, a + b) == HearFragments(HearFragments(peers, a), b)
  {
    hide HearFragment;
    if b == [] {
      assert a + b == a;
    } else {
      HearConcat(peers, a, b[..|b| - 1]);
      assert (a + b)[..|a + b| - 1] == a + b[..|b| - 1];
    }
  }

  // ----- messages

  function DeviceItems(dev: Device): seq<Item> {
    Opt(dev.hasPrivateKey, 3, dev.privateKey)
    + (Opt(dev.hasListenPort, 6, Le16(dev.listenPort)) + (Opt(dev.hasFwmark, 7, Le32(dev.fwmark)) + Opt(dev.replacePeers, 5, Le32(1))))
  }

  function MessageItems(dev: Device, first: bool, fs: seq<Fragment>): seq<Item>
    requires MessageFits(fs)
  {
    hide FragmentsBytes;
    Opt(true, 2, dev.name + [0]) + ((if first then DeviceItems(dev) else []) + (Opt(dev.peers != [], 0x8008, FragmentsBytes(fs)) + []))
  }

  lemma DeviceEncodes(dev: Device)
    ensures Encodes(DeviceBytes(dev), DeviceItems(dev))
  {
    hide Attr, Encodes, Opt, Le16, Le32;
    var w, x, y, z := Opt(dev.hasPrivateKey, 3, dev.privateKey), Opt(dev.hasListenPort, 6, Le16(dev.listenPort)),
        Opt(dev.hasFwmark, 7, Le32(dev.fwmark)), Opt(dev.replacePeers, 5, Le32(1));
    EncodesOpt(dev.hasPrivateKey, 3, dev.privateKey);
    EncodesOpt(dev.hasListenPort, 6, Le16(dev.listenPort));
    EncodesOpt(dev.hasFwmark, 7, Le32(dev.fwmark));
    EncodesOpt(dev.replacePeers, 5, Le32(1));
    var a, b, c, d := PrivateKeyBytes(dev), ListenPortBytes(dev), FwmarkBytes(dev), DeviceFlagBytes(dev);
    EncodesConcat(a, w, b, x);
    EncodesConcat(a + b, w + x, c, y);
    EncodesConcat(a + b + c, w + x + y, d, z);
    assert w + x + y + z == w + (x + (y + z));
  }

  lemma MessageEncodes(header: Header, dev: Device, first: bool, fs: seq<Fragment>)
    requires MessageFits(fs)
    ensures Attributes(MessageBytes(header, dev, first, fs)) == MessageItems(dev, first, fs)
  {
    hide Attr, Walk, Encodes, Opt, DeviceBytes, DeviceItems, FragmentsBytes;
    var own, items := if first then DeviceBytes(dev) else [], if first then DeviceItems(dev) else [];
    if first { DeviceEncodes(dev); } else { EncodesNothing(); }
    var nest, peers := if dev.peers != [] then Attr(0x8008, FragmentsBytes(fs)) else [], Opt(dev.peers != [], 0x8008, FragmentsBytes(fs));
    EncodesOpt(true, 2, dev.name + [0]);
    EncodesOpt(dev.peers != [], 0x8008, FragmentsBytes(fs));
    EncodesConcat(own, items, nest, peers);
    EncodesConcat(NameBytes(dev), Opt(true, 2, dev.name + [0]), own + nest, items + peers);
    assert MessageBytes(header, dev, first, fs)[20..] == NameBytes(dev) + (own + nest);
    WalkWhole(NameBytes(dev) + (own + nest), Opt(true, 2, dev.name + [0]) + (items + peers));
    assert peers + [] == peers;
  }

  lemma DeviceGet(dev: Device, rest: seq<Item>, u: int)
    ensures Get(DeviceItems(dev) + rest, u) ==
      if u == 3 && dev.hasPrivateKey then dev.privateKey
      else if u == 5 && dev.replacePeers then Le32(1)
      else if u == 6 && dev.hasListenPort then Le16(dev.listenPort)
      else if u == 7 && dev.hasFwmark then Le32(dev.fwmark)
      else Get(rest, u)
    ensures Has(DeviceItems(dev) + rest, u) <==>
      || (u == 3 && dev.hasPrivateKey) || (u == 5 && dev.replacePeers) || (u == 6 && dev.hasListenPort)
      || (u == 7 && dev.hasFwmark) || Has(rest, u)
  {
    hide Opt, Get, Has, Le16, Le32;
    var x, y, z := Opt(dev.hasListenPort, 6, Le16(dev.listenPort)), Opt(dev.hasFwmark, 7, Le32(dev.fwmark)), Opt(dev.replacePeers, 5, Le32(1));
    GetOpt(dev.replacePeers, 5, Le32(1), rest, u);
    GetOpt(dev.hasFwmark, 7, Le32(dev.fwmark), z + rest, u);
    GetOpt(dev.hasListenPort, 6, Le16(dev.listenPort), y + (z + rest), u);
    GetOpt(dev.hasPrivateKey, 3, dev.privateKey, x + (y + (z + rest)), u);
    assert DeviceItems(dev) + rest == Opt(dev.hasPrivateKey, 3, dev.privateKey) + (x + (y + (z + rest)));
  }

  /** Every attribute of a message by its number. */
  lemma MessageGet(dev: Device, first: bool, fs: seq<Fragment>, u: int)
    requires MessageFits(fs)
    ensures Get(MessageItems(dev, first, fs), u) ==
      if u == 2 then dev.name + [0]
      else if u == 3 && first && dev.hasPrivateKey then dev.privateKey
      else if u == 5 && first && dev.replacePeers then Le32(1)
      else if u == 6 && first && dev.hasListenPort then Le16(dev.listenPort)
      else if u == 7 && first && dev.hasFwmark then Le32(dev.fwmark)
      else if u == 0x8008 && dev.peers != [] then FragmentsBytes(fs)
      else []
    ensures Has(MessageItems(dev, first, fs), u) <==>
      || u == 2 || (u == 3 && first && dev.hasPrivateKey) || (u == 5 && first && dev.replacePeers)
      || (u == 6 && first && dev.hasListenPort) || (u == 7 && first && dev.hasFwmark) || (u == 0x8008 && dev.peers != [])
  {
    hide Opt, Get, Has, Le16, Le32, FragmentsBytes, DeviceItems, AllFit;
    var tail := Opt(dev.peers != [], 0x8008, FragmentsBytes(fs)) + [];
    GetNothing(u);
    GetOpt(dev.peers != [], 0x8008, FragmentsBytes(fs), [], u);
    DeviceGet(dev, tail, u);
    assert [] + tail == tail;
    GetOpt(true, 2, dev.name + [0], (if first then DeviceItems(dev) else []) + tail, u);
  }

  /** The device's own attributes, as the first message sets them. */
  function Own(k: Kernel, dev: Device, first: bool): Kernel {
    if first then SetKernel(k, dev.(peers := [])) else k
  }

  lemma MessageHeard(k: Kernel, header: Header, dev: Device, first: bool, fs: seq<Fragment>)
    requires MessageFits(fs) && NestsOk(fs) && (dev.peers == [] ==> fs == [])
    ensures var own := Own(k, dev, first);
            HearMessage(k, Attributes(MessageBytes(header, dev, first, fs))) == own.(peers := HearFragments(own.peers, fs))
    ensures Get(Attributes(MessageBytes(header, dev, first, fs)), 2) == dev.name + [0]
  {
    hide Attributes, MessageBytes, MessageItems, Get, Has, LE.Decode, Le16, Le32, Walk, HearPeers, HearFragments, FragmentsBytes, MessageFits;
    MessageEncodes(header, dev, first, fs);
    MessageGet(dev, first, fs, 2);
    MessageGet(dev, first, fs, 3);
    MessageGet(dev, first, fs, 5);
    MessageGet(dev, first, fs, 6);
    MessageGet(dev, first, fs, 7);
    MessageGet(dev, first, fs, 0x8008);
    Le16Number(dev.listenPort);
    Le32Number(dev.fwmark);
    Le32Number(1);
    NothingNumber();
    PeersNestHeard(Own(k, dev, first).peers, dev, fs);
  }

  lemma PeersNestHeard(peers: Table, dev: Device, fs: seq<Fragment>)
    requires MessageFits(fs) && NestsOk(fs) && (dev.peers == [] ==> fs == [])
    ensures HearPeers(peers, Walk(if dev.peers != [] then FragmentsBytes(fs) else [])) == HearFragments(peers, fs)
  {
    hide Walk, HearPeer, HearFragment, FragmentBytes, FragmentFits;
    if dev.peers != [] {
      FragmentsEncode(fs);
      WalkWhole(FragmentsBytes(fs), FragmentsItems(fs));
      FragmentsHeard(peers, fs);
    } else {
      NothingWalked();
    }
  }

  lemma NothingWalked()
    ensures Walk([]) == []
  {
  }

  // ----- the whole run

  lemma NestsOkConcat(a: seq<Fragment>, b: seq<Fragment>)
    requires NestsOk(a + b)
    ensures NestsOk(a) && NestsOk(b)
  {
    forall i | 0 <= i < |a| ensures a[i].nest || a[i].p.allowedIps == [] { assert (a + b)[i] == a[i]; }
    forall i | 0 <= i < |b| ensures b[i].nest || b[i].p.allowedIps == [] { assert (a + b)[|a| + i] == b[i]; }
  }

  /** What the receiver holds after n messages with these fragments. */
  function Heard(k: Kernel, n: nat, dev: Device, fs: seq<Fragment>): Kernel {
    var own := Own(k, dev, n > 0); own.(peers := HearFragments(own.peers, fs))
  }

  lemma {:induction false} AllHeard(k: Kernel, sent: seq<seq<u8>>, plan: seq<seq<Fragment>>, headers: nat -> Header, dev: Device, limit: nat)
    requires Carries(sent, plan, headers, dev, limit) && NestsOk(Flat(plan)) && (dev.peers == [] ==> Flat(plan) == [])
    ensures HearAll(k, sent) == Heard(k, |sent|, dev, Flat(plan))
    ensures forall i :: 0 <= i < |sent| ==> Get(Attributes(sent[i]), 2) == dev.name + [0]
  {
    hide Carries, MessageFits, MessageBytes, NestsOk, HearMessage, Attributes, Get, Own, Heard;
    if sent == [] {
      NothingHeard(k, sent, plan, headers, dev, limit);
    } else {
      var n := |sent| - 1;
      RT.CarriesLast(sent, plan, headers, dev, limit);
      assert plan[..n] + [plan[n]] == plan;
      FlatSnoc(plan[..n], plan[n]);
      NestsOkConcat(Flat(plan[..n]), plan[n]);
      AllHeard(k, sent[..n], plan[..n], headers, dev, limit);
      MessageHeard(Heard(k, n, dev, Flat(plan[..n])), headers(n), dev, n == 0, plan[n]);
      HeardNext(k, n, dev, Flat(plan[..n]), plan[n]);
      assert forall i :: 0 <= i < n ==> sent[i] == sent[..n][i];
    }
  }

  lemma NothingHeard(k: Kernel, sent: seq<seq<u8>>, plan: seq<seq<Fragment>>, headers: nat -> Header, dev: Device, limit: nat)
    requires sent == [] && Carries(sent, plan, headers, dev, limit)
    ensures HearAll(k, sent) == Heard(k, 0, dev, Flat(plan))
  {
    hide HearFragment;
  }

  lemma HeardNext(k: Kernel, n: nat, dev: Device, a: seq<Fragment>, b: seq<Fragment>)
    ensures n > 0 || a == [] ==>
      var own := Own(Heard(k, n, dev, a), dev, n == 0);
      own.(peers := HearFragments(own.peers, b)) == Heard(k, n + 1, dev, a + b)
  {
    hide HearFragment, Own;
    OwnFirst(k, dev);
    OwnFirst(Heard(k, n, dev, a), dev);
    HearConcat(Own(k, dev, true).peers, a, b);
    assert a == [] ==> a + b == b;
  }

  lemma OwnFirst(k: Kernel, dev: Device)
    ensures Own(k, dev, false) == k
  {
  }

  /** Whatever the receiver holds, the messages of a run bring it to what the device says: the replace flag of the
      device is heard once, that of a peer once for each peer, and every message names the interface. */
  lemma RunSetsTheDevice(k: Kernel, sent: seq<seq<u8>>, plan: seq<seq<Fragment>>, headers: nat -> Header, dev: Device, limit: nat)
    requires |sent| >= 1 && Carries(sent, plan, headers, dev, limit)
    requires Rejoined(Flat(plan)) == dev.peers && ContinuationsOk(Flat(plan)) && NestsOk(Flat(plan))
    ensures HearAll(k, sent) == SetKernel(k, dev)
    ensures forall i :: 0 <= i < |sent| ==> Get(Attributes(sent[i]), 2) == dev.name + [0]
  {
    hide Carries, ContinuationsOk, NestsOk, Rejoined, HearAll, HearFragments, Attributes, Get;
    var fs := Flat(plan);
    if fs != [] { RT.RejoinedStarts(fs); }
    AllHeard(k, sent, plan, headers, dev, limit);
    FragmentsSet(Own(k, dev, true).peers, fs);
  }

  /** Every fragment that is sent has the flags of its peer. */
  lemma RunFlags(sent: seq<seq<u8>>, plan: seq<seq<Fragment>>, headers: nat -> Header, dev: Device, limit: nat, i: nat, j: nat)
    requires Carries(sent, plan, headers, dev, limit) && i < |plan| && j < |plan[i]|
    ensures var f := plan[i][j];
            && FragmentFits(f)
            && (Flag(Walk(FragmentBytes(f)), 3, 1) <==> f.p.removeMe)
            && (Flag(Walk(FragmentBytes(f)), 3, 2) <==> f.first && f.p.replaceAllowedIps)
  {
    hide Walk, Flag, FragmentFits, FragmentBytes, MessageBytes, FragmentsBytes;
    assert MessageFits(plan[i]) && AllFit(plan[i]);
    FlagsHeard(plan[i][j]);
  }

  /** `wg_set_device`, heard by a receiver. */
  method SetDeviceHeard(headers: nat -> Header, dev: Device, limit: nat, ghost k: Kernel) returns (sent: seq<seq<u8>>)
    requires 0x1000 <= limit <= 0x2000
    ensures HearAll(k, sent) == SetKernel(k, dev)
    ensures forall i :: 0 <= i < |sent| ==> |sent[i]| <= limit && Get(Attributes(sent[i]), 2) == dev.name + [0]
  {
    hide MessageFits, MessageBytes, ContinuationsOk, NestsOk, Rejoined, HearAll, SetKernel, Attributes, Get;
    ghost var plan;
    sent, plan := SetDevice(headers, dev, limit);
    RunSetsTheDevice(k, sent, plan, headers, dev, limit);
  }

  // ----- what is left of each peer

  predicate DistinctKeys(ps: seq<Peer>) { forall i, j :: 0 <= i < j < |ps| ==> ps[i].publicKey != ps[j].publicKey }

  /** With distinct keys, a removed peer is gone, and any other has exactly its allowed IPs, behind the ones it had
      before unless they are replaced. */
  lemma {:induction false} EachPeerIsSet(peers: Table, ps: seq<Peer>, i: nat)
    requires DistinctKeys(ps) && i < |ps|
    ensures IsSet(peers, ps[i], SetPeers(peers, ps))
  {
    hide IsSet, SetPeer;
    var n := |ps| - 1;
    if i < n {
      EachPeerIsSet(peers, ps[..n], i);
      assert ps[i].publicKey != ps[n].publicKey;
      OtherKey(SetPeers(peers, ps[..n]), ps[n], ps[i].publicKey);
      StillSet(peers, ps[i], SetPeers(peers, ps[..n]), SetPeers(peers, ps));
    } else {
      Untouched(peers, ps[..n], ps[n].publicKey);
      OwnKey(peers, SetPeers(peers, ps[..n]), ps[n]);
    }
  }

  predicate IsSet(before: Table, p: Peer, after: Table) {
    && (p.publicKey in after <==> !p.removeMe)
    && (!p.removeMe ==>
          HeldOf(after, p.publicKey).routes == (if p.replaceAllowedIps then [] else HeldOf(before, p.publicKey).routes) + RoutesOf(p.allowedIps))
  }

  lemma StillSet(before: Table, p: Peer, after: Table, later: Table)
    requires IsSet(before, p, after) && (p.publicKey in after <==> p.publicKey in later)
    requires HeldOf(after, p.publicKey) == HeldOf(later, p.publicKey)
    ensures IsSet(before, p, later)
  {
  }

  lemma OwnKey(before: Table, peers: Table, p: Peer)
    requires HeldOf(peers, p.publicKey) == HeldOf(before, p.publicKey)
    ensures IsSet(before, p, SetPeer(peers, p))
  {
    hide RoutesOf, FamilyOf;
  }

  lemma OtherKey(peers: Table, p: Peer, key: Key)
    requires p.publicKey != key
    ensures (key in SetPeer(peers, p) <==> key in peers) && HeldOf(SetPeer(peers, p), key) == HeldOf(peers, key)
  {
    hide RoutesOf, FamilyOf;
  }

  lemma {:induction false} Untouched(peers: Table, ps: seq<Peer>, key: Key)
    requires forall i :: 0 <= i < |ps| ==> ps[i].publicKey != key
    ensures HeldOf(SetPeers(peers, ps), key) == HeldOf(peers, key)
  {
    hide SetPeer, HeldOf;
    if ps != [] {
      Untouched(peers, ps[..|ps| - 1], key);
      OtherKey(SetPeers(peers, ps[..|ps| - 1]), ps[|ps| - 1], key);
    }
  }
}
