/** `wg_set_device`: splitting a device of any size over bounded messages. */
module DeviceWriter {
  import opened Bits
  import opened Bytes
  import opened Netlink
  import opened Device

  /** The null allowed-IP cursor. */
  const NONE: int := -1

  /** What an attempt to append bytes leaves behind: all of them, or a prefix when they do not fit. */
  ghost predicate Appended(before: seq<u8>, after: seq<u8>, bytes: seq<u8>, limit: nat, ok: bool) {
    && |after| <= limit
    && (if ok then after == before + bytes else before <= after && |before| + |bytes| > limit)
  }

  lemma AppendThen(b0: seq<u8>, b1: seq<u8>, b2: seq<u8>, x: seq<u8>, y: seq<u8>, limit: nat, ok: bool)
    requires Appended(b0, b1, x, limit, true) && Appended(b1, b2, y, limit, ok)
    ensures Appended(b0, b2, x + y, limit, ok)
  {
  }

  lemma AppendFails(b0: seq<u8>, b1: seq<u8>, x: seq<u8>, y: seq<u8>, limit: nat)
    requires Appended(b0, b1, x, limit, false)
    ensures Appended(b0, b1, x + y, limit, false)
  {
  }

  lemma AppendNothing(b: seq<u8>, limit: nat)
    requires |b| <= limit
    ensures Appended(b, b, [], limit, true)
  {
  }

  method Put(m: Message, limit: nat, rawType: u16, data: seq<u8>) returns (ok: bool)
    requires m.Valid() && m.len <= limit <= m.buf.Length && Sized(data)
    modifies m`len, m.buf
    ensures m.Valid() && Appended(old(m.Bytes()), m.Bytes(), Attr(rawType, data), limit, ok)
  {
    hide Attr;
    ok := m.PutCheck(limit, rawType, data);
  }

  // ----- one allowed IP

  method PutIpPayload(m: Message, limit: nat, ip: AllowedIp) returns (ok: bool)
    requires m.Valid() && m.len <= limit <= m.buf.Length
    modifies m`len, m.buf
    ensures m.Valid() && Appended(old(m.Bytes()), m.Bytes(), IpPayload(ip), limit, ok)
  {
    hide Attr;
    ok := true;
    if ip.family == AF_INET {
      ok := Put(m, limit, 2, ip.ip[..4]);
    } else if ip.family == AF_INET6 {
      ok := Put(m, limit, 2, ip.ip);
    }
  }

  method PutIp(m: Message, limit: nat, ip: AllowedIp) returns (ok: bool)
    requires m.Valid() && m.len <= limit <= m.buf.Length
    modifies m`len, m.buf
    ensures m.Valid() && Appended(old(m.Bytes()), m.Bytes(), IpBytes(ip), limit, ok)
  {
    hide Attr, IpPayload, Le16, Appended, Aligned;
    ghost var b0 := m.Bytes();
    ghost var family, payload, mask := Attr(1, Le16(ip.family)), IpPayload(ip), Attr(3, [ip.cidr]);
    ok := Put(m, limit, 1, Le16(ip.family));
    if !ok {
      AppendFails(b0, m.Bytes(), family, payload, limit);
      AppendFails(b0, m.Bytes(), family + payload, mask, limit);
      return;
    }
    ghost var b1 := m.Bytes();
    AppendedFits(b0, b1, family, limit, true);
    ok := PutIpPayload(m, limit, ip);
    ghost var b2 := m.Bytes();
    AppendThen(b0, b1, b2, family, payload, limit, ok);
    if !ok {
      AppendFails(b0, b2, family + payload, mask, limit);
      return;
    }
    AppendedFits(b1, b2, payload, limit, true);
    ok := Put(m, limit, 3, [ip.cidr]);
    AppendThen(b0, b2, m.Bytes(), family + payload, mask, limit, ok);
  }

  lemma AppendedFits(b0: seq<u8>, b1: seq<u8>, x: seq<u8>, limit: nat, ok: bool)
    requires Appended(b0, b1, x, limit, ok)
    ensures |b1| <= limit && |b0| <= |b1| && b1[..|b0|] == b0
    ensures if ok then b1 == b0 + x else |b0| + |x| > limit
  {
  }

  /** Writes one allowed IP as a nest, or nothing when it does not fit. */
  method WriteIp(m: Message, limit: nat, ip: AllowedIp) returns (ok: bool)
    requires m.Valid() && m.len <= limit <= m.buf.Length && limit <= 0x2000
    modifies m`len, m.buf
    ensures m.Valid() && m.len <= limit
    ensures m.Bytes() == old(m.Bytes()) + if ok then Attr(NESTED, IpBytes(ip)) else []
    ensures old(m.len) + 40 <= limit ==> ok
  {
    hide Attr, Nesting, IpBytes, Appended;
    ghost var before := m.Bytes();
    var nest;
    ok, nest := m.NestStartCheck(limit, 0);
    if !ok {
      assert before + [] == before;
      return;
    }
    ghost var inside := m.Bytes();
    NestingLength(inside, before, 0, []);
    ok := PutIp(m, limit, ip);
    AppendedFits(inside, m.Bytes(), IpBytes(ip), limit, ok);
    assert [] + IpBytes(ip) == IpBytes(ip);
    AlignedEmpty();
    CloseNest(m, nest, before, 0, inside, [], IpBytes(ip), limit, !ok);
  }

  /** Ends a nest whose last piece was written whole, and cancels it otherwise. */
  method CloseNest(m: Message, nest: nat, ghost before: seq<u8>, ghost t: AttrType, ghost inside: seq<u8>,
                   ghost body: seq<u8>, ghost more: seq<u8>, limit: nat, cancel: bool)
    requires m.Valid() && nest == |before| && m.len <= limit <= 0x2000 && Aligned(before) && Aligned(body) && Aligned(more)
    requires Nesting(inside, before, t, body) && |inside| <= m.len
    requires if cancel then m.Bytes()[..|inside|] == inside else m.Bytes() == inside + more
    modifies m`len, m.buf
    ensures m.Valid() && m.len <= limit
    ensures Sized(body + more) || cancel
    ensures m.Bytes() == before + if cancel then [] else Attr(NESTED + t, body + more)
  {
    hide Attr, Nesting;
    NestingLength(inside, before, t, body);
    if cancel {
      assert m.Bytes()[..nest] == before by { NestingPrefix(inside, before, t, body); }
      m.NestCancel(nest);
    } else {
      NestingGrows(inside, before, t, body, more);
      AlignedConcat(body, more);
      NestingLength(m.Bytes(), before, t, body + more);
      m.NestEnd(nest, before, t, body + more);
    }
  }

  lemma NestingPrefix(b: seq<u8>, prefix: seq<u8>, t: AttrType, body: seq<u8>)
    requires Nesting(b, prefix, t, body)
    ensures |prefix| <= |b| && b[..|prefix|] == prefix
  {
  }

  // ----- one peer

  /** How the message loop goes on after a peer. */
  datatype Outcome = Done | TooBigPeers | TooBigAllowedIps

  method PutPreshared(m: Message, limit: nat, p: Peer) returns (ok: bool)
    requires m.Valid() && m.len <= limit <= m.buf.Length
    modifies m`len, m.buf
    ensures m.Valid() && Appended(old(m.Bytes()), m.Bytes(), PresharedBytes(p), limit, ok)
  {
    hide Attr;
    ok := true;
    if p.hasPresharedKey {
      ok := Put(m, limit, 2, p.presharedKey);
    }
  }

  method PutEndpoint(m: Message, limit: nat, p: Peer) returns (ok: bool)
    requires m.Valid() && m.len <= limit <= m.buf.Length
    modifies m`len, m.buf
    ensures m.Valid() && Appended(old(m.Bytes()), m.Bytes(), EndpointBytes(p), limit, ok)
  {
    hide Attr, Family;
    ok := true;
    if Family(p.endpoint) == AF_INET {
      ok := Put(m, limit, 4, p.endpoint[..16]);
    } else if Family(p.endpoint) == AF_INET6 {
      ok := Put(m, limit, 4, p.endpoint);
    }
  }

  method PutKeepalive(m: Message, limit: nat, p: Peer) returns (ok: bool)
    requires m.Valid() && m.len <= limit <= m.buf.Length
    modifies m`len, m.buf
    ensures m.Valid() && Appended(old(m.Bytes()), m.Bytes(), KeepaliveBytes(p), limit, ok)
  {
    hide Attr, Le16;
    ok := true;
    if p.hasKeepalive {
      ok := Put(m, limit, 5, Le16(p.keepalive));
    }
  }

  method PutOnce(m: Message, limit: nat, p: Peer) returns (ok: bool)
    requires m.Valid() && m.len <= limit <= m.buf.Length
    modifies m`len, m.buf
    ensures m.Valid() && Appended(old(m.Bytes()), m.Bytes(), OnceBytes(p), limit, ok)
  {
    hide PresharedBytes, EndpointBytes, KeepaliveBytes, Appended, Aligned;
    ghost var b0 := m.Bytes();
    ghost var preshared, endpoint, keepalive := PresharedBytes(p), EndpointBytes(p), KeepaliveBytes(p);
    ok := PutPreshared(m, limit, p);
    ghost var b1 := m.Bytes();
    if !ok {
      AppendFails(b0, b1, preshared, endpoint, limit);
      AppendFails(b0, b1, preshared + endpoint, keepalive, limit);
      return;
    }
    AppendedFits(b0, b1, preshared, limit, true);
    ok := PutEndpoint(m, limit, p);
    ghost var b2 := m.Bytes();
    AppendThen(b0, b1, b2, preshared, endpoint, limit, ok);
    if !ok {
      AppendFails(b0, b2, preshared + endpoint, keepalive, limit);
      return;
    }
    AppendedFits(b1, b2, endpoint, limit, true);
    ok := PutKeepalive(m, limit, p);
    AppendThen(b0, b2, m.Bytes(), preshared + endpoint, keepalive, limit, ok);
  }

  method PutFlags(m: Message, limit: nat, flags: u32) returns (ok: bool)
    requires m.Valid() && m.len <= limit <= m.buf.Length
    modifies m`len, m.buf
    ensures m.Valid() && Appended(old(m.Bytes()), m.Bytes(), FlagBytes(flags), limit, ok)
  {
    hide Attr, Le32;
    ok := true;
    if flags != 0 {
      ok := Put(m, limit, 3, Le32(flags));
    }
  }

  /** The attributes of a peer ahead of its allowed IPs. */
  method PutHead(m: Message, limit: nat, p: Peer, first: bool) returns (ok: bool)
    requires m.Valid() && m.len <= limit <= m.buf.Length
    modifies m`len, m.buf
    ensures m.Valid() && Appended(old(m.Bytes()), m.Bytes(), HeadBytes(p, first), limit, ok)
  {
    hide Attr, OnceBytes, FlagBytes, PeerFlags, Appended, Aligned;
    ghost var b0 := m.Bytes();
    ghost var key, once, flags := KeyBytes(p), if first then OnceBytes(p) else [], FlagBytes(PeerFlags(p, first));
    assert HeadBytes(p, first) == key + once + flags by { HeadSplit(p, first); }
    ok := Put(m, limit, 1, p.publicKey);
    ghost var b1 := m.Bytes();
    if !ok {
      AppendFails(b0, b1, key, once, limit);
      AppendFails(b0, b1, key + once, flags, limit);
      return;
    }
    AppendedFits(b0, b1, key, limit, true);
    if first {
      ok := PutOnce(m, limit, p);
    } else {
      AppendNothing(b1, limit);
    }
    ghost var b2 := m.Bytes();
    AppendThen(b0, b1, b2, key, once, limit, ok);
    if !ok {
      AppendFails(b0, b2, key + once, flags, limit);
      return;
    }
    AppendedFits(b1, b2, once, limit, true);
    ok := PutFlags(m, limit, PeerFlags(p, first));
    AppendThen(b0, b2, m.Bytes(), key + once, flags, limit, ok);
  }

  lemma HeadSplit(p: Peer, first: bool)
    ensures HeadBytes(p, first)
         == KeyBytes(p) + (if first then OnceBytes(p) else []) + FlagBytes(PeerFlags(p, first))
  {
    hide KeyBytes, OnceBytes, FlagBytes, PeerFlags;
    assert KeyBytes(p) + [] == KeyBytes(p);
  }

  /** Where the allowed IPs of a fragment begin. */
  function Start(cursor: int): int { if cursor == NONE then 0 else cursor }

  predicate CursorOk(p: Peer, cursor: int) { cursor == NONE || 0 <= cursor < |p.allowedIps| }

  /** f carries the allowed IPs of p from the cursor up to (not including) upto. */
  predicate IsPiece(f: Fragment, p: Peer, cursor: int, upto: int)
    requires CursorOk(p, cursor)
  {
    && Start(cursor) <= upto <= |p.allowedIps|
    && f.p == p.(allowedIps := p.allowedIps[Start(cursor)..upto])
    && f.first == (cursor == NONE)
    && (f.nest || upto == Start(cursor))
  }

  lemma IpsSnoc(ips: seq<AllowedIp>, from: nat, i: nat)
    requires from <= i < |ips|
    ensures IpsBytes(ips[from..i + 1]) == IpsBytes(ips[from..i]) + Attr(NESTED, IpBytes(ips[i]))
  {
    hide IpBytes, Attr;
    var s := ips[from..i + 1];
    assert s[..|s| - 1] == ips[from..i] && s[|s| - 1] == ips[i];
  }

  /** Writes allowed IPs until one does not fit. */
  method WriteIps(m: Message, limit: nat, ips: seq<AllowedIp>, from: nat) returns (next: nat)
    requires m.Valid() && m.len <= limit <= m.buf.Length && limit <= 0x2000 && from < |ips|
    modifies m`len, m.buf
    ensures m.Valid() && m.len <= limit && from <= next <= |ips|
    ensures m.Bytes() == old(m.Bytes()) + IpsBytes(ips[from..next])
    ensures old(m.len) + 40 <= limit ==> from < next
  {
    hide IpBytes, Attr, IpsBytes;
    ghost var before := m.Bytes();
    next := from;
    IpsNone(ips, from);
    while next < |ips|
      invariant m.Valid() && m.len <= limit && from <= next <= |ips|
      invariant m.Bytes() == before + IpsBytes(ips[from..next])
      invariant old(m.len) + 40 <= limit && next == from ==> m.len + 40 <= limit
    {
      var ok := WriteIp(m, limit, ips[next]);
      if !ok {
        return;
      }
      IpsSnoc(ips, from, next);
      next := next + 1;
    }
  }

  lemma IpsNone(ips: seq<AllowedIp>, from: nat)
    requires from <= |ips|
    ensures IpsBytes(ips[from..from]) == []
  {
  }

  function PieceOf(p: Peer, cursor: int, upto: int, nest: bool): (f: Fragment)
    requires CursorOk(p, cursor) && Start(cursor) <= upto <= |p.allowedIps|
    ensures f.nest || upto == Start(cursor) ==> IsPiece(f, p, cursor, upto)
  {
    Fragment(p.(allowedIps := p.allowedIps[Start(cursor)..upto]), cursor == NONE, nest)
  }

  lemma PieceNest(p: Peer, cursor: int, upto: int, nest: bool)
    requires CursorOk(p, cursor) && Start(cursor) <= upto <= |p.allowedIps|
    requires |IpsBytes(p.allowedIps[Start(cursor)..upto])| <= 0x2000
    ensures var f := PieceOf(p, cursor, upto, nest);
            FragmentFits(f) && NestBytes(f) == if nest then Attr(NESTED + 9, IpsBytes(p.allowedIps[Start(cursor)..upto])) else []
  {
    hide Attr, IpsBytes;
  }

  lemma PieceHead(f: Fragment, p: Peer, cursor: int, upto: int)
    requires CursorOk(p, cursor) && IsPiece(f, p, cursor, upto)
    ensures HeadBytes(f.p, f.first) == HeadBytes(p, cursor == NONE)
    ensures FragmentFits(f) ==> FragmentBytes(f) == HeadBytes(p, cursor == NONE) + NestBytes(f)
  {
    hide Attr, IpsBytes, FragmentFits, NestBytes;
    assert KeyBytes(f.p) == KeyBytes(p) && PeerFlags(f.p, f.first) == PeerFlags(p, f.first) && OnceBytes(f.p) == OnceBytes(p);
  }

  /** The allowed-IPs nest of a peer; next is the cursor afterwards. */
  method WriteIpNest(m: Message, limit: nat, p: Peer, cursor: int) returns (next: int, ghost f: Fragment)
    requires m.Valid() && m.len <= limit <= m.buf.Length && limit <= 0x2000 && CursorOk(p, cursor)
    modifies m`len, m.buf
    ensures m.Valid() && m.len <= limit
    ensures Start(cursor) <= next <= |p.allowedIps| && IsPiece(f, p, cursor, next) && FragmentFits(f)
    ensures m.Bytes() == old(m.Bytes()) + NestBytes(f)
    ensures p.allowedIps != [] && old(m.len) + 44 <= limit ==> Start(cursor) < next
  {
    hide IpBytes, Attr, IpsBytes, Nesting, IsPiece, NestBytes, FragmentFits, Aligned;
    next := Start(cursor);
    IpsNone(p.allowedIps, next);
    PieceNest(p, cursor, next, false);
    f := PieceOf(p, cursor, next, false);
    if p.allowedIps == [] {
      assert m.Bytes() + [] == m.Bytes();
      return;
    }
    var ok;
    ok, next := FillIpNest(m, limit, p.allowedIps, next);
    if ok {
      PieceNest(p, cursor, next, true);
      f := PieceOf(p, cursor, next, true);
    }
  }

  method FillIpNest(m: Message, limit: nat, ips: seq<AllowedIp>, from: nat) returns (ok: bool, next: nat)
    requires m.Valid() && m.len <= limit <= m.buf.Length && limit <= 0x2000 && from < |ips|
    modifies m`len, m.buf
    ensures m.Valid() && m.len <= limit && from <= next <= |ips| && (ok || next == from)
    ensures |IpsBytes(ips[from..next])| <= 0x2000
    ensures m.Bytes() == old(m.Bytes()) + if ok then Attr(NESTED + 9, IpsBytes(ips[from..next])) else []
    ensures old(m.len) + 44 <= limit ==> from < next
  {
    hide IpBytes, Attr, IpsBytes, Nesting, Aligned;
    ghost var before := m.Bytes();
    IpsNone(ips, from);
    next := from;
    var nest;
    ok, nest := m.NestStartCheck(limit, 9);
    if !ok {
      assert before + [] == before;
      return;
    }
    ghost var inside := m.Bytes();
    NestingLength(inside, before, 9, []);
    next := WriteIps(m, limit, ips, from);
    ghost var written := IpsBytes(ips[from..next]);
    IpsAligned(ips[from..next]);
    AlignedEmpty();
    assert [] + written == written;
    CloseNest(m, nest, before, 9, inside, [], written, limit, false);
  }

  /** What that pass puts inside the nest it opens: the head, then the allowed IPs from the cursor on. */
  method WriteInsidePeer(m: Message, limit: nat, p: Peer, cursor: int) returns (ok: bool, upto: nat, ghost f: Fragment)
    requires m.Valid() && m.len <= limit <= m.buf.Length && limit <= 0x2000 && CursorOk(p, cursor)
    modifies m`len, m.buf
    ensures m.Valid() && old(m.len) <= m.len <= limit && m.Bytes()[..old(m.len)] == old(m.Bytes())
    ensures ok ==> Start(cursor) <= upto <= |p.allowedIps| && IsPiece(f, p, cursor, upto) && FragmentFits(f)
    ensures ok ==> m.Bytes() == old(m.Bytes()) + FragmentBytes(f) && Aligned(FragmentBytes(f))
    ensures old(m.len) + 164 <= limit ==> ok && (p.allowedIps != [] ==> Start(cursor) < upto)
  {
    hide Attr, HeadBytes, NestBytes, FragmentBytes, FragmentFits, IsPiece, Appended, Aligned;
    ghost var before := m.Bytes();
    upto, f := 0, Fragment(p, true, false);
    ok := PutHead(m, limit, p, cursor == NONE);
    ghost var head := HeadBytes(p, cursor == NONE);
    AppendedFits(before, m.Bytes(), head, limit, ok);
    if ok {
      upto, f := WriteIpNest(m, limit, p, cursor);
      PieceHead(f, p, cursor, upto);
      assert before + head + NestBytes(f) == before + (head + NestBytes(f));
    }
  }

  /** One pass of the peer loop of `wg_set_device`. */
  method WritePeer(m: Message, limit: nat, p: Peer, cursor: int) returns (outcome: Outcome, next: int, ghost f: Fragment)
    requires m.Valid() && m.len <= limit <= m.buf.Length && limit <= 0x2000 && CursorOk(p, cursor)
    modifies m`len, m.buf
    ensures m.Valid() && m.len <= limit
    ensures outcome == TooBigPeers ==> next == cursor && m.Bytes() == old(m.Bytes())
    ensures outcome == Done ==> next == NONE && IsPiece(f, p, cursor, |p.allowedIps|)
    ensures outcome == TooBigAllowedIps ==> 0 <= next < |p.allowedIps| && IsPiece(f, p, cursor, next)
    ensures outcome != TooBigPeers ==> FragmentFits(f) && m.Bytes() == old(m.Bytes()) + Attr(NESTED, FragmentBytes(f))
    ensures old(m.len) + 168 <= limit ==> outcome != TooBigPeers && (outcome == TooBigAllowedIps ==> Start(cursor) < next)
  {
    hide Attr, HeadBytes, NestBytes, FragmentBytes, FragmentFits, IsPiece, Nesting, Appended, Aligned;
    ghost var before := m.Bytes();
    outcome, next, f := TooBigPeers, cursor, Fragment(p, true, false);
    var ok, nest := m.NestStartCheck(limit, 0);
    if !ok {
      return;
    }
    ghost var inside := m.Bytes();
    NestingLength(inside, before, 0, []);
    AlignedEmpty();
    var upto;
    ok, upto, f := WriteInsidePeer(m, limit, p, cursor);
    if !ok {
      CloseNest(m, nest, before, 0, inside, [], [], limit, true);
      assert before + [] == before;
      return;
    }
    outcome := if upto < |p.allowedIps| then TooBigAllowedIps else Done;
    next := if upto < |p.allowedIps| then upto else NONE;
    assert [] + FragmentBytes(f) == FragmentBytes(f);
    CloseNest(m, nest, before, 0, inside, [], FragmentBytes(f), limit, false);
  }

  // ----- the whole run

  /** The fragments so far stand for the first peers, and for the part of the next one before the cursor. */
  ghost predicate Written(peers: seq<Peer>, fs: seq<Fragment>, peer: int, cursor: int) {
    && 0 <= peer <= |peers|
    && (cursor == NONE || (peer < |peers| && 0 <= cursor < |peers[peer].allowedIps|))
    && ContinuationsOk(fs) && NestsOk(fs)
    && Rejoined(fs) == peers[..peer] + CutOff(peers, peer, cursor)
    && (cursor == NONE || (fs != [] && Scalars(fs[|fs| - 1].p) == Scalars(peers[peer])))
  }

  function CutOff(peers: seq<Peer>, peer: int, cursor: int): (r: seq<Peer>)
    requires cursor == NONE || (0 <= peer < |peers| && 0 <= cursor <= |peers[peer].allowedIps|)
  {
    if cursor == NONE then [] else [peers[peer].(allowedIps := peers[peer].allowedIps[..cursor])]
  }

  lemma ContinuationsSnoc(fs: seq<Fragment>, f: Fragment)
    requires ContinuationsOk(fs) && NestsOk(fs) && (f.nest || f.p.allowedIps == [])
    requires f.first || (fs != [] && Scalars(f.p) == Scalars(fs[|fs| - 1].p) && f.p.allowedIps != [])
    ensures ContinuationsOk(fs + [f]) && NestsOk(fs + [f])
  {
  }

  /** The new fragment continues the one before it. */
  lemma WriteOneLinks(peers: seq<Peer>, fs: seq<Fragment>, peer: int, cursor: int, f: Fragment, upto: int)
    requires Written(peers, fs, peer, cursor) && peer < |peers| && CursorOk(peers[peer], cursor)
    requires IsPiece(f, peers[peer], cursor, upto) && (cursor == NONE || cursor < upto)
    ensures ContinuationsOk(fs + [f]) && NestsOk(fs + [f]) && Scalars(f.p) == Scalars(peers[peer])
  {
    hide Rejoined, ContinuationsOk, NestsOk;
    ContinuationsSnoc(fs, f);
  }

  /** It completes or extends the peer under the cursor. */
  lemma WriteOneRejoins(peers: seq<Peer>, fs: seq<Fragment>, peer: int, cursor: int, f: Fragment, upto: int)
    requires 0 <= peer < |peers| && CursorOk(peers[peer], cursor) && IsPiece(f, peers[peer], cursor, upto)
    requires Rejoined(fs) == peers[..peer] + CutOff(peers, peer, cursor)
    ensures Rejoined(fs + [f]) == peers[..peer] + CutOff(peers, peer, upto)
  {
    hide Rejoined;
    var p := peers[peer];
    RejoinSnoc(fs, f);
    if cursor != NONE {
      assert p.allowedIps[..cursor] + p.allowedIps[cursor..upto] == p.allowedIps[..upto];
      var r := Rejoined(fs);
      assert r[..|r| - 1] == peers[..peer];
    }
  }

  lemma WholePeer(peers: seq<Peer>, peer: int)
    requires 0 <= peer < |peers|
    ensures peers[..peer] + CutOff(peers, peer, |peers[peer].allowedIps|) == peers[..peer + 1]
  {
    assert peers[peer].allowedIps[..|peers[peer].allowedIps|] == peers[peer].allowedIps;
  }

  lemma WrittenNext(peers: seq<Peer>, fs: seq<Fragment>, peer: int, cursor: int, f: Fragment, upto: int)
    requires Written(peers, fs, peer, cursor) && peer < |peers| && CursorOk(peers[peer], cursor)
    requires IsPiece(f, peers[peer], cursor, upto) && (cursor == NONE || cursor < upto)
    ensures upto == |peers[peer].allowedIps| ==> Written(peers, fs + [f], peer + 1, NONE)
    ensures upto < |peers[peer].allowedIps| ==> Written(peers, fs + [f], peer, upto)
  {
    hide Rejoined, ContinuationsOk, NestsOk, IsPiece;
    WriteOneLinks(peers, fs, peer, cursor, f, upto);
    WriteOneRejoins(peers, fs, peer, cursor, f, upto);
    WholePeer(peers, peer);
    PieceEnds(f, peers[peer], cursor, upto);
    assert peers[..peer + 1] + [] == peers[..peer + 1];
  }

  lemma PieceEnds(f: Fragment, p: Peer, cursor: int, upto: int)
    requires CursorOk(p, cursor) && IsPiece(f, p, cursor, upto)
    ensures 0 <= Start(cursor) <= upto <= |p.allowedIps|
  {
  }

  // ----- the messages

  /** An unchecked put. */
  method PutFree(m: Message, rawType: u16, data: seq<u8>)
    requires m.Valid() && Sized(data) && m.len + |Attr(rawType, data)| <= m.buf.Length
    modifies m`len, m.buf
    ensures m.Valid() && m.Bytes() == old(m.Bytes()) + Attr(rawType, data)
  {
    hide Le16, Zeros;
    m.Put(rawType, data);
  }

  method PutPrivateKey(m: Message, dev: Device)
    requires m.Valid() && m.len + |PrivateKeyBytes(dev)| <= m.buf.Length
    modifies m`len, m.buf
    ensures m.Valid() && m.Bytes() == old(m.Bytes()) + PrivateKeyBytes(dev)
  {
    hide Attr;
    if dev.hasPrivateKey { PutFree(m, 3, dev.privateKey); }
  }

  method PutListenPort(m: Message, dev: Device)
    requires m.Valid() && m.len + |ListenPortBytes(dev)| <= m.buf.Length
    modifies m`len, m.buf
    ensures m.Valid() && m.Bytes() == old(m.Bytes()) + ListenPortBytes(dev)
  {
    hide Attr;
    if dev.hasListenPort { PutFree(m, 6, Le16(dev.listenPort)); }
  }

  method PutFwmark(m: Message, dev: Device)
    requires m.Valid() && m.len + |FwmarkBytes(dev)| <= m.buf.Length
    modifies m`len, m.buf
    ensures m.Valid() && m.Bytes() == old(m.Bytes()) + FwmarkBytes(dev)
  {
    hide Attr;
    if dev.hasFwmark { PutFree(m, 7, Le32(dev.fwmark)); }
  }

  method PutDeviceFlags(m: Message, dev: Device)
    requires m.Valid() && m.len + |DeviceFlagBytes(dev)| <= m.buf.Length
    modifies m`len, m.buf
    ensures m.Valid() && m.Bytes() == old(m.Bytes()) + DeviceFlagBytes(dev)
  {
    hide Attr;
    if dev.replacePeers { PutFree(m, 5, Le32(1)); }
  }

  /** The device's own attributes. */
  method PutDevice(m: Message, dev: Device)
    requires m.Valid() && m.len + 60 <= m.buf.Length
    modifies m`len, m.buf
    ensures m.Valid() && m.Bytes() == old(m.Bytes()) + DeviceBytes(dev)
  {
    hide PrivateKeyBytes, ListenPortBytes, FwmarkBytes, DeviceFlagBytes, Aligned;
    PutPrivateKey(m, dev);
    PutListenPort(m, dev);
    PutFwmark(m, dev);
    PutDeviceFlags(m, dev);
    assert m.Bytes() == old(m.Bytes()) + DeviceBytes(dev);
  }

  method PutOpening(m: Message, header: Header, dev: Device, first: bool)
    requires 100 <= m.buf.Length
    modifies m`len, m.buf
    ensures m.Valid() && m.Bytes() == Opening(header, dev, first)
  {
    hide Attr, DeviceBytes, Zeros;
    m.Prepare(header);
    PutFree(m, 2, dev.name + [0]);
    if first { PutDevice(m, dev); }
  }

  /** The peer loop of one message: every peer from the cursor on, until one does not fit. */
  method WritePeers(m: Message, limit: nat, peers: seq<Peer>, peer0: nat, cursor0: int, ghost before: seq<Fragment>)
    returns (peer: nat, cursor: int, ghost fs: seq<Fragment>)
    requires m.Valid() && m.len + 168 <= limit <= m.buf.Length && limit <= 0x2000
    requires peer0 < |peers| && Written(peers, before, peer0, cursor0)
    modifies m`len, m.buf
    ensures m.Valid() && m.len <= limit
    ensures AllFit(fs) && fs != [] && m.Bytes() == old(m.Bytes()) + FragmentsBytes(fs)
    ensures Written(peers, before + fs, peer, cursor)
    ensures peer0 < peer || (peer0 == peer && Start(cursor0) < cursor)
  {
    hide Attr, Written, FragmentBytes, FragmentFits, FragmentsBytes, IsPiece, Aligned;
    peer, cursor, fs := peer0, cursor0, [];
    NoFragments();
    assert before + [] == before && m.Bytes() + [] == m.Bytes();
    while peer < |peers|
      invariant m.Valid() && m.len <= limit && peer0 <= peer <= |peers|
      invariant AllFit(fs) && m.Bytes() == old(m.Bytes()) + FragmentsBytes(fs)
      invariant Written(peers, before + fs, peer, cursor)
      invariant if peer == peer0 then fs == [] && cursor == cursor0 && m.len == old(m.len) else fs != [] && cursor == NONE
    {
      WrittenCursor(peers, before + fs, peer, cursor);
      ghost var f;
      var outcome, next;
      outcome, next, f := WritePeer(m, limit, peers[peer], cursor);
      if outcome == TooBigPeers {
        return;
      }
      WrittenNext(peers, before + fs, peer, cursor, f, if outcome == Done then |peers[peer].allowedIps| else next);
      FragmentsSnoc(fs, f);
      assert before + fs + [f] == before + (fs + [f]);
      assert m.Bytes() == old(m.Bytes()) + FragmentsBytes(fs + [f]);
      fs := fs + [f];
      cursor := next;
      if outcome == TooBigAllowedIps {
        return;
      }
      peer := peer + 1;
    }
  }

  lemma WrittenCursor(peers: seq<Peer>, fs: seq<Fragment>, peer: int, cursor: int)
    requires Written(peers, fs, peer, cursor)
    ensures 0 <= peer <= |peers| && (peer < |peers| ==> CursorOk(peers[peer], cursor)) && (peer == |peers| ==> cursor == NONE)
  {
  }

  lemma FragmentsSnoc(fs: seq<Fragment>, f: Fragment)
    requires AllFit(fs) && FragmentFits(f)
    ensures AllFit(fs + [f]) && FragmentsBytes(fs + [f]) == FragmentsBytes(fs) + Attr(NESTED, FragmentBytes(f))
  {
    hide Attr, FragmentBytes, FragmentFits;
    assert (fs + [f])[..|fs|] == fs;
  }

  /** One message of `wg_set_device`, from the headers to the end of the peers nest. */
  method WriteMessage(m: Message, limit: nat, header: Header, dev: Device, first: bool, peer0: nat, cursor0: int,
                      ghost before: seq<Fragment>)
    returns (peer: nat, cursor: int, ghost fs: seq<Fragment>)
    requires 0x1000 <= limit <= 0x2000 && limit <= m.buf.Length
    requires Written(dev.peers, before, peer0, cursor0) && (dev.peers != [] ==> peer0 < |dev.peers|)
    modifies m`len, m.buf
    ensures m.Valid() && m.len <= limit && MessageFits(fs) && m.Bytes() == MessageBytes(header, dev, first, fs)
    ensures Written(dev.peers, before + fs, peer, cursor)
    ensures dev.peers != [] ==> fs != [] && (peer0 < peer || (peer0 == peer && Start(cursor0) < cursor))
  {
    hide Attr, Written, Opening, FragmentsBytes, FragmentFits, Nesting, Aligned, Zeros;
    PutOpening(m, header, dev, first);
    ghost var opening := m.Bytes();
    peer, cursor, fs := peer0, cursor0, [];
    if dev.peers == [] {
      assert before + [] == before;
      NoFragments();
      return;
    }
    var nest := m.NestStart(8);
    ghost var inside := m.Bytes();
    NestingLength(inside, opening, 8, []);
    peer, cursor, fs := WritePeers(m, limit, dev.peers, peer0, cursor0, before);
    FragmentsAligned(fs);
    AlignedEmpty();
    assert [] + FragmentsBytes(fs) == FragmentsBytes(fs);
    CloseNest(m, nest, opening, 8, inside, [], FragmentsBytes(fs), limit, false);
  }

  lemma NoFragments()
    ensures MessageFits([]) && FragmentsBytes([]) == []
  {
  }

  /** The fragments of all messages, in order. */
  ghost function Flat(plan: seq<seq<Fragment>>): seq<Fragment> {
    if plan == [] then [] else Flat(plan[..|plan| - 1]) + plan[|plan| - 1]
  }

  lemma FlatSnoc(plan: seq<seq<Fragment>>, fs: seq<Fragment>)
    ensures Flat(plan + [fs]) == Flat(plan) + fs
  {
    assert (plan + [fs])[..|plan|] == plan;
  }

  /** The messages sent are the encodings of the planned fragments, each within the buffer, and only the
      first carries the device's own attributes. */
  ghost predicate Carries(sent: seq<seq<u8>>, plan: seq<seq<Fragment>>, headers: nat -> Header, dev: Device, limit: nat) {
    && |sent| == |plan|
    && forall i :: 0 <= i < |sent| ==>
         MessageFits(plan[i]) && sent[i] == MessageBytes(headers(i), dev, i == 0, plan[i]) && |sent[i]| <= limit
  }

  lemma CarriesSnoc(sent: seq<seq<u8>>, plan: seq<seq<Fragment>>, headers: nat -> Header, dev: Device, limit: nat,
                    message: seq<u8>, fs: seq<Fragment>)
    requires Carries(sent, plan, headers, dev, limit) && MessageFits(fs) && |message| <= limit
    requires message == MessageBytes(headers(|sent|), dev, |sent| == 0, fs)
    ensures Carries(sent + [message], plan + [fs], headers, dev, limit)
  {
    hide MessageBytes, MessageFits;
  }

  /** `wg_set_device`: for every device and every buffer of one page to 8192 bytes, finitely many messages
      within the buffer whose fragments rejoin to exactly the device's peers. */
  method SetDevice(headers: nat -> Header, dev: Device, limit: nat) returns (sent: seq<seq<u8>>, ghost plan: seq<seq<Fragment>>)
    requires 0x1000 <= limit <= 0x2000
    ensures |sent| >= 1 && Carries(sent, plan, headers, dev, limit)
    ensures Rejoined(Flat(plan)) == dev.peers
    ensures ContinuationsOk(Flat(plan)) && NestsOk(Flat(plan))
  {
    hide Carries, MessageFits, MessageBytes, Flat, Written;
    var m := new Message(limit);
    var peer, cursor, again := 0, NONE, true;
    sent, plan := [], [];
    NothingWritten(headers, dev, limit);
    while again
      invariant m.buf.Length == limit && fresh(m.buf) && fresh(m)
      invariant Carries(sent, plan, headers, dev, limit) && Written(dev.peers, Flat(plan), peer, cursor)
      invariant again <==> (sent == [] || peer < |dev.peers|)
      invariant 0 <= peer <= |dev.peers| && (sent == [] ==> peer == 0)
      decreases again, |dev.peers| - peer, if peer < |dev.peers| then |dev.peers[peer].allowedIps| - Start(cursor) else 0
    {
      WrittenCursor(dev.peers, Flat(plan), peer, cursor);
      ghost var fs;
      peer, cursor, fs := WriteMessage(m, limit, headers(|sent|), dev, sent == [], peer, cursor, Flat(plan));
      CarriesSnoc(sent, plan, headers, dev, limit, m.buf[..m.len], fs);
      FlatSnoc(plan, fs);
      sent, plan := sent + [m.buf[..m.len]], plan + [fs];
      WrittenCursor(dev.peers, Flat(plan), peer, cursor);
      again := peer < |dev.peers|;
    }
    AllWritten(dev.peers, Flat(plan), cursor);
  }

  lemma NothingWritten(headers: nat -> Header, dev: Device, limit: nat)
    ensures Carries([], [], headers, dev, limit) && Written(dev.peers, Flat([]), 0, NONE)
  {
  }

  lemma AllWritten(peers: seq<Peer>, fs: seq<Fragment>, cursor: int)
    requires Written(peers, fs, |peers|, cursor)
    ensures Rejoined(fs) == peers && ContinuationsOk(fs) && NestsOk(fs)
  {
    assert peers[..|peers|] + [] == peers;
  }
}
