/** `coalesce_peers`: merging adjacent peers with the same public key. The kernel splits a peer with many
    allowed IPs, and the reader glues the pieces together again by relinking the two lists. */
module Coalesce {
  import opened Bits
  import opened Bytes
  import opened Device

  /** A peer as the reader builds it; tail says whether its last_allowedip pointer is non-null. */
  datatype Parsed = Parsed(hasPublicKey: bool, publicKey: Key, hasPresharedKey: bool, presharedKey: Key,
                           endpoint: Endpoint, keepalive: u16, allowedIps: seq<AllowedIp>, tail: bool)

  datatype Outcome = Merged(peers: seq<Parsed>) | NullDereference

  predicate TailOk(p: Parsed) { p.tail == (p.allowedIps != []) }

  /** After parsing, the pointer to the last allowed IP is set exactly when there is one. */
  predicate TailsOk(ps: seq<Parsed>) {
    forall i :: 0 <= i < |ps| ==> ps[i].tail == (ps[i].allowedIps != [])
  }

  predicate CanMerge(a: Parsed) { a.allowedIps == [] || a.tail }

  function Merge(a: Parsed, b: Parsed): Parsed {
    a.(allowedIps := a.allowedIps + b.allowedIps, tail := b.tail)
  }

  function Coalesced(ps: seq<Parsed>): Outcome {
    if ps == [] then Merged([])
    else match Coalesced(ps[..|ps| - 1])
      case NullDereference => NullDereference
      case Merged(done) => Absorb(done, ps[|ps| - 1])
  }

  /** The next peer joins the last one when the keys agree. */
  function Absorb(done: seq<Parsed>, p: Parsed): Outcome {
    if done == [] || done[|done| - 1].publicKey != p.publicKey then Merged(done + [p])
    else if CanMerge(done[|done| - 1]) then Merged(done[..|done| - 1] + [Merge(done[|done| - 1], p)])
    else NullDereference
  }

  lemma CoalescedSnoc(ps: seq<Parsed>, p: Parsed)
    ensures Coalesced(ps + [p])
         == match Coalesced(ps) case NullDereference => NullDereference case Merged(done) => Absorb(done, p)
  {
    assert (ps + [p])[..|ps|] == ps;
  }

  lemma {:induction false} CoalescedPrefix(ps: seq<Parsed>, n: nat)
    requires n <= |ps| && Coalesced(ps[..n]).NullDereference?
    ensures Coalesced(ps).NullDereference?
    decreases |ps|
  {
    if n < |ps| {
      assert ps[..|ps| - 1][..n] == ps[..n];
      CoalescedPrefix(ps[..|ps| - 1], n);
    } else {
      assert ps[..n] == ps;
    }
  }

  lemma CoalescedNext(ps: seq<Parsed>, k: nat)
    requires k < |ps| && Coalesced(ps[..k]).Merged?
    ensures Coalesced(ps[..k + 1]) == Absorb(Coalesced(ps[..k]).peers, ps[k])
    ensures Absorb(Coalesced(ps[..k]).peers, ps[k]).NullDereference? ==> Coalesced(ps).NullDereference?
    ensures ps[k..] == [ps[k]] + ps[k + 1..]
  {
    hide Absorb, Coalesced;
    assert ps[..k + 1] == ps[..k] + [ps[k]];
    CoalescedSnoc(ps[..k], ps[k]);
    if Coalesced(ps[..k + 1]).NullDereference? { CoalescedPrefix(ps, k + 1); }
  }

  lemma CoalescedEnds(ps: seq<Parsed>)
    ensures ps == [] ==> Coalesced(ps) == Merged([])
    ensures ps != [] ==> Coalesced(ps[..1]) == Merged([ps[0]]) && [ps[0]] + ps[1..] == ps
    ensures ps[..|ps|] == ps
  {
    if ps != [] { assert ps[..1] == [ps[0]]; }
  }

  /** `coalesce_peers` on the list of peers: the loop stays on a peer while it absorbs its successors. */
  method CoalescePeers(ps: seq<Parsed>) returns (out: Outcome)
    ensures out == Coalesced(ps)
  {
    hide Coalesced, Merge, CanMerge, Absorb;
    CoalescedEnds(ps);
    if ps == [] {
      return Merged([]);
    }
    var peers, peer := ps, 0;
    ghost var done, taken := [ps[0]], 1;
    while peer + 1 < |peers|
      invariant 1 <= taken <= |ps| && peer == |done| - 1
      invariant peers == done + ps[taken..] && Coalesced(ps[..taken]) == Merged(done)
      decreases |peers| - peer
    {
      ghost var q := ps[taken];
      CoalescedNext(ps, taken);
      Absorption(done, q);
      assert peers[peer] == done[peer] && peers[peer + 1] == q && peers[peer + 2..] == ps[taken + 1..];
      taken := taken + 1;
      if peers[peer].publicKey != peers[peer + 1].publicKey {
        done := done + [q];
        peer := peer + 1;
      } else if !CanMerge(peers[peer]) {
        return NullDereference;
      } else {
        done := done[..peer] + [Merge(done[peer], q)];
        peers := peers[..peer] + [Merge(peers[peer], peers[peer + 1])] + peers[peer + 2..];
      }
    }
    return Merged(peers);
  }

  lemma Absorption(done: seq<Parsed>, p: Parsed)
    requires done != []
    ensures var last := done[|done| - 1];
            Absorb(done, p) == if last.publicKey != p.publicKey then Merged(done + [p])
                               else if CanMerge(last) then Merged(done[..|done| - 1] + [Merge(last, p)]) else NullDereference
  {
  }

  // ----- when the source dereferences a null pointer

  /** A peer with allowed IPs, then one without, then any third, all with one key. */
  predicate Gap(ps: seq<Parsed>, j: int) {
    && 0 < j < |ps| - 1
    && ps[j - 1].publicKey == ps[j].publicKey == ps[j + 1].publicKey
    && ps[j - 1].allowedIps != [] && ps[j].allowedIps == []
  }

  ghost predicate HasGap(ps: seq<Parsed>) { exists j :: Gap(ps, j) }

  lemma GapSnoc(ps: seq<Parsed>, p: Parsed)
    ensures HasGap(ps + [p]) <==> HasGap(ps) || Gap(ps + [p], |ps| - 1)
  {
    if HasGap(ps) {
      var j :| Gap(ps, j);
      assert Gap(ps + [p], j);
    }
    if HasGap(ps + [p]) {
      var j :| Gap(ps + [p], j);
      assert j == |ps| - 1 || Gap(ps, j);
    }
  }

  /** What the last merged peer says about the last peer read. */
  ghost predicate Last(ps: seq<Parsed>, done: seq<Parsed>) {
    ps != [] ==>
      && done != []
      && done[|done| - 1].publicKey == ps[|ps| - 1].publicKey
      && (done[|done| - 1].tail <==> ps[|ps| - 1].allowedIps != [])
      && (CanMerge(done[|done| - 1]) <==> !Gap(ps + [ps[|ps| - 1]], |ps| - 1))
      && (done[|done| - 1].allowedIps == [] ==> ps[|ps| - 1].allowedIps == [])
  }

  lemma {:induction false} CoalescedFacts(ps: seq<Parsed>)
    requires TailsOk(ps)
    ensures Coalesced(ps).NullDereference? <==> HasGap(ps)
    ensures Coalesced(ps).Merged? ==> Last(ps, Coalesced(ps).peers)
  {
    if ps != [] {
      var pre, p := ps[..|ps| - 1], ps[|ps| - 1];
      assert ps == pre + [p];
      CoalescedFacts(pre);
      CoalescedSnoc(pre, p);
      GapSnoc(pre, p);
      if pre != [] && Coalesced(pre).Merged? {
        assert Gap(pre + [pre[|pre| - 1]], |pre| - 1) && p.publicKey == pre[|pre| - 1].publicKey
          <==> Gap(ps, |pre| - 1);
      }
    }
  }

  /** The loop follows a null pointer exactly when an empty piece sits between two others of its peer. */
  lemma CrashesExactlyOnGaps(ps: seq<Parsed>)
    requires TailsOk(ps)
    ensures Coalesced(ps) == NullDereference <==> HasGap(ps)
  {
    CoalescedFacts(ps);
  }

  // ----- what it keeps otherwise

  function Tagged(key: Key, ips: seq<AllowedIp>): (r: seq<(Key, AllowedIp)>) {
    if ips == [] then [] else Tagged(key, ips[..|ips| - 1]) + [(key, ips[|ips| - 1])]
  }

  /** Every allowed IP with the key of its peer, in order. */
  function Pairs(ps: seq<Parsed>): seq<(Key, AllowedIp)> {
    if ps == [] then [] else Pairs(ps[..|ps| - 1]) + Tagged(ps[|ps| - 1].publicKey, ps[|ps| - 1].allowedIps)
  }

  lemma {:induction false} TaggedConcat(key: Key, a: seq<AllowedIp>, b: seq<AllowedIp>)
    ensures Tagged(key, a + b) == Tagged(key, a) + Tagged(key, b)
  {
    if b == [] {
      assert a + b == a;
    } else {
      TaggedConcat(key, a, b[..|b| - 1]);
      assert (a + b)[..|a + b| - 1] == a + b[..|b| - 1];
    }
  }

  lemma PairsSnoc(ps: seq<Parsed>, p: Parsed)
    ensures Pairs(ps + [p]) == Pairs(ps) + Tagged(p.publicKey, p.allowedIps)
  {
    assert (ps + [p])[..|ps|] == ps;
  }

  predicate NoRepeats(ps: seq<Parsed>) {
    forall i :: 0 < i < |ps| ==> ps[i - 1].publicKey != ps[i].publicKey
  }

  lemma AbsorbKeeps(done: seq<Parsed>, p: Parsed)
    requires NoRepeats(done) && Absorb(done, p).Merged?
    ensures NoRepeats(Absorb(done, p).peers) && Pairs(Absorb(done, p).peers) == Pairs(done) + Tagged(p.publicKey, p.allowedIps)
  {
    hide Pairs, Tagged;
    PairsSnoc(done, p);
    if done != [] && done[|done| - 1].publicKey == p.publicKey {
      var init, last := done[..|done| - 1], done[|done| - 1];
      assert done == init + [last];
      PairsSnoc(init, last);
      PairsSnoc(init, Merge(last, p));
      TaggedConcat(p.publicKey, last.allowedIps, p.allowedIps);
    }
  }

  /** No allowed IP is lost, repeated, reordered or given to another key, and no two neighbours share a key. */
  lemma {:induction false} CoalescingConserves(ps: seq<Parsed>)
    ensures Coalesced(ps).Merged? ==> NoRepeats(Coalesced(ps).peers) && Pairs(Coalesced(ps).peers) == Pairs(ps)
  {
    hide Absorb, Tagged;
    if ps != [] {
      CoalescingConserves(ps[..|ps| - 1]);
      if Coalesced(ps).Merged? {
        AbsorbKeeps(Coalesced(ps[..|ps| - 1]).peers, ps[|ps| - 1]);
      }
    }
  }
}
