/** `kernel_set_device`: the same cursors over peers and allowed IPs as `wg_set_device`, with size checks whose
    outcomes are left open here.  Whatever they say, nothing is lost, repeated or reordered. */
module KernelWriter {
  import opened Bytes
  import opened Device
  import opened DeviceWriter
  import opened Coalesce
  import opened DeviceReader
  import opened RoundTrip

  /** The peer and allowed-IP cursors; peer is |peers| once the list is exhausted. */
  datatype Cursor = Cursor(peer: nat, ip: int)

  /** What the size checks let one pass of the peer loop do. */
  datatype Outcome = Whole | CutAt(upto: nat, nest: bool) | NoRoom

  predicate CursorValid(peers: seq<Peer>, c: Cursor) {
    c.peer <= |peers| && (if c.peer < |peers| then CursorOk(peers[c.peer], c.ip) else c.ip == NONE)
  }

  /** A cut leaves at least one allowed IP for later, and writes some only inside a nest. */
  predicate Possible(peers: seq<Peer>, c: Cursor, o: Outcome) {
    && CursorValid(peers, c) && c.peer < |peers|
    && (o.CutAt? ==> Start(c.ip) <= o.upto < |peers[c.peer].allowedIps| && (o.nest || o.upto == Start(c.ip)))
  }

  function Next(peers: seq<Peer>, c: Cursor, o: Outcome): (r: Cursor)
    requires Possible(peers, c, o)
    ensures CursorValid(peers, r)
  {
    match o
    case Whole => Cursor(c.peer + 1, NONE)
    case CutAt(upto, _) => Cursor(c.peer, upto)
    case NoRoom => c
  }

  function Emitted(peers: seq<Peer>, c: Cursor, o: Outcome): seq<Fragment>
    requires Possible(peers, c, o)
  {
    var p := peers[c.peer];
    match o
    case Whole => [PieceOf(p, c.ip, |p.allowedIps|, p.allowedIps != [])]
    case CutAt(upto, nest) => [PieceOf(p, c.ip, upto, nest)]
    case NoRoom => []
  }

  /** Where a run of the loop stands, and the fragments sent so far over all messages. */
  datatype Run = Run(cursor: Cursor, sent: seq<Fragment>)

  function Begin(): Run { Run(Cursor(0, NONE), []) }

  function Take(peers: seq<Peer>, r: Run, o: Outcome): Run
    requires Possible(peers, r.cursor, o)
  {
    Run(Next(peers, r.cursor, o), r.sent + Emitted(peers, r.cursor, o))
  }

  /** rs are the states that the outcomes os lead through, each outcome possible where it happens. */
  ghost predicate Behaviour(peers: seq<Peer>, os: seq<Outcome>, rs: seq<Run>) {
    && |rs| == |os| + 1 && rs[0] == Begin()
    && forall i :: 0 <= i < |os| ==> Possible(peers, rs[i].cursor, os[i]) && rs[i + 1] == Take(peers, rs[i], os[i])
  }

  /** A continuation repeats its peer's key, and every fragment with allowed IPs has them in a nest. */
  predicate Linked(fs: seq<Fragment>) {
    && (forall i :: 0 <= i < |fs| && !fs[i].first ==> i > 0 && Scalars(fs[i].p) == Scalars(fs[i - 1].p))
    && forall i :: 0 <= i < |fs| ==> fs[i].nest || fs[i].p.allowedIps == []
  }

  /** What has been sent is the peers before the cursor and the allowed IPs before the inner one. */
  ghost predicate Covers(peers: seq<Peer>, r: Run) {
    var c := r.cursor;
    && CursorValid(peers, c)
    && Rejoined(r.sent) == peers[..c.peer] + CutOff(peers, c.peer, c.ip)
    && Linked(r.sent)
    && (c.ip != NONE ==> r.sent != [] && Scalars(r.sent[|r.sent| - 1].p) == Scalars(peers[c.peer]))
  }

  lemma LinkedSnoc(fs: seq<Fragment>, f: Fragment)
    requires Linked(fs) && (f.nest || f.p.allowedIps == [])
    requires f.first || (fs != [] && Scalars(f.p) == Scalars(fs[|fs| - 1].p))
    ensures Linked(fs + [f])
  {
    hide Scalars;
  }

  /** One fragment continues the peer under the cursor up to upto. */
  lemma OnePiece(peers: seq<Peer>, r: Run, upto: nat, nest: bool)
    requires Covers(peers, r) && r.cursor.peer < |peers|
    requires Start(r.cursor.ip) <= upto <= |peers[r.cursor.peer].allowedIps| && (nest || upto == Start(r.cursor.ip))
    ensures var f := PieceOf(peers[r.cursor.peer], r.cursor.ip, upto, nest);
            && Linked(r.sent + [f]) && Scalars(f.p) == Scalars(peers[r.cursor.peer])
            && Rejoined(r.sent + [f]) == peers[..r.cursor.peer] + CutOff(peers, r.cursor.peer, upto)
  {
    hide Rejoined, Linked;
    var c, p := r.cursor, peers[r.cursor.peer];
    var f := PieceOf(p, c.ip, upto, nest);
    LinkedSnoc(r.sent, f);
    RejoinSnoc(r.sent, f);
    if c.ip != NONE {
      assert p.allowedIps[..c.ip] + p.allowedIps[c.ip..upto] == p.allowedIps[..upto];
      var all := Rejoined(r.sent);
      assert all[..|all| - 1] == peers[..c.peer];
    }
  }

  lemma TakeCovers(peers: seq<Peer>, r: Run, o: Outcome)
    requires Covers(peers, r) && Possible(peers, r.cursor, o)
    ensures Covers(peers, Take(peers, r, o))
  {
    hide Rejoined, Linked, PieceOf, CutOff, Scalars;
    var c := r.cursor;
    match o
    case Whole =>
      var p := peers[c.peer];
      OnePiece(peers, r, |p.allowedIps|, p.allowedIps != []);
      WholePeer(peers, c.peer);
      NoCut(peers, c.peer + 1);
    case CutAt(upto, nest) =>
      OnePiece(peers, r, upto, nest);
    case NoRoom =>
      assert r.sent + [] == r.sent;
  }

  lemma NoCut(peers: seq<Peer>, k: nat)
    requires k <= |peers|
    ensures peers[..k] + CutOff(peers, k, NONE) == peers[..k]
  {
  }

  /** Every reachable state covers exactly what lies before its cursors. */
  lemma {:induction false} EveryRunCovers(peers: seq<Peer>, os: seq<Outcome>, rs: seq<Run>, n: nat)
    requires Behaviour(peers, os, rs) && n < |rs|
    ensures Covers(peers, rs[n])
  {
    hide Covers, Take;
    if n == 0 {
      BeginCovers(peers);
    } else {
      EveryRunCovers(peers, os, rs, n - 1);
      assert rs[n - 1 + 1] == Take(peers, rs[n - 1], os[n - 1]);
      TakeCovers(peers, rs[n - 1], os[n - 1]);
    }
  }

  lemma BeginCovers(peers: seq<Peer>)
    ensures Covers(peers, Begin())
  {
  }

  /** When the loop has run out of peers, the fragments rejoin to all of them, whatever the checks said. */
  lemma FinishedRunsAreComplete(peers: seq<Peer>, os: seq<Outcome>, rs: seq<Run>, n: nat)
    requires Behaviour(peers, os, rs) && n < |rs| && rs[n].cursor.peer == |peers|
    ensures Rejoined(rs[n].sent) == peers && Linked(rs[n].sent)
  {
    hide Rejoined, Linked, Behaviour;
    EveryRunCovers(peers, os, rs, n);
    assert peers[..|peers|] + [] == peers;
  }

  // ----- what the reader makes of the fragments

  lemma {:induction false} SeenTails(fs: seq<Fragment>)
    ensures TailsOk(SeenAll(fs))
  {
    hide SeenFragment, SeenHead;
    if fs != [] {
      SeenTails(fs[..|fs| - 1]);
      SeenHeads(fs[|fs| - 1]);
    }
  }

  /** The peer under the cursor as it has been merged so far; its tail is that of the fragment sent last. */
  function Partly(peers: seq<Peer>, c: Cursor, tail: bool): seq<Parsed>
    requires CursorValid(peers, c)
  {
    if c.ip == NONE then []
    else [Seen(peers[c.peer].(allowedIps := peers[c.peer].allowedIps[..c.ip])).(tail := tail)]
  }

  predicate LastTail(fs: seq<Fragment>) { fs != [] && fs[|fs| - 1].p.allowedIps != [] }

  /** Without a gap, what has been sent coalesces to the finished peers and the part of the one under the cursor. */
  ghost predicate Reads(peers: seq<Peer>, r: Run) {
    && CursorValid(peers, r.cursor)
    && (HasGap(SeenAll(r.sent)) ||
        Coalesced(SeenAll(r.sent)) == Merged(SeenPeers(peers[..r.cursor.peer]) + Partly(peers, r.cursor, LastTail(r.sent))))
  }

  lemma SentSnoc(fs: seq<Fragment>, f: Fragment)
    ensures SeenAll(fs + [f]) == SeenAll(fs) + [SeenFragment(f)] && LastTail(fs + [f]) == (f.p.allowedIps != [])
  {
    hide SeenFragment;
    SeenAllSnoc(fs, f);
  }

  /** Absorbing the next fragment of the peer under the cursor. */
  lemma AbsorbPiece(peers: seq<Peer>, r: Run, upto: nat, nest: bool)
    requires Reads(peers, r) && r.cursor.peer < |peers| && DistinctNeighbours(peers)
    requires Start(r.cursor.ip) <= upto <= |peers[r.cursor.peer].allowedIps|
    ensures var p := peers[r.cursor.peer];
            var f := PieceOf(p, r.cursor.ip, upto, nest);
            HasGap(SeenAll(r.sent + [f])) || Coalesced(SeenAll(r.sent + [f]))
              == Merged(SeenPeers(peers[..r.cursor.peer]) + [Seen(p.(allowedIps := p.allowedIps[..upto])).(tail := LastTail(r.sent + [f]))])
  {
    hide SeenAll, SeenFragment, Seen, Coalesced, HasGap, TailsOk, SeenPeers, LastTail, SeenHead;
    var c, p := r.cursor, peers[r.cursor.peer];
    var f := PieceOf(p, c.ip, upto, nest);
    var was := SeenAll(r.sent);
    SentSnoc(r.sent, f);
    SeenTails(r.sent + [f]);
    CrashesExactlyOnGaps(was + [SeenFragment(f)]);
    GapSnoc(was, SeenFragment(f));
    CoalescedSnoc(was, SeenFragment(f));
    if !HasGap(was + [SeenFragment(f)]) {
      var done := Coalesced(was).peers;
      if c.ip == NONE {
        FirstPiece(p, upto, nest);
        FinishedLast(peers, c.peer);
        assert done == SeenPeers(peers[..c.peer]);
      } else {
        NextPiece(p, c.ip, upto, nest, LastTail(r.sent));
        assert done == SeenPeers(peers[..c.peer]) + [Seen(p.(allowedIps := p.allowedIps[..c.ip])).(tail := LastTail(r.sent))];
      }
    }
  }

  lemma FirstPiece(p: Peer, upto: nat, nest: bool)
    requires upto <= |p.allowedIps|
    ensures var f := PieceOf(p, NONE, upto, nest);
            && SeenFragment(f) == Seen(p.(allowedIps := p.allowedIps[..upto])).(tail := f.p.allowedIps != [])
            && SeenFragment(f).publicKey == p.publicKey
  {
    hide IsZero, SeenEndpoint, Zeros;
  }

  lemma NextPiece(p: Peer, ip: nat, upto: nat, nest: bool, tail: bool)
    requires ip < |p.allowedIps| && ip <= upto <= |p.allowedIps|
    ensures var f := PieceOf(p, ip, upto, nest);
            var last := Seen(p.(allowedIps := p.allowedIps[..ip])).(tail := tail);
            && last.publicKey == SeenFragment(f).publicKey
            && Merge(last, SeenFragment(f)) == Seen(p.(allowedIps := p.allowedIps[..upto])).(tail := f.p.allowedIps != [])
  {
    hide IsZero, SeenEndpoint, Zeros;
    assert p.allowedIps[..ip] + p.allowedIps[ip..upto] == p.allowedIps[..upto];
  }

  lemma FinishedLast(peers: seq<Peer>, k: nat)
    requires k < |peers| && DistinctNeighbours(peers)
    ensures var done := SeenPeers(peers[..k]); done != [] ==> done[|done| - 1].publicKey != peers[k].publicKey
  {
    hide Seen;
    SeenPeersAt(peers[..k]);
    if k > 0 { SeenFacts(peers[k - 1]); }
  }

  lemma TakeReads(peers: seq<Peer>, r: Run, o: Outcome)
    requires Reads(peers, r) && Possible(peers, r.cursor, o) && DistinctNeighbours(peers)
    ensures Reads(peers, Take(peers, r, o))
  {
    hide SeenAll, Seen, Coalesced, HasGap, SeenPeers, PieceOf, DistinctNeighbours;
    var c, p := r.cursor, peers[r.cursor.peer];
    match o
    case Whole =>
      AbsorbPiece(peers, r, |p.allowedIps|, p.allowedIps != []);
      WholeSeen(peers, c, r.sent);
    case CutAt(upto, nest) =>
      AbsorbPiece(peers, r, upto, nest);
    case NoRoom =>
      assert r.sent + [] == r.sent;
  }

  lemma WholeSeen(peers: seq<Peer>, c: Cursor, sent: seq<Fragment>)
    requires CursorValid(peers, c) && c.peer < |peers|
    ensures var p := peers[c.peer];
            var f := PieceOf(p, c.ip, |p.allowedIps|, p.allowedIps != []);
            && SeenPeers(peers[..c.peer]) + [Seen(p.(allowedIps := p.allowedIps[..|p.allowedIps|])).(tail := f.p.allowedIps != [])]
               == SeenPeers(peers[..c.peer + 1])
            && LastTail(sent + [f]) == (f.p.allowedIps != [])
  {
    hide IsZero, SeenEndpoint, Zeros;
    var p := peers[c.peer];
    assert p.allowedIps[..|p.allowedIps|] == p.allowedIps && peers[..c.peer + 1] == peers[..c.peer] + [p];
    SeenPeersSnoc(peers[..c.peer], p);
  }

  lemma {:induction false} EveryRunReads(peers: seq<Peer>, os: seq<Outcome>, rs: seq<Run>, n: nat)
    requires Behaviour(peers, os, rs) && n < |rs| && DistinctNeighbours(peers)
    ensures Reads(peers, rs[n])
  {
    hide Reads, Take, DistinctNeighbours;
    if n == 0 {
      BeginReads(peers);
    } else {
      EveryRunReads(peers, os, rs, n - 1);
      assert rs[n - 1 + 1] == Take(peers, rs[n - 1], os[n - 1]);
      TakeReads(peers, rs[n - 1], os[n - 1]);
    }
  }

  lemma BeginReads(peers: seq<Peer>)
    ensures Reads(peers, Begin())
  {
  }

  /** Coalescing what any run has sent follows a null pointer exactly if the fragments have a gap. */
  lemma RunsCrashOnGaps(peers: seq<Peer>, os: seq<Outcome>, rs: seq<Run>, n: nat)
    requires Behaviour(peers, os, rs) && n < |rs|
    ensures Coalesced(SeenAll(rs[n].sent)) == NullDereference <==> HasGap(SeenAll(rs[n].sent))
  {
    hide Behaviour, Coalesced, HasGap, SeenAll;
    SeenTails(rs[n].sent);
    CrashesExactlyOnGaps(SeenAll(rs[n].sent));
  }

  /** A finished run without a gap is read back as the device's peers, exactly when no two neighbours share a key. */
  lemma FinishedRunsReadBack(peers: seq<Peer>, os: seq<Outcome>, rs: seq<Run>, n: nat)
    requires Behaviour(peers, os, rs) && n < |rs| && rs[n].cursor.peer == |peers| && !HasGap(SeenAll(rs[n].sent))
    ensures Coalesced(SeenAll(rs[n].sent)) == Merged(SeenPeers(peers)) <==> DistinctNeighbours(peers)
  {
    hide Behaviour, Coalesced, HasGap, SeenAll, SeenPeers, DistinctNeighbours;
    if DistinctNeighbours(peers) {
      EveryRunReads(peers, os, rs, n);
      assert peers[..|peers|] == peers && SeenPeers(peers) + [] == SeenPeers(peers);
    }
    if Coalesced(SeenAll(rs[n].sent)) == Merged(SeenPeers(peers)) {
      RepeatsMerge(SeenAll(rs[n].sent), peers);
    }
  }
}
