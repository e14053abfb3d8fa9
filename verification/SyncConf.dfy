/** `sync_conf`: turning a configuration file into a change of the running device that leaves exactly the
    file's peers. */
module SyncConf {
  import opened Bits
  import opened Bytes
  import opened Sorting

  /** A peer of a configuration; settings stands for everything but the key and the removal flag. */
  datatype ConfPeer = ConfPeer(publicKey: Key, removeMe: bool, settings: seq<u8>)

  datatype Origin = Origin(key: Key, fromFile: bool)

  // ----- the order of pubkey_cmp

  /** memcmp(a, b) <= 0 for strings of one length */
  predicate LexLe(a: seq<u8>, b: seq<u8>) {
    a == [] || (b != [] && if a[0] != b[0] then a[0] < b[0] else LexLe(a[1..], b[1..]))
  }

  predicate OriginLe(x: Origin, y: Origin) {
    if x.key != y.key then LexLe(x.key, y.key) else !x.fromFile || y.fromFile
  }

  lemma {:induction false} LexTotal(a: seq<u8>, b: seq<u8>)
    requires |a| == |b|
    ensures LexLe(a, b) || LexLe(b, a)
    ensures LexLe(a, b) && LexLe(b, a) ==> a == b
  {
    if a != [] {
      LexTotal(a[1..], b[1..]);
      assert a == [a[0]] + a[1..] && b == [b[0]] + b[1..];
    }
  }

  lemma {:induction false} LexTransitive(a: seq<u8>, b: seq<u8>, c: seq<u8>)
    requires |a| == |b| == |c| && LexLe(a, b) && LexLe(b, c)
    ensures LexLe(a, c)
  {
    if a != [] && a[0] == b[0] && b[0] == c[0] { LexTransitive(a[1..], b[1..], c[1..]); }
  }

  lemma OriginTotal()
    ensures Total(OriginLe)
  {
    hide LexLe;
    forall x: Origin, y: Origin ensures OriginLe(x, y) || OriginLe(y, x) { LexTotal(x.key, y.key); }
    forall x: Origin, y: Origin, z: Origin | OriginLe(x, y) && OriginLe(y, z) ensures OriginLe(x, z) {
      OriginTransitive(x, y, z);
    }
  }

  lemma OriginTransitive(x: Origin, y: Origin, z: Origin)
    requires OriginLe(x, y) && OriginLe(y, z)
    ensures OriginLe(x, z)
  {
    hide LexLe;
    LexTotal(x.key, y.key);
    if x.key != y.key && y.key != z.key {
      LexTransitive(x.key, y.key, z.key);
      LexTotal(y.key, z.key);
    }
  }

  // ----- the scan

  /** The i-th key is a runtime key that is not directly followed by itself from the file. */
  predicate Marks(s: seq<Origin>, i: nat)
    requires i < |s|
  {
    !s[i].fromFile && (i == |s| - 1 || !s[i + 1].fromFile || s[i].key != s[i + 1].key)
  }

  /** The keys the scan removes. */
  function Removed(s: seq<Origin>): seq<Key> {
    if s == [] then [] else (if Marks(s, 0) then [s[0].key] else []) + Removed(s[1..])
  }

  function Count(s: seq<Origin>, o: Origin): nat {
    if s == [] then 0 else (if s[0] == o then 1 else 0) + Count(s[1..], o)
  }

  function CountKey(s: seq<Key>, k: Key): nat {
    if s == [] then 0 else (if s[0] == k then 1 else 0) + CountKey(s[1..], k)
  }

  lemma {:induction false} CountNone(s: seq<Origin>, o: Origin)
    requires o !in s
    ensures Count(s, o) == 0
  {
    if s != [] { CountNone(s[1..], o); }
  }

  lemma {:induction false} CountSome(s: seq<Origin>, o: Origin)
    requires o in s
    ensures Count(s, o) > 0
  {
    if s[0] != o { CountSome(s[1..], o); }
  }

  lemma {:induction false} CountKeyConcat(a: seq<Key>, b: seq<Key>, k: Key)
    ensures CountKey(a + b, k) == CountKey(a, k) + CountKey(b, k)
  {
    if a == [] {
      assert a + b == b;
    } else {
      CountKeyConcat(a[1..], b, k);
      assert (a + b)[1..] == a[1..] + b;
    }
  }

  /** In a sorted list nothing smaller follows. */
  lemma NothingSmaller(s: seq<Origin>, o: Origin)
    requires s != [] && Sorted(s, OriginLe) && !OriginLe(s[0], o)
    ensures o !in s[1..]
  {
  }

  /** Once the run of a key has ended in a sorted list, it does not come back. */
  lemma RunEnds(x: Origin, t: seq<Origin>, b: bool)
    requires Sorted([x] + t, OriginLe) && t != [] && t[0].key != x.key
    ensures Origin(x.key, b) !in t
  {
    hide LexLe;
    var o := Origin(x.key, b);
    assert OriginLe(([x] + t)[0], ([x] + t)[1]);
    LexTotal(x.key, t[0].key);
    forall i | 0 <= i < |t| ensures t[i] != o {
      assert i > 0 ==> OriginLe(([x] + t)[1], ([x] + t)[i + 1]);
    }
  }

  lemma SortedTail(s: seq<Origin>)
    requires s != [] && Sorted(s, OriginLe)
    ensures Sorted(s[1..], OriginLe)
  {
    hide OriginLe;
    forall i, j | 0 <= i < j < |s[1..]| ensures OriginLe(s[1..][i], s[1..][j]) { assert OriginLe(s[i + 1], s[j + 1]); }
  }

  /** A key is removed once for each time it is running, less one when the file has it. */
  lemma {:induction false} RemovedCount(s: seq<Origin>, k: Key)
    requires Sorted(s, OriginLe)
    ensures var running, filed := Count(s, Origin(k, false)), Count(s, Origin(k, true));
            CountKey(Removed(s), k) == if running > 0 && filed > 0 then running - 1 else running
  {
    hide LexLe;
    if s != [] {
      var x, t := s[0], s[1..];
      SortedTail(s);
      RemovedCount(t, k);
      CountKeyConcat(if Marks(s, 0) then [x.key] else [], Removed(t), k);
      assert CountKey([x.key], k) == (if x.key == k then 1 else 0) + CountKey([x.key][1..], k);
      if x.key == k { SameKey(s, k); }
    }
  }

  /** What follows an entry of key k in a sorted list. */
  lemma SameKey(s: seq<Origin>, k: Key)
    requires s != [] && Sorted(s, OriginLe) && s[0].key == k
    ensures s[0].fromFile ==> Count(s[1..], Origin(k, false)) == 0
    ensures s[1..] == [] || s[1].key != k ==> Count(s[1..], Origin(k, false)) == 0 && Count(s[1..], Origin(k, true)) == 0
    ensures s[1..] != [] && s[1] == Origin(k, true) ==> Count(s[1..], Origin(k, false)) == 0 && Count(s[1..], Origin(k, true)) > 0
    ensures s[1..] != [] && s[1] == Origin(k, false) ==> Count(s[1..], Origin(k, false)) > 0
  {
    hide LexLe, Count;
    var x, t := s[0], s[1..];
    assert s == [x] + t;
    if x.fromFile {
      NothingSmaller(s, Origin(k, false));
      CountNone(t, Origin(k, false));
    }
    if t == [] {
      CountNone(t, Origin(k, false));
      CountNone(t, Origin(k, true));
    } else if t[0].key != k {
      RunEnds(x, t, false);
      RunEnds(x, t, true);
      CountNone(t, Origin(k, false));
      CountNone(t, Origin(k, true));
    } else if t[0].fromFile {
      SortedTail(s);
      NothingSmaller(t, Origin(k, false));
      assert t == [t[0]] + t[1..];
      CountNone(t, Origin(k, false));
      CountSome(t, Origin(k, true));
    } else {
      CountSome(t, Origin(k, false));
    }
  }

  // ----- all keys, sorted

  function Origins(keys: seq<Key>, fromFile: bool): (r: seq<Origin>)
    ensures |r| == |keys|
  {
    if keys == [] then [] else [Origin(keys[0], fromFile)] + Origins(keys[1..], fromFile)
  }

  lemma {:induction false} CountOrigins(keys: seq<Key>, fromFile: bool, o: Origin)
    ensures Count(Origins(keys, fromFile), o) == if o.fromFile == fromFile then CountKey(keys, o.key) else 0
  {
    if keys != [] {
      CountOrigins(keys[1..], fromFile, o);
      assert Origins(keys, fromFile)[1..] == Origins(keys[1..], fromFile);
    }
  }

  lemma {:induction false} CountIsMultiplicity(s: seq<Origin>, o: Origin)
    ensures Count(s, o) == multiset(s)[o]
  {
    if s != [] {
      CountIsMultiplicity(s[1..], o);
      assert s == [s[0]] + s[1..];
    }
  }

  lemma {:induction false} CountConcat(a: seq<Origin>, b: seq<Origin>, o: Origin)
    ensures Count(a + b, o) == Count(a, o) + Count(b, o)
  {
    CountIsMultiplicity(a, o);
    CountIsMultiplicity(b, o);
    CountIsMultiplicity(a + b, o);
  }

  function Keys(peers: seq<ConfPeer>): (ks: seq<Key>)
    ensures |ks| == |peers|
  {
    if peers == [] then [] else [peers[0].publicKey] + Keys(peers[1..])
  }

  function SortedKeys(file: seq<ConfPeer>, runtime: seq<Key>): seq<Origin> {
    Sort(Origins(Keys(file), true) + Origins(runtime, false), OriginLe)
  }

  /** How often `sync_conf` removes a key: as often as it is running, but once less if the file has it. */
  function Removals(file: seq<ConfPeer>, runtime: seq<Key>, k: Key): nat {
    var running := CountKey(runtime, k);
    if running > 0 && CountKey(Keys(file), k) > 0 then running - 1 else running
  }

  lemma RemovedExactly(file: seq<ConfPeer>, runtime: seq<Key>, k: Key)
    ensures CountKey(Removed(SortedKeys(file, runtime)), k) == Removals(file, runtime, k)
  {
    hide OriginLe, Removed, Count, CountKey, Sort, Sorted;
    var all := Origins(Keys(file), true) + Origins(runtime, false);
    OriginTotal();
    SortKeeps(all, OriginLe);
    RemovedCount(SortedKeys(file, runtime), k);
    CountAll(file, runtime, Origin(k, true));
    CountAll(file, runtime, Origin(k, false));
  }

  lemma CountAll(file: seq<ConfPeer>, runtime: seq<Key>, o: Origin)
    ensures Count(SortedKeys(file, runtime), o) == if o.fromFile then CountKey(Keys(file), o.key) else CountKey(runtime, o.key)
  {
    hide OriginLe, Count, CountKey, Sort, Sorted;
    var a, b := Origins(Keys(file), true), Origins(runtime, false);
    OriginTotal();
    SortKeeps(a + b, OriginLe);
    CountIsMultiplicity(SortedKeys(file, runtime), o);
    CountIsMultiplicity(a + b, o);
    CountConcat(a, b, o);
    CountOrigins(Keys(file), true, o);
    CountOrigins(runtime, false, o);
  }

  predicate Distinct(keys: seq<Key>) { forall i, j :: 0 <= i < j < |keys| ==> keys[i] != keys[j] }

  lemma {:induction false} CountIsMembership(keys: seq<Key>, k: Key)
    ensures CountKey(keys, k) > 0 <==> k in keys
    ensures Distinct(keys) ==> CountKey(keys, k) <= 1
  {
    if keys != [] {
      CountIsMembership(keys[1..], k);
      assert keys == [keys[0]] + keys[1..];
      if Distinct(keys) && keys[0] == k {
        assert forall i :: 0 <= i < |keys[1..]| ==> keys[1..][i] == keys[i + 1];
        assert k !in keys[1..];
      }
      assert Distinct(keys) ==> Distinct(keys[1..]);
    }
  }

  /** With distinct running keys, exactly those the file does not have are removed, each once. */
  lemma RemovesTheDifference(file: seq<ConfPeer>, runtime: seq<Key>, k: Key)
    requires Distinct(runtime)
    ensures Removals(file, runtime, k) == if k in runtime && k !in Keys(file) then 1 else 0
  {
    hide Distinct, CountKey;
    CountIsMembership(runtime, k);
    CountIsMembership(Keys(file), k);
  }

  // ----- the change to the device

  function RemovalPeers(keys: seq<Key>): (r: seq<ConfPeer>)
    ensures |r| == |keys|
  {
    if keys == [] then [] else RemovalPeers(keys[1..]) + [ConfPeer(keys[0], true, [])]
  }

  datatype Change = Change(replacePeers: bool, peers: seq<ConfPeer>)

  /** The keys of the running device, when it can be read. */
  datatype Runtime = Unreadable | Running(keys: seq<Key>)

  function Synced(file: Change, keys: seq<Key>): Change {
    if file.peers == [] || keys == [] then file
    else Change(false, RemovalPeers(Removed(SortedKeys(file.peers, keys))) + file.peers)
  }

  lemma RemovedStep(s: seq<Origin>, i: nat)
    requires i <= |s|
    ensures i == |s| ==> Removed(s[i..]) == []
    ensures i < |s| ==> Removed(s[i..]) == (if Marks(s, i) then [s[i].key] else []) + Removed(s[i + 1..])
  {
    if i < |s| {
      assert s[i..][1..] == s[i + 1..];
      assert Marks(s[i..], 0) <==> Marks(s, i);
    }
  }

  lemma {:induction false} RemovalSplit(a: seq<Key>, b: seq<Key>)
    ensures RemovalPeers(a + b) == RemovalPeers(b) + RemovalPeers(a)
  {
    if a == [] {
      assert a + b == b;
    } else {
      RemovalSplit(a[1..], b);
      assert (a + b)[1..] == a[1..] + b;
    }
  }

  lemma OneRemoval(k: Key)
    ensures RemovalPeers([k]) == [ConfPeer(k, true, [])] && RemovalPeers([]) == []
  {
    assert [k][1..] == [];
  }

  /** `sync_conf` */
  method Sync(file: Change, runtime: Runtime) returns (ok: bool, change: Change)
    ensures ok <==> file.peers == [] || runtime.Running?
    ensures ok ==> change == if file.peers == [] then file else Synced(file, runtime.keys)
  {
    hide Marks, Removed, RemovalPeers, OriginLe, Sort;
    change := file;
    if file.peers == [] {
      return true, file;
    }
    if runtime.Unreadable? {
      return false, file;
    }
    if runtime.keys == [] {
      return true, file;
    }
    var pubkeys := Sort(Origins(Keys(file.peers), true) + Origins(runtime.keys, false), OriginLe);
    var peers, i := file.peers, 0;
    ghost var done: seq<Key> := [];
    assert pubkeys[0..] == pubkeys;
    NoRemoval(pubkeys, file.peers);
    while i < |pubkeys|
      invariant 0 <= i <= |pubkeys|
      invariant done + Removed(pubkeys[i..]) == Removed(pubkeys)
      invariant peers == RemovalPeers(done) + file.peers
    {
      RemovedStep(pubkeys, i);
      if Marks(pubkeys, i) {
        var k := pubkeys[i].key;
        RemovalSplit(done, [k]);
        OneRemoval(k);
        assert done + ([k] + Removed(pubkeys[i + 1..])) == done + [k] + Removed(pubkeys[i + 1..]);
        assert [ConfPeer(k, true, [])] + (RemovalPeers(done) + file.peers) == [ConfPeer(k, true, [])] + RemovalPeers(done) + file.peers;
        peers := [ConfPeer(k, true, [])] + peers;
        done := done + [k];
      } else {
        assert [] + Removed(pubkeys[i + 1..]) == Removed(pubkeys[i + 1..]);
      }
      i := i + 1;
    }
    RemovedStep(pubkeys, i);
    assert done + [] == done;
    return true, Change(false, peers);
  }

  lemma NoRemoval(s: seq<Origin>, peers: seq<ConfPeer>)
    ensures [] + Removed(s) == Removed(s) && RemovalPeers([]) + peers == peers
  {
  }

  // ----- applying the change

  function KeySet(keys: seq<Key>): set<Key> { set k | k in keys }

  /** What the device's peers are after one peer of a change. */
  function ApplyPeer(keys: set<Key>, p: ConfPeer): set<Key> {
    if p.removeMe then keys - {p.publicKey} else keys + {p.publicKey}
  }

  function ApplyAll(keys: set<Key>, peers: seq<ConfPeer>): set<Key> {
    if peers == [] then keys else ApplyPeer(ApplyAll(keys, peers[..|peers| - 1]), peers[|peers| - 1])
  }

  function Applied(keys: set<Key>, change: Change): set<Key> {
    ApplyAll(if change.replacePeers then {} else keys, change.peers)
  }

  lemma {:induction false} ApplyConcat(keys: set<Key>, a: seq<ConfPeer>, b: seq<ConfPeer>)
    ensures ApplyAll(keys, a + b) == ApplyAll(ApplyAll(keys, a), b)
  {
    hide ApplyPeer;
    if b == [] {
      assert a + b == a;
    } else {
      ApplyConcat(keys, a, b[..|b| - 1]);
      assert (a + b)[..|a + b| - 1] == a + b[..|b| - 1];
    }
  }

  lemma {:induction false} ApplyFile(keys: set<Key>, peers: seq<ConfPeer>)
    requires forall i :: 0 <= i < |peers| ==> !peers[i].removeMe
    ensures ApplyAll(keys, peers) == keys + KeySet(Keys(peers))
  {
    if peers != [] {
      var init := peers[..|peers| - 1];
      ApplyFile(keys, init);
      KeysSnoc(init, peers[|peers| - 1]);
      assert peers == init + [peers[|peers| - 1]];
    }
  }

  lemma {:induction false} KeysSnoc(peers: seq<ConfPeer>, p: ConfPeer)
    ensures Keys(peers + [p]) == Keys(peers) + [p.publicKey]
  {
    if peers != [] {
      KeysSnoc(peers[1..], p);
      assert (peers + [p])[1..] == peers[1..] + [p];
    } else {
      assert peers + [p] == [p] && [p][1..] == [];
    }
  }

  lemma ApplySnoc(keys: set<Key>, peers: seq<ConfPeer>, p: ConfPeer)
    ensures ApplyAll(keys, peers + [p]) == ApplyPeer(ApplyAll(keys, peers), p)
  {
    hide ApplyPeer;
    assert (peers + [p])[..|peers|] == peers;
  }

  lemma {:induction false} ApplyRemovals(keys: set<Key>, gone: seq<Key>)
    ensures ApplyAll(keys, RemovalPeers(gone)) == keys - KeySet(gone)
  {
    hide ApplyAll;
    if gone == [] {
      ApplyNothing(keys);
    } else {
      ApplyRemovals(keys, gone[1..]);
      ApplySnoc(keys, RemovalPeers(gone[1..]), ConfPeer(gone[0], true, []));
      KeySetCons(gone);
    }
  }

  lemma ApplyNothing(keys: set<Key>)
    ensures ApplyAll(keys, []) == keys
  {
  }

  lemma KeySetCons(keys: seq<Key>)
    requires keys != []
    ensures KeySet(keys) == KeySet(keys[1..]) + {keys[0]}
  {
    assert keys == [keys[0]] + keys[1..];
  }

  /** Every running key is in the file or removed. */
  lemma RunningAreHandled(file: seq<ConfPeer>, keys: seq<Key>, k: Key)
    requires k in keys && k !in Keys(file)
    ensures k in Removed(SortedKeys(file, keys))
  {
    hide CountKey, SortedKeys, Removed;
    RemovedExactly(file, keys, k);
    CountIsMembership(keys, k);
    CountIsMembership(Keys(file), k);
    CountIsMembership(Removed(SortedKeys(file, keys)), k);
  }

  /** On every success path, whatever is running, the device ends with exactly the file's keys. */
  lemma LeavesTheFile(file: Change, keys: seq<Key>)
    requires file.replacePeers && forall i :: 0 <= i < |file.peers| ==> !file.peers[i].removeMe
    ensures Applied(KeySet(keys), Synced(file, keys)) == KeySet(Keys(file.peers))
  {
    hide ApplyAll, Removed, SortedKeys, RemovalPeers;
    var running := KeySet(keys);
    ApplyFile({}, file.peers);
    if file.peers != [] && keys != [] {
      var gone := Removed(SortedKeys(file.peers, keys));
      ApplyConcat(running, RemovalPeers(gone), file.peers);
      ApplyRemovals(running, gone);
      ApplyFile(running - KeySet(gone), file.peers);
      forall k | k in running ensures k in Keys(file.peers) || k in gone {
        if k !in Keys(file.peers) { RunningAreHandled(file.peers, keys, k); }
      }
    }
  }

  // ----- what the change says, and what happens on the way

  lemma {:induction false} RemovalKeys(gone: seq<Key>)
    ensures forall i :: 0 <= i < |gone| ==> RemovalPeers(gone)[i].removeMe && RemovalPeers(gone)[i].publicKey in gone
    ensures forall k :: CountKey(Keys(RemovalPeers(gone)), k) == CountKey(gone, k)
  {
    if gone != [] {
      RemovalKeys(gone[1..]);
      KeysSnoc(RemovalPeers(gone[1..]), ConfPeer(gone[0], true, []));
      forall k ensures CountKey(Keys(RemovalPeers(gone)), k) == CountKey(gone, k) {
        CountKeyConcat(Keys(RemovalPeers(gone[1..])), [gone[0]], k);
      }
    }
  }

  /** Without running peers or peers in the file the change is the file.  Otherwise the running peers are kept,
      the file's peers come last as they are, and in front of them are removals, as many of each key as it is
      running, but once less if the file has it. */
  lemma ChangeExactly(file: Change, keys: seq<Key>, k: Key)
    ensures var c, n := Synced(file, keys), |Synced(file, keys).peers| - |file.peers|;
            if file.peers == [] || keys == [] then c == file
            else
              && !c.replacePeers && n >= 0 && c.peers[n..] == file.peers
              && (forall i :: 0 <= i < n ==> c.peers[i].removeMe)
              && CountKey(Keys(c.peers[..n]), k) == Removals(file.peers, keys, k)
  {
    hide Removed, SortedKeys, RemovalPeers, CountKey, Removals, Keys;
    if file.peers != [] && keys != [] {
      var gone := Removed(SortedKeys(file.peers, keys));
      RemovalKeys(gone);
      RemovedExactly(file.peers, keys, k);
      assert (RemovalPeers(gone) + file.peers)[..|gone|] == RemovalPeers(gone);
    }
  }

  /** The device's peers after the first n peers of a change. */
  function Midway(keys: set<Key>, change: Change, n: nat): set<Key>
    requires n <= |change.peers|
  {
    ApplyAll(if change.replacePeers then {} else keys, change.peers[..n])
  }

  lemma {:induction false} Stays(keys: set<Key>, peers: seq<ConfPeer>, k: Key)
    requires k in keys && forall i :: 0 <= i < |peers| ==> !(peers[i].removeMe && peers[i].publicKey == k)
    ensures k in ApplyAll(keys, peers)
  {
    if peers != [] { Stays(keys, peers[..|peers| - 1], k); }
  }

  /** A peer that is running once and is in the file is on the device all the time. */
  lemma NeverDropped(file: Change, keys: seq<Key>, k: Key, n: nat)
    requires forall i :: 0 <= i < |file.peers| ==> !file.peers[i].removeMe
    requires CountKey(keys, k) == 1 && k in Keys(file.peers) && n <= |Synced(file, keys).peers|
    ensures k in Midway(KeySet(keys), Synced(file, keys), n)
  {
    hide Removed, SortedKeys, ApplyAll, Removals, CountKey, RemovalPeers, Keys;
    CountIsMembership(keys, k);
    InFile(file.peers, keys);
    var c, gone := Synced(file, keys), Removed(SortedKeys(file.peers, keys));
    RemovedExactly(file.peers, keys, k);
    RemovesAllButOne(file.peers, keys, k);
    CountIsMembership(gone, k);
    RemovalKeys(gone);
    forall i | 0 <= i < n ensures !(c.peers[i].removeMe && c.peers[i].publicKey == k) {
      assert c.peers[i] == if i < |gone| then RemovalPeers(gone)[i] else file.peers[i - |gone|];
    }
    Stays(KeySet(keys), c.peers[..n], k);
  }

  lemma InFile(peers: seq<ConfPeer>, keys: seq<Key>)
    ensures peers == [] <==> Keys(peers) == []
    ensures forall k :: k in keys <==> k in KeySet(keys)
  {
  }

  lemma RemovesAllButOne(file: seq<ConfPeer>, keys: seq<Key>, k: Key)
    requires k in Keys(file) && CountKey(keys, k) >= 1
    ensures Removals(file, keys, k) == CountKey(keys, k) - 1
  {
    CountIsMembership(Keys(file), k);
  }

  /** A key that is running more than once is removed before the file puts it back. */
  lemma DroppedWhenRepeated(file: Change, keys: seq<Key>, k: Key) returns (n: nat)
    requires CountKey(keys, k) >= 2 && k in Keys(file.peers)
    ensures n <= |Synced(file, keys).peers| && k !in Midway(KeySet(keys), Synced(file, keys), n)
  {
    hide Removed, SortedKeys, ApplyAll, Removals, CountKey, RemovalPeers, Keys;
    CountIsMembership(keys, k);
    InFile(file.peers, keys);
    var c, gone := Synced(file, keys), Removed(SortedKeys(file.peers, keys));
    RemovedExactly(file.peers, keys, k);
    RemovesAllButOne(file.peers, keys, k);
    CountIsMembership(gone, k);
    n := |gone|;
    assert c.peers[..n] == RemovalPeers(gone);
    ApplyRemovals(KeySet(keys), gone);
    InFile(file.peers, gone);
  }

  /** No peer that the file keeps is dropped on the way, exactly when its key is not running twice. */
  lemma KeptExactly(file: Change, keys: seq<Key>, k: Key)
    requires forall i :: 0 <= i < |file.peers| ==> !file.peers[i].removeMe
    requires k in keys && k in Keys(file.peers)
    ensures (forall n: nat :: n <= |Synced(file, keys).peers| ==> k in Midway(KeySet(keys), Synced(file, keys), n))
        <==> CountKey(keys, k) == 1
  {
    hide Synced, Midway, CountKey, Keys;
    CountIsMembership(keys, k);
    if CountKey(keys, k) == 1 {
      forall n: nat | n <= |Synced(file, keys).peers| ensures k in Midway(KeySet(keys), Synced(file, keys), n) {
        NeverDropped(file, keys, k, n);
      }
    } else {
      var n := DroppedWhenRepeated(file, keys, k);
    }
  }
}
