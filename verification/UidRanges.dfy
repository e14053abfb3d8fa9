/** Android's `set_users`: the user ids that go through the tunnel, as ranges, in commands of at most 18. */
module UidRanges {
  import opened Sorting

  /** A user id; 0 ends the list, and `compare_uid` orders ids by an int difference. */
  type Uid = x: int | 0 < x < 0x8000_0000 witness 1

  datatype Range = Range(lo: nat, hi: nat)

  const LAST_UID := 99999
  const PER_COMMAND := 18

  predicate UidLe(a: Uid, b: Uid) { a <= b }

  predicate Increasing(uids: seq<Uid>) { forall i, j :: 0 <= i < j < |uids| ==> uids[i] <= uids[j] }

  ghost predicate Covered(rs: seq<Range>, x: int) { exists i :: 0 <= i < |rs| && rs[i].lo <= x <= rs[i].hi }

  /** Non-empty, in order, and apart from each other. */
  predicate Apart(rs: seq<Range>) {
    && (forall i :: 0 <= i < |rs| ==> rs[i].lo <= rs[i].hi)
    && forall i, j :: 0 <= i < j < |rs| ==> rs[i].hi < rs[j].lo
  }

  // ----- what the loop computes

  /** Where the next range starts after the excluded ids. */
  function Next(uids: seq<Uid>): (r: nat) { if uids == [] then 0 else uids[|uids| - 1] as int + 1 }

  /** The ranges between excluded ids. */
  function Between(uids: seq<Uid>): seq<Range> {
    if uids == [] then []
    else
      var init, uid := uids[..|uids| - 1], uids[|uids| - 1] as int;
      Between(init) + if Next(init) > uid - 1 then [] else [Range(Next(init), uid - 1)]
  }

  function Ranges(uids: seq<Uid>): seq<Range> {
    Between(uids) + if Next(uids) < LAST_UID then [Range(Next(uids), LAST_UID)] else []
  }

  lemma CoveredSnoc(rs: seq<Range>, r: Range, x: int)
    ensures Covered(rs + [r], x) <==> Covered(rs, x) || r.lo <= x <= r.hi
  {
    if Covered(rs, x) {
      var i :| 0 <= i < |rs| && rs[i].lo <= x <= rs[i].hi;
      assert (rs + [r])[i] == rs[i];
    }
    assert (rs + [r])[|rs|] == r;
  }

  lemma ApartSnoc(rs: seq<Range>, r: Range)
    requires Apart(rs) && r.lo <= r.hi && forall i :: 0 <= i < |rs| ==> rs[i].hi < r.lo
    ensures Apart(rs + [r])
  {
  }

  lemma InInit(uids: seq<Uid>, x: int)
    requires uids != [] && Increasing(uids)
    ensures var init := uids[..|uids| - 1];
            && Increasing(init) && Next(init) <= uids[|uids| - 1] as int + 1
            && (x in uids <==> x in init || x == uids[|uids| - 1]) && (x in init ==> x < Next(init))
  {
    assert uids == uids[..|uids| - 1] + [uids[|uids| - 1]];
  }

  /** Below the next start, exactly the ids that are not excluded are covered. */
  lemma {:induction false} BetweenCovers(uids: seq<Uid>, x: int)
    requires Increasing(uids)
    ensures Covered(Between(uids), x) <==> 0 <= x < Next(uids) && x !in uids
  {
    hide Covered;
    if uids == [] {
      CoversNothing(x);
    } else {
      var init, uid := uids[..|uids| - 1], uids[|uids| - 1] as int;
      BetweenCovers(init, x);
      CoveredSnoc(Between(init), Range(Next(init), uid - 1), x);
      InInit(uids, x);
      assert Between(uids) == if Next(init) <= uid - 1 then Between(init) + [Range(Next(init), uid - 1)] else Between(init);
    }
  }

  lemma CoversNothing(x: int)
    ensures !Covered([], x)
  {
  }

  lemma {:induction false} BetweenApart(uids: seq<Uid>)
    requires Increasing(uids)
    ensures Apart(Between(uids)) && forall i :: 0 <= i < |Between(uids)| ==> Between(uids)[i].hi < Next(uids)
  {
    hide Apart;
    if uids == [] {
      ApartNothing();
    } else {
      var init, uid := uids[..|uids| - 1], uids[|uids| - 1] as int;
      BetweenApart(init);
      assert init != [] ==> init[|init| - 1] <= uid;
      if Next(init) <= uid - 1 {
        ApartSnoc(Between(init), Range(Next(init), uid - 1));
      } else {
        assert Between(uids) == Between(init);
      }
    }
  }

  lemma ApartNothing()
    ensures Apart([])
  {
  }

  /** The ranges never overlap and increase, whatever is excluded. */
  lemma RangesApart(uids: seq<Uid>)
    requires Increasing(uids)
    ensures Apart(Ranges(uids))
  {
    hide Apart, Between;
    BetweenApart(uids);
    if Next(uids) < LAST_UID {
      ApartSnoc(Between(uids), Range(Next(uids), LAST_UID));
    } else {
      assert Ranges(uids) == Between(uids);
    }
  }

  lemma RangesCover(uids: seq<Uid>, x: int)
    requires Increasing(uids)
    ensures Covered(Ranges(uids), x) <==> 0 <= x && x !in uids && (x < Next(uids) || (Next(uids) < LAST_UID && x <= LAST_UID))
  {
    hide Covered, Between;
    BetweenCovers(uids, x);
    BelowNext(uids, x);
    if Next(uids) < LAST_UID {
      CoveredSnoc(Between(uids), Range(Next(uids), LAST_UID), x);
    } else {
      assert Ranges(uids) == Between(uids);
    }
  }

  lemma BelowNext(uids: seq<Uid>, x: int)
    requires Increasing(uids)
    ensures x in uids ==> x < Next(uids)
  {
  }

  /** What the caller wants: every id up to 99999 that is not excluded, and no other. */
  ghost predicate Complement(uids: seq<Uid>) {
    forall x :: Covered(Ranges(uids), x) <==> 0 <= x <= LAST_UID && x !in uids
  }

  /** It is what it gets unless the largest excluded id is 99998, which leaves 99999 out, or some id beyond
      99999 below the largest excluded one is not excluded itself, which lets it in. */
  predicate Fits(uids: seq<Uid>) {
    uids == [] || (Next(uids) != LAST_UID && forall x :: LAST_UID < x < Next(uids) ==> x in uids)
  }

  lemma ComplementExactly(uids: seq<Uid>)
    requires Increasing(uids)
    ensures Complement(uids) <==> Fits(uids)
  {
    hide Covered, Ranges, Increasing;
    forall x ensures Covered(Ranges(uids), x) <==>
        0 <= x && x !in uids && (x < Next(uids) || (Next(uids) < LAST_UID && x <= LAST_UID)) {
      RangesCover(uids, x);
    }
    forall x ensures x in uids ==> x < Next(uids) { BelowNext(uids, x); }
    if Complement(uids) && uids != [] {
      assert !Covered(Ranges(uids), LAST_UID) || LAST_UID !in uids;
      forall x | LAST_UID < x < Next(uids) ensures x in uids { assert !Covered(Ranges(uids), x); }
    }
  }

  /** In particular for ids up to 99997. */
  lemma SmallIdsFit(uids: seq<Uid>)
    requires Increasing(uids) && forall i :: 0 <= i < |uids| ==> uids[i] <= 99997
    ensures Complement(uids)
  {
    ComplementExactly(uids);
  }

  /** Excluding 99998 alone leaves 99999 out of the tunnel. */
  lemma LostId()
    ensures !Complement([99998])
  {
    hide Complement;
    ComplementExactly([99998]);
  }

  // ----- the commands

  /** The arguments of all commands, in order. */
  function Flat(commands: seq<seq<Range>>): seq<Range> {
    if commands == [] then [] else Flat(commands[..|commands| - 1]) + commands[|commands| - 1]
  }

  lemma FlatSnoc(commands: seq<seq<Range>>, c: seq<Range>)
    ensures Flat(commands + [c]) == Flat(commands) + c
  {
    assert (commands + [c])[..|commands|] == commands;
  }

  /** Every command but the last has 18 arguments, and that one has 1 to 18. */
  predicate Short(commands: seq<seq<Range>>) {
    forall i :: 0 <= i < |commands| ==> 1 <= |commands[i]| <= 18 && (i < |commands| - 1 ==> |commands[i]| == 18)
  }

  predicate AllFull(commands: seq<seq<Range>>) { forall i :: 0 <= i < |commands| ==> |commands[i]| == 18 }

  /** Appends an argument and sends the command when it is full. */
  method AddArgument(sent: seq<seq<Range>>, pending: seq<Range>, args: nat, r: Range)
    returns (sent': seq<seq<Range>>, pending': seq<Range>, args': nat)
    requires AllFull(sent) && |pending| == args % PER_COMMAND
    ensures AllFull(sent') && |pending'| == args' % PER_COMMAND
    ensures Flat(sent') + pending' == Flat(sent) + pending + [r]
  {
    hide Flat;
    sent', pending', args' := sent, pending + [r], args + 1;
    NextRemainder(args);
    if args' % PER_COMMAND == 0 {
      FlatSnoc(sent, pending');
      sent', pending' := sent + [pending'], [];
    }
  }

  lemma NextRemainder(n: nat)
    ensures (n + 1) % PER_COMMAND == if n % PER_COMMAND == PER_COMMAND - 1 then 0 else n % PER_COMMAND + 1
  {
  }

  lemma UidsTotal()
    ensures Total(UidLe)
  {
  }

  /** `qsort` with `compare_uid` */
  function SortUids(uids: seq<Uid>): (r: seq<Uid>)
    ensures Increasing(r) && multiset(r) == multiset(uids)
  {
    UidsTotal();
    SortKeeps(uids, UidLe);
    var r := Sort(uids, UidLe);
    assert forall i, j :: 0 <= i < j < |r| ==> UidLe(r[i], r[j]);
    r
  }

  lemma BetweenSnoc(uids: seq<Uid>, k: nat)
    requires k < |uids|
    ensures Next(uids[..k + 1]) == uids[k] as int + 1
    ensures Between(uids[..k + 1])
         == Between(uids[..k]) + if Next(uids[..k]) > uids[k] as int - 1 then [] else [Range(Next(uids[..k]), uids[k] as int - 1)]
  {
    assert uids[..k + 1][..k] == uids[..k];
  }

  /** For a list of excluded ids in any order, with duplicates, up to 99997: all other ids up to 99999. */
  lemma ExcludedComplement(excluded: seq<Uid>, x: int)
    requires forall i :: 0 <= i < |excluded| ==> excluded[i] <= 99997
    ensures Covered(Ranges(SortUids(excluded)), x) <==> 0 <= x <= 99999 && x !in excluded
  {
    hide Covered, Ranges, SortUids;
    var uids := SortUids(excluded);
    forall y ensures y in uids <==> y in excluded { SameMembers(uids, excluded, y); }
    forall i | 0 <= i < |uids| ensures uids[i] <= 99997 { assert uids[i] in uids; }
    SmallIdsFit(uids);
  }

  lemma SameMembers(a: seq<Uid>, b: seq<Uid>, x: int)
    requires multiset(a) == multiset(b)
    ensures x in a <==> x in b
  {
    assert x in a <==> x in multiset(a);
    assert x in b <==> x in multiset(b);
  }

  /** `set_users` with excluded applications, or with no list at all */
  method SetUsersExcluding(excluded: seq<Uid>) returns (commands: seq<seq<Range>>)
    ensures Flat(commands) == Ranges(SortUids(excluded)) && Short(commands)
  {
    hide Flat, Between, AllFull, Short, SortUids, Next;
    var uids := SortUids(excluded);
    var start, k, args: nat, pending: seq<Range> := 0, 0, 0, [];
    commands := [];
    NothingYet(uids);
    while k < |uids|
      invariant 0 <= k <= |uids| && start == Next(uids[..k])
      invariant AllFull(commands) && |pending| == args % PER_COMMAND
      invariant Flat(commands) + pending == Between(uids[..k])
    {
      BetweenSnoc(uids, k);
      var uid := uids[k] as int;
      if start <= uid - 1 {
        commands, pending, args := AddArgument(commands, pending, args, Range(start, uid - 1));
      }
      start, k := uid + 1, k + 1;
    }
    assert uids[..k] == uids;
    if start < LAST_UID {
      assert Flat(commands) + pending + [Range(start, LAST_UID)] == Flat(commands) + (pending + [Range(start, LAST_UID)]);
      pending := pending + [Range(start, LAST_UID)];
    }
    commands := SendRest(commands, pending);
  }

  method SendRest(sent: seq<seq<Range>>, pending: seq<Range>) returns (commands: seq<seq<Range>>)
    requires AllFull(sent) && |pending| <= PER_COMMAND
    ensures Short(commands) && Flat(commands) == Flat(sent) + pending
  {
    hide Flat;
    commands := sent;
    if pending != [] {
      FlatSnoc(sent, pending);
      commands := sent + [pending];
    }
  }

  lemma NothingYet(uids: seq<Uid>)
    ensures Next(uids[..0]) == 0 && Between(uids[..0]) == [] && Flat([]) == [] && AllFull([])
  {
  }

  function Singles(uids: seq<Uid>): seq<Range> {
    if uids == [] then []
    else Singles(uids[..|uids| - 1]) + [Range(uids[|uids| - 1], uids[|uids| - 1])]
  }

  lemma {:induction false} SinglesCover(uids: seq<Uid>, x: int)
    ensures Covered(Singles(uids), x) <==> x in uids
  {
    hide Covered;
    if uids == [] {
      CoversNothing(x);
    } else {
      var init, uid := uids[..|uids| - 1], uids[|uids| - 1];
      SinglesCover(init, x);
      CoveredSnoc(Singles(init), Range(uid, uid), x);
      assert uids == init + [uid];
    }
  }

  /** `set_users` with included applications */
  method SetUsersIncluding(included: seq<Uid>) returns (commands: seq<seq<Range>>)
    ensures Flat(commands) == Singles(SortUids(included)) && Short(commands)
  {
    hide Flat, AllFull, Short, SortUids, Singles;
    var uids := SortUids(included);
    var k, args: nat, pending: seq<Range> := 0, 0, [];
    commands := [];
    NothingSingle(uids);
    while k < |uids|
      invariant 0 <= k <= |uids| && AllFull(commands) && |pending| == args % PER_COMMAND
      invariant Flat(commands) + pending == Singles(uids[..k])
    {
      SinglesSnoc(uids, k);
      commands, pending, args := AddArgument(commands, pending, args, Range(uids[k], uids[k]));
      k := k + 1;
    }
    assert uids[..k] == uids;
    commands := SendRest(commands, pending);
  }

  lemma NothingSingle(uids: seq<Uid>)
    ensures Singles(uids[..0]) == [] && Flat([]) == [] && AllFull([])
  {
  }

  lemma SinglesSnoc(uids: seq<Uid>, k: nat)
    requires k < |uids|
    ensures Singles(uids[..k + 1]) == Singles(uids[..k]) + [Range(uids[k], uids[k])]
  {
    assert uids[..k + 1][..k] == uids[..k];
  }
}
