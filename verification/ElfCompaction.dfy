/** The ELF cleaner's pass over a dynamic section: unsupported entries become DT_NULL and move behind the
    others, in place. */
module ElfCompaction {
  import opened Bits

  const DT_NULL := 0
  const DT_RPATH := 15
  const DT_RUNPATH := 29
  const DT_GNU_HASH := 0x6fff_fef5
  const DT_VERSYM := 0x6fff_fff0
  const DT_FLAGS_1 := 0x6fff_fffb
  const DT_VERDEF := 0x6fff_fffc
  const DT_VERDEFNUM := 0x6fff_fffd
  const DT_VERNEEDED := 0x6fff_fffe
  const DT_VERNEEDNUM := 0x6fff_ffff
  const DT_AARCH64_BTI_PLT := 0x7000_0001
  const DT_AARCH64_PAC_PLT := 0x7000_0003
  const DT_AARCH64_VARIANT_PCS := 0x7000_0005

  datatype Entry = Entry(tag: u64, val: u64)

  /** What is being cleaned for: the API level, the machine, and the supported DF_1_* flags. */
  datatype Target = Target(apiLevel: int, aarch64: bool, supported: u8)

  predicate Removable(tag: u64, t: Target) {
    || (tag in {DT_GNU_HASH, DT_VERSYM, DT_VERNEEDED, DT_VERNEEDNUM, DT_VERDEF, DT_VERDEFNUM} && t.apiLevel < 23)
    || tag == DT_RPATH
    || (tag == DT_RUNPATH && t.apiLevel < 24)
    || (tag in {DT_AARCH64_BTI_PLT, DT_AARCH64_PAC_PLT, DT_AARCH64_VARIANT_PCS} && t.aarch64 && t.apiLevel < 31)
  }

  lemma {:induction false} AndTwice(m: int, x: int)
    requires m >= 0
    ensures And(m, And(m, x)) == And(m, x)
    decreases m
  {
    if m > 0 {
      AndTwice(m / 2, x / 2);
      assert And(m, x) / 2 == And(m / 2, x / 2);
    }
  }

  /** A DT_FLAGS_1 entry keeps only the supported flags. */
  function Masked(e: Entry, t: Target): Entry {
    AndSign(t.supported, e.val);
    if e.tag == DT_FLAGS_1 then e.(val := And(t.supported, e.val)) else e
  }

  lemma MaskedTwice(e: Entry, t: Target)
    ensures Masked(Masked(e, t), t) == Masked(e, t) && Masked(e, t).tag == e.tag
  {
    AndTwice(t.supported, e.val);
  }

  // ----- what is retained

  predicate Live(e: Entry, t: Target) { e.tag != DT_NULL && !Removable(e.tag, t) }

  /** How often an entry is among the retained ones, flags masked. */
  function Retained(s: seq<Entry>, t: Target, e: Entry): nat {
    if s == [] then 0 else Retained(s[..|s| - 1], t, e) + Weight(s[|s| - 1], t, e)
  }

  function Weight(x: Entry, t: Target, e: Entry): nat { if Live(x, t) && Masked(x, t) == e then 1 else 0 }

  lemma {:induction false} RetainedUpdate(s: seq<Entry>, i: nat, x: Entry, t: Target, e: Entry)
    requires i < |s|
    ensures Retained(s[i := x], t, e) + Weight(s[i], t, e) == Retained(s, t, e) + Weight(x, t, e)
  {
    hide Weight;
    var n := |s| - 1;
    if i == n {
      assert s[i := x][..n] == s[..n];
    } else {
      RetainedUpdate(s[..n], i, x, t, e);
      assert s[i := x][..n] == s[..n][i := x];
    }
  }

  lemma RetainedSwap(s: seq<Entry>, i: nat, j: nat, t: Target, e: Entry)
    requires i < |s| && j < |s|
    ensures Retained(s[i := s[j]][j := s[i]], t, e) == Retained(s, t, e)
  {
    hide Weight, Retained;
    RetainedUpdate(s, i, s[j], t, e);
    RetainedUpdate(s[i := s[j]], j, s[i], t, e);
  }

  ghost predicate SameRetained(s: seq<Entry>, old_: seq<Entry>, t: Target) {
    forall e :: Retained(s, t, e) == Retained(old_, t, e)
  }

  /** No DT_NULL before another entry. */
  predicate NullsLast(s: seq<Entry>) {
    forall i, j :: 0 <= i < j < |s| && s[i].tag == DT_NULL ==> s[j].tag == DT_NULL
  }

  // ----- the pass

  /** The last entry other than DT_NULL; 0 when there is none after the first. */
  method LastNonNull(a: array<Entry>) returns (last: nat)
    requires a.Length > 0
    ensures last < a.Length && forall i :: last < i < a.Length ==> a[i].tag == DT_NULL
    ensures last > 0 ==> a[last].tag != DT_NULL
  {
    var j := a.Length - 1;
    while j > 0
      invariant 0 <= j < a.Length && forall i :: j < i < a.Length ==> a[i].tag == DT_NULL
    {
      if a[j].tag != DT_NULL {
        return j;
      }
      j := j - 1;
    }
    return 0;
  }

  /** Everything from live on is DT_NULL, everything before done is clean. */
  ghost predicate Progress(s: seq<Entry>, done: int, live: int, t: Target) {
    && 0 <= done <= |s| && 0 <= live <= |s|
    && (forall i :: live <= i < |s| ==> s[i].tag == DT_NULL)
    && (forall i :: 0 <= i < done ==> !Removable(s[i].tag, t) && Masked(s[i], t) == s[i])
  }

  /** If the section began with no DT_NULL before another entry, the part up to live holds none. */
  ghost predicate Packed(s: seq<Entry>, live: int) {
    live <= |s| && ((forall i :: 0 <= i < live ==> s[i].tag != DT_NULL) || (forall i :: 0 <= i < |s| ==> s[i].tag == DT_NULL))
  }

  function Nulled(s: seq<Entry>, j: nat, last: nat): (r: seq<Entry>)
    requires j <= last < |s|
    ensures |r| == |s|
  {
    var s1 := s[j := s[j].(tag := DT_NULL)];
    s1[j := s1[last]][last := s1[j]]
  }

  lemma NulledKeeps(s: seq<Entry>, j: nat, last: nat, t: Target)
    requires Progress(s, j, last + 1, t) && j <= last < |s| && Removable(s[j].tag, t)
    ensures Progress(Nulled(s, j, last), j, last, t)
    ensures SameRetained(Nulled(s, j, last), s, t)
    ensures Packed(s, last + 1) ==> Packed(Nulled(s, j, last), last)
  {
    hide Masked, Retained, Removable;
    NullStays(t);
    forall e ensures Retained(Nulled(s, j, last), t, e) == Retained(s, t, e) {
      var s1 := s[j := s[j].(tag := DT_NULL)];
      RetainedUpdate(s, j, s[j].(tag := DT_NULL), t, e);
      RetainedSwap(s1, j, last, t, e);
    }
  }

  lemma NullStays(t: Target)
    ensures !Removable(DT_NULL, t)
  {
  }

  lemma MaskKeeps(s: seq<Entry>, j: nat, live: nat, t: Target)
    requires Progress(s, j, live, t) && j < |s| && !Removable(s[j].tag, t)
    ensures Progress(s[j := Masked(s[j], t)], j + 1, live, t)
    ensures SameRetained(s[j := Masked(s[j], t)], s, t)
    ensures Packed(s, live) ==> Packed(s[j := Masked(s[j], t)], live)
  {
    hide Masked, Retained, Removable;
    MaskedTwice(s[j], t);
    forall e ensures Retained(s[j := Masked(s[j], t)], t, e) == Retained(s, t, e) {
      RetainedUpdate(s, j, Masked(s[j], t), t, e);
    }
  }

  lemma LiveAhead(s: seq<Entry>, j: nat, live: nat, t: Target)
    requires Progress(s, j, live, t) && j < |s| && Removable(s[j].tag, t)
    ensures j < live
  {
    NullStays(t);
  }

  /** Which tags are removed, by their numbers in the ELF specifications. */
  lemma RemovedTags(tag: u64, t: Target)
    ensures Removable(tag, t) <==>
      match tag
      case 15 => true
      case 29 => t.apiLevel < 24
      case 0x6fff_fef5 | 0x6fff_fff0 | 0x6fff_fffc | 0x6fff_fffd | 0x6fff_fffe | 0x6fff_ffff => t.apiLevel < 23
      case 0x7000_0001 | 0x7000_0003 | 0x7000_0005 => t.aarch64 && t.apiLevel < 31
      case _ => false
  {
  }

  /** A cleaned section: no DT_RPATH ever, no version or hash tables below 23, no DT_RUNPATH below 24, no AArch64
      tags below 31, and no unsupported flag. */
  predicate Clean(e: Entry, t: Target) {
    && e.tag != 15
    && (t.apiLevel < 23 ==> e.tag !in {0x6fff_fef5, 0x6fff_fff0, 0x6fff_fffc, 0x6fff_fffd, 0x6fff_fffe, 0x6fff_ffff})
    && (t.apiLevel < 24 ==> e.tag != 29)
    && (t.aarch64 && t.apiLevel < 31 ==> e.tag !in {0x7000_0001, 0x7000_0003, 0x7000_0005})
    && (e.tag == 0x6fff_fffb ==> And(t.supported, e.val) == e.val)
  }

  lemma CleanIs(e: Entry, t: Target)
    ensures Clean(e, t) <==> !Removable(e.tag, t) && Masked(e, t) == e
  {
    RemovedTags(e.tag, t);
  }

  /** The loop over the section, for any non-empty section: every access is in bounds, no removable entry
      remains, and the retained entries are the same with unsupported flags cleared. */
  method Compact(a: array<Entry>, t: Target)
    requires 0 < a.Length < 0x1_0000_0000
    modifies a
    ensures forall i :: 0 <= i < a.Length ==> Clean(a[i], t)
    ensures SameRetained(a[..], old(a[..]), t)
    ensures NullsLast(old(a[..])) ==> NullsLast(a[..])
  {
    hide Removable, Masked, Retained, Progress, Packed, SameRetained, Clean;
    var last := LastNonNull(a);
    ghost var live := last + 1;
    var j := 0;
    Started(a[..], live, t);
    while j < a.Length
      invariant 0 <= j <= a.Length && 0 <= live <= a.Length
      invariant last == if live == 0 then 0xffff_ffff else live - 1
      invariant Progress(a[..], j, live, t) && SameRetained(a[..], old(a[..]), t)
      invariant NullsLast(old(a[..])) ==> Packed(a[..], live)
      decreases a.Length - j + live
    {
      ghost var s := a[..];
      if Removable(a[j].tag, t) {
        LiveAhead(s, j, live, t);
        NulledKeeps(s, j, last, t);
        a[j] := a[j].(tag := DT_NULL);
        a[j], a[last] := a[last], a[j];
        assert a[..] == Nulled(s, j, last);
        last := (last - 1) % 0x1_0000_0000;
        live := live - 1;
      } else {
        MaskKeeps(s, j, live, t);
        a[j] := Masked(a[j], t);
        assert a[..] == s[j := Masked(s[j], t)];
        j := j + 1;
      }
      SameTwice(a[..], s, old(a[..]), t);
    }
    Finished(a[..], live, t);
  }

  lemma SameTwice(s: seq<Entry>, u: seq<Entry>, v: seq<Entry>, t: Target)
    requires SameRetained(s, u, t) && SameRetained(u, v, t)
    ensures SameRetained(s, v, t)
  {
    hide Retained;
  }

  lemma Started(s: seq<Entry>, live: nat, t: Target)
    requires 0 < live <= |s| && (live > 1 ==> s[live - 1].tag != DT_NULL) && forall i :: live <= i < |s| ==> s[i].tag == DT_NULL
    ensures Progress(s, 0, live, t) && SameRetained(s, s, t) && (NullsLast(s) ==> Packed(s, live))
  {
    hide Removable, Masked, Retained;
  }

  lemma Finished(s: seq<Entry>, live: nat, t: Target)
    requires Progress(s, |s|, live, t)
    ensures forall i :: 0 <= i < |s| ==> Clean(s[i], t)
    ensures Packed(s, live) ==> NullsLast(s)
  {
    hide Removable, Masked, Clean;
    forall i | 0 <= i < |s| ensures Clean(s[i], t) { CleanIs(s[i], t); }
  }
}
