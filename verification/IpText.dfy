/** The highlighter's hand-written address checks, and the text forms they are meant to accept:
    dotted decimal, and section 2.2 of RFC 4291. */
module IpText {

  // ----- characters

  predicate Decimal(c: char) { '0' <= c <= '9' }

  /** c | 32 */
  function Lowered(c: char): int {
    if c as int / 32 % 2 == 1 then c as int else c as int + 32
  }

  predicate Hexadecimal(c: char) { Decimal(c) || 'a' as int <= Lowered(c) <= 'f' as int }

  predicate Alphabetic(c: char) { 'a' as int <= Lowered(c) <= 'z' as int }

  predicate AllDecimal(s: string) { forall i :: 0 <= i < |s| ==> Decimal(s[i]) }

  predicate AllHexadecimal(s: string) { forall i :: 0 <= i < |s| ==> Hexadecimal(s[i]) }

  lemma Separators()
    ensures !Hexadecimal(':') && !Hexadecimal('.') && !Decimal('.')
  {
  }

  // ----- the grammar

  function Value(s: string): nat
    requires AllDecimal(s)
  {
    if s == "" then 0 else 10 * Value(s[..|s| - 1]) + (s[|s| - 1] as int - '0' as int)
  }

  predicate Octet(s: string) {
    1 <= |s| <= 3 && AllDecimal(s) && (|s| > 1 ==> s[0] != '0') && Value(s) <= 255
  }

  /** n octets separated by dots. */
  ghost predicate Dotted(s: string, n: nat)
    decreases n, 1
  {
    if n <= 1 then n == 1 && Octet(s)
    else exists k :: DottedAt(s, n, k)
  }

  ghost predicate DottedAt(s: string, n: nat, k: int)
    requires n > 1
    decreases n - 1, 2
  {
    0 <= k < |s| && s[k] == '.' && Octet(s[..k]) && Dotted(s[k + 1..], n - 1)
  }

  ghost predicate Ipv4(s: string) { Dotted(s, 4) }

  predicate Group(s: string) { 1 <= |s| <= 4 && AllHexadecimal(s) }

  /** Hexadecimal groups separated by colons, of which the last may be a dotted IPv4 address; w is the
      number of 16-bit words they stand for. */
  ghost predicate Pieces(s: string, w: int)
    decreases |s|, 1
  {
    (w == 1 && Group(s)) || (w == 2 && Ipv4(s)) || exists k :: PiecesAt(s, w, k)
  }

  ghost predicate PiecesAt(s: string, w: int, k: int)
    decreases |s|, 0
  {
    0 <= k < |s| && s[k] == ':' && Group(s[..k]) && Pieces(s[k + 1..], w - 1)
  }

  /** Plain groups, n of them. */
  ghost predicate Groups(s: string, n: int)
    decreases |s|, 1
  {
    (n == 1 && Group(s)) || exists k :: GroupsAt(s, n, k)
  }

  ghost predicate GroupsAt(s: string, n: int, k: int)
    decreases |s|, 0
  {
    0 <= k < |s| && s[k] == ':' && Group(s[..k]) && Groups(s[k + 1..], n - 1)
  }

  /** A double colon at position k, standing for at least one of the eight words. */
  ghost predicate Compressed(s: string, k: int, m: int, n: int) {
    && 0 <= k < |s| - 1 && s[k] == ':' && s[k + 1] == ':'
    && (if k == 0 then m == 0 else m >= 1 && Groups(s[..k], m))
    && (if k + 2 == |s| then n == 0 else n >= 1 && Pieces(s[k + 2..], n))
    && m + n <= 7
  }

  ghost predicate Ipv6(s: string) {
    Pieces(s, 8) || exists k, m, n :: Compressed(s, k, m, n)
  }

  // ----- the characters of an address

  lemma {:induction false} DottedChars(s: string, n: nat)
    requires Dotted(s, n)
    ensures forall i :: 0 <= i < |s| ==> Decimal(s[i]) || s[i] == '.'
    decreases n
  {
    hide Value;
    if n > 1 {
      var k :| DottedAt(s, n, k);
      DottedChars(s[k + 1..], n - 1);
      assert s == s[..k] + ['.'] + s[k + 1..];
    }
  }

  lemma Ipv4Chars(s: string)
    requires Ipv4(s)
    ensures s != "" && forall i :: 0 <= i < |s| ==> Decimal(s[i]) || s[i] == '.'
  {
    hide Octet;
    DottedChars(s, 4);
  }

  predicate AddressChars(s: string) {
    forall i :: 0 <= i < |s| ==> Hexadecimal(s[i]) || s[i] == '.' || s[i] == ':'
  }

  lemma AroundColon(s: string, k: nat)
    requires k < |s| && s[k] == ':' && AddressChars(s[..k]) && AddressChars(s[k + 1..])
    ensures AddressChars(s)
  {
    hide Hexadecimal;
    assert s == s[..k] + [':'] + s[k + 1..];
  }

  lemma {:induction false} PiecesChars(s: string, w: int)
    requires Pieces(s, w)
    ensures AddressChars(s)
    decreases |s|
  {
    hide Ipv4, AddressChars;
    if w == 2 && Ipv4(s) {
      PieceChars(s);
    } else if w == 1 && Group(s) {
      PieceChars(s);
    } else {
      var k :| PiecesAt(s, w, k);
      PieceChars(s[..k]);
      PiecesChars(s[k + 1..], w - 1);
      AroundColon(s, k);
    }
  }

  lemma PieceChars(s: string)
    requires Group(s) || Ipv4(s)
    ensures AddressChars(s)
  {
    hide Ipv4;
    if !Group(s) { Ipv4Chars(s); }
  }

  lemma {:induction false} GroupsChars(s: string, n: int)
    requires Groups(s, n)
    ensures AddressChars(s)
    decreases |s|
  {
    hide Ipv4, AddressChars;
    if n == 1 && Group(s) {
      PieceChars(s);
    } else {
      var k :| GroupsAt(s, n, k);
      PieceChars(s[..k]);
      GroupsChars(s[k + 1..], n - 1);
      AroundColon(s, k);
    }
  }

  lemma Ipv6Chars(s: string)
    requires Ipv6(s)
    ensures AddressChars(s)
  {
    hide Pieces, Groups, AddressChars;
    if Pieces(s, 8) {
      PiecesChars(s, 8);
    } else {
      var k, m, n :| Compressed(s, k, m, n);
      if k > 0 { GroupsChars(s[..k], m); }
      if k + 2 < |s| { PiecesChars(s[k + 2..], n); }
      CompressedChars(s, k);
    }
  }

  lemma CompressedChars(s: string, k: nat)
    requires k < |s| - 1 && s[k] == ':' && s[k + 1] == ':'
    requires (k == 0 || AddressChars(s[..k])) && (k + 2 == |s| || AddressChars(s[k + 2..]))
    ensures AddressChars(s)
  {
    hide Hexadecimal;
    assert s == s[..k] + "::" + s[k + 2..];
  }

  // ----- is_valid_ipv4

  /** How many of the first limit characters are decimal digits, before the first that is not. */
  function DecimalRun(s: string, limit: nat): (j: nat)
    ensures j <= |s| && j <= limit && AllDecimal(s[..j])
    ensures j == |s| || j == limit || !Decimal(s[j])
  {
    if limit == 0 || s == "" || !Decimal(s[0]) then 0
    else
      var j := 1 + DecimalRun(s[1..], limit - 1);
      assert s[..j] == [s[0]] + s[1..][..j - 1];
      j
  }

  /** The scan from the i-th octet on. */
  predicate ScanIpv4(s: string, i: nat)
    decreases |s|
  {
    if i >= 4 || s == "" then false
    else
      var j := DecimalRun(s, 3);
      if j == 0 || (j > 1 && s[0] == '0') || Value(s[..j]) > 255 then false
      else if j == |s| then i == 3
      else s[j] == '.' && ScanIpv4(s[j + 1..], i + 1)
  }

  lemma RunIsUnique(s: string, limit: nat, k: nat)
    requires k <= |s| && k <= limit && AllDecimal(s[..k]) && (k == |s| || k == limit || !Decimal(s[k]))
    ensures DecimalRun(s, limit) == k
  {
  }

  lemma {:induction false} ScanIpv4Correct(s: string, i: nat)
    requires i < 4
    ensures ScanIpv4(s, i) <==> Dotted(s, 4 - i)
    decreases |s|
  {
    hide Value, Dotted, DecimalRun, AllDecimal, Decimal;
    var j := DecimalRun(s, 3);
    DottedStep(s, 4 - i);
    RunOctet(s);
    if 0 < j < |s| && s[j] == '.' && i < 3 { ScanIpv4Correct(s[j + 1..], i + 1); }
  }

  lemma RunOctet(s: string)
    ensures var j := DecimalRun(s, 3); Octet(s[..j]) <==> j > 0 && (j > 1 ==> s[0] != '0') && Value(s[..j]) <= 255
  {
    hide Value;
  }

  lemma DottedStep(s: string, n: nat)
    requires n >= 1
    ensures var j := DecimalRun(s, 3);
            Dotted(s, n) <==> j > 0 && Octet(s[..j]) && if j == |s| then n == 1 else n > 1 && s[j] == '.' && Dotted(s[j + 1..], n - 1)
  {
    hide Value, DecimalRun, AllDecimal, Decimal;
    var j := DecimalRun(s, 3);
    if Dotted(s, n) { DottedStarts(s, n); }
    if j == |s| {
      assert s[..j] == s;
    } else if n > 1 && s[j] == '.' && Octet(s[..j]) && Dotted(s[j + 1..], n - 1) {
      assert DottedAt(s, n, j);
    }
  }

  /** The first octet ends where the run of digits ends. */
  lemma DottedStarts(s: string, n: nat)
    requires Dotted(s, n)
    ensures var j := DecimalRun(s, 3);
            && j > 0 && Octet(s[..j])
            && (if n == 1 then j == |s| else DottedAt(s, n, j))
  {
    hide Value;
    Separators();
    if n == 1 {
      assert s[..|s|] == s;
      RunIsUnique(s, 3, |s|);
    } else {
      var k :| DottedAt(s, n, k);
      RunIsUnique(s, 3, k);
    }
  }

  // ----- is_valid_ipv6

  function HexRun(s: string, limit: nat): (j: nat)
    ensures j <= |s| && j <= limit && AllHexadecimal(s[..j])
    ensures j == |s| || j == limit || !Hexadecimal(s[j])
  {
    if limit == 0 || s == "" || !Hexadecimal(s[0]) then 0
    else
      var j := 1 + HexRun(s[1..], limit - 1);
      assert s[..j] == [s[0]] + s[1..][..j - 1];
      j
  }

  lemma HexRunIsUnique(s: string, limit: nat, k: nat)
    requires k <= |s| && k <= limit && AllHexadecimal(s[..k]) && (k == |s| || k == limit || !Hexadecimal(s[k]))
    ensures HexRun(s, limit) == k
  {
  }

  /** The loop from the i-th group on; next is the character after the span, which the loop can read. */
  predicate ScanIpv6(s: string, i: nat, seen: bool, next: char)
    decreases |s|
  {
    if s == "" then true
    else if s[0] == ':' && !seen then |s| == 1 || (i != 7 && ScanIpv6(s[1..], i + 1, true, next))
    else
      var j := HexRun(s, 4);
      if j == 0 then false
      else if j == |s| && (seen || i == 7) then true
      else if i == 7 then false
      else if j == |s| then next == ':'
      else if s[j] == ':' then ScanIpv6(s[j + 1..], i + 1, seen, next)
      else s[j] == '.' && (i >= 6 || seen) && ScanIpv4(s, 0)
  }

  /** `is_valid_ipv6` */
  predicate IsValidIpv6(s: string, next: char) {
    && |s| >= 2
    && !(s[0] == ':' && s[1] != ':')
    && !(s[|s| - 1] == ':' && s[|s| - 2] != ':')
    && ScanIpv6(if s[0] == ':' then s[1..] else s, 0, false, next)
  }

  // ----- what the first group of a list can be

  lemma GroupRun(s: string, k: nat)
    requires k <= |s| && Group(s[..k]) && (k == |s| || s[k] == ':')
    ensures HexRun(s, 4) == k
  {
    Separators();
    HexRunIsUnique(s, 4, k);
  }

  lemma OctetIsHex(s: string, k: nat)
    requires k < |s| && s[k] == '.' && Octet(s[..k])
    ensures HexRun(s, 4) == k
  {
    hide Value;
    Separators();
    HexRunIsUnique(s, 4, k);
  }

  lemma Ipv4Starts(s: string)
    requires Ipv4(s)
    ensures var j := HexRun(s, 4); 0 < j < |s| && s[j] == '.'
  {
    hide Value;
    DottedStarts(s, 4);
    OctetIsHex(s, DecimalRun(s, 3));
  }

  lemma LongerPieces(s: string, w: int)
    requires Pieces(s, w) && !(w == 1 && Group(s)) && !(w == 2 && Ipv4(s))
    ensures PiecesAt(s, w, HexRun(s, 4))
  {
    hide Ipv4, HexRun, Group;
    var k :| PiecesAt(s, w, k);
    GroupRun(s, k);
  }

  lemma LongerGroups(s: string, n: int)
    requires Groups(s, n) && !(n == 1 && Group(s))
    ensures GroupsAt(s, n, HexRun(s, 4))
  {
    hide HexRun, Group;
    var k :| GroupsAt(s, n, k);
    GroupRun(s, k);
  }

  /** A list of pieces, read from its first group. */
  lemma PiecesStep(s: string, w: int)
    ensures var j := HexRun(s, 4);
            Pieces(s, w) <==>
              if j == 0 then false
              else if j == |s| then w == 1
              else if s[j] == ':' then Pieces(s[j + 1..], w - 1)
              else s[j] == '.' && w == 2 && Ipv4(s)
  {
    hide Ipv4;
    Separators();
    var j := HexRun(s, 4);
    if Pieces(s, w) {
      if w == 1 && Group(s) {
        assert s[..|s|] == s;
        GroupRun(s, |s|);
      } else if w == 2 && Ipv4(s) {
        Ipv4Starts(s);
      } else {
        LongerPieces(s, w);
      }
    }
    if 0 < j < |s| && s[j] == ':' && Pieces(s[j + 1..], w - 1) { assert PiecesAt(s, w, j); }
    if 0 < j == |s| { assert s[..j] == s; }
  }

  lemma {:induction false} PiecesPositive(s: string, w: int)
    requires Pieces(s, w)
    ensures w >= 1 && s != ""
    decreases |s|
  {
    hide Ipv4;
    if w == 2 && Ipv4(s) {
      Ipv4Starts(s);
    } else if !(w == 1 && Group(s)) {
      var k :| PiecesAt(s, w, k);
      PiecesPositive(s[k + 1..], w - 1);
    }
  }

  lemma GroupsStep(s: string, n: int)
    ensures var j := HexRun(s, 4);
            Groups(s, n) <==>
              if j == 0 then false
              else if j == |s| then n == 1
              else s[j] == ':' && Groups(s[j + 1..], n - 1)
  {
    Separators();
    var j := HexRun(s, 4);
    if Groups(s, n) {
      if n == 1 && Group(s) {
        assert s[..|s|] == s;
        GroupRun(s, |s|);
      } else {
        LongerGroups(s, n);
      }
    }
    if 0 < j < |s| && s[j] == ':' && Groups(s[j + 1..], n - 1) { assert GroupsAt(s, n, j); }
    if 0 < j == |s| { assert s[..j] == s; }
  }

  // ----- after the double colon

  /** The span does not end in a single colon. */
  predicate Finished(s: string) { s != "" && (s[|s| - 1] == ':' ==> |s| == 1 || s[|s| - 2] == ':') }

  ghost predicate UpTo(s: string, most: int) { exists w :: w <= most && Pieces(s, w) }

  lemma UpToStep(s: string, most: int)
    ensures var j := HexRun(s, 4);
            UpTo(s, most) <==>
              if j == 0 then false
              else if j == |s| then most >= 1
              else if s[j] == ':' then UpTo(s[j + 1..], most - 1)
              else s[j] == '.' && most >= 2 && Ipv4(s)
  {
    hide Ipv4, Pieces, HexRun, Hexadecimal, AllHexadecimal;
    var j := HexRun(s, 4);
    if UpTo(s, most) {
      var w :| w <= most && Pieces(s, w);
      PiecesStep(s, w);
    }
    PiecesStep(s, 1);
    PiecesStep(s, 2);
    if 0 < j < |s| && s[j] == ':' && UpTo(s[j + 1..], most - 1) {
      var w :| w <= most - 1 && Pieces(s[j + 1..], w);
      PiecesStep(s, w + 1);
      assert Pieces(s, w + 1);
    }
  }

  lemma UpToNone(s: string)
    ensures !UpTo(s, 0)
  {
    if UpTo(s, 0) {
      var w :| w <= 0 && Pieces(s, w);
      PiecesPositive(s, w);
    }
  }

  lemma {:induction false} ScanAfter(s: string, i: nat, next: char)
    requires Finished(s) && i <= 7
    ensures ScanIpv6(s, i, true, next) <==> UpTo(s, 8 - i)
    decreases |s|
  {
    hide Ipv4, UpTo, ScanIpv4;
    var j := HexRun(s, 4);
    UpToStep(s, 8 - i);
    if 0 < j < |s| && s[j] == ':' {
      if i < 7 { ScanAfter(s[j + 1..], i + 1, next); } else { UpToNone(s[j + 1..]); }
    }
    ScanIpv4Is(s);
  }

  lemma ScanIpv4Is(s: string)
    ensures ScanIpv4(s, 0) <==> Ipv4(s)
  {
    ScanIpv4Correct(s, 0);
  }

  // ----- before the double colon

  ghost predicate CompressedIn(s: string, k: int, m: int, n: int, room: int) {
    && 0 <= k < |s| - 1 && s[k] == ':' && s[k + 1] == ':'
    && (if k == 0 then m == 0 else m >= 1 && Groups(s[..k], m))
    && (if k + 2 == |s| then n == 0 else n >= 1 && Pieces(s[k + 2..], n))
    && m + n <= room
  }

  /** What may follow a group and its colon when a double colon is still to come. */
  ghost predicate Squeezed(s: string, room: int) {
    if s != "" && s[0] == ':' then room >= 0 && (|s| == 1 || UpTo(s[1..], room))
    else exists k, m, n :: CompressedIn(s, k, m, n, room)
  }

  /** The first group of the left side is the first group of the whole. */
  lemma LeftStarts(s: string, k: nat, m: int)
    requires 0 < k < |s| && s[k] == ':' && Groups(s[..k], m)
    ensures var j := HexRun(s, 4);
            && 0 < j <= k && s[j] == ':'
            && (if j == k then m == 1 else k > j + 1 && Groups(s[j + 1..][..k - j - 1], m - 1))
  {
    hide Groups;
    GroupsStep(s[..k], m);
    var j := HexRun(s[..k], 4);
    assert s[..k][..j] == s[..j];
    GroupRun(s, j);
    if j < k {
      assert s[..k][j + 1..] == s[j + 1..][..k - j - 1];
      GroupsStep(s[..k][j + 1..], m - 1);
    }
  }

  lemma GroupsStart(s: string, n: int)
    requires Groups(s, n)
    ensures n >= 1 && s != "" && s[0] != ':'
  {
    hide Groups;
    Separators();
    GroupsStep(s, n);
    GroupsPositive(s, n);
  }

  lemma SqueezedNarrows(s: string, k: int, m: int, n: int, room: int)
    requires CompressedIn(s, k, m, n, room) && s[0] != ':'
    ensures var j := HexRun(s, 4); 0 < j < |s| && s[j] == ':' && Squeezed(s[j + 1..], room - 1)
  {
    hide Groups, Pieces, HexRun, Hexadecimal, AllHexadecimal;
    LeftStarts(s, k, m);
    var j := HexRun(s, 4);
    var rest := s[j + 1..];
    if j == k {
      assert rest[0] == ':' && (|rest| == 1 || rest[1..] == s[k + 2..]);
    } else {
      var l := k - j - 1;
      GroupsStart(rest[..l], m - 1);
      assert rest[0] == rest[..l][0];
      assert l + 2 != |rest| ==> rest[l + 2..] == s[k + 2..];
      assert CompressedIn(rest, l, m - 1, n, room - 1);
    }
  }

  lemma {:induction false} GroupsPositive(s: string, n: int)
    requires Groups(s, n)
    ensures n >= 1
    decreases |s|
  {
    hide Groups;
    GroupsStep(s, n);
    if HexRun(s, 4) != |s| { GroupsPositive(s[HexRun(s, 4) + 1..], n - 1); }
  }

  lemma SqueezedHere(s: string, room: int)
    requires var j := HexRun(s, 4); 0 < j < |s| - 1 && s[j] == ':' && s[j + 1] == ':' && Squeezed(s[j + 1..], room - 1)
    ensures exists k, m, n :: CompressedIn(s, k, m, n, room)
  {
    hide Groups, Pieces, HexRun, Hexadecimal, AllHexadecimal;
    var j := HexRun(s, 4);
    var rest := s[j + 1..];
    FirstGroup(s);
    assert Groups(s[..j], 1) by { OneGroup(s[..j]); }
    if |rest| == 1 {
      assert CompressedIn(s, j, 1, 0, room);
    } else {
      assert rest[1..] == s[j + 2..];
      var n :| n <= room - 1 && Pieces(rest[1..], n);
      PiecesPositive(rest[1..], n);
      assert CompressedIn(s, j, 1, n, room);
    }
  }

  lemma GroupsPrepend(s: string, k: nat, m: int)
    requires var j := HexRun(s, 4); 0 < j < |s| && s[j] == ':' && k <= |s| - j - 1 && Groups(s[j + 1..][..k], m)
    ensures Groups(s[..k + HexRun(s, 4) + 1], m + 1)
  {
    hide Groups, HexRun, Hexadecimal, AllHexadecimal, Group;
    var j := HexRun(s, 4);
    var left := s[..k + j + 1];
    FirstGroup(s);
    assert left[..j] == s[..j] && left[j] == ':' && left[j + 1..] == s[j + 1..][..k];
    GroupRun(left, j);
    GroupsStep(left, m + 1);
  }

  lemma SqueezedLater(s: string, k: int, m: int, n: int, room: int)
    requires var j := HexRun(s, 4); 0 < j < |s| && s[j] == ':' && CompressedIn(s[j + 1..], k, m, n, room - 1) && k > 0
    ensures CompressedIn(s, k + HexRun(s, 4) + 1, m + 1, n, room)
  {
    hide Groups, Pieces, HexRun, Hexadecimal, AllHexadecimal;
    var j := HexRun(s, 4);
    var rest, l := s[j + 1..], k + j + 1;
    FirstGroup(s);
    GroupsPrepend(s, k, m);
    assert l + 2 != |s| ==> s[l + 2..] == rest[k + 2..];
  }

  lemma SqueezedWidens(s: string, room: int)
    requires s != "" && s[0] != ':'
    requires var j := HexRun(s, 4); 0 < j < |s| && s[j] == ':' && Squeezed(s[j + 1..], room - 1)
    ensures Squeezed(s, room)
  {
    hide CompressedIn, HexRun, Hexadecimal, AllHexadecimal, UpTo;
    var j := HexRun(s, 4);
    var rest := s[j + 1..];
    if rest != "" && rest[0] == ':' {
      SqueezedHere(s, room);
    } else {
      var k, m, n :| CompressedIn(rest, k, m, n, room - 1);
      CompressedInside(rest, k, m, n, room - 1);
      SqueezedLater(s, k, m, n, room);
    }
  }

  lemma CompressedInside(s: string, k: int, m: int, n: int, room: int)
    requires CompressedIn(s, k, m, n, room)
    ensures s != "" && (s[0] != ':' ==> k > 0)
  {
  }

  lemma FirstGroup(s: string)
    ensures HexRun(s, 4) > 0 ==> Group(s[..HexRun(s, 4)])
  {
  }

  lemma OneGroup(s: string)
    requires Group(s)
    ensures Groups(s, 1)
  {
  }

  lemma SqueezedStep(s: string, room: int)
    requires s != "" && s[0] != ':'
    ensures var j := HexRun(s, 4); Squeezed(s, room) <==> 0 < j < |s| && s[j] == ':' && Squeezed(s[j + 1..], room - 1)
  {
    hide Groups, Pieces;
    var j := HexRun(s, 4);
    if Squeezed(s, room) {
      var k, m, n :| CompressedIn(s, k, m, n, room);
      SqueezedNarrows(s, k, m, n, room);
    }
    if 0 < j < |s| && s[j] == ':' && Squeezed(s[j + 1..], room - 1) { SqueezedWidens(s, room); }
  }

  lemma SqueezedNone(s: string)
    ensures !Squeezed(s, -1)
  {
  }

  /** A list of groups that is too short to be an address. */
  ghost predicate ShortList(s: string, most: int) { exists n :: n <= most && Groups(s, n) }

  lemma ShortListStep(s: string, most: int)
    ensures var j := HexRun(s, 4);
            ShortList(s, most) <==>
              if j == 0 then false else if j == |s| then most >= 1 else s[j] == ':' && ShortList(s[j + 1..], most - 1)
  {
    hide Groups, HexRun, Hexadecimal, AllHexadecimal;
    var j := HexRun(s, 4);
    if ShortList(s, most) {
      var n :| n <= most && Groups(s, n);
      GroupsStep(s, n);
    }
    GroupsStep(s, 1);
    if 0 < j < |s| && s[j] == ':' && ShortList(s[j + 1..], most - 1) {
      var n :| n <= most - 1 && Groups(s[j + 1..], n);
      GroupsStep(s, n + 1);
      assert Groups(s, n + 1);
    }
  }

  lemma ShortListNone(s: string)
    ensures !ShortList(s, 0)
  {
    if ShortList(s, 0) {
      var n :| n <= 0 && Groups(s, n);
      GroupsPositive(s, n);
    }
  }

  lemma NextFinished(s: string)
    requires Finished(s)
    ensures var j := HexRun(s, 4); 0 < j < |s| && s[j] == ':' ==> Finished(s[j + 1..])
  {
    hide HexRun, AllHexadecimal, Hexadecimal;
    RunLast(s);
  }

  lemma RunLast(s: string)
    ensures var j := HexRun(s, 4); j > 0 ==> s[j - 1] != ':'
  {
    hide HexRun;
    var j := HexRun(s, 4);
    if j > 0 { assert s[j - 1] == s[..j][j - 1]; }
  }

  lemma ColonRun(s: string)
    requires s != ""
    ensures s[0] == ':' ==> HexRun(s, 4) == 0
  {
  }

  lemma {:induction false} ScanBefore(s: string, i: nat, next: char)
    requires Finished(s) && i <= 7
    ensures ScanIpv6(s, i, false, next) <==> Pieces(s, 8 - i) || Squeezed(s, 7 - i) || (next == ':' && ShortList(s, 7 - i))
    decreases |s|
  {
    hide Ipv4, UpTo, ScanIpv4, Pieces, Squeezed, ShortList, Value, HexRun, Hexadecimal, AllHexadecimal;
    var j := HexRun(s, 4);
    ColonRun(s);
    PiecesStep(s, 8 - i);
    ShortListStep(s, 7 - i);
    ScanIpv4Is(s);
    if s[0] == ':' {
      SqueezedAtColon(s, 7 - i);
      if |s| > 1 {
        if i < 7 { ScanAfter(s[1..], i + 1, next); } else { UpToNone(s[1..]); }
      }
    } else {
      SqueezedStep(s, 7 - i);
      if 0 < j < |s| && s[j] == ':' {
        NextFinished(s);
        if i < 7 {
          ScanBefore(s[j + 1..], i + 1, next);
        } else {
          NoRoom(s[j + 1..]);
        }
      }
    }
  }

  lemma NoRoom(s: string)
    ensures !Pieces(s, 0) && !Squeezed(s, -1) && !ShortList(s, -1)
  {
    hide Pieces, Squeezed;
    SqueezedNone(s);
    ShortListNone(s);
    if Pieces(s, 0) { PiecesPositive(s, 0); }
  }

  lemma SqueezedAtColon(s: string, room: int)
    requires s != "" && s[0] == ':'
    ensures Squeezed(s, room) <==> room >= 0 && (|s| == 1 || UpTo(s[1..], room))
  {
  }

  // ----- both together

  lemma {:induction false} DottedEnds(s: string, n: nat)
    requires Dotted(s, n)
    ensures s != "" && s[|s| - 1] != ':'
    decreases n
  {
    hide Value;
    if n > 1 {
      var k :| DottedAt(s, n, k);
      DottedEnds(s[k + 1..], n - 1);
    }
  }

  lemma {:induction false} PiecesEnd(s: string, w: int)
    requires Pieces(s, w)
    ensures s != "" && s[|s| - 1] != ':'
    decreases |s|
  {
    hide Ipv4;
    Separators();
    if w == 2 && Ipv4(s) {
      Ipv4Ends(s);
    } else if !(w == 1 && Group(s)) {
      var k :| PiecesAt(s, w, k);
      PiecesEnd(s[k + 1..], w - 1);
    }
  }

  lemma Ipv4Ends(s: string)
    requires Ipv4(s)
    ensures s != "" && s[|s| - 1] != ':'
  {
    DottedEnds(s, 4);
  }

  lemma Ipv6Ends(s: string)
    requires Ipv6(s)
    ensures |s| >= 2 && !(s[|s| - 1] == ':' && s[|s| - 2] != ':')
  {
    hide Pieces, Groups;
    if Pieces(s, 8) {
      PiecesEnd(s, 8);
      PiecesStep(s, 8);
    } else {
      var k, m, n :| Compressed(s, k, m, n);
      if k + 2 < |s| { PiecesEnd(s[k + 2..], n); }
    }
  }

  lemma Ipv6Splits(s: string)
    requires s != ""
    ensures Ipv6(s) <==> if s[0] == ':' then |s| >= 2 && s[1] == ':' && Squeezed(s[1..], 7) else Pieces(s, 8) || Squeezed(s, 7)
  {
    hide Pieces, Groups;
    Separators();
    PiecesStep(s, 8);
    if s[0] == ':' {
      if Ipv6(s) {
        var k, m, n :| Compressed(s, k, m, n);
        if k > 0 { GroupsStep(s[..k], m); }
        assert k == 0;
        assert s[1..][0] == ':' && (|s| > 2 ==> s[1..][1..] == s[2..]);
      }
      if |s| >= 2 && s[1] == ':' && Squeezed(s[1..], 7) {
        SqueezedAtColon(s[1..], 7);
        if |s| == 2 {
          assert Compressed(s, 0, 0, 0);
        } else {
          assert s[1..][1..] == s[2..];
          var n :| n <= 7 && Pieces(s[2..], n);
          PiecesPositive(s[2..], n);
          assert Compressed(s, 0, 0, n);
        }
      }
    } else {
      forall k, m, n ensures Compressed(s, k, m, n) <==> CompressedIn(s, k, m, n, 7) { }
    }
  }

  /** For a span not followed by a colon, the check accepts exactly the text forms of RFC 4291. */
  lemma Ipv6Exactly(s: string, next: char)
    requires next != ':'
    ensures IsValidIpv6(s, next) <==> Ipv6(s)
  {
    hide Ipv6, ScanIpv6, Pieces, Squeezed;
    Ipv6Overreach(s, next);
  }

  /** Followed by a colon, it also accepts a list of two to seven groups. */
  lemma Ipv6Overreach(s: string, next: char)
    ensures IsValidIpv6(s, next) <==> Ipv6(s) || (next == ':' && |s| >= 2 && ShortList(s, 7))
  {
    hide Ipv6, ScanIpv6, Pieces, Squeezed, ShortList;
    if Ipv6(s) { Ipv6Ends(s); }
    if |s| >= 2 {
      Ipv6Splits(s);
      ShortListStep(s, 7);
      Separators();
      if Finished(s) {
        if s[0] == ':' {
          NotPieces(s[1..]);
          ScanBefore(s[1..], 0, next);
        } else {
          ScanBefore(s, 0, next);
        }
      }
      if ShortList(s, 7) { ShortListEnds(s, 7); }
    }
  }

  /** A span that starts with a colon has no first group. */
  lemma NotPieces(s: string)
    requires s != ""
    ensures s[0] == ':' ==> !Pieces(s, 8) && !ShortList(s, 7)
  {
    hide Pieces, ShortList;
    Separators();
    PiecesStep(s, 8);
    ShortListStep(s, 7);
  }

  lemma {:induction false} ShortListEnds(s: string, most: int)
    requires ShortList(s, most)
    ensures s != "" && s[|s| - 1] != ':'
    decreases |s|
  {
    hide ShortList;
    Separators();
    ShortListStep(s, most);
    var j := HexRun(s, 4);
    if j != |s| { ShortListEnds(s[j + 1..], most - 1); }
  }

  /** Two groups in front of a colon: accepted, and no address. */
  lemma Ipv6OverreachExample()
    ensures IsValidIpv6("1:2", ':') && !Ipv6("1:2")
  {
    hide Ipv6, Pieces, Squeezed, Groups, ShortList;
    var s := "1:2";
    GroupRun(s, 1);
    GroupRun(s[2..], 1);
    ShortListStep(s, 7);
    ShortListStep(s[2..], 6);
    Ipv6Overreach(s, ':');
    Ipv6Splits(s);
    PiecesStep(s, 8);
    PiecesStep(s[2..], 7);
    SqueezedStep(s, 7);
    SqueezedStep(s[2..], 6);
  }

  // ----- the loops of the source

  /** The character a pointer into the span reads; at its end, that is the one after the span. */
  function CharAt(s: string, next: char, i: nat): char
    requires i <= |s|
  {
    if i < |s| then s[i] else next
  }

  method ReadOctet(s: string, pos: nat) returns (j: nat, val: nat)
    requires pos < |s|
    ensures j == DecimalRun(s[pos..], 3) && pos + j <= |s| && val == Value(s[pos..][..j])
  {
    j, val := 0, 0;
    while j < 3 && pos + j < |s| && Decimal(s[pos + j])
      invariant 0 <= j <= 3 && pos + j <= |s| && AllDecimal(s[pos..][..j]) && val == Value(s[pos..][..j])
    {
      assert s[pos..][..j + 1] == s[pos..][..j] + [s[pos + j]];
      val := 10 * val + (s[pos + j] as int - '0' as int);
      j := j + 1;
    }
    RunIsUnique(s[pos..], 3, j);
  }

  /** `is_valid_ipv4`: whatever follows the span, exactly the dotted quads without leading zeros. */
  method CheckIpv4(s: string, next: char) returns (ok: bool)
    ensures ok <==> Ipv4(s)
  {
    hide DecimalRun, Value, Ipv4, AllDecimal, Decimal;
    ScanIpv4Is(s);
    assert s[0..] == s;
    var i, pos := 0, 0;
    while i < 4 && pos < |s|
      invariant 0 <= i <= 4 && 0 <= pos <= |s| + 1
      invariant ScanIpv4(s, 0) <==> pos <= |s| && ScanIpv4(s[pos..], i)
    {
      var j, val := ReadOctet(s, pos);
      if j == 0 || (j > 1 && s[pos] == '0') || val > 255 {
        return false;
      }
      if pos + j == |s| && i == 3 {
        return true;
      }
      if CharAt(s, next, pos + j) != '.' {
        return false;
      }
      assert pos + j < |s| ==> s[pos..][j + 1..] == s[pos + j + 1..];
      i, pos := i + 1, pos + j + 1;
    }
    return false;
  }

  method ReadGroup(s: string, pos: nat) returns (j: nat)
    requires pos < |s|
    ensures j == HexRun(s[pos..], 4) && pos + j <= |s|
  {
    j := 0;
    while j < 4 && pos + j < |s| && Hexadecimal(s[pos + j])
      invariant 0 <= j <= 4 && pos + j <= |s| && AllHexadecimal(s[pos..][..j])
    {
      assert s[pos..][..j + 1] == s[pos..][..j] + [s[pos + j]];
      j := j + 1;
    }
    HexRunIsUnique(s[pos..], 4, j);
  }

  /** `is_valid_ipv6` */
  method CheckIpv6(s: string, next: char) returns (ok: bool)
    ensures ok <==> IsValidIpv6(s, next)
    ensures next != ':' ==> (ok <==> Ipv6(s))
  {
    hide HexRun, Ipv6, Ipv4, ScanIpv4, Hexadecimal, AllHexadecimal;
    if next != ':' { Ipv6Exactly(s, next); }
    if |s| < 2 {
      return false;
    }
    var pos := 0;
    if s[pos] == ':' {
      pos := pos + 1;
      if s[pos] != ':' {
        return false;
      }
    }
    if s[|s| - 1] == ':' && s[|s| - 2] != ':' {
      return false;
    }
    ok := CheckGroups(s, pos, next);
    assert pos == 0 ==> s[pos..] == s;
  }

  method CheckGroups(s: string, start: nat, next: char) returns (ok: bool)
    requires start < |s|
    ensures ok <==> ScanIpv6(s[start..], 0, false, next)
  {
    hide HexRun, Ipv4, ScanIpv4, Hexadecimal, AllHexadecimal;
    var i, pos, seen := 0, start, false;
    while pos < |s|
      invariant 0 <= i <= 8 && pos <= |s| + 1
      invariant ScanIpv6(s[start..], 0, false, next) <==> pos > |s| || ScanIpv6(s[pos..], i, seen, next)
      invariant pos < |s| ==> i <= 7
      decreases |s| + 1 - pos
    {
      ghost var rest := s[pos..];
      if s[pos] == ':' && !seen {
        seen := true;
        pos := pos + 1;
        if pos == |s| {
          break;
        }
        if i == 7 {
          return false;
        }
        assert rest[1..] == s[pos..];
        i := i + 1;
      } else {
        var j := ReadGroup(s, pos);
        if j == 0 {
          return false;
        }
        if pos + j == |s| && (seen || i == 7) {
          return true;
        }
        if i == 7 {
          return false;
        }
        if CharAt(s, next, pos + j) != ':' {
          if CharAt(s, next, pos + j) != '.' || (i < 6 && !seen) {
            return false;
          }
          ok := CheckIpv4(s[pos..], next);
          if ok { Ipv4Starts(rest); }
          ScanIpv4Is(rest);
          return;
        }
        assert pos + j < |s| ==> rest[j + 1..] == s[pos + j + 1..];
        i, pos := i + 1, pos + j + 1;
      }
    }
    return true;
  }
}
