/** The highlighter's checks on single values of a configuration. */
module FieldChecks {
  import opened IpText

  /** `is_valid_hostname`; its test for adjacent dots can never be reached. */
  predicate IsValidHostname(s: string) {
    && 1 <= |s| <= 63
    && s[0] != '-' && s[|s| - 1] != '-' && s[0] != '.' && s[|s| - 1] != '.'
    && (forall i :: 0 <= i < |s| ==> Decimal(s[i]) || s[i] == '.' || Alphabetic(s[i]) || s[i] == '-')
    && exists i :: 0 <= i < |s| && !Decimal(s[i]) && s[i] != '.'
  }

  function HexDigit(c: char): int {
    if Decimal(c) then c as int - '0' as int else if Hexadecimal(c) then Lowered(c) - 'a' as int + 10 else -1
  }

  function HexNumber(s: string): int
    requires AllHexadecimal(s)
  {
    if s == "" then 0 else 16 * HexNumber(s[..|s| - 1]) + HexDigit(s[|s| - 1])
  }

  predicate IsValidUint(s: string, supportHex: bool, min: int, max: int) {
    && 1 <= |s| <= 10
    && if supportHex && |s| > 2 && s[0] == '0' && s[1] == 'x'
       then AllHexadecimal(s[2..]) && min <= HexNumber(s[2..]) <= max
       else AllDecimal(s) && min <= Value(s) <= max
  }

  predicate IsValidPort(s: string) { IsValidUint(s, false, 0, 65535) }

  predicate IsValidMtu(s: string) { IsValidUint(s, false, 576, 65535) }

  predicate IsValidKeepalive(s: string) { s == "off" || IsValidUint(s, false, 0, 65535) }

  predicate IsValidFwmark(s: string) { s == "off" || IsValidUint(s, true, 0, 4294967295) }

  predicate IsValidTable(s: string) { s == "auto" || s == "off" || |s| < 512 || IsValidUint(s, false, 0, 4294967295) }

  predicate IsValidSaveConfig(s: string) { s == "true" || s == "false" }

  predicate IsValidScope(s: string) {
    && 1 <= |s| <= 64
    && forall i :: 0 <= i < |s| ==> Alphabetic(s[i]) || Decimal(s[i]) || s[i] in "_=+.-"
  }

  /** The part of `is_valid_endpoint` inside the brackets; host is the span that starts at from. */
  predicate BracketedEndpoint(s: string, from: nat, i: nat, seenScope: bool)
    requires from <= i <= |s|
    decreases |s| - i
  {
    if i == |s| then false
    else if s[i] == '%' then !seenScope && IsValidIpv6(s[from..i], '%') && BracketedEndpoint(s, i + 1, i + 1, true)
    else if s[i] == ']' then
      && (if seenScope then IsValidScope(s[from..i]) else IsValidIpv6(s[from..i], ']'))
      && i + 1 < |s| && s[i + 1] == ':' && IsValidPort(s[i + 2..])
    else BracketedEndpoint(s, from, i + 1, seenScope)
  }

  predicate PlainEndpoint(s: string, i: nat)
    requires i <= |s|
    decreases |s| - i
  {
    if i == |s| then false
    else if s[i] == ':' then IsValidPort(s[i + 1..]) && (ScanIpv4(s[..i], 0) || IsValidHostname(s[..i]))
    else PlainEndpoint(s, i + 1)
  }

  /** `is_valid_endpoint` */
  predicate IsValidEndpoint(s: string) {
    s != "" && if s[0] == '[' then BracketedEndpoint(s, 1, 1, false) else PlainEndpoint(s, 0)
  }

  // ----- the endpoints it accepts

  /** host ":" port */
  ghost predicate HostPort(s: string, k: int) {
    0 <= k < |s| && s[k] == ':' && (Ipv4(s[..k]) || IsValidHostname(s[..k])) && IsValidPort(s[k + 1..])
  }

  /** A closing bracket at position k, with ":" port behind it. */
  predicate PortBehind(s: string, k: int) {
    0 <= k < |s| - 1 && s[k] == ']' && s[k + 1] == ':' && IsValidPort(s[k + 2..])
  }

  /** "[" address "]" ":" port, the address starting at from. */
  ghost predicate AddressPort(s: string, from: nat, k: int) {
    from <= k && PortBehind(s, k) && Ipv6(s[from..k])
  }

  predicate ScopePort(s: string, from: nat, k: int) {
    from <= k && PortBehind(s, k) && IsValidScope(s[from..k])
  }

  /** "[" address "%" scope "]" ":" port */
  ghost predicate ScopedPort(s: string, from: nat, j: int, k: int) {
    from <= j < |s| && s[j] == '%' && Ipv6(s[from..j]) && ScopePort(s, j + 1, k)
  }

  ghost predicate Endpoint(s: string) {
    || (exists k :: HostPort(s, k))
    || (s != "" && s[0] == '[' && ((exists k :: AddressPort(s, 1, k)) || exists j, k :: ScopedPort(s, 1, j, k)))
  }

  /** An endpoint is a host or a dotted quad with a port, or a bracketed address of RFC 4291 with an optional
      scope and a port. */
  lemma EndpointExactly(s: string)
    ensures IsValidEndpoint(s) <==> Endpoint(s)
  {
    hide Ipv4, Ipv6, IsValidHostname, IsValidPort, IsValidScope, BracketedEndpoint, PlainEndpoint;
    if s != "" && s[0] == '[' {
      forall k ensures !HostPort(s, k) { HostStart(s, k); }
      BracketIs(s, 1, 1);
    } else {
      PlainIs(s, 0);
    }
  }

  lemma HostChars(s: string)
    ensures Ipv4(s) || IsValidHostname(s) ==> s != "" && ':' !in s && '[' !in s
  {
    hide Ipv4;
    if Ipv4(s) { Ipv4Chars(s); }
  }

  lemma HostStart(s: string, k: int)
    requires s != "" && s[0] == '['
    ensures !HostPort(s, k)
  {
    hide Ipv4, IsValidHostname, IsValidPort;
    if 0 <= k < |s| {
      HostChars(s[..k]);
      assert k > 0 ==> s[..k][0] == '[';
    }
  }

  lemma {:induction false} PlainIs(s: string, i: nat)
    requires i <= |s|
    ensures PlainEndpoint(s, i) <==> exists k :: k >= i && HostPort(s, k)
    decreases |s| - i
  {
    hide Ipv4, ScanIpv4, IsValidHostname, IsValidPort;
    if i < |s| && s[i] == ':' {
      ScanIpv4Is(s[..i]);
      assert PlainEndpoint(s, i) <==> HostPort(s, i);
      forall k | k > i ensures !HostPort(s, k) { OneColon(s, i, k); }
    } else if i < |s| {
      PlainIs(s, i + 1);
      assert !HostPort(s, i);
    }
  }

  lemma OneColon(s: string, i: nat, k: int)
    requires i < k && i < |s| && s[i] == ':'
    ensures !HostPort(s, k)
  {
    hide Ipv4, IsValidHostname, IsValidPort;
    if k < |s| {
      HostChars(s[..k]);
      assert s[..k][i] == ':';
    }
  }

  lemma {:induction false} ScopeIs(s: string, from: nat, i: nat)
    requires from <= i <= |s|
    ensures BracketedEndpoint(s, from, i, true) <==> exists k :: k >= i && ScopePort(s, from, k)
    decreases |s| - i
  {
    hide IsValidPort, IsValidScope, IsValidIpv6;
    if i < |s| && (s[i] == ']' || s[i] == '%') {
      assert BracketedEndpoint(s, from, i, true) <==> ScopePort(s, from, i);
      forall k | k > i ensures !ScopePort(s, from, k) { ScopeStops(s, from, i, k); }
    } else if i < |s| {
      ScopeIs(s, from, i + 1);
      assert !ScopePort(s, from, i);
    }
  }

  lemma ScopeStops(s: string, from: nat, i: nat, k: int)
    requires from <= i < k && i < |s| && (s[i] == ']' || s[i] == '%')
    ensures !ScopePort(s, from, k)
  {
    hide IsValidPort;
    if k < |s| { assert s[from..k][i - from] == s[i]; }
  }

  lemma AddressStops(s: string, from: nat, i: nat, k: int)
    requires from <= i < k <= |s| && (s[i] == ']' || s[i] == '%')
    ensures !Ipv6(s[from..k])
  {
    hide Ipv6;
    assert s[from..k][i - from] == s[i];
    if Ipv6(s[from..k]) { Ipv6Chars(s[from..k]); }
  }

  lemma {:induction false} BracketIs(s: string, from: nat, i: nat)
    requires from <= i <= |s|
    ensures BracketedEndpoint(s, from, i, false) <==>
      (exists k :: k >= i && AddressPort(s, from, k)) || exists j, k :: j >= i && ScopedPort(s, from, j, k)
    decreases |s| - i
  {
    hide IsValidPort, IsValidScope, IsValidIpv6, Ipv6;
    if i < |s| && s[i] == ']' {
      Ipv6Exactly(s[from..i], ']');
      NothingLater(s, from, i);
      assert BracketedEndpoint(s, from, i, false) <==> AddressPort(s, from, i);
    } else if i < |s| && s[i] == '%' {
      Ipv6Exactly(s[from..i], '%');
      ScopedHere(s, from, i);
      NothingLater(s, from, i);
    } else if i < |s| {
      BracketIs(s, from, i + 1);
      assert !AddressPort(s, from, i) && forall k :: !ScopedPort(s, from, i, k);
    }
  }

  lemma ScopedHere(s: string, from: nat, i: nat)
    requires from <= i < |s| && s[i] == '%'
    ensures BracketedEndpoint(s, i + 1, i + 1, true) && Ipv6(s[from..i]) <==> exists k :: ScopedPort(s, from, i, k)
  {
    hide IsValidPort, IsValidScope, Ipv6, BracketedEndpoint;
    ScopeIs(s, i + 1, i + 1);
    if BracketedEndpoint(s, i + 1, i + 1, true) && Ipv6(s[from..i]) {
      var k :| k >= i + 1 && ScopePort(s, i + 1, k);
      assert ScopedPort(s, from, i, k);
    }
    if k :| ScopedPort(s, from, i, k) {
      assert ScopePort(s, i + 1, k);
    }
  }

  lemma NothingLater(s: string, from: nat, i: nat)
    requires from <= i < |s| && (s[i] == ']' || s[i] == '%')
    ensures forall k :: k > i ==> !AddressPort(s, from, k)
    ensures forall j, k :: j > i ==> !ScopedPort(s, from, j, k)
  {
    hide Ipv6, IsValidPort, ScopePort;
    forall k | k > i ensures !AddressPort(s, from, k) {
      if AddressPort(s, from, k) { AddressStops(s, from, i, k); }
    }
    forall j, k | j > i ensures !ScopedPort(s, from, j, k) {
      if ScopedPort(s, from, j, k) { AddressStops(s, from, i, j); }
    }
  }

  /** The caller splits a valid endpoint at its last colon, so it must have one. */
  lemma EndpointHasColon(s: string)
    requires IsValidEndpoint(s)
    ensures exists k :: 0 <= k < |s| && s[k] == ':'
  {
    hide IsValidEndpoint, Ipv6, Ipv4, IsValidPort, IsValidHostname, IsValidScope;
    EndpointExactly(s);
  }

  /** The position of the first c, or the length. */
  function IndexOf(s: string, c: char): (k: nat)
    ensures k <= |s| && c !in s[..k] && (k < |s| ==> s[k] == c)
  {
    if s == "" || s[0] == c then 0
    else
      var k := 1 + IndexOf(s[1..], c);
      assert s[..k] == [s[0]] + s[1..][..k - 1];
      k
  }

  /** `is_valid_network`; next is the character after the span. */
  predicate IsValidNetwork(s: string, next: char)
    requires next != ':'
  {
    var k := IndexOf(s, '/');
    if k == |s| then ScanIpv4(s, 0) || IsValidIpv6(s, next)
    else
      var ip, cidr := s[..k], s[k + 1..];
      && 1 <= |cidr| <= 3 && AllDecimal(cidr)
      && if ScanIpv4(ip, 0) then Value(cidr) <= 32 else IsValidIpv6(ip, '/') && Value(cidr) <= 128
  }

  ghost predicate Prefix(s: string) {
    1 <= |s| <= 3 && AllDecimal(s)
  }

  /** A network is an address of RFC 4291 or a dotted quad, with an optional prefix length that fits its family. */
  lemma NetworkExactly(s: string, next: char)
    requires next != ':'
    ensures IsValidNetwork(s, next) <==>
      var k := IndexOf(s, '/');
      if k == |s| then Ipv4(s) || Ipv6(s)
      else Prefix(s[k + 1..]) && ((Ipv4(s[..k]) && Value(s[k + 1..]) <= 32) || (Ipv6(s[..k]) && Value(s[k + 1..]) <= 128))
  {
    hide Ipv4, Ipv6, ScanIpv4, IsValidIpv6, Value, AllDecimal, IndexOf;
    var k := IndexOf(s, '/');
    ScanIpv4Is(s);
    Ipv6Exactly(s, next);
    if k < |s| {
      ScanIpv4Is(s[..k]);
      Ipv6Exactly(s[..k], '/');
      if Ipv4(s[..k]) { Apart(s[..k]); }
    }
  }

  /** No text is an address of both families. */
  lemma Apart(s: string)
    requires Ipv4(s)
    ensures !Ipv6(s)
  {
    hide Pieces, Groups, Squeezed;
    Ipv4Starts(s);
    Separators();
    PiecesStep(s, 8);
    assert s[0] == s[..HexRun(s, 4)][0];
    Ipv6Splits(s);
    SqueezedStep(s, 7);
  }
}
