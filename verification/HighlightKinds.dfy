/** Which span of a text gets which kind, said of the text itself: by its lines, the nearest heading above a line,
    and the grammar of the values. */
module HighlightKinds {
  import opened IpText
  import F = FieldChecks
  import opened Bytes
  import opened Highlighter
  import KeyText

  // ----- names

  predicate Latin(c: char) { 'a' <= c <= 'z' || 'A' <= c <= 'Z' }

  predicate SameLetter(c: char, d: char) {
    c == d || (Latin(c) && Latin(d) && (c as int == d as int + 32 || d as int == c as int + 32))
  }

  /** Equal up to the case of letters. */
  predicate Named(s: string, name: string) {
    |s| == |name| && forall i :: 0 <= i < |s| ==> SameLetter(s[i], name[i])
  }

  predicate PeerName(s: string) {
    Named(s, "PublicKey") || Named(s, "PresharedKey") || Named(s, "AllowedIPs") || Named(s, "Endpoint") || Named(s, "PersistentKeepalive")
  }

  predicate InterfaceName(s: string) {
    || Named(s, "PrivateKey") || Named(s, "ListenPort") || Named(s, "Address") || Named(s, "DNS") || Named(s, "MTU")
    || Named(s, "FwMark") || Named(s, "Table") || Named(s, "SaveConfig")
    || Named(s, "PreUp") || Named(s, "PostUp") || Named(s, "PreDown") || Named(s, "PostDown")
  }

  lemma {:induction false} UpperAt(s: string, i: nat)
    requires i < |s|
    ensures AllUpper(s)[i] == Upper(s[i])
  {
    hide Upper;
    if i < |s| - 1 { UpperAt(s[..|s| - 1], i); }
  }

  lemma SameUpper(c: char, d: char)
    ensures Upper(c) == Upper(d) <==> SameLetter(c, d)
  {
  }

  lemma NamedIs(s: string, name: string)
    ensures SameName(s, name) <==> Named(s, name)
  {
    hide Upper, SameLetter, AllUpper;
    if |s| == |name| {
      forall i | 0 <= i < |s| ensures AllUpper(s)[i] == AllUpper(name)[i] <==> SameLetter(s[i], name[i]) {
        UpperAt(s, i);
        UpperAt(name, i);
        SameUpper(s[i], name[i]);
      }
      if Named(s, name) { assert AllUpper(s) == AllUpper(name); }
    }
  }

  // ----- lines and their parts

  predicate LineStart(text: string, a: int) { 0 <= a <= |text| && (a == 0 || text[a - 1] == '\n') }

  /** A line starts at a, and its content ends at stop, before a hash, a newline or the end of the text. */
  predicate Content(text: string, a: int, stop: int) {
    && LineStart(text, a) && a <= stop <= |text|
    && (forall k :: a <= k < stop ==> text[k] != '\n' && text[k] != '#')
    && (stop == |text| || text[stop] == '\n' || text[stop] == '#')
  }

  predicate Space(c: char) { c == ' ' || c == '\t' }

  /** What remains of the stretch from a to b without the spaces around it, when something does. */
  predicate Trimmed(text: string, a: int, b: int, p: int, q: int) {
    && 0 <= a <= p < q <= b <= |text|
    && (forall k :: a <= k < p ==> Space(text[k])) && (forall k :: q <= k < b ==> Space(text[k]))
    && !Space(text[p]) && !Space(text[q - 1])
  }

  lemma StopOf(text: string, a: nat, stop: int)
    requires LineStart(text, a)
    ensures Content(text, a, stop) <==> stop == Stop(text, a)
  {
  }

  lemma TrimOf(text: string, a: nat, b: nat, p: int, q: int)
    requires a <= b <= |text|
    ensures Trimmed(text, a, b, p, q) <==> p == Skip(text, a, b) && p < b && q == Trim(text, p, b)
  {
    var from := Skip(text, a, b);
    var to := Trim(text, from, b);
    if Trimmed(text, a, b, p, q) { assert p == from; }
  }

  // ----- the section of a line

  predicate HeadingAt(text: string, h: int, stop: int, p: int, q: int) {
    Content(text, h, stop) && Trimmed(text, h, stop, p, q) && text[p] == '['
  }

  ghost predicate HeadingLine(text: string, h: int) { exists stop, p, q :: HeadingAt(text, h, stop, p, q) }

  ghost predicate HeadingNamed(text: string, h: int, name: string) {
    exists stop, p, q :: HeadingAt(text, h, stop, p, q) && Named(text[p..q], name)
  }

  /** The nearest heading above the line at a is this one. */
  ghost predicate Under(text: string, a: int, name: string) {
    exists h :: h < a && HeadingNamed(text, h, name) && forall g :: h < g < a ==> !HeadingLine(text, g)
  }

  /** A name that belongs into the section of the line at a. */
  ghost predicate Fits(text: string, a: int, name: string) {
    (Under(text, a, "[Peer]") && PeerName(name)) || (Under(text, a, "[Interface]") && InterfaceName(name))
  }

  // ----- the grammar of values

  predicate Hostname(s: string) {
    && 1 <= |s| <= 63
    && (forall i :: 0 <= i < |s| ==> Latin(s[i]) || '0' <= s[i] <= '9' || s[i] == '.' || s[i] == '-')
    && s[0] != '.' && s[0] != '-' && s[|s| - 1] != '.' && s[|s| - 1] != '-'
    && exists i :: 0 <= i < |s| && (Latin(s[i]) || s[i] == '-')
  }

  predicate DecimalUpTo(s: string, min: int, max: int) {
    1 <= |s| <= 10 && (forall i :: 0 <= i < |s| ==> '0' <= s[i] <= '9') && AllDecimal(s) && min <= Value(s) <= max
  }

  function Base16(s: string): int {
    if s == "" then 0 else 16 * Base16(s[..|s| - 1]) + KeyText.HexValue(s[|s| - 1])
  }

  predicate HexUpTo(s: string, max: int) {
    && 3 <= |s| <= 10 && s[0] == '0' && s[1] == 'x' && Base16(s[2..]) <= max
    && forall i :: 2 <= i < |s| ==> '0' <= s[i] <= '9' || 'a' <= s[i] <= 'f' || 'A' <= s[i] <= 'F'
  }

  ghost predicate KeyForm(s: string) { exists key: Key :: s == KeyText.Base64(key) }

  /** The kind of a value that is one span: that of its field when it is in the grammar of the field. */
  ghost function ScalarKind(name: string, v: string): Kind {
    if Named(name, "PrivateKey") && KeyForm(v) then HighlightPrivateKey
    else if Named(name, "PublicKey") && KeyForm(v) then HighlightPublicKey
    else if Named(name, "PresharedKey") && KeyForm(v) then HighlightPresharedKey
    else if Named(name, "MTU") && DecimalUpTo(v, 576, 65535) then HighlightMTU
    else if Named(name, "SaveConfig") && (v == "true" || v == "false") then HighlightSaveConfig
    else if Named(name, "FwMark") && (v == "off" || DecimalUpTo(v, 0, 0xffff_ffff) || HexUpTo(v, 0xffff_ffff)) then HighlightFwMark
    else if Named(name, "Table") && |v| < 512 then HighlightTable
    else if Named(name, "PreUp") || Named(name, "PostUp") || Named(name, "PreDown") || Named(name, "PostDown") then HighlightCmd
    else if Named(name, "ListenPort") && DecimalUpTo(v, 0, 65535) then HighlightPort
    else if Named(name, "PersistentKeepalive") && (v == "off" || DecimalUpTo(v, 0, 65535)) then HighlightKeepalive
    else HighlightError
  }

  predicate ListName(s: string) { Named(s, "Address") || Named(s, "AllowedIPs") || Named(s, "DNS") }

  ghost predicate NetworkAt(v: string, k: int) {
    && 0 <= k < |v| && v[k] == '/' && (forall i :: 0 <= i < k ==> v[i] != '/') && 1 <= |v| - k - 1 <= 3 && AllDecimal(v[k + 1..])
    && ((Ipv4(v[..k]) && Value(v[k + 1..]) <= 32) || (Ipv6(v[..k]) && Value(v[k + 1..]) <= 128))
  }

  /** An address of either family, with an optional prefix length that fits it. */
  ghost predicate Network(v: string) {
    if '/' !in v then Ipv4(v) || Ipv6(v)
    else exists k :: NetworkAt(v, k)
  }

  /** The spans of the text from p to q around the character at c. */
  predicate AroundAt(p: int, c: int, q: int, left: Kind, right: Kind, s: Span)
    requires 0 <= p <= c < q
  {
    s.len > 0 && (s == Span(left, p, c - p) || s == Span(HighlightDelimiter, c, 1) || s == Span(right, c + 1, q - c - 1))
  }

  predicate FirstAt(text: string, p: int, c: int, q: int, d: char) {
    0 <= p <= c < q <= |text| && text[c] == d && forall k :: p <= k < c ==> text[k] != d
  }

  predicate LastAt(text: string, p: int, c: int, q: int, d: char) {
    0 <= p <= c < q <= |text| && text[c] == d && forall k :: c < k < q ==> text[k] != d
  }

  predicate NoneOf(text: string, p: int, q: int, d: char) {
    0 <= p <= q <= |text| && forall k :: p <= k < q ==> text[k] != d
  }

  ghost predicate ItemPart(text: string, p: int, q: int, name: string, s: Span) {
    0 <= p < q <= |text| && if Named(name, "DNS") then ServerPart(text, p, q, s) else NetworkPart(text, p, q, s)
  }

  /** A name server: an address or a hostname. */
  ghost predicate ServerPart(text: string, p: int, q: int, s: Span)
    requires 0 <= p < q <= |text|
  {
    var v := text[p..q];
    s == Span(if Ipv4(v) || Ipv6(v) then HighlightIP else if Hostname(v) then HighlightHost else HighlightError, p, q - p)
  }

  ghost predicate NetworkPart(text: string, p: int, q: int, s: Span)
    requires 0 <= p < q <= |text|
  {
    if !Network(text[p..q]) then s == Span(HighlightError, p, q - p)
    else if NoneOf(text, p, q, '/') then s == Span(HighlightIP, p, q - p)
    else exists c :: FirstAt(text, p, c, q, '/') && AroundAt(p, c, q, HighlightIP, HighlightCidr, s)
  }

  /** A stretch between two commas, or between a comma and an end of the list. */
  predicate ItemAt(text: string, x: int, y: int, i: int, j: int) {
    && 0 <= x <= i <= j <= y <= |text|
    && (i == x || text[i - 1] == ',') && (j == y || text[j] == ',') && NoneOf(text, i, j, ',')
  }

  ghost predicate SomeItem(text: string, x: int, y: int, name: string, s: Span) {
    exists i, j, p, q :: ItemAt(text, x, y, i, j) && Trimmed(text, i, j, p, q) && ItemPart(text, p, q, name, s)
  }

  /** A comma is a delimiter, and an error when nothing follows it. */
  predicate Comma(text: string, x: int, y: int, c: int, s: Span) {
    0 <= x <= c < y <= |text| && text[c] == ',' && s == Span(if c + 1 == y then HighlightError else HighlightDelimiter, c, 1)
  }

  ghost predicate SomeComma(text: string, x: int, y: int, s: Span) { exists c :: Comma(text, x, y, c, s) }

  ghost predicate ListPart(text: string, x: int, y: int, name: string, s: Span) {
    SomeComma(text, x, y, s) || SomeItem(text, x, y, name, s)
  }

  ghost predicate EndpointPart(text: string, x: int, y: int, s: Span)
    requires 0 <= x < y <= |text|
  {
    if !F.Endpoint(text[x..y]) then s == Span(HighlightError, x, y - x)
    else exists c :: LastAt(text, x, c, y, ':') && AroundAt(x, c, y, HighlightHost, HighlightPort, s)
  }

  ghost predicate ValuePart(text: string, x: int, y: int, name: string, s: Span) {
    && 0 <= x < y <= |text|
    && if Named(name, "Endpoint") then EndpointPart(text, x, y, s)
       else if ListName(name) then ListPart(text, x, y, name, s)
       else s == Span(ScalarKind(name, text[x..y]), x, y - x)
  }

  // ----- the spans of a line

  /** The name before an equals sign, the sign, and the value behind it. */
  ghost predicate KeyPart(text: string, a: int, p: int, eq: int, s: Span) {
    exists k :: Trimmed(text, p, eq, p, k) && s == Span(if Fits(text, a, text[p..k]) then HighlightField else HighlightError, p, k - p)
  }

  ghost predicate Something(text: string, a: int, b: int) { exists x, y :: Trimmed(text, a, b, x, y) }

  ghost predicate SignPart(text: string, eq: int, stop: int, s: Span) {
    eq >= 0 && s == Span(if Something(text, eq + 1, stop) then HighlightDelimiter else HighlightError, eq, 1)
  }

  ghost predicate ValueOf(text: string, p: int, eq: int, stop: int, s: Span) {
    exists k, x, y, from :: Trimmed(text, p, eq, p, k) && from == eq + 1 && Trimmed(text, from, stop, x, y) && ValuePart(text, x, y, text[p..k], s)
  }

  ghost predicate HeadingPart(text: string, p: int, q: int, s: Span)
    requires 0 <= p < q <= |text|
  {
    s == Span(if Named(text[p..q], "[Peer]") || Named(text[p..q], "[Interface]") then HighlightSection else HighlightError, p, q - p)
  }

  ghost predicate AssignmentPart(text: string, a: int, stop: int, p: int, s: Span) {
    exists eq, from :: from == p + 1 && FirstAt(text, from, eq, stop, '=')
      && (KeyPart(text, a, p, eq, s) || SignPart(text, eq, stop, s) || ValueOf(text, p, eq, stop, s))
  }

  ghost predicate LinePart(text: string, a: int, stop: int, p: int, q: int, s: Span) {
    && 0 <= p < q <= stop <= |text|
    && if text[p] == '[' then HeadingPart(text, p, q, s)
       else if NoneOf(text, p + 1, stop, '=') then s == Span(HighlightError, p, q - p)
       else AssignmentPart(text, a, stop, p, s)
  }

  ghost predicate ContentPart(text: string, a: int, stop: int, s: Span) {
    exists p, q :: Trimmed(text, a, stop, p, q) && LinePart(text, a, stop, p, q, s)
  }

  /** From a hash to the end of its line. */
  predicate CommentPart(text: string, stop: int, s: Span) {
    && 0 <= stop < |text| && text[stop] == '#' && s.kind == HighlightComment && s.start == stop
    && NoneOf(text, stop, stop + s.len, '\n') && (stop + s.len == |text| || text[stop + s.len] == '\n')
  }

  /** The spans of a text, line by line. */
  ghost predicate Expected(text: string, s: Span) {
    exists a, stop :: Content(text, a, stop) && (ContentPart(text, a, stop, s) || CommentPart(text, stop, s))
  }

  // ----- the checks of single values

  lemma LatinIs(c: char)
    ensures Alphabetic(c) <==> Latin(c)
  {
  }

  lemma HexadecimalIs(c: char)
    ensures Hexadecimal(c) <==> '0' <= c <= '9' || 'a' <= c <= 'f' || 'A' <= c <= 'F'
    ensures Hexadecimal(c) ==> F.HexDigit(c) == KeyText.HexValue(c)
  {
  }

  lemma HostnameIs(s: string)
    ensures F.IsValidHostname(s) <==> Hostname(s)
  {
    hide Alphabetic, Latin;
    forall i | 0 <= i < |s| ensures Alphabetic(s[i]) <==> Latin(s[i]) { LatinIs(s[i]); }
    forall c ensures !(Latin(c) && '0' <= c <= '9') && !Latin('.') { LatinAndDigits(c); }
  }

  lemma LatinAndDigits(c: char)
    ensures !(Latin(c) && '0' <= c <= '9') && !Latin('.')
  {
  }

  lemma {:induction false} Base16Is(s: string)
    requires AllHexadecimal(s)
    ensures F.HexNumber(s) == Base16(s) && Base16(s) >= 0
  {
    hide Hexadecimal, F.HexDigit, KeyText.HexValue;
    if s != "" {
      Base16Is(s[..|s| - 1]);
      HexadecimalIs(s[|s| - 1]);
      HexDigitRange(s[|s| - 1]);
    }
  }

  lemma HexDigitRange(c: char)
    requires Hexadecimal(c)
    ensures KeyText.HexValue(c) >= 0
  {
  }

  lemma NumberIs(s: string, min: int, max: int)
    ensures F.IsValidUint(s, false, min, max) <==> DecimalUpTo(s, min, max)
  {
    hide Value;
  }

  lemma MarkIs(s: string)
    ensures F.IsValidFwmark(s) <==> s == "off" || DecimalUpTo(s, 0, 0xffff_ffff) || HexUpTo(s, 0xffff_ffff)
  {
    hide Value, Hexadecimal, Base16, F.HexNumber;
    if |s| > 2 && s[0] == '0' && s[1] == 'x' {
      assert !Decimal(s[1]);
      forall i | 2 <= i < |s| ensures s[2..][i - 2] == s[i] { }
      forall c ensures Hexadecimal(c) <==> '0' <= c <= '9' || 'a' <= c <= 'f' || 'A' <= c <= 'F' { HexadecimalIs(c); }
      if AllHexadecimal(s[2..]) { Base16Is(s[2..]); }
    }
  }

  lemma KeyFormIs(s: string)
    ensures KeyText.WellFormed(s) <==> KeyForm(s)
  {
    hide KeyText.WellFormed, KeyText.Base64, KeyText.KeyOf;
    if KeyText.WellFormed(s) {
      WellFormedDigits(s);
      KeyText.EncodeDecode(s);
      assert s == KeyText.Base64(KeyText.KeyOf(s));
    }
    if KeyForm(s) {
      var key: Key :| s == KeyText.Base64(key);
      KeyText.DecodeEncode(key);
    }
  }

  lemma WellFormedDigits(s: string)
    requires KeyText.WellFormed(s)
    ensures |s| == 44 && KeyText.Digits(s[..43])
  {
  }

  lemma NetworkIs(v: string, next: char)
    requires next != ':'
    ensures F.IsValidNetwork(v, next) <==> Network(v)
  {
    hide Ipv4, Ipv6, Value, F.IsValidNetwork, F.IndexOf;
    F.NetworkExactly(v, next);
    var k := F.IndexOf(v, '/');
    if k == |v| {
      assert v[..k] == v;
    } else {
      assert v[k] in v;
      forall i | 0 <= i < k ensures v[i] != '/' { assert v[i] == v[..k][i]; }
      assert '/' in v;
      var fits := F.Prefix(v[k + 1..]) && ((Ipv4(v[..k]) && Value(v[k + 1..]) <= 32) || (Ipv6(v[..k]) && Value(v[k + 1..]) <= 128));
      assert NetworkAt(v, k) <==> fits;
      forall j | NetworkAt(v, j) ensures j == k {
      }
      assert F.Prefix(v[k + 1..]) <==> 1 <= |v| - k - 1 <= 3 && AllDecimal(v[k + 1..]);
    }
  }

  // ----- names and fields

  lemma NameStarts(s: string, name: string)
    requires name != ""
    ensures SameName(s, name) <==> Named(s, name)
    ensures Named(s, name) ==> |s| == |name| && SameLetter(s[0], name[0])
  {
    NamedIs(s, name);
  }

  lemma FieldIs(s: string)
    ensures FieldOf(s) == PrivateKey <==> Named(s, "PrivateKey")
    ensures FieldOf(s) == ListenPort <==> Named(s, "ListenPort")
    ensures FieldOf(s) == Address <==> Named(s, "Address")
    ensures FieldOf(s) == DNS <==> Named(s, "DNS")
    ensures FieldOf(s) == MTU <==> Named(s, "MTU")
    ensures FieldOf(s) == PublicKey <==> Named(s, "PublicKey")
    ensures FieldOf(s) == PresharedKey <==> Named(s, "PresharedKey")
    ensures FieldOf(s) == AllowedIPs <==> Named(s, "AllowedIPs")
    ensures FieldOf(s) == Endpoint <==> Named(s, "Endpoint")
    ensures FieldOf(s) == PersistentKeepalive <==> Named(s, "PersistentKeepalive")
    ensures FieldOf(s) == FwMark <==> Named(s, "FwMark")
    ensures FieldOf(s) == Table <==> Named(s, "Table")
    ensures FieldOf(s) == PreUp <==> Named(s, "PreUp")
    ensures FieldOf(s) == PostUp <==> Named(s, "PostUp")
    ensures FieldOf(s) == PreDown <==> Named(s, "PreDown")
    ensures FieldOf(s) == PostDown <==> Named(s, "PostDown")
    ensures FieldOf(s) == SaveConfig <==> Named(s, "SaveConfig")
    ensures FieldOf(s) != InterfaceSection && FieldOf(s) != PeerSection
  {
    hide Named, SameName;
    NameStarts(s, "PrivateKey");
    NameStarts(s, "ListenPort");
    NameStarts(s, "Address");
    NameStarts(s, "DNS");
    NameStarts(s, "MTU");
    NameStarts(s, "PublicKey");
    NameStarts(s, "PresharedKey");
    NameStarts(s, "AllowedIPs");
    NameStarts(s, "Endpoint");
    NameStarts(s, "PersistentKeepalive");
    NameStarts(s, "FwMark");
    NameStarts(s, "Table");
    NameStarts(s, "PreUp");
    NameStarts(s, "PostUp");
    NameStarts(s, "PreDown");
    NameStarts(s, "PostDown");
    NameStarts(s, "SaveConfig");
  }

  lemma SectionNames(s: string)
    ensures SectionOf(s) == PeerSection <==> Named(s, "[Peer]")
    ensures SectionOf(s) == InterfaceSection <==> Named(s, "[Interface]")
    ensures SectionOf(s) in {PeerSection, InterfaceSection, Invalid}
  {
    hide Named, SameName;
    NameStarts(s, "[Peer]");
    NameStarts(s, "[Interface]");
  }

  lemma KeyKindIs(s: string, section: Field)
    requires section in {PeerSection, InterfaceSection, Invalid}
    ensures KeyKind(FieldOf(s), section)
         == if (section == PeerSection && PeerName(s)) || (section == InterfaceSection && InterfaceName(s)) then HighlightField else HighlightError
  {
    hide Named, FieldOf;
    FieldIs(s);
  }

  // ----- spans in lists

  lemma InOne(s: Span, kind: Kind, a: nat, b: nat)
    requires a <= b
    ensures s in One(kind, a, b) <==> a < b && s == Span(kind, a, b - a)
  {
  }

  lemma InThree(s: Span, left: Kind, right: Kind, p: nat, c: nat, q: nat)
    requires p <= c < q
    ensures s in One(left, p, c) + One(HighlightDelimiter, c, c + 1) + One(right, c + 1, q) <==> AroundAt(p, c, q, left, right, s)
  {
    hide One;
    InOne(s, left, p, c);
    InOne(s, HighlightDelimiter, c, c + 1);
    InOne(s, right, c + 1, q);
  }

  lemma ItemIs(text: string, p: nat, q: nat, f: Field, name: string, s: Span)
    requires p < q <= |text| && After(text, q) != ':' && FieldOf(name) == f && ListName(name)
    ensures s in ItemSpans(text, p, q, f) <==> ItemPart(text, p, q, name, s)
  {
    hide Named, FieldOf, ItemSpans, ServerPart, NetworkPart;
    FieldIs(name);
    ServerIs(text, p, q, s);
    NetworkItemIs(text, p, q, Address, s);
    NetworkItemIs(text, p, q, AllowedIPs, s);
  }

  lemma ServerIs(text: string, p: nat, q: nat, s: Span)
    requires p < q <= |text| && After(text, q) != ':'
    ensures s in ItemSpans(text, p, q, DNS) <==> ServerPart(text, p, q, s)
  {
    hide One, Ipv4, Ipv6, ScanIpv4, IsValidIpv6, Hostname, F.IsValidHostname;
    var v := text[p..q];
    ScanIpv4Is(v);
    Ipv6Exactly(v, After(text, q));
    HostnameIs(v);
    InOne(s, HighlightIP, p, q);
    InOne(s, HighlightHost, p, q);
    InOne(s, HighlightError, p, q);
  }

  lemma NetworkItemIs(text: string, p: nat, q: nat, f: Field, s: Span)
    requires p < q <= |text| && After(text, q) != ':' && f in {Address, AllowedIPs}
    ensures s in ItemSpans(text, p, q, f) <==> NetworkPart(text, p, q, s)
  {
    hide One, Network, F.IsValidNetwork, Find, AroundAt;
    NetworkIs(text[p..q], After(text, q));
    InOne(s, HighlightIP, p, q);
    InOne(s, HighlightError, p, q);
    var slash := Find(text, p, q, '/');
    if slash < q {
      InThree(s, HighlightIP, HighlightCidr, p, slash, q);
      assert FirstAt(text, p, slash, q, '/');
    }
  }

  lemma NoItem(text: string, a: nat, f: Field)
    requires a <= |text| && After(text, a) != ':'
    ensures ItemSpans(text, a, a, f) == []
  {
    hide ScanIpv4, IsValidIpv6, F.IsValidHostname, F.IsValidNetwork;
  }

  ghost predicate FirstItem(text: string, a: int, comma: int, name: string, s: Span) {
    exists p, q :: Trimmed(text, a, comma, p, q) && ItemPart(text, p, q, name, s)
  }

  lemma SplitItems(text: string, a: nat, comma: nat, b: nat, name: string, s: Span)
    requires a <= comma <= b <= |text| && NoneOf(text, a, comma, ',') && (comma < b ==> text[comma] == ',')
    ensures SomeItem(text, a, b, name, s) <==> FirstItem(text, a, comma, name, s) || (comma < b && SomeItem(text, comma + 1, b, name, s))
  {
    hide Trimmed, ItemPart;
    if SomeItem(text, a, b, name, s) {
      var i, j, p, q :| ItemAt(text, a, b, i, j) && Trimmed(text, i, j, p, q) && ItemPart(text, p, q, name, s);
      if i == a {
        assert j == comma;
      } else {
        assert comma < i && ItemAt(text, comma + 1, b, i, j);
      }
    }
    if FirstItem(text, a, comma, name, s) {
      assert ItemAt(text, a, b, a, comma);
    }
    if comma < b && SomeItem(text, comma + 1, b, name, s) {
      var i, j, p, q :| ItemAt(text, comma + 1, b, i, j) && Trimmed(text, i, j, p, q) && ItemPart(text, p, q, name, s);
      assert ItemAt(text, a, b, i, j);
    }
  }

  lemma SplitCommas(text: string, a: nat, comma: nat, b: nat, s: Span)
    requires a <= comma <= b <= |text| && NoneOf(text, a, comma, ',') && (comma < b ==> text[comma] == ',')
    ensures SomeComma(text, a, b, s) <==> comma < b && (Comma(text, a, b, comma, s) || SomeComma(text, comma + 1, b, s))
  {
    if comma < b && SomeComma(text, comma + 1, b, s) {
      var c :| Comma(text, comma + 1, b, c, s);
      assert Comma(text, a, b, c, s);
    }
    if SomeComma(text, a, b, s) {
      var c :| Comma(text, a, b, c, s);
      assert c == comma || Comma(text, comma + 1, b, c, s);
    }
  }

  lemma {:induction false} ListIs(text: string, a: nat, b: nat, f: Field, name: string, s: Span)
    requires a <= b <= |text| && After(text, b) != ':' && FieldOf(name) == f && ListName(name)
    ensures s in ListSpans(text, a, b, f) <==> ListPart(text, a, b, name, s)
    decreases b - a
  {
    hide ItemSpans, Find, Skip, Trim, FieldOf, ListName, SomeItem, ItemPart, Trimmed;
    var comma := Find(text, a, b, ',');
    var from := Skip(text, a, comma);
    var to := Trim(text, from, comma);
    NotColon(text, to, comma, b);
    SplitItems(text, a, comma, b, name, s);
    SplitCommas(text, a, comma, b, s);
    FirstItemIs(text, a, comma, from, to, f, name, s);
    if comma < b { ListIs(text, comma + 1, b, f, name, s); }
  }

  lemma FirstItemIs(text: string, a: nat, comma: nat, from: nat, to: nat, f: Field, name: string, s: Span)
    requires a <= comma <= |text| && from == Skip(text, a, comma) && to == Trim(text, from, comma)
    requires After(text, to) != ':' && FieldOf(name) == f && ListName(name)
    ensures s in ItemSpans(text, from, to, f) <==> FirstItem(text, a, comma, name, s)
  {
    hide ItemSpans, Skip, Trim, FieldOf, ListName, ItemPart, Trimmed;
    forall p, q ensures Trimmed(text, a, comma, p, q) <==> p == from && p < comma && q == to { TrimOf(text, a, comma, p, q); }
    TrimmedEnd(text, a, comma, from, to);
    if from < comma { ItemIs(text, from, to, f, name, s); } else { NoItem(text, from, f); }
  }

  lemma TrimmedEnd(text: string, a: nat, b: nat, from: nat, to: nat)
    requires a <= b <= |text| && from == Skip(text, a, b) && to == Trim(text, from, b)
    ensures from < b <==> from < to
  {
  }

  // ----- values

  lemma ScalarIs(text: string, x: nat, y: nat, f: Field, name: string, s: Span)
    requires x < y <= |text| && After(text, y) != ':' && FieldOf(name) == f && !ListName(name) && !Named(name, "Endpoint")
    ensures s in ValueSpans(text, x, y, f) <==> s == Span(ScalarKind(name, text[x..y]), x, y - x)
  {
    hide One, Named, FieldOf, ValueSpans, ScalarKind;
    var v := text[x..y];
    ValueKindIs(text, x, y, f, name);
    InOne(s, ScalarKind(name, v), x, y);
  }

  lemma ValueKindIs(text: string, x: nat, y: nat, f: Field, name: string)
    requires x < y <= |text| && After(text, y) != ':' && FieldOf(name) == f && !ListName(name) && !Named(name, "Endpoint")
    ensures ValueSpans(text, x, y, f) == One(ScalarKind(name, text[x..y]), x, y)
  {
    hide One, Named, FieldOf, KeyForm, KeyText.WellFormed, DecimalUpTo, HexUpTo, F.IsValidUint, F.IsValidFwmark, F.IsValidTable, ListSpans, F.IsValidEndpoint, FindLast;
    var v := text[x..y];
    FieldIs(name);
    KeyFormIs(v);
    NumberIs(v, 576, 65535);
    NumberIs(v, 0, 65535);
    MarkIs(v);
    TableIs(v);
  }

  lemma TableIs(v: string)
    ensures F.IsValidTable(v) <==> |v| < 512
  {
  }

  lemma EndpointIs(text: string, x: nat, y: nat, s: Span)
    requires x < y <= |text| && After(text, y) != ':'
    ensures s in ValueSpans(text, x, y, Endpoint) <==> EndpointPart(text, x, y, s)
  {
    hide One, F.IsValidEndpoint, F.Endpoint, FindLast, AroundAt;
    var v := text[x..y];
    F.EndpointExactly(v);
    InOne(s, HighlightError, x, y);
    if F.IsValidEndpoint(v) {
      F.EndpointHasColon(v);
      var k :| 0 <= k < y - x && v[k] == ':';
      assert text[x + k] == ':';
      var c := FindLast(text, x, y, ':');
      InThree(s, HighlightHost, HighlightPort, x, c, y);
      assert LastAt(text, x, c, y, ':');
    }
  }

  lemma ValueIs(text: string, x: nat, y: nat, f: Field, name: string, s: Span)
    requires x < y <= |text| && After(text, y) != ':' && FieldOf(name) == f
    ensures s in ValueSpans(text, x, y, f) <==> ValuePart(text, x, y, name, s)
  {
    hide Named, FieldOf, ListSpans, ListPart, ScalarKind, EndpointPart, F.IsValidEndpoint, One;
    FieldIs(name);
    if Named(name, "Endpoint") {
      EndpointIs(text, x, y, s);
    } else if ListName(name) {
      ListIs(text, x, y, f, name, s);
    } else {
      ScalarIs(text, x, y, f, name, s);
    }
  }

  // ----- lines

  lemma AssignmentIs(text: string, p: nat, eq: nat, k: nat, stop: nat, f: Field, s: Span)
    requires p < k <= eq < stop <= |text| && Trimmed(text, p, eq, p, k) && After(text, stop) != ':' && FieldOf(text[p..k]) == f
    ensures s in AssignmentSpans(text, eq, stop, f) <==> SignPart(text, eq, stop, s) || ValueOf(text, p, eq, stop, s)
  {
    hide FieldOf, ValueSpans, ValuePart, Skip, Trim, Trimmed;
    var after := eq + 1;
    var from := Skip(text, after, stop);
    var to := Trim(text, from, stop);
    forall x, y ensures Trimmed(text, after, stop, x, y) <==> x == from && x < stop && y == to { TrimOf(text, after, stop, x, y); }
    TrimmedEnd(text, after, stop, from, to);
    forall j | Trimmed(text, p, eq, p, j) ensures j == k { OneEnd(text, p, eq, k, j); }
    if from < stop {
      NotColon(text, to, stop, stop);
      ValueIs(text, from, to, f, text[p..k], s);
      assert Trimmed(text, after, stop, from, to);
      assert ValuePart(text, from, to, text[p..k], s) ==> ValueOf(text, p, eq, stop, s);
      assert ValueOf(text, p, eq, stop, s) ==> ValuePart(text, from, to, text[p..k], s);
      assert Something(text, after, stop);
    } else {
      assert !ValueOf(text, p, eq, stop, s) && !Something(text, after, stop);
    }
  }

  lemma OneEnd(text: string, p: nat, b: nat, k: int, j: int)
    requires Trimmed(text, p, b, p, k) && Trimmed(text, p, b, p, j)
    ensures k == j
  {
  }

  /** The section that a line is read in is that of the nearest heading above it. */
  ghost predicate SectionIs(text: string, a: int, section: Field) {
    && section in {PeerSection, InterfaceSection, Invalid}
    && (section == PeerSection <==> Under(text, a, "[Peer]")) && (section == InterfaceSection <==> Under(text, a, "[Interface]"))
  }

  lemma KeyIs(text: string, a: nat, p: nat, eq: nat, k: nat, section: Field, s: Span)
    requires p < k <= eq <= |text| && Trimmed(text, p, eq, p, k) && SectionIs(text, a, section)
    ensures s in One(KeyKind(FieldOf(text[p..k]), section), p, k) <==> KeyPart(text, a, p, eq, s)
  {
    hide One, Trimmed, PeerName, InterfaceName, FieldOf, KeyKind, Under;
    KeyKindIs(text[p..k], section);
    InOne(s, KeyKind(FieldOf(text[p..k]), section), p, k);
    forall j | Trimmed(text, p, eq, p, j) ensures j == k { OneEnd(text, p, eq, k, j); }
  }

  lemma AssignedIs(text: string, a: nat, stop: nat, p: nat, eq: nat, section: Field, s: Span)
    requires p < eq < stop <= |text| && After(text, stop) != ':' && SectionIs(text, a, section)
    requires !Blank(text[p]) && FirstAt(text, p + 1, eq, stop, '=')
    ensures var k := Trim(text, p, eq);
            var f := FieldOf(text[p..k]);
            s in One(KeyKind(f, section), p, k) + AssignmentSpans(text, eq, stop, f) <==> AssignmentPart(text, a, stop, p, s)
  {
    hide One, Trimmed, Trim, FieldOf, KeyKind, Under, SectionIs, AssignmentSpans, KeyPart, SignPart, ValueOf;
    var k := Trim(text, p, eq);
    NameEnds(text, p, eq);
    KeyIs(text, a, p, eq, k, section, s);
    AssignmentIs(text, p, eq, k, stop, FieldOf(text[p..k]), s);
  }

  lemma NameEnds(text: string, p: nat, eq: nat)
    requires p < eq <= |text| && !Blank(text[p])
    ensures var k := Trim(text, p, eq); p < k <= eq && Trimmed(text, p, eq, p, k)
  {
  }

  lemma HeadingIs(text: string, p: nat, q: nat, s: Span)
    requires p < q <= |text|
    ensures s in One(if SectionOf(text[p..q]) == Invalid then HighlightError else HighlightSection, p, q) <==> HeadingPart(text, p, q, s)
  {
    hide SectionOf, Named;
    SectionNames(text[p..q]);
  }

  lemma ContentIs(text: string, a: nat, stop: nat, section: Field, s: Span)
    requires a <= stop <= |text| && After(text, stop) != ':' && SectionIs(text, a, section)
    ensures s in ContentSpans(text, a, stop, section) <==> ContentPart(text, a, stop, s)
  {
    hide One, Trimmed, Trim, Skip, Find, FieldOf, SectionOf, KeyKind, SectionIs, AssignmentSpans, AssignmentPart, HeadingPart;
    var from := Skip(text, a, stop);
    var to := Trim(text, from, stop);
    forall p, q ensures Trimmed(text, a, stop, p, q) <==> p == from && p < stop && q == to { TrimOf(text, a, stop, p, q); }
    TrimmedEnd(text, a, stop, from, to);
    if from < stop {
      assert ContentPart(text, a, stop, s) <==> LinePart(text, a, stop, from, to, s);
      HeadingIs(text, from, to, s);
      InOne(s, HighlightError, from, to);
      var eq := Find(text, from + 1, stop, '=');
      if eq < stop { AssignedIs(text, a, stop, from, eq, section, s); }
    }
  }

  // ----- sections from line to line

  lemma HeadingHere(text: string, a: nat, name: string)
    requires LineStart(text, a)
    ensures var stop := Stop(text, a);
            var from := Skip(text, a, stop);
            && (HeadingLine(text, a) <==> IsHeading(text, a, stop))
            && (HeadingNamed(text, a, name) <==> IsHeading(text, a, stop) && Named(text[from..Trim(text, from, stop)], name))
  {
    hide HeadingAt, Named, Stop, Skip, Trim;
    var stop := Stop(text, a);
    var from := Skip(text, a, stop);
    var to := Trim(text, from, stop);
    forall t, p, q ensures HeadingAt(text, a, t, p, q) <==> IsHeading(text, a, stop) && t == stop && p == from && q == to {
      HeadingAtIs(text, a, t, p, q);
    }
    assert IsHeading(text, a, stop) <==> HeadingAt(text, a, stop, from, to);
  }

  lemma HeadingAtIs(text: string, a: nat, t: int, p: int, q: int)
    requires LineStart(text, a)
    ensures var stop := Stop(text, a);
            var from := Skip(text, a, stop);
            HeadingAt(text, a, t, p, q) <==> IsHeading(text, a, stop) && t == stop && p == from && q == Trim(text, from, stop)
  {
    hide Content, Trimmed, Stop, Skip, Trim;
    StopOf(text, a, t);
    TrimOf(text, a, Stop(text, a), p, q);
  }

  lemma UnderNext(text: string, a: int, b: int, name: string)
    requires a < b && forall g :: a < g < b ==> !HeadingLine(text, g)
    ensures Under(text, b, name) <==> if HeadingLine(text, a) then HeadingNamed(text, a, name) else Under(text, a, name)
  {
    hide HeadingAt, Named;
    if Under(text, b, name) {
      var h :| h < b && HeadingNamed(text, h, name) && forall g :: h < g < b ==> !HeadingLine(text, g);
      assert HeadingLine(text, h);
    }
    if HeadingLine(text, a) && HeadingNamed(text, a, name) { assert Under(text, b, name); }
    if !HeadingLine(text, a) && Under(text, a, name) {
      var h :| h < a && HeadingNamed(text, h, name) && forall g :: h < g < a ==> !HeadingLine(text, g);
      assert forall g :: h < g < b ==> !HeadingLine(text, g);
    }
  }

  /** No line starts between a line and the one after it. */
  lemma NextLine(text: string, a: nat, stop: nat, end: nat)
    requires Content(text, a, stop) && stop <= end <= |text| && NoneOf(text, stop, end, '\n')
    ensures forall g :: a < g <= end ==> !LineStart(text, g)
  {
  }

  lemma NextSection(text: string, a: nat, stop: nat, end: nat, section: Field)
    requires LineStart(text, a) && stop == Stop(text, a) && SectionIs(text, a, section)
    requires stop <= end < |text| && text[end] == '\n' && NoneOf(text, stop, end, '\n')
    ensures SectionIs(text, end + 1, SectionAfter(text, a, stop, section))
  {
    hide Under, HeadingLine, HeadingNamed, Content, Stop, Skip, Trim, SectionOf, Named, NoneOf;
    StopOf(text, a, stop);
    NextLine(text, a, stop, end);
    forall g | a < g < end + 1 ensures !HeadingLine(text, g) { NoHeading(text, g); }
    UnderNext(text, a, end + 1, "[Peer]");
    UnderNext(text, a, end + 1, "[Interface]");
    HeadingHere(text, a, "[Peer]");
    HeadingHere(text, a, "[Interface]");
    var from := Skip(text, a, stop);
    SectionNames(text[from..Trim(text, from, stop)]);
  }

  lemma NoHeading(text: string, g: int)
    requires !LineStart(text, g)
    ensures !HeadingLine(text, g)
  {
  }

  // ----- all lines

  ghost predicate ExpectedFrom(text: string, a: int, s: Span) {
    exists b, stop :: a <= b && Content(text, b, stop) && (ContentPart(text, b, stop, s) || CommentPart(text, stop, s))
  }

  lemma CommentIs(text: string, stop: nat, s: Span)
    requires stop < |text| && Stops(text[stop])
    ensures s in One(HighlightComment, stop, Find(text, stop, |text|, '\n')) <==> CommentPart(text, stop, s)
  {
    hide One, Find;
    var end := Find(text, stop, |text|, '\n');
    InOne(s, HighlightComment, stop, end);
    if CommentPart(text, stop, s) { assert stop + s.len == end; }
  }

  /** The line at a, and the lines from the next one on. */
  lemma SplitLines(text: string, a: nat, stop: nat, end: nat, s: Span)
    requires Content(text, a, stop) && stop <= end <= |text| && NoneOf(text, stop, end, '\n') && (end < |text| ==> text[end] == '\n')
    ensures ExpectedFrom(text, a, s) <==>
      ContentPart(text, a, stop, s) || CommentPart(text, stop, s) || (end < |text| && ExpectedFrom(text, end + 1, s))
  {
    hide ContentPart, CommentPart, NoneOf;
    NextLine(text, a, stop, end);
    if ExpectedFrom(text, a, s) {
      var b, t :| a <= b && Content(text, b, t) && (ContentPart(text, b, t, s) || CommentPart(text, t, s));
      if b == a { OneStop(text, a, stop, t); } else { assert end < b; }
    }
  }

  lemma OneStop(text: string, a: int, stop: int, t: int)
    requires Content(text, a, stop) && Content(text, a, t)
    ensures stop == t
  {
  }

  lemma {:induction false} LinesAre(text: string, a: nat, section: Field, s: Span)
    requires LineStart(text, a) && SectionIs(text, a, section)
    ensures s in Lines(text, a, section) <==> ExpectedFrom(text, a, s)
    decreases |text| - a
  {
    hide SectionIs, ContentSpans, SectionAfter, ContentPart, CommentPart, Content, ExpectedFrom, Stop, Find, One;
    var stop := Stop(text, a);
    StopIsNotColon(text, a);
    StopOf(text, a, stop);
    ContentIs(text, a, stop, section, s);
    if stop == |text| {
      SplitLines(text, a, stop, stop, s);
      NoComment(text, s);
    } else {
      var end := Find(text, stop, |text|, '\n');
      SplitLines(text, a, stop, end, s);
      CommentIs(text, stop, s);
      if end < |text| {
        NextSection(text, a, stop, end, section);
        LinesAre(text, end + 1, SectionAfter(text, a, stop, section), s);
      }
    }
  }

  lemma NoComment(text: string, s: Span)
    ensures !CommentPart(text, |text|, s)
  {
  }

  /** The spans of a text are exactly the expected ones, each with its kind. */
  lemma SpansExactly(text: string, s: Span)
    ensures s in Lines(text, 0, Invalid) <==> Expected(text, s)
  {
    hide Lines, Content, ContentPart, CommentPart;
    NothingAbove(text);
    LinesAre(text, 0, Invalid, s);
    forall a, stop | Content(text, a, stop) ensures 0 <= a { LineNumber(text, a, stop); }
  }

  lemma LineNumber(text: string, a: int, stop: int)
    requires Content(text, a, stop)
    ensures 0 <= a
  {
  }

  lemma NothingAbove(text: string)
    ensures LineStart(text, 0) && SectionIs(text, 0, Invalid)
  {
  }

  // ----- names of fields

  /** The text from p to k is the name before the first equals sign of the line at a. */
  ghost predicate KeyAt(text: string, a: int, stop: int, p: int, eq: int, k: int) {
    && Content(text, a, stop) && (exists q :: Trimmed(text, a, stop, p, q)) && text[p] != '['
    && FirstAt(text, p + 1, eq, stop, '=') && Trimmed(text, p, eq, p, k)
  }

  /** A name is marked as a field exactly when it fits the nearest heading above it, and as an error otherwise. */
  lemma KeySpanKind(text: string, a: int, stop: int, p: int, eq: int, k: int)
    requires KeyAt(text, a, stop, p, eq, k)
    ensures Span(if Fits(text, a, text[p..k]) then HighlightField else HighlightError, p, k - p) in Lines(text, 0, Invalid)
  {
    hide Lines, Fits, SignPart, ValueOf, Content, Trimmed, Expected;
    KeyBounds(text, a, stop, p, eq, k);
    var q :| Trimmed(text, a, stop, p, q);
    TrimmedBounds(text, a, stop, p, q);
    var s := Span(if Fits(text, a, text[p..k]) then HighlightField else HighlightError, p, k - p);
    var from := p + 1;
    assert KeyPart(text, a, p, eq, s) && FirstAt(text, from, eq, stop, '=');
    assert LinePart(text, a, stop, p, q, s);
    SpansExactly(text, s);
    OnLine(text, a, stop, s);
  }

  lemma KeyBounds(text: string, a: int, stop: int, p: int, eq: int, k: int)
    requires KeyAt(text, a, stop, p, eq, k)
    ensures 0 <= a <= p < k <= eq < stop <= |text|
  {
  }

  lemma TrimmedBounds(text: string, a: int, b: int, p: int, q: int)
    requires Trimmed(text, a, b, p, q)
    ensures 0 <= a <= p < q <= b <= |text|
  {
  }

  lemma OnLine(text: string, a: int, stop: int, s: Span)
    requires Content(text, a, stop) && ContentPart(text, a, stop, s)
    ensures Expected(text, s)
  {
  }

  /** Nothing else is marked as a field. */
  lemma OnlyNamesAreFields(text: string, s: Span)
    requires s in Lines(text, 0, Invalid) && s.kind == HighlightField
    ensures exists a, stop, eq, k :: KeyAt(text, a, stop, s.start, eq, k) && k == s.start + s.len && Fits(text, a, text[s.start..k])
  {
    hide Lines, Fits, Content, Trimmed, FirstAt, SignPart, ValueOf, Named, NoneOf;
    SpansExactly(text, s);
    var a, stop :| Content(text, a, stop) && (ContentPart(text, a, stop, s) || CommentPart(text, stop, s));
    var p, q :| Trimmed(text, a, stop, p, q) && LinePart(text, a, stop, p, q, s);
    var eq, from :| from == p + 1 && FirstAt(text, from, eq, stop, '=')
      && (KeyPart(text, a, p, eq, s) || SignPart(text, eq, stop, s) || ValueOf(text, p, eq, stop, s));
    SignAndValueAreNot(text, p, eq, stop, s);
    forall j | Trimmed(text, p, eq, p, j) ensures 0 <= p < j <= |text| { TrimmedBounds(text, p, eq, p, j); }
    var k :| Trimmed(text, p, eq, p, k) && s == Span(if Fits(text, a, text[p..k]) then HighlightField else HighlightError, p, k - p);
    assert KeyAt(text, a, stop, p, eq, k);
  }

  lemma SignAndValueAreNot(text: string, p: int, eq: int, stop: int, s: Span)
    requires s.kind == HighlightField
    ensures !SignPart(text, eq, stop, s) && !ValueOf(text, p, eq, stop, s)
  {
    hide Named, Trimmed, KeyForm, DecimalUpTo, HexUpTo, F.Endpoint, Ipv4, Ipv6, Network, Hostname, ItemAt, FirstAt, LastAt, NoneOf, Something;
  }

  /** The scope of a link-local endpoint. */
  lemma ScopeForm(s: string)
    ensures F.IsValidScope(s) <==> 1 <= |s| <= 64 && forall i :: 0 <= i < |s| ==> Latin(s[i]) || '0' <= s[i] <= '9' || s[i] in "_=+.-"
  {
    hide Alphabetic, Latin;
    forall i | 0 <= i < |s| ensures Alphabetic(s[i]) <==> Latin(s[i]) { LatinIs(s[i]); }
  }
}
