/** The configuration highlighter: what the spans of a text are, line by line. */
module Highlighter {
  import opened IpText
  import opened FieldChecks
  import KeyText

  datatype Kind = HighlightSection | HighlightField | HighlightPrivateKey | HighlightPublicKey | HighlightPresharedKey
                | HighlightIP | HighlightCidr | HighlightHost | HighlightPort | HighlightMTU | HighlightKeepalive
                | HighlightComment | HighlightDelimiter | HighlightTable | HighlightFwMark | HighlightSaveConfig
                | HighlightCmd | HighlightError | HighlightEnd

  datatype Span = Span(kind: Kind, start: nat, len: nat)

  datatype Field = InterfaceSection | PrivateKey | ListenPort | Address | DNS | MTU | FwMark | Table | PreUp | PostUp
                 | PreDown | PostDown | SaveConfig | PeerSection | PublicKey | PresharedKey | AllowedIPs | Endpoint
                 | PersistentKeepalive | Invalid

  // ----- names

  function Upper(c: char): char { if 'a' <= c <= 'z' then c - 'a' + 'A' else c }

  function AllUpper(s: string): (t: string)
    ensures |t| == |s|
  {
    if s == "" then "" else AllUpper(s[..|s| - 1]) + [Upper(s[|s| - 1])]
  }

  /** `is_caseless_same` */
  predicate SameName(s: string, name: string) { AllUpper(s) == AllUpper(name) }

  /** `get_field` */
  function FieldOf(s: string): Field {
    if SameName(s, "PrivateKey") then PrivateKey
    else if SameName(s, "ListenPort") then ListenPort
    else if SameName(s, "Address") then Address
    else if SameName(s, "DNS") then DNS
    else if SameName(s, "MTU") then MTU
    else if SameName(s, "PublicKey") then PublicKey
    else if SameName(s, "PresharedKey") then PresharedKey
    else if SameName(s, "AllowedIPs") then AllowedIPs
    else if SameName(s, "Endpoint") then Endpoint
    else if SameName(s, "PersistentKeepalive") then PersistentKeepalive
    else if SameName(s, "FwMark") then FwMark
    else if SameName(s, "Table") then Table
    else if SameName(s, "PreUp") then PreUp
    else if SameName(s, "PostUp") then PostUp
    else if SameName(s, "PreDown") then PreDown
    else if SameName(s, "PostDown") then PostDown
    else if SameName(s, "SaveConfig") then SaveConfig
    else Invalid
  }

  /** `get_sectiontype` */
  function SectionOf(s: string): Field {
    if SameName(s, "[Peer]") then PeerSection else if SameName(s, "[Interface]") then InterfaceSection else Invalid
  }

  /** `section_for_field` */
  function SectionFor(f: Field): Field {
    match f
    case InterfaceSection | PeerSection | Invalid => Invalid
    case PublicKey | PresharedKey | AllowedIPs | Endpoint | PersistentKeepalive => PeerSection
    case _ => InterfaceSection
  }

  // ----- positions in the text

  predicate Blank(c: char) { c == ' ' || c == '\t' }

  predicate Stops(c: char) { c == '\n' || c == '#' }

  predicate AllBlank(text: string, a: int, b: int)
    requires 0 <= a && b <= |text|
  {
    forall k :: a <= k < b ==> Blank(text[k])
  }

  predicate Without(text: string, a: int, b: int, c: char)
    requires 0 <= a && b <= |text|
  {
    forall k :: a <= k < b ==> text[k] != c
  }

  /** The first position from a on that is not blank, or b. */
  function Skip(text: string, a: nat, b: nat): (k: nat)
    requires a <= b <= |text|
    ensures a <= k <= b && AllBlank(text, a, k) && (k < b ==> !Blank(text[k]))
    decreases b - a
  {
    if a == b || !Blank(text[a]) then a else Skip(text, a + 1, b)
  }

  /** The position after the last character before b that is not blank, or a. */
  function Trim(text: string, a: nat, b: nat): (k: nat)
    requires a <= b <= |text|
    ensures a <= k <= b && AllBlank(text, k, b) && (a < k ==> !Blank(text[k - 1]))
    decreases b - a
  {
    if a == b || !Blank(text[b - 1]) then b else Trim(text, a, b - 1)
  }

  /** The first c from a on, or b. */
  function Find(text: string, a: nat, b: nat, c: char): (k: nat)
    requires a <= b <= |text|
    ensures a <= k <= b && Without(text, a, k, c) && (k < b ==> text[k] == c)
    decreases b - a
  {
    if a == b || text[a] == c then a else Find(text, a + 1, b, c)
  }

  /** The last c before b, or a. */
  function FindLast(text: string, a: nat, b: nat, c: char): (k: nat)
    requires a <= b <= |text|
    ensures a <= k <= b && Without(text, k + 1, b, c) && (a < k ==> k < b && text[k] == c)
    ensures (exists j :: a <= j < b && text[j] == c) ==> k < b && text[k] == c
    decreases b - a
  {
    if a == b then a else if text[b - 1] == c then b - 1 else FindLast(text, a, b - 1, c)
  }

  /** Where the content of the line that starts at a ends: a newline, a hash or the end of the text. */
  function Stop(text: string, a: nat): (k: nat)
    requires a <= |text|
    ensures a <= k <= |text| && (forall j :: a <= j < k ==> !Stops(text[j])) && (k < |text| ==> Stops(text[k]))
    decreases |text| - a
  {
    if a == |text| || Stops(text[a]) then a else Stop(text, a + 1)
  }

  // ----- values

  /** What a check reads one past the end of a span. */
  function After(text: string, b: nat): char { if b < |text| then text[b] else 0 as char }

  function One(kind: Kind, a: nat, b: nat): seq<Span>
    requires a <= b
  {
    if a == b then [] else [Span(kind, a, b - a)]
  }

  /** `highlight_multivalue_value` */
  function ItemSpans(text: string, a: nat, b: nat, f: Field): seq<Span>
    requires a <= b <= |text| && After(text, b) != ':'
  {
    var s := text[a..b];
    match f
    case DNS =>
      One(if ScanIpv4(s, 0) || IsValidIpv6(s, After(text, b)) then HighlightIP
          else if IsValidHostname(s) then HighlightHost else HighlightError, a, b)
    case Address | AllowedIPs =>
      if !IsValidNetwork(s, After(text, b)) then One(HighlightError, a, b)
      else
        var slash := Find(text, a, b, '/');
        if slash == b then One(HighlightIP, a, b)
        else One(HighlightIP, a, slash) + One(HighlightDelimiter, slash, slash + 1) + One(HighlightCidr, slash + 1, b)
    case _ => One(HighlightError, a, b)
  }

  /** A comma-separated list: trimmed items and the commas between them; a comma with nothing after it is an error. */
  function ListSpans(text: string, a: nat, b: nat, f: Field): seq<Span>
    requires a <= b <= |text| && After(text, b) != ':'
    decreases b - a
  {
    var comma := Find(text, a, b, ',');
    var from := Skip(text, a, comma);
    var to := Trim(text, from, comma);
    NotColon(text, to, comma, b);
    var item := ItemSpans(text, from, to, f);
    if comma == b then item
    else item + [Span(if comma + 1 == b then HighlightError else HighlightDelimiter, comma, 1)] + ListSpans(text, comma + 1, b, f)
  }

  /** A trimmed item is followed by a blank, a comma or whatever follows the whole value. */
  lemma NotColon(text: string, to: nat, comma: nat, b: nat)
    requires to <= comma <= b <= |text| && AllBlank(text, to, comma) && (comma < b ==> text[comma] == ',') && After(text, b) != ':'
    ensures After(text, to) != ':'
  {
  }

  /** `highlight_value` on a trimmed, non-empty value */
  function ValueSpans(text: string, a: nat, b: nat, f: Field): seq<Span>
    requires a <= b <= |text| && After(text, b) != ':'
  {
    var s := text[a..b];
    match f
    case PrivateKey => One(if KeyText.WellFormed(s) then HighlightPrivateKey else HighlightError, a, b)
    case PublicKey => One(if KeyText.WellFormed(s) then HighlightPublicKey else HighlightError, a, b)
    case PresharedKey => One(if KeyText.WellFormed(s) then HighlightPresharedKey else HighlightError, a, b)
    case MTU => One(if IsValidMtu(s) then HighlightMTU else HighlightError, a, b)
    case SaveConfig => One(if IsValidSaveConfig(s) then HighlightSaveConfig else HighlightError, a, b)
    case FwMark => One(if IsValidFwmark(s) then HighlightFwMark else HighlightError, a, b)
    case Table => One(if IsValidTable(s) then HighlightTable else HighlightError, a, b)
    case PreUp | PostUp | PreDown | PostDown => One(if s != "" then HighlightCmd else HighlightError, a, b)
    case ListenPort => One(if IsValidPort(s) then HighlightPort else HighlightError, a, b)
    case PersistentKeepalive => One(if IsValidKeepalive(s) then HighlightKeepalive else HighlightError, a, b)
    case Endpoint =>
      if !IsValidEndpoint(s) then One(HighlightError, a, b)
      else
        var colon := FindLast(text, a, b, ':');
        if colon == b then []
        else One(HighlightHost, a, colon) + One(HighlightDelimiter, colon, colon + 1) + One(HighlightPort, colon + 1, b)
    case Address | DNS | AllowedIPs => ListSpans(text, a, b, f)
    case _ => One(HighlightError, a, b)
  }

  // ----- lines

  /** The equals sign at eq and the value up to the end of the content. */
  function AssignmentSpans(text: string, eq: nat, stop: nat, f: Field): seq<Span>
    requires eq < stop <= |text| && After(text, stop) != ':'
  {
    var from := Skip(text, eq + 1, stop);
    var to := Trim(text, from, stop);
    if from == to then [Span(HighlightError, eq, 1)]
    else
      NotColon(text, to, stop, stop);
      [Span(HighlightDelimiter, eq, 1)] + ValueSpans(text, from, to, f)
  }

  function KeyKind(f: Field, section: Field): Kind {
    if SectionFor(f) == Invalid || f == Invalid || SectionFor(f) != section then HighlightError else HighlightField
  }

  predicate IsHeading(text: string, a: nat, stop: nat)
    requires a <= stop <= |text|
  {
    var from := Skip(text, a, stop); from < stop && text[from] == '['
  }

  /** The content of one line, from a to stop. */
  function ContentSpans(text: string, a: nat, stop: nat, section: Field): seq<Span>
    requires a <= stop <= |text| && After(text, stop) != ':'
  {
    var from := Skip(text, a, stop);
    var to := Trim(text, from, stop);
    if from == stop then []
    else if text[from] == '[' then One(if SectionOf(text[from..to]) == Invalid then HighlightError else HighlightSection, from, to)
    else
      var eq := Find(text, from + 1, stop, '=');
      if eq == stop then One(HighlightError, from, to)
      else
        var key := Trim(text, from, eq);
        var f := FieldOf(text[from..key]);
        One(KeyKind(f, section), from, key) + AssignmentSpans(text, eq, stop, f)
  }

  /** A heading changes the section for the lines after it. */
  function SectionAfter(text: string, a: nat, stop: nat, section: Field): Field
    requires a <= stop <= |text|
  {
    var from := Skip(text, a, stop);
    if IsHeading(text, a, stop) then SectionOf(text[from..Trim(text, from, stop)]) else section
  }

  lemma StopIsNotColon(text: string, a: nat)
    requires a <= |text|
    ensures After(text, Stop(text, a)) != ':'
  {
  }

  /** All spans from the line that starts at a on. */
  function Lines(text: string, a: nat, section: Field): seq<Span>
    requires a <= |text|
    decreases |text| - a, 1
  {
    var stop := Stop(text, a);
    StopIsNotColon(text, a);
    ContentSpans(text, a, stop, section) + Rest(text, stop, SectionAfter(text, a, stop, section))
  }

  /** What follows the content that ends at stop: a comment, and the lines after it. */
  function Rest(text: string, stop: nat, section: Field): seq<Span>
    requires stop <= |text| && (stop < |text| ==> Stops(text[stop]))
    decreases |text| - stop, 0
  {
    if stop == |text| then []
    else
      var end := Find(text, stop, |text|, '\n');
      One(HighlightComment, stop, end) + if end == |text| then [] else Lines(text, end + 1, section)
  }
}
