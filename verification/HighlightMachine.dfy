/** `highlight_config`: the character-level state machine, proved to produce the spans of the line-by-line
    definition. */
module HighlightMachine {
  import opened IpText
  import opened FieldChecks
  import opened Highlighter
  import KeyText

  class SpanArray {
    var spans: seq<Span>
    var capacity: nat

    ghost predicate Valid()
      reads this
    {
      |spans| <= capacity
    }

    constructor ()
      ensures Valid() && spans == []
    {
      spans, capacity := [], 0;
    }

    /** `append_highlight_span`, on the characters from a up to b */
    method Append(kind: Kind, a: nat, b: nat)
      requires Valid() && a <= b
      modifies this
      ensures Valid() && spans == old(spans) + One(kind, a, b)
    {
      if a == b {
        return;
      }
      if |spans| >= capacity {
        capacity := if capacity != 0 then capacity * 2 else 64;
      }
      spans := spans + [Span(kind, a, b - a)];
    }
  }

  // ----- values

  /** `highlight_multivalue_value` */
  method WriteItem(ret: SpanArray, text: string, a: nat, b: nat, f: Field)
    requires ret.Valid() && a <= b <= |text| && After(text, b) != ':'
    modifies ret
    ensures ret.Valid() && ret.spans == old(ret.spans) + ItemSpans(text, a, b, f)
  {
    hide One, ScanIpv4, IsValidIpv6, IsValidHostname, IsValidNetwork, Find;
    var s := text[a..b];
    match f {
      case DNS =>
        if ScanIpv4(s, 0) || IsValidIpv6(s, After(text, b)) {
          ret.Append(HighlightIP, a, b);
        } else if IsValidHostname(s) {
          ret.Append(HighlightHost, a, b);
        } else {
          ret.Append(HighlightError, a, b);
        }
      case Address | AllowedIPs =>
        WriteNetwork(ret, text, a, b);
      case _ =>
        ret.Append(HighlightError, a, b);
    }
  }

  method WriteNetwork(ret: SpanArray, text: string, a: nat, b: nat)
    requires ret.Valid() && a <= b <= |text| && After(text, b) != ':'
    modifies ret
    ensures ret.Valid() && ret.spans == old(ret.spans) + ItemSpans(text, a, b, Address)
  {
    hide One, ScanIpv4, IsValidIpv6, IsValidHostname, IsValidNetwork;
    if !IsValidNetwork(text[a..b], After(text, b)) {
      ret.Append(HighlightError, a, b);
      return;
    }
    var slash := a;
    while slash < b && text[slash] != '/'
      invariant a <= slash <= b && Without(text, a, slash, '/')
    {
      slash := slash + 1;
    }
    FindIs(text, a, b, '/', slash);
    if slash == b {
      ret.Append(HighlightIP, a, b);
    } else {
      ret.Append(HighlightIP, a, slash);
      ret.Append(HighlightDelimiter, slash, slash + 1);
      ret.Append(HighlightCidr, slash + 1, b);
    }
  }

  lemma FindIs(text: string, a: nat, b: nat, c: char, k: nat)
    requires a <= k <= b <= |text| && Without(text, a, k, c) && (k < b ==> text[k] == c)
    ensures Find(text, a, b, c) == k
  {
  }

  lemma SkipIs(text: string, a: nat, b: nat, k: nat)
    requires a <= k <= b <= |text| && AllBlank(text, a, k) && (k < b ==> !Blank(text[k]))
    ensures Skip(text, a, b) == k
  {
  }

  lemma StopIs(text: string, a: nat, k: nat)
    requires a <= k <= |text| && (forall j :: a <= j < k ==> !Stops(text[j])) && (k < |text| ==> Stops(text[k]))
    ensures Stop(text, a) == k
  {
  }

  lemma TrimNext(text: string, a: nat, i: nat)
    requires a <= i < |text|
    ensures Trim(text, a, i + 1) == if Blank(text[i]) then Trim(text, a, i) else i + 1
    ensures Trim(text, a, a) == a
  {
  }

  /** The span under construction: it starts at the first character that is not blank, and last counts up to
      the last one seen. */
  ghost predicate Growing(text: string, begin: nat, start: nat, len: nat, last: nat, i: nat) {
    && begin <= start && start + len == i <= |text| && AllBlank(text, begin, start)
    && (len > 0 ==> !Blank(text[start]) && 1 <= last && start + last == Trim(text, start, i))
  }

  lemma GrowBlank(text: string, begin: nat, start: nat, len: nat, last: nat, i: nat)
    requires Growing(text, begin, start, len, last, i) && i < |text| && Blank(text[i])
    ensures if len == 0 then Growing(text, begin, start + 1, 0, last, i + 1) else Growing(text, begin, start, len + 1, last, i + 1)
  {
    hide Trim;
    TrimNext(text, start, i);
  }

  lemma GrowMore(text: string, begin: nat, start: nat, len: nat, last: nat, i: nat)
    requires Growing(text, begin, start, len, last, i) && i < |text| && !Blank(text[i])
    ensures Growing(text, begin, start, len + 1, len + 1, i + 1)
  {
    hide Trim;
    TrimNext(text, start, i);
  }

  lemma Grown(text: string, begin: nat, start: nat, len: nat, last: nat, i: nat)
    requires Growing(text, begin, start, len, last, i)
    ensures Skip(text, begin, i) == start
    ensures len > 0 ==> start + last == Trim(text, start, i) && last >= 1 && start + last <= i
    ensures len == 0 ==> Trim(text, start, i) == start
  {
    hide Skip;
    SkipIs(text, begin, i, start);
  }

  /** `highlight_multivalue` on a trimmed value after its equals sign */
  method WriteList(ret: SpanArray, text: string, a: nat, b: nat, f: Field)
    requires ret.Valid() && a < b <= |text| && After(text, b) != ':' && !Blank(text[b - 1])
    modifies ret
    ensures ret.Valid() && ret.spans == old(ret.spans) + ListSpans(text, a, b, f)
  {
    hide ListSpans, ItemSpans, Find, Skip, Trim, Growing;
    ghost var goal := old(ret.spans) + ListSpans(text, a, b, f);
    ghost var from := a;
    var start, len, last := a, 0, 0;
    var i := a;
    assert Growing(text, a, a, 0, 0, a) by { GrowStart(text, a, 0); }
    while i < b
      invariant a <= from <= i <= b && ret.Valid()
      invariant Growing(text, from, start, len, last, i) && Without(text, from, i, ',')
      invariant len == 0 ==> last == 0
      invariant if from == b then WithLastComma(ret.spans, goal, b) else ret.spans + ListSpans(text, from, b, f) == goal
    {
      var c := text[i];
      if c == ',' {
        start, len, last := WriteComma(ret, text, b, f, start, len, last, i, from, goal);
        from := i + 1;
      } else if c == ' ' || c == '\t' {
        GrowBlank(text, from, start, len, last, i);
        if len == 0 {
          start := start + 1;
        } else {
          len := len + 1;
        }
      } else {
        GrowMore(text, from, start, len, last, i);
        len := len + 1;
        last := len;
      }
      i := i + 1;
    }
    FinishList(ret, text, b, f, start, len, last, from, goal);
  }

  /** The comma at the end of a list is written as a delimiter first. */
  ghost predicate WithLastComma(spans: seq<Span>, goal: seq<Span>, b: nat) {
    b > 0 && |spans| > 0 && spans[|spans| - 1] == Span(HighlightDelimiter, b - 1, 1)
    && goal == spans[..|spans| - 1] + [Span(HighlightError, b - 1, 1)]
  }

  lemma GrowStart(text: string, a: nat, last: nat)
    requires a <= |text|
    ensures Growing(text, a, a, 0, last, a)
  {
  }

  /** One item of a list, given where it begins and ends. */
  lemma ListUnfold(text: string, from: nat, b: nat, f: Field, start: nat, to: nat, comma: nat)
    requires from <= start <= to <= comma <= b <= |text| && After(text, b) != ':' && After(text, to) != ':'
    requires Find(text, from, b, ',') == comma && Skip(text, from, comma) == start && Trim(text, start, comma) == to
    ensures ListSpans(text, from, b, f) == ItemSpans(text, start, to, f) +
      if comma == b then []
      else [Span(if comma + 1 == b then HighlightError else HighlightDelimiter, comma, 1)] + ListSpans(text, comma + 1, b, f)
  {
    hide ItemSpans, Find, Skip, Trim;
  }

  lemma NoItem(text: string, b: nat, f: Field)
    requires b <= |text| && After(text, b) != ':'
    ensures ListSpans(text, b, b, f) == []
  {
    hide ScanIpv4, IsValidIpv6, IsValidNetwork, IsValidHostname;
  }

  /** The item before a comma, and the comma. */
  method WriteComma(ret: SpanArray, text: string, b: nat, f: Field, start0: nat, len0: nat, last0: nat, i: nat,
                    ghost from: nat, ghost goal: seq<Span>)
    returns (start: nat, len: nat, last: nat)
    requires ret.Valid() && from <= i < b <= |text| && text[i] == ',' && After(text, b) != ':'
    requires Growing(text, from, start0, len0, last0, i) && Without(text, from, i, ',') && (len0 == 0 ==> last0 == 0)
    requires ret.spans + ListSpans(text, from, b, f) == goal
    modifies ret
    ensures ret.Valid() && last == 0 && len == 0 && start == i + 1 && Growing(text, i + 1, start, len, last, i + 1)
    ensures if i + 1 == b then WithLastComma(ret.spans, goal, b) else ret.spans + ListSpans(text, i + 1, b, f) == goal
  {
    hide ListSpans, ItemSpans, Find, Skip, Trim, Growing;
    Grown(text, from, start0, len0, last0, i);
    FindIs(text, from, b, ',', i);
    GrowthEnds(text, from, start0, len0, last0, i);
    NotColon(text, start0 + last0, i, b);
    ListUnfold(text, from, b, f, start0, start0 + last0, i);
    ghost var before := ret.spans;
    ghost var item, rest := ItemSpans(text, start0, start0 + last0, f), ListSpans(text, i + 1, b, f);
    WriteItem(ret, text, start0, start0 + last0, f);
    ret.Append(HighlightDelimiter, i, i + 1);
    start, len, last := i + 1, 0, 0;
    GrowStart(text, i + 1, 0);
    if i + 1 == b {
      NoItem(text, b, f);
      assert goal == before + item + [Span(HighlightError, i, 1)];
    } else {
      assert goal == before + item + [Span(HighlightDelimiter, i, 1)] + rest;
    }
  }

  lemma GrowthEnds(text: string, begin: nat, start: nat, len: nat, last: nat, i: nat)
    requires Growing(text, begin, start, len, last, i) && (len == 0 ==> last == 0)
    ensures start + last <= i && AllBlank(text, start + last, i) && begin <= start
  {
    hide Trim;
  }

  /** The last item, or the error mark on a comma that has none after it. */
  method FinishList(ret: SpanArray, text: string, b: nat, f: Field, start: nat, len: nat, last: nat,
                    ghost from: nat, ghost goal: seq<Span>)
    requires ret.Valid() && from <= b <= |text| && 0 < b && After(text, b) != ':' && !Blank(text[b - 1])
    requires Growing(text, from, start, len, last, b) && Without(text, from, b, ',') && (len == 0 ==> last == 0)
    requires if from == b then WithLastComma(ret.spans, goal, b) else ret.spans + ListSpans(text, from, b, f) == goal
    modifies ret
    ensures ret.Valid() && ret.spans == goal
  {
    hide ListSpans, ItemSpans, Find, Skip, Trim;
    Grown(text, from, start, len, last, b);
    GrowthEnds(text, from, start, len, last, b);
    FindIs(text, from, b, ',', b);
    NotColon(text, start + last, b, b);
    if last > 0 {
      ListUnfold(text, from, b, f, start, start + last, b);
      WriteItem(ret, text, start, start + last, f);
    } else {
      var n := |ret.spans|;
      if ret.spans[n - 1].kind == HighlightDelimiter {
        ret.spans := ret.spans[n - 1 := ret.spans[n - 1].(kind := HighlightError)];
      }
    }
  }

  /** `highlight_value` on a trimmed value */
  method WriteValue(ret: SpanArray, text: string, a: nat, b: nat, f: Field)
    requires ret.Valid() && a < b <= |text| && After(text, b) != ':' && !Blank(text[b - 1])
    modifies ret
    ensures ret.Valid() && ret.spans == old(ret.spans) + ValueSpans(text, a, b, f)
  {
    hide One, ListSpans, IsValidPort, IsValidMtu, IsValidKeepalive, IsValidFwmark, IsValidTable, IsValidSaveConfig, IsValidEndpoint, KeyText.WellFormed, FindLast;
    var s := text[a..b];
    var error := HighlightError;
    match f {
      case PrivateKey => ret.Append(if KeyText.WellFormed(s) then HighlightPrivateKey else error, a, b);
      case PublicKey => ret.Append(if KeyText.WellFormed(s) then HighlightPublicKey else error, a, b);
      case PresharedKey => ret.Append(if KeyText.WellFormed(s) then HighlightPresharedKey else error, a, b);
      case MTU => ret.Append(if IsValidMtu(s) then HighlightMTU else error, a, b);
      case SaveConfig => ret.Append(if IsValidSaveConfig(s) then HighlightSaveConfig else error, a, b);
      case FwMark => ret.Append(if IsValidFwmark(s) then HighlightFwMark else error, a, b);
      case Table => ret.Append(if IsValidTable(s) then HighlightTable else error, a, b);
      case PreUp | PostUp | PreDown | PostDown => ret.Append(if s != "" then HighlightCmd else error, a, b);
      case ListenPort => ret.Append(if IsValidPort(s) then HighlightPort else error, a, b);
      case PersistentKeepalive => ret.Append(if IsValidKeepalive(s) then HighlightKeepalive else error, a, b);
      case Endpoint => WriteEndpoint(ret, text, a, b);
      case Address | DNS | AllowedIPs => WriteList(ret, text, a, b, f);
      case _ => ret.Append(error, a, b);
    }
  }

  method WriteEndpoint(ret: SpanArray, text: string, a: nat, b: nat)
    requires ret.Valid() && a < b <= |text| && After(text, b) != ':'
    modifies ret
    ensures ret.Valid() && ret.spans == old(ret.spans) + ValueSpans(text, a, b, Endpoint)
  {
    hide One, IsValidEndpoint;
    if !IsValidEndpoint(text[a..b]) {
      ret.Append(HighlightError, a, b);
      return;
    }
    EndpointHasColon(text[a..b]);
    ghost var k :| 0 <= k < b - a && text[a..b][k] == ':';
    assert text[a + k] == ':';
    var colon := b - 1;
    while text[colon] != ':'
      invariant a + k <= colon < b && Without(text, colon + 1, b, ':')
      decreases colon
    {
      colon := colon - 1;
    }
    ret.Append(HighlightHost, a, colon);
    ret.Append(HighlightDelimiter, colon, colon + 1);
    ret.Append(HighlightPort, colon + 1, b);
  }

  // ----- the state machine

  datatype State = OnNone | OnKey | OnValue | OnComment | OnSection

  datatype Machine = Machine(state: State, start: nat, len: nat, last: nat, eq: nat, section: Field, field: Field)

  /** No newline or hash since the line began. */
  ghost predicate Unstopped(text: string, line: nat, i: nat) {
    i <= |text| && forall j :: line <= j < i ==> !Stops(text[j])
  }

  /** What the machine knows about the current line when it is about to read position i. */
  ghost predicate Tracks(text: string, m: Machine, line: nat, i: nat) {
    && line <= i <= |text|
    && match m.state
       case OnNone => Unstopped(text, line, i) && m.len == 0 && Growing(text, line, m.start, 0, m.last, i)
       case OnKey =>
         && Unstopped(text, line, i) && m.len > 0 && Growing(text, line, m.start, m.len, m.last, i)
         && text[m.start] != '[' && Without(text, m.start + 1, i, '=')
       case OnSection =>
         Unstopped(text, line, i) && m.len > 0 && Growing(text, line, m.start, m.len, m.last, i) && text[m.start] == '['
       case OnValue =>
         Unstopped(text, line, i) && line <= m.eq < i && Growing(text, m.eq + 1, m.start, m.len, m.last, i)
       case OnComment =>
         m.start < i && m.start + m.len == i && text[m.start] == '#' && Without(text, m.start, i, '\n')
  }

  /** The spans still to be written. */
  function Pending(text: string, m: Machine, line: nat): seq<Span>
    requires line <= |text|
    requires m.state == OnValue ==> line <= m.eq < Stop(text, line)
    requires m.state == OnComment ==> m.start < |text| && text[m.start] == '#'
  {
    match m.state
    case OnComment => Rest(text, m.start, m.section)
    case OnValue =>
      StopIsNotColon(text, line);
      AssignmentSpans(text, m.eq, Stop(text, line), m.field) + Rest(text, Stop(text, line), m.section)
    case _ => Lines(text, line, m.section)
  }

  lemma TracksPending(text: string, m: Machine, line: nat, i: nat)
    requires Tracks(text, m, line, i)
    ensures line <= |text| && (m.state == OnValue ==> line <= m.eq < Stop(text, line))
    ensures m.state == OnComment ==> m.start < |text| && text[m.start] == '#'
    ensures m.state != OnComment ==> Unstopped(text, line, i) && m.start + m.len == i
  {
    hide Trim;
  }

  /** The loop's invariant. */
  ghost predicate InStep(text: string, m: Machine, line: nat, i: nat, spans: seq<Span>, goal: seq<Span>) {
    Tracks(text, m, line, i) && (TracksPending(text, m, line, i); spans + Pending(text, m, line) == goal)
  }

  // ----- the end of a line's content

  lemma StopHere(text: string, line: nat, i: nat)
    requires line <= i <= |text| && Unstopped(text, line, i) && (i < |text| ==> Stops(text[i]))
    ensures Stop(text, line) == i
  {
    StopIs(text, line, i);
  }

  lemma NoneEnds(text: string, m: Machine, line: nat, i: nat)
    requires m.state == OnNone && Tracks(text, m, line, i) && (i < |text| ==> Stops(text[i]))
    ensures Lines(text, line, m.section) == Rest(text, i, m.section)
  {
    hide Rest, Skip, Trim, Stop;
    StopHere(text, line, i);
    Grown(text, line, m.start, 0, m.last, i);
  }

  lemma KeyEnds(text: string, m: Machine, line: nat, i: nat)
    requires m.state == OnKey && Tracks(text, m, line, i) && (i < |text| ==> Stops(text[i]))
    ensures m.start + m.last <= i
    ensures Lines(text, line, m.section) == One(HighlightError, m.start, m.start + m.last) + Rest(text, i, m.section)
  {
    hide Rest, Skip, Trim, Stop, Find, One, SectionOf, FieldOf;
    StopHere(text, line, i);
    Grown(text, line, m.start, m.len, m.last, i);
    FindIs(text, m.start + 1, i, '=', i);
  }

  function HeadingKind(section: Field): Kind { if section == Invalid then HighlightError else HighlightSection }

  lemma SectionEnds(text: string, m: Machine, line: nat, i: nat)
    requires m.state == OnSection && Tracks(text, m, line, i) && (i < |text| ==> Stops(text[i]))
    ensures m.start + m.last <= i
    ensures Lines(text, line, m.section)
         == One(HeadingKind(SectionOf(text[m.start..m.start + m.last])), m.start, m.start + m.last)
            + Rest(text, i, SectionOf(text[m.start..m.start + m.last]))
  {
    hide Rest, Skip, Trim, Stop, Find, One, SectionOf, FieldOf;
    StopHere(text, line, i);
    Grown(text, line, m.start, m.len, m.last, i);
  }

  lemma ValueEnds(text: string, m: Machine, line: nat, i: nat)
    requires m.state == OnValue && Tracks(text, m, line, i) && (i < |text| ==> Stops(text[i]))
    ensures Stop(text, line) == i && After(text, i) != ':'
    ensures m.len == 0 ==> AssignmentSpans(text, m.eq, i, m.field) == [Span(HighlightError, m.eq, 1)]
    ensures m.len > 0 ==>
      && m.start < m.start + m.last <= i && After(text, m.start + m.last) != ':' && !Blank(text[m.start + m.last - 1])
      && AssignmentSpans(text, m.eq, i, m.field)
      == [Span(HighlightDelimiter, m.eq, 1)] + ValueSpans(text, m.start, m.start + m.last, m.field)
  {
    hide Rest, Skip, Trim, Stop, ValueSpans;
    StopHere(text, line, i);
    Grown(text, m.eq + 1, m.start, m.len, m.last, i);
    if m.len > 0 { NotColon(text, m.start + m.last, i, i); }
  }

  /** The equals sign and the value of a finished line. */
  method FlushValue(ret: SpanArray, text: string, m: Machine, i: nat, ghost line: nat)
    requires ret.Valid() && m.state == OnValue && Tracks(text, m, line, i) && (i < |text| ==> Stops(text[i]))
    modifies ret
    ensures m.eq < i && After(text, i) != ':' && Stop(text, line) == i
    ensures ret.Valid() && ret.spans == old(ret.spans) + AssignmentSpans(text, m.eq, i, m.field)
  {
    hide Tracks, AssignmentSpans, ValueSpans, Stop;
    TracksPending(text, m, line, i);
    ValueEnds(text, m, line, i);
    if m.len > 0 {
      ret.Append(HighlightDelimiter, m.eq, m.eq + 1);
      WriteValue(ret, text, m.start, m.start + m.last, m.field);
    } else {
      ret.Append(HighlightError, m.eq, m.eq + 1);
    }
  }

  /** What is written when the content of a line ends at i; returns the section from there on. */
  method Flush(ret: SpanArray, text: string, m: Machine, i: nat, ghost line: nat, ghost goal: seq<Span>) returns (section: Field)
    requires ret.Valid() && m.state != OnComment && InStep(text, m, line, i, ret.spans, goal) && (i < |text| ==> Stops(text[i]))
    modifies ret
    ensures ret.Valid() && ret.spans + Rest(text, i, section) == goal
  {
    hide Lines, Rest, Tracks, AssignmentSpans, SectionOf, One, HeadingKind, Stop;
    TracksPending(text, m, line, i);
    section := m.section;
    ghost var before := ret.spans;
    match m.state {
      case OnKey =>
        KeyEnds(text, m, line, i);
        ret.Append(HighlightError, m.start, m.start + m.last);
        Regroup(before, One(HighlightError, m.start, m.start + m.last), Rest(text, i, section));
      case OnValue =>
        FlushValue(ret, text, m, i, line);
        Regroup(before, AssignmentSpans(text, m.eq, i, m.field), Rest(text, i, section));
      case OnSection =>
        SectionEnds(text, m, line, i);
        section := SectionOf(text[m.start..m.start + m.last]);
        ret.Append(HeadingKind(section), m.start, m.start + m.last);
        Regroup(before, One(HeadingKind(section), m.start, m.start + m.last), Rest(text, i, section));
      case OnNone =>
        NoneEnds(text, m, line, i);
    }
  }

  lemma Regroup(a: seq<Span>, b: seq<Span>, c: seq<Span>)
    ensures a + b + c == a + (b + c)
  {
  }

  // ----- one step of the loop

  lemma RestAtNewline(text: string, i: nat, section: Field)
    requires i < |text| && text[i] == '\n'
    ensures Rest(text, i, section) == Lines(text, i + 1, section)
  {
    hide Lines;
    FindIs(text, i, |text|, '\n', i);
    assert [] + Lines(text, i + 1, section) == Lines(text, i + 1, section);
  }

  lemma CommentEnds(text: string, m: Machine, line: nat, i: nat)
    requires m.state == OnComment && Tracks(text, m, line, i) && (i < |text| ==> text[i] == '\n')
    ensures m.start < i
    ensures Rest(text, m.start, m.section)
         == One(HighlightComment, m.start, i) + if i == |text| then [] else Lines(text, i + 1, m.section)
  {
    hide Lines, One;
    FindIs(text, m.start, |text|, '\n', i);
  }

  /** After a newline the machine starts over. */
  lemma FreshLine(text: string, m: Machine, i: nat, section: Field, spans: seq<Span>, goal: seq<Span>)
    requires i < |text| && text[i] == '\n' && m == Machine(OnNone, i + 1, 0, 0, m.eq, section, Invalid)
    requires spans + Lines(text, i + 1, section) == goal
    ensures InStep(text, m, i + 1, i + 1, spans, goal)
  {
    hide Lines, Trim;
  }

  /** A hash starts a comment. */
  lemma FreshComment(text: string, m: Machine, line: nat, i: nat, section: Field, spans: seq<Span>, goal: seq<Span>)
    requires line <= i < |text| && text[i] == '#' && m == Machine(OnComment, i, 1, 0, m.eq, section, Invalid)
    requires spans + Rest(text, i, section) == goal
    ensures InStep(text, m, line, i + 1, spans, goal)
  {
    hide Rest, Trim;
  }

  lemma CommentGrows(text: string, m: Machine, line: nat, i: nat, spans: seq<Span>, goal: seq<Span>)
    requires m.state == OnComment && InStep(text, m, line, i, spans, goal) && i < |text| && text[i] != '\n'
    ensures InStep(text, m.(len := m.len + 1), line, i + 1, spans, goal)
  {
    hide Rest, Trim, Growing;
  }

  predicate Ordinary(c: char, state: State) { !Stops(c) && state != OnComment }

  lemma BlankStep(text: string, m: Machine, line: nat, i: nat, spans: seq<Span>, goal: seq<Span>)
    requires InStep(text, m, line, i, spans, goal) && i < |text| && Ordinary(text[i], m.state) && Blank(text[i])
    ensures InStep(text, if m.len == 0 then m.(start := m.start + 1) else m.(len := m.len + 1), line, i + 1, spans, goal)
  {
    hide Lines, Rest, Trim, Growing, AssignmentSpans;
    var begin := if m.state == OnValue then m.eq + 1 else line;
    GrowBlank(text, begin, m.start, m.len, m.last, i);
  }

  lemma MoreStep(text: string, m: Machine, line: nat, i: nat, spans: seq<Span>, goal: seq<Span>, state: State)
    requires InStep(text, m, line, i, spans, goal) && i < |text| && Ordinary(text[i], m.state) && !Blank(text[i])
    requires !(text[i] == '=' && m.state == OnKey)
    requires state == if m.state != OnNone then m.state else if text[i] == '[' then OnSection else OnKey
    ensures InStep(text, m.(state := state, len := m.len + 1, last := m.len + 1), line, i + 1, spans, goal)
  {
    hide Lines, Rest, Trim, AssignmentSpans;
    var begin := if m.state == OnValue then m.eq + 1 else line;
    GrowMore(text, begin, m.start, m.len, m.last, i);
  }

  /** An equals sign ends the key. */
  lemma KeyFound(text: string, m: Machine, line: nat, i: nat)
    requires m.state == OnKey && Tracks(text, m, line, i) && i < |text| && text[i] == '='
    ensures m.start + m.last <= i && i < Stop(text, line) && After(text, Stop(text, line)) != ':'
    ensures var f := FieldOf(text[m.start..m.start + m.last]);
            Lines(text, line, m.section) == One(KeyKind(f, m.section), m.start, m.start + m.last)
              + (AssignmentSpans(text, i, Stop(text, line), f) + Rest(text, Stop(text, line), m.section))
  {
    hide Rest, Trim, Stop, Find, One, SectionOf, FieldOf, AssignmentSpans, KeyKind, Skip;
    StopIsNotColon(text, line);
    var stop := Stop(text, line);
    Grown(text, line, m.start, m.len, m.last, i);
    SkipIs(text, line, stop, m.start);
    FindIs(text, m.start + 1, stop, '=', i);
    var key := One(KeyKind(FieldOf(text[m.start..m.start + m.last]), m.section), m.start, m.start + m.last);
    Regroup(key, AssignmentSpans(text, i, stop, FieldOf(text[m.start..m.start + m.last])), Rest(text, stop, m.section));
  }

  method TakeKey(ret: SpanArray, text: string, m: Machine, i: nat, ghost line: nat, ghost goal: seq<Span>) returns (next: Machine)
    requires ret.Valid() && m.state == OnKey && InStep(text, m, line, i, ret.spans, goal) && i < |text| && text[i] == '='
    modifies ret
    ensures ret.Valid() && InStep(text, next, line, i + 1, ret.spans, goal)
  {
    hide Lines, Rest, AssignmentSpans, FieldOf, One, KeyKind, Stop, Trim;
    KeyFound(text, m, line, i);
    var f := FieldOf(text[m.start..m.start + m.last]);
    ghost var before := ret.spans;
    ret.Append(KeyKind(f, m.section), m.start, m.start + m.last);
    Regroup(before, One(KeyKind(f, m.section), m.start, m.start + m.last),
            AssignmentSpans(text, i, Stop(text, line), f) + Rest(text, Stop(text, line), m.section));
    next := m.(state := OnValue, start := i + 1, len := 0, eq := i, field := f);
  }

  /** The stop branch of the loop before the end of the text. */
  method NextLine(ret: SpanArray, text: string, m: Machine, i: nat, ghost line: nat, ghost goal: seq<Span>)
    returns (next: Machine, ghost begin: nat)
    requires ret.Valid() && InStep(text, m, line, i, ret.spans, goal) && i < |text|
    requires text[i] == '\n' || (text[i] == '#' && m.state != OnComment)
    modifies ret
    ensures ret.Valid() && InStep(text, next, begin, i + 1, ret.spans, goal)
  {
    hide Lines, Rest, Tracks, Pending, One;
    var section := m.section;
    begin := line;
    ghost var before := ret.spans;
    if m.state == OnComment {
      CommentEnds(text, m, line, i);
      PendingComment(text, m, line, i);
      ret.Append(HighlightComment, m.start, i);
      Regroup(before, One(HighlightComment, m.start, i), Lines(text, i + 1, section));
    } else {
      TracksPending(text, m, line, i);
      section := Flush(ret, text, m, i, line, goal);
      if text[i] == '\n' { RestAtNewline(text, i, section); }
    }
    if text[i] == '#' {
      next := Machine(OnComment, i, 1, 0, m.eq, section, Invalid);
      LineBefore(text, m, line, i);
      FreshComment(text, next, line, i, section, ret.spans, goal);
    } else {
      next := Machine(OnNone, i + 1, 0, 0, m.eq, section, Invalid);
      begin := i + 1;
      FreshLine(text, next, i, section, ret.spans, goal);
    }
  }

  lemma LineBefore(text: string, m: Machine, line: nat, i: nat)
    requires Tracks(text, m, line, i)
    ensures line <= i
  {
  }

  lemma PendingComment(text: string, m: Machine, line: nat, i: nat)
    requires m.state == OnComment && Tracks(text, m, line, i)
    ensures line <= |text| && m.start < |text| && text[m.start] == '#'
    ensures Pending(text, m, line) == Rest(text, m.start, m.section)
  {
    hide Rest, Growing;
  }

  /** The stop branch at the end of the text. */
  method LastLine(ret: SpanArray, text: string, m: Machine, ghost line: nat, ghost goal: seq<Span>)
    requires ret.Valid() && InStep(text, m, line, |text|, ret.spans, goal)
    modifies ret
    ensures ret.Valid() && ret.spans == goal
  {
    hide Lines, Rest, Tracks, Pending, One;
    if m.state == OnComment {
      CommentEnds(text, m, line, |text|);
      PendingComment(text, m, line, |text|);
      ret.Append(HighlightComment, m.start, |text|);
    } else {
      var section := Flush(ret, text, m, |text|, line, goal);
      NoRest(text, section);
    }
  }

  lemma NoRest(text: string, section: Field)
    ensures Rest(text, |text|, section) == []
  {
  }

  /** One character that neither ends a line nor starts a comment. */
  method Advance(ret: SpanArray, text: string, m: Machine, i: nat, ghost line: nat, ghost goal: seq<Span>) returns (next: Machine)
    requires ret.Valid() && InStep(text, m, line, i, ret.spans, goal) && i < |text|
    requires text[i] != '\n' && !(text[i] == '#' && m.state != OnComment)
    modifies ret
    ensures ret.Valid() && InStep(text, next, line, i + 1, ret.spans, goal)
  {
    hide Lines, Rest, Tracks, Pending, InStep;
    if m.state == OnComment {
      CommentGrows(text, m, line, i, ret.spans, goal);
      next := m.(len := m.len + 1);
    } else if text[i] == ' ' || text[i] == '\t' {
      BlankStep(text, m, line, i, ret.spans, goal);
      next := if m.len == 0 then m.(start := m.start + 1) else m.(len := m.len + 1);
    } else if text[i] == '=' && m.state == OnKey {
      next := TakeKey(ret, text, m, i, line, goal);
    } else {
      var state := if m.state != OnNone then m.state else if text[i] == '[' then OnSection else OnKey;
      MoreStep(text, m, line, i, ret.spans, goal, state);
      next := m.(state := state, len := m.len + 1, last := m.len + 1);
    }
  }

  const SIZE_MAX: int := 0xffff_ffff_ffff_ffff

  /** `highlight_config`: the spans of all lines in order, then the end marker. */
  method HighlightConfig(text: string) returns (spans: seq<Span>)
    ensures spans == Lines(text, 0, Invalid) + [Span(HighlightEnd, 0, SIZE_MAX)]
  {
    hide Lines, InStep;
    var ret := new SpanArray();
    ghost var goal, line := Lines(text, 0, Invalid), 0;
    var m := Machine(OnNone, 0, 0, 0, 0, Invalid, Invalid);
    Beginning(text, m);
    var i := 0;
    while i < |text|
      invariant 0 <= i <= |text| && fresh(ret) && ret.Valid()
      invariant InStep(text, m, line, i, ret.spans, goal)
    {
      if text[i] == '\n' || (m.state != OnComment && text[i] == '#') {
        m, line := NextLine(ret, text, m, i, line, goal);
      } else {
        m := Advance(ret, text, m, i, line, goal);
      }
      i := i + 1;
    }
    LastLine(ret, text, m, line, goal);
    ret.Append(HighlightEnd, 0, SIZE_MAX);
    return ret.spans;
  }

  lemma Beginning(text: string, m: Machine)
    requires m == Machine(OnNone, 0, 0, 0, 0, Invalid, Invalid)
    ensures InStep(text, m, 0, 0, [], Lines(text, 0, Invalid))
  {
    hide Lines, Trim;
    assert [] + Lines(text, 0, Invalid) == Lines(text, 0, Invalid);
  }
}
