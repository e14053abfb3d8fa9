/** The spans of a text tile it: what they leave out is only blanks and newlines, so that taking the
    colours out of the highlighter's output gives the text back. */
module HighlightTiles {
  import opened FieldChecks
  import opened IpText
  import opened Highlighter
  import HighlightMachine

  predicate Gap(text: string, a: int, b: int) {
    0 <= a <= b <= |text| && forall k :: a <= k < b ==> Blank(text[k]) || text[k] == '\n'
  }

  /** Non-empty spans in order from a to b, with nothing but blanks and newlines between them. */
  ghost predicate Tiles(text: string, ss: seq<Span>, a: int, b: int)
    decreases |ss|
  {
    if ss == [] then Gap(text, a, b)
    else ss[0].len > 0 && Gap(text, a, ss[0].start) && Tiles(text, ss[1..], ss[0].start + ss[0].len, b)
  }

  lemma {:induction false} TilesBounds(text: string, ss: seq<Span>, a: int, b: int)
    requires Tiles(text, ss, a, b)
    ensures 0 <= a <= b <= |text|
    decreases |ss|
  {
    if ss != [] { TilesBounds(text, ss[1..], ss[0].start + ss[0].len, b); }
  }

  lemma {:induction false} TilesConcat(text: string, ss: seq<Span>, tt: seq<Span>, a: int, m: int, b: int)
    requires Tiles(text, ss, a, m) && Tiles(text, tt, m, b)
    ensures Tiles(text, ss + tt, a, b)
    decreases |ss|
  {
    hide Blank;
    if ss == [] {
      assert ss + tt == tt;
      TilesFrom(text, tt, a, m, b);
    } else {
      assert (ss + tt)[1..] == ss[1..] + tt;
      TilesConcat(text, ss[1..], tt, ss[0].start + ss[0].len, m, b);
    }
  }

  lemma TilesFrom(text: string, tt: seq<Span>, a: int, m: int, b: int)
    requires Gap(text, a, m) && Tiles(text, tt, m, b)
    ensures Tiles(text, tt, a, b)
  {
    hide Blank;
  }

  lemma TilesOne(text: string, kind: Kind, a: nat, b: nat)
    requires a <= b <= |text|
    ensures Tiles(text, One(kind, a, b), a, b)
  {
    if a < b { assert One(kind, a, b)[1..] == []; }
  }

  lemma TilesBlank(text: string, a: nat, b: nat)
    requires a <= b <= |text| && AllBlank(text, a, b)
    ensures Tiles(text, [], a, b)
  {
  }

  lemma TilesThree(text: string, k0: Kind, k1: Kind, k2: Kind, a: nat, m: nat, b: nat)
    requires a <= m < b <= |text|
    ensures Tiles(text, One(k0, a, m) + One(k1, m, m + 1) + One(k2, m + 1, b), a, b)
  {
    hide One, Tiles;
    TilesOne(text, k0, a, m);
    TilesOne(text, k1, m, m + 1);
    TilesOne(text, k2, m + 1, b);
    TilesConcat(text, One(k0, a, m), One(k1, m, m + 1), a, m, m + 1);
    TilesConcat(text, One(k0, a, m) + One(k1, m, m + 1), One(k2, m + 1, b), a, m + 1, b);
  }

  // ----- values and lines tile

  lemma ItemTiles(text: string, a: nat, b: nat, f: Field)
    requires a <= b <= |text| && After(text, b) != ':'
    ensures Tiles(text, ItemSpans(text, a, b, f), a, b)
  {
    hide One, Tiles, Find, ScanIpv4, IsValidIpv6, IsValidNetwork, IsValidHostname;
    forall k: Kind ensures Tiles(text, One(k, a, b), a, b) { TilesOne(text, k, a, b); }
    var slash := Find(text, a, b, '/');
    if slash < b { TilesThree(text, HighlightIP, HighlightDelimiter, HighlightCidr, a, slash, b); }
  }

  lemma {:induction false} ListTiles(text: string, a: nat, b: nat, f: Field)
    requires a <= b <= |text| && After(text, b) != ':'
    ensures Tiles(text, ListSpans(text, a, b, f), a, b)
    decreases b - a
  {
    hide Tiles, ItemSpans, Find, Skip, Trim;
    var comma := Find(text, a, b, ',');
    var from := Skip(text, a, comma);
    var to := Trim(text, from, comma);
    NotColon(text, to, comma, b);
    var item := ItemSpans(text, from, to, f);
    ItemTiles(text, from, to, f);
    TrimmedTiles(text, item, a, from, to, comma);
    if comma < b {
      var kind := if comma + 1 == b then HighlightError else HighlightDelimiter;
      OneSpan(text, kind, comma);
      TilesConcat(text, item, [Span(kind, comma, 1)], a, comma, comma + 1);
      ListTiles(text, comma + 1, b, f);
      TilesConcat(text, item + [Span(kind, comma, 1)], ListSpans(text, comma + 1, b, f), a, comma + 1, b);
    }
  }

  lemma OneSpan(text: string, kind: Kind, a: nat)
    requires a < |text|
    ensures Tiles(text, [Span(kind, a, 1)], a, a + 1)
  {
    TilesOne(text, kind, a, a + 1);
  }

  /** Blanks around a part change nothing. */
  lemma TrimmedTiles(text: string, ss: seq<Span>, a: nat, from: nat, to: nat, b: nat)
    requires a <= from <= to <= b <= |text| && AllBlank(text, a, from) && AllBlank(text, to, b) && Tiles(text, ss, from, to)
    ensures Tiles(text, ss, a, b)
  {
    hide Tiles;
    TilesBlank(text, a, from);
    TilesBlank(text, to, b);
    TilesConcat(text, [], ss, a, from, to);
    assert [] + ss == ss;
    TilesConcat(text, ss, [], a, to, b);
    assert ss + [] == ss;
  }

  lemma ValueTiles(text: string, a: nat, b: nat, f: Field)
    requires a < b <= |text| && After(text, b) != ':'
    ensures Tiles(text, ValueSpans(text, a, b, f), a, b)
  {
    hide One, Tiles, FindLast, ListSpans, IsValidEndpoint;
    forall k: Kind ensures Tiles(text, One(k, a, b), a, b) { TilesOne(text, k, a, b); }
    ListTiles(text, a, b, f);
    if f == Endpoint && IsValidEndpoint(text[a..b]) {
      EndpointHasColon(text[a..b]);
      var k :| 0 <= k < b - a && text[a..b][k] == ':';
      assert text[a + k] == ':';
      TilesThree(text, HighlightHost, HighlightDelimiter, HighlightPort, a, FindLast(text, a, b, ':'), b);
    }
  }

  lemma AssignmentTiles(text: string, eq: nat, stop: nat, f: Field)
    requires eq < stop <= |text| && After(text, stop) != ':'
    ensures Tiles(text, AssignmentSpans(text, eq, stop, f), eq, stop)
  {
    hide Tiles, ValueSpans, Skip, Trim;
    var from := Skip(text, eq + 1, stop);
    var to := Trim(text, from, stop);
    OneSpan(text, HighlightError, eq);
    OneSpan(text, HighlightDelimiter, eq);
    if from == to {
      TilesBlank(text, from, stop);
      TilesBlank(text, eq + 1, from);
      TilesConcat(text, [], [], eq + 1, from, stop);
      TilesConcat(text, [Span(HighlightError, eq, 1)], [], eq, eq + 1, stop);
      assert [Span(HighlightError, eq, 1)] + [] == [Span(HighlightError, eq, 1)];
    } else {
      NotColon(text, to, stop, stop);
      ValueTiles(text, from, to, f);
      TrimmedTiles(text, ValueSpans(text, from, to, f), eq + 1, from, to, stop);
      TilesConcat(text, [Span(HighlightDelimiter, eq, 1)], ValueSpans(text, from, to, f), eq, eq + 1, stop);
    }
  }

  lemma ContentTiles(text: string, a: nat, stop: nat, section: Field)
    requires a <= stop <= |text| && After(text, stop) != ':'
    ensures Tiles(text, ContentSpans(text, a, stop, section), a, stop)
  {
    hide One, Tiles, AssignmentSpans, Skip, Trim, Find, FieldOf, SectionOf, KeyKind;
    var from := Skip(text, a, stop);
    var to := Trim(text, from, stop);
    if from == stop {
      TilesBlank(text, a, stop);
    } else {
      forall k: Kind ensures Tiles(text, One(k, from, to), a, stop) {
        TilesOne(text, k, from, to);
        TrimmedTiles(text, One(k, from, to), a, from, to, stop);
      }
      var eq := Find(text, from + 1, stop, '=');
      if eq < stop {
        var key := Trim(text, from, eq);
        var f := FieldOf(text[from..key]);
        var kind := KeyKind(f, section);
        TilesOne(text, kind, from, key);
        TrimmedTiles(text, One(kind, from, key), a, from, key, eq);
        AssignmentTiles(text, eq, stop, f);
        TilesConcat(text, One(kind, from, key), AssignmentSpans(text, eq, stop, f), a, eq, stop);
      }
    }
  }

  lemma {:induction false} LinesTile(text: string, a: nat, section: Field)
    requires a <= |text|
    ensures Tiles(text, Lines(text, a, section), a, |text|)
    decreases |text| - a, 1
  {
    hide Tiles, ContentSpans, Stop, Rest, SectionAfter;
    var stop := Stop(text, a);
    StopIsNotColon(text, a);
    ContentTiles(text, a, stop, section);
    RestTiles(text, stop, SectionAfter(text, a, stop, section));
    TilesConcat(text, ContentSpans(text, a, stop, section), Rest(text, stop, SectionAfter(text, a, stop, section)), a, stop, |text|);
  }

  lemma {:induction false} RestTiles(text: string, stop: nat, section: Field)
    requires stop <= |text| && (stop < |text| ==> Stops(text[stop]))
    ensures Tiles(text, Rest(text, stop, section), stop, |text|)
    decreases |text| - stop, 0
  {
    hide Tiles, One, Lines, Find;
    if stop == |text| {
      TilesBlank(text, stop, stop);
    } else {
      var end := Find(text, stop, |text|, '\n');
      var comment := One(HighlightComment, stop, end);
      TilesOne(text, HighlightComment, stop, end);
      if end == |text| {
        assert comment + [] == comment;
      } else {
        LinesTile(text, end + 1, section);
        NewlineGap(text, Lines(text, end + 1, section), end);
        TilesConcat(text, comment, Lines(text, end + 1, section), stop, end, |text|);
      }
    }
  }

  lemma NewlineGap(text: string, ss: seq<Span>, end: nat)
    requires end < |text| && text[end] == '\n' && Tiles(text, ss, end + 1, |text|)
    ensures Tiles(text, ss, end, |text|)
  {
    hide Tiles;
    TilesFrom(text, ss, end, end + 1, |text|);
  }

  // ----- what tiling means

  predicate Inside(k: int, s: Span) { s.start <= k < s.start + s.len }

  /** In bounds, non-empty, increasing and disjoint, and every other character than a blank or a newline is in one. */
  lemma {:induction false} TilesMean(text: string, ss: seq<Span>, a: int, b: int)
    requires Tiles(text, ss, a, b)
    ensures forall i :: 0 <= i < |ss| ==> a <= ss[i].start && ss[i].len > 0 && ss[i].start + ss[i].len <= b <= |text|
    ensures forall i, j :: 0 <= i < j < |ss| ==> ss[i].start + ss[i].len <= ss[j].start
    ensures forall k :: 0 <= a <= k < b <= |text| && !Blank(text[k]) && text[k] != '\n' ==> exists i :: 0 <= i < |ss| && Inside(k, ss[i])
    decreases |ss|
  {
    hide Blank;
    TilesBounds(text, ss, a, b);
    if ss != [] {
      var rest, mid := ss[1..], ss[0].start + ss[0].len;
      TilesMean(text, rest, mid, b);
      TilesBounds(text, rest, mid, b);
      assert forall i :: 0 < i < |ss| ==> ss[i] == rest[i - 1];
      forall k | a <= k < b && !Blank(text[k]) && text[k] != '\n' ensures exists i :: 0 <= i < |ss| && Inside(k, ss[i]) {
        if k >= mid {
          var i :| 0 <= i < |rest| && Inside(k, rest[i]);
          assert Inside(k, ss[i + 1]);
        } else {
          assert Inside(k, ss[0]);
        }
      }
    }
  }

  /** What the spans of a text say about it. */
  lemma EveryText(text: string)
    ensures var ss := Lines(text, 0, Invalid);
            && (forall i :: 0 <= i < |ss| ==> ss[i].len > 0 && ss[i].start + ss[i].len <= |text|)
            && (forall i, j :: 0 <= i < j < |ss| ==> ss[i].start + ss[i].len <= ss[j].start)
            && (forall k :: 0 <= k < |text| && !Blank(text[k]) && text[k] != '\n' ==> exists i :: 0 <= i < |ss| && Inside(k, ss[i]))
  {
    hide Lines, Tiles, Blank;
    LinesTile(text, 0, Invalid);
    TilesMean(text, Lines(text, 0, Invalid), 0, |text|);
  }

  // ----- printing

  datatype Token = Plain(text: string) | Colour(kind: Kind) | Reset

  function Uncoloured(ts: seq<Token>): string {
    if ts == [] then ""
    else Uncoloured(ts[..|ts| - 1]) + match ts[|ts| - 1] case Plain(t) => t case _ => ""
  }

  lemma UncolouredSnoc(ts: seq<Token>, t: Token)
    ensures Uncoloured(ts + [t]) == Uncoloured(ts) + match t case Plain(s) => s case _ => ""
  {
    assert (ts + [t])[..|ts|] == ts;
  }

  /** The colour that is in force: none after a reset. */
  datatype Ink = NoInk | Ink(kind: Kind)

  function NextInk(ink: Ink, t: Token): Ink {
    match t
    case Plain(_) => ink
    case Colour(k) => Ink(k)
    case Reset => NoInk
  }

  function InkAfter(ts: seq<Token>): Ink {
    if ts == [] then NoInk else NextInk(InkAfter(ts[..|ts| - 1]), ts[|ts| - 1])
  }

  function Marked(t: string, ink: Ink): (r: seq<(char, Ink)>)
    ensures |r| == |t| && forall i :: 0 <= i < |t| ==> r[i] == (t[i], ink)
  {
    if t == "" then [] else Marked(t[..|t| - 1], ink) + [(t[|t| - 1], ink)]
  }

  function TextOf(t: Token): string { if t.Plain? then t.text else "" }

  /** The printed characters, each with its colour. */
  function Printed(ts: seq<Token>): seq<(char, Ink)> {
    if ts == [] then [] else Printed(ts[..|ts| - 1]) + Marked(TextOf(ts[|ts| - 1]), InkAfter(ts[..|ts| - 1]))
  }

  lemma PrintedSnoc(ts: seq<Token>, t: Token)
    ensures Printed(ts + [t]) == Printed(ts) + Marked(TextOf(t), InkAfter(ts)) && InkAfter(ts + [t]) == NextInk(InkAfter(ts), t)
  {
    assert (ts + [t])[..|ts|] == ts;
  }

  /** The first last characters of the text are printed, each in the colour of the span it is in, or in none. */
  ghost predicate Painted(text: string, body: seq<Span>, printed: seq<(char, Ink)>, last: nat) {
    && |printed| == last <= |text|
    && (forall k :: 0 <= k < last ==> printed[k].0 == text[k])
    && (forall k, i :: 0 <= k < last && 0 <= i < |body| && Inside(k, body[i]) ==> printed[k].1 == Ink(body[i].kind))
    && (forall k :: 0 <= k < last && (forall i :: 0 <= i < |body| ==> !Inside(k, body[i])) ==> printed[k].1 == NoInk)
  }

  /** The printing loop of the highlighter program: spans end with a HighlightEnd marker. */
  method Paint(text: string, spans: seq<Span>, ghost body: seq<Span>) returns (out: seq<Token>)
    requires spans == body + [Span(HighlightEnd, 0, 0xffff_ffff_ffff_ffff)]
    requires Tiles(text, body, 0, |text|) && forall i :: 0 <= i < |body| ==> body[i].kind != HighlightEnd
    ensures Uncoloured(out) == text
    ensures Painted(text, body, Printed(out), |text|)
  {
    hide Tiles, Uncoloured, Printed, InkAfter, Painted, Ordered, Inside, Marked;
    TilesOrdered(text, body);
    out := [Reset];
    OnlyReset();
    NothingPainted(text, body);
    var last, i := 0, 0;
    while spans[i].kind != HighlightEnd
      invariant 0 <= i <= |body| && 0 <= last <= |text| && Uncoloured(out) == text[..last]
      invariant InkAfter(out) == NoInk && Painted(text, body, Printed(out), last)
      invariant last == if i == 0 then 0 else body[i - 1].start + body[i - 1].len
      decreases |body| - i
    {
      var s := spans[i];
      assert s == body[i];
      OrderedNext(text, body, i);
      ghost var before := Printed(out);
      out := PaintSpan(text, out, last, s);
      PaintsNext(text, body, before, last, i);
      last := s.start + s.len;
      i := i + 1;
    }
    UncolouredSnoc(out, Plain(text[last..]));
    PrintedSnoc(out, Plain(text[last..]));
    OrderedEnds(text, body);
    PaintsRest(text, body, Printed(out), last);
    out := out + [Plain(text[last..])];
    assert text[..last] + text[last..] == text;
  }

  lemma OnlyReset()
    ensures Uncoloured([Reset]) == "" && Printed([Reset]) == [] && InkAfter([Reset]) == NoInk
  {
    UncolouredSnoc([], Reset);
    PrintedSnoc([], Reset);
    assert [] + [Reset] == [Reset];
  }

  lemma NothingPainted(text: string, body: seq<Span>)
    ensures Painted(text, body, [], 0)
  {
  }

  /** Increasing and disjoint, as tiling says. */
  ghost predicate Ordered(text: string, ss: seq<Span>) {
    && (forall i, j :: 0 <= i < j < |ss| ==> ss[i].start + ss[i].len <= ss[j].start)
    && forall i :: 0 <= i < |ss| ==> ss[i].start + ss[i].len <= |text|
  }

  lemma TilesOrdered(text: string, body: seq<Span>)
    requires Tiles(text, body, 0, |text|)
    ensures Ordered(text, body)
  {
    hide Tiles, Inside;
    TilesMean(text, body, 0, |text|);
  }

  lemma OrderedNext(text: string, body: seq<Span>, i: nat)
    requires Ordered(text, body) && i < |body|
    ensures (if i == 0 then 0 else body[i - 1].start + body[i - 1].len) <= body[i].start && body[i].start + body[i].len <= |text|
  {
  }

  lemma OrderedEnds(text: string, body: seq<Span>)
    requires Ordered(text, body)
    ensures forall i :: 0 <= i < |body| ==> body[i].start + body[i].len <= body[|body| - 1].start + body[|body| - 1].len
  {
  }

  lemma PaintsNext(text: string, body: seq<Span>, printed: seq<(char, Ink)>, last: nat, n: nat)
    requires n < |body| && Ordered(text, body) && last == if n == 0 then 0 else body[n - 1].start + body[n - 1].len
    requires Painted(text, body, printed, last) && last <= body[n].start && body[n].start + body[n].len <= |text|
    ensures var s := body[n];
            var end := s.start + s.len;
            Painted(text, body, printed + Marked(text[last..s.start], NoInk) + Marked(text[s.start..end], Ink(s.kind)), end)
  {
    hide Marked;
    var s := body[n];
    forall k, i | last <= k < s.start + s.len && 0 <= i < |body| && Inside(k, body[i]) ensures i == n {
    }
    assert forall k :: s.start <= k < s.start + s.len ==> Inside(k, s);
  }

  lemma PaintsRest(text: string, body: seq<Span>, printed: seq<(char, Ink)>, last: nat)
    requires Painted(text, body, printed, last) && forall i :: 0 <= i < |body| ==> body[i].start + body[i].len <= last
    ensures Painted(text, body, printed + Marked(text[last..], NoInk), |text|)
  {
    hide Marked;
  }

  method PaintSpan(text: string, before: seq<Token>, last: nat, s: Span) returns (out: seq<Token>)
    requires last <= s.start && s.start + s.len <= |text| && Uncoloured(before) == text[..last] && InkAfter(before) == NoInk
    ensures Uncoloured(out) == text[..s.start + s.len] && InkAfter(out) == NoInk
    ensures Printed(out) == Printed(before) + Marked(text[last..s.start], NoInk) + Marked(text[s.start..s.start + s.len], Ink(s.kind))
  {
    hide Uncoloured, Printed, InkAfter, Marked;
    var t0, t1 := Plain(text[last..s.start]), Plain(text[s.start..s.start + s.len]);
    var o0 := before + [t0];
    var o1 := o0 + [Colour(s.kind)];
    var o2 := o1 + [t1];
    UncolouredSnoc(before, t0);
    UncolouredSnoc(o0, Colour(s.kind));
    UncolouredSnoc(o1, t1);
    UncolouredSnoc(o2, Reset);
    PrintedSnoc(before, t0);
    PrintedSnoc(o0, Colour(s.kind));
    PrintedSnoc(o1, t1);
    PrintedSnoc(o2, Reset);
    out := o2 + [Reset];
  }

  // ----- the whole program

  /** Only the terminator has the kind of the end marker. */
  predicate NoEnd(ss: seq<Span>) { forall i :: 0 <= i < |ss| ==> ss[i].kind != HighlightEnd }

  lemma NoEndItem(text: string, a: nat, b: nat, f: Field)
    requires a <= b <= |text| && After(text, b) != ':'
    ensures NoEnd(ItemSpans(text, a, b, f))
  {
    hide ScanIpv4, IsValidIpv6, IsValidNetwork, IsValidHostname, Find;
  }

  lemma {:induction false} NoEndList(text: string, a: nat, b: nat, f: Field)
    requires a <= b <= |text| && After(text, b) != ':'
    ensures NoEnd(ListSpans(text, a, b, f))
    decreases b - a
  {
    hide ItemSpans, Find, Skip, Trim;
    var comma := Find(text, a, b, ',');
    var from := Skip(text, a, comma);
    NotColon(text, Trim(text, from, comma), comma, b);
    NoEndItem(text, from, Trim(text, from, comma), f);
    if comma < b { NoEndList(text, comma + 1, b, f); }
  }

  lemma NoEndValue(text: string, a: nat, b: nat, f: Field)
    requires a <= b <= |text| && After(text, b) != ':'
    ensures NoEnd(ValueSpans(text, a, b, f))
  {
    hide ListSpans, FindLast, IsValidEndpoint;
    NoEndList(text, a, b, f);
  }

  lemma NoEndAssignment(text: string, eq: nat, stop: nat, f: Field)
    requires eq < stop <= |text| && After(text, stop) != ':'
    ensures NoEnd(AssignmentSpans(text, eq, stop, f))
  {
    hide ValueSpans, Skip, Trim;
    var from := Skip(text, eq + 1, stop);
    var to := Trim(text, from, stop);
    NotColon(text, to, stop, stop);
    NoEndValue(text, from, to, f);
  }

  lemma NoEndContent(text: string, a: nat, stop: nat, section: Field)
    requires a <= stop <= |text| && After(text, stop) != ':'
    ensures NoEnd(ContentSpans(text, a, stop, section))
  {
    hide AssignmentSpans, Skip, Trim, Find, FieldOf, SectionOf;
    var from := Skip(text, a, stop);
    if from < stop {
      var eq := Find(text, from + 1, stop, '=');
      if eq < stop { NoEndAssignment(text, eq, stop, FieldOf(text[from..Trim(text, from, eq)])); }
    }
  }

  lemma {:induction false} NoEndLines(text: string, a: nat, section: Field)
    requires a <= |text|
    ensures NoEnd(Lines(text, a, section))
    decreases |text| - a, 1
  {
    hide ContentSpans, Stop, Rest, SectionAfter;
    var stop := Stop(text, a);
    StopIsNotColon(text, a);
    NoEndContent(text, a, stop, section);
    NoEndRest(text, stop, SectionAfter(text, a, stop, section));
  }

  lemma {:induction false} NoEndRest(text: string, stop: nat, section: Field)
    requires stop <= |text| && (stop < |text| ==> Stops(text[stop]))
    ensures NoEnd(Rest(text, stop, section))
    decreases |text| - stop, 0
  {
    hide Lines, Find;
    if stop < |text| {
      var end := Find(text, stop, |text|, '\n');
      if end < |text| { NoEndLines(text, end + 1, section); }
    }
  }

  /** Highlighting any text and taking the colours out again gives the text back. */
  method HighlightAndPaint(text: string) returns (out: seq<Token>)
    ensures Uncoloured(out) == text && Painted(text, Lines(text, 0, Invalid), Printed(out), |text|)
  {
    hide Lines, Tiles, Uncoloured, Printed, Painted;
    var spans := HighlightMachine.HighlightConfig(text);
    LinesTile(text, 0, Invalid);
    NoEndLines(text, 0, Invalid);
    out := Paint(text, spans, Lines(text, 0, Invalid));
  }
}
