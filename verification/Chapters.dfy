/** Chapter lists: reading and writing the cut list of one media file as timestamped lines. */
module Chapters {
  import opened Prelude
  import opened Numerals
  import opened Text
  import opened Timestamps

  datatype Segment = Segment(start: int, end: int, title: string)

  const MAX_INPUT_BYTES := 1048576
  const MAX_SEGMENTS := 10000
  const MAX_TITLE := 200

  function Utf8Size(c: char): nat {
    var n := c as int;
    if n < 0x80 then 1 else if n < 0x800 then 2 else if n < 0x10000 then 3 else 4
  }

  function ByteSize(s: string): nat {
    if s == "" then 0 else Utf8Size(s[0]) + ByteSize(s[1..])
  }

  /** Every character takes one to four bytes, and only ASCII takes one: the limit on the size of a text is never
      looser than one on its length, and the same for ASCII. */
  lemma {:induction false} ByteSizeMeans(s: string)
    ensures |s| <= ByteSize(s) <= 4 * |s|
    ensures ByteSize(s) == |s| <==> forall c <- s :: c as int < 128
  {
    if s != "" {
      ByteSizeMeans(s[1..]);
      assert s[0] in s && forall c <- s[1..] :: c in s;
      assert forall c <- s :: c == s[0] || c in s[1..];
    }
  }

  /** In order, disjoint, non-empty, titles bounded, and within the duration when one is given. */
  predicate Orderly(s: seq<Segment>, duration: int) {
    && |s| <= MAX_SEGMENTS
    && (forall i :: 0 <= i < |s| ==> 0 <= s[i].start < s[i].end && (duration > 0 ==> s[i].end <= duration) && |s[i].title| <= MAX_TITLE)
    && (forall i :: 0 < i < |s| ==> s[i - 1].end <= s[i].start)
  }

  method Validate(segments: seq<Segment>, duration: int) returns (ok: bool)
    ensures ok <==> Orderly(segments, duration)
  {
    if |segments| > MAX_SEGMENTS {
      return false;
    }
    var prevStart, prevEnd := -1, -1;
    for i := 0 to |segments|
      invariant i == 0 ==> prevStart == prevEnd == -1
      invariant i > 0 ==> prevStart == segments[i - 1].start && prevEnd == segments[i - 1].end
      invariant forall k :: 0 <= k < i ==> 0 <= segments[k].start < segments[k].end && (duration > 0 ==> segments[k].end <= duration) && |segments[k].title| <= MAX_TITLE
      invariant forall k :: 0 < k < i ==> segments[k - 1].end <= segments[k].start
    {
      var s := segments[i];
      if s.start < 0 || s.end <= s.start || (duration > 0 && s.end > duration) || s.start <= prevStart || s.start < prevEnd || |s.title| > MAX_TITLE {
        assert i > 0 ==> segments[i - 1].start < segments[i - 1].end;
        return false;
      }
      prevStart, prevEnd := s.start, s.end;
    }
    ok := true;
  }

  // ------------------------------------------------------------------- reading

  function From(s: string, n: nat): string {
    if n <= |s| then s[n..] else ""
  }

  /** Where the title starts: offsets are counted from the beginning of the line. */
  function TitleOffset(line: string, fields: seq<string>, explicit: bool): nat
    requires |fields| >= 1 && (explicit ==> |fields| >= 3)
  {
    var n := |fields[0]|;
    if !explicit then n
    else
      var m := n + Blanks(From(line, n)) + |fields[1]|;
      m + Blanks(From(line, m)) + |fields[2]|
  }

  /** One non-empty line; end is zero when it is not written. */
  function ParseLine(line: string): Option<Segment> {
    var fields := Fields(line);
    if |fields| < 2 then None
    else
      var explicit := |fields| >= 4 && fields[1] == "-->";
      var start := ParseTimestamp(fields[0]);
      var end := if explicit then ParseTimestamp(fields[2]) else Some(0);
      if start.None? || end.None? then None
      else
        var title := TrimSpace(From(line, TitleOffset(line, fields, explicit)));
        if title == "" || |title| > MAX_TITLE then None else Some(Segment(start.value, end.value, title))
  }

  function ParseLines(lines: seq<string>): Option<seq<Segment>> {
    if lines == [] then Some([])
    else if lines[0] == "" then ParseLines(lines[1..])
    else match ParseLine(lines[0])
      case None => None
      case Some(s) => (match ParseLines(lines[1..]) case None => None case Some(rest) => Some([s] + rest))
  }

  /** A missing end is the next start, or the duration. */
  function Filled(s: seq<Segment>, duration: int): seq<Segment> {
    if s == [] then []
    else [if s[0].end == 0 then s[0].(end := if |s| > 1 then s[1].start else duration) else s[0]] + Filled(s[1..], duration)
  }

  function Parsed(data: string, duration: int): Option<seq<Segment>> {
    if ByteSize(data) > MAX_INPUT_BYTES || duration <= 0 then None
    else match ParseLines(Split(UnixLines(data), '\n'))
      case None => None
      case Some(starts) => if starts != [] && Orderly(Filled(starts, duration), duration) then Some(Filled(starts, duration)) else None
  }

  method ParseChapters(data: string, duration: int) returns (r: Option<seq<Segment>>)
    ensures r == Parsed(data, duration)
  {
    hide ParseLine, ParseLines, Filled, ByteSize, UnixLines, Split, Orderly;
    if ByteSize(data) > MAX_INPUT_BYTES || duration <= 0 {
      return None;
    }
    var lines := Split(UnixLines(data), '\n');
    var starts: seq<Segment> := [];
    assert lines[0..] == lines;
    AfterNothing(ParseLines(lines));
    for i := 0 to |lines|
      invariant ParseLines(lines) == After(starts, ParseLines(lines[i..]))
    {
      var line := lines[i];
      LinesStep(starts, lines[i..]);
      assert lines[i..][0] == line && lines[i..][1..] == lines[i + 1..];
      if line == "" {
        continue;
      }
      var parsed := ParseLine(line);
      if parsed.None? {
        return None;
      }
      starts := starts + [parsed.value];
    }
    LinesEnd(starts, lines[|lines|..]);
    if starts == [] {
      return None;
    }
    starts := FillEnds(starts, duration);
    var ok := Validate(starts, duration);
    r := if ok then Some(starts) else None;
  }

  function After(done: seq<Segment>, rest: Option<seq<Segment>>): Option<seq<Segment>> {
    if rest.None? then None else Some(done + rest.value)
  }

  lemma LinesStep(done: seq<Segment>, lines: seq<string>)
    requires lines != []
    ensures After(done, ParseLines(lines)) ==
      if lines[0] == "" then After(done, ParseLines(lines[1..]))
      else if ParseLine(lines[0]).None? then None
      else After(done + [ParseLine(lines[0]).value], ParseLines(lines[1..]))
  {
    hide ParseLine;
    if lines[0] != "" && ParseLine(lines[0]).Some? && ParseLines(lines[1..]).Some? {
      var s, rest := ParseLine(lines[0]).value, ParseLines(lines[1..]).value;
      assert done + ([s] + rest) == done + [s] + rest;
    }
  }

  lemma LinesEnd(done: seq<Segment>, lines: seq<string>)
    requires lines == []
    ensures After(done, ParseLines(lines)) == Some(done)
  {
    assert done + [] == done;
  }

  lemma AfterNothing(rest: Option<seq<Segment>>)
    ensures After([], rest) == rest
  {
    assert rest.Some? ==> [] + rest.value == rest.value;
  }

  /** The second pass, in place: the first i ends are filled, the others as read. */
  method FillEnds(read: seq<Segment>, duration: int) returns (starts: seq<Segment>)
    ensures starts == Filled(read, duration)
  {
    starts := read;
    assert read[0..] == read;
    for i := 0 to |starts|
      invariant |starts| == |read| && starts[i..] == read[i..]
      invariant starts[..i] + Filled(read[i..], duration) == Filled(read, duration)
    {
      ghost var before := starts;
      var end := if starts[i].end != 0 then starts[i].end else if i + 1 < |starts| then starts[i + 1].start else duration;
      starts := starts[i := starts[i].(end := end)];
      FillStep(before[..i], read[i..], duration, starts[i]);
      assert starts[..i + 1] == before[..i] + [starts[i]];
      assert starts[i + 1..] == before[i + 1..] == before[i..][1..] == read[i + 1..];
      assert before[i..][0] == before[i] && (i + 1 < |read| ==> before[i..][1] == before[i + 1]);
      assert read[i..][1..] == read[i + 1..];
    }
    assert starts[..|starts|] == starts;
  }

  lemma FillStep(done: seq<Segment>, todo: seq<Segment>, duration: int, filled: Segment)
    requires todo != []
    requires filled == todo[0].(end := if todo[0].end != 0 then todo[0].end else if |todo| > 1 then todo[1].start else duration)
    ensures done + Filled(todo, duration) == done + [filled] + Filled(todo[1..], duration)
  {}

  // ------------------------------------------------------------------- writing

  function Line(s: Segment): string
    requires 0 <= s.start && 0 <= s.end
  {
    FormatTimestamp(s.start) + " --> " + FormatTimestamp(s.end) + " " + s.title
  }

  function Lines(s: seq<Segment>): string
    requires forall i :: 0 <= i < |s| ==> 0 <= s[i].start && 0 <= s[i].end
  {
    if s == [] then "" else Line(s[0]) + "\n" + Lines(s[1..])
  }

  lemma NoLines(s: seq<Segment>)
    requires s == []
    ensures Lines(s) == ""
  {}

  lemma Associate(a: string, b: string, c: string)
    ensures a + (b + c) == a + b + c
  {}

  lemma LinesGrow(b: string, s: seq<Segment>)
    requires s != [] && forall i :: 0 <= i < |s| ==> 0 <= s[i].start && 0 <= s[i].end
    ensures b + Lines(s) == b + Line(s[0]) + "\n" + Lines(s[1..])
  {
    hide Line;
    var line, rest := Line(s[0]), Lines(s[1..]);
    Associate(b, line + "\n", rest);
    Associate(b, line, "\n");
  }

  ghost predicate Dated(s: seq<Segment>) {
    forall i :: 0 <= i < |s| ==> 0 <= s[i].start && 0 <= s[i].end
  }

  lemma OrderlyDated(s: seq<Segment>)
    requires Orderly(s, 0)
    ensures Dated(s) && forall i :: 0 <= i <= |s| ==> Dated(s[i..])
  {}

  method ExportChapters(segments: seq<Segment>) returns (r: Option<string>)
    ensures r.Some? <==> Orderly(segments, 0)
    ensures r.Some? ==> Dated(segments) && r.value == Lines(segments)
  {
    hide Line, Lines, Orderly;
    var ok := Validate(segments, 0);
    if !ok {
      return None;
    }
    OrderlyDated(segments);
    var b := "";
    assert segments[0..] == segments;
    for i := 0 to |segments|
      invariant b + Lines(segments[i..]) == Lines(segments)
    {
      LinesGrow(b, segments[i..]);
      assert segments[i..][0] == segments[i] && segments[i..][1..] == segments[i + 1..];
      b := b + Line(segments[i]) + "\n";
    }
    NoLines(segments[|segments|..]);
    r := Some(b);
  }

  // ---------------------------------------------------------------- round trip

  /** A title that survives: not empty, no surrounding white space, no line break. */
  predicate Clean(title: string) {
    title != "" && Trimmed(title) && '\n' !in title
  }

  ghost predicate AllClean(s: seq<Segment>) {
    forall i :: 0 <= i < |s| ==> Clean(s[i].title)
  }

  /** Times are 64-bit. */
  ghost predicate Representable(s: seq<Segment>) {
    forall i :: 0 <= i < |s| ==> 0 <= s[i].start <= MAX_INT64 && 0 < s[i].end <= MAX_INT64
  }

  lemma StampPlain(ms: nat)
    ensures FormatTimestamp(ms) != "" && NoSpace(FormatTimestamp(ms)) && '\n' !in FormatTimestamp(ms)
  {
    hide FormatTimestamp, Written, WellFormed;
    FormattedMeans(ms);
    WrittenPlain(Formatted(ms));
  }

  lemma LineFields(a: string, b: string, title: string)
    requires a != "" && NoSpace(a) && b != "" && NoSpace(b) && Clean(title)
    ensures var fields := Fields(a + " --> " + b + " " + title);
      |fields| >= 4 && fields[0] == a && fields[1] == "-->" && fields[2] == b
  {
    hide Fields;
    var tail := b + " " + title;
    var middle := "-->" + " " + tail;
    assert a + " --> " + b + " " + title == a + " " + middle;
    FieldsOfWord(a, middle);
    assert NoSpace("-->");
    FieldsOfWord("-->", tail);
    FieldsOfWord(b, title);
    FieldsNonEmpty(title);
  }

  lemma OneBlank(s: string, rest: string)
    requires s == " " + rest && rest != "" && !IsSpace(rest[0])
    ensures Blanks(s) == 1
  {
    assert s[1..] == rest;
  }

  lemma LineOffset(a: string, b: string, title: string, fields: seq<string>)
    requires a != "" && NoSpace(a) && b != "" && NoSpace(b)
    requires |fields| >= 3 && fields[0] == a && fields[1] == "-->" && fields[2] == b
    ensures TitleOffset(a + " --> " + b + " " + title, fields, true) == |a| + 5 + |b|
    ensures From(a + " --> " + b + " " + title, |a| + 5 + |b|) == " " + title
  {
    hide Blanks;
    var tail := b + " " + title;
    var line := a + " --> " + b + " " + title;
    assert From(line, |a|) == " " + ("-->" + " " + tail);
    OneBlank(From(line, |a|), "-->" + " " + tail);
    assert From(line, |a| + 4) == " " + tail;
    assert tail[0] == b[0];
    OneBlank(From(line, |a| + 4), tail);
  }

  /** One exported line reads back as its segment. */
  lemma LineRoundTrip(s: Segment)
    requires 0 <= s.start <= MAX_INT64 && 0 < s.end <= MAX_INT64 && Clean(s.title) && |s.title| <= MAX_TITLE
    ensures ParseLine(Line(s)) == Some(s) && Line(s) != "" && '\n' !in Line(s)
  {
    hide FormatTimestamp, ParseTimestamp, Fields, TitleOffset, NoSpace, Trimmed, TrimSpace;
    var a, b, line := FormatTimestamp(s.start), FormatTimestamp(s.end), Line(s);
    StampPlain(s.start);
    StampPlain(s.end);
    LineFields(a, b, s.title);
    LineOffset(a, b, s.title, Fields(line));
    TimestampRoundTrip(s.start);
    TimestampRoundTrip(s.end);
    TrimSpaceKeeps(s.title);
    assert s == Segment(s.start, s.end, s.title);
  }

  lemma {:induction false} LinesRoundTrip(s: seq<Segment>)
    requires Representable(s) && AllClean(s) && forall i :: 0 <= i < |s| ==> |s[i].title| <= MAX_TITLE
    ensures ParseLines(Split(Lines(s), '\n')) == Some(s)
  {
    hide ParseLine, Line, Split, Clean;
    if s == [] {
      SplitWhole("", '\n');
      assert ParseLines([""]) == ParseLines([""][1..]);
    } else {
      LineRoundTrip(s[0]);
      LinesRoundTrip(s[1..]);
      var rest := Lines(s[1..]);
      assert Lines(s) == Line(s[0]) + ['\n'] + rest;
      SplitAtFirst(Line(s[0]), '\n', rest);
      assert ([Line(s[0])] + Split(rest, '\n'))[1..] == Split(rest, '\n');
      assert [s[0]] + s[1..] == s;
    }
  }

  lemma {:induction false} FilledKeeps(s: seq<Segment>, duration: int)
    requires forall i :: 0 <= i < |s| ==> s[i].end != 0
    ensures Filled(s, duration) == s
  {
    if s != [] {
      FilledKeeps(s[1..], duration);
    }
  }

  /** A trimmed title does not end in a carriage return, so no line gains a DOS ending. */
  lemma {:induction false} LinesUnix(s: seq<Segment>)
    requires Representable(s) && AllClean(s) && forall i :: 0 <= i < |s| ==> |s[i].title| <= MAX_TITLE
    ensures NoCarriageReturnAtEnd(Lines(s))
  {
    hide Line, Lines, Clean, NoCarriageReturnAtEnd;
    if s == [] {
      NoLines(s);
      EmptyIsUnix();
    } else {
      LinesUnix(s[1..]);
      LineEnds(s[0]);
      UnfoldLines(s);
      NoReturnsBetween(Line(s[0]), Lines(s[1..]));
    }
  }

  lemma NoReturnsBetween(line: string, rest: string)
    requires line != "" && line[|line| - 1] != '\r' && '\n' !in line && NoCarriageReturnAtEnd(rest)
    ensures NoCarriageReturnAtEnd(line + "\n" + rest)
  {
    var all := line + "\n" + rest;
    forall i | 0 <= i < |all| - 1 ensures !(all[i] == '\r' && all[i + 1] == '\n') {
        if i < |line| - 1 {
          assert all[i + 1] == line[i + 1];
        } else if i == |line| - 1 {
          assert all[i] == line[i];
        } else if i > |line| {
          var k := i - |line| - 1;
          assert all[i] == rest[k] && all[i + 1] == rest[k + 1];
        }
      }
  }

  lemma EmptyIsUnix()
    ensures NoCarriageReturnAtEnd("")
  {}

  lemma UnfoldLines(s: seq<Segment>)
    requires Representable(s) && s != []
    ensures Lines(s) == Line(s[0]) + "\n" + Lines(s[1..])
  {}

  lemma LineEnds(s: Segment)
    requires 0 <= s.start <= MAX_INT64 && 0 < s.end <= MAX_INT64 && Clean(s.title) && |s.title| <= MAX_TITLE
    ensures Line(s) != "" && Line(s)[|Line(s)| - 1] != '\r' && '\n' !in Line(s)
  {
    hide FormatTimestamp, ParseLine;
    LineRoundTrip(s);
    assert Line(s)[|Line(s)| - 1] == s.title[|s.title| - 1];
  }

  /** Whatever was parsed has clean titles. */
  lemma {:induction false} ParsedTitlesClean(lines: seq<string>)
    requires ParseLines(lines).Some? && forall l <- lines :: '\n' !in l
    ensures AllClean(ParseLines(lines).value)
  {
    hide ParseLine, Clean;
    if lines != [] {
      ParsedTitlesClean(lines[1..]);
      if lines[0] != "" {
        ParsedTitleClean(lines[0]);
        var rest := ParseLines(lines[1..]).value;
        assert forall i :: 0 < i <= |rest| ==> ([ParseLine(lines[0]).value] + rest)[i] == rest[i - 1];
      }
    }
  }

  lemma ParsedTitleClean(line: string)
    requires ParseLine(line).Some? && '\n' !in line
    ensures Clean(ParseLine(line).value.title)
  {
    hide Fields, ParseTimestamp, TitleOffset, TrimSpace;
    var fields := Fields(line);
    var explicit := |fields| >= 4 && fields[1] == "-->";
    TrimSpaceTrims(From(line, TitleOffset(line, fields, explicit)));
  }

  lemma FilledTitles(s: seq<Segment>, duration: int, i: nat)
    requires i < |s|
    ensures |Filled(s, duration)| == |s| && Filled(s, duration)[i].title == s[i].title
  {
    if |s| > 1 {
      FilledTitles(s[1..], duration, if i > 0 then i - 1 else 0);
    }
  }

  /** Every non-empty, orderly list within a positive duration whose titles are clean and whose text fits
      reads back exactly, and nothing else does. */
  lemma ChapterRoundTrip(s: seq<Segment>, duration: int)
    requires Representable(s) && Orderly(s, 0)
    ensures Parsed(Lines(s), duration) == Some(s) <==>
            s != [] && duration > 0 && Orderly(s, duration) && AllClean(s) && ByteSize(Lines(s)) <= MAX_INPUT_BYTES
  {
    hide ByteSize, Lines, ParseLines, Orderly, Split, Clean;
    if s != [] && duration > 0 && Orderly(s, duration) && AllClean(s) && ByteSize(Lines(s)) <= MAX_INPUT_BYTES {
      TitlesFit(s);
      LinesUnix(s);
      UnixLinesKeeps(Lines(s));
      LinesRoundTrip(s);
      FilledKeeps(s, duration);
    }
    if Parsed(Lines(s), duration) == Some(s) {
      var lines := Split(UnixLines(Lines(s)), '\n');
      forall l | l in lines ensures '\n' !in l {
        var k :| 0 <= k < |lines| && lines[k] == l;
        SplitParts(UnixLines(Lines(s)), '\n', k);
      }
      ParsedTitlesClean(lines);
      var starts := ParseLines(lines).value;
      FilledSize(starts, duration);
      forall i | 0 <= i < |s| ensures Clean(s[i].title) {
        FilledTitles(starts, duration, i);
      }
    }
  }

  lemma FilledSize(s: seq<Segment>, duration: int)
    ensures |Filled(s, duration)| == |s|
  {
    if s != [] {
      FilledTitles(s, duration, 0);
    }
  }

  lemma TitlesFit(s: seq<Segment>)
    requires Orderly(s, 0)
    ensures forall i :: 0 <= i < |s| ==> |s[i].title| <= MAX_TITLE
  {}

  /** A missing end is the start of the next segment, and of the last one the duration. */
  lemma {:induction false} FilledMeans(s: seq<Segment>, duration: int, i: nat)
    requires i < |s|
    ensures |Filled(s, duration)| == |s|
    ensures Filled(s, duration)[i].start == s[i].start && Filled(s, duration)[i].title == s[i].title
    ensures Filled(s, duration)[i].end == if s[i].end != 0 then s[i].end else if i == |s| - 1 then duration else s[i + 1].start
  {
    if |s| > 1 {
      FilledMeans(s[1..], duration, if i > 0 then i - 1 else 0);
    }
  }

  // ---------------------------------------------------------------- the short form

  /** A chapter mark: where a segment starts, and its title. */
  datatype Mark = Mark(start: int, title: string)

  /** A title that does not make its line read as one with an explicit end. */
  predicate NoArrow(title: string) {
    |Fields(title)| < 3 || Fields(title)[0] != "-->"
  }

  ghost predicate PlainMarks(marks: seq<Mark>) {
    forall i :: 0 <= i < |marks| ==> 0 <= marks[i].start <= MAX_INT64 && Clean(marks[i].title) && |marks[i].title| <= MAX_TITLE && NoArrow(marks[i].title)
  }

  function ShortLine(m: Mark): string
    requires 0 <= m.start
  {
    FormatTimestamp(m.start) + " " + m.title
  }

  function ShortLines(marks: seq<Mark>): string
    requires PlainMarks(marks)
  {
    if marks == [] then "" else ShortLine(marks[0]) + "\n" + ShortLines(marks[1..])
  }

  lemma CleanHasWord(title: string)
    requires Clean(title)
    ensures |Fields(title)| >= 1
  {
    FieldsNonEmpty(title);
  }

  /** A line of a time and a title reads as an open segment: the title is all that follows the time. */
  lemma ShortLineRead(m: Mark)
    requires 0 <= m.start <= MAX_INT64 && Clean(m.title) && |m.title| <= MAX_TITLE && NoArrow(m.title)
    ensures ParseLine(ShortLine(m)) == Some(Segment(m.start, 0, m.title)) && ShortLine(m) != "" && '\n' !in ShortLine(m)
  {
    hide FormatTimestamp, ParseTimestamp, NoSpace, Trimmed, TrimSpace, Fields;
    var a, line := FormatTimestamp(m.start), ShortLine(m);
    StampPlain(m.start);
    FieldsOfWord(a, m.title);
    CleanHasWord(m.title);
    TimestampRoundTrip(m.start);
    TrimSpaceKeeps(m.title);
    assert line == a + " " + m.title;
    assert From(line, |a|) == " " + m.title;
  }

  function Opened(marks: seq<Mark>): seq<Segment> {
    if marks == [] then [] else [Segment(marks[0].start, 0, marks[0].title)] + Opened(marks[1..])
  }

  lemma {:induction false} OpenedMeans(marks: seq<Mark>, i: nat)
    requires i < |marks|
    ensures |Opened(marks)| == |marks| && Opened(marks)[i] == Segment(marks[i].start, 0, marks[i].title)
  {
    if |marks| > 1 {
      OpenedMeans(marks[1..], if i > 0 then i - 1 else 0);
    }
  }

  lemma {:induction false} ShortLinesRead(marks: seq<Mark>)
    requires PlainMarks(marks)
    ensures ParseLines(Split(ShortLines(marks), '\n')) == Some(Opened(marks))
  {
    hide ParseLine, ShortLine, Split, Clean, NoArrow;
    if marks == [] {
      SplitWhole("", '\n');
      assert ParseLines([""]) == ParseLines([""][1..]);
    } else {
      ShortLineRead(marks[0]);
      ShortLinesRead(marks[1..]);
      var rest := ShortLines(marks[1..]);
      assert ShortLines(marks) == ShortLine(marks[0]) + ['\n'] + rest;
      SplitAtFirst(ShortLine(marks[0]), '\n', rest);
      assert ([ShortLine(marks[0])] + Split(rest, '\n'))[1..] == Split(rest, '\n');
    }
  }

  /** Where the segment of mark i ends: at the next mark, or with the media. */
  function NextStart(marks: seq<Mark>, duration: int, i: nat): int
    requires i < |marks|
  {
    if i == |marks| - 1 then duration else marks[i + 1].start
  }

  lemma MarksFilled(marks: seq<Mark>, duration: int)
    ensures |Opened(marks)| == |Filled(Opened(marks), duration)| == |marks|
    ensures forall i {:trigger Filled(Opened(marks), duration)[i]} :: 0 <= i < |marks| ==>
      Filled(Opened(marks), duration)[i] == Segment(marks[i].start, NextStart(marks, duration, i), marks[i].title)
  {
    var open := Opened(marks);
    if marks != [] {
      OpenedMeans(marks, 0);
      FilledMeans(open, duration, 0);
    }
    hide Opened, Filled;
    forall i {:trigger Filled(open, duration)[i]} | 0 <= i < |marks|
      ensures Filled(open, duration)[i] == Segment(marks[i].start, NextStart(marks, duration, i), marks[i].title)
    {
      OpenedMeans(marks, i);
      if i + 1 < |marks| { OpenedMeans(marks, i + 1); }
      FilledMeans(open, duration, i);
    }
  }

  /** A list of marks written one per line is accepted exactly when the segments between them are orderly, and then each
      segment runs to the next mark, the last one to the end of the media. */
  lemma MarksRead(marks: seq<Mark>, duration: int)
    requires PlainMarks(marks) && NoCarriageReturnAtEnd(ShortLines(marks)) && ByteSize(ShortLines(marks)) <= MAX_INPUT_BYTES
    ensures var r := Parsed(ShortLines(marks), duration);
      && (r.Some? <==> duration > 0 && marks != [] && |marks| <= MAX_SEGMENTS && RunOn(marks, duration))
      && (r.Some? ==> |r.value| == |marks| && forall i :: 0 <= i < |marks| ==>
            r.value[i] == Segment(marks[i].start, NextStart(marks, duration, i), marks[i].title))
  {
    hide ByteSize, ShortLines, ParseLines, Split;
    UnixLinesKeeps(ShortLines(marks));
    ShortLinesRead(marks);
    MarksFilled(marks, duration);
    var filled := Filled(Opened(marks), duration);
    if duration > 0 { OrderlyIff(marks, filled, duration); }
    hide Opened, Filled, Orderly, RunOn, PlainMarks, NextStart;
  }

  /** The segments of a list of marks, when it is read. */
  ghost predicate Spans(filled: seq<Segment>, marks: seq<Mark>, duration: int) {
    && |filled| == |marks|
    && forall i {:trigger filled[i]} :: 0 <= i < |marks| ==> filled[i] == Segment(marks[i].start, NextStart(marks, duration, i), marks[i].title)
  }

  lemma OrderlyIff(marks: seq<Mark>, filled: seq<Segment>, duration: int)
    requires PlainMarks(marks) && Spans(filled, marks, duration) && duration > 0
    ensures Orderly(filled, duration) <==> |marks| <= MAX_SEGMENTS && RunOn(marks, duration)
  {
    hide PlainMarks, Spans, RunOn, Orderly;
    if |marks| <= MAX_SEGMENTS && RunOn(marks, duration) { OrderlyIfRunOn(marks, filled, duration); }
    if Orderly(filled, duration) { RunOnIfOrderly(marks, filled, duration); }
  }

  lemma OrderlyIfRunOn(marks: seq<Mark>, filled: seq<Segment>, duration: int)
    requires PlainMarks(marks) && Spans(filled, marks, duration) && duration > 0 && |marks| <= MAX_SEGMENTS && RunOn(marks, duration)
    ensures Orderly(filled, duration)
  {
    hide Clean, NoArrow, RunOn;
    forall i | 0 <= i < |filled|
      ensures 0 <= filled[i].start < filled[i].end <= duration && |filled[i].title| <= MAX_TITLE
    {
      EndsWithin(marks, duration, i);
    }
    forall i | 0 < i < |filled| ensures filled[i - 1].end <= filled[i].start {
      assert filled[i - 1].end == NextStart(marks, duration, i - 1) == marks[i].start;
    }
  }

  lemma RunOnIfOrderly(marks: seq<Mark>, filled: seq<Segment>, duration: int)
    requires Spans(filled, marks, duration) && Orderly(filled, duration)
    ensures |marks| <= MAX_SEGMENTS && RunOn(marks, duration)
  {
    hide NextStart;
    forall i | 0 <= i < |marks| ensures marks[i].start < NextStart(marks, duration, i) {
      assert 0 <= filled[i].start < filled[i].end;
    }
  }

  /** The marks are in strict order and before the end. */
  ghost predicate RunOn(marks: seq<Mark>, duration: int) {
    forall i :: 0 <= i < |marks| ==> marks[i].start < NextStart(marks, duration, i)
  }

  lemma {:induction false} EndsWithin(marks: seq<Mark>, duration: int, i: nat)
    requires RunOn(marks, duration) && i < |marks|
    ensures marks[i].start < NextStart(marks, duration, i) <= duration
    decreases |marks| - i
  {
    if i < |marks| - 1 {
      EndsWithin(marks, duration, i + 1);
    }
  }

  /** DOS line endings make no difference. */
  lemma LineEndingsIgnored(data: string, duration: int)
    requires '\r' !in data && ByteSize(data) <= MAX_INPUT_BYTES && ByteSize(DosLines(data)) <= MAX_INPUT_BYTES
    ensures Parsed(DosLines(data), duration) == Parsed(data, duration)
  {
    hide ParseLines, Split, ByteSize, Filled;
    UnixOfDos(data);
    UnixLinesKeeps(data);
  }

  /** Empty lines make no difference. */
  lemma {:induction false} EmptyLinesIgnored(a: seq<string>, b: seq<string>)
    ensures ParseLines(a + [""] + b) == ParseLines(a + b)
  {
    hide ParseLine;
    var x, y := a + [""] + b, a + b;
    if a == [] {
      assert x[1..] == b && y == b && x[0] == "";
    } else {
      EmptyLinesIgnored(a[1..], b);
      assert x[1..] == a[1..] + [""] + b && y[1..] == a[1..] + b && x[0] == y[0] == a[0];
    }
  }

  // ----------------------------------------------------------- white space in a line

  /** However wide the gaps, a line with an arrow reads as its three parts. */
  lemma ArrowLineRead(s: Segment, g: string, h: string, k: string)
    requires 0 <= s.start <= MAX_INT64 && 0 < s.end <= MAX_INT64 && Clean(s.title) && |s.title| <= MAX_TITLE
    requires Gap(g) && Gap(h) && Gap(k)
    ensures ParseLine(FormatTimestamp(s.start) + g + "-->" + h + FormatTimestamp(s.end) + k + s.title) == Some(s)
  {
    hide FormatTimestamp, ParseTimestamp, Fields, TrimSpace, Blanks;
    var a, b, title := FormatTimestamp(s.start), FormatTimestamp(s.end), s.title;
    StampPlain(s.start);
    StampPlain(s.end);
    TimestampRoundTrip(s.start);
    TimestampRoundTrip(s.end);
    var line := a + g + "-->" + h + b + k + title;
    ArrowFields(a, b, g, h, k, title);
    ArrowOffset(a, b, g, h, k, title, Fields(line));
    TrimGap(k, title);
    hide TitleOffset, Clean;
    assert s == Segment(s.start, s.end, title);
  }

  lemma TrimGap(gap: string, title: string)
    requires (gap == "" || Gap(gap)) && Clean(title)
    ensures TrimSpace(gap + title) == title
    decreases gap
  {
    if gap == "" {
      assert gap + title == title;
      TrimSpaceKeeps(title);
    } else {
      TrimGap(gap[1..], title);
      assert (gap + title)[1..] == gap[1..] + title;
    }
  }

  lemma ArrowFields(a: string, b: string, g: string, h: string, k: string, title: string)
    requires a != "" && NoSpace(a) && b != "" && NoSpace(b) && Clean(title) && Gap(g) && Gap(h) && Gap(k)
    ensures var fields := Fields(a + g + "-->" + h + b + k + title);
      |fields| >= 4 && fields[0] == a && fields[1] == "-->" && fields[2] == b
  {
    hide Fields;
    var last := k + title;
    var tail := h + b + last;
    var middle := g + "-->" + tail;
    assert a + g + "-->" + h + b + k + title == "" + a + middle;
    FieldsExact("", a, middle);
    assert NoSpace("-->") && tail[0] == h[0];
    FieldsExact(g, "-->", tail);
    FieldsExact(h, b, last);
    WordAfterGap(k, title);
  }

  lemma {:induction false} WordAfterGap(gap: string, title: string)
    requires (gap == "" || Gap(gap)) && Clean(title)
    ensures |Fields(gap + title)| >= 1
  {
    if gap == "" {
      assert gap + title == title;
      FieldsNonEmpty(title);
    } else {
      WordAfterGap(gap[1..], title);
      assert (gap + title)[1..] == gap[1..] + title;
    }
  }

  lemma ArrowOffset(a: string, b: string, g: string, h: string, k: string, title: string, fields: seq<string>)
    requires a != "" && NoSpace(a) && b != "" && NoSpace(b) && Gap(g) && Gap(h) && Gap(k)
    requires |fields| >= 3 && fields[0] == a && fields[1] == "-->" && fields[2] == b
    ensures var line := a + g + "-->" + h + b + k + title; From(line, TitleOffset(line, fields, true)) == k + title
  {
    hide Blanks, NoSpace, Gap, From;
    var line := a + g + "-->" + h + b + k + title;
    var tail := b + k + title;
    var middle := "-->" + h + tail;
    NotSpaceFirst(b);
    LineCuts(a, b, g, h, k, title);
    BlanksOf(g, middle);
    BlanksOf(h, tail);
  }

  /** What is left of an arrow line behind each of its parts. */
  lemma LineCuts(a: string, b: string, g: string, h: string, k: string, title: string)
    ensures var line, tail := a + g + "-->" + h + b + k + title, b + k + title;
      && From(line, |a|) == g + ("-->" + h + tail)
      && From(line, |a| + |g| + 3) == h + tail
      && From(line, |a| + |g| + 3 + |h| + |b|) == k + title
  {
    var line, tail := a + g + "-->" + h + b + k + title, b + k + title;
    CutAfter(a, g + ("-->" + h + tail));
    CutAfter(a + g + "-->", h + tail);
    CutAfter(a + g + "-->" + h + b, k + title);
    hide From;
    Associate(a + g + "-->" + h + b, k, title);
    Associate(b, k, title);
    Associate(a + g + "-->" + h, b, k + title);
    Associate(a + g + "-->", h, tail);
    Associate("-->", h, tail);
    Associate(a + g, "-->", h + tail);
    Associate(a, g, "-->" + h + tail);
  }

  lemma CutAfter(head: string, rest: string)
    ensures From(head + rest, |head|) == rest
  {}

  lemma NotSpaceFirst(s: string)
    requires s != "" && NoSpace(s)
    ensures !IsSpace(s[0]) && !IsSpace(s[|s| - 1])
  {}

  /** The offset of a title counts from the beginning of the line and forgets white space before the time: a line of a
      time and a title keeps its title exactly when nothing precedes the time. */
  lemma LeadingSpaceIff(m: Mark, lead: string, gap: string)
    requires 0 <= m.start <= MAX_INT64 && Clean(m.title) && |m.title| <= MAX_TITLE && NoArrow(m.title)
    requires (lead == "" || Gap(lead)) && Gap(gap)
    ensures ParseLine(lead + FormatTimestamp(m.start) + gap + m.title) == Some(Segment(m.start, 0, m.title)) <==> lead == ""
  {
    hide FormatTimestamp, ParseTimestamp, Fields, TrimSpace, NoArrow;
    var a, title := FormatTimestamp(m.start), m.title;
    StampPlain(m.start);
    TimestampRoundTrip(m.start);
    var line := lead + a + gap + title;
    ShortFields(lead, a, gap, title);
    var fields := Fields(line);
    assert TitleOffset(line, fields, false) == |a|;
    if lead == "" {
      assert From(line, |a|) == gap + title;
      TrimGap(gap, title);
    } else {
      TitleGrows(lead, a, gap, title);
    }
  }

  lemma ShortFields(lead: string, a: string, gap: string, title: string)
    requires (lead == "" || Gap(lead)) && Gap(gap) && a != "" && NoSpace(a) && Clean(title) && NoArrow(title)
    ensures var fields := Fields(lead + a + gap + title);
      |fields| >= 2 && fields[0] == a && !(|fields| >= 4 && fields[1] == "-->")
  {
    hide Fields;
    var rest := gap + title;
    assert lead + a + gap + title == lead + a + rest;
    FieldsExact(lead, a, rest);
    SameFields(gap, title);
    WordAfterGap(gap, title);
  }

  lemma {:induction false} SameFields(gap: string, title: string)
    requires gap == "" || Gap(gap)
    ensures Fields(gap + title) == Fields(title)
  {
    if gap == "" {
      assert gap + title == title;
    } else {
      SameFields(gap[1..], title);
      assert (gap + title)[1..] == gap[1..] + title;
    }
  }

  /** With white space in front the title takes at least one character of the time as well. */
  lemma TitleGrows(lead: string, a: string, gap: string, title: string)
    requires Gap(lead) && Gap(gap) && a != "" && NoSpace(a) && Clean(title)
    ensures var line := lead + a + gap + title; |TrimSpace(From(line, |a|))| > |title|
  {
    var line := lead + a + gap + title;
    var t := From(line, |a|);
    var i := |lead| - 1;
    assert |t| == |lead| + |gap| + |title|;
    assert t[i] == line[|a| + i] == a[|a| - 1];
    assert t[|t| - 1] == line[|line| - 1] == title[|title| - 1];
    TrimStartStops(t, i);
    hide NoSpace, Gap;
  }
}
