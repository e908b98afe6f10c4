/**
 `extractClauseCandidatesFromText` of apps/web/src/server/contracts/structure-extract.ts.  The
 regular expression for clause lines and the notion of white space are parameters.
 */
module ClauseSegmentation {
  import opened Results
  import opened Texts

  /** What the expression captures on a clause line: the clause number and the heading. */
  datatype Match = Match(number: Text, heading: Text)

  type Classifier = Text -> Option<Match>

  type Spaces = Unit -> bool

  // ---------------------------------------------------------------------------------------
  // Lines
  // ---------------------------------------------------------------------------------------

  function TrimStart(s: Text, space: Spaces): (t: Text)
    ensures t == [] || !space(t[0])
    ensures forall c :: c in t ==> c in s
    decreases |s|
  {
    if s != [] && space(s[0]) then TrimStart(s[1..], space) else s
  }

  function TrimEnd(s: Text, space: Spaces): (t: Text)
    ensures t <= s && (t == [] || !space(t[|t| - 1]))
    decreases |s|
  {
    if s != [] && space(s[|s| - 1]) then TrimEnd(s[..|s| - 1], space) else s
  }

  function Trim(s: Text, space: Spaces): (t: Text)
    ensures forall c :: c in t ==> c in s
  {
    TrimEnd(TrimStart(s, space), space)
  }

  /** Not empty, and no white space at either end. */
  predicate Trimmed(s: Text, space: Spaces) {
    s != [] && !space(s[0]) && !space(s[|s| - 1])
  }

  lemma TrimTrims(s: Text, space: Spaces)
    ensures Trim(s, space) != [] ==> Trimmed(Trim(s, space), space)
    ensures Trimmed(s, space) ==> Trim(s, space) == s
  {
    var t := TrimStart(s, space);
    assert Trim(s, space) != [] ==> Trim(s, space)[0] == t[0];
  }

  /** `text.split(/\r?\n/)`: a carriage return before a line feed belongs to the break. */
  function SplitLines(s: Text): (lines: seq<Text>)
    ensures |lines| > 0
    decreases |s|
  {
    if s == [] then [[]]
    else if s[0] == LF then [[]] + SplitLines(s[1..])
    else if s[0] == CR && |s| > 1 && s[1] == LF then [[]] + SplitLines(s[2..])
    else
      var rest := SplitLines(s[1..]);
      [[s[0]] + rest[0]] + rest[1..]
  }

  lemma {:induction false} LinesHaveNoBreaks(s: Text)
    ensures forall i :: 0 <= i < |SplitLines(s)| ==> LF !in SplitLines(s)[i]
    decreases |s|
  {
    if s != [] {
      if s[0] == CR && |s| > 1 && s[1] == LF {
        LinesHaveNoBreaks(s[2..]);
      } else {
        LinesHaveNoBreaks(s[1..]);
      }
    }
  }

  // ---------------------------------------------------------------------------------------
  // Segments
  // ---------------------------------------------------------------------------------------

  /** A clause with its heading first, or the text before the first clause. */
  datatype Segment = Segment(number: Option<Text>, heading: Option<Text>, lines: seq<Text>)

  /** The lines that are not blank, trimmed. */
  function Kept(raw: seq<Text>, space: Spaces): seq<Text>
    decreases |raw|
  {
    if raw == [] then []
    else
      var line := Trim(raw[|raw| - 1], space);
      Kept(raw[..|raw| - 1], space) + if line == [] then [] else [line]
  }

  function HeadingOf(m: Match, space: Spaces): Text {
    Trim(m.heading, space)
  }

  /** One more line: a clause line opens a segment, any other goes to the last one or opens the first. */
  function Extend(segments: seq<Segment>, line: Text, classify: Classifier, space: Spaces): seq<Segment> {
    match classify(line)
    case Some(m) => segments + [Segment(Some(m.number), Some(HeadingOf(m, space)), [HeadingOf(m, space)])]
    case None =>
      if segments == [] then [Segment(None, None, [line])]
      else
        var last := segments[|segments| - 1];
        segments[..|segments| - 1] + [last.(lines := last.lines + [line])]
  }

  function Segments(lines: seq<Text>, classify: Classifier, space: Spaces): seq<Segment>
    decreases |lines|
  {
    if lines == [] then []
    else Extend(Segments(lines[..|lines| - 1], classify, space), lines[|lines| - 1], classify, space)
  }

  // ---------------------------------------------------------------------------------------
  // What they mean
  // ---------------------------------------------------------------------------------------

  /** The lines with the breaks between them. */
  function Interleaved(lines: seq<Text>, breaks: seq<Text>): Text
    requires |lines| == |breaks| + 1
    decreases |breaks|
  {
    if breaks == [] then lines[0] else lines[0] + breaks[0] + Interleaved(lines[1..], breaks[1..])
  }

  /** A break is a line feed, with a carriage return in front of it if there is one. */
  predicate IsBreak(line: Text, break_: Text) {
    break_ == [0x0D, 0x0A] || (break_ == [0x0A] && (line == [] || line[|line| - 1] != 0x0D))
  }

  /** The text is these lines, with line breaks between them and none within. */
  ghost predicate AreLines(text: Text, lines: seq<Text>) {
    exists breaks: seq<Text> :: AreLinesWith(text, lines, breaks)
  }

  ghost predicate AreLinesWith(text: Text, lines: seq<Text>, breaks: seq<Text>) {
    && |lines| == |breaks| + 1 && Interleaved(lines, breaks) == text
    && (forall i :: 0 <= i < |lines| ==> 0x0A !in lines[i])
    && forall i :: 0 <= i < |breaks| ==> IsBreak(lines[i], breaks[i])
  }

  lemma FirstBreak(text: Text, line: Text, lines: seq<Text>, break_: Text, breaks: seq<Text>, whole: Text)
    requires AreLinesWith(text, lines, breaks) && 0x0A !in line && IsBreak(line, break_)
    requires whole == line + break_ + text
    ensures AreLinesWith(whole, [line] + lines, [break_] + breaks)
  {
    assert ([line] + lines)[1..] == lines && ([break_] + breaks)[1..] == breaks;
  }

  lemma LongerLine(text: Text, c: Unit, lines: seq<Text>, breaks: seq<Text>)
    requires AreLinesWith(text, lines, breaks) && c != 0x0A
    requires text != [] && text[0] == 0x0A ==> c != 0x0D
    ensures AreLinesWith([c] + text, [[c] + lines[0]] + lines[1..], breaks)
  {
    var all := [[c] + lines[0]] + lines[1..];
    assert all[1..] == lines[1..];
    if breaks != [] {
      assert IsBreak(lines[0], breaks[0]);
      assert Interleaved(all, breaks) == [c] + lines[0] + breaks[0] + Interleaved(lines[1..], breaks[1..]);
      assert Interleaved(all, breaks) == [c] + text;
      assert lines[0] == [] ==> text[0] == breaks[0][0];
    }
  }

  lemma {:induction false} LinesMean(s: Text) returns (breaks: seq<Text>)
    ensures AreLinesWith(s, SplitLines(s), breaks)
    decreases |s|
  {
    if s == [] {
      breaks := [];
    } else if s[0] == LF || (s[0] == CR && |s| > 1 && s[1] == LF) {
      var n := if s[0] == LF then 1 else 2;
      var more := LinesMean(s[n..]);
      breaks := [s[..n]] + more;
      FirstBreak(s[n..], [], SplitLines(s[n..]), s[..n], more, s);
    } else {
      breaks := LinesMean(s[1..]);
      LongerLine(s[1..], s[0], SplitLines(s[1..]), breaks);
      assert [s[0]] + s[1..] == s;
    }
  }

  predicate Blank(s: Text, space: Spaces) {
    forall c :: c in s ==> space(c)
  }

  /** The text without white space at its ends. */
  ghost predicate IsTrimOf(s: Text, t: Text, space: Spaces) {
    && (t != [] ==> Trimmed(t, space))
    && exists before: Text, after: Text :: s == before + t + after && Blank(before, space) && Blank(after, space)
  }

  lemma {:induction false} StartMeans(s: Text, space: Spaces) returns (before: Text)
    ensures s == before + TrimStart(s, space) && Blank(before, space)
    decreases |s|
  {
    if s != [] && space(s[0]) {
      before := StartMeans(s[1..], space);
      before := [s[0]] + before;
    } else {
      before := [];
    }
  }

  lemma {:induction false} EndMeans(s: Text, space: Spaces) returns (after: Text)
    ensures s == TrimEnd(s, space) + after && Blank(after, space)
    decreases |s|
  {
    if s != [] && space(s[|s| - 1]) {
      after := EndMeans(s[..|s| - 1], space);
      after := after + [s[|s| - 1]];
    } else {
      after := [];
    }
  }

  lemma TrimMeans(s: Text, space: Spaces)
    ensures IsTrimOf(s, Trim(s, space), space)
    ensures Trim(s, space) == [] <==> Blank(s, space)
  {
    TrimTrims(s, space);
    var before := StartMeans(s, space);
    var after := EndMeans(TrimStart(s, space), space);
    assert s == before + Trim(s, space) + after;
  }

  /** The lines that are not blank, in order, each without white space at its ends. */
  ghost predicate AreKept(raw: seq<Text>, kept: seq<Text>, space: Spaces) {
    exists at: seq<nat> :: AreKeptAt(raw, kept, at, space)
  }

  ghost predicate AreKeptAt(raw: seq<Text>, kept: seq<Text>, at: seq<nat>, space: Spaces) {
    && |at| == |kept|
    && (forall i, j :: 0 <= i < j < |at| ==> at[i] < at[j])
    && (forall i :: 0 <= i < |at| ==> at[i] < |raw| && kept[i] != [] && IsTrimOf(raw[at[i]], kept[i], space))
    && (forall k :: 0 <= k < |raw| && k !in at ==> Blank(raw[k], space))
  }

  lemma BlankAdded(raw: seq<Text>, kept: seq<Text>, at: seq<nat>, line: Text, space: Spaces)
    requires AreKeptAt(raw, kept, at, space) && Blank(line, space)
    ensures AreKeptAt(raw + [line], kept, at, space)
  {
    var all := raw + [line];
    forall i | 0 <= i < |at|
      ensures at[i] < |all| && kept[i] != [] && IsTrimOf(all[at[i]], kept[i], space)
    {
      assert all[at[i]] == raw[at[i]];
    }
  }

  lemma KeptAdded(raw: seq<Text>, kept: seq<Text>, at: seq<nat>, line: Text, t: Text, space: Spaces)
    requires AreKeptAt(raw, kept, at, space) && t != [] && IsTrimOf(line, t, space)
    ensures AreKeptAt(raw + [line], kept + [t], at + [|raw|], space)
  {
    var all, after, more := raw + [line], kept + [t], at + [|raw|];
    forall i | 0 <= i < |more|
      ensures more[i] < |all| && after[i] != [] && IsTrimOf(all[more[i]], after[i], space)
    {
      if i < |at| {
        assert all[more[i]] == raw[at[i]] && after[i] == kept[i];
      } else {
        assert all[more[i]] == line && after[i] == t;
      }
    }
    forall k | 0 <= k < |all| && k !in more
      ensures Blank(all[k], space)
    {
      assert k != |raw| by {
        assert more[|at|] == |raw|;
      }
      assert k !in at by {
        assert forall x :: x in at ==> x in more;
      }
    }
  }

  lemma {:induction false} KeptMean(raw: seq<Text>, space: Spaces) returns (at: seq<nat>)
    ensures AreKeptAt(raw, Kept(raw, space), at, space)
    decreases |raw|
  {
    if raw == [] {
      at := [];
    } else {
      var front, line := raw[..|raw| - 1], raw[|raw| - 1];
      at := KeptMean(front, space);
      TrimMeans(line, space);
      assert front + [line] == raw;
      if Trim(line, space) == [] {
        BlankAdded(front, Kept(front, space), at, line, space);
      } else {
        KeptAdded(front, Kept(front, space), at, line, Trim(line, space), space);
        at := at + [|front|];
      }
    }
  }

  /** A segment starts with the first line, and with every clause line. */
  ghost predicate AreStarts(starts: seq<nat>, lines: seq<Text>, classify: Classifier) {
    && (forall i, j :: 0 <= i < j < |starts| ==> starts[i] < starts[j])
    && forall k: nat :: k in starts <==> k < |lines| && (k == 0 || classify(lines[k]).Some?)
  }

  /** The lines from one start up to the next. */
  function Part(lines: seq<Text>, starts: seq<nat>, j: nat): seq<Text> {
    var end := EndOf(lines, starts, j);
    if j < |starts| && starts[j] <= end <= |lines| then lines[starts[j]..end] else []
  }

  function EndOf(lines: seq<Text>, starts: seq<nat>, j: nat): nat {
    if j + 1 < |starts| then starts[j + 1] else |lines|
  }

  /** A clause has its number, its heading, and the heading above its other lines; other text has only its lines. */
  ghost predicate IsSegmentOf(s: Segment, part: seq<Text>, classify: Classifier, space: Spaces) {
    && part != []
    && match classify(part[0])
       case None => s.number == None && s.heading == None && s.lines == part
       case Some(m) => && s.number == Some(m.number) && s.heading.Some?
                       && IsTrimOf(m.heading, s.heading.value, space) && s.lines == [s.heading.value] + part[1..]
  }

  ghost predicate AreSegments(segments: seq<Segment>, starts: seq<nat>, lines: seq<Text>, classify: Classifier,
                              space: Spaces) {
    && AreStarts(starts, lines, classify) && |starts| == |segments|
    && forall j :: 0 <= j < |segments| ==> IsSegmentOf(segments[j], Part(lines, starts, j), classify, space)
  }

  /** A line that starts a segment of its own. */
  lemma StartAdded(segments: seq<Segment>, starts: seq<nat>, lines: seq<Text>, line: Text, s: Segment,
                   classify: Classifier, space: Spaces)
    requires AreSegments(segments, starts, lines, classify, space)
    requires lines == [] || classify(line).Some?
    requires IsSegmentOf(s, [line], classify, space)
    ensures AreSegments(segments + [s], starts + [|lines|], lines + [line], classify, space)
  {
    var all, more := lines + [line], starts + [|lines|];
    forall i | 0 <= i < |starts|
      ensures starts[i] < |lines|
    {
      assert starts[i] in starts;
    }
    assert AreStarts(more, all, classify);
    forall j | 0 <= j < |segments|
      ensures Part(all, more, j) == Part(lines, starts, j)
    {
      assert starts[j] in starts;
      assert j + 1 < |starts| ==> starts[j + 1] in starts;
    }
    assert Part(all, more, |segments|) == [line];
  }

  /** Another line belongs to the last part. */
  lemma PartsGrow(starts: seq<nat>, lines: seq<Text>, line: Text, classify: Classifier)
    requires AreStarts(starts, lines, classify) && starts != [] && classify(line).None?
    ensures AreStarts(starts, lines + [line], classify)
    ensures forall j: nat :: j < |starts| - 1 ==> Part(lines + [line], starts, j) == Part(lines, starts, j)
    ensures Part(lines + [line], starts, |starts| - 1) == Part(lines, starts, |starts| - 1) + [line]
  {
    forall i | 0 <= i < |starts|
      ensures starts[i] < |lines|
    {
      assert starts[i] in starts;
    }
    assert lines != [] && starts[0] in starts;
  }

  lemma SegmentGrows(s: Segment, part: seq<Text>, line: Text, classify: Classifier, space: Spaces)
    requires IsSegmentOf(s, part, classify, space)
    ensures IsSegmentOf(s.(lines := s.lines + [line]), part + [line], classify, space)
  {
    assert (part + [line])[1..] == part[1..] + [line];
  }

  /** A line that goes to the last segment. */
  lemma LineAdded(segments: seq<Segment>, starts: seq<nat>, lines: seq<Text>, line: Text, classify: Classifier,
                  space: Spaces, after: seq<Segment>)
    requires AreSegments(segments, starts, lines, classify, space) && segments != [] && classify(line).None?
    requires var n := |segments| - 1;
      after == segments[..n] + [segments[n].(lines := segments[n].lines + [line])]
    ensures AreSegments(after, starts, lines + [line], classify, space)
  {
    PartsGrow(starts, lines, line, classify);
    var n := |segments| - 1;
    var all, part := lines + [line], Part(lines, starts, n);
    SegmentGrows(segments[n], part, line, classify, space);
    forall j | 0 <= j < |after|
      ensures IsSegmentOf(after[j], Part(all, starts, j), classify, space)
    {
      if j < n {
        assert after[j] == segments[j] && Part(all, starts, j) == Part(lines, starts, j);
        assert IsSegmentOf(segments[j], Part(lines, starts, j), classify, space);
      }
    }
  }

  lemma NoPartIsEmpty(segments: seq<Segment>, starts: seq<nat>, lines: seq<Text>, classify: Classifier, space: Spaces)
    requires AreSegments(segments, starts, lines, classify, space)
    ensures segments == [] <==> lines == []
  {
    if segments != [] {
      assert starts[0] in starts;
    }
    if lines != [] {
      assert 0 in starts;
    }
  }

  lemma {:induction false} SegmentsMean(lines: seq<Text>, classify: Classifier, space: Spaces)
    returns (starts: seq<nat>)
    ensures AreSegments(Segments(lines, classify, space), starts, lines, classify, space)
    decreases |lines|
  {
    if lines == [] {
      starts := [];
    } else {
      var front, line := lines[..|lines| - 1], lines[|lines| - 1];
      starts := SegmentsMean(front, classify, space);
      var segments := Segments(front, classify, space);
      NoPartIsEmpty(segments, starts, front, classify, space);
      assert front + [line] == lines;
      if classify(line).Some? || segments == [] {
        var after := Extend(segments, line, classify, space);
        if classify(line).Some? {
          TrimMeans(classify(line).value.heading, space);
        }
        assert after == segments + [after[|segments|]];
        StartAdded(segments, starts, front, line, after[|segments|], classify, space);
        starts := starts + [|front|];
      } else {
        LineAdded(segments, starts, front, line, classify, space, Extend(segments, line, classify, space));
      }
    }
  }

  // ---------------------------------------------------------------------------------------
  // The program
  // ---------------------------------------------------------------------------------------

  datatype Candidate = Candidate(clauseNumber: Option<Text>, heading: Option<Text>, sourceText: Text, sequence: nat)

  datatype Buffer = Buffer(number: Option<Text>, heading: Option<Text>, body: seq<Text>)

  /** Heading and body of the buffer, as they are joined. */
  function BufferLines(b: Buffer): seq<Text> {
    (if b.heading.Some? then [b.heading.value] else []) + b.body
  }

  function CandidateOf(s: Segment, sequence: nat): Candidate {
    Candidate(s.number, s.heading, Join(s.lines, LF), sequence)
  }

  /** The candidates of the segments, numbered from 1. */
  function Candidates(segments: seq<Segment>): seq<Candidate> {
    seq(|segments|, i requires 0 <= i < |segments| => CandidateOf(segments[i], i + 1))
  }

  /** A candidate for each segment in turn, with its lines separated by line feeds. */
  ghost predicate AreCandidates(candidates: seq<Candidate>, segments: seq<Segment>) {
    && |candidates| == |segments|
    && forall i :: 0 <= i < |segments| ==> IsCandidateOf(candidates[i], segments[i], i + 1)
  }

  ghost predicate IsCandidateOf(c: Candidate, s: Segment, n: nat) {
    && c.clauseNumber == s.number && c.heading == s.heading && c.sequence == n && s.lines != []
    && c.sourceText == Interleaved(s.lines, LineFeeds(|s.lines| - 1))
  }

  function LineFeeds(n: nat): (breaks: seq<Text>)
    ensures |breaks| == n
    decreases n
  {
    if n == 0 then [] else [[0x0A]] + LineFeeds(n - 1)
  }

  lemma {:induction false} JoinInterleaves(lines: seq<Text>)
    requires lines != []
    ensures Join(lines, LF) == Interleaved(lines, LineFeeds(|lines| - 1))
    decreases |lines|
  {
    if |lines| > 1 {
      JoinInterleaves(lines[1..]);
      assert LineFeeds(|lines| - 1)[1..] == LineFeeds(|lines| - 2);
    }
  }

  /** The text in lines, those kept, and where the segments start: together they fix the candidates. */
  ghost predicate Extracted(text: Text, classify: Classifier, space: Spaces, candidates: seq<Candidate>) {
    exists raw: seq<Text>, kept: seq<Text> ::
      AreLines(text, raw) && AreKept(raw, kept, space) && AreExtracted(kept, classify, space, candidates)
  }

  ghost predicate AreExtracted(kept: seq<Text>, classify: Classifier, space: Spaces, candidates: seq<Candidate>) {
    exists starts: seq<nat>, segments: seq<Segment> ::
      AreSegments(segments, starts, kept, classify, space) && AreCandidates(candidates, segments)
  }

  lemma CandidatesMean(segments: seq<Segment>)
    requires forall i :: 0 <= i < |segments| ==> segments[i].lines != []
    ensures AreCandidates(Candidates(segments), segments)
  {
    forall i | 0 <= i < |segments|
      ensures IsCandidateOf(Candidates(segments)[i], segments[i], i + 1)
    {
      JoinInterleaves(segments[i].lines);
    }
  }

  lemma ExtractedFromKept(kept: seq<Text>, classify: Classifier, space: Spaces)
    ensures AreExtracted(kept, classify, space, Candidates(Segments(kept, classify, space)))
  {
    var segments := Segments(kept, classify, space);
    var starts := SegmentsMean(kept, classify, space);
    forall i | 0 <= i < |segments|
      ensures segments[i].lines != []
    {
      assert IsSegmentOf(segments[i], Part(kept, starts, i), classify, space);
    }
    CandidatesMean(segments);
  }

  /** What is extracted from a text: one candidate for each of its segments. */
  lemma ExtractionMeans(text: Text, classify: Classifier, space: Spaces, raw: seq<Text>, kept: seq<Text>)
    requires raw == SplitLines(text) && kept == Kept(raw, space)
    ensures Extracted(text, classify, space, Candidates(Segments(kept, classify, space)))
  {
    var breaks := LinesMean(text);
    var at := KeptMean(raw, space);
    ExtractedFromKept(kept, classify, space);
    assert AreLines(text, raw) && AreKept(raw, kept, space);
  }

  /** A line as the program matches it: trimmed, and without a line feed. */
  predicate GoodLine(line: Text, space: Spaces) {
    Trimmed(line, space) && LF !in line
  }

  /** On such lines the headings that are captured are not blank and hold no line feed. */
  ghost predicate Headed(classify: Classifier, space: Spaces) {
    forall line :: GoodLine(line, space) && classify(line).Some? ==>
      Trim(classify(line).value.heading, space) != [] && LF !in classify(line).value.heading
  }

  /** What the last group of the expression captures is the rest of the line, and not empty. */
  ghost predicate CapturesTheRest(classify: Classifier) {
    forall line :: classify(line).Some? ==> EndsWith(line, classify(line).value.heading)
  }

  predicate EndsWith(line: Text, heading: Text) {
    heading != [] && |heading| <= |line| && line[|line| - |heading|..] == heading
  }

  lemma {:induction false} TrimKeepsTheLast(s: Text, space: Spaces)
    requires s != [] && !space(s[|s| - 1])
    ensures Trim(s, space) != []
    decreases |s|
  {
    if space(s[0]) {
      TrimKeepsTheLast(s[1..], space);
    }
  }

  lemma RestIsHeading(line: Text, heading: Text, space: Spaces)
    requires GoodLine(line, space) && EndsWith(line, heading)
    ensures Trim(heading, space) != [] && LF !in heading
  {
    var rest := line[|line| - |heading|..];
    assert rest[|rest| - 1] == line[|line| - 1];
    TrimKeepsTheLast(rest, space);
  }

  /** That makes it a heading: it ends where the line ends, and so not in white space. */
  lemma CapturesHeadings(classify: Classifier, space: Spaces)
    requires CapturesTheRest(classify)
    ensures Headed(classify, space)
  {
    forall line | GoodLine(line, space) && classify(line).Some?
      ensures Trim(classify(line).value.heading, space) != [] && LF !in classify(line).value.heading
    {
      RestIsHeading(line, classify(line).value.heading, space);
    }
  }

  predicate GoodBuffer(b: Buffer, space: Spaces) {
    BufferLines(b) != [] && forall i :: 0 <= i < |BufferLines(b)| ==> GoodLine(BufferLines(b)[i], space)
  }

  lemma {:induction false} JoinIsTrimmed(lines: seq<Text>, space: Spaces)
    requires lines != [] && forall i :: 0 <= i < |lines| ==> GoodLine(lines[i], space)
    ensures Trimmed(Join(lines, LF), space)
    decreases |lines|
  {
    assert GoodLine(lines[0], space);
    if |lines| > 1 {
      JoinIsTrimmed(lines[1..], space);
    }
  }

  /** The buffer as a segment. */
  function SegmentOf(b: Buffer): Segment {
    Segment(b.number, b.heading, BufferLines(b))
  }

  /** Empties the buffer, if there is one, into a new candidate; blank text would be dropped. */
  method Flush(buffer: Option<Buffer>, candidates0: seq<Candidate>, space: Spaces) returns (candidates: seq<Candidate>)
    requires buffer.Some? ==> GoodBuffer(buffer.value, space)
    ensures candidates == if buffer.None? then candidates0
      else candidates0 + [CandidateOf(SegmentOf(buffer.value), |candidates0| + 1)]
  {
    if buffer.None? {
      return candidates0;
    }
    var b := buffer.value;
    var joined := Join(BufferLines(b), LF);
    JoinIsTrimmed(BufferLines(b), space);
    TrimTrims(joined, space);
    var sourceText := Trim(joined, space);
    if sourceText == [] {
      return candidates0;
    }
    return candidates0 + [Candidate(b.number, b.heading, sourceText, |candidates0| + 1)];
  }

  /** Candidates and buffer together stand for the segments so far. */
  ghost predicate StandsFor(candidates: seq<Candidate>, buffer: Option<Buffer>, segments: seq<Segment>) {
    if buffer.None? then candidates == [] && segments == []
    else
      && |segments| == |candidates| + 1
      && candidates == Candidates(segments[..|candidates|]) && segments[|candidates|] == SegmentOf(buffer.value)
  }

  lemma FlushedStandsFor(candidates: seq<Candidate>, buffer: Option<Buffer>, segments: seq<Segment>)
    requires StandsFor(candidates, buffer, segments)
    ensures Candidates(segments) ==
      if buffer.None? then candidates else candidates + [CandidateOf(SegmentOf(buffer.value), |candidates| + 1)]
  {
  }

  lemma OpenedStandsFor(candidates: seq<Candidate>, segments: seq<Segment>, b: Buffer)
    requires candidates == Candidates(segments)
    ensures StandsFor(candidates, Some(b), segments + [SegmentOf(b)])
  {
    assert (segments + [SegmentOf(b)])[..|candidates|] == segments;
  }

  lemma GrownStandsFor(candidates: seq<Candidate>, b: Buffer, grown: Buffer, segments: seq<Segment>, line: Text)
    requires StandsFor(candidates, Some(b), segments) && grown == b.(body := b.body + [line])
    ensures var last := segments[|segments| - 1];
      StandsFor(candidates, Some(grown), segments[..|segments| - 1] + [last.(lines := last.lines + [line])])
  {
    var last := segments[|segments| - 1];
    var after := segments[..|segments| - 1] + [last.(lines := last.lines + [line])];
    assert BufferLines(grown) == BufferLines(b) + [line];
    assert after[..|candidates|] == segments[..|candidates|];
  }

  lemma NextLine(raw: seq<Text>, i: nat, classify: Classifier, space: Spaces)
    requires i < |raw|
    ensures var kept, line := Kept(raw[..i], space), Trim(raw[i], space);
      Segments(Kept(raw[..i + 1], space), classify, space) ==
        if line == [] then Segments(kept, classify, space)
        else Extend(Segments(kept, classify, space), line, classify, space)
  {
    assert raw[..i + 1][..i] == raw[..i];
    var kept, line := Kept(raw[..i], space), Trim(raw[i], space);
    if line == [] {
      assert Kept(raw[..i + 1], space) == kept;
    } else {
      assert Kept(raw[..i + 1], space) == kept + [line];
      assert (kept + [line])[..|kept|] == kept;
    }
  }

  /** A line that is not blank: the body of the loop. */
  method AddLine(candidates0: seq<Candidate>, buffer0: Option<Buffer>, line: Text, classify: Classifier, space: Spaces,
                 ghost segments: seq<Segment>)
    returns (candidates: seq<Candidate>, buffer: Option<Buffer>)
    requires space(LF) && Headed(classify, space) && GoodLine(line, space)
    requires StandsFor(candidates0, buffer0, segments) && (buffer0.Some? ==> GoodBuffer(buffer0.value, space))
    ensures buffer.Some? && GoodBuffer(buffer.value, space)
    ensures StandsFor(candidates, buffer, Extend(segments, line, classify, space))
  {
    var m := classify(line);
    if m.Some? {
      var heading := Trim(m.value.heading, space);
      TrimTrims(m.value.heading, space);
      FlushedStandsFor(candidates0, buffer0, segments);
      candidates := Flush(buffer0, candidates0, space);
      var opening := Buffer(Some(m.value.number), if heading == [] then None else Some(heading), []);
      OpenedStandsFor(candidates, segments, opening);
      return candidates, Some(opening);
    }
    if buffer0.None? {
      return candidates0, Some(Buffer(None, None, [line]));
    }
    var grown := buffer0.value.(body := buffer0.value.body + [line]);
    BodyGrows(buffer0.value, line, space);
    GrownStandsFor(candidates0, buffer0.value, grown, segments, line);
    return candidates0, Some(grown);
  }

  method Extract(text: Text, classify: Classifier, space: Spaces) returns (candidates: seq<Candidate>)
    requires space(LF) && Headed(classify, space)
    ensures candidates == Candidates(Segments(Kept(SplitLines(text), space), classify, space))
    ensures Extracted(text, classify, space, candidates)
  {
    var raw := SplitLines(text);
    ExtractionMeans(text, classify, space, raw, Kept(raw, space));
    LinesHaveNoBreaks(text);
    candidates := [];
    var buffer: Option<Buffer> := None;
    for i := 0 to |raw|
      invariant buffer.Some? ==> GoodBuffer(buffer.value, space)
      invariant StandsFor(candidates, buffer, Segments(Kept(raw[..i], space), classify, space))
    {
      NextLine(raw, i, classify, space);
      var line := Trim(raw[i], space);
      TrimTrims(raw[i], space);
      if line != [] {
        candidates, buffer := AddLine(candidates, buffer, line, classify, space,
                                      Segments(Kept(raw[..i], space), classify, space));
      }
    }
    assert raw[..|raw|] == raw;
    FlushedStandsFor(candidates, buffer, Segments(Kept(raw, space), classify, space));
    candidates := Flush(buffer, candidates, space);
  }

  lemma BodyGrows(b: Buffer, line: Text, space: Spaces)
    requires GoodBuffer(b, space) && GoodLine(line, space)
    ensures GoodBuffer(b.(body := b.body + [line]), space)
  {
    var after := BufferLines(b.(body := b.body + [line]));
    assert after == BufferLines(b) + [line];
    forall i | 0 <= i < |after|
      ensures GoodLine(after[i], space)
    {
      assert i < |BufferLines(b)| ==> GoodLine(BufferLines(b)[i], space);
    }
  }

  // ---------------------------------------------------------------------------------------
  // Nothing is lost
  // ---------------------------------------------------------------------------------------

  /** What a line shows in its segment: the heading of a clause line, else the line itself. */
  function Shown(line: Text, classify: Classifier, space: Spaces): Text {
    match classify(line)
    case Some(m) => HeadingOf(m, space)
    case None => line
  }

  function ShownLines(lines: seq<Text>, classify: Classifier, space: Spaces): seq<Text>
    decreases |lines|
  {
    if lines == [] then []
    else ShownLines(lines[..|lines| - 1], classify, space) + [Shown(lines[|lines| - 1], classify, space)]
  }

  /** All source texts, split into lines again, one after the other. */
  function SourceLines(candidates: seq<Candidate>): seq<Text>
    decreases |candidates|
  {
    if candidates == [] then []
    else SourceLines(candidates[..|candidates| - 1]) + Split(candidates[|candidates| - 1].sourceText, LF)
  }

  function SegmentLines(segments: seq<Segment>): seq<Text>
    decreases |segments|
  {
    if segments == [] then [] else SegmentLines(segments[..|segments| - 1]) + segments[|segments| - 1].lines
  }

  /** Every segment has lines, and none holds a line feed. */
  predicate GoodSegment(s: Segment) {
    s.lines != [] && forall i :: 0 <= i < |s.lines| ==> LF !in s.lines[i]
  }

  ghost predicate GoodSegments(segments: seq<Segment>) {
    forall i :: 0 <= i < |segments| ==> GoodSegment(segments[i])
  }

  lemma ExtendShows(segments: seq<Segment>, line: Text, classify: Classifier, space: Spaces)
    requires GoodSegments(segments) && GoodLine(line, space) && Headed(classify, space)
    ensures GoodSegments(Extend(segments, line, classify, space))
    ensures SegmentLines(Extend(segments, line, classify, space))
      == SegmentLines(segments) + [Shown(line, classify, space)]
  {
    var after := Extend(segments, line, classify, space);
    if classify(line).Some? || segments == [] {
      assert after[..|after| - 1] == segments;
    } else {
      var n := |segments| - 1;
      assert GoodSegment(segments[n]);
      assert after[..n] == segments[..n];
    }
  }

  lemma {:induction false} SegmentsShowLines(lines: seq<Text>, classify: Classifier, space: Spaces)
    requires Headed(classify, space) && forall i :: 0 <= i < |lines| ==> GoodLine(lines[i], space)
    ensures GoodSegments(Segments(lines, classify, space))
    ensures SegmentLines(Segments(lines, classify, space)) == ShownLines(lines, classify, space)
    decreases |lines|
  {
    if lines != [] {
      var front := lines[..|lines| - 1];
      SegmentsShowLines(front, classify, space);
      ExtendShows(Segments(front, classify, space), lines[|lines| - 1], classify, space);
    }
  }

  lemma {:induction false} CandidatesKeepLines(segments: seq<Segment>)
    requires GoodSegments(segments)
    ensures SourceLines(Candidates(segments)) == SegmentLines(segments)
    decreases |segments|
  {
    if segments != [] {
      var n := |segments| - 1;
      CandidatesKeepLines(segments[..n]);
      assert Candidates(segments)[..n] == Candidates(segments[..n]);
      assert GoodSegment(segments[n]);
      JoinSplit(segments[n].lines, LF);
    }
  }

  lemma {:induction false} KeptAreGood(raw: seq<Text>, space: Spaces)
    requires forall i :: 0 <= i < |raw| ==> LF !in raw[i]
    ensures forall i :: 0 <= i < |Kept(raw, space)| ==> GoodLine(Kept(raw, space)[i], space)
    decreases |raw|
  {
    if raw != [] {
      KeptAreGood(raw[..|raw| - 1], space);
      TrimTrims(raw[|raw| - 1], space);
    }
  }

  function ClauseLines(lines: seq<Text>, classify: Classifier): nat
    decreases |lines|
  {
    if lines == [] then 0
    else ClauseLines(lines[..|lines| - 1], classify) + if classify(lines[|lines| - 1]).Some? then 1 else 0
  }

  /** One segment for each clause line, and one for text before the first of them. */
  lemma {:induction false} SegmentCount(lines: seq<Text>, classify: Classifier, space: Spaces)
    ensures |Segments(lines, classify, space)|
      == ClauseLines(lines, classify) + if lines != [] && classify(lines[0]).None? then 1 else 0
    decreases |lines|
  {
    if lines != [] {
      SegmentCount(lines[..|lines| - 1], classify, space);
    }
  }

  /**
   The candidates partition the text: their source texts, split into lines, are the kept lines in
   order, each once, with the heading in place of a clause line.
   */
  lemma NothingIsLost(text: Text, classify: Classifier, space: Spaces, kept: seq<Text>, segments: seq<Segment>)
    requires Headed(classify, space)
    requires kept == Kept(SplitLines(text), space) && segments == Segments(kept, classify, space)
    ensures SourceLines(Candidates(segments)) == ShownLines(kept, classify, space)
  {
    KeptOfText(text, space, kept);
    LinesAreKept(kept, classify, space, segments);
  }

  /** They are numbered 1 to n; n is the number of clause lines, plus one if the text does not start with one. */
  lemma CandidateNumbers(kept: seq<Text>, classify: Classifier, space: Spaces, candidates: seq<Candidate>)
    requires candidates == Candidates(Segments(kept, classify, space))
    ensures |candidates| == ClauseLines(kept, classify) + if kept != [] && classify(kept[0]).None? then 1 else 0
    ensures forall i :: 0 <= i < |candidates| ==> candidates[i].sequence == i + 1
  {
    SegmentCount(kept, classify, space);
  }

  lemma KeptOfText(text: Text, space: Spaces, kept: seq<Text>)
    requires kept == Kept(SplitLines(text), space)
    ensures forall i :: 0 <= i < |kept| ==> GoodLine(kept[i], space)
  {
    LinesHaveNoBreaks(text);
    KeptAreGood(SplitLines(text), space);
  }

  lemma LinesAreKept(lines: seq<Text>, classify: Classifier, space: Spaces, segments: seq<Segment>)
    requires Headed(classify, space) && segments == Segments(lines, classify, space)
    requires forall i :: 0 <= i < |lines| ==> GoodLine(lines[i], space)
    ensures SourceLines(Candidates(segments)) == ShownLines(lines, classify, space)
  {
    SegmentsShowLines(lines, classify, space);
    CandidatesKeepLines(segments);
  }

  /** Only the first candidate can be without a number, and a numbered one starts with its heading. */
  lemma {:induction false} OnlyTheFirstIsUnnumbered(lines: seq<Text>, classify: Classifier, space: Spaces, i: nat)
    requires i < |Segments(lines, classify, space)|
    ensures var s := Segments(lines, classify, space)[i];
      && (s.number.None? <==> s.heading.None?) && (s.number.None? ==> i == 0)
      && (s.heading.Some? ==> s.lines != [] && s.lines[0] == s.heading.value)
    decreases |lines|
  {
    var front := lines[..|lines| - 1];
    if i < |Segments(front, classify, space)| {
      OnlyTheFirstIsUnnumbered(front, classify, space, i);
    }
  }
}
