/**
 `buildSimplePdf` of packages/notice-drafting/src/export.ts: one page of text, forty lines of at
 most ninety characters; and a reader that goes from the end of the file to the text shown.
 */
module SimplePdf {
  import opened Results
  import opened Folds
  import opened Texts
  import opened Escapers
  import opened PdfSyntax
  import opened PdfFile

  function TextBegin(): Text { Literal("BT /F1 11 Tf 50 ") }
  function TextMove(): Text { Literal(" Td (") }
  function TextShow(): Text { Literal(" Tj ET") }

  lemma OperatorLengths()
    ensures |TextBegin()| == 16 && |TextMove()| == 5 && TextMove()[0] == 0x20 && |TextShow()| == 6
    ensures Ascii(TextBegin()) && Ascii(TextMove()) && Ascii(TextShow())
    ensures TextBegin() == BeginText() && TextMove() == MoveText() && TextShow() == ShowText()
  {
  }

  // ---------------------------------------------------------------------------------------
  // The content stream
  // ---------------------------------------------------------------------------------------

  function Command(y: nat, line: Text): Text {
    TextBegin() + Decimal(y) + TextMove() + (Safe(line) + [CLOSE] + TextShow())
  }

  /** A text object as a reader sees it: its height on the page and its text. */
  datatype Shown = Shown(y: nat, text: Text)

  /** The text object at the start of `s`, and its length. */
  function ReadCommand(s: Text): Option<(Shown, nat)> {
    if !At(s, 0, BeginText()) || |s| < 16 then None else ReadMove(s, DigitsEnd(s, 16))
  }

  /** Its rest, when the height ends at `end`. */
  function ReadMove(s: Text, end: nat): Option<(Shown, nat)>
    requires 16 <= end <= |s| && AllDigits(s[16..end])
  {
    if !At(s, end, MoveText()) || end + 5 > |s| then None
    else ReadShow(s, Value(s[16..end]), end + 5, ReadLiteral(s[end + 5..], 0))
  }

  function ReadShow(s: Text, y: nat, at: nat, literal: Option<Read>): Option<(Shown, nat)> {
    match literal
    case None => None
    case Some(r) => if At(s, at + r.size, ShowText()) then Some((Shown(y, r.text), at + r.size + 6)) else None
  }

  /** Text objects, one a line, each taken by the given reader. */
  function ReadContent(read: Text -> Option<(Shown, nat)>, s: Text): Option<seq<Shown>>
    decreases |s|
  {
    match read(s)
    case None => None
    case Some((shown, size)) =>
      if size == |s| then Some([shown])
      else if size > |s| || s[size] != 0x0A then None
      else
        match ReadContent(read, s[size + 1..])
        case None => None
        case Some(rest) => Some([shown] + rest)
  }

  function Display(y: nat, line: Text): Shown {
    Shown(y, NormalizeEol(Sanitized(line)))
  }

  lemma CommandParts(s: Text, y: nat, line: Text, rest: Text, end: nat)
    requires s == Command(y, line) + rest && end == 16 + |Decimal(y)|
    ensures At(s, 0, TextBegin()) && At(s, 16, Decimal(y)) && At(s, end, TextMove())
    ensures end + 5 <= |s| && s[end + 5..] == Safe(line) + [CLOSE] + (TextShow() + rest)
    ensures At(s, end + 5 + |Safe(line)| + 1, TextShow()) && |Command(y, line)| == end + 5 + |Safe(line)| + 7
  {
    OperatorLengths();
  }

  lemma CommandReads(y: nat, line: Text, rest: Text)
    ensures ReadCommand(Command(y, line) + rest) == Some((Display(y, line), |Command(y, line)|))
  {
    OperatorLengths();
    var s, end := Command(y, line) + rest, 16 + |Decimal(y)|;
    CommandParts(s, y, line, rest, end);
    AtUnit(s, end, TextMove());
    RunForward(s, 16, end);
    DecimalValue(y);
    SafeReadsBack(line, TextShow() + rest);
    assert s[16..end] == Decimal(y);
    assert ReadMove(s, end) == ReadShow(s, y, end + 5, ReadLiteral(s[end + 5..], 0));
  }

  function CutTo90(line: Text): Text {
    if |line| <= 90 then line else line[..90]
  }

  /** Line `i` stands 14 units below line `i - 1`; forty lines fit on the page. */
  function Height(i: nat): (y: nat)
    requires i < 40
    ensures y < 1000
  {
    750 - 14 * i
  }

  /** The commands of the lines from `i` on. */
  function Commands(lines: seq<Text>, i: nat): (cs: seq<Text>)
    requires i <= |lines| <= 40
    ensures |cs| == |lines| - i
    decreases |lines| - i
  {
    if i == |lines| then [] else [Command(Height(i), CutTo90(lines[i]))] + Commands(lines, i + 1)
  }

  function Displays(lines: seq<Text>, i: nat): (ds: seq<Shown>)
    requires i <= |lines| <= 40
    ensures |ds| == |lines| - i
    decreases |lines| - i
  {
    if i == |lines| then [] else [Display(Height(i), CutTo90(lines[i]))] + Displays(lines, i + 1)
  }

  /** The reader takes every command of the writer. */
  ghost predicate ReadsCommands(read: Text -> Option<(Shown, nat)>) {
    forall y, line, rest :: read(Command(y, line) + rest) == Some((Display(y, line), |Command(y, line)|))
  }

  lemma {:induction false} DisplaysAt(lines: seq<Text>, i: nat, k: nat)
    requires i + k < |lines| <= 40
    ensures Displays(lines, i)[k] == Display(Height(i + k), CutTo90(lines[i + k]))
    decreases k
  {
    if k > 0 {
      DisplaysAt(lines, i + 1, k - 1);
    }
  }

  lemma LastCommand(read: Text -> Option<(Shown, nat)>, s: Text, shown: Shown)
    requires read(s) == Some((shown, |s|))
    ensures ReadContent(read, s) == Some([shown])
  {
  }

  lemma NextCommand(read: Text -> Option<(Shown, nat)>, s: Text, command: Text, shown: Shown, later: Text,
                    rest: seq<Shown>)
    requires read(s) == Some((shown, |command|)) && s == command + ([LF] + later)
    requires ReadContent(read, later) == Some(rest)
    ensures ReadContent(read, s) == Some([shown] + rest)
  {
    assert s[|command| + 1..] == later && s[|command|] == LF;
  }

  lemma OneCommand(read: Text -> Option<(Shown, nat)>, y: nat, line: Text, rest: Text)
    requires ReadsCommands(read)
    ensures read(Command(y, line) + rest) == Some((Display(y, line), |Command(y, line)|))
  {
  }

  lemma LastLineReads(read: Text -> Option<(Shown, nat)>, lines: seq<Text>, i: nat, s: Text)
    requires ReadsCommands(read)
    requires i < |lines| <= 40 && i + 1 == |lines| && s == Join(Commands(lines, i), LF)
    ensures ReadContent(read, s) == Some(Displays(lines, i))
  {
    var y, line := Height(i), CutTo90(lines[i]);
    OneCommand(read, y, line, []);
    assert Command(y, line) + [] == Command(y, line) == s;
    LastCommand(read, s, Display(y, line));
    assert Displays(lines, i + 1) == [] && Displays(lines, i) == [Display(y, line)];
  }

  lemma {:induction false} ContentReads(read: Text -> Option<(Shown, nat)>, lines: seq<Text>, i: nat, s: Text)
    requires ReadsCommands(read)
    requires i < |lines| <= 40 && s == Join(Commands(lines, i), LF)
    ensures ReadContent(read, s) == Some(Displays(lines, i))
    decreases |lines| - i
  {
    if i + 1 == |lines| {
      LastLineReads(read, lines, i, s);
    } else {
      var y, line := Height(i), CutTo90(lines[i]);
      var command, shown := Command(y, line), Display(y, line);
      var commands, later := Commands(lines, i + 1), Join(Commands(lines, i + 1), LF);
      JoinMore(command, commands);
      OneCommand(read, y, line, [LF] + later);
      ContentReads(read, lines, i + 1, later);
      NextCommand(read, s, command, shown, later, Displays(lines, i + 1));
    }
  }

  lemma JoinMore(command: Text, commands: seq<Text>)
    requires commands != []
    ensures Join([command] + commands, LF) == command + ([LF] + Join(commands, LF))
  {
    assert ([command] + commands)[1..] == commands;
  }

  lemma StandardReads()
    ensures ReadsCommands(ReadCommand)
  {
    forall y, line, rest
      ensures ReadCommand(Command(y, line) + rest) == Some((Display(y, line), |Command(y, line)|))
    {
      CommandReads(y, line, rest);
    }
  }

  // ---------------------------------------------------------------------------------------
  // Sizes
  // ---------------------------------------------------------------------------------------

  lemma {:induction false} EscapedSize(s: Text)
    ensures |Flatten(Escaped, s)| <= 2 * |s| && Ascii(Flatten(Escaped, s))
    decreases |s|
  {
    if s != [] {
      EscapedSize(s[1..]);
      assert Ascii(Escaped(s[0]));
    }
  }

  lemma CommandSize(y: nat, line: Text)
    requires y < 1000
    ensures |Command(y, CutTo90(line))| <= 211 && Ascii(Command(y, CutTo90(line)))
  {
    OperatorLengths();
    SafeIsOnePass(CutTo90(line));
    EscapedSize(CutTo90(line));
    assert Power10(3) == 1000 by { assert Power10(1) == 10; assert Power10(2) == 100; }
    DecimalLength(y, 3);
  }

  lemma {:induction false} ContentSize(lines: seq<Text>, i: nat)
    requires i <= |lines| <= 40
    ensures |Join(Commands(lines, i), LF)| <= 212 * (|lines| - i) && Ascii(Join(Commands(lines, i), LF))
    decreases |lines| - i
  {
    if i < |lines| {
      CommandSize(Height(i), lines[i]);
      ContentSize(lines, i + 1);
      assert Commands(lines, i)[1..] == Commands(lines, i + 1);
    }
  }

  // ---------------------------------------------------------------------------------------
  // The stream object
  // ---------------------------------------------------------------------------------------

  function LengthMark(): Text { Literal("<< /Length ") }
  function StreamMark(): Text { Literal(" >>stream\n") }
  function StreamEnd(): Text { Literal("\nendstream") }

  lemma StreamLengths()
    ensures |LengthMark()| == 11 && |StreamMark()| == 10 && StreamMark()[0] == 0x20 && |StreamEnd()| == 10
    ensures Ascii(LengthMark()) && Ascii(StreamMark()) && Ascii(StreamEnd())
    ensures LengthMark() == LengthKey() && StreamMark() == StreamWord() && StreamEnd() == EndStreamWord()
  {
  }

  function StreamHead(length: nat): Text {
    LengthMark() + Decimal(length) + StreamMark()
  }

  function StreamObject(stream: Text): Text {
    Literal("4 0 obj") + (StreamHead(|Utf8(stream)|) + stream + StreamEnd() + Literal("\nendobj\n"))
  }

  /** The stream of the object whose dictionary starts at `at`, by its `/Length` (ISO 32000-1 section 7.3.8). */
  function ReadStream(s: Text, at: nat): Option<Text> {
    if !At(s, at, LengthKey()) || at + 11 > |s| then None
    else
      var end := DigitsEnd(s, at + 11);
      var start, finish := end + 10, end + 10 + Value(s[at + 11..end]);
      if !At(s, end, StreamWord()) || finish > |s| || !At(s, finish, EndStreamWord()) then None
      else Some(s[start..finish])
  }

  lemma StreamParts(s: Text, at: nat, head: Text, stream: Text, rest: Text, start: nat, finish: nat)
    requires At(s, at, head + stream + StreamEnd() + rest) && start == at + |head| && finish == start + |stream|
    ensures At(s, at, head) && At(s, start, stream) && At(s, finish, StreamEnd())
  {
    AtSplit(s, at, head + stream + StreamEnd(), rest, finish + |StreamEnd()|);
    AtSplit(s, at, head + stream, StreamEnd(), finish);
    AtSplit(s, at, head, stream, start);
  }

  lemma StreamHeadReads(s: Text, at: nat, n: nat, end: nat)
    requires At(s, at, StreamHead(n)) && end == at + 11 + |Decimal(n)|
    ensures At(s, at, LengthMark()) && At(s, end, StreamMark())
    ensures at + 11 <= |s| && DigitsEnd(s, at + 11) == end && Value(s[at + 11..end]) == n
  {
    StreamLengths();
    AtSplit(s, at, LengthMark() + Decimal(n), StreamMark(), end);
    AtSplit(s, at, LengthMark(), Decimal(n), at + 11);
    AtUnit(s, end, StreamMark());
    RunForward(s, at + 11, end);
    DecimalValue(n);
  }

  lemma StreamBetween(s: Text, at: nat, end: nat, start: nat, finish: nat, stream: Text)
    requires At(s, at, LengthKey()) && at + 11 <= |s| && DigitsEnd(s, at + 11) == end
    requires start == end + 10 && finish == start + Value(s[at + 11..end]) && finish == start + |stream|
    requires At(s, end, StreamWord()) && At(s, start, stream) && At(s, finish, EndStreamWord())
    ensures ReadStream(s, at) == Some(stream)
  {
  }

  lemma StreamReads(s: Text, at: nat, stream: Text, rest: Text)
    requires Ascii(stream) && At(s, at, StreamHead(|Utf8(stream)|) + stream + StreamEnd() + rest)
    ensures ReadStream(s, at) == Some(stream)
  {
    StreamLengths();
    Utf8OfAscii(stream);
    var end := at + 11 + |Decimal(|stream|)|;
    var start, finish := end + 10, end + 10 + |stream|;
    StreamParts(s, at, StreamHead(|stream|), stream, rest, start, finish);
    StreamHeadReads(s, at, |stream|, end);
    StreamBetween(s, at, end, start, finish, stream);
  }

  // ---------------------------------------------------------------------------------------
  // The document
  // ---------------------------------------------------------------------------------------

  function Indirect(n: nat): Text {
    Decimal(n) + Literal(" 0 R")
  }

  function Catalog(): Text {
    Literal("1 0 obj") + (Literal("<< /Type /Catalog /Pages ") + Indirect(2) + Literal(" >>endobj\n"))
  }

  function Pages(): Text {
    Literal("2 0 obj") + (Literal("<< /Type /Pages /Kids [") + Indirect(3) + Literal("] /Count 1 >>endobj\n"))
  }

  function Page(): Text {
    Literal("3 0 obj") + (Literal("<< /Type /Page /Parent ") + Indirect(2) + PageContents())
  }

  function PageContents(): Text {
    Literal(" /MediaBox [0 0 612 792] /Contents ") + Indirect(4) + PageFont()
  }

  function PageFont(): Text {
    Literal(" /Resources << /Font << /F1 ") + Indirect(5) + Literal(" >> >> >>endobj\n")
  }

  function Font(): Text {
    Literal("5 0 obj") + Literal("<< /Type /Font /Subtype /Type1 /BaseFont /Helvetica >>endobj\n")
  }

  /** The first forty lines of the title, an empty line and the body. */
  function Lines(title: Text, body: Text): (lines: seq<Text>)
    ensures 0 < |lines| <= 40
  {
    var all := Split(title + [LF, LF] + body, LF);
    if |all| <= 40 then all else all[..40]
  }

  function Content(title: Text, body: Text): Text {
    Join(Commands(Lines(title, body), 0), LF)
  }

  function Objects(stream: Text): (objs: seq<Text>)
    ensures |objs| == 5
  {
    [Catalog(), Pages(), Page(), StreamObject(stream), Font()]
  }

  lemma IndirectSize(n: nat)
    requires n < 10
    ensures |Indirect(n)| == 5 && Ascii(Indirect(n))
  {
    assert Decimal(n) == [ZERO + n];
  }

  lemma TreeObjects()
    ensures Ascii(Catalog()) && Ascii(Pages()) && |Catalog()| <= 200 && |Pages()| <= 200
  {
    IndirectSize(2);
    IndirectSize(3);
  }

  lemma PageObject()
    ensures Ascii(Page()) && |Page()| <= 200
  {
    IndirectSize(2);
    ContentsSize();
  }

  lemma ContentsSize()
    ensures Ascii(PageContents()) && |PageContents()| <= 150
  {
    IndirectSize(4);
    IndirectSize(5);
    assert Ascii(PageFont()) && |PageFont()| <= 60;
  }

  lemma FontObject()
    ensures Ascii(Font()) && |Font()| <= 200
  {
  }

  lemma StreamObjectSize(stream: Text)
    requires Ascii(stream) && |stream| < 10000
    ensures |StreamObject(stream)| <= |stream| + 100 && Ascii(StreamObject(stream))
  {
    StreamLengths();
    Utf8OfAscii(stream);
    assert Power10(4) == 10000 by { assert Power10(1) == 10; assert Power10(2) == 100; assert Power10(3) == 1000; }
    DecimalLength(|stream|, 4);
  }

  lemma MarkLiterals(n: nat)
    requires 1 <= n <= 5
    ensures ObjectMark(n) == if n == 1 then Literal("1 0 obj") else if n == 2 then Literal("2 0 obj")
      else if n == 3 then Literal("3 0 obj") else if n == 4 then Literal("4 0 obj") else Literal("5 0 obj")
  {
    assert Decimal(n) == [ZERO + n];
  }

  lemma ObjectNumbers(stream: Text, n: nat)
    requires 1 <= n <= 5
    ensures ObjectMark(n) <= Objects(stream)[n - 1]
  {
    MarkLiterals(n);
  }

  /** The objects are short as long as the stream is. */
  predicate ShortObjects(objs: seq<Text>) {
    forall i :: 0 <= i < |objs| ==> |objs[i]| <= 10000
  }

  lemma {:induction false} BodySize(objs: seq<Text>)
    requires ShortObjects(objs)
    ensures |Body(objs)| <= 9 + 10000 * |objs|
    decreases |objs|
  {
    MarkLengths();
    if objs != [] {
      BodySize(objs[..|objs| - 1]);
    }
  }

  lemma OffsetsFit(objs: seq<Text>)
    requires |objs| == 5 && ShortObjects(objs)
    ensures forall i :: 0 <= i < |objs| ==> Offset(objs, i) < Power10(10)
  {
    TenDigits();
    forall i | 0 <= i < |objs|
      ensures Offset(objs, i) < Power10(10)
    {
      BodySize(objs[..i]);
    }
  }

  lemma TenDigits()
    ensures Power10(10) >= 100000
  {
    assert Power10(5) == 100000 by {
      assert Power10(1) == 10;
      assert Power10(2) == 100;
      assert Power10(3) == 1000;
      assert Power10(4) == 10000;
    }
    assert Power10(7) == 100 * Power10(5);
    assert Power10(9) == 100 * Power10(7);
  }

  lemma ObjectsShort(stream: Text)
    requires Ascii(stream) && |stream| <= 9000
    ensures ShortObjects(Objects(stream)) && AllAscii(Objects(stream))
  {
    TreeObjects();
    PageObject();
    FontObject();
    StreamObjectSize(stream);
  }

  lemma ContentShort(title: Text, body: Text)
    ensures |Content(title, body)| <= 8480 && Ascii(Content(title, body))
  {
    ContentSize(Lines(title, body), 0);
  }

  // ---------------------------------------------------------------------------------------
  // Main results
  // ---------------------------------------------------------------------------------------

  function Pdf(title: Text, body: Text): Text {
    File(Objects(Content(title, body)))
  }

  /** Every entry of the table has 20 bytes and leads to its own object; `startxref` leads to the table. */
  lemma EveryObjectIsFound(title: Text, body: Text, objs: seq<Text>, n: nat)
    requires 1 <= n <= 5 && objs == Objects(Content(title, body))
    ensures StartXref(File(objs)) == Some(|Body(objs)|)
    ensures |Entry(Offset(objs, n - 1))| == 20
    ensures Locate(File(objs), n) == Some(Offset(objs, n - 1))
    ensures At(File(objs), Offset(objs, n - 1), objs[n - 1])
  {
    ContentShort(title, body);
    ObjectsShort(Content(title, body));
    ObjectNumbers(Content(title, body), n);
    FoundIn(objs, n);
  }

  lemma FoundIn(objs: seq<Text>, n: nat)
    requires 1 <= n <= |objs| == 5 && ShortObjects(objs) && ObjectMark(n) <= objs[n - 1]
    ensures StartXref(File(objs)) == Some(|Body(objs)|)
    ensures |Entry(Offset(objs, n - 1))| == 20
    ensures Locate(File(objs), n) == Some(Offset(objs, n - 1))
    ensures At(File(objs), Offset(objs, n - 1), objs[n - 1])
  {
    OffsetsFit(objs);
    EntryNamesObject(objs, n);
    EntryIsTwentyBytes(Offset(objs, n - 1));
    Located(objs, n);
  }

  /** The place behind the mark of object `n`. */
  function Inside(pdf: Text, n: nat): Option<nat> {
    match Locate(pdf, n)
    case None => None
    case Some(at) => Some(at + |ObjectMark(n)|)
  }

  /** The reference behind `key` at the start of object `n`. */
  function Follow(pdf: Text, n: nat, key: Text): Option<(nat, nat)> {
    match Inside(pdf, n)
    case None => None
    case Some(at) => ReadIndirect(pdf, at, key)
  }

  function ReadRootOf(pdf: Text): Option<nat> {
    match StartXref(pdf)
    case None => None
    case Some(table) => if At(pdf, 0, VersionLine()) then ReadRoot(pdf, table) else None
  }

  /** From the root to the only page of its page tree: the numbers of both. */
  function ReadPageOf(pdf: Text, root: nat): Option<(nat, nat)> {
    match Follow(pdf, root, PagesKey())
    case None => None
    case Some((pages, _)) =>
      match Follow(pdf, pages, KidsKey())
      case None => None
      case Some((page, behind)) => if At(pdf, behind, OneKid()) then Some((pages, page)) else None
  }

  /** The content stream of a page of that tree, on US letter paper, with Helvetica as its font F1. */
  function ReadContentsOf(pdf: Text, pages: nat, page: nat): Option<nat> {
    match Follow(pdf, page, ParentKey())
    case None => None
    case Some((parent, behind)) => if parent != pages then None else ReadContentsAt(pdf, behind)
  }

  function ReadContentsAt(pdf: Text, at: nat): Option<nat> {
    match ReadIndirect(pdf, at, ContentsKey())
    case None => None
    case Some((contents, behind)) =>
      match ReadIndirect(pdf, behind, FontKey())
      case None => None
      case Some((font, _)) => if IsHelvetica(pdf, Inside(pdf, font)) then Some(contents) else None
  }

  predicate IsHelvetica(pdf: Text, inside: Option<nat>) {
    inside.Some? && At(pdf, inside.value, HelveticaFont())
  }

  /** The stream that the trailer leads to: root, page tree, page, contents. */
  function ReadContentsNumber(pdf: Text): Option<nat> {
    match ReadRootOf(pdf)
    case None => None
    case Some(root) =>
      match ReadPageOf(pdf, root)
      case None => None
      case Some((pages, page)) => ReadContentsOf(pdf, pages, page)
  }

  /** What a reader of the page gets from the file alone. */
  function ReadPage(pdf: Text): Option<seq<Shown>> {
    match ReadContentsNumber(pdf)
    case None => None
    case Some(n) => ReadPageAt(pdf, Inside(pdf, n))
  }

  function ReadPageAt(pdf: Text, inside: Option<nat>): Option<seq<Shown>> {
    match inside
    case None => None
    case Some(at) => ReadPageContent(ReadStream(pdf, at))
  }

  function ReadPageContent(stream: Option<Text>): Option<seq<Shown>> {
    match stream
    case None => None
    case Some(content) => ReadContent(ReadCommand, content)
  }

  lemma StreamFound(pdf: Text, at: nat, inside: nat, stream: Text)
    requires Ascii(stream) && At(pdf, at, StreamObject(stream)) && inside == at + 7
    ensures ReadStream(pdf, inside) == Some(stream)
  {
    AtSplit(pdf, at, Literal("4 0 obj"),
      StreamHead(|Utf8(stream)|) + stream + StreamEnd() + Literal("\nendobj\n"), inside);
    StreamReads(pdf, inside, stream, Literal("\nendobj\n"));
  }

  lemma PageFrom(pdf: Text, at: nat, stream: Text)
    requires Ascii(stream) && At(pdf, at, StreamObject(stream))
    ensures ReadPageAt(pdf, Some(at + 7)) == ReadPageContent(Some(stream))
  {
    StreamFound(pdf, at, at + 7, stream);
  }

  lemma ContentReadsBack(lines: seq<Text>)
    requires 0 < |lines| <= 40
    ensures ReadPageContent(Some(Join(Commands(lines, 0), LF))) == Some(Displays(lines, 0))
  {
    StandardReads();
    ContentReads(ReadCommand, lines, 0, Join(Commands(lines, 0), LF));
  }

  /** A key with its reference, somewhere in the file. */
  lemma KeyReads(pdf: Text, at: nat, key: Text, n: nat, rest: Text, next: nat)
    requires n < 10 && At(pdf, at, key + Indirect(n) + rest) && next == at + |key| + 5
    ensures ReadIndirect(pdf, at, key) == Some((n, next)) && At(pdf, next, rest)
  {
    IndirectSize(n);
    AtSplit(pdf, at, key + Indirect(n), rest, next);
    AtSplit(pdf, at, key, Indirect(n), at + |key|);
    AtSplit(pdf, at + |key|, Decimal(n), Literal(" 0 R"), at + |key| + |Decimal(n)|);
    IndirectReads(pdf, at, key, n, at + |key| + |Decimal(n)|);
  }

  /** The reader finds object `n` and goes behind its mark. */
  lemma InsideObject(objs: seq<Text>, n: nat, pdf: Text, mark: Text, rest: Text, inside: nat)
    requires 1 <= n <= |objs| == 5 && ShortObjects(objs) && pdf == File(objs)
    requires ObjectMark(n) == mark && objs[n - 1] == mark + rest && |mark| == 7 && inside == Offset(objs, n - 1) + 7
    ensures Inside(pdf, n) == Some(inside) && At(pdf, inside, rest)
  {
    FoundIn(objs, n);
    AtSplit(pdf, Offset(objs, n - 1), mark, rest, inside);
  }

  lemma RootReads(objs: seq<Text>, pdf: Text)
    requires |objs| == 5 && ShortObjects(objs) && pdf == File(objs)
    ensures ReadRootOf(pdf) == Some(1)
  {
    OffsetsFit(objs);
    var table := |Body(objs)|;
    RootIsFirst(objs, table, 6, table + |TableHead(6)|);
  }

  lemma PagesRead(objs: seq<Text>, pdf: Text) returns (next: nat)
    requires |objs| == 5 && objs[0] == Catalog() && ShortObjects(objs) && pdf == File(objs)
    ensures Follow(pdf, 1, PagesKey()) == Some((2, next))
  {
    MarkLiterals(1);
    var at := Offset(objs, 0) + 7;
    next := at + |PagesKey()| + 5;
    InsideObject(objs, 1, pdf, Literal("1 0 obj"), PagesKey() + Indirect(2) + Literal(" >>endobj\n"), at);
    KeyReads(pdf, at, PagesKey(), 2, Literal(" >>endobj\n"), next);
  }

  lemma KidsRead(objs: seq<Text>, pdf: Text) returns (next: nat)
    requires |objs| == 5 && objs[1] == Pages() && ShortObjects(objs) && pdf == File(objs)
    ensures Follow(pdf, 2, KidsKey()) == Some((3, next)) && At(pdf, next, OneKid())
  {
    MarkLiterals(2);
    var at := Offset(objs, 1) + 7;
    next := at + |KidsKey()| + 5;
    InsideObject(objs, 2, pdf, Literal("2 0 obj"), KidsKey() + Indirect(3) + OneKid(), at);
    KeyReads(pdf, at, KidsKey(), 3, OneKid(), next);
  }

  lemma ParentReads(objs: seq<Text>, pdf: Text) returns (next: nat)
    requires |objs| == 5 && objs[2] == Page() && ShortObjects(objs) && pdf == File(objs)
    ensures Follow(pdf, 3, ParentKey()) == Some((2, next)) && At(pdf, next, PageContents())
  {
    MarkLiterals(3);
    var at := Offset(objs, 2) + 7;
    next := at + |ParentKey()| + 5;
    InsideObject(objs, 3, pdf, Literal("3 0 obj"), ParentKey() + Indirect(2) + PageContents(), at);
    KeyReads(pdf, at, ParentKey(), 2, PageContents(), next);
  }

  lemma FontReads(objs: seq<Text>, pdf: Text)
    requires |objs| == 5 && objs[4] == Font() && ShortObjects(objs) && pdf == File(objs)
    ensures IsHelvetica(pdf, Inside(pdf, 5))
  {
    MarkLiterals(5);
    InsideObject(objs, 5, pdf, Literal("5 0 obj"), HelveticaFont(), Offset(objs, 4) + 7);
  }

  lemma ContentsKeyReads(pdf: Text, at: nat) returns (next: nat)
    requires At(pdf, at, PageContents())
    ensures ReadIndirect(pdf, at, ContentsKey()) == Some((4, next)) && At(pdf, next, PageFont())
  {
    next := at + |ContentsKey()| + 5;
    KeyReads(pdf, at, ContentsKey(), 4, PageFont(), next);
  }

  lemma FontKeyReads(pdf: Text, at: nat) returns (next: nat)
    requires At(pdf, at, PageFont())
    ensures ReadIndirect(pdf, at, FontKey()) == Some((5, next))
  {
    next := at + |FontKey()| + 5;
    KeyReads(pdf, at, FontKey(), 5, Literal(" >> >> >>endobj\n"), next);
  }

  lemma ContentsFrom(pdf: Text, at: nat)
    requires At(pdf, at, PageContents()) && IsHelvetica(pdf, Inside(pdf, 5))
    ensures ReadContentsAt(pdf, at) == Some(4)
  {
    var behind := ContentsKeyReads(pdf, at);
    var next := FontKeyReads(pdf, behind);
  }

  /** The trailer leads to the content stream. */
  lemma ContentsFound(objs: seq<Text>, pdf: Text)
    requires |objs| == 5 && objs[0] == Catalog() && objs[1] == Pages() && objs[2] == Page() && objs[4] == Font()
    requires ShortObjects(objs) && pdf == File(objs)
    ensures ReadContentsNumber(pdf) == Some(4)
  {
    RootReads(objs, pdf);
    var a := PagesRead(objs, pdf);
    var b := KidsRead(objs, pdf);
    var c := ParentReads(objs, pdf);
    FontReads(objs, pdf);
    ContentsFrom(pdf, c);
    TreeFrom(pdf, a, b, c);
  }

  lemma TreeFrom(pdf: Text, a: nat, b: nat, c: nat)
    requires ReadRootOf(pdf) == Some(1) && Follow(pdf, 1, PagesKey()) == Some((2, a))
    requires Follow(pdf, 2, KidsKey()) == Some((3, b)) && At(pdf, b, OneKid())
    requires Follow(pdf, 3, ParentKey()) == Some((2, c))
    requires ReadContentsAt(pdf, c) == Some(4)
    ensures ReadContentsNumber(pdf) == Some(4)
  {
  }

  lemma StreamLocated(objs: seq<Text>, pdf: Text, at: nat)
    requires |objs| == 5 && ShortObjects(objs) && pdf == File(objs) && at == Offset(objs, 3)
    requires ObjectMark(4) <= objs[3] && |ObjectMark(4)| == 7
    ensures Inside(pdf, 4) == Some(at + 7) && At(pdf, at, objs[3])
  {
    FoundIn(objs, 4);
  }

  lemma StreamMarked(stream: Text)
    ensures ObjectMark(4) <= StreamObject(stream) && |ObjectMark(4)| == 7
  {
    MarkLiterals(4);
  }

  lemma StreamBehind(stream: Text, objs: seq<Text>, pdf: Text)
    requires |objs| == 5 && objs[3] == StreamObject(stream) && ShortObjects(objs) && pdf == File(objs) && Ascii(stream)
    requires ReadContentsNumber(pdf) == Some(4)
    ensures ReadPage(pdf) == ReadPageContent(Some(stream))
  {
    var at := Offset(objs, 3);
    StreamMarked(stream);
    StreamLocated(objs, pdf, at);
    PageFrom(pdf, at, stream);
    ReadFrom(pdf, at + 7);
  }

  lemma StreamFromFile(stream: Text, objs: seq<Text>, pdf: Text)
    requires objs == Objects(stream) && pdf == File(objs) && Ascii(stream) && |stream| <= 9000
    ensures ReadPage(pdf) == ReadPageContent(Some(stream))
  {
    ObjectsShort(stream);
    ContentsFound(objs, pdf);
    StreamBehind(stream, objs, pdf);
  }

  lemma ReadFrom(pdf: Text, inside: nat)
    requires ReadContentsNumber(pdf) == Some(4) && Inside(pdf, 4) == Some(inside)
    ensures ReadPage(pdf) == ReadPageAt(pdf, Some(inside))
  {
  }

  /**
   From the file a reader gets exactly the first forty lines, each cut to ninety characters and
   sanitized, at the heights the writer gave them.
   */
  lemma PageReadsBack(title: Text, body: Text)
    ensures ReadPage(Pdf(title, body)) == Some(Displays(Lines(title, body), 0))
  {
    ContentShort(title, body);
    StreamFromFile(Content(title, body), Objects(Content(title, body)), Pdf(title, body));
    ContentReadsBack(Lines(title, body));
  }

  // ---------------------------------------------------------------------------------------
  // What is printed, said of the text alone
  // ---------------------------------------------------------------------------------------

  /** A carriage return is shown as a line feed, what is neither printable nor a tab as a question mark. */
  function PrintedUnit(c: Unit): Unit {
    if c == 0x0D || c == 0x0A then 0x0A else if c == 0x09 || 0x20 <= c <= 0x7E then c else 0x3F
  }

  /** The line, or its first ninety units. */
  ghost predicate PrintsLine(text: Text, line: Text) {
    && |text| == (if |line| <= 90 then |line| else 90)
    && forall j :: 0 <= j < |text| ==> text[j] == PrintedUnit(line[j])
  }

  /** The first forty lines, from height 750 down, 14 units apart. */
  ghost predicate PrintsLines(shown: seq<Shown>, lines: seq<Text>) {
    && |shown| == (if |lines| <= 40 then |lines| else 40)
    && forall k :: 0 <= k < |shown| ==> shown[k].y == 750 - 14 * k && PrintsLine(shown[k].text, lines[k])
  }

  /** The lines of a text: joined they give it back, and none holds a line feed. */
  ghost predicate AreLinesOf(lines: seq<Text>, text: Text) {
    && Join(lines, 0x0A) == text && |lines| == multiset(text)[0x0A] + 1
    && forall k :: 0 <= k < |lines| ==> 0x0A !in lines[k]
  }

  lemma {:induction false} SplitCounts(s: Text)
    ensures |Split(s, LF)| == multiset(s)[LF] + 1
    decreases |s|
  {
    if s != [] {
      SplitCounts(s[1..]);
      assert s == [s[0]] + s[1..];
    }
  }

  lemma {:induction false} NormalizedUnits(s: Text)
    requires LF !in s
    ensures |NormalizeEol(s)| == |s|
    ensures forall j :: 0 <= j < |s| ==> NormalizeEol(s)[j] == if s[j] == CR then LF else s[j]
    decreases |s|
  {
    if s != [] {
      NormalizedUnits(s[1..]);
      assert |s| > 1 ==> s[1] in s;
    }
  }

  lemma DisplayPrints(y: nat, line: Text)
    requires LF !in line
    ensures Display(y, CutTo90(line)).y == y && PrintsLine(Display(y, CutTo90(line)).text, line)
  {
    var cut := CutTo90(line);
    assert LF !in Sanitized(cut) by {
      forall j | 0 <= j < |cut|
        ensures Sanitized(cut)[j] != LF
      {
        assert cut[j] == line[j] && line[j] in line;
      }
    }
    NormalizedUnits(Sanitized(cut));
  }

  lemma PagePrints(title: Text, body: Text, text: Text, lines: seq<Text>)
    requires text == title + [LF, LF] + body && lines == Split(text, LF)
    ensures AreLinesOf(lines, text) && PrintsLines(Displays(Lines(title, body), 0), lines)
  {
    SplitJoin(text, LF);
    SplitCounts(text);
    var first := Lines(title, body);
    forall k | 0 <= k < |first|
      ensures Displays(first, 0)[k].y == 750 - 14 * k && PrintsLine(Displays(first, 0)[k].text, lines[k])
    {
      DisplaysAt(first, 0, k);
      DisplayPrints(Height(k), lines[k]);
    }
  }

  method BuildSimplePdf(title: Text, body: Text) returns (bytes: seq<nat>)
    ensures forall i :: 0 <= i < |bytes| ==> bytes[i] < 0x80
    ensures ReadPage(bytes).Some?
    ensures exists lines ::
      AreLinesOf(lines, title + [0x0A, 0x0A] + body) && PrintsLines(ReadPage(bytes).value, lines)
    ensures ReadPage(bytes) == Some(Displays(Lines(title, body), 0))
    ensures forall n :: 1 <= n <= 5 ==> Locate(bytes, n) == Some(Offset(Objects(Content(title, body)), n - 1))
  {
    var stream := Content(title, body);
    var objs := Objects(stream);
    ContentShort(title, body);
    ObjectsShort(stream);
    var pdf := WriteFile(objs);
    FileAscii(objs);
    Utf8OfAscii(pdf);
    bytes := Utf8(pdf);
    PageReadsBack(title, body);
    PagePrints(title, body, title + [LF, LF] + body, Split(title + [LF, LF] + body, LF));
    forall n | 1 <= n <= 5
      ensures Locate(bytes, n) == Some(Offset(objs, n - 1))
    {
      EveryObjectIsFound(title, body, objs, n);
    }
  }

  lemma PaddedAscii(t: Text, width: nat)
    requires AllDigits(t)
    ensures Ascii(PadStart(t, width))
  {
    PaddedValue(t, width);
  }

  lemma {:induction false} EntriesAscii(objs: seq<Text>, n: nat)
    requires n <= |objs|
    ensures Ascii(Entries(objs, n))
    decreases n
  {
    assert Ascii(FreeEntry()) && Ascii(InUse());
    if n > 0 {
      EntriesAscii(objs, n - 1);
      PaddedAscii(Decimal(Offset(objs, n - 1)), 10);
    }
  }

  lemma HeadsAscii(size: nat)
    ensures Ascii(TableHead(size)) && Ascii(TrailerHead(size)) && Ascii(StartMark()) && Ascii(EndMark())
  {
  }

  lemma FileAscii(objs: seq<Text>)
    requires AllAscii(objs)
    ensures Ascii(File(objs))
  {
    BodyAscii(objs);
    HeadsAscii(|objs| + 1);
    EntriesAscii(objs, |objs|);
    var mid := Entries(objs, |objs|);
    assert Ascii(Decimal(|Body(objs)|));
    AsciiJoin([Body(objs), TableHead(|objs| + 1), mid, TrailerHead(|objs| + 1), StartMark(), Decimal(|Body(objs)|),
      EndMark()]);
  }

  lemma AsciiJoin(ts: seq<Text>)
    requires AllAscii(ts) && |ts| == 7
    ensures Ascii(ts[0] + ts[1] + ts[2] + ts[3] + ts[4] + ts[5] + ts[6])
  {
  }
}
