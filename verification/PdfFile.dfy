/**
 The file structure written by `buildSimplePdf` of packages/notice-drafting/src/export.ts: header,
 objects, cross-reference table and trailer, for any list of objects; and a reader written from
 ISO 32000-1 sections 7.5.4 and 7.5.5 that finds an object from the end of the file.
 */
module PdfFile {
  import opened Results
  import opened Texts
  import opened PdfSyntax

  function Header(): Text { Literal("%PDF-1.4\n") }
  function TableMark(): Text { Literal("xref\n0 ") }
  function FreeEntry(): Text { Literal("0000000000 65535 f \n") }
  function InUse(): Text { Literal(" 00000 n \n") }
  function StartMark(): Text { Literal("startxref\n") }
  function EndMark(): Text { Literal("\n%%EOF") }

  lemma MarkLengths()
    ensures |Header()| == 9 && |TableMark()| == 7 && |FreeEntry()| == 20 && |InUse()| == 10
    ensures |StartMark()| == 10 && StartMark()[9] == LF
    ensures |EndMark()| == 6 && EndMark()[0] == LF
    ensures StartMark() == StartXrefWord() && EndMark() == EndOfFile()
    ensures TableMark() == XrefWord() && InUse() == InUseEntry()
    ensures Header() == VersionLine() && FreeEntry() == FirstEntry()
  {
  }

  // ---------------------------------------------------------------------------------------
  // The layout
  // ---------------------------------------------------------------------------------------

  function Concat(objs: seq<Text>): Text
    decreases |objs|
  {
    if objs == [] then [] else Concat(objs[..|objs| - 1]) + objs[|objs| - 1]
  }

  function Body(objs: seq<Text>): Text {
    Header() + Concat(objs)
  }

  /** Where object `i`, counting from 0, starts. */
  function Offset(objs: seq<Text>, i: nat): nat
    requires i <= |objs|
  {
    |Body(objs[..i])|
  }

  function Entry(offset: nat): Text {
    PadStart(Decimal(offset), 10) + InUse()
  }

  /** The free entry and the entries of the first `n` objects. */
  function Entries(objs: seq<Text>, n: nat): Text
    requires n <= |objs|
    decreases n
  {
    if n == 0 then FreeEntry() else Entries(objs, n - 1) + Entry(Offset(objs, n - 1))
  }

  function TableHead(size: nat): Text {
    TableMark() + Decimal(size) + [LF]
  }

  function RootReference(): Text {
    Literal(" /Root ") + Decimal(1) + Literal(" 0 R") + Literal(" >>\n")
  }

  function TrailerHead(size: nat): Text {
    Literal("trailer<< /Size ") + Decimal(size) + RootReference()
  }

  function File(objs: seq<Text>): Text {
    Body(objs) + TableHead(|objs| + 1) + Entries(objs, |objs|) + TrailerHead(|objs| + 1)
    + StartMark() + Decimal(|Body(objs)|) + EndMark()
  }

  // ---------------------------------------------------------------------------------------
  // The writer
  // ---------------------------------------------------------------------------------------

  predicate AllAscii(objs: seq<Text>) {
    forall i :: 0 <= i < |objs| ==> Ascii(objs[i])
  }

  lemma {:induction false} BodyAscii(objs: seq<Text>)
    requires AllAscii(objs)
    ensures Ascii(Body(objs))
    decreases |objs|
  {
    assert Ascii(Header());
    if objs != [] {
      BodyAscii(objs[..|objs| - 1]);
      assert Body(objs) == Body(objs[..|objs| - 1]) + objs[|objs| - 1];
    }
  }

  /** The byte length of a file of ASCII objects is its length. */
  lemma BodyBytes(objs: seq<Text>)
    requires AllAscii(objs)
    ensures |Utf8(Body(objs))| == |Body(objs)|
  {
    BodyAscii(objs);
    Utf8OfAscii(Body(objs));
  }

  lemma BodyNext(objs: seq<Text>, i: nat)
    requires i < |objs|
    ensures Body(objs[..i + 1]) == Body(objs[..i]) + objs[i]
  {
    assert objs[..i + 1][..i] == objs[..i];
  }

  /**
   The loop over the objects.  Positions are byte lengths of what has been written so far, in a
   list whose first element stands for the free entry.
   */
  method WriteObjects(objs: seq<Text>) returns (pdf: Text, offsets: seq<nat>)
    requires AllAscii(objs)
    ensures pdf == Body(objs) && Ascii(pdf)
    ensures |offsets| == |objs| + 1 && forall k :: 1 <= k <= |objs| ==> offsets[k] == Offset(objs, k - 1)
  {
    pdf := Header();
    offsets := [0];
    assert objs[..0] == [];
    for i := 0 to |objs|
      invariant pdf == Body(objs[..i])
      invariant |offsets| == i + 1 && forall k :: 1 <= k <= i ==> offsets[k] == Offset(objs, k - 1)
    {
      BodyBytes(objs[..i]);
      BodyNext(objs, i);
      offsets := offsets + [|Utf8(pdf)|];
      pdf := pdf + objs[i];
    }
    assert objs[..|objs|] == objs;
    BodyAscii(objs);
  }

  /** The loop over the offsets, behind the first. */
  method WriteEntries(objs: seq<Text>, offsets: seq<nat>) returns (entries: Text)
    requires |offsets| == |objs| + 1 && forall k :: 1 <= k <= |objs| ==> offsets[k] == Offset(objs, k - 1)
    ensures entries == Entries(objs, |objs|)
  {
    entries := FreeEntry();
    for i := 1 to |offsets|
      invariant entries == Entries(objs, i - 1)
    {
      entries := entries + (PadStart(Decimal(offsets[i]), 10) + InUse());
    }
  }

  method WriteFile(objs: seq<Text>) returns (pdf: Text)
    requires AllAscii(objs)
    ensures pdf == File(objs)
  {
    var body, offsets := WriteObjects(objs);
    Utf8OfAscii(body);
    var xrefStart := |Utf8(body)|;
    var entries := WriteEntries(objs, offsets);
    pdf := body + TableHead(|objs| + 1) + entries + TrailerHead(|objs| + 1) + StartMark() + Decimal(xrefStart)
      + EndMark();
  }

  // ---------------------------------------------------------------------------------------
  // The reader
  // ---------------------------------------------------------------------------------------

  /** The last lines of the file: `startxref`, the position of the table, end marker. */
  function StartXref(s: Text): Option<nat> {
    if |s| < 6 || !At(s, |s| - 6, EndOfFile()) then None
    else
      var end := |s| - 6;
      var start := DigitsStart(s, end);
      if start == end || start < 10 || !At(s, start - 10, StartXrefWord()) then None else Some(Value(s[start..end]))
  }

  /** How many entries the table at `at` has, and where the first one starts. */
  function ReadTable(s: Text, at: nat): Option<(nat, nat)> {
    if !At(s, at, XrefWord()) || at + 7 > |s| then None
    else
      var end := DigitsEnd(s, at + 7);
      if end == at + 7 || end == |s| || s[end] != 0x0A || !At(s, end + 1, FirstEntry()) then None
      else Some((Value(s[at + 7..end]), end + 1))
  }

  /** The offset in entry `n` of the table at `at`; entries are exactly 20 bytes. */
  function TableEntry(s: Text, at: nat, n: nat): Option<nat> {
    match ReadTable(s, at)
    case None => None
    case Some((size, first)) => if n >= size then None else ReadEntry(s, first + 20 * n)
  }

  function ReadEntry(s: Text, at: nat): Option<nat> {
    if at + 20 > |s| || !AllDigits(s[at..at + 10]) || !At(s, at + 10, InUseEntry()) then None
    else Some(Value(s[at..at + 10]))
  }

  /** What an indirect object starts with. */
  function ObjectMark(n: nat): Text {
    Decimal(n) + ObjWord()
  }

  /** The position of object `n`, found from the end of the file. */
  function Locate(s: Text, n: nat): Option<nat> {
    match StartXref(s)
    case None => None
    case Some(table) =>
      match TableEntry(s, table, n)
      case None => None
      case Some(offset) => if At(s, offset, ObjectMark(n)) then Some(offset) else None
  }

  /** The number of the root object, from the trailer behind the table at `at`. */
  function ReadRoot(s: Text, at: nat): Option<nat> {
    match ReadTable(s, at)
    case None => None
    case Some((size, first)) => ReadTrailer(s, first + 20 * size, size)
  }

  /** The trailer names the size of the table and the root. */
  function ReadTrailer(s: Text, at: nat, size: nat): Option<nat> {
    if !At(s, at, TrailerWord()) || at + 16 > |s| then None
    else
      var end := DigitsEnd(s, at + 16);
      if end == at + 16 || Value(s[at + 16..end]) != size then None
      else
        match ReadIndirect(s, end, RootKey())
        case None => None
        case Some((n, _)) => Some(n)
  }

  // ---------------------------------------------------------------------------------------
  // The reader finds every object
  // ---------------------------------------------------------------------------------------

  lemma StartReads(s: Text, before: Text, x: nat)
    requires s == before + StartMark() + Decimal(x) + EndMark()
    ensures StartXref(s) == Some(x)
  {
    MarkLengths();
    var start := |before| + 10;
    var end := start + |Decimal(x)|;
    PartsAt(s, before, StartMark(), Decimal(x), EndMark());
    assert s[start - 1] == s[|before|..start][9];
    RunBackward(s, start, end);
    DecimalValue(x);
    StartFrom(s, start, end);
  }

  /** A reader that finds the parts takes the number between the marks. */
  lemma StartFrom(s: Text, start: nat, end: nat)
    requires |s| == end + 6 && At(s, end, EndOfFile()) && DigitsStart(s, end) == start
    requires 10 <= start < end && At(s, start - 10, StartXrefWord())
    ensures StartXref(s) == Some(Value(s[start..end]))
  {
  }

  lemma EntryReads(s: Text, at: nat, offset: nat)
    requires offset < Power10(10) && At(s, at, Entry(offset))
    ensures ReadEntry(s, at) == Some(offset)
  {
    MarkLengths();
    DecimalLength(offset, 10);
    var digits := PadStart(Decimal(offset), 10);
    PaddedValue(Decimal(offset), 10);
    DecimalValue(offset);
    AtSplit(s, at, digits, InUse(), at + 10);
  }

  lemma {:induction false} EntriesSize(objs: seq<Text>, n: nat)
    requires n <= |objs| && forall i :: 0 <= i < n ==> Offset(objs, i) < Power10(10)
    ensures |Entries(objs, n)| == 20 * (n + 1)
    decreases n
  {
    MarkLengths();
    if n > 0 {
      EntriesSize(objs, n - 1);
      DecimalLength(Offset(objs, n - 1), 10);
    }
  }

  lemma {:induction false} EntryAt(objs: seq<Text>, n: nat, k: nat)
    requires k < n <= |objs| && forall i :: 0 <= i < n ==> Offset(objs, i) < Power10(10)
    ensures At(Entries(objs, n), 20 * (k + 1), Entry(Offset(objs, k)))
    decreases n
  {
    EntriesSize(objs, n - 1);
    var before, last := Entries(objs, n - 1), Entry(Offset(objs, n - 1));
    AtEnd(before, last, 20 * n);
    if k < n - 1 {
      EntryAt(objs, n - 1, k);
      AtWithin(before + last, 0, before, 20 * (k + 1), Entry(Offset(objs, k)), 20 * (k + 1));
    }
  }

  lemma {:induction false} FreeIsFirst(objs: seq<Text>, n: nat)
    requires n <= |objs|
    ensures At(Entries(objs, n), 0, FreeEntry())
    decreases n
  {
    if n > 0 {
      FreeIsFirst(objs, n - 1);
      AtEnd(Entries(objs, n - 1), Entry(Offset(objs, n - 1)), |Entries(objs, n - 1)|);
      AtWithin(Entries(objs, n), 0, Entries(objs, n - 1), 0, FreeEntry(), 0);
    } else {
      assert FreeEntry()[0..|FreeEntry()|] == FreeEntry();
    }
  }

  lemma HeadReads(s: Text, at: nat, size: nat)
    requires At(s, at, TableHead(size)) && At(s, at + |TableHead(size)|, FreeEntry())
    ensures ReadTable(s, at) == Some((size, at + |TableHead(size)|))
  {
    MarkLengths();
    var end := at + 7 + |Decimal(size)|;
    AtSplit(s, at, TableMark() + Decimal(size), [LF], end);
    AtSplit(s, at, TableMark(), Decimal(size), at + 7);
    AtUnit(s, end, [LF]);
    RunForward(s, at + 7, end);
    DecimalValue(size);
  }

  lemma {:induction false} ObjectAt(objs: seq<Text>, i: nat)
    requires i < |objs|
    ensures At(Body(objs), Offset(objs, i), objs[i])
    decreases |objs|
  {
    var front, last := objs[..|objs| - 1], objs[|objs| - 1];
    assert Body(objs) == Body(front) + last;
    AtEnd(Body(front), last, |Body(front)|);
    if i < |objs| - 1 {
      assert objs[..i] == front[..i];
      ObjectAt(front, i);
      AtWithin(Body(objs), 0, Body(front), Offset(front, i), objs[i], Offset(front, i));
    }
  }

  /** The parts of the file in their places. */
  lemma Parts(objs: seq<Text>, table: nat, first: nat)
    requires table == |Body(objs)| && first == table + |TableHead(|objs| + 1)|
    ensures At(File(objs), 0, Body(objs)) && At(File(objs), table, TableHead(|objs| + 1))
    ensures At(File(objs), first, Entries(objs, |objs|))
    ensures StartXref(File(objs)) == Some(table)
  {
    var body, head, entries := Body(objs), TableHead(|objs| + 1), Entries(objs, |objs|);
    var trailer, number := TrailerHead(|objs| + 1), Decimal(table);
    Grouped(body + head + entries, trailer, StartMark(), number, EndMark());
    PartsAt(File(objs), body, head, entries, trailer + StartMark() + number + EndMark());
    StartReads(File(objs), body + head + entries + trailer, table);
  }

  lemma Grouped(a: Text, b: Text, c: Text, d: Text, e: Text)
    ensures a + b + c + d + e == a + (b + c + d + e)
  {
  }

  lemma PartsAt(s: Text, a: Text, b: Text, c: Text, d: Text)
    requires s == a + b + c + d
    ensures At(s, 0, a) && At(s, |a|, b) && At(s, |a| + |b|, c) && At(s, |a| + |b| + |c|, d)
  {
  }

  lemma TableRead(s: Text, entries: Text, table: nat, size: nat, first: nat)
    requires At(s, table, TableHead(size)) && first == table + |TableHead(size)|
    requires At(s, first, entries) && At(entries, 0, FreeEntry())
    ensures ReadTable(s, table) == Some((size, first))
  {
    AtWithin(s, first, entries, 0, FreeEntry(), first);
    HeadReads(s, table, size);
  }

  lemma EntryFrom(s: Text, at: nat, size: nat, first: nat, n: nat)
    requires ReadTable(s, at) == Some((size, first)) && n < size
    ensures TableEntry(s, at, n) == ReadEntry(s, first + 20 * n)
  {
  }

  lemma EntryIn(s: Text, entries: Text, offset: nat, n: nat, first: nat, place: nat)
    requires offset < Power10(10) && At(entries, 20 * n, Entry(offset)) && At(s, first, entries)
    requires place == first + 20 * n
    ensures ReadEntry(s, place) == Some(offset)
  {
    AtWithin(s, first, entries, 20 * n, Entry(offset), place);
    EntryReads(s, place, offset);
  }

  lemma TableReads(s: Text, entries: Text, offset: nat, n: nat, table: nat, size: nat, first: nat)
    requires n < size && offset < Power10(10) && At(entries, 20 * n, Entry(offset)) && At(entries, 0, FreeEntry())
    requires At(s, table, TableHead(size)) && first == table + |TableHead(size)| && At(s, first, entries)
    ensures TableEntry(s, table, n) == Some(offset)
  {
    TableRead(s, entries, table, size, first);
    EntryIn(s, entries, offset, n, first, first + 20 * n);
    EntryFrom(s, table, size, first, n);
  }

  /** The table is at the position named after `startxref`, and entry `n` names object `n`. */
  lemma EntryNamesObject(objs: seq<Text>, n: nat)
    requires 1 <= n <= |objs| && forall i :: 0 <= i < |objs| ==> Offset(objs, i) < Power10(10)
    ensures StartXref(File(objs)) == Some(|Body(objs)|)
    ensures TableEntry(File(objs), |Body(objs)|, n) == Some(Offset(objs, n - 1))
    ensures At(File(objs), Offset(objs, n - 1), objs[n - 1])
  {
    var table := |Body(objs)|;
    var first, offset, file := table + |TableHead(|objs| + 1)|, Offset(objs, n - 1), File(objs);
    Parts(objs, table, first);
    FreeIsFirst(objs, |objs|);
    EntryAt(objs, |objs|, n - 1);
    TableReads(file, Entries(objs, |objs|), offset, n, table, |objs| + 1, first);
    ObjectAt(objs, n - 1);
    AtWithin(file, 0, Body(objs), offset, objs[n - 1], offset);
  }

  /** Every entry takes 20 bytes exactly when its offset has at most ten digits. */
  lemma EntryIsTwentyBytes(offset: nat)
    ensures |Entry(offset)| == 20 <==> offset < Power10(10)
  {
    MarkLengths();
    DecimalLength(offset, 10);
  }

  /** From the end of the file the reader reaches object `n` itself. */
  lemma Located(objs: seq<Text>, n: nat)
    requires 1 <= n <= |objs| && forall i :: 0 <= i < |objs| ==> Offset(objs, i) < Power10(10)
    requires ObjectMark(n) <= objs[n - 1]
    ensures Locate(File(objs), n) == Some(Offset(objs, n - 1))
    ensures At(File(objs), Offset(objs, n - 1), objs[n - 1])
  {
    EntryNamesObject(objs, n);
    var offset := Offset(objs, n - 1);
    AtWithin(File(objs), offset, objs[n - 1], 0, ObjectMark(n), offset);
  }

  lemma RootKeyReads(s: Text, at: nat) returns (next: nat)
    requires At(s, at, RootReference())
    ensures ReadIndirect(s, at, RootKey()) == Some((1, next))
  {
    var key, one, ref, rest := Literal(" /Root "), Decimal(1), Literal(" 0 R"), Literal(" >>\n");
    AtSplit(s, at, key + one + ref, rest, at + |key + one + ref|);
    AtSplit(s, at, key + one, ref, at + |key + one|);
    AtSplit(s, at, key, one, at + |key|);
    IndirectReads(s, at, key, 1, at + |key + one|);
    next := at + |key + one| + 4;
  }

  lemma TrailerReads(s: Text, at: nat, size: nat)
    requires At(s, at, TrailerHead(size))
    ensures ReadTrailer(s, at, size) == Some(1)
  {
    var end := at + 16 + |Decimal(size)|;
    AtSplit(s, at, Literal("trailer<< /Size ") + Decimal(size), RootReference(), end);
    AtSplit(s, at, Literal("trailer<< /Size "), Decimal(size), at + 16);
    assert RootReference()[0] == 0x20;
    AtUnit(s, end, RootReference());
    RunForward(s, at + 16, end);
    DecimalValue(size);
    var next := RootKeyReads(s, end);
    TrailerFrom(s, at, size, end, 1, next);
  }

  lemma TrailerFrom(s: Text, at: nat, size: nat, end: nat, n: nat, next: nat)
    requires At(s, at, TrailerWord()) && at + 16 < end && at + 16 <= |s| && DigitsEnd(s, at + 16) == end
    requires Value(s[at + 16..end]) == size && ReadIndirect(s, end, RootKey()) == Some((n, next))
    ensures ReadTrailer(s, at, size) == Some(n)
  {
  }

  lemma TrailerPlaced(objs: seq<Text>, first: nat)
    requires first == |Body(objs)| + |TableHead(|objs| + 1)|
    ensures At(File(objs), first + |Entries(objs, |objs|)|, TrailerHead(|objs| + 1))
  {
    var front, number := Body(objs) + TableHead(|objs| + 1) + Entries(objs, |objs|), Decimal(|Body(objs)|);
    Grouped(front, TrailerHead(|objs| + 1), StartMark(), number, EndMark());
    Behind(front, TrailerHead(|objs| + 1), StartMark(), number, EndMark());
    TrailerAt(File(objs), front, TrailerHead(|objs| + 1), StartMark() + number + EndMark());
  }

  lemma Behind(a: Text, b: Text, c: Text, d: Text, e: Text)
    ensures a + (b + c + d + e) == a + b + (c + d + e)
  {
  }

  lemma StartsWithVersion(objs: seq<Text>)
    ensures At(File(objs), 0, VersionLine())
  {
    MarkLengths();
    Parts(objs, |Body(objs)|, |Body(objs)| + |TableHead(|objs| + 1)|);
    AtEnd(Header(), Concat(objs), 9);
    AtWithin(File(objs), 0, Body(objs), 0, Header(), 0);
  }

  /** The root named in the trailer is object 1. */
  lemma RootIsFirst(objs: seq<Text>, table: nat, size: nat, first: nat)
    requires forall i :: 0 <= i < |objs| ==> Offset(objs, i) < Power10(10)
    requires table == |Body(objs)| && size == |objs| + 1 && first == table + |TableHead(size)|
    ensures StartXref(File(objs)) == Some(table) && ReadRoot(File(objs), table) == Some(1)
    ensures At(File(objs), 0, VersionLine())
  {
    StartsWithVersion(objs);
    Parts(objs, table, first);
    EntriesSize(objs, |objs|);
    TrailerPlaced(objs, first);
    FreeIsFirst(objs, |objs|);
    RootAfter(File(objs), Entries(objs, |objs|), table, size, first);
  }

  lemma RootAfter(s: Text, entries: Text, table: nat, size: nat, first: nat)
    requires At(s, table, TableHead(size)) && first == table + |TableHead(size)| && At(s, first, entries)
    requires At(entries, 0, FreeEntry()) && At(s, first + |entries|, TrailerHead(size)) && |entries| == 20 * size
    ensures ReadRoot(s, table) == Some(1)
  {
    TableRead(s, entries, table, size, first);
    RootInFile(s, table, size, first, first + |entries|);
  }

  lemma RootInFile(s: Text, at: nat, size: nat, first: nat, place: nat)
    requires ReadTable(s, at) == Some((size, first))
    requires At(s, place, TrailerHead(size)) && place == first + 20 * size
    ensures ReadRoot(s, at) == Some(1)
  {
    TrailerReads(s, place, size);
    RootFrom(s, at, size, first, place);
  }

  lemma RootFrom(s: Text, at: nat, size: nat, first: nat, place: nat)
    requires ReadTable(s, at) == Some((size, first)) && place == first + 20 * size
    ensures ReadRoot(s, at) == ReadTrailer(s, place, size)
  {
  }

  lemma TrailerAt(s: Text, before: Text, trailer: Text, rest: Text)
    requires s == before + trailer + rest
    ensures At(s, |before|, trailer)
  {
  }
}
