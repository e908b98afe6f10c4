/**
 A ZIP reader written from APPNOTE.TXT sections 4.3.6, 4.3.7, 4.3.12 and 4.3.16, and the proof
 that it reads back every archive laid out by ZipLayout.  It finds the end record in the last
 22 bytes, walks the central directory, and follows each stored offset to a local header.
 */
module ZipReader {
  import opened Results
  import opened Bytes
  import opened Slices
  import opened RecordFields
  import opened ZipLayout

  /** APPNOTE.TXT section 4.3.7: the widths of the fields of a local header. */
  function LocalWidths(): Fields {
    U32(0, U16(0, U16(0, U16(0, U16(0, U16(0, U32(0, U32(0, U32(0, U16(0, U16(0, Done)))))))))))
  }

  /** APPNOTE.TXT section 4.3.12. */
  function CentralWidths(): Fields {
    U32(0, U16(0, U16(0, U16(0, U16(0, U16(0, U16(0, U32(0, U32(0, U32(0, U16(0, U16(0, U16(0, U16(0, U16(0,
    U32(0, U32(0, Done)))))))))))))))))
  }

  /** APPNOTE.TXT section 4.3.16. */
  function EndWidths(): Fields {
    U32(0, U16(0, U16(0, U16(0, U16(0, U32(0, U32(0, U16(0, Done))))))))
  }

  /** The letters P and K, and the two bytes that name a kind of record. */
  predicate Signed(file: seq<Byte>, at: nat, a: Byte, b: Byte) {
    at + 4 <= |file| && file[at..at + 4] == [0x50, 0x4b, a, b]
  }

  /**
   The local region at `at`, if it is an uncompressed and plain file, which needs version 2.0 at most
   and agrees with its directory entry.
   */
  function ReadLocal(file: seq<Byte>, at: nat, name: seq<Byte>, crc: nat, size: nat): Option<seq<Byte>> {
    var h := Decode(file, at, LocalWidths());
    if |h| != 11 || !Signed(file, at, 0x03, 0x04) || h[1] > 20 || h[2] != 0 || h[3] != 0 then None
    else if h[6] != crc || h[7] != size || h[8] != size then None
    else
      var nameEnd := at + 30 + h[9];
      var data := nameEnd + h[10];
      if data + size > |file| || file[at + 30..nameEnd] != name then None else Some(file[data..data + size])
  }

  /** A directory header: what it says about the file, and where the next header starts. */
  datatype Listed = Listed(name: seq<Byte>, crc: nat, size: nat, offset: nat, next: nat)

  function ReadCentral(file: seq<Byte>, at: nat, limit: nat): Option<Listed>
    requires limit <= |file|
  {
    var h := Decode(file, at, CentralWidths());
    if |h| != 17 || !Signed(file, at, 0x01, 0x02) || h[2] > 20 || h[3] != 0 || h[4] != 0 then None
    else if h[8] != h[9] || h[13] != 0 then None
    else
      var nameEnd := at + 46 + h[10];
      var next := nameEnd + h[11] + h[12];
      if next > limit then None else Some(Listed(file[at + 46..nameEnd], h[7], h[9], h[16], next))
  }

  /**
   `count` directory entries from `at` up to exactly `limit`.  `central` reads the directory
   header at a position, `local` the file that a directory header describes.
   */
  function ReadAll(central: nat -> Option<Listed>, local: Listed -> Option<seq<Byte>>, at: nat, limit: nat, count: nat)
    : Option<seq<Stored>>
    decreases count
  {
    if count == 0 then if at == limit then Some([]) else None
    else
      match central(at)
      case None => None
      case Some(listed) =>
        var data, rest := local(listed), ReadAll(central, local, listed.next, limit, count - 1);
        if data.None? || rest.None? || listed.crc > MAX32 then None
        else Some([Stored(listed.name, data.value, listed.crc)] + rest.value)
  }

  function CentralReader(file: seq<Byte>, limit: nat): nat -> Option<Listed>
    requires limit <= |file|
  {
    (at: nat) => ReadCentral(file, at, limit)
  }

  function LocalReader(file: seq<Byte>): Listed -> Option<seq<Byte>> {
    (listed: Listed) => ReadLocal(file, listed.offset, listed.name, listed.crc, listed.size)
  }

  datatype Ending = Ending(count: nat, offset: nat)

  function ReadEnd(file: seq<Byte>, end: nat): Option<Ending> {
    var h := Decode(file, end, EndWidths());
    if |h| != 8 || !Signed(file, end, 0x05, 0x06) || h[1] != 0 || h[2] != 0 || h[3] != h[4] || h[7] != 0 then None
    else if h[6] + h[5] != end then None
    else Some(Ending(h[4], h[6]))
  }

  function ReadStored(file: seq<Byte>): Option<seq<Stored>> {
    if |file| < 22 then None
    else
      var end := |file| - 22;
      match ReadEnd(file, end)
      case None => None
      case Some(ending) => ReadAll(CentralReader(file, end), LocalReader(file), ending.offset, end, ending.count)
  }

  lemma SignatureBytes()
    ensures LittleEndian(4, LOCAL_SIGNATURE) == [0x50, 0x4b, 0x03, 0x04]
    ensures LittleEndian(4, CENTRAL_SIGNATURE) == [0x50, 0x4b, 0x01, 0x02]
    ensures LittleEndian(4, END_SIGNATURE) == [0x50, 0x4b, 0x05, 0x06]
  {
  }

  /** A record that starts with a signature is written with its four bytes in front. */
  lemma SignatureReads(s: seq<Byte>, at: nat, end: nat, fs: Fields, a: Byte, b: Byte)
    requires at <= end <= |s| && s[at..end] == Encode(fs)
    requires fs.Field? && fs.width == 4 && LittleEndian(4, fs.value) == [0x50, 0x4b, a, b]
    ensures Signed(s, at, a, b)
  {
    Cut(s, at, end, LittleEndian(4, fs.value), Encode(fs.rest));
  }

  lemma LocalValues(s: seq<Byte>, at: nat, e: Stored)
    requires |e.name| <= MAX16 && |e.data| <= MAX32
    requires at + 30 <= |s| && s[at..at + 30] == Encode(LocalFields(e))
    ensures var h := Decode(s, at, LocalWidths());
      |h| == 11 && Signed(s, at, 0x03, 0x04) && h[1] == 20 && h[2] == h[3] == 0 && h[6] == e.crc
      && h[7] == h[8] == |e.data| && h[9] == |e.name| && h[10] == 0
  {
    var fs := LocalFields(e);
    LocalTable(e);
    assert SameTable(LocalWidths(), fs, 11);
    DecodeEncode(s, at, at + 30, LocalWidths(), fs, 11);
    SignatureBytes();
    SignatureReads(s, at, at + 30, fs, 0x03, 0x04);
    LocalNth(e);
    ValuesNth(fs, 1);
    ValuesNth(fs, 2);
    ValuesNth(fs, 3);
    ValuesNth(fs, 6);
    ValuesNth(fs, 7);
    ValuesNth(fs, 8);
    ValuesNth(fs, 9);
    ValuesNth(fs, 10);
  }

  lemma LocalNth(e: Stored)
    ensures var fs := LocalFields(e);
      Nth(fs, 1) == 20 && Nth(fs, 2) == Nth(fs, 3) == 0 && Nth(fs, 6) == e.crc && Nth(fs, 7) == Nth(fs, 8) == |e.data|
      && Nth(fs, 9) == |e.name| && Nth(fs, 10) == 0
  {
    var fs := LocalFields(e);
    var t := fs.rest.rest.rest.rest;
    var u := t.rest.rest.rest.rest;
    assert Nth(fs, 6) == Nth(t, 2) && Nth(fs, 7) == Nth(t, 3);
    assert Nth(fs, 8) == Nth(t, 4) == Nth(u, 0) && Nth(fs, 9) == Nth(t, 5) == Nth(u, 1);
    assert Nth(fs, 10) == Nth(t, 6) == Nth(u, 2);
  }

  lemma CentralValues(s: seq<Byte>, at: nat, e: Stored, offset: nat)
    requires EntryFits(e, offset)
    requires at + 46 <= |s| && s[at..at + 46] == Encode(CentralFields(e, offset))
    ensures var h := Decode(s, at, CentralWidths());
      |h| == 17 && Signed(s, at, 0x01, 0x02) && h[2] == 20 && h[3] == h[4] == 0 && h[7] == e.crc
      && h[8] == h[9] == |e.data| && h[10] == |e.name| && h[11] == h[12] == h[13] == 0 && h[16] == offset
  {
    var fs := CentralFields(e, offset);
    CentralTable(e, offset);
    CentralShape(e, offset);
    DecodeEncode(s, at, at + 46, CentralWidths(), fs, 17);
    SignatureBytes();
    SignatureReads(s, at, at + 46, fs, 0x01, 0x02);
    CentralNth(e, offset);
    ValuesNth(fs, 2);
    ValuesNth(fs, 3);
    ValuesNth(fs, 4);
    ValuesNth(fs, 7);
    ValuesNth(fs, 8);
    ValuesNth(fs, 9);
    ValuesNth(fs, 10);
    ValuesNth(fs, 11);
    ValuesNth(fs, 12);
    ValuesNth(fs, 13);
    ValuesNth(fs, 16);
  }

  lemma CentralShape(e: Stored, offset: nat)
    ensures SameTable(CentralWidths(), CentralFields(e, offset), 17)
  {
    var table, fs := CentralWidths().rest.rest.rest.rest.rest.rest.rest.rest, CentralFields(e, offset);
    assert SameTable(table, fs.rest.rest.rest.rest.rest.rest.rest.rest, 9);
  }

  lemma CentralNth(e: Stored, offset: nat)
    ensures var fs := CentralFields(e, offset);
      Nth(fs, 2) == 20 && Nth(fs, 3) == Nth(fs, 4) == 0 && Nth(fs, 7) == e.crc
      && Nth(fs, 8) == Nth(fs, 9) == |e.data| && Nth(fs, 10) == |e.name|
      && Nth(fs, 11) == Nth(fs, 12) == Nth(fs, 13) == 0 && Nth(fs, 16) == offset
  {
    var fs := CentralFields(e, offset);
    var t := fs.rest.rest.rest.rest;
    var u := t.rest.rest.rest.rest;
    var v := u.rest.rest.rest.rest;
    assert Nth(fs, 4) == Nth(t, 0) && Nth(fs, 7) == Nth(t, 3);
    assert Nth(fs, 8) == Nth(t, 4) == Nth(u, 0) && Nth(fs, 9) == Nth(t, 5) == Nth(u, 1);
    assert Nth(fs, 10) == Nth(t, 6) == Nth(u, 2) && Nth(fs, 11) == Nth(t, 7) == Nth(u, 3);
    assert Nth(fs, 12) == Nth(t, 8) == Nth(u, 4) == Nth(v, 0);
    assert Nth(fs, 13) == Nth(t, 9) == Nth(u, 5) == Nth(v, 1);
    assert Nth(fs, 16) == Nth(t, 12) == Nth(u, 8) == Nth(v, 4);
  }

  lemma EndRecordReads(s: seq<Byte>, at: nat, count: nat, size: nat, offset: nat)
    requires count <= MAX16 && size <= MAX32 && offset <= MAX32 && offset + size == at
    requires at + 22 <= |s| && s[at..at + 22] == Encode(EndFields(count, size, offset))
    ensures ReadEnd(s, at) == Some(Ending(count, offset))
  {
    var fs := EndFields(count, size, offset);
    EndTable(count, size, offset);
    assert SameTable(EndWidths(), fs, 8);
    DecodeEncode(s, at, at + 22, EndWidths(), fs, 8);
    SignatureBytes();
    SignatureReads(s, at, at + 22, fs, 0x05, 0x06);
    ValuesNth(fs, 1);
    ValuesNth(fs, 2);
    ValuesNth(fs, 3);
    ValuesNth(fs, 4);
    ValuesNth(fs, 5);
    ValuesNth(fs, 6);
    ValuesNth(fs, 7);
  }

  // ---------------------------------------------------------------------------------------
  // Round trip
  // ---------------------------------------------------------------------------------------

  function LocalRegion(e: Stored): seq<Byte> {
    Encode(LocalFields(e)) + e.name + e.data
  }

  lemma HeaderLengths(e: Stored, offset: nat)
    ensures |Encode(LocalFields(e))| == 30
    ensures |Encode(CentralFields(e, offset))| == 46
  {
    LocalTable(e);
    CentralTable(e, offset);
    EncodeSize(LocalFields(e));
    EncodeSize(CentralFields(e, offset));
  }

  lemma {:induction false} LocalsLength(es: seq<Stored>)
    ensures |Locals(es)| == LocalsSize(es)
    decreases |es|
  {
    if es != [] {
      HeaderLengths(es[0], 0);
      LocalsLength(es[1..]);
    }
  }

  lemma {:induction false} CentralsLength(es: seq<Stored>, offset: nat)
    ensures |Centrals(es, offset)| == CentralsSize(es)
    decreases |es|
  {
    if es != [] {
      HeaderLengths(es[0], offset);
      CentralsLength(es[1..], offset + LocalSize(es[0]));
    }
  }

  lemma LocalParts(s: seq<Byte>, at: nat, nameAt: nat, dataAt: nat, end: nat, e: Stored)
    requires nameAt == at + 30 && dataAt == nameAt + |e.name| && end == at + LocalSize(e)
    requires end <= |s| && s[at..end] == LocalRegion(e)
    ensures s[at..nameAt] == Encode(LocalFields(e)) && s[nameAt..dataAt] == e.name && s[dataAt..end] == e.data
  {
    HeaderLengths(e, 0);
    CutThree(s, at, end, Encode(LocalFields(e)), e.name, e.data);
  }

  lemma LocalReads(s: seq<Byte>, at: nat, e: Stored)
    requires |e.name| <= MAX16 && |e.data| <= MAX32
    requires at + LocalSize(e) <= |s| && s[at..at + LocalSize(e)] == LocalRegion(e)
    ensures ReadLocal(s, at, e.name, e.crc, |e.data|) == Some(e.data)
  {
    LocalParts(s, at, at + 30, at + 30 + |e.name|, at + LocalSize(e), e);
    LocalValues(s, at, e);
  }

  /** The directory headers of `es` lie in [at, limit), their local regions in [offset, end). */
  ghost predicate RegionsAt(s: seq<Byte>, at: nat, limit: nat, offset: nat, end: nat, es: seq<Stored>) {
    && at <= limit <= |s| && s[at..limit] == Centrals(es, offset)
    && offset <= end <= |s| && s[offset..end] == Locals(es)
  }

  lemma CentralFrom(s: seq<Byte>, at: nat, next: nat, limit: nat, h: seq<nat>, name: seq<Byte>)
    requires limit <= |s| && h == Decode(s, at, CentralWidths()) && |h| == 17
    requires Signed(s, at, 0x01, 0x02) && h[2] <= 20 && h[3] == h[4] == 0
    requires h[8] == h[9] && h[10] == |name| && h[11] == h[12] == h[13] == 0
    requires next == at + 46 + |name| <= limit && s[at + 46..next] == name
    ensures ReadCentral(s, at, limit) == Some(Listed(name, h[7], h[9], h[16], next))
  {
  }

  lemma CentralReads(s: seq<Byte>, at: nat, next: nat, limit: nat, offset: nat, e: Stored)
    requires EntryFits(e, offset) && next == at + 46 + |e.name| <= limit <= |s|
    requires s[at..next] == CentralRegion(e, offset)
    ensures ReadCentral(s, at, limit) == Some(Listed(e.name, e.crc, |e.data|, offset, next))
  {
    HeaderLengths(e, offset);
    Cut(s, at, next, Encode(CentralFields(e, offset)), e.name);
    CentralValues(s, at, e, offset);
    CentralFrom(s, at, next, limit, Decode(s, at, CentralWidths()), e.name);
  }

  /** Where the directory header of entry `i` starts, counted from the start of the directory. */
  function CentralOffset(es: seq<Stored>, i: nat): nat
    requires i <= |es|
  {
    CentralsSize(es[..i])
  }

  lemma ArchiveParts(es: seq<Stored>)
    ensures |Archive(es)| == LocalsSize(es) + CentralsSize(es) + 22
    ensures RegionsAt(Archive(es), LocalsSize(es), LocalsSize(es) + CentralsSize(es), 0, LocalsSize(es), es)
    ensures Archive(es)[LocalsSize(es) + CentralsSize(es)..LocalsSize(es) + CentralsSize(es) + 22]
      == Encode(EndFields(|es|, CentralsSize(es), LocalsSize(es)))
  {
    LocalsLength(es);
    CentralsLength(es, 0);
    var end := EndFields(|es|, CentralsSize(es), LocalsSize(es));
    EndTable(|es|, CentralsSize(es), LocalsSize(es));
    EncodeSize(end);
    assert Archive(es)[0..|Archive(es)|] == Archive(es);
    CutThree(Archive(es), 0, |Archive(es)|, Locals(es), Centrals(es, 0), Encode(end));
  }

  // ---------------------------------------------------------------------------------------
  // Tiling
  // ---------------------------------------------------------------------------------------

  /** Where the local region of entry `i` starts. */
  function LocalOffset(es: seq<Stored>, i: nat): nat
    requires i <= |es|
  {
    LocalsSize(es[..i])
  }

  lemma {:induction false} OffsetsAdvance(es: seq<Stored>, i: nat)
    requires i < |es|
    ensures LocalOffset(es, 0) == 0 && LocalOffset(es, |es|) == LocalsSize(es)
    ensures LocalOffset(es, i + 1) == LocalOffset(es, i) + LocalSize(es[i]) <= LocalsSize(es)
    ensures CentralOffset(es, 0) == 0 && CentralOffset(es, |es|) == CentralsSize(es)
    ensures CentralOffset(es, i + 1) == CentralOffset(es, i) + 46 + |es[i].name| <= CentralsSize(es)
    decreases i
  {
    assert es[..|es|] == es && es[..i + 1][1..] == es[1..][..i];
    if i > 0 {
      assert es[..i][1..] == es[1..][..i - 1];
      OffsetsAdvance(es[1..], i - 1);
    }
  }

  /** The local region of entry `i`, found by walking over those before it. */
  lemma {:induction false} WalkLocals(s: seq<Byte>, offset: nat, end: nat, es: seq<Stored>, i: nat, from: nat, to: nat)
    requires i < |es| && offset <= end <= |s| && s[offset..end] == Locals(es)
    requires from == offset + LocalOffset(es, i) && to == from + LocalSize(es[i])
    ensures to <= end && s[from..to] == LocalRegion(es[i])
    decreases i
  {
    HeaderLengths(es[0], 0);
    Cut(s, offset, end, LocalRegion(es[0]), Locals(es[1..]));
    if i > 0 {
      assert es[..i][1..] == es[1..][..i - 1];
      WalkLocals(s, offset + LocalSize(es[0]), end, es[1..], i - 1, from, to);
    }
  }

  /** A directory header with its name. */
  function CentralRegion(e: Stored, offset: nat): seq<Byte> {
    Encode(CentralFields(e, offset)) + e.name
  }

  /** Offsets count on behind the first entry. */
  lemma OffsetsBehind(es: seq<Stored>, i: nat)
    requires 0 < i <= |es|
    ensures LocalOffset(es, i) == LocalSize(es[0]) + LocalOffset(es[1..], i - 1)
    ensures CentralOffset(es, i) == 46 + |es[0].name| + CentralOffset(es[1..], i - 1)
  {
    assert es[..i][1..] == es[1..][..i - 1];
  }

  lemma {:induction false} WalkCentrals(
    s: seq<Byte>, at: nat, limit: nat, offset: nat, es: seq<Stored>, i: nat, place: nat, own: nat)
    requires i < |es| && at <= limit <= |s| && s[at..limit] == Centrals(es, offset)
    requires place == at + CentralOffset(es, i) && own == offset + LocalOffset(es, i)
    ensures place + 46 + |es[i].name| <= limit
    ensures s[place..place + 46 + |es[i].name|] == CentralRegion(es[i], own)
    decreases i
  {
    HeaderLengths(es[0], offset);
    var next, behind := at + 46 + |es[0].name|, offset + LocalSize(es[0]);
    Cut(s, at, limit, CentralRegion(es[0], offset), Centrals(es[1..], behind));
    if i > 0 {
      OffsetsBehind(es, i);
      WalkCentrals(s, next, limit, behind, es[1..], i - 1, place, own);
    }
  }

  lemma {:induction false} NameFits(es: seq<Stored>, i: nat)
    requires NamesFit(es) && i < |es|
    ensures |es[i].name| <= MAX16
    decreases i
  {
    if i > 0 {
      NameFits(es[1..], i - 1);
    }
  }

  /** The directory header that describes entry `i`. */
  function ListedEntry(es: seq<Stored>, i: nat): Listed
    requires i < |es|
  {
    Listed(es[i].name, es[i].crc, |es[i].data|, LocalOffset(es, i), LocalsSize(es) + CentralOffset(es, i + 1))
  }

  /** The header of entry `i` lies at its place in the directory. */
  lemma CentralRegionAt(file: seq<Byte>, at: nat, es: seq<Stored>, i: nat, limit: nat, own: nat, next: nat)
    requires Fits(es) && i < |es| && at == LocalsSize(es) + CentralOffset(es, i) && own == LocalOffset(es, i)
    requires LocalsSize(es) <= limit <= |file| && file[LocalsSize(es)..limit] == Centrals(es, 0)
    requires next == at + 46 + |es[i].name|
    ensures EntryFits(es[i], own) && next <= limit && file[at..next] == CentralRegion(es[i], own)
    ensures ListedEntry(es, i) == Listed(es[i].name, es[i].crc, |es[i].data|, own, next)
  {
    OffsetsAdvance(es, i);
    NameFits(es, i);
    WalkCentrals(file, LocalsSize(es), limit, 0, es, i, at, own);
  }

  lemma CentralReadsAt(file: seq<Byte>, at: nat, es: seq<Stored>, i: nat, limit: nat)
    requires Fits(es) && i < |es| && at == LocalsSize(es) + CentralOffset(es, i)
    requires LocalsSize(es) <= limit <= |file| && file[LocalsSize(es)..limit] == Centrals(es, 0)
    ensures ReadCentral(file, at, limit) == Some(ListedEntry(es, i))
  {
    var own, next := LocalOffset(es, i), at + 46 + |es[i].name|;
    CentralRegionAt(file, at, es, i, limit, own, next);
    CentralReads(file, at, next, limit, own, es[i]);
  }

  lemma LocalReadsAt(file: seq<Byte>, es: seq<Stored>, i: nat)
    requires Fits(es) && i < |es|
    requires LocalsSize(es) <= |file| && file[0..LocalsSize(es)] == Locals(es)
    ensures ReadLocal(file, LocalOffset(es, i), es[i].name, es[i].crc, |es[i].data|) == Some(es[i].data)
  {
    OffsetsAdvance(es, i);
    NameFits(es, i);
    var from := LocalOffset(es, i);
    WalkLocals(file, 0, LocalsSize(es), es, i, from, from + LocalSize(es[i]));
    LocalReads(file, from, es[i]);
  }

  lemma CentralReaderReads(file: seq<Byte>, limit: nat, at: nat, listed: Listed)
    requires limit <= |file| && ReadCentral(file, at, limit) == Some(listed)
    ensures CentralReader(file, limit)(at) == Some(listed)
  {
  }

  lemma LocalReaderReads(file: seq<Byte>, listed: Listed, data: seq<Byte>)
    requires ReadLocal(file, listed.offset, listed.name, listed.crc, listed.size) == Some(data)
    ensures LocalReader(file)(listed) == Some(data)
  {
  }

  lemma CentralEntry(file: seq<Byte>, es: seq<Stored>, i: nat, at: nat, limit: nat, central: nat -> Option<Listed>)
    requires Fits(es) && i < |es| && at == LocalsSize(es) + CentralOffset(es, i)
    requires LocalsSize(es) <= limit <= |file| && file[LocalsSize(es)..limit] == Centrals(es, 0)
    requires central == CentralReader(file, limit)
    ensures central(at) == Some(ListedEntry(es, i))
  {
    CentralReadsAt(file, at, es, i, limit);
    CentralReaderReads(file, limit, at, ListedEntry(es, i));
  }

  lemma LocalEntry(file: seq<Byte>, es: seq<Stored>, i: nat, listed: Listed, local: Listed -> Option<seq<Byte>>)
    requires Fits(es) && i < |es| && listed == ListedEntry(es, i)
    requires LocalsSize(es) <= |file| && file[0..LocalsSize(es)] == Locals(es)
    requires local == LocalReader(file)
    ensures local(listed) == Some(es[i].data)
  {
    LocalReadsAt(file, es, i);
    LocalReaderReads(file, listed, es[i].data);
  }

  /** Reader `k` finds header `k` at mark `k`, the file it describes, and mark `k + 1` behind it. */
  ghost predicate Finds(central: nat -> Option<Listed>, local: Listed -> Option<seq<Byte>>,
                        mark: nat, next: nat, listed: Listed, e: Stored) {
    && central(mark) == Some(listed) && local(listed) == Some(e.data)
    && listed.next == next && listed.name == e.name && listed.crc == e.crc
  }

  lemma {:induction false} ReadsInOrder(
    central: nat -> Option<Listed>, local: Listed -> Option<seq<Byte>>,
    marks: seq<nat>, listed: seq<Listed>, es: seq<Stored>, i: nat, count: nat)
    requires |marks| == |es| + 1 && |listed| == |es| && i <= |es| && count == |es| - i
    requires forall k :: 0 <= k < |es| ==> Finds(central, local, marks[k], marks[k + 1], listed[k], es[k])
    ensures ReadAll(central, local, marks[i], marks[|es|], count) == Some(es[i..])
    decreases count
  {
    if i < |es| {
      ReadsInOrder(central, local, marks, listed, es, i + 1, count - 1);
      assert Finds(central, local, marks[i], marks[i + 1], listed[i], es[i]);
      assert es[i..] == [es[i]] + es[i + 1..];
    } else {
      assert es[i..] == [];
    }
  }

  lemma ReadsThemAll(
    central: nat -> Option<Listed>, local: Listed -> Option<seq<Byte>>,
    marks: seq<nat>, listed: seq<Listed>, es: seq<Stored>, at: nat, limit: nat, count: nat)
    requires |marks| == |es| + 1 && |listed| == |es| == count && marks[0] == at && marks[|es|] == limit
    requires forall k :: 0 <= k < |es| ==> Finds(central, local, marks[k], marks[k + 1], listed[k], es[k])
    ensures ReadAll(central, local, at, limit, count) == Some(es)
  {
    assert es[0..] == es;
    ReadsInOrder(central, local, marks, listed, es, 0, count);
  }

  /** Where the directory headers start, and where the last one ends. */
  function Marks(es: seq<Stored>): (ms: seq<nat>)
    ensures |ms| == |es| + 1
  {
    seq(|es| + 1, k requires 0 <= k <= |es| => LocalsSize(es) + CentralOffset(es, k))
  }

  function ListedEntries(es: seq<Stored>): (ls: seq<Listed>)
    ensures |ls| == |es|
  {
    seq(|es|, k requires 0 <= k < |es| => ListedEntry(es, k))
  }

  lemma EntryIsFound(file: seq<Byte>, es: seq<Stored>, k: nat, limit: nat,
                     central: nat -> Option<Listed>, local: Listed -> Option<seq<Byte>>,
                     mark: nat, next: nat, listed: Listed)
    requires Fits(es) && k < |es| && listed == ListedEntry(es, k)
    requires mark == LocalsSize(es) + CentralOffset(es, k) && next == LocalsSize(es) + CentralOffset(es, k + 1)
    requires LocalsSize(es) <= limit <= |file| && file[LocalsSize(es)..limit] == Centrals(es, 0)
    requires file[0..LocalsSize(es)] == Locals(es)
    requires central == CentralReader(file, limit) && local == LocalReader(file)
    ensures Finds(central, local, mark, next, listed, es[k])
  {
    CentralEntry(file, es, k, mark, limit, central);
    LocalEntry(file, es, k, listed, local);
  }

  lemma DirectoryReads(file: seq<Byte>, es: seq<Stored>, at: nat, limit: nat,
                       central: nat -> Option<Listed>, local: Listed -> Option<seq<Byte>>)
    requires Fits(es) && at == LocalsSize(es) && limit == LocalsSize(es) + CentralsSize(es)
    requires at <= limit <= |file| && file[at..limit] == Centrals(es, 0) && file[0..at] == Locals(es)
    requires central == CentralReader(file, limit) && local == LocalReader(file)
    ensures ReadAll(central, local, at, limit, |es|) == Some(es)
  {
    var marks, listed := Marks(es), ListedEntries(es);
    forall k | 0 <= k < |es|
      ensures Finds(central, local, marks[k], marks[k + 1], listed[k], es[k])
    {
      EntryIsFound(file, es, k, limit, central, local, marks[k], marks[k + 1], listed[k]);
    }
    assert es[..0] == [] && es[..|es|] == es;
    ReadsThemAll(central, local, marks, listed, es, at, limit, |es|);
  }

  lemma ArchiveEndReads(es: seq<Stored>, end: nat)
    requires Fits(es) && end == LocalsSize(es) + CentralsSize(es)
    ensures end + 22 == |Archive(es)|
    ensures ReadEnd(Archive(es), end) == Some(Ending(|es|, LocalsSize(es)))
  {
    ArchiveParts(es);
    EndRecordReads(Archive(es), end, |es|, CentralsSize(es), LocalsSize(es));
  }

  lemma WholeFileReads(file: seq<Byte>, es: seq<Stored>, at: nat, end: nat)
    requires Fits(es) && at == LocalsSize(es) && end == LocalsSize(es) + CentralsSize(es) && |file| == end + 22
    requires file[at..end] == Centrals(es, 0) && file[0..at] == Locals(es)
    requires ReadEnd(file, end) == Some(Ending(|es|, at))
    ensures ReadStored(file) == Some(es)
  {
    DirectoryReads(file, es, at, end, CentralReader(file, end), LocalReader(file));
    FromTheEnd(file, end, Ending(|es|, at), CentralReader(file, end), LocalReader(file), Some(es));
  }

  lemma FromTheEnd(file: seq<Byte>, end: nat, ending: Ending,
                   central: nat -> Option<Listed>, local: Listed -> Option<seq<Byte>>, r: Option<seq<Stored>>)
    requires |file| == end + 22 && ReadEnd(file, end) == Some(ending)
    requires central == CentralReader(file, end) && local == LocalReader(file)
    requires ReadAll(central, local, ending.offset, end, ending.count) == r
    ensures ReadStored(file) == r
  {
    assert |file| - 22 == end;
  }

  /** Reading any archive that fits its header fields gives back exactly its entries, in order. */
  lemma StoredRoundTrip(es: seq<Stored>)
    requires Fits(es)
    ensures ReadStored(Archive(es)) == Some(es)
  {
    var at, end := LocalsSize(es), LocalsSize(es) + CentralsSize(es);
    ArchiveEndReads(es, end);
    ArchiveParts(es);
    WholeFileReads(Archive(es), es, at, end);
  }

  /**
   The local regions tile the file from 0 up to the central directory, without gap or overlap,
   and each directory header names the start of its own region.
   */
  lemma Tiling(es: seq<Stored>, i: nat, from: nat, to: nat)
    requires Fits(es) && i < |es|
    requires from == LocalOffset(es, i) && to == LocalOffset(es, i + 1)
    ensures LocalOffset(es, 0) == 0 && LocalOffset(es, |es|) == LocalsSize(es)
    ensures to == from + LocalSize(es[i]) && to <= LocalsSize(es) <= |Archive(es)|
    ensures Archive(es)[from..to] == LocalRegion(es[i])
  {
    ArchiveParts(es);
    OffsetsAdvance(es, i);
    WalkLocals(Archive(es), 0, LocalsSize(es), es, i, from, to);
  }

  /** Following the directory header of entry `i` leads to that region. */
  lemma DirectoryNamesRegions(es: seq<Stored>, i: nat, at: nat, end: nat)
    requires Fits(es) && i < |es|
    requires at == LocalsSize(es) + CentralOffset(es, i) && end == LocalsSize(es) + CentralsSize(es)
    ensures end <= |Archive(es)|
    ensures CentralReader(Archive(es), end)(at) == Some(ListedEntry(es, i))
  {
    ArchiveParts(es);
    CentralEntry(Archive(es), es, i, at, end, CentralReader(Archive(es), end));
  }

  // ---------------------------------------------------------------------------------------
  // The headers, byte by byte
  // ---------------------------------------------------------------------------------------

  /** APPNOTE.TXT section 4.3.7: signature, version 2.0, nothing in flags, method, time and date; then the numbers. */
  function LocalHeader(e: Stored): seq<Byte> {
    [0x50, 0x4b, 0x03, 0x04, 20, 0, 0, 0, 0, 0, 0, 0, 0, 0]
    + (LittleEndian(4, e.crc) + (LittleEndian(4, |e.data|) + (LittleEndian(4, |e.data|)
    + (LittleEndian(2, |e.name|) + [0, 0]))))
  }

  /** APPNOTE.TXT section 4.3.12: made by and needing version 2.0; no extra field, comment, disk or attributes. */
  function CentralHeader(e: Stored, offset: nat): seq<Byte> {
    [0x50, 0x4b, 0x01, 0x02, 20, 0, 20, 0, 0, 0, 0, 0, 0, 0, 0, 0]
    + (LittleEndian(4, e.crc) + (LittleEndian(4, |e.data|) + (LittleEndian(4, |e.data|)
    + (LittleEndian(2, |e.name|) + ([0, 0, 0, 0, 0, 0, 0, 0, 0, 0, 0, 0] + LittleEndian(4, offset))))))
  }

  lemma SmallNumbers()
    ensures LittleEndian(2, 0) == [0, 0] && LittleEndian(2, 20) == [20, 0] && LittleEndian(4, 0) == [0, 0, 0, 0]
  {
  }

  lemma FieldInFront(width: nat, value: nat, rest: Fields, bytes: seq<Byte>)
    requires Encode(rest) == bytes
    ensures Encode(Field(width, value, rest)) == LittleEndian(width, value) + bytes
  {
  }

  lemma NumbersBytes(e: Stored, rest: Fields, bytes: seq<Byte>)
    requires Encode(rest) == bytes
    ensures Encode(U32(e.crc, U32(|e.data|, U32(|e.data|, U16(|e.name|, rest)))))
      == LittleEndian(4, e.crc) + (LittleEndian(4, |e.data|) + (LittleEndian(4, |e.data|)
         + (LittleEndian(2, |e.name|) + bytes)))
  {
    var name := U16(|e.name|, rest);
    var size := U32(|e.data|, name);
    var sizes := U32(|e.data|, size);
    FieldInFront(2, |e.name|, rest, bytes);
    FieldInFront(4, |e.data|, name, Encode(name));
    FieldInFront(4, |e.data|, size, Encode(size));
    FieldInFront(4, e.crc, sizes, Encode(sizes));
  }

  lemma ZerosInFront(rest: Fields, bytes: seq<Byte>)
    requires Encode(rest) == bytes
    ensures Encode(U16(0, U16(0, rest))) == [0, 0, 0, 0] + bytes
  {
    SmallNumbers();
    FieldInFront(2, 0, rest, bytes);
  }

  lemma FourZeros(rest: Fields, bytes: seq<Byte>)
    requires Encode(rest) == bytes
    ensures Encode(U16(0, U16(0, U16(0, U16(0, rest))))) == [0, 0, 0, 0, 0, 0, 0, 0] + bytes
  {
    ZerosInFront(rest, bytes);
    ZerosInFront(U16(0, U16(0, rest)), [0, 0, 0, 0] + bytes);
  }

  lemma VersionInFront(signature: nat, rest: Fields, bytes: seq<Byte>)
    requires Encode(rest) == bytes
    ensures Encode(U32(signature, U16(20, rest))) == LittleEndian(4, signature) + ([20, 0] + bytes)
  {
    SmallNumbers();
    FieldInFront(2, 20, rest, bytes);
    FieldInFront(4, signature, U16(20, rest), [20, 0] + bytes);
  }

  lemma LocalFront(rest: Fields, bytes: seq<Byte>)
    requires Encode(rest) == bytes
    ensures Encode(U32(LOCAL_SIGNATURE, U16(20, U16(0, U16(0, U16(0, U16(0, rest)))))))
      == [0x50, 0x4b, 0x03, 0x04, 20, 0, 0, 0, 0, 0, 0, 0, 0, 0] + bytes
  {
    SmallNumbers();
    SignatureBytes();
    FourZeros(rest, bytes);
    VersionInFront(LOCAL_SIGNATURE, U16(0, U16(0, U16(0, U16(0, rest)))), [0, 0, 0, 0, 0, 0, 0, 0] + bytes);
  }

  lemma LocalHeaderBytes(e: Stored)
    ensures Encode(LocalFields(e)) == LocalHeader(e)
  {
    SmallNumbers();
    var tail := U16(0, Done);
    var numbers := U32(e.crc, U32(|e.data|, U32(|e.data|, U16(|e.name|, tail))));
    FieldInFront(2, 0, Done, []);
    NumbersBytes(e, tail, [0, 0]);
    LocalFront(numbers, Encode(numbers));
  }

  lemma TailBytes(offset: nat)
    ensures Encode(U16(0, U16(0, U16(0, U16(0, U32(0, U32(offset, Done)))))))
      == [0, 0, 0, 0, 0, 0, 0, 0, 0, 0, 0, 0] + LittleEndian(4, offset)
  {
    SmallNumbers();
    var last, four := U32(offset, Done), U32(0, U32(offset, Done));
    assert Encode(last) == LittleEndian(4, offset);
    FieldInFront(4, 0, last, LittleEndian(4, offset));
    ZerosInFront(four, Encode(four));
    ZerosInFront(U16(0, U16(0, four)), [0, 0, 0, 0] + Encode(four));
  }

  lemma CentralFront(rest: Fields, bytes: seq<Byte>)
    requires Encode(rest) == bytes
    ensures Encode(U32(CENTRAL_SIGNATURE, U16(20, U16(20, U16(0, U16(0, U16(0, U16(0, rest))))))))
      == [0x50, 0x4b, 0x01, 0x02, 20, 0, 20, 0, 0, 0, 0, 0, 0, 0, 0, 0] + bytes
  {
    SmallNumbers();
    SignatureBytes();
    var zeros := U16(0, U16(0, U16(0, U16(0, rest))));
    var behind: seq<Byte> := [0, 0, 0, 0, 0, 0, 0, 0] + bytes;
    FourZeros(rest, bytes);
    FieldInFront(2, 20, zeros, behind);
    VersionInFront(CENTRAL_SIGNATURE, U16(20, zeros), [20, 0] + behind);
  }

  lemma CentralHeaderBytes(e: Stored, offset: nat)
    ensures Encode(CentralFields(e, offset)) == CentralHeader(e, offset)
  {
    var tail := U16(0, U16(0, U16(0, U16(0, U32(0, U32(offset, Done))))));
    var numbers := U32(e.crc, U32(|e.data|, U32(|e.data|, U16(|e.name|, tail))));
    TailBytes(offset);
    NumbersBytes(e, tail, Encode(tail));
    CentralFront(numbers, Encode(numbers));
  }

  /** What stands in the file at the place of entry `i`: its header and name in its region. */
  lemma LocalHeaderAt(es: seq<Stored>, i: nat, at: nat, nameAt: nat, dataAt: nat)
    requires Fits(es) && i < |es| && at == LocalOffset(es, i) && nameAt == at + 30 && dataAt == nameAt + |es[i].name|
    ensures dataAt <= |Archive(es)|
    ensures Archive(es)[at..nameAt] == LocalHeader(es[i]) && Archive(es)[nameAt..dataAt] == es[i].name
  {
    var to := at + LocalSize(es[i]);
    OffsetsAdvance(es, i);
    Tiling(es, i, at, to);
    LocalParts(Archive(es), at, nameAt, dataAt, to, es[i]);
    LocalHeaderBytes(es[i]);
  }

  /** And its header in the directory, with the place of that region. */
  lemma CentralHeaderAt(es: seq<Stored>, i: nat, at: nat, nameAt: nat, own: nat)
    requires Fits(es) && i < |es| && at == LocalsSize(es) + CentralOffset(es, i) && own == LocalOffset(es, i)
    requires nameAt == at + 46
    ensures nameAt <= |Archive(es)| && Archive(es)[at..nameAt] == CentralHeader(es[i], own)
  {
    var end, next := LocalsSize(es) + CentralsSize(es), nameAt + |es[i].name|;
    ArchiveParts(es);
    CentralRegionAt(Archive(es), at, es, i, end, own, next);
    HeaderLengths(es[i], own);
    Cut(Archive(es), at, next, Encode(CentralFields(es[i], own)), es[i].name);
    CentralHeaderBytes(es[i], own);
  }

  lemma StartIsSigned(es: seq<Stored>)
    requires Fits(es) && es != []
    ensures Signed(Archive(es), 0, 0x03, 0x04)
  {
    assert es[..0] == [];
    LocalHeaderAt(es, 0, 0, 30, 30 + |es[0].name|);
    assert Archive(es)[0..4] == Archive(es)[0..30][..4];
  }

  lemma EndIsSigned(es: seq<Stored>)
    ensures |Archive(es)| >= 22 && Signed(Archive(es), |Archive(es)| - 22, 0x05, 0x06)
  {
    var end := LocalsSize(es) + CentralsSize(es);
    ArchiveParts(es);
    SignatureBytes();
    SignatureReads(Archive(es), end, end + 22, EndFields(|es|, CentralsSize(es), LocalsSize(es)), 0x05, 0x06);
  }

  /** 76 bytes of headers per entry, the name twice, the data once. */
  function EntriesLength(es: seq<Stored>): nat
    decreases |es|
  {
    if es == [] then 0 else 76 + 2 * |es[0].name| + |es[0].data| + EntriesLength(es[1..])
  }

  lemma {:induction false} SizesAdd(es: seq<Stored>)
    ensures LocalsSize(es) + CentralsSize(es) == EntriesLength(es)
    decreases |es|
  {
    if es != [] {
      SizesAdd(es[1..]);
    }
  }

  lemma ArchiveLength(es: seq<Stored>)
    ensures |Archive(es)| == 22 + EntriesLength(es)
  {
    ArchiveParts(es);
    SizesAdd(es);
  }
}
