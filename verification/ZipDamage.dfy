/**
 What the checksums are for: bytes of a written archive that are overwritten inside the data of an
 entry.
 */
module ZipDamage {
  import opened Results
  import opened Bytes
  import opened ZipStore
  import Records = RecordFields
  import Layout = ZipLayout
  import Reader = ZipReader

  /** `s` with the bytes from `at` on replaced by `y`. */
  function Overwritten(s: seq<Byte>, at: nat, y: seq<Byte>): (r: seq<Byte>)
    requires at + |y| <= |s|
    ensures |r| == |s|
  {
    s[..at] + y + s[at + |y|..]
  }

  lemma OverwrittenInside(a: seq<Byte>, b: seq<Byte>, c: seq<Byte>, at: nat, y: seq<Byte>)
    requires at + |y| <= |b|
    ensures Overwritten(a + b + c, |a| + at, y) == a + Overwritten(b, at, y) + c
  {
  }

  lemma OverwrittenBehind(a: seq<Byte>, b: seq<Byte>, at: nat, y: seq<Byte>)
    requires at + |y| <= |b|
    ensures Overwritten(a + b, |a| + at, y) == a + Overwritten(b, at, y)
  {
  }

  lemma OverwrittenFront(a: seq<Byte>, b: seq<Byte>, c: seq<Byte>, at: nat, y: seq<Byte>)
    requires at + |y| <= |a|
    ensures Overwritten(a + b + c, at, y) == Overwritten(a, at, y) + b + c
  {
  }

  // ---------------------------------------------------------------------------------------
  // Entries and bytes
  // ---------------------------------------------------------------------------------------

  /** Where the data of entry `k` starts in the file. */
  function DataOffset(ss: seq<Layout.Stored>, k: nat): nat
    requires k < |ss|
  {
    Reader.LocalOffset(ss, k) + 30 + |ss[k].name|
  }

  function DamagedEntry(e: Layout.Stored, j: nat, y: seq<Byte>): Layout.Stored
    requires j + |y| <= |e.data|
  {
    e.(data := Overwritten(e.data, j, y))
  }

  /** Entry `k` with part of its data replaced, and the checksum left as it was. */
  function Damaged(ss: seq<Layout.Stored>, k: nat, j: nat, y: seq<Byte>): (tt: seq<Layout.Stored>)
    requires k < |ss| && j + |y| <= |ss[k].data|
    ensures |tt| == |ss|
  {
    ss[k := DamagedEntry(ss[k], j, y)]
  }

  lemma DamagedRegion(e: Layout.Stored, j: nat, y: seq<Byte>, rest: seq<Byte>)
    requires j + |y| <= |e.data|
    ensures |Reader.LocalRegion(e)| == 30 + |e.name| + |e.data|
    ensures Reader.LocalRegion(DamagedEntry(e, j, y)) + rest
      == Overwritten(Reader.LocalRegion(e) + rest, 30 + |e.name| + j, y)
  {
    Reader.HeaderLengths(e, 0);
    var damaged, header := DamagedEntry(e, j, y), Records.Encode(Layout.LocalFields(e)) + e.name;
    assert Layout.LocalFields(damaged) == Layout.LocalFields(e);
    assert Reader.LocalRegion(e) == header + e.data && Reader.LocalRegion(damaged) == header + damaged.data;
    OverwrittenInside(header, e.data, rest, j, y);
  }

  lemma DamagedFirst(ss: seq<Layout.Stored>, j: nat, y: seq<Byte>)
    requires ss != [] && j + |y| <= |ss[0].data|
    ensures 30 + |ss[0].name| + j + |y| <= |Layout.Locals(ss)|
    ensures Layout.Locals(Damaged(ss, 0, j, y)) == Overwritten(Layout.Locals(ss), 30 + |ss[0].name| + j, y)
  {
    var tt := Damaged(ss, 0, j, y);
    assert tt[1..] == ss[1..] && tt[0] == DamagedEntry(ss[0], j, y);
    DamagedRegion(ss[0], j, y, Layout.Locals(ss[1..]));
  }

  lemma LocalsHead(ss: seq<Layout.Stored>)
    requires ss != []
    ensures |Reader.LocalRegion(ss[0])| == Layout.LocalSize(ss[0])
    ensures Layout.Locals(ss) == Reader.LocalRegion(ss[0]) + Layout.Locals(ss[1..])
  {
    Reader.HeaderLengths(ss[0], 0);
  }

  lemma DamagedBehind(ss: seq<Layout.Stored>, tt: seq<Layout.Stored>, y: seq<Byte>, at: nat)
    requires ss != [] && tt != [] && tt[0] == ss[0] && at + |y| <= |Layout.Locals(ss[1..])|
    requires Layout.Locals(tt[1..]) == Overwritten(Layout.Locals(ss[1..]), at, y)
    ensures Layout.LocalSize(ss[0]) + at + |y| <= |Layout.Locals(ss)|
    ensures Layout.Locals(tt) == Overwritten(Layout.Locals(ss), Layout.LocalSize(ss[0]) + at, y)
  {
    LocalsHead(ss);
    LocalsHead(tt);
    OverwrittenBehind(Reader.LocalRegion(ss[0]), Layout.Locals(ss[1..]), at, y);
  }

  lemma {:induction false} DamagedLocals(ss: seq<Layout.Stored>, k: nat, j: nat, y: seq<Byte>, at: nat)
    requires k < |ss| && j + |y| <= |ss[k].data| && at == DataOffset(ss, k) + j
    ensures at + |y| <= |Layout.Locals(ss)|
    ensures Layout.Locals(Damaged(ss, k, j, y)) == Overwritten(Layout.Locals(ss), at, y)
    decreases k
  {
    if k == 0 {
      assert ss[..0] == [];
      DamagedFirst(ss, j, y);
    } else {
      var tt, before := Damaged(ss, k, j, y), at - Layout.LocalSize(ss[0]);
      Reader.OffsetsBehind(ss, k);
      assert tt[1..] == Damaged(ss[1..], k - 1, j, y);
      DamagedLocals(ss[1..], k - 1, j, y, before);
      DamagedBehind(ss, tt, y, before);
    }
  }

  predicate SameButData(ss: seq<Layout.Stored>, tt: seq<Layout.Stored>) {
    && |ss| == |tt|
    && forall i :: 0 <= i < |ss| ==>
         ss[i].name == tt[i].name && |ss[i].data| == |tt[i].data| && ss[i].crc == tt[i].crc
  }

  /** The directory holds no data, and the sizes are the same. */
  lemma {:induction false} SameDirectory(ss: seq<Layout.Stored>, tt: seq<Layout.Stored>, offset: nat)
    requires SameButData(ss, tt)
    ensures Layout.Centrals(ss, offset) == Layout.Centrals(tt, offset)
    ensures Layout.LocalsSize(ss) == Layout.LocalsSize(tt) && Layout.CentralsSize(ss) == Layout.CentralsSize(tt)
    ensures Layout.NamesFit(ss) == Layout.NamesFit(tt)
    decreases |ss|
  {
    if ss != [] {
      assert Layout.CentralFields(ss[0], offset) == Layout.CentralFields(tt[0], offset);
      SameDirectory(ss[1..], tt[1..], offset + Layout.LocalSize(ss[0]));
    }
  }

  /** Overwriting bytes of the file inside the data of entry `k` is overwriting them in the entry. */
  lemma DamagedArchive(ss: seq<Layout.Stored>, k: nat, j: nat, y: seq<Byte>, at: nat)
    requires k < |ss| && j + |y| <= |ss[k].data| && at == DataOffset(ss, k) + j
    ensures at + |y| <= |Layout.Archive(ss)|
    ensures Overwritten(Layout.Archive(ss), at, y) == Layout.Archive(Damaged(ss, k, j, y))
    ensures Layout.Fits(ss) ==> Layout.Fits(Damaged(ss, k, j, y))
  {
    DamagedLocals(ss, k, j, y, at);
    SameDirectory(ss, Damaged(ss, k, j, y), 0);
    var end := Records.Encode(Layout.EndFields(|ss|, Layout.CentralsSize(ss), Layout.LocalsSize(ss)));
    OverwrittenFront(Layout.Locals(ss), Layout.Centrals(ss, 0), end, at, y);
  }

  // ---------------------------------------------------------------------------------------
  // Detection
  // ---------------------------------------------------------------------------------------

  lemma ChecksumTells(data: seq<Byte>, j: nat, y: seq<Byte>)
    requires j + |y| <= |data| && |y| <= 4 && Overwritten(data, j, y) != data
    ensures CrcValue(Overwritten(data, j, y)) != CrcValue(data)
  {
    var prefix, x, suffix := data[..j], data[j..j + |y|], data[j + |y|..];
    assert data == prefix + x + suffix;
    CrcValueDetects(prefix, x, y, suffix);
  }

  /**
   Up to four consecutive bytes of the written file, inside the data of any entry, are overwritten.
   Exactly if that changes anything, the file is no longer read as an archive at all.
   */
  lemma DamageIsDetected(es: seq<Entry>, file: seq<Byte>, k: nat, j: nat, y: seq<Byte>, at: nat)
    requires Fits(es) && file == Layout.Archive(WithChecksums(es))
    requires k < |es| && j + |y| <= |es[k].data| && |y| <= 4
    requires at == DataOffset(WithChecksums(es), k) + j
    ensures at + |y| <= |file|
    ensures ReadZip(Overwritten(file, at, y)) == None <==> Overwritten(file, at, y) != file
  {
    var ss := WithChecksums(es);
    var tt := Damaged(ss, k, j, y);
    DamagedArchive(ss, k, j, y, at);
    RoundTrip(es);
    if tt[k].data == es[k].data {
      assert tt == ss;
    } else {
      Reader.StoredRoundTrip(tt);
      ChecksumTells(es[k].data, j, y);
      assert tt[k].crc != CrcValue(tt[k].data);
    }
  }
}
