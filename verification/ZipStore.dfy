/**
 `zipStore` and `buildAttachmentZip` of packages/notice-drafting/src/export.ts: the layout of
 ZipLayout with the CRC-32 of each entry's data, and the reader that also checks it.
 */
module ZipStore {
  import opened Results
  import opened Bytes
  import Layout = ZipLayout
  import Reader = ZipReader

  datatype Entry = Entry(name: seq<Byte>, data: seq<Byte>)

  function WithChecksum(e: Entry): Layout.Stored {
    Layout.Stored(e.name, e.data, CrcValue(e.data))
  }

  function WithChecksums(es: seq<Entry>): (ss: seq<Layout.Stored>)
    ensures |ss| == |es|
  {
    seq(|es|, i requires 0 <= i < |es| => WithChecksum(es[i]))
  }

  /** Every size and offset fits the field it is written to. */
  predicate Fits(es: seq<Entry>) {
    Layout.Fits(WithChecksums(es))
  }

  method ComputeChecksum(e: Entry) returns (s: Layout.Stored)
    ensures s == WithChecksum(e)
  {
    var crc := ComputeCrcValue(e.data);
    s := Layout.Stored(e.name, e.data, crc);
  }

  lemma ChecksumNext(all: seq<Layout.Stored>, done: seq<Layout.Stored>, i: nat, s: Layout.Stored)
    requires i < |all| && done == all[..i] && s == all[i]
    ensures done + [s] == all[..i + 1]
  {
  }

  method ComputeChecksums(entries: seq<Entry>) returns (ss: seq<Layout.Stored>)
    ensures ss == WithChecksums(entries)
  {
    ss := [];
    ghost var all := WithChecksums(entries);
    for i := 0 to |entries|
      invariant ss == all[..i]
    {
      var s := ComputeChecksum(entries[i]);
      ChecksumNext(all, ss, i, s);
      ss := ss + [s];
    }
  }

  lemma Written(es: seq<Entry>, file: seq<Byte>)
    requires Fits(es) && file == Layout.Archive(WithChecksums(es))
    ensures ReadZip(file) == Some(es) && |file| == 22 + Reader.EntriesLength(WithChecksums(es))
    ensures Reader.Signed(file, |file| - 22, 0x05, 0x06) && (es != [] ==> Reader.Signed(file, 0, 0x03, 0x04))
  {
    RoundTrip(es);
    Reader.ArchiveLength(WithChecksums(es));
    Reader.EndIsSigned(WithChecksums(es));
    if es != [] {
      Reader.StartIsSigned(WithChecksums(es));
    }
  }

  method WriteZip(entries: seq<Entry>) returns (r: Result<seq<Byte>, Layout.ExportError>)
    ensures r.Ok? <==> Fits(entries)
    ensures r.Ok? ==> ReadZip(r.value) == Some(entries)
    ensures r.Ok? ==> |r.value| == 22 + Reader.EntriesLength(WithChecksums(entries))
    ensures r.Ok? ==> Reader.Signed(r.value, |r.value| - 22, 0x05, 0x06)
    ensures r.Ok? && entries != [] ==> Reader.Signed(r.value, 0, 0x03, 0x04)
    ensures r.Err? ==> r.error == Layout.RangeError
  {
    var ss := ComputeChecksums(entries);
    r := Layout.WriteStored(ss);
    if r.Ok? {
      Written(entries, r.value);
    }
  }

  // ---------------------------------------------------------------------------------------
  // Reading with checksums
  // ---------------------------------------------------------------------------------------

  function WithoutChecksums(ss: seq<Layout.Stored>): (es: seq<Entry>)
    ensures |es| == |ss|
  {
    seq(|ss|, i requires 0 <= i < |ss| => Entry(ss[i].name, ss[i].data))
  }

  predicate ChecksumsAgree(ss: seq<Layout.Stored>) {
    forall i :: 0 <= i < |ss| ==> ss[i].crc == CrcValue(ss[i].data)
  }

  /** The entries of a well-formed archive whose checksums all agree with the data. */
  function ReadZip(file: seq<Byte>): Option<seq<Entry>> {
    match Reader.ReadStored(file)
    case None => None
    case Some(ss) => if ChecksumsAgree(ss) then Some(WithoutChecksums(ss)) else None
  }

  lemma OwnChecksumsAgree(es: seq<Entry>)
    ensures ChecksumsAgree(WithChecksums(es))
  {
  }

  lemma ChecksumsAside(es: seq<Entry>)
    ensures WithoutChecksums(WithChecksums(es)) == es
  {
  }

  lemma RoundTrip(es: seq<Entry>)
    requires Fits(es)
    ensures ReadZip(Layout.Archive(WithChecksums(es))) == Some(es)
  {
    Reader.StoredRoundTrip(WithChecksums(es));
    OwnChecksumsAgree(es);
    ChecksumsAside(es);
  }

  // ---------------------------------------------------------------------------------------
  // Attachment archives
  // ---------------------------------------------------------------------------------------

  const DOT: Byte := 0x2e
  const SLASH: Byte := 0x2f
  const BACKSLASH: Byte := 0x5c

  /** The path is rejected: it contains "..", starts with "/", or contains a backslash. */
  predicate Traverses(name: seq<Byte>) {
    || (exists i :: 0 <= i < |name| - 1 && name[i] == 0x2E && name[i + 1] == 0x2E)
    || (name != [] && name[0] == 0x2F)
    || 0x5C in name
  }

  method IncludesDotDot(name: seq<Byte>) returns (found: bool)
    ensures found <==> exists i :: 0 <= i < |name| - 1 && name[i] == 0x2E && name[i + 1] == 0x2E
  {
    var i := 0;
    while i + 1 < |name|
      invariant 0 <= i
      invariant forall k :: 0 <= k < i && k < |name| - 1 ==> !(name[k] == DOT && name[k + 1] == DOT)
    {
      if name[i] == DOT && name[i + 1] == DOT {
        return true;
      }
      i := i + 1;
    }
    return false;
  }

  method BuildAttachmentZip(files: seq<Entry>) returns (r: Result<seq<Byte>, Layout.ExportError>)
    ensures r == Err(Layout.PathTraversalRejected) <==> exists f :: f in files && Traverses(f.name)
    ensures r.Ok? ==> ReadZip(r.value) == Some(files)
    ensures (forall f :: f in files ==> !Traverses(f.name)) ==> (r.Ok? <==> Fits(files))
  {
    for i := 0 to |files|
      invariant forall k :: 0 <= k < i ==> !Traverses(files[k].name)
    {
      var name := files[i].name;
      var dots := IncludesDotDot(name);
      if dots || (name != [] && name[0] == SLASH) || BACKSLASH in name {
        assert files[i] in files && Traverses(files[i].name);
        return Err(Layout.PathTraversalRejected);
      }
    }
    r := WriteZip(files);
  }
}
