/**
 The byte layout of the store-only ZIP writer of packages/notice-drafting/src/export.ts, and a
 reader written from APPNOTE.TXT sections 4.3.7 (local header), 4.3.12 (central directory) and
 4.3.16 (end record).  The checksum is only a number here; ZipStore ties it to the data.
 */
module ZipLayout {
  import opened Results
  import opened Bytes
  import opened RecordFields

  /** A number for a 32-bit field. */
  type Number32 = n: nat | n <= MAX32

  /** An entry together with its checksum. */
  datatype Stored = Stored(name: seq<Byte>, data: seq<Byte>, crc: Number32)

  datatype ExportError = RangeError | PathTraversalRejected

  const LOCAL_SIGNATURE: nat := 0x0403_4b50
  const CENTRAL_SIGNATURE: nat := 0x0201_4b50
  const END_SIGNATURE: nat := 0x0605_4b50

  // ---------------------------------------------------------------------------------------
  // Layout
  // ---------------------------------------------------------------------------------------

  function LocalFields(e: Stored): Fields {
    U32(LOCAL_SIGNATURE, U16(20, U16(0, U16(0, U16(0, U16(0, U32(e.crc,
    U32(|e.data|, U32(|e.data|, U16(|e.name|, U16(0, Done)))))))))))
  }

  function CentralFields(e: Stored, offset: nat): Fields {
    U32(CENTRAL_SIGNATURE, U16(20, U16(20, U16(0, U16(0, U16(0, U16(0, U32(e.crc,
    U32(|e.data|, U32(|e.data|, U16(|e.name|, U16(0, U16(0, U16(0, U16(0, U32(0, U32(offset, Done)))))))))))))))))
  }

  function EndFields(count: nat, size: nat, offset: nat): Fields {
    U32(END_SIGNATURE, U16(0, U16(0, U16(count, U16(count, U32(size, U32(offset, U16(0, Done))))))))
  }

  function LocalSize(e: Stored): nat {
    30 + |e.name| + |e.data|
  }

  /** Length of the local regions of all entries. */
  function LocalsSize(es: seq<Stored>): nat
    decreases |es|
  {
    if es == [] then 0 else LocalSize(es[0]) + LocalsSize(es[1..])
  }

  function CentralsSize(es: seq<Stored>): nat
    decreases |es|
  {
    if es == [] then 0 else 46 + |es[0].name| + CentralsSize(es[1..])
  }

  /** The headers of an entry are written without error. */
  predicate EntryFits(e: Stored, offset: nat) {
    |e.name| <= MAX16 && |e.data| <= MAX32 && offset <= MAX32
  }

  predicate NamesFit(es: seq<Stored>)
    decreases |es|
  {
    es != [] ==> |es[0].name| <= MAX16 && NamesFit(es[1..])
  }

  /** Every number that goes into a 16- or 32-bit field is small enough for it. */
  predicate Fits(es: seq<Stored>) {
    && |es| <= MAX16
    && NamesFit(es)
    && LocalsSize(es) <= MAX32
    && CentralsSize(es) <= MAX32
  }

  function Locals(es: seq<Stored>): seq<Byte>
    decreases |es|
  {
    if es == [] then [] else Encode(LocalFields(es[0])) + es[0].name + es[0].data + Locals(es[1..])
  }

  function Centrals(es: seq<Stored>, offset: nat): seq<Byte>
    decreases |es|
  {
    if es == [] then []
    else Encode(CentralFields(es[0], offset)) + es[0].name + Centrals(es[1..], offset + LocalSize(es[0]))
  }

  function Archive(es: seq<Stored>): seq<Byte> {
    Locals(es) + Centrals(es, 0) + Encode(EndFields(|es|, CentralsSize(es), LocalsSize(es)))
  }

  // ---------------------------------------------------------------------------------------
  // The writer
  // ---------------------------------------------------------------------------------------

  /** Copies `bytes` into the buffer at `at`. */
  method CopyInto(buf: array<Byte>, at: nat, bytes: seq<Byte>)
    requires at + |bytes| <= buf.Length
    modifies buf
    ensures buf[..at + |bytes|] == old(buf[..at]) + bytes
  {
    forall i | 0 <= i < |bytes| {
      buf[at + i] := bytes[i];
    }
  }

  /**
   Writes one number behind the bytes already there; throws when it does not fit, as Node's
   `writeUInt16LE` (width 2) and `writeUInt32LE` (width 4) do.
   */
  method WriteUIntLE(buf: array<Byte>, value: nat, width: nat, at: nat) returns (r: Outcome<ExportError>)
    requires at + width <= buf.Length
    modifies buf
    ensures r.Pass? <==> value < Limit(width)
    ensures r.Pass? ==> buf[..at + width] == old(buf[..at]) + LittleEndian(width, value)
    ensures r.Fail? ==> r.error == RangeError
  {
    if value >= Limit(width) {
      return Fail(RangeError);
    }
    CopyInto(buf, at, LittleEndian(width, value));
    return Pass;
  }

  lemma EncodeNext(done: seq<Byte>, todo: Fields)
    requires todo.Field?
    ensures done + Encode(todo) == done + LittleEndian(todo.width, todo.value) + Encode(todo.rest)
  {
  }

  /** A header buffer: the fields one after the other, then the name. */
  method FillHeader(size: nat, fields: Fields, name: seq<Byte>) returns (r: Result<seq<Byte>, ExportError>)
    requires size == TotalWidth(fields)
    ensures r.Ok? <==> FieldsFit(fields)
    ensures r.Ok? ==> |r.value| == size + |name| && r.value == Encode(fields) + name
    ensures r.Err? ==> r.error == RangeError
  {
    var buf := new Byte[size + |name|];
    var at: nat := 0;
    var todo := fields;
    ghost var done: seq<Byte> := [];
    while todo.Field?
      invariant at + TotalWidth(todo) == size
      invariant buf[..at] == done
      invariant done + Encode(todo) == Encode(fields)
      invariant FieldsFit(fields) <==> FieldsFit(todo)
      decreases todo
    {
      EncodeNext(done, todo);
      done := done + LittleEndian(todo.width, todo.value);
      :- WriteUIntLE(buf, todo.value, todo.width, at);
      at := at + todo.width;
      todo := todo.rest;
    }
    assert done == Encode(fields);
    CopyInto(buf, at, name);
    assert buf[..buf.Length] == buf[..];
    return Ok(buf[..]);
  }

  /** One more field in front: the width grows by it, and it must fit as well. */
  lemma Prepend(width: nat, value: nat, rest: Fields)
    ensures TotalWidth(Field(width, value, rest)) == width + TotalWidth(rest)
    ensures FieldsFit(Field(width, value, rest)) <==> value < Limit(width) && FieldsFit(rest)
  {
  }

  lemma LocalTable(e: Stored)
    ensures TotalWidth(LocalFields(e)) == 30
    ensures FieldsFit(LocalFields(e)) <==> |e.name| <= MAX16 && |e.data| <= MAX32
  {
    FieldLimits();
    var fs := LocalFields(e);
    var sizes := fs.rest.rest.rest.rest.rest.rest.rest;
    Prepend(2, 0, Done);
    Prepend(2, |e.name|, U16(0, Done));
    Prepend(4, |e.data|, sizes.rest.rest);
    Prepend(4, |e.data|, sizes.rest);
    Prepend(4, e.crc, sizes);
    var zeros := fs.rest.rest;
    Prepend(2, 0, zeros.rest.rest.rest.rest);
    Prepend(2, 0, zeros.rest.rest.rest);
    Prepend(2, 0, zeros.rest.rest);
    Prepend(2, 0, zeros.rest);
    Prepend(2, 20, zeros);
    Prepend(4, LOCAL_SIGNATURE, fs.rest);
  }

  lemma CentralTable(e: Stored, offset: nat)
    ensures TotalWidth(CentralFields(e, offset)) == 46
    ensures FieldsFit(CentralFields(e, offset)) <==> EntryFits(e, offset)
  {
    FieldLimits();
    var fs := CentralFields(e, offset);
    var sizes := fs.rest.rest.rest.rest.rest.rest.rest.rest;
    var blank := sizes.rest.rest.rest;
    Prepend(4, offset, Done);
    Prepend(4, 0, U32(offset, Done));
    Prepend(2, 0, blank.rest.rest.rest.rest);
    Prepend(2, 0, blank.rest.rest.rest);
    Prepend(2, 0, blank.rest.rest);
    Prepend(2, 0, blank.rest);
    Prepend(2, |e.name|, blank);
    Prepend(4, |e.data|, sizes.rest.rest);
    Prepend(4, |e.data|, sizes.rest);
    Prepend(4, e.crc, sizes);
    var zeros := fs.rest.rest.rest;
    Prepend(2, 0, zeros.rest.rest.rest.rest);
    Prepend(2, 0, zeros.rest.rest.rest);
    Prepend(2, 0, zeros.rest.rest);
    Prepend(2, 0, zeros.rest);
    Prepend(2, 20, zeros);
    Prepend(2, 20, fs.rest.rest);
    Prepend(4, CENTRAL_SIGNATURE, fs.rest);
  }

  lemma EndTable(count: nat, size: nat, offset: nat)
    ensures TotalWidth(EndFields(count, size, offset)) == 22
    ensures FieldsFit(EndFields(count, size, offset)) <==> count <= MAX16 && size <= MAX32 && offset <= MAX32
  {
    FieldLimits();
    var fs := EndFields(count, size, offset);
    var sizes := fs.rest.rest.rest.rest.rest;
    Prepend(2, 0, Done);
    Prepend(4, offset, sizes.rest.rest);
    Prepend(4, size, sizes.rest);
    Prepend(2, count, sizes);
    Prepend(2, count, fs.rest.rest.rest.rest);
    Prepend(2, 0, fs.rest.rest.rest);
    Prepend(2, 0, fs.rest.rest);
    Prepend(4, END_SIGNATURE, fs.rest);
  }

  /** The local and the central header of one entry. */
  method FillHeaders(e: Stored, offset: nat) returns (r: Result<(seq<Byte>, seq<Byte>), ExportError>)
    ensures r.Ok? <==> EntryFits(e, offset)
    ensures r.Ok? ==> |r.value.0| == 30 + |e.name| && r.value.0 == Encode(LocalFields(e)) + e.name
    ensures r.Ok? ==> |r.value.1| == 46 + |e.name| && r.value.1 == Encode(CentralFields(e, offset)) + e.name
    ensures r.Err? ==> r.error == RangeError
  {
    LocalTable(e);
    var local :- FillHeader(30, LocalFields(e), e.name);
    CentralTable(e, offset);
    var central :- FillHeader(46, CentralFields(e, offset), e.name);
    return Ok((local, central));
  }

  /** What the loop of the writer has laid out after `i` entries. */
  ghost predicate Written(es: seq<Stored>, i: nat, locals: seq<Byte>, centrals: seq<Byte>, offset: nat) {
    && i <= |es|
    && (NamesFit(es) <==> NamesFit(es[i..]))
    && |locals| == offset && LocalsSize(es) == offset + LocalsSize(es[i..])
    && CentralsSize(es) == |centrals| + CentralsSize(es[i..])
    && Locals(es) == locals + Locals(es[i..])
    && Centrals(es, 0) == centrals + Centrals(es[i..], offset)
  }

  lemma Associate(a: seq<Byte>, b: seq<Byte>, c: seq<Byte>, d: seq<Byte>)
    ensures a + (b + c + d) == a + b + c + d
    ensures c == [] ==> a + (b + d) == a + b + d
  {
  }

  lemma WrittenNext(es: seq<Stored>, i: nat, locals: seq<Byte>, centrals: seq<Byte>, offset: nat,
                    local: seq<Byte>, central: seq<Byte>)
    requires i < |es| && Written(es, i, locals, centrals, offset) && EntryFits(es[i], offset)
    requires |local| == 30 + |es[i].name| && local == Encode(LocalFields(es[i])) + es[i].name
    requires |central| == 46 + |es[i].name| && central == Encode(CentralFields(es[i], offset)) + es[i].name
    ensures Written(es, i + 1, locals + local + es[i].data, centrals + central, offset + LocalSize(es[i]))
  {
    assert es[i..][1..] == es[i + 1..];
    var restLocals, restCentrals := Locals(es[i + 1..]), Centrals(es[i + 1..], offset + LocalSize(es[i]));
    Associate(locals, local, es[i].data, restLocals);
    Associate(centrals, central, [], restCentrals);
  }

  lemma TooLarge(es: seq<Stored>, i: nat, locals: seq<Byte>, centrals: seq<Byte>, offset: nat)
    requires i < |es| && Written(es, i, locals, centrals, offset) && !EntryFits(es[i], offset)
    ensures !Fits(es)
  {
    assert es[i..][0] == es[i];
  }

  lemma WrittenAll(es: seq<Stored>, locals: seq<Byte>, centrals: seq<Byte>, offset: nat)
    requires Written(es, |es|, locals, centrals, offset)
    ensures |locals| == LocalsSize(es) && |centrals| == CentralsSize(es)
    ensures locals == Locals(es) && centrals == Centrals(es, 0)
    ensures NamesFit(es)
  {
    assert es[|es|..] == [];
  }

  /** The whole writer: succeeds exactly when every field fits, and then lays out `Archive`. */
  method WriteStored(entries: seq<Stored>) returns (r: Result<seq<Byte>, ExportError>)
    ensures r.Ok? <==> Fits(entries)
    ensures r.Ok? ==> r.value == Archive(entries)
    ensures r.Err? ==> r.error == RangeError
  {
    var localParts, centralParts := [], [];
    var offset: nat, i: nat := 0, 0;
    assert entries[0..] == entries;
    while i < |entries|
      invariant Written(entries, i, localParts, centralParts, offset)
    {
      var entry := entries[i];
      var headers := FillHeaders(entry, offset);
      if headers.Err? {
        TooLarge(entries, i, localParts, centralParts, offset);
        return Err(headers.error);
      }
      var (local, central) := headers.value;
      WrittenNext(entries, i, localParts, centralParts, offset, local, central);
      localParts := localParts + local + entry.data;
      centralParts := centralParts + central;
      offset := offset + |local| + |entry.data|;
      i := i + 1;
    }
    WrittenAll(entries, localParts, centralParts, offset);
    EndTable(|entries|, |centralParts|, |localParts|);
    var end :- FillHeader(22, EndFields(|entries|, |centralParts|, |localParts|), []);
    r := Ok(localParts + centralParts + end);
  }
}
