/** Fixed-layout records: unsigned little-endian fields, one after the other. */
module RecordFields {
  import opened Bytes
  import opened Slices

  datatype Fields = Done | Field(width: nat, value: nat, rest: Fields)

  function U16(value: nat, rest: Fields): Fields {
    Field(2, value, rest)
  }

  function U32(value: nat, rest: Fields): Fields {
    Field(4, value, rest)
  }

  function Encode(fs: Fields): seq<Byte> {
    match fs
    case Done => []
    case Field(width, value, rest) => LittleEndian(width, value) + Encode(rest)
  }

  function TotalWidth(fs: Fields): nat {
    match fs
    case Done => 0
    case Field(width, _, rest) => width + TotalWidth(rest)
  }

  predicate FieldsFit(fs: Fields) {
    fs.Field? ==> fs.value < Limit(fs.width) && FieldsFit(fs.rest)
  }

  lemma {:induction false} EncodeSize(fs: Fields)
    ensures |Encode(fs)| == TotalWidth(fs)
  {
    if fs.Field? {
      EncodeSize(fs.rest);
    }
  }

  /** The number stored in `width` bytes at `at`. */
  function Get(s: seq<Byte>, at: nat, width: nat): nat
    requires at + width <= |s|
    decreases width, at
  {
    if width == 0 then 0 else (var low: nat := s[at]; low + 256 * Get(s, at + 1, width - 1))
  }

  lemma {:induction false} GetIsNumber(s: seq<Byte>, at: nat, width: nat)
    requires at + width <= |s|
    ensures Get(s, at, width) == Number(s[at..at + width])
    decreases width
  {
    if width > 0 {
      assert s[at..at + width][1..] == s[at + 1..at + width];
      GetIsNumber(s, at + 1, width - 1);
    }
  }

  /** Reads a record by its table of widths (the values of the table do not matter). */
  function Decode(s: seq<Byte>, at: nat, table: Fields): (v: seq<nat>)
    decreases table, at
  {
    match table
    case Done => []
    case Field(width, _, rest) =>
      if at + width > |s| then [] else [Get(s, at, width)] + Decode(s, at + width, rest)
  }

  function Values(fs: Fields): seq<nat> {
    match fs
    case Done => []
    case Field(_, value, rest) => [value] + Values(rest)
  }

  /** The value of field `k`, counting from 0. */
  function Nth(fs: Fields, k: nat): nat
    decreases k
  {
    if fs.Done? then 0 else if k == 0 then fs.value else Nth(fs.rest, k - 1)
  }

  lemma {:induction false} ValuesNth(fs: Fields, k: nat)
    requires k < |Values(fs)|
    ensures Values(fs)[k] == Nth(fs, k)
    decreases k
  {
    if k > 0 {
      ValuesNth(fs.rest, k - 1);
    }
  }

  /** Both records have `n` fields, of the same widths. */
  predicate SameTable(table: Fields, fs: Fields, n: nat)
    decreases n
  {
    if n == 0 then table.Done? && fs.Done?
    else table.Field? && fs.Field? && table.width == fs.width && SameTable(table.rest, fs.rest, n - 1)
  }

  /** Decoding by the table of widths gives back every value. */
  lemma {:induction false} DecodeEncode(s: seq<Byte>, at: nat, end: nat, table: Fields, fs: Fields, n: nat)
    requires SameTable(table, fs, n) && FieldsFit(fs)
    requires at <= end <= |s| && s[at..end] == Encode(fs)
    ensures Decode(s, at, table) == Values(fs) && |Values(fs)| == n
    decreases n
  {
    if n > 0 {
      Cut(s, at, end, LittleEndian(fs.width, fs.value), Encode(fs.rest));
      GetIsNumber(s, at, fs.width);
      NumberOfLittleEndian(fs.width, fs.value);
      DecodeEncode(s, at + fs.width, end, table.rest, fs.rest, n - 1);
    }
  }
}
