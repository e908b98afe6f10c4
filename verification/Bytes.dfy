/** Octets as numbers, little-endian fields, and the CRC-32 field over octets. */
module Bytes {
  import Crc32

  type Byte = b: nat | b < 256

  const MAX16: nat := 0xffff
  const MAX32: nat := 0xffff_ffff

  /** How many values a field of `width` bytes can hold. */
  function Limit(width: nat): (n: nat)
    ensures n > 0
  {
    if width == 0 then 1 else 256 * Limit(width - 1)
  }

  lemma FieldLimits()
    ensures Limit(2) == MAX16 + 1 && Limit(4) == MAX32 + 1
  {
    assert Limit(2) == 0x1_0000;
    assert Limit(3) == 0x100_0000;
  }

  /** The `width` low bytes of `n`, lowest first. */
  function LittleEndian(width: nat, n: nat): (s: seq<Byte>)
    ensures |s| == width
    decreases width
  {
    if width == 0 then [] else [n % 256] + LittleEndian(width - 1, n / 256)
  }

  function Number(s: seq<Byte>): (n: nat)
    ensures n < Limit(|s|)
    decreases |s|
  {
    if s == [] then 0 else (var low: nat := s[0]; low + 256 * Number(s[1..]))
  }

  lemma {:induction false} NumberOfLittleEndian(width: nat, n: nat)
    requires n < Limit(width)
    ensures Number(LittleEndian(width, n)) == n
    decreases width
  {
    if width > 0 {
      assert n / 256 < Limit(width - 1);
      NumberOfLittleEndian(width - 1, n / 256);
    }
  }

  lemma LowDigit(low: nat, high: nat)
    requires low < 256
    ensures (low + 256 * high) % 256 == low && (low + 256 * high) / 256 == high
  {
  }

  lemma {:induction false} LittleEndianOfNumber(s: seq<Byte>)
    ensures LittleEndian(|s|, Number(s)) == s
    decreases |s|
  {
    if s != [] {
      var low: nat, high := s[0], Number(s[1..]);
      LittleEndianOfNumber(s[1..]);
      LowDigit(low, high);
      assert LittleEndian(|s|, Number(s)) == [s[0]] + LittleEndian(|s| - 1, high);
    }
  }

  function Place(on: bool, mask: Crc32.Byte): Crc32.Byte {
    if on then mask else 0
  }

  function Assemble(b: seq<bool>): Crc32.Byte
    requires |b| == 8
  {
    Place(b[0], 0x01) | Place(b[1], 0x02) | Place(b[2], 0x04) | Place(b[3], 0x08)
    | Place(b[4], 0x10) | Place(b[5], 0x20) | Place(b[6], 0x40) | Place(b[7], 0x80)
  }

  function BitsOf(w: Crc32.Byte): (b: seq<bool>)
    ensures |b| == 8
  {
    [w & 0x01 != 0, w & 0x02 != 0, w & 0x04 != 0, w & 0x08 != 0,
     w & 0x10 != 0, w & 0x20 != 0, w & 0x40 != 0, w & 0x80 != 0]
  }

  function Power2(n: nat): (p: nat)
    ensures p > 0
  {
    if n == 0 then 1 else 2 * Power2(n - 1)
  }

  /** The binary digits of `x`, lowest first. */
  function Binary(x: nat, n: nat): (b: seq<bool>)
    ensures |b| == n
    decreases n
  {
    if n == 0 then [] else [x % 2 == 1] + Binary(x / 2, n - 1)
  }

  function Value(b: seq<bool>): (x: nat)
    ensures x < Power2(|b|)
    decreases |b|
  {
    if b == [] then 0 else (if b[0] then 1 else 0) + 2 * Value(b[1..])
  }

  lemma OctetRange()
    ensures Power2(8) == 256
  {
    assert Power2(4) == 16;
  }

  /** The octet as an 8-bit word. */
  function Widen(x: Byte): Crc32.Byte {
    Assemble(Binary(x, 8))
  }

  /** The 8-bit word as an octet. */
  function Narrow(w: Crc32.Byte): Byte {
    OctetRange();
    Value(BitsOf(w))
  }

  function ToWords(data: seq<Byte>): (w: seq<Crc32.Byte>)
    ensures |w| == |data|
  {
    seq(|data|, i requires 0 <= i < |data| => Widen(data[i]))
  }

  function FromWords(w: seq<Crc32.Byte>): (data: seq<Byte>)
    ensures |data| == |w|
  {
    seq(|w|, i requires 0 <= i < |w| => Narrow(w[i]))
  }

  /** The checksum of `data` as the number that goes into a 32-bit field. */
  function CrcValue(data: seq<Byte>): (n: nat)
    ensures n <= MAX32
  {
    FieldLimits();
    Number(FromWords(Crc32.WordBytes(Crc32.Checksum(ToWords(data)))))
  }

  method ComputeCrcValue(data: seq<Byte>) returns (n: nat)
    ensures n == CrcValue(data)
  {
    var crc := Crc32.ComputeCrc32(ToWords(data));
    n := Number(FromWords(Crc32.WordBytes(crc)));
  }

  lemma ToWordsInjective(x: seq<Byte>, y: seq<Byte>)
    requires ToWords(x) == ToWords(y)
    ensures x == y
  {
    forall i | 0 <= i < |x|
      ensures x[i] == y[i]
    {
      assert ToWords(x)[i] == ToWords(y)[i];
      WidenInjective(x[i], y[i]);
    }
  }

  lemma AssembledBits(b: seq<bool>)
    requires |b| == 8
    ensures BitsOf(Assemble(b)) == b
  {
  }

  lemma DisassembledWord(w: Crc32.Byte)
    ensures Assemble(BitsOf(w)) == w
  {
  }

  lemma {:induction false} ValueOfBinary(x: nat, n: nat)
    requires x < Power2(n)
    ensures Value(Binary(x, n)) == x
    decreases n
  {
    if n > 0 {
      ValueOfBinary(x / 2, n - 1);
    }
  }

  lemma NarrowWiden(x: Byte)
    ensures Narrow(Widen(x)) == x
  {
    AssembledBits(Binary(x, 8));
    OctetRange();
    ValueOfBinary(x, 8);
  }

  lemma WidenInjective(x: Byte, y: Byte)
    requires Widen(x) == Widen(y)
    ensures x == y
  {
    NarrowWiden(x);
    NarrowWiden(y);
  }

  lemma {:induction false} ValueInjective(a: seq<bool>, b: seq<bool>)
    requires |a| == |b| && Value(a) == Value(b)
    ensures a == b
    decreases |a|
  {
    if a != [] {
      ValueInjective(a[1..], b[1..]);
      assert a == [a[0]] + a[1..] && b == [b[0]] + b[1..];
    }
  }

  lemma NarrowInjective(v: Crc32.Byte, w: Crc32.Byte)
    requires Narrow(v) == Narrow(w)
    ensures v == w
  {
    ValueInjective(BitsOf(v), BitsOf(w));
    DisassembledWord(v);
    DisassembledWord(w);
  }

  lemma FromWordsInjective(x: seq<Crc32.Byte>, y: seq<Crc32.Byte>)
    requires FromWords(x) == FromWords(y)
    ensures x == y
  {
    forall i | 0 <= i < |x|
      ensures x[i] == y[i]
    {
      assert FromWords(x)[i] == FromWords(y)[i];
      NarrowInjective(x[i], y[i]);
    }
  }

  lemma CrcValueInjective(x: seq<Byte>, y: seq<Byte>)
    requires CrcValue(x) == CrcValue(y)
    ensures Crc32.Checksum(ToWords(x)) == Crc32.Checksum(ToWords(y))
  {
    var c, d := Crc32.Checksum(ToWords(x)), Crc32.Checksum(ToWords(y));
    LittleEndianOfNumber(FromWords(Crc32.WordBytes(c)));
    LittleEndianOfNumber(FromWords(Crc32.WordBytes(d)));
    FromWordsInjective(Crc32.WordBytes(c), Crc32.WordBytes(d));
    Crc32.WordBytesInjective(c, d);
  }

  lemma ToWordsAppend(x: seq<Byte>, y: seq<Byte>)
    ensures ToWords(x + y) == ToWords(x) + ToWords(y)
  {
  }

  /** Changing up to four consecutive bytes changes the checksum. */
  lemma CrcValueDetects(prefix: seq<Byte>, x: seq<Byte>, y: seq<Byte>, suffix: seq<Byte>)
    requires |x| == |y| <= 4 && x != y
    ensures CrcValue(prefix + x + suffix) != CrcValue(prefix + y + suffix)
  {
    ToWordsAppend(prefix + x, suffix);
    ToWordsAppend(prefix, x);
    ToWordsAppend(prefix + y, suffix);
    ToWordsAppend(prefix, y);
    if ToWords(x) == ToWords(y) {
      ToWordsInjective(x, y);
    }
    Crc32.FourByteChangeDetected(ToWords(prefix), ToWords(x), ToWords(y), ToWords(suffix));
    if CrcValue(prefix + x + suffix) == CrcValue(prefix + y + suffix) {
      CrcValueInjective(prefix + x + suffix, prefix + y + suffix);
    }
  }
}
