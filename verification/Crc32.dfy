/**
 The bitwise CRC-32 of packages/notice-drafting/src/export.ts on 32-bit words, and what the
 division theory of CrcDivision says about it.
 */
module Crc32 {
  import opened Folds
  import opened CrcDivision

  type Word = bv32
  type Byte = bv8

  const POLYNOMIAL: Word := 0xedb8_8320
  const ALL_ONES: Word := 0xffff_ffff

  /** The constant named by APPNOTE.TXT section 4.4.7. */
  const RESIDUE: Word := 0xdebb_20e3

  /** One round of the inner loop. */
  function BitStep(c: Word): Word {
    if c & 1 == 1 then (c >> 1) ^ POLYNOMIAL else c >> 1
  }

  function ByteStep(c: Word, b: Byte): Word {
    Iterate(BitStep, c ^ (b as Word), 8)
  }

  /** The register after the bytes of `data`, before the final complement. */
  function Register(data: seq<Byte>): Word {
    Fold(ByteStep, ALL_ONES, data)
  }

  function Checksum(data: seq<Byte>): Word {
    !Register(data)
  }

  lemma FoldNext<S, B>(step: (S, B) -> S, s: S, xs: seq<B>, i: nat)
    requires i < |xs|
    ensures Fold(step, s, xs[i..]) == Fold(step, step(s, xs[i]), xs[i + 1..])
  {
    assert xs[i..][1..] == xs[i + 1..];
  }

  /** The inner loop: eight rounds on the register that already holds the byte. */
  method EightBitSteps(mixed: Word) returns (c: Word)
    ensures c == Iterate(BitStep, mixed, 8)
  {
    c := mixed;
    var k := 0;
    while k < 8
      invariant 0 <= k <= 8
      invariant Iterate(BitStep, c, 8 - k) == Iterate(BitStep, mixed, 8)
    {
      c := if c & 1 == 1 then (c >> 1) ^ 0xedb8_8320 else c >> 1;
      k := k + 1;
    }
  }

  method ComputeCrc32(buf: seq<Byte>) returns (crc: Word)
    ensures crc == Checksum(buf)
  {
    var c: Word := !0;
    var i := 0;
    while i < |buf|
      invariant 0 <= i <= |buf|
      invariant Register(buf) == Fold(ByteStep, c, buf[i..])
    {
      FoldNext(ByteStep, c, buf, i);
      c := c ^ (buf[i] as Word);
      c := EightBitSteps(c);
      i := i + 1;
    }
    crc := !c;
  }

  // ---------------------------------------------------------------------------------------
  // Words as coefficient lists: the lowest bit is the highest power
  // ---------------------------------------------------------------------------------------

  predicate LowBit(c: Word) {
    c & 1 == 1
  }

  function Halve(c: Word): Word {
    c >> 1
  }

  function Xor(a: Word, b: Word): Word {
    a ^ b
  }

  function WordBits(c: Word): (s: Bits)
    ensures |s| == WIDTH
  {
    Digits(LowBit, Halve, c, WIDTH)
  }

  function ByteBits(b: Byte): (s: Bits)
    ensures |s| == 8
  {
    Digits(LowBit, Halve, b as Word, 8)
  }

  function MessageBits(data: seq<Byte>): Bits {
    Flatten(ByteBits, data)
  }

  /** The four bytes of a word as `writeUInt32LE` stores them. */
  function WordBytes(w: Word): (s: seq<Byte>)
    ensures |s| == 4
  {
    [(w & 0xff) as Byte, ((w >> 8) & 0xff) as Byte, ((w >> 16) & 0xff) as Byte, ((w >> 24) & 0xff) as Byte]
  }

  lemma LowBitXor(a: Word, b: Word)
    ensures LowBit(Xor(a, b)) == (LowBit(a) != LowBit(b))
  {
  }

  lemma HalveXor(a: Word, b: Word)
    ensures Halve(Xor(a, b)) == Xor(Halve(a), Halve(b))
  {
  }

  lemma LowBitAndHalveDetermine(a: Word, b: Word)
    requires LowBit(a) == LowBit(b) && Halve(a) == Halve(b)
    ensures a == b
  {
    assert a & 1 == 0 || a & 1 == 1;
    assert b & 1 == 0 || b & 1 == 1;
    assert a == ((a >> 1) << 1) | (a & 1);
    assert b == ((b >> 1) << 1) | (b & 1);
  }

  lemma Halve2(c: Word)
    ensures Iterate(Halve, c, 2) == c >> 2
  {
    assert Iterate(Halve, c, 2) == Iterate(Halve, Halve(c), 1) == Halve(Halve(c));
    assert (c >> 1) >> 1 == c >> 2;
  }

  lemma Halve4(c: Word)
    ensures Iterate(Halve, c, 4) == c >> 4
  {
    IterateAdd(Halve, c, 2, 2);
    Halve2(c);
    Halve2(c >> 2);
    assert (c >> 2) >> 2 == c >> 4;
  }

  lemma Halve8(c: Word)
    ensures Iterate(Halve, c, 8) == c >> 8
  {
    IterateAdd(Halve, c, 4, 4);
    Halve4(c);
    Halve4(c >> 4);
    assert (c >> 4) >> 4 == c >> 8;
  }

  lemma Halve16(c: Word)
    ensures Iterate(Halve, c, 16) == c >> 16
  {
    IterateAdd(Halve, c, 8, 8);
    Halve8(c);
    Halve8(c >> 8);
    assert (c >> 8) >> 8 == c >> 16;
  }

  lemma Halve32(c: Word)
    ensures Iterate(Halve, c, 32) == 0
  {
    IterateAdd(Halve, c, 16, 16);
    Halve16(c);
    Halve16(c >> 16);
    assert (c >> 16) >> 16 == 0;
  }

  lemma WordBitsInjective(a: Word, b: Word)
    requires WordBits(a) == WordBits(b)
    ensures a == b
  {
    forall x, y | LowBit(x) == LowBit(y) && Halve(x) == Halve(y)
      ensures x == y
    {
      LowBitAndHalveDetermine(x, y);
    }
    Halve32(a);
    Halve32(b);
    DigitsInjective(LowBit, Halve, a, b, WIDTH);
  }

  lemma XorIsDigitwise()
    ensures forall x, y :: LowBit(Xor(x, y)) == (LowBit(x) != LowBit(y))
    ensures forall x, y :: Halve(Xor(x, y)) == Xor(Halve(x), Halve(y))
  {
    forall x, y
      ensures LowBit(Xor(x, y)) == (LowBit(x) != LowBit(y))
      ensures Halve(Xor(x, y)) == Xor(Halve(x), Halve(y))
    {
      LowBitXor(x, y);
      HalveXor(x, y);
    }
  }

  lemma WordBitsDiffer(a: Word, b: Word)
    ensures WordBits(Xor(a, b)) == Differ(WordBits(a), WordBits(b))
  {
    XorIsDigitwise();
    DigitsXor(LowBit, Halve, Xor, a, b, WIDTH);
  }

  lemma DifferIsAdd(x: Bits, y: Bits)
    requires |x| == |y|
    ensures Differ(x, y) == Add(x, y)
  {
  }

  lemma WordBitsXor(a: Word, b: Word)
    ensures WordBits(a ^ b) == Add(WordBits(a), WordBits(b))
  {
    WordBitsDiffer(a, b);
    DifferIsAdd(WordBits(a), WordBits(b));
  }

  lemma {:induction false} ZeroDigits(n: nat)
    ensures Digits(LowBit, Halve, 0, n) == Zeros(n)
    decreases n
  {
    if n > 0 {
      assert (0 as Word) & 1 == 0 && (0 as Word) >> 1 == 0;
      ZeroDigits(n - 1);
    }
  }

  lemma WordBitsHalve(c: Word)
    ensures WordBits(Halve(c)) == WordBits(c)[1..] + [false]
    ensures WordBits(c)[0] == LowBit(c)
  {
    DigitsOfTail(LowBit, Halve, c, WIDTH);
    Halve32(c);
    ZeroIsEven();
  }

  lemma ZeroIsEven()
    ensures !LowBit(0)
  {
  }

  /** Eight digits read off by shifting. */
  function Octet(c: Word): (s: Bits)
    ensures |s| == 8
  {
    [c & 1 == 1, (c >> 1) & 1 == 1, (c >> 2) & 1 == 1, (c >> 3) & 1 == 1,
     (c >> 4) & 1 == 1, (c >> 5) & 1 == 1, (c >> 6) & 1 == 1, (c >> 7) & 1 == 1]
  }

  lemma Shifts(c: Word)
    ensures (c >> 1) >> 1 == c >> 2 && (c >> 2) >> 1 == c >> 3 && (c >> 3) >> 1 == c >> 4
    ensures (c >> 4) >> 1 == c >> 5 && (c >> 5) >> 1 == c >> 6 && (c >> 6) >> 1 == c >> 7
  {
  }

  lemma ByteDigits(c: Word)
    ensures Digits(LowBit, Halve, c, 8) == Octet(c)
  {
    Shifts(c);
    EightDigits(LowBit, Halve, c, c >> 1, c >> 2, c >> 3, c >> 4, c >> 5, c >> 6, c >> 7);
  }

  lemma SecondOctet(c: Word)
    ensures Iterate(Halve, c >> 8, 8) == c >> 16
  {
    Halve8(c >> 8);
    assert (c >> 8) >> 8 == c >> 16;
  }

  lemma ThirdOctet(c: Word)
    ensures Iterate(Halve, c >> 16, 8) == c >> 24
  {
    Halve8(c >> 16);
    assert (c >> 16) >> 8 == c >> 24;
  }

  lemma WordDigits(c: Word)
    ensures WordBits(c) == Digits(LowBit, Halve, c, 8) + Digits(LowBit, Halve, c >> 8, 8)
      + Digits(LowBit, Halve, c >> 16, 8) + Digits(LowBit, Halve, c >> 24, 8)
  {
    Halve8(c);
    SecondOctet(c);
    ThirdOctet(c);
    FourOctets(LowBit, Halve, c, c >> 8, c >> 16, c >> 24);
  }

  lemma WordBitsOctets(c: Word)
    ensures WordBits(c) == Octet(c) + Octet(c >> 8) + Octet(c >> 16) + Octet(c >> 24)
  {
    WordDigits(c);
    ByteDigits(c);
    ByteDigits(c >> 8);
    ByteDigits(c >> 16);
    ByteDigits(c >> 24);
  }

  lemma PolynomialOctets()
    ensures Octet(POLYNOMIAL) == [false, false, false, false, false, true, false, false]
    ensures Octet(POLYNOMIAL >> 8) == [true, true, false, false, false, false, false, true]
    ensures Octet(POLYNOMIAL >> 16) == [false, false, false, true, true, true, false, true]
    ensures Octet(POLYNOMIAL >> 24) == [true, false, true, true, false, true, true, true]
  {
  }

  lemma PolynomialIsGenerator()
    ensures WordBits(POLYNOMIAL) == Generator()
  {
    WordBitsOctets(POLYNOMIAL);
    PolynomialOctets();
    GeneratorCoefficients();
  }

  lemma BitStepClocks(c: Word)
    ensures WordBits(BitStep(c)) == Clock(WordBits(c))
  {
    WordBitsHalve(c);
    if LowBit(c) {
      PolynomialIsGenerator();
      WordBitsXor(Halve(c), POLYNOMIAL);
    }
  }

  lemma ByteBitsPadded(b: Byte)
    ensures WordBits(b as Word) == ByteBits(b) + Zeros(24)
  {
    DigitsSplit(LowBit, Halve, b as Word, 8, 24);
    Halve8(b as Word);
    assert (b as Word) >> 8 == 0;
    ZeroDigits(24);
  }

  lemma ByteXorAdds(c: Word, b: Byte)
    ensures WordBits(c ^ (b as Word)) == Add(WordBits(c), ByteBits(b))
  {
    WordBitsXor(c, b as Word);
    ByteBitsPadded(b);
    AddZeros(WordBits(c), ByteBits(b), 24);
  }

  lemma AddZeros(x: Bits, y: Bits, n: nat)
    requires |y| + n == |x|
    ensures Add(x, y + Zeros(n)) == Add(x, y)
  {
  }

  lemma ByteStepFeeds(c: Word, b: Byte)
    ensures WordBits(ByteStep(c, b)) == Feed(WordBits(c), ByteBits(b))
  {
    BitStepsClock(c ^ (b as Word), 8);
    ByteXorAdds(c, b);
    FeedAtOnce(WordBits(c), ByteBits(b));
  }

  lemma BitStepsClock(c: Word, n: nat)
    ensures WordBits(Iterate(BitStep, c, n)) == Clocks(WordBits(c), n)
  {
    forall x
      ensures WordBits(BitStep(x)) == Clock(WordBits(x))
    {
      BitStepClocks(x);
    }
    IterateSimulates(BitStep, Clock, WordBits, c, n);
  }

  // ---------------------------------------------------------------------------------------
  // The checksum of whole inputs
  // ---------------------------------------------------------------------------------------

  lemma {:induction false} FoldFeeds<S(!new), B(!new)>(
    step: (S, B) -> S, view: S -> Bits, expand: B -> Bits, s: S, xs: seq<B>)
    requires forall t :: |view(t)| == WIDTH
    requires forall t, b :: view(step(t, b)) == Feed(view(t), expand(b))
    ensures view(Fold(step, s, xs)) == Feed(view(s), Flatten(expand, xs))
    decreases |xs|
  {
    if xs != [] {
      FoldFeeds(step, view, expand, step(s, xs[0]), xs[1..]);
      FeedAppend(view(s), expand(xs[0]), Flatten(expand, xs[1..]));
    }
  }

  lemma ByteStepsFeed()
    ensures forall t, b :: WordBits(ByteStep(t, b)) == Feed(WordBits(t), ByteBits(b))
  {
    forall t, b
      ensures WordBits(ByteStep(t, b)) == Feed(WordBits(t), ByteBits(b))
    {
      ByteStepFeeds(t, b);
    }
  }

  lemma AllOnesBits()
    ensures WordBits(ALL_ONES) == Ones(WIDTH)
  {
    WordBitsOctets(ALL_ONES);
  }

  lemma RegisterFeeds(data: seq<Byte>)
    ensures WordBits(Register(data)) == Feed(Ones(WIDTH), MessageBits(data))
  {
    ByteStepsFeed();
    AllOnesBits();
    FoldFeeds(ByteStep, WordBits, ByteBits, ALL_ONES, data);
  }

  /** The checksum is the complemented remainder of polynomial division. */
  lemma ChecksumIsRemainder(data: seq<Byte>)
    ensures WordBits(!Checksum(data)) == Remainder(Add(MessageBits(data) + Zeros(WIDTH), Ones(WIDTH)))
  {
    RegisterFeeds(data);
    FeedDivides(Ones(WIDTH), MessageBits(data));
    ComplementTwice(Register(data));
  }

  lemma ComplementTwice(c: Word)
    ensures !!c == c
  {
  }

  lemma {:induction false} MessageBitsInjective(x: seq<Byte>, y: seq<Byte>)
    requires |x| == |y| && MessageBits(x) == MessageBits(y)
    ensures x == y
    decreases |x|
  {
    if x != [] {
      assert ByteBits(x[0]) == MessageBits(x)[..8] == MessageBits(y)[..8] == ByteBits(y[0]);
      assert MessageBits(x[1..]) == MessageBits(x)[8..] == MessageBits(y)[8..] == MessageBits(y[1..]);
      ByteBitsInjective(x[0], y[0]);
      MessageBitsInjective(x[1..], y[1..]);
      assert x == [x[0]] + x[1..] && y == [y[0]] + y[1..];
    }
  }

  lemma ByteBitsInjective(x: Byte, y: Byte)
    requires ByteBits(x) == ByteBits(y)
    ensures x == y
  {
    ByteBitsPadded(x);
    ByteBitsPadded(y);
    WordBitsInjective(x as Word, y as Word);
  }

  /**
   Two inputs of equal length whose bits differ only inside some window of 32 bits have
   different checksums.
   */
  lemma BurstDetected(x: seq<Byte>, y: seq<Byte>, prefix: Bits, m: Bits, n: Bits, suffix: Bits)
    requires |x| == |y| && x != y
    requires MessageBits(x) == prefix + m + suffix && MessageBits(y) == prefix + n + suffix
    requires |m| == |n| <= WIDTH
    ensures Checksum(x) != Checksum(y)
  {
    if Checksum(x) == Checksum(y) {
      ComplementTwice(Register(x));
      ComplementTwice(Register(y));
      RegisterFeeds(x);
      RegisterFeeds(y);
      BurstInjective(Ones(WIDTH), prefix, m, n, suffix);
      MessageBitsInjective(x, y);
    }
  }

  /** In particular: any change confined to four consecutive bytes. */
  lemma FourByteChangeDetected(prefix: seq<Byte>, x: seq<Byte>, y: seq<Byte>, suffix: seq<Byte>)
    requires |x| == |y| <= 4 && x != y
    ensures Checksum(prefix + x + suffix) != Checksum(prefix + y + suffix)
  {
    FlattenAppend(ByteBits, prefix + x, suffix);
    FlattenAppend(ByteBits, prefix, x);
    FlattenAppend(ByteBits, prefix + y, suffix);
    FlattenAppend(ByteBits, prefix, y);
    MessageBitsLength(x);
    MessageBitsLength(y);
    assert x == (prefix + x + suffix)[|prefix|..|prefix| + |x|];
    assert y == (prefix + y + suffix)[|prefix|..|prefix| + |y|];
    BurstDetected(prefix + x + suffix, prefix + y + suffix,
                  MessageBits(prefix), MessageBits(x), MessageBits(y), MessageBits(suffix));
  }

  lemma {:induction false} MessageBitsLength(x: seq<Byte>)
    ensures |MessageBits(x)| == 8 * |x|
    decreases |x|
  {
    if x != [] {
      MessageBitsLength(x[1..]);
    }
  }

  // ---------------------------------------------------------------------------------------
  // The residue
  // ---------------------------------------------------------------------------------------

  lemma ResidueRounds()
    ensures Iterate(BitStep, ALL_ONES, WIDTH) == RESIDUE
  {
    ResidueQuarters();
    IterateAdd(BitStep, ALL_ONES, 8, 24);
    IterateAdd(BitStep, 0x2dfd_1072, 8, 16);
    IterateAdd(BitStep, 0xbe26_ed00, 8, 8);
  }

  lemma ResidueQuarters()
    ensures Iterate(BitStep, ALL_ONES, 8) == 0x2dfd_1072
    ensures Iterate(BitStep, 0x2dfd_1072, 8) == 0xbe26_ed00
    ensures Iterate(BitStep, 0xbe26_ed00, 8) == 0x00be_26ed
    ensures Iterate(BitStep, 0x00be_26ed, 8) == RESIDUE
  {
    EightRounds(BitStep, 0xffff_ffff, 0x9247_7cdf, 0xa49b_3d4f, 0xbff5_1d87, 0xb242_0de3, 0xb499_85d1, 0xb7f4_41c8,
      0x5bfa_20e4, 0x2dfd_1072);
    EightRounds(BitStep, 0x2dfd_1072, 0x16fe_8839, 0xe6c7_c73c, 0x7363_e39e, 0x39b1_f1cf, 0xf160_7bc7, 0x9508_bec3,
      0xa73c_dc41, 0xbe26_ed00);
    EightRounds(BitStep, 0xbe26_ed00, 0x5f13_7680, 0x2f89_bb40, 0x17c4_dda0, 0x0be2_6ed0, 0x05f1_3768, 0x02f8_9bb4,
      0x017c_4dda, 0x00be_26ed);
    EightRounds(BitStep, 0x00be_26ed, 0xede7_9056, 0x76f3_c82b, 0xd6c1_6735, 0x86d8_30ba, 0x436c_185d, 0xcc0e_8f0e,
      0x6607_4787, 0xdebb_20e3);
  }

  lemma LowByteBits(w: Word)
    ensures ByteBits((w & 0xff) as Byte) == Octet(w)
  {
    var c := (w & 0xff) as Byte as Word;
    ByteDigits(c);
    assert c & 1 == w & 1 && (c >> 1) & 1 == (w >> 1) & 1 && (c >> 2) & 1 == (w >> 2) & 1;
    assert (c >> 3) & 1 == (w >> 3) & 1 && (c >> 4) & 1 == (w >> 4) & 1 && (c >> 5) & 1 == (w >> 5) & 1;
    assert (c >> 6) & 1 == (w >> 6) & 1 && (c >> 7) & 1 == (w >> 7) & 1;
  }

  lemma WordBytesBits(w: Word)
    ensures MessageBits(WordBytes(w)) == WordBits(w)
  {
    WordBitsOctets(w);
    LowByteBits(w);
    LowByteBits(w >> 8);
    LowByteBits(w >> 16);
    LowByteBits(w >> 24);
    FlattenFour(ByteBits, (w & 0xff) as Byte, ((w >> 8) & 0xff) as Byte, ((w >> 16) & 0xff) as Byte,
      ((w >> 24) & 0xff) as Byte);
  }

  lemma WordBytesInjective(a: Word, b: Word)
    requires WordBytes(a) == WordBytes(b)
    ensures a == b
  {
    WordBytesBits(a);
    WordBytesBits(b);
    WordBitsInjective(a, b);
  }

  lemma ComplementBits(c: Word)
    ensures WordBits(!c) == Add(WordBits(c), Ones(WIDTH))
  {
    assert !c == c ^ 0xffff_ffff;
    WordBitsXor(c, ALL_ONES);
    AllOnesBits();
  }

  lemma RegisterOfTail(data: seq<Byte>, tail: seq<Byte>)
    requires |tail| == 4
    ensures |MessageBits(tail)| == WIDTH
    ensures WordBits(Register(data + tail)) == Clocks(Add(WordBits(Register(data)), MessageBits(tail)), WIDTH)
  {
    RegisterFeeds(data);
    RegisterFeeds(data + tail);
    FlattenAppend(ByteBits, data, tail);
    MessageBitsLength(tail);
    FeedAppend(Ones(WIDTH), MessageBits(data), MessageBits(tail));
    FeedAtOnce(WordBits(Register(data)), MessageBits(tail));
  }

  lemma StoredChecksumBits(data: seq<Byte>)
    ensures MessageBits(WordBytes(Checksum(data))) == Add(WordBits(Register(data)), Ones(WIDTH))
  {
    WordBytesBits(Checksum(data));
    ComplementBits(Register(data));
  }

  /**
   Running the register on over four more bytes ends at the residue constant exactly when these
   bytes are the stored checksum.
   */
  lemma ResidueIffChecksum(data: seq<Byte>, tail: seq<Byte>)
    requires |tail| == 4
    ensures Register(data + tail) == RESIDUE <==> tail == WordBytes(Checksum(data))
  {
    var r, t := WordBits(Register(data)), MessageBits(tail);
    RegisterOfTail(data, tail);
    StoredChecksumBits(data);
    ResidueBits();
    SumIsOnes(r, t);
    if Register(data + tail) == RESIDUE {
      ClocksInjective(Add(r, t), Ones(WIDTH), WIDTH);
      MessageBitsInjective(tail, WordBytes(Checksum(data)));
    }
    if tail == WordBytes(Checksum(data)) {
      WordBitsInjective(Register(data + tail), RESIDUE);
    }
  }

  lemma ResidueBits()
    ensures WordBits(RESIDUE) == Clocks(Ones(WIDTH), WIDTH)
  {
    ResidueRounds();
    AllOnesBits();
    BitStepsClock(ALL_ONES, WIDTH);
  }

  lemma SumIsOnes(r: Bits, t: Bits)
    requires |r| == |t| == WIDTH
    ensures Add(r, t) == Ones(WIDTH) <==> t == Add(r, Ones(WIDTH))
  {
    if Add(r, t) == Ones(WIDTH) {
      forall i | 0 <= i < WIDTH
        ensures t[i] == Add(r, Ones(WIDTH))[i]
      {
        assert Add(r, t)[i];
      }
    }
  }
}
