/**
 The CRC-32 of APPNOTE.TXT section 4.4.7 as arithmetic on polynomials over GF(2).

 A polynomial is a list of coefficients, highest power first.  `Remainder` is schoolbook long
 division by the generator x^32 + x^26 + x^23 + ... + 1.  `Feed` is the shift register that
 takes one message bit at a time; `FeedDivides` shows that it computes that remainder.
 */
module CrcDivision {
  import opened Folds

  type Bits = seq<bool>

  const WIDTH: nat := 32

  /** The exponents of the generator below 32. */
  predicate Exponent(i: int) {
    i in {0, 1, 2, 4, 5, 7, 8, 10, 11, 12, 16, 22, 23, 26}
  }

  function Generator(): (g: Bits)
    ensures |g| == WIDTH
  {
    seq(WIDTH, i requires 0 <= i < WIDTH => Exponent(WIDTH - 1 - i))
  }

  lemma GeneratorCoefficients()
    ensures Generator() ==
      [false, false, false, false, false, true, false, false] + [true, true, false, false, false, false, false, true]
      + [false, false, false, true, true, true, false, true] + [true, false, true, true, false, true, true, true]
  {
  }

  function Zeros(n: nat): (z: Bits)
    ensures |z| == n
  {
    seq(n, i => false)
  }

  function Ones(n: nat): (z: Bits)
    ensures |z| == n
  {
    seq(n, i => true)
  }

  /** `x` with the (not longer) list `y` added onto its first coefficients. */
  function Add(x: Bits, y: Bits): (z: Bits)
    requires |y| <= |x|
    ensures |z| == |x|
    ensures forall i :: 0 <= i < |x| ==> z[i] == if i < |y| then x[i] != y[i] else x[i]
  {
    seq(|x|, i requires 0 <= i < |x| => if i < |y| then x[i] != y[i] else x[i])
  }

  /** Schoolbook long division: cancel the leading coefficient until fewer than 33 are left. */
  function Remainder(p: Bits): (r: Bits)
    requires |p| >= WIDTH
    ensures |r| == WIDTH
    decreases |p|
  {
    if |p| == WIDTH then p
    else if p[0] then Remainder(Add(p[1..], Generator()))
    else Remainder(p[1..])
  }

  /** One clock of the shift register. */
  function Clock(s: Bits): (t: Bits)
    ensures |s| == WIDTH ==> |t| == WIDTH
  {
    if |s| != WIDTH then s
    else if s[0] then Add(s[1..] + [false], Generator())
    else s[1..] + [false]
  }

  function Clocks(s: Bits, n: nat): Bits {
    Iterate(Clock, s, n)
  }

  /** The register after taking in the message bits `m`, first bit first. */
  function Feed(s: Bits, m: Bits): (t: Bits)
    requires |s| == WIDTH
    ensures |t| == WIDTH
    decreases |m|
  {
    if m == [] then s else Feed(Clock(Add(s, m[..1])), m[1..])
  }

  lemma {:induction false} FeedAppend(s: Bits, m: Bits, n: Bits)
    requires |s| == WIDTH
    ensures Feed(s, m + n) == Feed(Feed(s, m), n)
    decreases |m|
  {
    if m == [] {
      assert m + n == n;
    } else {
      assert (m + n)[1..] == m[1..] + n && (m + n)[..1] == m[..1];
      FeedAppend(Clock(Add(s, m[..1])), m[1..], n);
    }
  }

  /**
   The register holds the remainder of the message followed by 32 zero coefficients, with the
   start value added onto the leading coefficients.
   */
  lemma {:induction false} FeedDivides(s: Bits, m: Bits)
    requires |s| == WIDTH
    ensures Feed(s, m) == Remainder(Add(m + Zeros(WIDTH), s))
    decreases |m|
  {
    var p := Add(m + Zeros(WIDTH), s);
    if m == [] {
      assert p == s;
    } else {
      var s' := Clock(Add(s, m[..1]));
      var p' := Add(m[1..] + Zeros(WIDTH), s');
      assert (if p[0] then Add(p[1..], Generator()) else p[1..]) == p';
      FeedDivides(s', m[1..]);
    }
  }

  lemma ClockLinear(x: Bits, y: Bits)
    requires |x| == |y| == WIDTH
    ensures Clock(Add(x, y)) == Add(Clock(x), Clock(y))
  {
  }

  /** The last generator coefficient is 1, so the bit shifted out can be recovered. */
  lemma ClockInjective(x: Bits, y: Bits)
    requires |x| == |y| == WIDTH && Clock(x) == Clock(y)
    ensures x == y
  {
    var last := WIDTH - 1;
    assert Generator()[last];
    assert Clock(x)[last] == x[0] && Clock(y)[last] == y[0];
    forall i | 0 <= i < WIDTH
      ensures x[i] == y[i]
    {
      if i > 0 {
        assert Clock(x)[i - 1] == Clock(y)[i - 1];
      }
    }
  }

  lemma {:induction false} FeedInjective(x: Bits, y: Bits, m: Bits)
    requires |x| == |y| == WIDTH && Feed(x, m) == Feed(y, m)
    ensures x == y
    decreases |m|
  {
    if m != [] {
      FeedInjective(Clock(Add(x, m[..1])), Clock(Add(y, m[..1])), m[1..]);
      ClockInjective(Add(x, m[..1]), Add(y, m[..1]));
      assert Add(Add(x, m[..1]), m[..1]) == x;
      assert Add(Add(y, m[..1]), m[..1]) == y;
    }
  }

  lemma {:induction false} FeedLinear(x: Bits, y: Bits, m: Bits, n: Bits)
    requires |x| == |y| == WIDTH && |m| == |n|
    ensures Feed(Add(x, y), Add(m, n)) == Add(Feed(x, m), Feed(y, n))
    decreases |m|
  {
    if m != [] {
      assert Add(m, n)[1..] == Add(m[1..], n[1..]);
      assert Add(Add(x, y), Add(m, n)[..1]) == Add(Add(x, m[..1]), Add(y, n[..1]));
      ClockLinear(Add(x, m[..1]), Add(y, n[..1]));
      FeedLinear(Clock(Add(x, m[..1])), Clock(Add(y, n[..1])), m[1..], n[1..]);
    }
  }

  /** At most 32 bits may as well be added to the register all at once. */
  lemma {:induction false} FeedAtOnce(s: Bits, m: Bits)
    requires |s| == WIDTH && |m| <= WIDTH
    ensures Feed(s, m) == Clocks(Add(s, m), |m|)
    decreases |m|
  {
    if m != [] {
      var s' := Clock(Add(s, m[..1]));
      assert Clock(Add(s, m)) == Add(s', m[1..]);
      FeedAtOnce(s', m[1..]);
    } else {
      assert Add(s, m) == s;
    }
  }

  lemma {:induction false} ClocksInjective(x: Bits, y: Bits, n: nat)
    requires |x| == |y| == WIDTH && Clocks(x, n) == Clocks(y, n)
    ensures x == y
    decreases n
  {
    if n > 0 {
      ClocksInjective(Clock(x), Clock(y), n - 1);
      ClockInjective(x, y);
    }
  }

  lemma ShortFeedInjective(s: Bits, m: Bits, n: Bits)
    requires |s| == WIDTH && |m| == |n| <= WIDTH && Feed(s, m) == Feed(s, n)
    ensures m == n
  {
    FeedAtOnce(s, m);
    FeedAtOnce(s, n);
    ClocksInjective(Add(s, m), Add(s, n), |m|);
    forall i | 0 <= i < |m|
      ensures m[i] == n[i]
    {
      assert Add(s, m)[i] == Add(s, n)[i];
    }
  }

  /** Messages with equal registers that differ only inside a window of 32 bits are equal. */
  lemma BurstInjective(s: Bits, prefix: Bits, m: Bits, n: Bits, suffix: Bits)
    requires |s| == WIDTH && |m| == |n| <= WIDTH
    requires Feed(s, prefix + m + suffix) == Feed(s, prefix + n + suffix)
    ensures m == n
  {
    var t := Feed(s, prefix);
    FeedAppend(s, prefix + m, suffix);
    FeedAppend(s, prefix, m);
    FeedAppend(s, prefix + n, suffix);
    FeedAppend(s, prefix, n);
    FeedInjective(Feed(t, m), Feed(t, n), suffix);
    ShortFeedInjective(t, m, n);
  }
}
