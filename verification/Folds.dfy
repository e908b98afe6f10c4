/**
 Repeated and folded application of a function, and the laws shared by every instance.  Stating
 them for an arbitrary type keeps 32-bit word arithmetic out of the inductive proofs.
 */
module Folds {

  function Iterate<T>(f: T -> T, x: T, n: nat): T
    decreases n
  {
    if n == 0 then x else Iterate(f, f(x), n - 1)
  }

  function Fold<S, B>(step: (S, B) -> S, s: S, xs: seq<B>): S
    decreases |xs|
  {
    if xs == [] then s else Fold(step, step(s, xs[0]), xs[1..])
  }

  /** The first `n` digits of `x`: `head` reads one, `tail` drops it. */
  function Digits<T>(head: T -> bool, tail: T -> T, x: T, n: nat): (s: seq<bool>)
    ensures |s| == n
    decreases n
  {
    if n == 0 then [] else [head(x)] + Digits(head, tail, tail(x), n - 1)
  }

  /** The expansions of all elements, one after the other. */
  function Flatten<B, C>(expand: B -> seq<C>, xs: seq<B>): seq<C>
    decreases |xs|
  {
    if xs == [] then [] else expand(xs[0]) + Flatten(expand, xs[1..])
  }

  /** Position by position, whether the two lists differ. */
  function Differ(x: seq<bool>, y: seq<bool>): (z: seq<bool>)
    requires |x| == |y|
    ensures |z| == |x|
  {
    seq(|x|, i requires 0 <= i < |x| => x[i] != y[i])
  }

  lemma {:induction false} IterateAdd<T>(f: T -> T, x: T, m: nat, n: nat)
    ensures Iterate(f, x, m + n) == Iterate(f, Iterate(f, x, m), n)
    decreases m
  {
    if m > 0 {
      IterateAdd(f, f(x), m - 1, n);
    }
  }

  /** If `view` carries one step of `f` to one step of `g`, it carries n steps to n steps. */
  lemma {:induction false} IterateSimulates<T(!new), U>(f: T -> T, g: U -> U, view: T -> U, x: T, n: nat)
    requires forall t :: view(f(t)) == g(view(t))
    ensures view(Iterate(f, x, n)) == Iterate(g, view(x), n)
    decreases n
  {
    if n > 0 {
      IterateSimulates(f, g, view, f(x), n - 1);
    }
  }

  lemma {:induction false} DigitsSplit<T>(head: T -> bool, tail: T -> T, x: T, m: nat, n: nat)
    ensures Digits(head, tail, x, m + n) == Digits(head, tail, x, m) + Digits(head, tail, Iterate(tail, x, m), n)
    decreases m
  {
    if m > 0 {
      DigitsSplit(head, tail, tail(x), m - 1, n);
    }
  }

  lemma DigitsOfTail<T>(head: T -> bool, tail: T -> T, x: T, n: nat)
    ensures Digits(head, tail, x, n + 1)[1..] == Digits(head, tail, tail(x), n)
    ensures Digits(head, tail, x, n + 1) == Digits(head, tail, x, n) + [head(Iterate(tail, x, n))]
  {
    DigitsSplit(head, tail, x, n, 1);
    assert Digits(head, tail, Iterate(tail, x, n), 1) == [head(Iterate(tail, x, n))];
  }

  lemma EightDigits<T>(head: T -> bool, tail: T -> T, x0: T, x1: T, x2: T, x3: T, x4: T, x5: T, x6: T, x7: T)
    requires tail(x0) == x1 && tail(x1) == x2 && tail(x2) == x3 && tail(x3) == x4
    requires tail(x4) == x5 && tail(x5) == x6 && tail(x6) == x7
    ensures Digits(head, tail, x0, 8)
      == [head(x0), head(x1), head(x2), head(x3), head(x4), head(x5), head(x6), head(x7)]
  {
    assert Digits(head, tail, x7, 1) == [head(x7)];
    assert Digits(head, tail, x6, 2) == [head(x6)] + Digits(head, tail, x7, 1);
    assert Digits(head, tail, x5, 3) == [head(x5)] + Digits(head, tail, x6, 2);
    assert Digits(head, tail, x4, 4) == [head(x4)] + Digits(head, tail, x5, 3);
    assert Digits(head, tail, x3, 5) == [head(x3)] + Digits(head, tail, x4, 4);
    assert Digits(head, tail, x2, 6) == [head(x2)] + Digits(head, tail, x3, 5);
    assert Digits(head, tail, x1, 7) == [head(x1)] + Digits(head, tail, x2, 6);
  }

  lemma EightRounds<T>(f: T -> T, x0: T, x1: T, x2: T, x3: T, x4: T, x5: T, x6: T, x7: T, x8: T)
    requires f(x0) == x1 && f(x1) == x2 && f(x2) == x3 && f(x3) == x4
    requires f(x4) == x5 && f(x5) == x6 && f(x6) == x7 && f(x7) == x8
    ensures Iterate(f, x0, 8) == x8
  {
    assert Iterate(f, x4, 4) == Iterate(f, x5, 3) == Iterate(f, x6, 2) == Iterate(f, x7, 1) == x8;
    assert Iterate(f, x0, 8) == Iterate(f, x1, 7) == Iterate(f, x2, 6) == Iterate(f, x3, 5) == Iterate(f, x4, 4);
  }

  lemma FourOctets<T>(head: T -> bool, tail: T -> T, x: T, y: T, z: T, w: T)
    requires Iterate(tail, x, 8) == y && Iterate(tail, y, 8) == z && Iterate(tail, z, 8) == w
    ensures Digits(head, tail, x, 32) ==
      Digits(head, tail, x, 8) + Digits(head, tail, y, 8) + Digits(head, tail, z, 8) + Digits(head, tail, w, 8)
  {
    DigitsSplit(head, tail, x, 8, 24);
    DigitsSplit(head, tail, y, 8, 16);
    DigitsSplit(head, tail, z, 8, 8);
  }

  lemma {:induction false} DigitsXor<T(!new)>(head: T -> bool, tail: T -> T, xor: (T, T) -> T, x: T, y: T, n: nat)
    requires forall a, b :: head(xor(a, b)) == (head(a) != head(b))
    requires forall a, b :: tail(xor(a, b)) == xor(tail(a), tail(b))
    ensures Digits(head, tail, xor(x, y), n) == Differ(Digits(head, tail, x, n), Digits(head, tail, y, n))
    decreases n
  {
    if n > 0 {
      DigitsXor(head, tail, xor, tail(x), tail(y), n - 1);
    }
  }

  lemma {:induction false} DigitsInjective<T(!new)>(head: T -> bool, tail: T -> T, x: T, y: T, n: nat)
    requires forall a, b :: head(a) == head(b) && tail(a) == tail(b) ==> a == b
    requires Digits(head, tail, x, n) == Digits(head, tail, y, n)
    requires Iterate(tail, x, n) == Iterate(tail, y, n)
    ensures x == y
    decreases n
  {
    if n > 0 {
      var s, t := Digits(head, tail, x, n), Digits(head, tail, y, n);
      assert s[0] == t[0] && s[1..] == t[1..];
      DigitsInjective(head, tail, tail(x), tail(y), n - 1);
    }
  }

  lemma {:induction false} FlattenAppend<B, C>(expand: B -> seq<C>, xs: seq<B>, ys: seq<B>)
    ensures Flatten(expand, xs + ys) == Flatten(expand, xs) + Flatten(expand, ys)
    decreases |xs|
  {
    if xs == [] {
      assert xs + ys == ys;
    } else {
      assert (xs + ys)[1..] == xs[1..] + ys;
      FlattenAppend(expand, xs[1..], ys);
    }
  }

  lemma FlattenFour<B, C>(expand: B -> seq<C>, a: B, b: B, c: B, d: B)
    ensures Flatten(expand, [a, b, c, d]) == expand(a) + expand(b) + expand(c) + expand(d)
  {
    assert [a, b, c, d][1..] == [b, c, d] && [b, c, d][1..] == [c, d] && [c, d][1..] == [d];
    assert Flatten(expand, [d]) == expand(d);
    assert Flatten(expand, [c, d]) == expand(c) + Flatten(expand, [d]);
  }
}
