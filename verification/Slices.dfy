/** Cutting a slice of a sequence at the seam of a concatenation. */
module Slices {

  lemma Cut<T>(s: seq<T>, at: nat, end: nat, a: seq<T>, b: seq<T>)
    requires at <= end <= |s| && s[at..end] == a + b
    ensures at + |a| <= end
    ensures s[at..at + |a|] == a
    ensures s[at + |a|..end] == b
  {
    assert s[at..at + |a|] == s[at..end][..|a|];
    assert s[at + |a|..end] == s[at..end][|a|..];
  }

  lemma CutThree<T>(s: seq<T>, at: nat, end: nat, a: seq<T>, b: seq<T>, c: seq<T>)
    requires at <= end <= |s| && s[at..end] == a + b + c
    ensures at + |a| + |b| <= end
    ensures s[at..at + |a|] == a
    ensures s[at + |a|..at + |a| + |b|] == b
    ensures s[at + |a| + |b|..end] == c
  {
    Cut(s, at, end, a + b, c);
    Cut(s, at, at + |a| + |b|, a, b);
  }
}
