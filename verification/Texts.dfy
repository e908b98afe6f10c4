/** JavaScript strings as sequences of code units, with `replace`, `split` and `join`. */
module Texts {
  import opened Folds

  /** A UTF-16 code unit.  Nothing here needs the upper bound of sixteen bits. */
  type Unit = nat

  type Text = seq<Unit>

  const TAB: Unit := 0x09
  const LF: Unit := 0x0A
  const CR: Unit := 0x0D
  const QUESTION: Unit := 0x3F

  predicate Ascii(s: Text) {
    forall i :: 0 <= i < |s| ==> s[i] < 0x80
  }

  function AsciiUnit(c: char): Unit {
    if c as int < 0x80 then c as int else QUESTION
  }

  /** The text of a literal of the program.  All of them are ASCII. */
  function Literal(s: string): (t: Text)
    ensures |t| == |s| && Ascii(t)
  {
    seq(|s|, i requires 0 <= i < |s| => AsciiUnit(s[i]))
  }

  /** `s.replace(/c/g, other)`. */
  function ReplaceAll(s: Text, c: Unit, other: Text): Text {
    Flatten(x => if x == c then other else [x], s)
  }

  // ---------------------------------------------------------------------------------------
  // Line ends
  // ---------------------------------------------------------------------------------------

  /** CR LF and lone CR become LF (ISO 32000-1 section 7.3.4.2 and XML 1.0 section 2.11). */
  function NormalizeEol(s: Text): Text
    decreases |s|
  {
    if s == [] then []
    else if s[0] == 0x0D then [0x0A] + NormalizeEol(if |s| > 1 && s[1] == 0x0A then s[2..] else s[1..])
    else [s[0]] + NormalizeEol(s[1..])
  }

  lemma {:induction false} NormalizeIdentity(s: Text)
    ensures NormalizeEol(s) == s <==> CR !in s
    decreases |s|
  {
    if s != [] {
      if s[0] == CR {
        assert NormalizeEol(s)[0] == LF;
      } else {
        NormalizeIdentity(s[1..]);
        assert s == [s[0]] + s[1..];
        assert NormalizeEol(s)[1..] == NormalizeEol(s[1..]);
      }
    }
  }

  // ---------------------------------------------------------------------------------------
  // Splitting into lines
  // ---------------------------------------------------------------------------------------

  /** `s.split(sep)` for a separator of one unit. */
  function Split(s: Text, sep: Unit): (pieces: seq<Text>)
    ensures |pieces| > 0
    decreases |s|
  {
    if s == [] then [[]]
    else
      var rest := Split(s[1..], sep);
      if s[0] == sep then [[]] + rest else [[s[0]] + rest[0]] + rest[1..]
  }

  lemma {:induction false} SplitAbsent(s: Text, sep: Unit)
    requires sep !in s
    ensures Split(s, sep) == [s]
    decreases |s|
  {
    if s != [] {
      SplitAbsent(s[1..], sep);
      assert [s[0]] + s[1..] == s;
    }
  }

  /** `pieces.join(sep)`. */
  function Join(pieces: seq<Text>, sep: Unit): Text
    decreases |pieces|
  {
    if pieces == [] then [] else if |pieces| == 1 then pieces[0] else pieces[0] + [sep] + Join(pieces[1..], sep)
  }

  /** Splitting loses nothing, and no piece contains the separator: this determines the pieces. */
  lemma {:induction false} SplitJoin(s: Text, sep: Unit)
    ensures Join(Split(s, sep), sep) == s
    ensures forall i :: 0 <= i < |Split(s, sep)| ==> sep !in Split(s, sep)[i]
    decreases |s|
  {
    if s != [] {
      SplitJoin(s[1..], sep);
      var rest := Split(s[1..], sep);
      if s[0] == sep {
        assert Split(s, sep)[1..] == rest;
      } else {
        assert Split(s, sep)[1..] == rest[1..];
      }
      assert s == [s[0]] + s[1..];
    }
  }

  lemma {:induction false} JoinSplit(pieces: seq<Text>, sep: Unit)
    requires pieces != [] && forall i :: 0 <= i < |pieces| ==> sep !in pieces[i]
    ensures Split(Join(pieces, sep), sep) == pieces
    decreases |pieces|, |if pieces == [] then [] else pieces[0]|
  {
    var s := Join(pieces, sep);
    if pieces[0] != [] {
      var shorter := [pieces[0][1..]] + pieces[1..];
      assert shorter[1..] == pieces[1..];
      assert pieces[0] == [pieces[0][0]] + pieces[0][1..];
      assert s == [pieces[0][0]] + Join(shorter, sep);
      assert pieces[0][0] in pieces[0];
      JoinSplit(shorter, sep);
      assert s[1..] == Join(shorter, sep);
      assert pieces == [[pieces[0][0]] + shorter[0]] + shorter[1..];
    } else if |pieces| > 1 {
      assert s == [sep] + Join(pieces[1..], sep);
      assert s[1..] == Join(pieces[1..], sep);
      JoinSplit(pieces[1..], sep);
      assert pieces == [[]] + pieces[1..];
    } else {
      assert pieces == [[]];
    }
  }

  // ---------------------------------------------------------------------------------------
  // UTF-8
  // ---------------------------------------------------------------------------------------

  /** `Buffer.from(s, 'utf8')`: a surrogate on its own becomes the replacement character. */
  function Utf8(s: Text): seq<nat>
    decreases |s|
  {
    if s == [] then []
    else if s[0] < 0x80 then [s[0]] + Utf8(s[1..])
    else if s[0] < 0x800 then [0xC0 + s[0] / 64, 0x80 + s[0] % 64] + Utf8(s[1..])
    else if s[0] < 0xD800 || 0xDFFF < s[0] then
      [0xE0 + s[0] / 4096, 0x80 + s[0] / 64 % 64, 0x80 + s[0] % 64] + Utf8(s[1..])
    else if s[0] < 0xDC00 && |s| > 1 && 0xDC00 <= s[1] <= 0xDFFF then
      var point := 0x10000 + 1024 * (s[0] - 0xD800) + (s[1] - 0xDC00);
      [0xF0 + point / 262144, 0x80 + point / 4096 % 64, 0x80 + point / 64 % 64, 0x80 + point % 64] + Utf8(s[2..])
    else [0xEF, 0xBF, 0xBD] + Utf8(s[1..])
  }

  lemma {:induction false} Utf8OfAscii(s: Text)
    requires Ascii(s)
    ensures Utf8(s) == s
    decreases |s|
  {
    if s != [] {
      Utf8OfAscii(s[1..]);
      assert s == [s[0]] + s[1..];
    }
  }

  // ---------------------------------------------------------------------------------------
  // Text at a position
  // ---------------------------------------------------------------------------------------

  predicate At(s: Text, at: nat, t: Text) {
    at + |t| <= |s| && s[at..at + |t|] == t
  }

  lemma AtEnd(a: Text, b: Text, at: nat)
    requires at == |a|
    ensures At(a + b, at, b) && At(a + b, 0, a)
  {
  }

  lemma AtSplit(s: Text, at: nat, a: Text, b: Text, next: nat)
    requires At(s, at, a + b) && next == at + |a|
    ensures At(s, at, a) && At(s, next, b)
  {
    assert s[at..at + |a + b|][..|a|] == a && s[at..at + |a + b|][|a|..] == b;
  }

  lemma AtWithin(s: Text, at: nat, t: Text, inner: nat, u: Text, place: nat)
    requires At(s, at, t) && At(t, inner, u) && place == at + inner
    ensures At(s, place, u)
  {
    forall k | 0 <= k < |u|
      ensures s[place + k] == u[k]
    {
      assert s[at..at + |t|][inner + k] == t[inner..inner + |u|][k];
    }
  }

  lemma AtUnit(s: Text, at: nat, t: Text)
    requires At(s, at, t) && t != []
    ensures at < |s| && s[at] == t[0]
  {
    assert s[at..at + |t|][0] == s[at];
  }

  // ---------------------------------------------------------------------------------------
  // Decimal numbers
  // ---------------------------------------------------------------------------------------

  const ZERO: Unit := 0x30

  predicate Digit(c: Unit) {
    ZERO <= c <= ZERO + 9
  }

  predicate AllDigits(s: Text) {
    forall i :: 0 <= i < |s| ==> Digit(s[i])
  }

  /** `String(n)`. */
  function Decimal(n: nat): (t: Text)
    ensures t != [] && AllDigits(t)
  {
    if n < 10 then [ZERO + n] else Decimal(n / 10) + [ZERO + n % 10]
  }

  function Value(s: Text): nat
    requires AllDigits(s)
    decreases |s|
  {
    if s == [] then 0 else 10 * Value(s[..|s| - 1]) + (s[|s| - 1] - ZERO)
  }

  lemma {:induction false} DecimalValue(n: nat)
    ensures Value(Decimal(n)) == n
  {
    if n >= 10 {
      DecimalValue(n / 10);
      assert Decimal(n)[..|Decimal(n)| - 1] == Decimal(n / 10);
    }
  }

  function Power10(k: nat): (p: nat)
    ensures p > 0
  {
    if k == 0 then 1 else 10 * Power10(k - 1)
  }

  lemma {:induction false} DecimalLength(n: nat, k: nat)
    requires k > 0
    ensures |Decimal(n)| <= k <==> n < Power10(k)
    decreases k
  {
    if k == 1 {
      assert Power10(1) == 10;
    } else if n >= 10 {
      DecimalLength(n / 10, k - 1);
    } else {
      DecimalLength(0, k - 1);
    }
  }

  /** `t.padStart(width, '0')`. */
  function PadStart(t: Text, width: nat): (p: Text)
    ensures |p| == if |t| < width then width else |t|
    decreases width - |t|
  {
    if |t| >= width then t else PadStart([ZERO] + t, width)
  }

  lemma {:induction false} LeadingZero(t: Text)
    requires AllDigits(t)
    ensures AllDigits([ZERO] + t) && Value([ZERO] + t) == Value(t)
    decreases |t|
  {
    var padded := [ZERO] + t;
    if t != [] {
      LeadingZero(t[..|t| - 1]);
      assert padded[..|padded| - 1] == [ZERO] + t[..|t| - 1];
    } else {
      assert padded[..0] == [];
    }
  }

  lemma {:induction false} PaddedValue(t: Text, width: nat)
    requires AllDigits(t)
    ensures AllDigits(PadStart(t, width)) && Value(PadStart(t, width)) == Value(t)
    decreases width - |t|
  {
    if |t| < width {
      LeadingZero(t);
      PaddedValue([ZERO] + t, width);
    }
  }

  /** The end of the run of digits that starts at `at`. */
  function DigitsEnd(s: Text, at: nat): (end: nat)
    requires at <= |s|
    ensures at <= end <= |s| && AllDigits(s[at..end])
    decreases |s| - at
  {
    if at < |s| && Digit(s[at]) then DigitsEnd(s, at + 1) else at
  }

  /** The start of the run of digits that ends at `end`. */
  function DigitsStart(s: Text, end: nat): (start: nat)
    requires end <= |s|
    ensures start <= end && AllDigits(s[start..end])
  {
    if end > 0 && Digit(s[end - 1]) then
      var start := DigitsStart(s, end - 1);
      assert s[start..end] == s[start..end - 1] + [s[end - 1]];
      start
    else end
  }

  lemma {:induction false} RunForward(s: Text, at: nat, end: nat)
    requires at <= end <= |s| && AllDigits(s[at..end]) && (end < |s| ==> !Digit(s[end]))
    ensures DigitsEnd(s, at) == end
    decreases end - at
  {
    if at < end {
      assert s[at..end][0] == s[at];
      assert s[at + 1..end] == s[at..end][1..];
      RunForward(s, at + 1, end);
    }
  }

  lemma {:induction false} RunBackward(s: Text, at: nat, end: nat)
    requires at <= end <= |s| && AllDigits(s[at..end]) && (at > 0 ==> !Digit(s[at - 1]))
    ensures DigitsStart(s, end) == at
    decreases end - at
  {
    if at < end {
      assert s[at..end][end - 1 - at] == s[end - 1];
      assert s[at..end - 1] == s[at..end][..end - 1 - at];
      RunBackward(s, at, end - 1);
    }
  }
}
