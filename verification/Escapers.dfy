/**
 The two escapers of packages/notice-drafting/src/export.ts, built from chained `replace` calls:
 `safe` for PDF string literals and `escapeXml` for character data.  Each equals a one-pass
 escaper, and is undone by a decoder written from the standard of its format.
 */
module Escapers {
  import opened Results
  import opened Folds
  import opened Texts

  const BACKSLASH: Unit := 0x5C
  const OPEN: Unit := 0x28
  const CLOSE: Unit := 0x29
  const AMPERSAND: Unit := 0x26
  const LESS: Unit := 0x3C
  const GREATER: Unit := 0x3E

  /** What a decoder has read so far, and how many units it took. */
  datatype Read = Read(text: Text, size: nat)

  function Prepend(text: Text, size: nat, rest: Option<Read>): Option<Read> {
    match rest
    case None => None
    case Some(r) => Some(Read(text + r.text, size + r.size))
  }

  lemma FlattenOne(f: Unit -> Text, a: Unit)
    ensures Flatten(f, [a]) == f(a)
  {
    assert [a][1..] == [];
  }

  /** Replacing `c` in a text without `c` changes nothing. */
  lemma {:induction false} FlattenAbsent(c: Unit, other: Text, s: Text)
    requires c !in s
    ensures ReplaceAll(s, c, other) == s
    decreases |s|
  {
    if s != [] {
      FlattenAbsent(c, other, s[1..]);
      assert s == [s[0]] + s[1..];
    }
  }

  // ---------------------------------------------------------------------------------------
  // PDF string literals
  // ---------------------------------------------------------------------------------------

  /** Kept by the class `[\x09\x0A\x0D\x20-\x7E]`. */
  predicate Printable(c: Unit) {
    c == TAB || c == LF || c == CR || 0x20 <= c <= 0x7E
  }

  function OrQuestion(c: Unit): Unit {
    if Printable(c) then c else QUESTION
  }

  /** The text with every other unit replaced by a question mark. */
  function Sanitized(s: Text): (t: Text)
    ensures |t| == |s|
  {
    seq(|s|, i requires 0 <= i < |s| => OrQuestion(s[i]))
  }

  /** The chain of four replacements, in the order of the program. */
  function Safe(s: Text): Text {
    var a := ReplaceAll(s, BACKSLASH, [BACKSLASH, BACKSLASH]);
    var b := ReplaceAll(a, OPEN, [BACKSLASH, OPEN]);
    var c := ReplaceAll(b, CLOSE, [BACKSLASH, CLOSE]);
    Sanitized(c)
  }

  predicate Special(c: Unit) {
    c == BACKSLASH || c == OPEN || c == CLOSE
  }

  function Escaped(c: Unit): Text {
    if Special(c) then [BACKSLASH, c] else [OrQuestion(c)]
  }

  /** Escaping one unit by the chain. */
  lemma SafeUnit(c: Unit)
    ensures Safe([c]) == Escaped(c)
  {
    var a := ReplaceAll([c], BACKSLASH, [BACKSLASH, BACKSLASH]);
    if c == BACKSLASH {
      FlattenOne(x => if x == BACKSLASH then [BACKSLASH, BACKSLASH] else [x], c);
    } else {
      FlattenAbsent(BACKSLASH, [BACKSLASH, BACKSLASH], [c]);
    }
    assert a == if c == BACKSLASH then [BACKSLASH, c] else [c];
    var b := ReplaceAll(a, OPEN, [BACKSLASH, OPEN]);
    if c == OPEN {
      FlattenOne(x => if x == OPEN then [BACKSLASH, OPEN] else [x], c);
    } else {
      FlattenAbsent(OPEN, [BACKSLASH, OPEN], a);
    }
    assert b == if c == BACKSLASH || c == OPEN then [BACKSLASH, c] else [c];
    if c == CLOSE {
      FlattenOne(x => if x == CLOSE then [BACKSLASH, CLOSE] else [x], c);
    } else {
      FlattenAbsent(CLOSE, [BACKSLASH, CLOSE], b);
    }
  }

  lemma SafeAppend(s: Text, t: Text)
    ensures Safe(s + t) == Safe(s) + Safe(t)
  {
    var f := x => if x == BACKSLASH then [BACKSLASH, BACKSLASH] else [x];
    var g := x => if x == OPEN then [BACKSLASH, OPEN] else [x];
    var h := x => if x == CLOSE then [BACKSLASH, CLOSE] else [x];
    FlattenAppend(f, s, t);
    FlattenAppend(g, Flatten(f, s), Flatten(f, t));
    FlattenAppend(h, Flatten(g, Flatten(f, s)), Flatten(g, Flatten(f, t)));
  }

  /** The chained replacements are one pass over the text: no replacement disturbs another. */
  lemma {:induction false} SafeIsOnePass(s: Text)
    ensures Safe(s) == Flatten(Escaped, s)
    decreases |s|
  {
    if s == [] {
      assert Safe([]) == [];
    } else {
      assert s == [s[0]] + s[1..];
      SafeAppend([s[0]], s[1..]);
      SafeUnit(s[0]);
      SafeIsOnePass(s[1..]);
    }
  }

  // The reader of ISO 32000-1 section 7.3.4.2.

  predicate Octal(c: Unit) {
    0x30 <= c <= 0x37
  }

  /** The escape sequence behind a backslash: the text it stands for, and its length. */
  function ReadEscape(s: Text): (r: Read)
    requires s != []
    ensures 1 <= r.size <= |s| || (r.text == [] && r.size == 0)
  {
    var c := s[0];
    if c == 0x5C || c == 0x28 || c == 0x29 then Read([c], 1)
    else if c == 0x6E then Read([0x0A], 1)
    else if c == 0x72 then Read([0x0D], 1)
    else if c == 0x74 then Read([0x09], 1)
    else if c == 0x62 then Read([0x08], 1)
    else if c == 0x66 then Read([0x0C], 1)
    else if c == 0x0A then Read([], 1)
    else if c == 0x0D then Read([], if |s| > 1 && s[1] == 0x0A then 2 else 1)
    else if !Octal(c) then Read([], 0)
    else if |s| == 1 || !Octal(s[1]) then Read([c - 0x30], 1)
    else if |s| == 2 || !Octal(s[2]) then Read([8 * (c - 0x30) + s[1] - 0x30], 2)
    else Read([(64 * (c - 0x30) + 8 * (s[1] - 0x30) + s[2] - 0x30) % 256], 3)
  }

  /**
   A string literal from behind its opening parenthesis, `depth` further parentheses being open:
   its text and the units up to and including the closing parenthesis.
   */
  function ReadLiteral(s: Text, depth: nat): Option<Read>
    decreases |s|
  {
    if s == [] then None
    else if s[0] == 0x29 && depth == 0 then Some(Read([], 1))
    else if s[0] == 0x29 then Prepend([0x29], 1, ReadLiteral(s[1..], depth - 1))
    else if s[0] == 0x28 then Prepend([0x28], 1, ReadLiteral(s[1..], depth + 1))
    else if s[0] == 0x0D then
      var size := if |s| > 1 && s[1] == 0x0A then 2 else 1;
      Prepend([0x0A], size, ReadLiteral(s[size..], depth))
    else if s[0] != 0x5C then Prepend([s[0]], 1, ReadLiteral(s[1..], depth))
    else if |s| == 1 then None
    else
      var r := ReadEscape(s[1..]);
      Prepend(r.text, 1 + r.size, ReadLiteral(s[1 + r.size..], depth))
  }

  /** `t`, the escaped text of `s` and its closing parenthesis, is read as the text of `s`. */
  ghost predicate ReadsAs(s: Text, t: Text) {
    ReadLiteral(t, 0) == Some(Read(NormalizeEol(Sanitized(s)), |Flatten(Escaped, s)| + 1))
  }

  lemma SanitizedTail(s: Text, k: nat)
    requires k <= |s|
    ensures Sanitized(s)[k..] == Sanitized(s[k..])
  {
  }

  lemma Regroup(a: Text, b: Text, c: Text, d: Text)
    ensures (a + b) + c + d == a + (b + c + d) && (a + (b + c + d))[|a|..] == b + c + d
    ensures (a + b) + d == a + (b + d) && (a + (b + d))[|a|..] == b + d
  {
  }

  lemma EscapedHead(s: Text, rest: Text)
    requires s != []
    ensures Flatten(Escaped, s) + [CLOSE] + rest == Escaped(s[0]) + (Flatten(Escaped, s[1..]) + [CLOSE] + rest)
    ensures (Flatten(Escaped, s) + [CLOSE] + rest)[|Escaped(s[0])|..] == Flatten(Escaped, s[1..]) + [CLOSE] + rest
  {
    Regroup(Escaped(s[0]), Flatten(Escaped, s[1..]), [CLOSE], rest);
  }

  /** Only a line feed is escaped to something that starts with a line feed. */
  lemma StartsWithLf(s: Text, rest: Text)
    ensures (Flatten(Escaped, s) + [CLOSE] + rest)[0] == LF <==> s != [] && s[0] == LF
  {
    if s != [] {
      EscapedHead(s, rest);
    }
  }

  lemma ReadSpecial(c: Unit, t: Text)
    requires Special(c)
    ensures ReadLiteral([BACKSLASH, c] + t, 0) == Prepend([c], 2, ReadLiteral(t, 0))
  {
    assert ([BACKSLASH, c] + t)[1..] == [c] + t && ([BACKSLASH, c] + t)[2..] == t;
  }

  lemma ReadPlain(c: Unit, t: Text)
    requires !Special(c) && c != CR
    ensures ReadLiteral([c] + t, 0) == Prepend([c], 1, ReadLiteral(t, 0))
  {
    assert ([c] + t)[1..] == t;
  }

  lemma ReadCr(t: Text)
    requires t != []
    ensures ReadLiteral([CR] + t, 0) ==
      if t[0] == LF then Prepend([LF], 2, ReadLiteral(t[1..], 0)) else Prepend([LF], 1, ReadLiteral(t, 0))
  {
    assert ([CR] + t)[1..] == t && ([CR] + t)[2..] == t[1..];
  }

  lemma ReadAnyEscaped(s: Text, t: Text)
    requires s != [] && s[0] != CR && ReadsAs(s[1..], t)
    ensures ReadsAs(s, Escaped(s[0]) + t)
  {
    SanitizedTail(s, 1);
    if Special(s[0]) {
      ReadSpecial(s[0], t);
    } else {
      ReadPlain(OrQuestion(s[0]), t);
    }
  }

  lemma ReadLoneEscapedCr(s: Text, t: Text)
    requires s != [] && s[0] == CR && t != [] && t[0] != LF && !(|s| > 1 && s[1] == LF)
    requires ReadsAs(s[1..], t)
    ensures ReadsAs(s, [CR] + t)
  {
    SanitizedTail(s, 1);
    ReadCr(t);
  }

  lemma ReadEscapedCrLf(s: Text, t: Text, u: Text)
    requires |s| > 1 && s[0] == CR && s[1] == LF && t == [LF] + u
    requires ReadsAs(s[2..], u)
    ensures ReadsAs(s, [CR] + t)
  {
    SanitizedTail(s, 2);
    ReadCr(t);
    assert s[1..][1..] == s[2..];
    assert t[1..] == u;
    assert Flatten(Escaped, s[1..]) == [LF] + Flatten(Escaped, s[2..]);
  }

  lemma {:induction false} LiteralReadsBack(s: Text, rest: Text)
    ensures ReadsAs(s, Flatten(Escaped, s) + [CLOSE] + rest)
    decreases |s|
  {
    if s == [] {
      assert Flatten(Escaped, s) + [CLOSE] + rest == [CLOSE] + rest;
    } else {
      var t := Flatten(Escaped, s[1..]) + [CLOSE] + rest;
      EscapedHead(s, rest);
      LiteralReadsBack(s[1..], rest);
      if s[0] != CR {
        ReadAnyEscaped(s, t);
      } else if |s| > 1 && s[1] == LF {
        LiteralReadsBack(s[2..], rest);
        EscapedHead(s[1..], rest);
        assert s[1..][1..] == s[2..];
        ReadEscapedCrLf(s, t, Flatten(Escaped, s[2..]) + [CLOSE] + rest);
      } else {
        StartsWithLf(s[1..], rest);
        ReadLoneEscapedCr(s, t);
      }
    }
  }

  /**
   A reader of the standard takes the escaped text and its closing parenthesis, no more and no
   less, and gets the sanitized text with its line ends normalized.
   */
  lemma SafeReadsBack(s: Text, rest: Text)
    ensures ReadLiteral(Safe(s) + [CLOSE] + rest, 0) == Some(Read(NormalizeEol(Sanitized(s)), |Safe(s)| + 1))
  {
    SafeIsOnePass(s);
    LiteralReadsBack(s, rest);
  }

  /** It gets the sanitized text itself exactly when there is no carriage return. */
  lemma SafeRoundTrip(s: Text, rest: Text)
    ensures (exists size :: ReadLiteral(Safe(s) + [CLOSE] + rest, 0) == Some(Read(Sanitized(s), size))) <==> CR !in s
    ensures Sanitized(s) == s <==> forall i :: 0 <= i < |s| ==> Printable(s[i])
  {
    SafeReadsBack(s, rest);
    NormalizeIdentity(Sanitized(s));
    assert CR in s ==> exists i :: 0 <= i < |s| && s[i] == CR && Sanitized(s)[i] == CR;
    assert CR in Sanitized(s) ==> exists i :: 0 <= i < |s| && Sanitized(s)[i] == CR && s[i] == CR;
  }

  // ---------------------------------------------------------------------------------------
  // XML character data
  // ---------------------------------------------------------------------------------------

  function Amp(): Text { Literal("&amp;") }
  function Lt(): Text { Literal("&lt;") }
  function Gt(): Text { Literal("&gt;") }

  function EscapeXml(s: Text): Text {
    ReplaceAll(ReplaceAll(ReplaceAll(s, AMPERSAND, Amp()), LESS, Lt()), GREATER, Gt())
  }

  function Reference(c: Unit): Text {
    if c == AMPERSAND then Amp() else if c == LESS then Lt() else if c == GREATER then Gt() else [c]
  }

  lemma References()
    ensures Amp() == [0x26, 0x61, 0x6D, 0x70, 0x3B] && Lt() == [0x26, 0x6C, 0x74, 0x3B]
    ensures Gt() == [0x26, 0x67, 0x74, 0x3B]
  {
  }

  lemma XmlUnit(c: Unit)
    ensures EscapeXml([c]) == Reference(c)
  {
    References();
    var a := ReplaceAll([c], AMPERSAND, Amp());
    if c == AMPERSAND {
      FlattenOne(x => if x == AMPERSAND then Amp() else [x], c);
    } else {
      FlattenAbsent(AMPERSAND, Amp(), [c]);
    }
    var b := ReplaceAll(a, LESS, Lt());
    if c == LESS {
      FlattenOne(x => if x == LESS then Lt() else [x], c);
    } else {
      FlattenAbsent(LESS, Lt(), a);
    }
    if c == GREATER {
      FlattenOne(x => if x == GREATER then Gt() else [x], c);
    } else {
      FlattenAbsent(GREATER, Gt(), b);
    }
  }

  lemma XmlAppend(s: Text, t: Text)
    ensures EscapeXml(s + t) == EscapeXml(s) + EscapeXml(t)
  {
    var f := x => if x == AMPERSAND then Amp() else [x];
    var g := x => if x == LESS then Lt() else [x];
    var h := x => if x == GREATER then Gt() else [x];
    FlattenAppend(f, s, t);
    FlattenAppend(g, Flatten(f, s), Flatten(f, t));
    FlattenAppend(h, Flatten(g, Flatten(f, s)), Flatten(g, Flatten(f, t)));
  }

  /** Here too the chain is one pass: the ampersands it writes are not escaped again. */
  lemma {:induction false} XmlIsOnePass(s: Text)
    ensures EscapeXml(s) == Flatten(Reference, s)
    decreases |s|
  {
    if s != [] {
      assert s == [s[0]] + s[1..];
      XmlAppend([s[0]], s[1..]);
      XmlUnit(s[0]);
      XmlIsOnePass(s[1..]);
    }
  }

  /** The unit named by the reference at the start of `s`, and the length of the reference. */
  function ReadReference(s: Text): Option<Read> {
    if Literal("&amp;") <= s then Some(Read([0x26], 5))
    else if Literal("&lt;") <= s then Some(Read([0x3C], 4))
    else if Literal("&gt;") <= s then Some(Read([0x3E], 4))
    else if Literal("&quot;") <= s then Some(Read([0x22], 6))
    else if Literal("&apos;") <= s then Some(Read([0x27], 6))
    else None
  }

  /** Character data up to the next tag or the end (XML 1.0 sections 2.4, 2.11 and 4.6). */
  function ReadCharData(s: Text): Option<Read>
    decreases |s|
  {
    if s == [] || s[0] == 0x3C then Some(Read([], 0))
    else if s[0] == 0x26 then
      match ReadReference(s)
      case None => None
      case Some(r) => if r.size == 0 || r.size > |s| then None else Prepend(r.text, r.size, ReadCharData(s[r.size..]))
    else if s[0] == 0x0D then
      var size := if |s| > 1 && s[1] == 0x0A then 2 else 1;
      Prepend([0x0A], size, ReadCharData(s[size..]))
    else Prepend([s[0]], 1, ReadCharData(s[1..]))
  }

  /** The rest of the document starts with a tag, or there is none. */
  predicate Delimited(rest: Text) {
    rest == [] || rest[0] == 0x3C
  }

  lemma ReferenceHead(s: Text, rest: Text)
    requires s != []
    ensures Flatten(Reference, s) + rest == Reference(s[0]) + (Flatten(Reference, s[1..]) + rest)
    ensures (Flatten(Reference, s) + rest)[|Reference(s[0])|..] == Flatten(Reference, s[1..]) + rest
  {
    Regroup(Reference(s[0]), Flatten(Reference, s[1..]), [], rest);
  }

  lemma XmlStartsWithLf(s: Text, rest: Text)
    requires Delimited(rest)
    ensures var t := Flatten(Reference, s) + rest; (t != [] && t[0] == LF) <==> (s != [] && s[0] == LF)
  {
    References();
    if s != [] {
      ReferenceHead(s, rest);
    } else {
      assert Flatten(Reference, s) + rest == rest;
    }
  }

  lemma ReadEntity(c: Unit, t: Text)
    requires c == AMPERSAND || c == LESS || c == GREATER
    ensures ReadCharData(Reference(c) + t) == Prepend([c], |Reference(c)|, ReadCharData(t))
  {
    References();
    var s := Reference(c) + t;
    assert s[0] == AMPERSAND && s[|Reference(c)|..] == t;
    assert s[..|Reference(c)|] == Reference(c);
    assert c == LESS ==> s[1] == 0x6C;
    assert c == GREATER ==> s[1] == 0x67;
    assert ReadReference(s) == Some(Read([c], |Reference(c)|));
  }

  lemma ReadUnit(c: Unit, t: Text)
    requires c != AMPERSAND && c != LESS && c != CR
    ensures ReadCharData([c] + t) == Prepend([c], 1, ReadCharData(t))
  {
    assert ([c] + t)[1..] == t;
  }

  lemma ReadXmlCr(t: Text)
    ensures ReadCharData([CR] + t) ==
      if t != [] && t[0] == LF then Prepend([LF], 2, ReadCharData(t[1..])) else Prepend([LF], 1, ReadCharData(t))
  {
    assert ([CR] + t)[1..] == t;
    assert t != [] ==> ([CR] + t)[2..] == t[1..];
  }

  ghost predicate XmlReadsAs(s: Text, t: Text) {
    ReadCharData(t) == Some(Read(NormalizeEol(s), |Flatten(Reference, s)|))
  }

  lemma ReadAnyUnit(s: Text, t: Text)
    requires s != [] && s[0] != CR && XmlReadsAs(s[1..], t)
    ensures XmlReadsAs(s, Reference(s[0]) + t)
  {
    if s[0] == AMPERSAND || s[0] == LESS || s[0] == GREATER {
      ReadEntity(s[0], t);
    } else {
      ReadUnit(s[0], t);
    }
  }

  lemma ReadLoneCr(s: Text, t: Text)
    requires s != [] && s[0] == CR && !(t != [] && t[0] == LF) && !(|s| > 1 && s[1] == LF)
    requires XmlReadsAs(s[1..], t)
    ensures XmlReadsAs(s, [CR] + t)
  {
    ReadXmlCr(t);
  }

  lemma ReadCrLf(s: Text, t: Text, u: Text)
    requires |s| > 1 && s[0] == CR && s[1] == LF && t == [LF] + u
    requires XmlReadsAs(s[2..], u)
    ensures XmlReadsAs(s, [CR] + t)
  {
    ReadXmlCr(t);
    assert s[1..][1..] == s[2..];
    assert t[1..] == u;
    assert Flatten(Reference, s[1..]) == [LF] + Flatten(Reference, s[2..]);
  }

  lemma {:induction false} CharDataReadsBack(s: Text, rest: Text)
    requires Delimited(rest)
    ensures XmlReadsAs(s, Flatten(Reference, s) + rest)
    decreases |s|
  {
    if s == [] {
      assert Flatten(Reference, s) + rest == rest;
    } else {
      var t := Flatten(Reference, s[1..]) + rest;
      ReferenceHead(s, rest);
      CharDataReadsBack(s[1..], rest);
      if s[0] != CR {
        ReadAnyUnit(s, t);
      } else if |s| > 1 && s[1] == LF {
        CharDataReadsBack(s[2..], rest);
        ReferenceHead(s[1..], rest);
        assert s[1..][1..] == s[2..];
        ReadCrLf(s, t, Flatten(Reference, s[2..]) + rest);
      } else {
        XmlStartsWithLf(s[1..], rest);
        ReadLoneCr(s, t);
      }
    }
  }

  /** Escaped text is read back with its line ends normalized, so unchanged without carriage returns. */
  lemma XmlRoundTrip(s: Text, rest: Text)
    requires Delimited(rest)
    ensures ReadCharData(EscapeXml(s) + rest) == Some(Read(NormalizeEol(s), |EscapeXml(s)|))
    ensures NormalizeEol(s) == s <==> CR !in s
  {
    XmlIsOnePass(s);
    CharDataReadsBack(s, rest);
    NormalizeIdentity(s);
  }

  /** Two lines with the line end CR LF between them. */
  function TwoLines(): Text {
    [0x61, CR, LF, 0x62]
  }

  /** For instance: of those, both readers get the line end LF, a text that is shorter by one. */
  lemma CarriageReturnIsLost(rest: Text)
    requires Delimited(rest)
    ensures Sanitized(TwoLines()) == TwoLines()
    ensures ReadLiteral(Safe(TwoLines()) + [CLOSE] + rest, 0) == Some(Read([0x61, LF, 0x62], 5))
    ensures ReadCharData(EscapeXml(TwoLines()) + rest) == Some(Read([0x61, LF, 0x62], 4))
  {
    var s := TwoLines();
    NoneSpecial(s);
    SafeReadsBack(s, rest);
    XmlRoundTrip(s, rest);
    TwoLinesNormalized();
  }

  lemma TwoLinesNormalized()
    ensures NormalizeEol(TwoLines()) == [0x61, LF, 0x62]
  {
    var s := TwoLines();
    var t, u := s[1..], s[3..];
    assert t[0] == CR && t[1] == LF && t[2..] == u && u == [0x62] && u[1..] == [];
    assert NormalizeEol(u) == [0x62];
    assert NormalizeEol(t) == [LF] + NormalizeEol(u);
  }

  /** A text that needs no escaping is written as it is. */
  lemma NoneSpecial(s: Text)
    requires Sanitized(s) == s && BACKSLASH !in s && OPEN !in s && CLOSE !in s
    requires AMPERSAND !in s && LESS !in s && GREATER !in s
    ensures Safe(s) == s && EscapeXml(s) == s
  {
    FlattenAbsent(BACKSLASH, [BACKSLASH, BACKSLASH], s);
    FlattenAbsent(OPEN, [BACKSLASH, OPEN], s);
    FlattenAbsent(CLOSE, [BACKSLASH, CLOSE], s);
    FlattenAbsent(AMPERSAND, Amp(), s);
    FlattenAbsent(LESS, Lt(), s);
    FlattenAbsent(GREATER, Gt(), s);
  }
}
