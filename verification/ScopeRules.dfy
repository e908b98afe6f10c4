/**
 The scope rules of packages/connectors/src/scope-rules.ts.  Lower-casing, trimming, the detection
 of project references and the reading of dates are parameters.
 */
module ScopeRules {
  import opened Results
  import opened Texts

  const STAR: Unit := 0x2A

  // ---------------------------------------------------------------------------------------
  // Globs
  // ---------------------------------------------------------------------------------------

  /** Glob matching by backtracking: a star stands for any text, every other unit for itself. */
  predicate Glob(p: Text, v: Text)
    decreases |p|, |v|
  {
    if p == [] then v == []
    else if p[0] == 0x2A then Glob(p[1..], v) || (v != [] && Glob(p, v[1..]))
    else v != [] && v[0] == p[0] && Glob(p[1..], v[1..])
  }

  /** The pattern occurs somewhere in the value: the glob `*p*`. */
  predicate Matches(p: Text, v: Text) {
    Glob([0x2A] + p + [0x2A], v)
  }

  /** The parts occur in `v` in this order, without overlap. */
  predicate Embeds(parts: seq<Text>, v: Text)
    decreases |parts|
  {
    parts == [] || exists i | 0 <= i <= |v| :: At(v, i, parts[0]) && Embeds(parts[1..], v[i + |parts[0]|..])
  }

  /** `v.indexOf(part, from)`. */
  function IndexOf(v: Text, part: Text, from: nat): (r: Option<nat>)
    ensures r.Some? ==> from <= r.value && At(v, r.value, part) && forall i :: from <= i < r.value ==> !At(v, i, part)
    ensures r.None? ==> forall i :: from <= i ==> !At(v, i, part)
    decreases |v| - from
  {
    if from + |part| > |v| then None
    else if At(v, from, part) then Some(from)
    else IndexOf(v, part, from + 1)
  }

  // ---------------------------------------------------------------------------------------
  // Globs and parts
  // ---------------------------------------------------------------------------------------

  /** The pieces between the stars, each behind a star, and a last star. */
  function PatternOf(pieces: seq<Text>): Text
    decreases |pieces|
  {
    if pieces == [] then [STAR] else [STAR] + pieces[0] + PatternOf(pieces[1..])
  }

  lemma {:induction false} PatternOfSplit(p: Text)
    ensures PatternOf(Split(p, STAR)) == [STAR] + p + [STAR]
    decreases |p|
  {
    if p == [] {
      assert Split(p, STAR)[1..] == [];
    } else {
      PatternOfSplit(p[1..]);
      var pieces, rest := Split(p, STAR), Split(p[1..], STAR);
      assert p == [p[0]] + p[1..];
      if p[0] == STAR {
        assert pieces[1..] == rest;
      } else {
        assert pieces[1..] == rest[1..];
        Regroup(p[0], rest[0], PatternOf(rest[1..]), p[1..]);
      }
    }
  }

  lemma Regroup(c: Unit, a: Text, q: Text, p: Text)
    requires [STAR] + a + q == [STAR] + p + [STAR]
    ensures [STAR] + ([c] + a) + q == [STAR] + ([c] + p) + [STAR]
  {
    assert a + q == ([STAR] + a + q)[1..] == ([STAR] + p + [STAR])[1..] == p + [STAR];
    assert [STAR] + ([c] + a) + q == [STAR] + [c] + (a + q);
  }

  lemma {:induction false} GlobStar(q: Text, v: Text)
    ensures Glob([STAR] + q, v) <==> exists i :: 0 <= i <= |v| && Glob(q, v[i..])
    decreases |v|
  {
    assert ([STAR] + q)[1..] == q;
    assert v[0..] == v;
    if v != [] {
      GlobStar(q, v[1..]);
      var t := v[1..];
      forall i | 0 <= i <= |t|
        ensures t[i..] == v[i + 1..]
      {
      }
      if exists i :: 0 <= i <= |v| && Glob(q, v[i..]) {
        var i :| 0 <= i <= |v| && Glob(q, v[i..]);
        if i > 0 {
          assert t[i - 1..] == v[i..];
        }
      }
    }
  }

  lemma {:induction false} GlobPiece(a: Text, q: Text, v: Text)
    requires STAR !in a
    ensures Glob(a + q, v) <==> At(v, 0, a) && Glob(q, v[|a|..])
    decreases |a|
  {
    if a == [] {
      assert a + q == q && v[0..] == v;
    } else {
      assert a[0] in a;
      assert (a + q)[1..] == a[1..] + q;
      if v != [] {
        GlobPiece(a[1..], q, v[1..]);
        assert a == [a[0]] + a[1..] && v == [v[0]] + v[1..];
        assert At(v, 0, a) <==> v[0] == a[0] && At(v[1..], 0, a[1..]);
        if At(v, 0, a) {
          assert v[1..][|a| - 1..] == v[|a|..];
        }
      }
    }
  }

  lemma AtDrop(v: Text, i: nat, a: Text)
    requires i <= |v|
    ensures At(v[i..], 0, a) <==> At(v, i, a)
    ensures At(v, i, a) ==> v[i..][|a|..] == v[i + |a|..]
  {
    if At(v, i, a) {
      assert v[i..][0..|a|] == v[i..i + |a|];
    }
    if At(v[i..], 0, a) {
      assert v[i..][0..|a|] == v[i..i + |a|];
    }
  }

  ghost predicate PieceAt(pieces: seq<Text>, v: Text, i: int)
    requires pieces != []
  {
    0 <= i <= |v| && At(v, i, pieces[0]) && Glob(PatternOf(pieces[1..]), v[i + |pieces[0]|..])
  }

  /** A glob of pieces: the first piece occurs somewhere, and the rest matches behind it. */
  lemma GlobFirst(pieces: seq<Text>, v: Text)
    requires pieces != [] && STAR !in pieces[0]
    ensures Glob(PatternOf(pieces), v) <==> exists i :: PieceAt(pieces, v, i)
  {
    var a, rest := pieces[0], PatternOf(pieces[1..]);
    assert PatternOf(pieces) == [STAR] + (a + rest);
    GlobStar(a + rest, v);
    forall i | 0 <= i <= |v|
      ensures Glob(a + rest, v[i..]) <==> PieceAt(pieces, v, i)
    {
      GlobPiece(a, rest, v[i..]);
      AtDrop(v, i, a);
    }
  }

  lemma {:induction false} GlobIsEmbedding(pieces: seq<Text>, v: Text)
    requires forall k :: 0 <= k < |pieces| ==> STAR !in pieces[k]
    ensures Glob(PatternOf(pieces), v) <==> Embeds(pieces, v)
    decreases |pieces|
  {
    if pieces == [] {
      GlobStar([], v);
      assert [STAR] + [] == [STAR] && v[|v|..] == [];
    } else {
      GlobFirst(pieces, v);
      forall i | 0 <= i <= |v| && At(v, i, pieces[0])
        ensures Glob(PatternOf(pieces[1..]), v[i + |pieces[0]|..]) <==> Embeds(pieces[1..], v[i + |pieces[0]|..])
      {
        GlobIsEmbedding(pieces[1..], v[i + |pieces[0]|..]);
      }
      if Glob(PatternOf(pieces), v) {
        var i :| PieceAt(pieces, v, i);
        assert At(v, i, pieces[0]) && Embeds(pieces[1..], v[i + |pieces[0]|..]);
      }
      if Embeds(pieces, v) {
        var i :| 0 <= i <= |v| && At(v, i, pieces[0]) && Embeds(pieces[1..], v[i + |pieces[0]|..]);
        assert PieceAt(pieces, v, i);
      }
    }
  }

  /** What can be embedded in a suffix can be embedded in the whole: the exchange argument. */
  lemma EmbedsEarlier(parts: seq<Text>, v: Text, i: nat, j: nat)
    requires i <= j <= |v| && Embeds(parts, v[j..])
    ensures Embeds(parts, v[i..])
  {
    if parts != [] {
      var a, t := parts[0], v[j..];
      var k :| 0 <= k <= |t| && At(t, k, a) && Embeds(parts[1..], t[k + |a|..]);
      var s, l := v[i..], k + j - i;
      assert s[l..l + |a|] == t[k..k + |a|];
      assert s[l + |a|..] == t[k + |a|..];
      assert At(s, l, a);
    }
  }

  /** `v` from `from` on embeds the parts with the first of them at `i`. */
  ghost predicate EmbedsAt(parts: seq<Text>, v: Text, from: nat, i: nat)
    requires parts != []
  {
    from <= i && At(v, i, parts[0]) && Embeds(parts[1..], v[i + |parts[0]|..])
  }

  lemma EmbedsSomewhere(parts: seq<Text>, v: Text, from: nat)
    requires parts != [] && from <= |v|
    ensures Embeds(parts, v[from..]) <==> exists i :: EmbedsAt(parts, v, from, i)
  {
    var a, t := parts[0], v[from..];
    if Embeds(parts, t) {
      var k :| 0 <= k <= |t| && At(t, k, a) && Embeds(parts[1..], t[k + |a|..]);
      assert t[k..k + |a|] == v[from + k..from + k + |a|];
      assert t[k + |a|..] == v[from + k + |a|..];
      assert EmbedsAt(parts, v, from, from + k);
    }
    if i: nat :| EmbedsAt(parts, v, from, i) {
      assert t[i - from..i - from + |a|] == v[i..i + |a|];
      assert t[i - from + |a|..] == v[i + |a|..];
      assert At(t, i - from, a);
    }
  }

  /** The first occurrence at or after `from` is the best choice. */
  lemma GreedyStep(parts: seq<Text>, v: Text, from: nat)
    requires parts != [] && from <= |v|
    ensures var r := IndexOf(v, parts[0], from);
      Embeds(parts, v[from..]) <==> r.Some? && Embeds(parts[1..], v[r.value + |parts[0]|..])
  {
    var a, r := parts[0], IndexOf(v, parts[0], from);
    EmbedsSomewhere(parts, v, from);
    if i: nat :| EmbedsAt(parts, v, from, i) {
      EmbedsEarlier(parts[1..], v, r.value + |a|, i + |a|);
    }
    if r.Some? && Embeds(parts[1..], v[r.value + |a|..]) {
      assert EmbedsAt(parts, v, from, r.value);
    }
  }

  function NonEmpty(pieces: seq<Text>): (parts: seq<Text>)
    ensures forall k :: 0 <= k < |parts| ==> parts[k] in pieces
    decreases |pieces|
  {
    if pieces == [] then []
    else if pieces[0] == [] then NonEmpty(pieces[1..])
    else [pieces[0]] + NonEmpty(pieces[1..])
  }

  /** A list with the same head, whose tail embeds wherever the other tail does. */
  lemma SameHead(pieces: seq<Text>, parts: seq<Text>, v: Text)
    requires pieces != [] && parts != [] && pieces[0] == parts[0] && Embeds(pieces, v)
    requires forall w :: Embeds(pieces[1..], w) ==> Embeds(parts[1..], w)
    ensures Embeds(parts, v)
  {
    var i :| 0 <= i <= |v| && At(v, i, pieces[0]) && Embeds(pieces[1..], v[i + |pieces[0]|..]);
    assert Embeds(parts[1..], v[i + |parts[0]|..]);
  }

  lemma EmptyHead(pieces: seq<Text>, v: Text)
    requires pieces != [] && pieces[0] == []
    ensures Embeds(pieces, v) <==> Embeds(pieces[1..], v)
  {
    assert v[0..] == v;
    EmbedsSomewhere(pieces, v, 0);
    if i: nat :| EmbedsAt(pieces, v, 0, i) {
      EmbedsEarlier(pieces[1..], v, 0, i);
    }
    if Embeds(pieces[1..], v) {
      assert EmbedsAt(pieces, v, 0, 0);
    }
  }

  /** Empty pieces, between two stars or at an end, do not matter. */
  lemma {:induction false} EmptyPiecesAside(pieces: seq<Text>, v: Text)
    ensures Embeds(pieces, v) <==> Embeds(NonEmpty(pieces), v)
    decreases |pieces|
  {
    if pieces != [] {
      forall w
        ensures Embeds(pieces[1..], w) <==> Embeds(NonEmpty(pieces[1..]), w)
      {
        EmptyPiecesAside(pieces[1..], w);
      }
      if pieces[0] == [] {
        EmptyHead(pieces, v);
      } else {
        assert NonEmpty(pieces)[1..] == NonEmpty(pieces[1..]);
        if Embeds(pieces, v) {
          SameHead(pieces, NonEmpty(pieces), v);
        }
        if Embeds(NonEmpty(pieces), v) {
          SameHead(NonEmpty(pieces), pieces, v);
        }
      }
    }
  }

  /** The parts the program looks for are embedded exactly when the glob `*p*` matches. */
  lemma MatchesIsEmbedding(p: Text, v: Text)
    ensures Matches(p, v) <==> Embeds(NonEmpty(Split(p, STAR)), v)
  {
    SplitJoin(p, STAR);
    PatternOfSplit(p);
    GlobIsEmbedding(Split(p, STAR), v);
    EmptyPiecesAside(Split(p, STAR), v);
  }

  // ---------------------------------------------------------------------------------------
  // The program
  // ---------------------------------------------------------------------------------------

  type Casing = Text -> Text

  /** A single scan, taking the first occurrence of each part. */
  method ScanParts(parts: seq<Text>, v: Text) returns (found: bool)
    ensures found <==> Embeds(parts, v)
  {
    var cursor: nat := 0;
    assert v[0..] == v && parts[0..] == parts;
    for k := 0 to |parts|
      invariant cursor <= |v|
      invariant Embeds(parts, v) <==> Embeds(parts[k..], v[cursor..])
    {
      GreedyStep(parts[k..], v, cursor);
      assert parts[k..][1..] == parts[k + 1..];
      var idx := IndexOf(v, parts[k], cursor);
      if idx.None? {
        return false;
      }
      cursor := idx.value + |parts[k]|;
    }
    return true;
  }

  /** Greedy, without backtracking, and still exactly the glob `*pattern*` on lower-cased text. */
  method MatchesPattern(lower: Casing, pattern: Text, value: Text) returns (r: bool)
    ensures r <==> Matches(lower(pattern), lower(value))
  {
    var normalized, p := lower(value), lower(pattern);
    MatchesIsEmbedding(p, normalized);
    if p == [STAR] {
      StarsOnly(p);
      return true;
    }
    if STAR !in p {
      JoinSplit([p], STAR);
      SubstringOnly(p, normalized);
      r := normalized == p || IndexOf(normalized, p, 0).Some?;
      return;
    }
    var parts := NonEmpty(Split(p, STAR));
    if |parts| == 0 {
      return true;
    }
    r := ScanParts(parts, normalized);
  }

  /** A pattern without stars is looked for as it is. */
  lemma SubstringOnly(p: Text, v: Text)
    requires Split(p, STAR) == [p]
    ensures Embeds(NonEmpty(Split(p, STAR)), v) <==> IndexOf(v, p, 0).Some?
    ensures v == p ==> IndexOf(v, p, 0).Some?
  {
    assert v == p ==> At(v, 0, p);
    EmptyPiecesAside([p], v);
    GreedyStep([p], v, 0);
    assert v[0..] == v;
  }

  // ---------------------------------------------------------------------------------------
  // Scopes
  // ---------------------------------------------------------------------------------------

  predicate MatchesAny(lower: Casing, patterns: seq<Text>, value: Text) {
    exists i :: 0 <= i < |patterns| && Matches(lower(patterns[i]), lower(value))
  }

  method MatchesAnyPattern(lower: Casing, patterns: seq<Text>, value: Text) returns (r: bool)
    ensures r <==> MatchesAny(lower, patterns, value)
  {
    for i := 0 to |patterns|
      invariant forall k :: 0 <= k < i ==> !Matches(lower(patterns[k]), lower(value))
    {
      var m := MatchesPattern(lower, patterns[i], value);
      if m {
        return true;
      }
    }
    return false;
  }

  predicate InScope(lower: Casing, includes: seq<Text>, excludes: seq<Text>, value: Text) {
    !MatchesAny(lower, excludes, value) && (includes == [] || MatchesAny(lower, includes, value))
  }

  predicate InRange(at: Option<int>, from: Option<int>, to: Option<int>) {
    at.Some? && (from.Some? ==> from.value <= at.value) && (to.Some? ==> at.value <= to.value)
  }

  predicate MatchesReferences(lower: Casing, patterns: seq<Text>, references: seq<Text>) {
    patterns == [] || exists i :: 0 <= i < |references| && MatchesAny(lower, patterns, references[i])
  }

  /** Everything the rules need to be evaluated on a record, dates already read (none if unreadable). */
  datatype Rules = Rules(includes: seq<Text>, excludes: seq<Text>, dateFrom: Option<int>, dateTo: Option<int>,
                         references: seq<Text>, mimeAllowlist: seq<Text>)

  datatype Record = Record(title: Text, body: Text, modifiedAt: Option<int>, mimeType: Option<Text>,
    references: seq<Text>)

  datatype Mismatch = INCLUDE_EXCLUDE_MISMATCH | DATE_OUT_OF_RANGE | PROJECT_REFERENCE_MISMATCH | MIME_NOT_ALLOWED

  /** The parts of the program that this model takes as given. */
  datatype Given = Given(lower: Casing, trim: Text -> Text, extract: Text -> seq<Text>)

  const SEMICOLON: Unit := 0x3B
  const SLASH: Unit := 0x2F

  /** Without parameters, trimmed, in lower case. */
  function NormalizeMimeType(g: Given, mimeType: Option<Text>): Option<Text> {
    if mimeType.None? || mimeType.value == [] then None
    else Some(g.lower(g.trim(Split(mimeType.value, SEMICOLON)[0])))
  }

  /** An entry ending in a slash and a star allows all subtypes, any other the type it names. */
  predicate AllowedBy(normalized: Text, entry: Text) {
    if |entry| >= 2 && entry[|entry| - 2..] == [SLASH, STAR] then entry[..|entry| - 1] <= normalized
    else normalized == entry
  }

  predicate MimeAllowed(g: Given, mimeType: Option<Text>, allowlist: seq<Text>) {
    || allowlist == []
    || (var normalized := NormalizeMimeType(g, mimeType);
        && normalized.Some? && normalized.value != []
        && exists i :: 0 <= i < |allowlist| && AllowedBy(normalized.value, g.lower(allowlist[i])))
  }

  method IsMimeAllowed(g: Given, mimeType: Option<Text>, allowlist: seq<Text>) returns (r: bool)
    ensures r <==> MimeAllowed(g, mimeType, allowlist)
  {
    if allowlist == [] {
      return true;
    }
    var normalized := NormalizeMimeType(g, mimeType);
    if normalized.None? || normalized.value == [] {
      return false;
    }
    for i := 0 to |allowlist|
      invariant forall k :: 0 <= k < i ==> !AllowedBy(normalized.value, g.lower(allowlist[k]))
    {
      if AllowedBy(normalized.value, g.lower(allowlist[i])) {
        return true;
      }
    }
    return false;
  }

  /** Title and body, joined by a line feed if neither is empty. */
  function Haystack(r: Record): Text {
    Join(NonEmpty([r.title, r.body]), LF)
  }

  function References(g: Given, r: Record): seq<Text> {
    if |r.references| > 0 then r.references else g.extract(Haystack(r))
  }

  function Decide(g: Given, rules: Rules, r: Record): Outcome<Mismatch> {
    if !InScope(g.lower, rules.includes, rules.excludes, Haystack(r)) then Fail(INCLUDE_EXCLUDE_MISMATCH)
    else if !InRange(r.modifiedAt, rules.dateFrom, rules.dateTo) then Fail(DATE_OUT_OF_RANGE)
    else if !MatchesReferences(g.lower, rules.references, References(g, r)) then Fail(PROJECT_REFERENCE_MISMATCH)
    else if !MimeAllowed(g, r.mimeType, rules.mimeAllowlist) then Fail(MIME_NOT_ALLOWED)
    else Pass
  }

  method RecordMatchesScope(g: Given, rules: Rules, r: Record) returns (result: Outcome<Mismatch>)
    ensures result == Decide(g, rules, r)
    ensures Decided(g, rules, r, result)
  {
    PassingMeans(g, rules, r);
    var haystack := Haystack(r);
    var excluded := MatchesAnyPattern(g.lower, rules.excludes, haystack);
    if excluded {
      return Fail(INCLUDE_EXCLUDE_MISMATCH);
    }
    if rules.includes != [] {
      var included := MatchesAnyPattern(g.lower, rules.includes, haystack);
      if !included {
        return Fail(INCLUDE_EXCLUDE_MISMATCH);
      }
    }
    if !InRange(r.modifiedAt, rules.dateFrom, rules.dateTo) {
      return Fail(DATE_OUT_OF_RANGE);
    }
    var refs := References(g, r);
    var matched := rules.references == [];
    for i := 0 to |refs|
      invariant matched
        <==> rules.references == [] || exists k :: 0 <= k < i && MatchesAny(g.lower, rules.references, refs[k])
    {
      var m := MatchesAnyPattern(g.lower, rules.references, refs[i]);
      matched := matched || m;
    }
    if !matched {
      return Fail(PROJECT_REFERENCE_MISMATCH);
    }
    var allowed := IsMimeAllowed(g, r.mimeType, rules.mimeAllowlist);
    if !allowed {
      return Fail(MIME_NOT_ALLOWED);
    }
    return Pass;
  }

  // ---------------------------------------------------------------------------------------
  // Laws
  // ---------------------------------------------------------------------------------------

  /** Text around a match does not undo it. */
  lemma MatchesInside(p: Text, before: Text, v: Text, after: Text)
    requires Matches(p, v)
    ensures Matches(p, before + v + after)
  {
    MatchesIsEmbedding(p, v);
    MatchesIsEmbedding(p, before + v + after);
    var parts, w := NonEmpty(Split(p, STAR)), before + v + after;
    EmbedsLonger(parts, v, after);
    assert w[0..] == w && w[|before|..] == v + after;
    EmbedsEarlier(parts, w, 0, |before|);
  }

  lemma {:induction false} EmbedsLonger(parts: seq<Text>, v: Text, after: Text)
    requires Embeds(parts, v)
    ensures Embeds(parts, v + after)
    decreases |parts|
  {
    if parts != [] {
      var a := parts[0];
      var i :| 0 <= i <= |v| && At(v, i, a) && Embeds(parts[1..], v[i + |a|..]);
      EmbedsLonger(parts[1..], v[i + |a|..], after);
      assert (v + after)[i..i + |a|] == v[i..i + |a|];
      assert (v + after)[i + |a|..] == v[i + |a|..] + after;
      assert At(v + after, i, a);
    }
  }

  /** A pattern matches every text exactly when it holds nothing but stars; the empty pattern does. */
  lemma MatchesEverything(p: Text)
    ensures (forall v :: Matches(p, v)) <==> forall i :: 0 <= i < |p| ==> p[i] == STAR
  {
    var parts := NonEmpty(Split(p, STAR));
    StarsOnly(p);
    if parts == [] {
      forall v ensures Matches(p, v) {
        MatchesIsEmbedding(p, v);
      }
    } else {
      MatchesIsEmbedding(p, []);
      NonEmptyHead(Split(p, STAR));
      GreedyStep(parts, [], 0);
      assert !Matches(p, []);
    }
  }

  lemma {:induction false} NonEmptyHead(pieces: seq<Text>)
    requires NonEmpty(pieces) != []
    ensures NonEmpty(pieces)[0] != []
    decreases |pieces|
  {
    if pieces[0] == [] {
      NonEmptyHead(pieces[1..]);
    }
  }

  lemma {:induction false} StarsOnly(p: Text)
    ensures NonEmpty(Split(p, STAR)) == [] <==> forall i :: 0 <= i < |p| ==> p[i] == STAR
    decreases |p|
  {
    if p != [] {
      StarsOnly(p[1..]);
      var pieces, rest := Split(p, STAR), Split(p[1..], STAR);
      assert forall i :: 0 < i < |p| ==> p[i] == p[1..][i - 1];
      if p[0] == STAR {
        assert pieces[1..] == rest;
      } else {
        assert pieces[0] != [];
      }
    } else {
      assert Split(p, STAR)[1..] == [];
    }
  }

  lemma MoreExcluded(lower: Casing, patterns: seq<Text>, more: seq<Text>, value: Text)
    ensures MatchesAny(lower, patterns + more, value)
      <==> MatchesAny(lower, patterns, value) || MatchesAny(lower, more, value)
  {
    var all := patterns + more;
    if MatchesAny(lower, patterns, value) {
      var i :| 0 <= i < |patterns| && Matches(lower(patterns[i]), lower(value));
      assert all[i] == patterns[i];
    }
    if MatchesAny(lower, more, value) {
      var i :| 0 <= i < |more| && Matches(lower(more[i]), lower(value));
      assert all[|patterns| + i] == more[i];
    }
  }

  /** Adding exclude patterns never admits a record, and any one of them that matches keeps it out. */
  lemma ExcludingNeverAdmits(g: Given, rules: Rules, more: seq<Text>, r: Record)
    ensures Decide(g, rules.(excludes := rules.excludes + more), r).Pass? <==>
      Decide(g, rules, r).Pass? && !MatchesAny(g.lower, more, Haystack(r))
  {
    MoreExcluded(g.lower, rules.excludes, more, Haystack(r));
  }

  /** Adding include patterns to a list that has some never rejects a record; starting a list may. */
  lemma IncludingNeverRejects(g: Given, rules: Rules, more: seq<Text>, r: Record)
    requires rules.includes != [] && Decide(g, rules, r).Pass?
    ensures Decide(g, rules.(includes := rules.includes + more), r).Pass?
  {
    MoreExcluded(g.lower, rules.includes, more, Haystack(r));
  }

  /** An exclude pattern of stars only, or an empty one, keeps every record out. */
  lemma StarExcludesEverything(g: Given, rules: Rules, r: Record, k: nat)
    requires k < |rules.excludes| && forall i :: 0 <= i < |g.lower(rules.excludes[k])| ==>
      g.lower(rules.excludes[k])[i] == STAR
    ensures Decide(g, rules, r) == Fail(INCLUDE_EXCLUDE_MISMATCH)
  {
    MatchesEverything(g.lower(rules.excludes[k]));
    assert Matches(g.lower(rules.excludes[k]), g.lower(Haystack(r)));
  }

  // ---------------------------------------------------------------------------------------
  // What passing means
  // ---------------------------------------------------------------------------------------

  /** One of the patterns occurs in the text, in lower case both. */
  ghost predicate SomeMatch(lower: Casing, patterns: seq<Text>, value: Text) {
    exists p :: p in patterns && Matches(lower(p), lower(value))
  }

  lemma SomeMatchMeans(lower: Casing, patterns: seq<Text>, value: Text)
    ensures SomeMatch(lower, patterns, value) <==> MatchesAny(lower, patterns, value)
  {
    if p :| p in patterns && Matches(lower(p), lower(value)) {
      var i :| 0 <= i < |patterns| && patterns[i] == p;
      assert Matches(lower(patterns[i]), lower(value));
    }
  }

  /** The references written with the record, or else those found in its text. */
  ghost predicate IsReference(g: Given, r: Record, reference: Text) {
    if r.references == [] then reference in g.extract(Haystack(r)) else reference in r.references
  }

  /** No exclude pattern, and some include pattern if there are any. */
  ghost predicate MeetsPatterns(g: Given, rules: Rules, r: Record) {
    && !SomeMatch(g.lower, rules.excludes, Haystack(r))
    && (rules.includes != [] ==> SomeMatch(g.lower, rules.includes, Haystack(r)))
  }

  /** Not before the first date and not after the second, where they are set. */
  ghost predicate MeetsDates(rules: Rules, r: Record) {
    && r.modifiedAt.Some?
    && (rules.dateFrom.Some? ==> rules.dateFrom.value <= r.modifiedAt.value)
    && (rules.dateTo.Some? ==> r.modifiedAt.value <= rules.dateTo.value)
  }

  ghost predicate MeetsReferences(g: Given, rules: Rules, r: Record) {
    rules.references != [] ==>
      exists reference :: IsReference(g, r, reference) && SomeMatch(g.lower, rules.references, reference)
  }

  ghost predicate MeetsTypes(g: Given, rules: Rules, r: Record) {
    rules.mimeAllowlist != [] ==> HasAllowedType(g, rules, r)
  }

  ghost predicate Passes(g: Given, rules: Rules, r: Record) {
    MeetsPatterns(g, rules, r) && MeetsDates(rules, r) && MeetsReferences(g, rules, r) && MeetsTypes(g, rules, r)
  }

  /** A record passes, or fails for the first rule that it does not meet. */
  ghost predicate Decided(g: Given, rules: Rules, r: Record, result: Outcome<Mismatch>) {
    && (result == Pass <==> Passes(g, rules, r))
    && (result == Fail(INCLUDE_EXCLUDE_MISMATCH) <==> !MeetsPatterns(g, rules, r))
    && (result == Fail(DATE_OUT_OF_RANGE) <==> MeetsPatterns(g, rules, r) && !MeetsDates(rules, r))
    && (result == Fail(PROJECT_REFERENCE_MISMATCH)
        <==> MeetsPatterns(g, rules, r) && MeetsDates(rules, r) && !MeetsReferences(g, rules, r))
  }

  ghost predicate HasAllowedType(g: Given, rules: Rules, r: Record) {
    && r.mimeType.Some? && r.mimeType.value != []
    && var name := g.lower(g.trim(BeforeSemicolon(r.mimeType.value)));
    && name != []
    && exists entry :: entry in rules.mimeAllowlist
                       && (Names(g.lower(entry), name) || NamesFamily(g.lower(entry), name))
  }

  function BeforeSemicolon(s: Text): (t: Text)
    ensures t <= s
  {
    if s == [] || s[0] == 0x3B then [] else [s[0]] + BeforeSemicolon(s[1..])
  }

  ghost predicate Names(entry: Text, name: Text) {
    entry == name && !EndsInSlashStar(entry)
  }

  ghost predicate EndsInSlashStar(entry: Text) {
    exists family: Text :: entry == family + [0x2F, 0x2A]
  }

  /** An entry for all subtypes of a family, and one of its types. */
  ghost predicate NamesFamily(entry: Text, name: Text) {
    exists family: Text, subtype: Text :: entry == family + [0x2F, 0x2A] && name == family + [0x2F] + subtype
  }

  lemma AllowedByMeans(name: Text, entry: Text)
    ensures AllowedBy(name, entry) <==> Names(entry, name) || NamesFamily(entry, name)
  {
    SlashStar(entry);
    if |entry| >= 2 && entry[|entry| - 2..] == [SLASH, STAR] {
      var family := entry[..|entry| - 2];
      assert entry == family + [0x2F, 0x2A];
      if AllowedBy(name, entry) {
        assert name == family + [0x2F] + name[|entry| - 1..];
      }
      forall other: Text, subtype: Text | entry == other + [0x2F, 0x2A] && name == other + [0x2F] + subtype
        ensures entry[..|entry| - 1] <= name
      {
        assert entry[..|entry| - 1] == other + [0x2F];
      }
    }
  }

  lemma SlashStar(entry: Text)
    ensures EndsInSlashStar(entry) <==> |entry| >= 2 && entry[|entry| - 2..] == [SLASH, STAR]
  {
    if |entry| >= 2 && entry[|entry| - 2..] == [SLASH, STAR] {
      assert entry == entry[..|entry| - 2] + [0x2F, 0x2A];
    }
    if family: Text :| entry == family + [0x2F, 0x2A] {
      assert entry[|entry| - 2..] == [0x2F, 0x2A];
    }
  }

  lemma {:induction false} FirstPiece(s: Text)
    ensures Split(s, SEMICOLON)[0] == BeforeSemicolon(s)
    decreases |s|
  {
    if s != [] {
      FirstPiece(s[1..]);
    }
  }

  lemma TypeMeans(g: Given, rules: Rules, r: Record)
    requires rules.mimeAllowlist != []
    ensures MimeAllowed(g, r.mimeType, rules.mimeAllowlist) <==> HasAllowedType(g, rules, r)
  {
    if r.mimeType.Some? && r.mimeType.value != [] {
      FirstPiece(r.mimeType.value);
      var name := g.lower(g.trim(BeforeSemicolon(r.mimeType.value)));
      forall entry | entry in rules.mimeAllowlist
        ensures AllowedBy(name, g.lower(entry)) <==> Names(g.lower(entry), name) || NamesFamily(g.lower(entry), name)
      {
        AllowedByMeans(name, g.lower(entry));
      }
      if entry :| entry in rules.mimeAllowlist && (Names(g.lower(entry), name) || NamesFamily(g.lower(entry), name)) {
        var i :| 0 <= i < |rules.mimeAllowlist| && rules.mimeAllowlist[i] == entry;
        assert AllowedBy(name, g.lower(rules.mimeAllowlist[i]));
      }
    }
  }

  lemma ReferencesMean(g: Given, rules: Rules, r: Record)
    requires rules.references != []
    ensures MatchesReferences(g.lower, rules.references, References(g, r))
      <==> exists reference :: IsReference(g, r, reference) && SomeMatch(g.lower, rules.references, reference)
  {
    forall reference
      ensures SomeMatch(g.lower, rules.references, reference) <==> MatchesAny(g.lower, rules.references, reference)
    {
      SomeMatchMeans(g.lower, rules.references, reference);
    }
    if reference :| IsReference(g, r, reference) && SomeMatch(g.lower, rules.references, reference) {
      var refs := References(g, r);
      var i :| 0 <= i < |refs| && refs[i] == reference;
      assert MatchesAny(g.lower, rules.references, refs[i]);
    }
  }

  /** A record passes exactly if it meets every rule that is set, and else fails for the first it does not meet. */
  lemma PassingMeans(g: Given, rules: Rules, r: Record)
    ensures Decided(g, rules, r, Decide(g, rules, r))
  {
    SomeMatchMeans(g.lower, rules.excludes, Haystack(r));
    SomeMatchMeans(g.lower, rules.includes, Haystack(r));
    if rules.references != [] {
      ReferencesMean(g, rules, r);
    }
    if rules.mimeAllowlist != [] {
      TypeMeans(g, rules, r);
    }
  }

  /** The text that is searched holds the title and the body, and between them nothing but a line feed. */
  lemma TitleAndBody(r: Record)
    ensures Haystack(r)
      == if r.title == [] then r.body else if r.body == [] then r.title else r.title + [0x0A] + r.body
  {
    NonEmptyTwo(r.title, r.body);
    if r.title != [] && r.body != [] {
      assert [r.title, r.body][1..] == [r.body];
      assert Join([r.body], LF) == r.body;
    } else if r.title != [] || r.body != [] {
      var one := if r.title != [] then r.title else r.body;
      assert Join([one], LF) == one;
    }
  }

  lemma NonEmptyTwo(a: Text, b: Text)
    ensures NonEmpty([a, b]) == (if a == [] then [] else [a]) + (if b == [] then [] else [b])
  {
    var behind: seq<Text> := [a, b][1..];
    assert behind == [b] && behind[1..] == [];
    NoPieces(behind[1..]);
    assert NonEmpty(behind) == if b == [] then [] else [b];
  }

  lemma NoPieces(pieces: seq<Text>)
    requires pieces == []
    ensures NonEmpty(pieces) == []
  {
  }

  /** Lower-casing works unit by unit. */
  ghost predicate UnitByUnit(lower: Casing) {
    forall a, b :: lower(a + b) == lower(a) + lower(b)
  }

  lemma InsideCounts(lower: Casing, patterns: seq<Text>, before: Text, part: Text, after: Text, whole: Text)
    requires UnitByUnit(lower) && whole == before + part + after && SomeMatch(lower, patterns, part)
    ensures SomeMatch(lower, patterns, whole)
  {
    var p :| p in patterns && Matches(lower(p), lower(part));
    MatchesInside(lower(p), lower(before), lower(part), lower(after));
    assert lower(whole) == lower(before + part) + lower(after);
    assert lower(before + part) == lower(before) + lower(part);
  }

  /** So a pattern that occurs in the body alone counts, and one that occurs in the title alone as well. */
  lemma BodyAndTitleCount(g: Given, patterns: seq<Text>, r: Record)
    requires UnitByUnit(g.lower) && r.title != [] && r.body != []
    ensures SomeMatch(g.lower, patterns, r.body) ==> SomeMatch(g.lower, patterns, Haystack(r))
    ensures SomeMatch(g.lower, patterns, r.title) ==> SomeMatch(g.lower, patterns, Haystack(r))
  {
    TitleAndBody(r);
    var whole := Haystack(r);
    if SomeMatch(g.lower, patterns, r.body) {
      assert whole == (r.title + [0x0A]) + r.body + [];
      InsideCounts(g.lower, patterns, r.title + [0x0A], r.body, [], whole);
    }
    if SomeMatch(g.lower, patterns, r.title) {
      assert whole == [] + r.title + ([0x0A] + r.body);
      InsideCounts(g.lower, patterns, [], r.title, [0x0A] + r.body, whole);
    }
  }
}
