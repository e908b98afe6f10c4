/**
 The rules of packages/notice-delivery/src/domain.ts: the status of an attempt from the statuses of
 its recipients, the comparison of attachments, and the idempotency key.
 */
module DispatchDomain {
  import opened Results
  import opened Texts

  datatype RecipientStatus = PENDING | SUBMITTED | SENT | DELIVERED | BOUNCED | REJECTED | FAILED
    | ACKNOWLEDGED | UNKNOWN | MANUALLY_CONFIRMED

  datatype AttemptStatus = AttemptPrepared | AttemptSubmitted | AttemptSent | AttemptDelivered
    | AttemptPartiallyDelivered | AttemptFailed | AttemptDeliveryPending

  // ---------------------------------------------------------------------------------------
  // Aggregation
  // ---------------------------------------------------------------------------------------

  predicate Confirmed(s: RecipientStatus) {
    s == DELIVERED || s == ACKNOWLEDGED || s == MANUALLY_CONFIRMED
  }

  predicate SentOrConfirmed(s: RecipientStatus) {
    s == SENT || Confirmed(s)
  }

  predicate Unsuccessful(s: RecipientStatus) {
    s == FAILED || s == BOUNCED || s == REJECTED
  }

  predicate UnsuccessfulOrOpen(s: RecipientStatus) {
    Unsuccessful(s) || s == PENDING || s == UNKNOWN
  }

  predicate Every(p: RecipientStatus -> bool, ss: seq<RecipientStatus>) {
    forall i :: 0 <= i < |ss| ==> p(ss[i])
  }

  predicate Any(p: RecipientStatus -> bool, ss: seq<RecipientStatus>) {
    exists i :: 0 <= i < |ss| && p(ss[i])
  }

  function Aggregate(ss: seq<RecipientStatus>): AttemptStatus {
    if |ss| == 0 then AttemptFailed
    else if Every(Confirmed, ss) then AttemptDelivered
    else if Every(SentOrConfirmed, ss) then AttemptSent
    else if Every(Unsuccessful, ss) then AttemptFailed
    else if Any(SentOrConfirmed, ss) && Any(UnsuccessfulOrOpen, ss) then AttemptPartiallyDelivered
    else if Every(s => s == SUBMITTED, ss) then AttemptSubmitted
    else if Every(s => s == PENDING, ss) then AttemptPrepared
    else AttemptDeliveryPending
  }

  lemma SameQuantifiers(p: RecipientStatus -> bool, a: seq<RecipientStatus>, b: seq<RecipientStatus>)
    requires forall s :: s in a <==> s in b
    ensures Every(p, a) <==> Every(p, b)
    ensures Any(p, a) <==> Any(p, b)
  {
    assert forall i :: 0 <= i < |a| ==> a[i] in b;
    assert forall i :: 0 <= i < |b| ==> b[i] in a;
  }

  /** Neither order nor repetition of the recipients matters. */
  lemma AggregateOfSet(a: seq<RecipientStatus>, b: seq<RecipientStatus>)
    requires forall s :: s in a <==> s in b
    ensures Aggregate(a) == Aggregate(b)
  {
    assert a != [] ==> a[0] in b;
    assert b != [] ==> b[0] in a;
    SameQuantifiers(Confirmed, a, b);
    SameQuantifiers(SentOrConfirmed, a, b);
    SameQuantifiers(Unsuccessful, a, b);
    SameQuantifiers(UnsuccessfulOrOpen, a, b);
    SameQuantifiers(s => s == SUBMITTED, a, b);
    SameQuantifiers(s => s == PENDING, a, b);
  }

  /**
   With an unsuccessful recipient the attempt is FAILED if no other kind is present, else
   PARTIALLY_DELIVERED if some recipient was reached, else DELIVERY_PENDING; it never looks well.
   */
  lemma FailureIsNeverHidden(ss: seq<RecipientStatus>, k: nat)
    requires k < |ss| && Unsuccessful(ss[k])
    ensures Aggregate(ss) ==
      if Every(Unsuccessful, ss) then AttemptFailed
      else if Any(SentOrConfirmed, ss) then AttemptPartiallyDelivered
      else AttemptDeliveryPending
  {
    assert !Confirmed(ss[k]) && !SentOrConfirmed(ss[k]) && UnsuccessfulOrOpen(ss[k]);
    assert ss[k] != SUBMITTED && ss[k] != PENDING;
  }

  /** Delivered means that there are recipients and all of them have it. */
  lemma DeliveredMeansAll(ss: seq<RecipientStatus>)
    ensures Aggregate(ss) == AttemptDelivered <==> ss != [] && Every(Confirmed, ss)
    ensures Aggregate(ss) == AttemptSent <==> ss != [] && Every(SentOrConfirmed, ss) && !Every(Confirmed, ss)
    ensures Aggregate(ss) == AttemptFailed <==> Every(Unsuccessful, ss)
  {
    if ss != [] && Every(Unsuccessful, ss) {
      assert Unsuccessful(ss[0]);
    }
  }

  lemma OverOccurring(p: RecipientStatus -> bool, ss: seq<RecipientStatus>, kinds: set<RecipientStatus>)
    requires forall s :: s in kinds <==> p(s)
    ensures Every(p, ss) <==> (set s | s in ss) <= kinds
    ensures Any(p, ss) <==> (set s | s in ss) * kinds != {}
  {
    var occurring := set s | s in ss;
    if occurring * kinds != {} {
      var s :| s in occurring && s in kinds;
    }
    forall i | 0 <= i < |ss|
      ensures ss[i] in occurring
    {
    }
    if occurring <= kinds {
      forall i | 0 <= i < |ss| ensures p(ss[i]) {
        assert ss[i] in kinds;
      }
    }
    if i :| 0 <= i < |ss| && p(ss[i]) {
      assert ss[i] in occurring * kinds;
    }
  }

  lemma KindsOccurring(ss: seq<RecipientStatus>, occurring: set<RecipientStatus>)
    requires occurring == set s | s in ss
    ensures ss == [] <==> occurring == {}
    ensures Every(Confirmed, ss) <==> occurring <= {DELIVERED, ACKNOWLEDGED, MANUALLY_CONFIRMED}
    ensures Every(SentOrConfirmed, ss) <==> occurring <= {SENT, DELIVERED, ACKNOWLEDGED, MANUALLY_CONFIRMED}
    ensures Every(Unsuccessful, ss) <==> occurring <= {FAILED, BOUNCED, REJECTED}
    ensures Any(SentOrConfirmed, ss) <==> occurring * {SENT, DELIVERED, ACKNOWLEDGED, MANUALLY_CONFIRMED} != {}
    ensures Any(UnsuccessfulOrOpen, ss) <==> occurring * {FAILED, BOUNCED, REJECTED, PENDING, UNKNOWN} != {}
    ensures Every(s => s == SUBMITTED, ss) <==> occurring <= {SUBMITTED}
    ensures Every(s => s == PENDING, ss) <==> occurring <= {PENDING}
  {
    assert ss != [] ==> ss[0] in occurring;
    OverOccurring(Confirmed, ss, {DELIVERED, ACKNOWLEDGED, MANUALLY_CONFIRMED});
    OverOccurring(SentOrConfirmed, ss, {SENT, DELIVERED, ACKNOWLEDGED, MANUALLY_CONFIRMED});
    OverOccurring(Unsuccessful, ss, {FAILED, BOUNCED, REJECTED});
    OverOccurring(UnsuccessfulOrOpen, ss, {FAILED, BOUNCED, REJECTED, PENDING, UNKNOWN});
    OverOccurring(s => s == SUBMITTED, ss, {SUBMITTED});
    OverOccurring(s => s == PENDING, ss, {PENDING});
  }

  /** An attempt looks well exactly if every recipient does. */
  lemma LooksWell(ss: seq<RecipientStatus>, occurring: set<RecipientStatus>)
    requires occurring == set s | s in ss
    ensures Aggregate(ss) == AttemptDelivered
      <==> occurring != {} && occurring <= {DELIVERED, ACKNOWLEDGED, MANUALLY_CONFIRMED}
    ensures Aggregate(ss) == AttemptSent
      <==> SENT in occurring && occurring <= {SENT, DELIVERED, ACKNOWLEDGED, MANUALLY_CONFIRMED}
  {
    KindsOccurring(ss, occurring);
    if SENT !in occurring && occurring <= {SENT, DELIVERED, ACKNOWLEDGED, MANUALLY_CONFIRMED} {
      assert occurring <= {DELIVERED, ACKNOWLEDGED, MANUALLY_CONFIRMED};
    }
  }

  /** It is a failure exactly if every recipient is, and partial exactly if one was reached and one not. */
  lemma LooksIll(ss: seq<RecipientStatus>, occurring: set<RecipientStatus>)
    requires occurring == set s | s in ss
    ensures Aggregate(ss) == AttemptFailed <==> occurring <= {FAILED, BOUNCED, REJECTED}
    ensures Aggregate(ss) == AttemptPartiallyDelivered
      <==> && occurring * {SENT, DELIVERED, ACKNOWLEDGED, MANUALLY_CONFIRMED} != {}
           && occurring * {FAILED, BOUNCED, REJECTED, PENDING, UNKNOWN} != {}
  {
    KindsOccurring(ss, occurring);
    var well, ill: set<RecipientStatus> := {SENT, DELIVERED, ACKNOWLEDGED, MANUALLY_CONFIRMED},
      {FAILED, BOUNCED, REJECTED, PENDING, UNKNOWN};
    if occurring <= well {
      assert occurring * ill == {};
    }
    if occurring <= {FAILED, BOUNCED, REJECTED} {
      assert occurring * well == {};
    }
    if occurring <= well && occurring <= {FAILED, BOUNCED, REJECTED} {
      assert occurring == {};
    }
  }

  /** It is as far as its recipients if they are all equally far, and not sent yet. */
  lemma LooksEven(ss: seq<RecipientStatus>, occurring: set<RecipientStatus>)
    requires occurring == set s | s in ss
    ensures Aggregate(ss) == AttemptSubmitted <==> occurring == {SUBMITTED}
    ensures Aggregate(ss) == AttemptPrepared <==> occurring == {PENDING}
  {
    KindsOccurring(ss, occurring);
    assert occurring != {} && occurring <= {SUBMITTED} ==> occurring == {SUBMITTED};
    assert occurring != {} && occurring <= {PENDING} ==> occurring == {PENDING};
    if occurring == {SUBMITTED} || occurring == {PENDING} {
      assert SUBMITTED in occurring || PENDING in occurring;
      assert occurring * {SENT, DELIVERED, ACKNOWLEDGED, MANUALLY_CONFIRMED} == {};
    }
  }

  function Others(ss: seq<RecipientStatus>, i: nat): seq<RecipientStatus>
    requires i < |ss|
  {
    ss[..i] + ss[i + 1..]
  }

  lemma SplitOne(p: RecipientStatus -> bool, ss: seq<RecipientStatus>, i: nat)
    requires i < |ss|
    ensures Every(p, ss) <==> p(ss[i]) && Every(p, Others(ss, i))
    ensures Any(p, ss) <==> p(ss[i]) || Any(p, Others(ss, i))
  {
    var o := Others(ss, i);
    assert forall j :: 0 <= j < i ==> o[j] == ss[j];
    assert forall j :: i < j < |ss| ==> o[j - 1] == ss[j];
  }

  lemma SplitAll(ss: seq<RecipientStatus>, i: nat)
    requires i < |ss|
    ensures var s, o := ss[i], Others(ss, i);
      && (Every(Confirmed, ss) <==> Confirmed(s) && Every(Confirmed, o))
      && (Every(SentOrConfirmed, ss) <==> SentOrConfirmed(s) && Every(SentOrConfirmed, o))
      && (Every(Unsuccessful, ss) <==> Unsuccessful(s) && Every(Unsuccessful, o))
      && (Any(SentOrConfirmed, ss) <==> SentOrConfirmed(s) || Any(SentOrConfirmed, o))
      && (Any(UnsuccessfulOrOpen, ss) <==> UnsuccessfulOrOpen(s) || Any(UnsuccessfulOrOpen, o))
      && (Every(x => x == SUBMITTED, ss) <==> s == SUBMITTED && Every(x => x == SUBMITTED, o))
      && (Every(x => x == PENDING, ss) <==> s == PENDING && Every(x => x == PENDING, o))
  {
    SplitOne(Confirmed, ss, i);
    SplitOne(SentOrConfirmed, ss, i);
    SplitOne(Unsuccessful, ss, i);
    SplitOne(UnsuccessfulOrOpen, ss, i);
    SplitOne(x => x == SUBMITTED, ss, i);
    SplitOne(x => x == PENDING, ss, i);
  }

  /** How the kinds of a list of statuses exclude each other. */
  lemma Kinds(o: seq<RecipientStatus>)
    ensures Every(Confirmed, o) ==> Every(SentOrConfirmed, o)
    ensures Every(SentOrConfirmed, o) <==> !Any(UnsuccessfulOrOpen, o) && !Any(x => x == SUBMITTED, o)
    ensures Every(x => x == SUBMITTED, o) <==> !Any(UnsuccessfulOrOpen, o) && !Any(SentOrConfirmed, o)
    ensures o != [] && Every(Unsuccessful, o) ==> Any(UnsuccessfulOrOpen, o) && !Any(SentOrConfirmed, o)
    ensures o != [] && Every(x => x == PENDING, o) ==> Any(UnsuccessfulOrOpen, o) && !Any(SentOrConfirmed, o)
    ensures Any(SentOrConfirmed, o) ==> o != []
  {
    if o != [] {
      assert Unsuccessful(o[0]) ==> UnsuccessfulOrOpen(o[0]);
      assert o[0] == PENDING ==> UnsuccessfulOrOpen(o[0]);
    }
    if !Any(UnsuccessfulOrOpen, o) && !Any(x => x == SUBMITTED, o) {
      forall i | 0 <= i < |o| ensures SentOrConfirmed(o[i]) {
        assert !UnsuccessfulOrOpen(o[i]);
        assert !(x => x == SUBMITTED)(o[i]);
      }
    }
  }

  /** When acknowledging recipient `i` leaves the stored aggregate right: by the others alone. */
  predicate AcknowledgmentAgrees(former: RecipientStatus, others: seq<RecipientStatus>) {
    if Confirmed(former) then true
    else if former == SENT then !Every(Confirmed, others)
    else if former == SUBMITTED then
      Any(SentOrConfirmed, others) && (Any(UnsuccessfulOrOpen, others) || Any(x => x == SUBMITTED, others))
    else
      || (Any(SentOrConfirmed, others) && Any(UnsuccessfulOrOpen, others))
      || (others != [] && Every(x => x == SUBMITTED, others))
  }

  /** The aggregate with one recipient that is neither sent nor confirmed. */
  lemma AggregateWithUnreached(ss: seq<RecipientStatus>, i: nat, o: seq<RecipientStatus>)
    requires i < |ss| && !SentOrConfirmed(ss[i]) && o == Others(ss, i)
    ensures Aggregate(ss) ==
      if Unsuccessful(ss[i]) && Every(Unsuccessful, o) then AttemptFailed
      else if Any(SentOrConfirmed, o) && (UnsuccessfulOrOpen(ss[i]) || Any(UnsuccessfulOrOpen, o))
      then AttemptPartiallyDelivered
      else if ss[i] == SUBMITTED && Every(x => x == SUBMITTED, o) then AttemptSubmitted
      else if ss[i] == PENDING && Every(x => x == PENDING, o) then AttemptPrepared
      else AttemptDeliveryPending
  {
    SplitAll(ss, i);
  }

  /** The aggregate with one recipient that is sent or confirmed. */
  lemma AggregateWithReached(ss: seq<RecipientStatus>, i: nat, o: seq<RecipientStatus>)
    requires i < |ss| && SentOrConfirmed(ss[i]) && o == Others(ss, i)
    ensures Aggregate(ss) ==
      if Confirmed(ss[i]) && Every(Confirmed, o) then AttemptDelivered
      else if Every(SentOrConfirmed, o) then AttemptSent
      else if Any(UnsuccessfulOrOpen, o) then AttemptPartiallyDelivered
      else AttemptDeliveryPending
  {
    SplitAll(ss, i);
  }

  /**
   An acknowledgment changes a recipient and leaves the status of the attempt alone.  The stored
   status is still the aggregate exactly in the cases of `AcknowledgmentAgrees`.
   */
  lemma AcknowledgmentKeepsAgreement(ss: seq<RecipientStatus>, i: nat)
    requires i < |ss|
    ensures Aggregate(ss[i := ACKNOWLEDGED]) == Aggregate(ss) <==> AcknowledgmentAgrees(ss[i], Others(ss, i))
  {
    var after, o := ss[i := ACKNOWLEDGED], Others(ss, i);
    assert Others(after, i) == o;
    Kinds(o);
    AggregateWithReached(after, i, o);
    if SentOrConfirmed(ss[i]) {
      AggregateWithReached(ss, i, o);
    } else {
      AggregateWithUnreached(ss, i, o);
    }
  }

  /** For instance: of two recipients one is sent and one still pending, and the pending one acknowledges. */
  lemma AcknowledgmentCanDisagree()
    ensures Aggregate([PENDING, SENT]) == AttemptPartiallyDelivered
    ensures Aggregate([PENDING, SENT][0 := ACKNOWLEDGED]) == AttemptSent
  {
    var before, after := [PENDING, SENT], [PENDING, SENT][0 := ACKNOWLEDGED];
    assert !Confirmed(before[0]) && !SentOrConfirmed(before[0]) && !Unsuccessful(before[0]);
    assert UnsuccessfulOrOpen(before[0]) && SentOrConfirmed(before[1]);
    assert !Confirmed(after[1]);
  }

  // ---------------------------------------------------------------------------------------
  // Attachments
  // ---------------------------------------------------------------------------------------

  datatype Attachment = Attachment(id: string, checksum: string, filename: string)

  datatype AttachmentError = COUNT_MISMATCH | MISSING | CHECKSUM_MISMATCH | FILENAME_MISMATCH

  /** The last attachment with an id, as a map built from the list keeps it. */
  function LastWith(attachments: seq<Attachment>, id: string): Option<Attachment>
    decreases |attachments|
  {
    if attachments == [] then None
    else
      var last := attachments[|attachments| - 1];
      if last.id == id then Some(last) else LastWith(attachments[..|attachments| - 1], id)
  }

  predicate Accepts(attachments: seq<Attachment>, expected: seq<Attachment>) {
    |attachments| == |expected| && forall i :: 0 <= i < |expected| ==>
      LastWith(attachments, expected[i].id) == Some(expected[i])
  }

  method ById(attachments: seq<Attachment>) returns (byId: map<string, Attachment>)
    ensures forall id :: LastWith(attachments, id) == if id in byId then Some(byId[id]) else None
  {
    byId := map[];
    for i := 0 to |attachments|
      invariant forall id :: LastWith(attachments[..i], id) == if id in byId then Some(byId[id]) else None
    {
      assert attachments[..i + 1][..i] == attachments[..i];
      byId := byId[attachments[i].id := attachments[i]];
    }
    assert attachments[..|attachments|] == attachments;
  }

  lemma LastHasId(attachments: seq<Attachment>, id: string)
    ensures LastWith(attachments, id).Some? ==>
      LastWith(attachments, id).value.id == id && LastWith(attachments, id).value in attachments
    decreases |attachments|
  {
    if attachments != [] {
      LastHasId(attachments[..|attachments| - 1], id);
    }
  }

  /** The attachment at `k` has this id, and no later one has it. */
  ghost predicate IsLastAt(attachments: seq<Attachment>, id: string, k: nat) {
    && k < |attachments| && attachments[k].id == id
    && forall j :: k < j < |attachments| ==> attachments[j].id != id
  }

  ghost predicate IsLastWith(attachments: seq<Attachment>, id: string, a: Attachment) {
    exists k: nat :: IsLastAt(attachments, id, k) && attachments[k] == a
  }

  lemma {:induction false} LastIsAt(attachments: seq<Attachment>, id: string) returns (k: nat)
    ensures match LastWith(attachments, id)
      case None => forall j :: 0 <= j < |attachments| ==> attachments[j].id != id
      case Some(a) => IsLastAt(attachments, id, k) && attachments[k] == a
    decreases |attachments|
  {
    k := 0;
    if attachments != [] {
      if attachments[|attachments| - 1].id == id {
        k := |attachments| - 1;
      } else {
        k := LastIsAt(attachments[..|attachments| - 1], id);
      }
    }
  }

  lemma LastWithMeans(attachments: seq<Attachment>, id: string)
    ensures LastWith(attachments, id) == None ==> forall k :: 0 <= k < |attachments| ==> attachments[k].id != id
    ensures LastWith(attachments, id).Some? ==> IsLastWith(attachments, id, LastWith(attachments, id).value)
  {
    var k := LastIsAt(attachments, id);
  }

  lemma OnlyOneIsLast(attachments: seq<Attachment>, id: string, a: Attachment, b: Attachment)
    requires IsLastWith(attachments, id, a) && IsLastWith(attachments, id, b)
    ensures a == b
  {
    var k: nat :| IsLastAt(attachments, id, k) && attachments[k] == a;
    var l: nat :| IsLastAt(attachments, id, l) && attachments[l] == b;
    assert k == l;
  }

  /** What is wrong with an expected attachment. */
  ghost predicate IsFaultOf(attachments: seq<Attachment>, e: Attachment, error: AttachmentError) {
    match error
    case COUNT_MISMATCH => false
    case MISSING => forall k :: 0 <= k < |attachments| ==> attachments[k].id != e.id
    case CHECKSUM_MISMATCH => exists a :: IsLastWith(attachments, e.id, a) && a.checksum != e.checksum
    case FILENAME_MISMATCH =>
      exists a :: IsLastWith(attachments, e.id, a) && a.checksum == e.checksum && a.filename != e.filename
  }

  ghost predicate IsThere(attachments: seq<Attachment>, e: Attachment) {
    IsLastWith(attachments, e.id, e)
  }

  /** The attachments at hand differ from the expected ones: in number, or else first at entry `i`. */
  ghost predicate IsFirstFault(attachments: seq<Attachment>, expected: seq<Attachment>, i: nat,
                               error: AttachmentError) {
    if |attachments| != |expected| then error == COUNT_MISMATCH
    else
      && i < |expected| && IsFaultOf(attachments, expected[i], error)
      && forall k :: 0 <= k < i ==> IsThere(attachments, expected[k])
  }

  method ValidateAttachmentChecksums(attachments: seq<Attachment>, expected: seq<Attachment>)
    returns (r: Outcome<AttachmentError>)
    ensures r.Pass? <==> Accepts(attachments, expected)
    ensures r.Pass? <==>
      |attachments| == |expected| && forall k :: 0 <= k < |expected| ==> IsThere(attachments, expected[k])
    ensures r.Fail? ==> exists i: nat :: IsFirstFault(attachments, expected, i, r.error)
  {
    ghost var first: nat := 0;
    r, first := FindFault(attachments, expected);
    forall k | 0 <= k < |expected|
      ensures LastWith(attachments, expected[k].id) == Some(expected[k]) <==> IsThere(attachments, expected[k])
    {
      ThereMeans(attachments, expected[k]);
    }
  }

  lemma ThereMeans(attachments: seq<Attachment>, e: Attachment)
    ensures LastWith(attachments, e.id) == Some(e) <==> IsThere(attachments, e)
  {
    LastWithMeans(attachments, e.id);
    if IsThere(attachments, e) {
      OnlyOneIsLast(attachments, e.id, e, LastWith(attachments, e.id).value);
    }
  }

  method FindFault(attachments: seq<Attachment>, expected: seq<Attachment>)
    returns (r: Outcome<AttachmentError>, ghost first: nat)
    ensures r.Pass? <==> Accepts(attachments, expected)
    ensures r.Fail? ==> IsFirstFault(attachments, expected, first, r.error)
  {
    first := 0;
    if |attachments| != |expected| {
      return Fail(COUNT_MISMATCH), 0;
    }
    var byId := ById(attachments);
    for i := 0 to |expected|
      invariant forall k :: 0 <= k < i ==> LastWith(attachments, expected[k].id) == Some(expected[k])
      invariant forall k :: 0 <= k < i ==> IsThere(attachments, expected[k])
    {
      var e := expected[i];
      LastHasId(attachments, e.id);
      LastWithMeans(attachments, e.id);
      if e.id !in byId {
        return Fail(MISSING), i;
      }
      var a := byId[e.id];
      if a.checksum != e.checksum {
        return Fail(CHECKSUM_MISMATCH), i;
      }
      if a.filename != e.filename {
        return Fail(FILENAME_MISMATCH), i;
      }
    }
    return Pass, 0;
  }

  predicate DistinctIds(xs: seq<Attachment>) {
    forall i, j :: 0 <= i < j < |xs| ==> xs[i].id != xs[j].id
  }

  predicate Permutation(a: seq<Attachment>, b: seq<Attachment>) {
    multiset(a) == multiset(b)
  }

  function Without(xs: seq<Attachment>, k: nat): seq<Attachment>
    requires k < |xs|
  {
    xs[..k] + xs[k + 1..]
  }

  lemma WithoutOne(xs: seq<Attachment>, k: nat)
    requires k < |xs|
    ensures multiset(xs) == multiset(Without(xs, k)) + multiset{xs[k]}
  {
    assert xs == xs[..k] + [xs[k]] + xs[k + 1..];
  }

  /** Pigeonhole: if every expected attachment is there, and there are as many, nothing else is. */
  lemma {:induction false} AllThere(attachments: seq<Attachment>, expected: seq<Attachment>)
    requires |attachments| == |expected| && DistinctIds(expected)
    requires forall i :: 0 <= i < |expected| ==> expected[i] in attachments
    ensures Permutation(attachments, expected)
    decreases |expected|
  {
    if expected != [] {
      var n := |expected| - 1;
      var e, front := expected[n], expected[..n];
      var k :| 0 <= k < |attachments| && attachments[k] == e;
      var rest := Without(attachments, k);
      forall i | 0 <= i < n
        ensures front[i] in rest
      {
        assert front[i].id != e.id;
        var j :| 0 <= j < |attachments| && attachments[j] == expected[i];
        assert if j < k then rest[j] == front[i] else rest[j - 1] == front[i];
      }
      AllThere(rest, front);
      WithoutOne(attachments, k);
      assert expected == front + [e];
    }
  }

  lemma {:induction false} LastOfDistinct(xs: seq<Attachment>, k: nat)
    requires k < |xs| && forall i :: 0 <= i < |xs| && i != k ==> xs[i].id != xs[k].id
    ensures LastWith(xs, xs[k].id) == Some(xs[k])
    decreases |xs|
  {
    if k < |xs| - 1 {
      LastOfDistinct(xs[..|xs| - 1], k);
    }
  }

  lemma TwoOccurrences(xs: seq<Attachment>, i: nat, j: nat)
    requires i < j < |xs| && xs[i] == xs[j]
    ensures multiset(xs)[xs[i]] >= 2
  {
    assert xs == xs[..i] + [xs[i]] + xs[i + 1..j] + [xs[j]] + xs[j + 1..];
  }

  lemma OneOccurrence(xs: seq<Attachment>, k: nat)
    requires k < |xs| && DistinctIds(xs)
    ensures multiset(xs)[xs[k]] == 1
  {
    WithoutOne(xs, k);
    var rest := Without(xs, k);
    assert forall i :: 0 <= i < |rest| ==> rest[i] == xs[if i < k then i else i + 1];
    assert xs[k] !in rest;
  }

  /** With distinct expected ids the check accepts exactly the permutations of what is expected. */
  lemma AcceptsPermutations(attachments: seq<Attachment>, expected: seq<Attachment>)
    requires DistinctIds(expected)
    ensures Accepts(attachments, expected) <==> Permutation(attachments, expected)
  {
    if Accepts(attachments, expected) {
      forall i | 0 <= i < |expected|
        ensures expected[i] in attachments
      {
        LastHasId(attachments, expected[i].id);
      }
      AllThere(attachments, expected);
    }
    if Permutation(attachments, expected) {
      assert |attachments| == |multiset(attachments)| == |multiset(expected)| == |expected|;
      forall i | 0 <= i < |expected|
        ensures LastWith(attachments, expected[i].id) == Some(expected[i])
      {
        PermutedEntry(attachments, expected, i);
      }
    }
  }

  lemma PermutedEntry(attachments: seq<Attachment>, expected: seq<Attachment>, i: nat)
    requires DistinctIds(expected) && Permutation(attachments, expected) && i < |expected|
    ensures LastWith(attachments, expected[i].id) == Some(expected[i])
  {
    assert expected[i] in multiset(expected);
    assert expected[i] in multiset(attachments);
    var k :| 0 <= k < |attachments| && attachments[k] == expected[i];
    forall j | 0 <= j < |attachments| && j != k
      ensures attachments[j].id != attachments[k].id
    {
      assert attachments[j] in multiset(attachments);
      assert attachments[j] in multiset(expected);
      var l :| 0 <= l < |expected| && expected[l] == attachments[j];
      if l == i {
        TwoOccurrences(attachments, if j < k then j else k, if j < k then k else j);
        OneOccurrence(expected, i);
      }
    }
    LastOfDistinct(attachments, k);
  }

  lemma {:induction false} LastFromEnd(xs: seq<Attachment>, k: nat)
    requires k < |xs| && forall i :: k < i < |xs| ==> xs[i].id != xs[k].id
    ensures LastWith(xs, xs[k].id) == Some(xs[k])
    decreases |xs|
  {
    if k < |xs| - 1 {
      LastFromEnd(xs[..|xs| - 1], k);
    }
  }

  /** Changing an entry that a later one with its id hides is not noticed. */
  lemma {:induction false} HiddenEntry(xs: seq<Attachment>, i: nat, j: nat, z: Attachment, id: string)
    requires i < j < |xs| && xs[i].id == xs[j].id == z.id
    ensures LastWith(xs[i := z], id) == LastWith(xs, id)
    decreases |xs|
  {
    var ys := xs[i := z];
    if j < |xs| - 1 {
      assert ys[..|xs| - 1] == xs[..|xs| - 1][i := z];
      HiddenEntry(xs[..|xs| - 1], i, j, z, id);
    } else if id != z.id {
      EntryOfOtherId(xs[..|xs| - 1], i, z, id);
      assert ys[..|xs| - 1] == xs[..|xs| - 1][i := z];
    }
  }

  lemma {:induction false} EntryOfOtherId(xs: seq<Attachment>, i: nat, z: Attachment, id: string)
    requires i < |xs| && xs[i].id == z.id != id
    ensures LastWith(xs[i := z], id) == LastWith(xs, id)
    decreases |xs|
  {
    var n := |xs| - 1;
    if i < n {
      assert xs[i := z][..n] == xs[..n][i := z];
      EntryOfOtherId(xs[..n], i, z, id);
    } else {
      assert xs[i := z][..n] == xs[..n];
    }
  }

  /** The check means "a permutation of what is expected" exactly when the expected ids are distinct. */
  lemma DistinctIdsAreNeeded(expected: seq<Attachment>)
    ensures (forall attachments :: Accepts(attachments, expected) <==> Permutation(attachments, expected))
      <==> DistinctIds(expected)
  {
    if DistinctIds(expected) {
      forall attachments
        ensures Accepts(attachments, expected) <==> Permutation(attachments, expected)
      {
        AcceptsPermutations(attachments, expected);
      }
    } else {
      var i, j :| 0 <= i < j < |expected| && expected[i].id == expected[j].id;
      assert Permutation(expected, expected);
      if Accepts(expected, expected) {
        assert expected[i] == expected[j];
        var z := expected[i].(checksum := expected[i].checksum + "x");
        var changed := expected[i := z];
        assert z.checksum != expected[i].checksum;
        forall k | 0 <= k < |expected|
          ensures LastWith(changed, expected[k].id) == Some(expected[k])
        {
          HiddenEntry(expected, i, j, z, expected[k].id);
        }
        assert multiset(changed)[z] == multiset(expected)[z] + 1;
        assert Accepts(changed, expected) && !Permutation(changed, expected);
      }
    }
  }

  /** What is found under the id of an entry is some entry with that id. */
  lemma {:induction false} FindsSome(xs: seq<Attachment>, i: nat) returns (k: nat)
    requires i < |xs|
    ensures k < |xs| && xs[k].id == xs[i].id && LastWith(xs, xs[i].id) == Some(xs[k])
    decreases |xs|
  {
    var n := |xs| - 1;
    if xs[n].id == xs[i].id {
      k := n;
    } else {
      k := FindsSome(xs[..n], i);
    }
  }

  /**
   Comparing a list with itself, as the readiness report does, rejects it exactly if it holds two
   different entries under one id; nothing else can be wrong.
   */
  lemma SelfComparisonAccepts(attachments: seq<Attachment>)
    ensures Accepts(attachments, attachments) <==>
      forall i, j :: 0 <= i < j < |attachments| && attachments[i].id == attachments[j].id ==>
        attachments[i] == attachments[j]
  {
    if forall i, j :: 0 <= i < j < |attachments| && attachments[i].id == attachments[j].id ==>
      attachments[i] == attachments[j]
    {
      forall i | 0 <= i < |attachments|
        ensures LastWith(attachments, attachments[i].id) == Some(attachments[i])
      {
        var k := FindsSome(attachments, i);
        assert attachments[k] == attachments[i];
      }
    }
  }

  // ---------------------------------------------------------------------------------------
  // Idempotency keys
  // ---------------------------------------------------------------------------------------

  /** The order of code units, as the default sort of strings uses it. */
  predicate NotGreater(a: Text, b: Text)
    decreases |a|
  {
    a == [] || (b != [] && (a[0] < b[0] || (a[0] == b[0] && NotGreater(a[1..], b[1..]))))
  }

  lemma {:induction false} TotalOrder(a: Text, b: Text)
    ensures NotGreater(a, b) || NotGreater(b, a)
    ensures NotGreater(a, b) && NotGreater(b, a) ==> a == b
    decreases |a|
  {
    if a != [] && b != [] {
      TotalOrder(a[1..], b[1..]);
      assert a == [a[0]] + a[1..] && b == [b[0]] + b[1..];
    }
  }

  lemma {:induction false} OrderIsTransitive(a: Text, b: Text, c: Text)
    requires NotGreater(a, b) && NotGreater(b, c)
    ensures NotGreater(a, c)
    decreases |a|
  {
    if a != [] && a[0] == b[0] == c[0] {
      OrderIsTransitive(a[1..], b[1..], c[1..]);
    }
  }

  function Insert(a: Text, s: seq<Text>): seq<Text>
    decreases |s|
  {
    if s == [] || NotGreater(a, s[0]) then [a] + s else [s[0]] + Insert(a, s[1..])
  }

  /** The recipients in order. */
  function Sort(s: seq<Text>): seq<Text>
    decreases |s|
  {
    if s == [] then [] else Insert(s[0], Sort(s[1..]))
  }

  lemma {:induction false} InsertAdds(a: Text, s: seq<Text>)
    ensures multiset(Insert(a, s)) == multiset(s) + multiset{a}
    decreases |s|
  {
    if s != [] {
      InsertAdds(a, s[1..]);
      assert s == [s[0]] + s[1..];
    }
  }

  lemma {:induction false} SortPermutes(s: seq<Text>)
    ensures multiset(Sort(s)) == multiset(s)
    decreases |s|
  {
    if s != [] {
      SortPermutes(s[1..]);
      InsertAdds(s[0], Sort(s[1..]));
      assert s == [s[0]] + s[1..];
    }
  }

  lemma {:induction false} InsertCommutes(a: Text, b: Text, s: seq<Text>)
    ensures Insert(a, Insert(b, s)) == Insert(b, Insert(a, s))
    decreases |s|
  {
    TotalOrder(a, b);
    if s == [] {
      assert [b][1..] == [] && [a][1..] == [];
    } else {
      var x, rest := s[0], s[1..];
      TotalOrder(a, x);
      TotalOrder(b, x);
      if NotGreater(a, x) && NotGreater(b, x) {
        assert ([a] + s)[1..] == s && ([b] + s)[1..] == s;
      } else if NotGreater(a, x) {
        if NotGreater(b, a) {
          OrderIsTransitive(b, a, x);
        }
        assert ([a] + s)[1..] == s;
        assert ([x] + Insert(b, rest))[1..] == Insert(b, rest);
      } else if NotGreater(b, x) {
        if NotGreater(a, b) {
          OrderIsTransitive(a, b, x);
        }
        assert ([b] + s)[1..] == s;
        assert ([x] + Insert(a, rest))[1..] == Insert(a, rest);
      } else {
        InsertCommutes(a, b, rest);
        assert ([x] + Insert(b, rest))[1..] == Insert(b, rest);
        assert ([x] + Insert(a, rest))[1..] == Insert(a, rest);
      }
    }
  }

  /** Moving one element to the front does not change the sorted list. */
  lemma {:induction false} SortAny(s: seq<Text>, k: nat)
    requires k < |s|
    ensures Sort(s) == Insert(s[k], Sort(s[..k] + s[k + 1..]))
    decreases |s|
  {
    var rest := s[..k] + s[k + 1..];
    if k == 0 {
      assert rest == s[1..];
    } else {
      SortAny(s[1..], k - 1);
      assert s[1..][..k - 1] + s[1..][k..] == rest[1..];
      InsertCommutes(s[0], s[k], Sort(rest[1..]));
    }
  }

  lemma SameRest(s: seq<Text>, t: seq<Text>, rest: seq<Text>, k: nat)
    requires s != [] && k < |t| && t[k] == s[0] && rest == t[..k] + t[k + 1..] && multiset(s) == multiset(t)
    ensures multiset(s[1..]) == multiset(rest)
  {
    assert s == [s[0]] + s[1..] && t == t[..k] + [t[k]] + t[k + 1..];
    assert multiset(s[1..]) == multiset(s) - multiset{s[0]};
    assert multiset(rest) == multiset(t) - multiset{t[k]};
  }

  /** Sorting forgets the order and nothing else. */
  lemma {:induction false} SortCanonical(s: seq<Text>, t: seq<Text>)
    ensures Sort(s) == Sort(t) <==> multiset(s) == multiset(t)
    decreases |s|
  {
    SortPermutes(s);
    SortPermutes(t);
    if multiset(s) == multiset(t) {
      if s == [] {
        assert |t| == |multiset(t)| == 0;
      } else {
        assert s[0] in multiset(t);
        var k :| 0 <= k < |t| && t[k] == s[0];
        var rest := t[..k] + t[k + 1..];
        SameRest(s, t, rest, k);
        SortCanonical(s[1..], rest);
        SortAny(t, k);
      }
    }
  }

  const BAR: Unit := 0x7C
  const COMMA: Unit := 0x2C

  datatype KeyInput = KeyInput(authorization: Text, channel: Text, attempt: nat, recipients: seq<Text>)

  function KeyText(k: KeyInput): Text {
    Join([k.authorization, k.channel, Decimal(k.attempt), Join(Sort(k.recipients), COMMA)], BAR)
  }

  function BuildIdempotencyKey<H>(hash: Text -> H, k: KeyInput): H {
    hash(KeyText(k))
  }

  /** Ids without the separators, recipients not empty. */
  predicate Separable(k: KeyInput) {
    && 0x7C !in k.authorization && 0x7C !in k.channel
    && forall i :: 0 <= i < |k.recipients| ==>
      k.recipients[i] != [] && 0x2C !in k.recipients[i] && 0x7C !in k.recipients[i]
  }

  /** The two agree up to `k`, and there `a` has the smaller code unit. */
  predicate SmallerAt(a: Text, b: Text, k: nat) {
    k < |a| && k < |b| && a[..k] == b[..k] && a[k] < b[k]
  }

  /** The order is that of the first code unit in which the two differ; a prefix comes first. */
  lemma {:induction false} OrderIsLexicographic(a: Text, b: Text)
    ensures NotGreater(a, b) <==> a <= b || exists k: nat :: SmallerAt(a, b, k)
    decreases |a|
  {
    if a != [] && b != [] && a[0] == b[0] {
      var a1, b1 := a[1..], b[1..];
      OrderIsLexicographic(a1, b1);
      assert a == [a[0]] + a1 && b == [b[0]] + b1;
      if k: nat :| SmallerAt(a1, b1, k) {
        assert a[..k + 1] == [a[0]] + a1[..k] && b[..k + 1] == [b[0]] + b1[..k];
        assert SmallerAt(a, b, k + 1);
      }
      if k: nat :| SmallerAt(a, b, k) {
        SmallerBehind(a, b, k);
      }
    } else if a != [] && b != [] {
      assert a[0] < b[0] ==> SmallerAt(a, b, 0);
      forall k: nat | 0 < k && SmallerAt(a, b, k)
        ensures a[..k][0] == b[..k][0]
      {
      }
    }
  }

  lemma SmallerBehind(a: Text, b: Text, k: nat)
    requires SmallerAt(a, b, k) && a[0] == b[0]
    ensures k > 0 && SmallerAt(a[1..], b[1..], k - 1)
  {
    assert k > 0;
    assert a[1..][..k - 1] == a[..k][1..] && b[1..][..k - 1] == b[..k][1..];
  }

  predicate Sorted(s: seq<Text>) {
    forall i, j :: 0 <= i < j < |s| ==> NotGreater(s[i], s[j])
  }

  lemma {:induction false} InsertSorts(a: Text, s: seq<Text>)
    requires Sorted(s)
    ensures Sorted(Insert(a, s))
    decreases |s|
  {
    if s != [] {
      TotalOrder(a, s[0]);
      if NotGreater(a, s[0]) {
        forall j | 0 <= j < |s|
          ensures NotGreater(a, s[j])
        {
          if j > 0 {
            OrderIsTransitive(a, s[0], s[j]);
          }
        }
      } else {
        var after := Insert(a, s[1..]);
        InsertSorts(a, s[1..]);
        InsertAdds(a, s[1..]);
        FirstIsLeast(s[0], a, s[1..], after);
      }
    }
  }

  lemma FirstIsLeast(x: Text, a: Text, s: seq<Text>, after: seq<Text>)
    requires multiset(after) == multiset(s) + multiset{a} && NotGreater(x, a)
    requires forall j :: 0 <= j < |s| ==> NotGreater(x, s[j])
    ensures forall j :: 0 <= j < |after| ==> NotGreater(x, after[j])
  {
    forall j | 0 <= j < |after|
      ensures NotGreater(x, after[j])
    {
      assert after[j] in multiset(after);
    }
  }

  /** Sorting puts the texts in order. */
  lemma {:induction false} SortSorts(s: seq<Text>)
    ensures Sorted(Sort(s))
    decreases |s|
  {
    if s != [] {
      SortSorts(s[1..]);
      InsertSorts(s[0], Sort(s[1..]));
    }
  }

  /** The parts of the text that is hashed are read back: the recipients in order, separated by commas. */
  lemma KeyReads(k: KeyInput)
    requires Separable(k)
    ensures exists ids, sorted ::
      && Split(KeyText(k), 0x7C) == [k.authorization, k.channel, Decimal(k.attempt), ids]
      && multiset(sorted) == multiset(k.recipients) && Sorted(sorted)
      && (sorted == [] ==> ids == []) && (sorted != [] ==> Split(ids, 0x2C) == sorted)
  {
    KeyPieces(k);
    SortKeeps(k);
    SortSorts(k.recipients);
    SortPermutes(k.recipients);
    var sorted := Sort(k.recipients);
    if sorted != [] {
      JoinSplit(sorted, COMMA);
    }
    assert sorted == [] ==> Join(sorted, COMMA) == [];
  }

  lemma {:induction false} JoinWithout(pieces: seq<Text>, sep: Unit, c: Unit)
    requires c != sep && forall i :: 0 <= i < |pieces| ==> c !in pieces[i]
    ensures c !in Join(pieces, sep)
    decreases |pieces|
  {
    if |pieces| > 1 {
      JoinWithout(pieces[1..], sep, c);
    }
  }

  lemma {:induction false} JoinNotEmpty(pieces: seq<Text>, sep: Unit)
    requires forall i :: 0 <= i < |pieces| ==> pieces[i] != []
    ensures Join(pieces, sep) == [] <==> pieces == []
    decreases |pieces|
  {
    if pieces != [] {
      assert pieces[0] != [];
    }
  }

  lemma SortKeeps(k: KeyInput)
    requires Separable(k)
    ensures forall i :: 0 <= i < |Sort(k.recipients)| ==>
      Sort(k.recipients)[i] != [] && COMMA !in Sort(k.recipients)[i] && BAR !in Sort(k.recipients)[i]
  {
    SortPermutes(k.recipients);
    var s := Sort(k.recipients);
    forall i | 0 <= i < |s|
      ensures s[i] != [] && COMMA !in s[i] && BAR !in s[i]
    {
      assert s[i] in multiset(s);
      assert s[i] in multiset(k.recipients);
    }
  }

  lemma KeyPieces(k: KeyInput)
    requires Separable(k)
    ensures Split(KeyText(k), BAR) == [k.authorization, k.channel, Decimal(k.attempt), Join(Sort(k.recipients), COMMA)]
  {
    SortKeeps(k);
    JoinWithout(Sort(k.recipients), COMMA, BAR);
    assert BAR !in Decimal(k.attempt);
    JoinSplit([k.authorization, k.channel, Decimal(k.attempt), Join(Sort(k.recipients), COMMA)], BAR);
  }

  lemma RecipientsFromText(k: KeyInput, l: KeyInput)
    requires Separable(k) && Separable(l)
    requires Join(Sort(k.recipients), COMMA) == Join(Sort(l.recipients), COMMA)
    ensures multiset(k.recipients) == multiset(l.recipients)
  {
    SortKeeps(k);
    SortKeeps(l);
    var s, t := Sort(k.recipients), Sort(l.recipients);
    JoinNotEmpty(s, COMMA);
    JoinNotEmpty(t, COMMA);
    if s != [] && t != [] {
      JoinSplit(s, COMMA);
      JoinSplit(t, COMMA);
    }
    SortCanonical(k.recipients, l.recipients);
  }

  /** Two keys are equal exactly for the same authorization, channel, attempt and recipients in any order. */
  lemma KeyIdentifies<H>(hash: Text -> H, k: KeyInput, l: KeyInput)
    requires Separable(k) && Separable(l)
    requires forall a, b :: hash(a) == hash(b) ==> a == b
    ensures BuildIdempotencyKey(hash, k) == BuildIdempotencyKey(hash, l) <==>
      && k.authorization == l.authorization && k.channel == l.channel && k.attempt == l.attempt
      && multiset(k.recipients) == multiset(l.recipients)
  {
    SortCanonical(k.recipients, l.recipients);
    if KeyText(k) == KeyText(l) {
      KeyPieces(k);
      KeyPieces(l);
      var p, q := Split(KeyText(k), BAR), Split(KeyText(l), BAR);
      assert p[0] == q[0] && p[1] == q[1] && p[2] == q[2] && p[3] == q[3];
      DecimalValue(k.attempt);
      DecimalValue(l.attempt);
      RecipientsFromText(k, l);
    }
  }
}
