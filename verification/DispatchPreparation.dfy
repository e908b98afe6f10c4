/**
 What goes into a dispatch snapshot: the helpers `buildRecipientSnapshots` and `selectExportBundle` of
 apps/web/src/server/services/notice-delivery.ts and `validateRecipientsForDispatch` of
 packages/notice-delivery/src/domain.ts.
 */
module DispatchPreparation {
  import opened Results
  import opened Texts

  /** How one recipient of a package was prepared. */
  datatype Preparation = Preparation(id: nat, named: Option<Text>, role: Option<Text>, email: Option<Text>,
    physical: Option<Text>, platform: Option<Text>, selected: Option<Text>, permitted: Option<Text>,
    copied: bool, verified: bool)

  /** A recipient as the snapshot keeps it. */
  datatype Addressee = Addressee(preparation: nat, displayName: Text, email: Option<Text>, physical: Option<Text>,
    platform: Option<Text>, method_: Text, copied: bool, required: bool)

  // ---------------------------------------------------------------------------------------
  // Recipients
  // ---------------------------------------------------------------------------------------

  function Or(a: Option<Text>, b: Text): Text {
    if a.Some? then a.value else b
  }

  function AddresseeOf(p: Preparation): Addressee {
    Addressee(p.id, Or(p.named, Or(p.role, Literal("Recipient"))), p.email, p.physical, p.platform,
              Or(p.selected, Or(p.permitted, [])), p.copied, !p.copied)
  }

  /** The verified recipients that are copied, or those that are not, in order. */
  function Addressees(ps: seq<Preparation>, copied: bool): (rs: seq<Addressee>)
    ensures forall k :: 0 <= k < |rs| ==> rs[k].copied == copied && rs[k].required == !copied
    decreases |ps|
  {
    if ps == [] then []
    else
      var last, front := ps[|ps| - 1], Addressees(ps[..|ps| - 1], copied);
      if last.verified && last.copied == copied then front + [AddresseeOf(last)] else front
  }

  function AllAddressees(ps: seq<Preparation>): seq<Addressee> {
    Addressees(ps, false) + Addressees(ps, true)
  }

  method BuildRecipientSnapshots(preparations: seq<Preparation>) returns (required: seq<Addressee>,
                                 copied: seq<Addressee>)
    ensures required + copied == AllAddressees(preparations)
    ensures forall k :: 0 <= k < |required| ==> required[k].required
    ensures forall k :: 0 <= k < |copied| ==> copied[k].copied
  {
    required, copied := [], [];
    for i := 0 to |preparations|
      invariant required == Addressees(preparations[..i], false)
      invariant copied == Addressees(preparations[..i], true)
    {
      assert preparations[..i + 1][..i] == preparations[..i];
      var prep := preparations[i];
      if prep.verified {
        if prep.copied {
          copied := copied + [AddresseeOf(prep)];
        } else {
          required := required + [AddresseeOf(prep)];
        }
      }
    }
    assert preparations[..|preparations|] == preparations;
  }

  /** The preparations that the recipients go back to. */
  function Keys(rs: seq<Addressee>): (ks: seq<nat>)
    ensures |ks| == |rs|
  {
    seq(|rs|, k requires 0 <= k < |rs| => rs[k].preparation)
  }

  function VerifiedIds(ps: seq<Preparation>): seq<nat>
    decreases |ps|
  {
    if ps == [] then []
    else
      var last, front := ps[|ps| - 1], VerifiedIds(ps[..|ps| - 1]);
      if last.verified then front + [last.id] else front
  }

  lemma KeysAppend(rs: seq<Addressee>, ts: seq<Addressee>)
    ensures Keys(rs + ts) == Keys(rs) + Keys(ts)
  {
  }

  /** Every verified preparation, and no other, is among the recipients, as often as it was prepared. */
  lemma {:induction false} EveryVerifiedIsIncluded(ps: seq<Preparation>)
    ensures multiset(Keys(AllAddressees(ps))) == multiset(VerifiedIds(ps))
    decreases |ps|
  {
    if ps != [] {
      var last, front := ps[|ps| - 1], ps[..|ps| - 1];
      EveryVerifiedIsIncluded(front);
      KeysAppend(Addressees(ps, false), Addressees(ps, true));
      KeysAppend(Addressees(front, false), Addressees(front, true));
      if last.verified {
        KeysAppend(Addressees(front, last.copied), [AddresseeOf(last)]);
        assert Keys([AddresseeOf(last)]) == [last.id];
      }
    }
  }

  // ---------------------------------------------------------------------------------------
  // Checking the recipients
  // ---------------------------------------------------------------------------------------

  datatype RecipientFault = NO_RECIPIENTS | NO_REQUIRED_RECIPIENT | MISSING_DISPLAY_NAME | MISSING_CONTACT
    | MISSING_METHOD

  /** White space and line terminators (ECMA-262 sections 12.2 and 12.3). */
  predicate Space(c: Unit) {
    || 0x09 <= c <= 0x0D || c == 0x20 || c == 0xA0 || c == 0x1680 || 0x2000 <= c <= 0x200A
    || c == 0x2028 || c == 0x2029 || c == 0x202F || c == 0x205F || c == 0x3000 || c == 0xFEFF
  }

  /** Nothing is left of it when trimmed. */
  predicate Blank(s: Text) {
    forall k :: 0 <= k < |s| ==> Space(s[k])
  }

  predicate Given(s: Option<Text>) {
    s.Some? && s.value != []
  }

  predicate HasContact(r: Addressee) {
    Given(r.email) || Given(r.physical) || Given(r.platform)
  }

  predicate Reachable(r: Addressee) {
    !Blank(r.displayName) && HasContact(r) && r.method_ != []
  }

  /** There is a required recipient, and each can be reached. */
  predicate Complete(rs: seq<Addressee>) {
    && (exists k :: 0 <= k < |rs| && rs[k].required)
    && (forall k :: 0 <= k < |rs| && rs[k].required ==> Reachable(rs[k]))
  }

  /** Recipient `k` is the first required one at fault, and this is the first thing missing. */
  predicate FirstFault(rs: seq<Addressee>, k: nat, fault: RecipientFault) {
    && k < |rs| && rs[k].required
    && (forall j :: 0 <= j < k && rs[j].required ==> Reachable(rs[j]))
    && match fault
       case MISSING_DISPLAY_NAME => Blank(rs[k].displayName)
       case MISSING_CONTACT => !Blank(rs[k].displayName) && !HasContact(rs[k])
       case MISSING_METHOD => !Blank(rs[k].displayName) && HasContact(rs[k]) && rs[k].method_ == []
       case _ => false
  }

  method ValidateRecipientsForDispatch(recipients: seq<Addressee>) returns (r: Outcome<RecipientFault>)
    ensures r.Pass? <==> Complete(recipients)
    ensures r == Fail(NO_RECIPIENTS) <==> recipients == []
    ensures r == Fail(NO_REQUIRED_RECIPIENT) <==>
      recipients != [] && forall k :: 0 <= k < |recipients| ==> !recipients[k].required
    ensures r.Fail? && (exists k :: 0 <= k < |recipients| && recipients[k].required) ==>
      exists k :: FirstFault(recipients, k, r.error)
  {
    if recipients == [] {
      return Fail(NO_RECIPIENTS);
    }
    var some := false;
    for i := 0 to |recipients|
      invariant some <==> exists k :: 0 <= k < i && recipients[k].required
    {
      some := some || recipients[i].required;
    }
    if !some {
      return Fail(NO_REQUIRED_RECIPIENT);
    }
    for i := 0 to |recipients|
      invariant forall k :: 0 <= k < i && recipients[k].required ==> Reachable(recipients[k])
    {
      var x := recipients[i];
      if x.required {
        if Blank(x.displayName) {
          assert FirstFault(recipients, i, MISSING_DISPLAY_NAME);
          return Fail(MISSING_DISPLAY_NAME);
        }
        if !Given(x.email) && !Given(x.physical) && !Given(x.platform) {
          assert FirstFault(recipients, i, MISSING_CONTACT);
          return Fail(MISSING_CONTACT);
        }
        if x.method_ == [] {
          assert FirstFault(recipients, i, MISSING_METHOD);
          return Fail(MISSING_METHOD);
        }
      }
    }
    return Pass;
  }

  predicate Addressed(p: Preparation) {
    p.verified && !p.copied
  }

  lemma {:induction false} AddresseesAreOf(ps: seq<Preparation>, k: nat)
    requires k < |Addressees(ps, false)|
    ensures exists i :: 0 <= i < |ps| && Addressed(ps[i]) && Addressees(ps, false)[k] == AddresseeOf(ps[i])
    decreases |ps|
  {
    var n := |ps| - 1;
    if k < |Addressees(ps[..n], false)| {
      AddresseesAreOf(ps[..n], k);
      var i :| 0 <= i < n && Addressed(ps[i]) && Addressees(ps, false)[k] == AddresseeOf(ps[i]);
    } else {
      assert Addressed(ps[n]) && Addressees(ps, false)[k] == AddresseeOf(ps[n]);
    }
  }

  lemma {:induction false} IsAnAddressee(ps: seq<Preparation>, i: nat)
    requires i < |ps| && Addressed(ps[i])
    ensures AddresseeOf(ps[i]) in Addressees(ps, false)
    decreases |ps|
  {
    if i < |ps| - 1 {
      IsAnAddressee(ps[..|ps| - 1], i);
    }
  }

  /** Some verified recipient is not just copied, and all such can be reached. */
  predicate AllReachable(ps: seq<Preparation>) {
    && (exists i :: 0 <= i < |ps| && Addressed(ps[i]))
    && (forall i :: 0 <= i < |ps| && Addressed(ps[i]) ==> Reachable(AddresseeOf(ps[i])))
  }

  lemma CompleteGives(ps: seq<Preparation>, all: seq<Addressee>)
    requires all == AllAddressees(ps) && Complete(all)
    ensures AllReachable(ps)
  {
    var required := Addressees(ps, false);
    var k :| 0 <= k < |all| && all[k].required;
    assert k < |required|;
    AddresseesAreOf(ps, k);
    forall i | 0 <= i < |ps| && Addressed(ps[i])
      ensures Reachable(AddresseeOf(ps[i]))
    {
      IsAnAddressee(ps, i);
      var j :| 0 <= j < |required| && required[j] == AddresseeOf(ps[i]);
      assert all[j] == required[j];
    }
  }

  lemma ReachableGives(ps: seq<Preparation>, all: seq<Addressee>)
    requires all == AllAddressees(ps) && AllReachable(ps)
    ensures Complete(all)
  {
    var required := Addressees(ps, false);
    var i :| 0 <= i < |ps| && Addressed(ps[i]);
    IsAnAddressee(ps, i);
    var j :| 0 <= j < |required| && required[j] == AddresseeOf(ps[i]);
    assert all[j].required;
    forall k | 0 <= k < |all| && all[k].required
      ensures Reachable(all[k])
    {
      assert k < |required| && all[k] == required[k];
      AddresseesAreOf(ps, k);
    }
  }

  /** The check passes in exactly that case. */
  lemma CompleteMeans(ps: seq<Preparation>)
    ensures Complete(AllAddressees(ps)) <==> AllReachable(ps)
  {
    if Complete(AllAddressees(ps)) {
      CompleteGives(ps, AllAddressees(ps));
    }
    if AllReachable(ps) {
      ReachableGives(ps, AllAddressees(ps));
    }
  }

  // ---------------------------------------------------------------------------------------
  // The export bundle
  // ---------------------------------------------------------------------------------------

  datatype Format = ATTACHMENT_ZIP | PDF | OTHER

  datatype Bundle = Bundle(id: nat, format: Format, revision: nat)

  /** The first bundle of a revision, in a format if one is asked for. */
  function FirstBundle(bs: seq<Bundle>, revision: nat, format: Option<Format>): Option<Bundle>
    decreases |bs|
  {
    if bs == [] then None
    else if bs[0].revision == revision && (format.Some? ==> bs[0].format == format.value) then Some(bs[0])
    else FirstBundle(bs[1..], revision, format)
  }

  function SelectExportBundle(bs: seq<Bundle>, revision: nat): Option<Bundle> {
    var zip, pdf := FirstBundle(bs, revision, Some(ATTACHMENT_ZIP)), FirstBundle(bs, revision, Some(PDF));
    if zip.Some? then zip else if pdf.Some? then pdf else FirstBundle(bs, revision, None)
  }

  function Rank(f: Format): nat {
    match f
    case ATTACHMENT_ZIP => 0
    case PDF => 1
    case OTHER => 2
  }

  /** Of the bundles of the revision, the first of the best format. */
  predicate Best(bs: seq<Bundle>, revision: nat, k: nat) {
    && k < |bs| && bs[k].revision == revision
    && forall j :: 0 <= j < |bs| && bs[j].revision == revision ==>
         Rank(bs[k].format) < Rank(bs[j].format) || (bs[k].format == bs[j].format && k <= j)
  }

  lemma {:induction false} FirstBundleIs(bs: seq<Bundle>, revision: nat, format: Option<Format>, k: nat)
    requires k < |bs| && bs[k].revision == revision && (format.Some? ==> bs[k].format == format.value)
    requires forall j :: 0 <= j < k ==> bs[j].revision != revision || (format.Some? && bs[j].format != format.value)
    ensures FirstBundle(bs, revision, format) == Some(bs[k])
    decreases |bs|
  {
    if k > 0 {
      FirstBundleIs(bs[1..], revision, format, k - 1);
    }
  }

  lemma {:induction false} NoSuchBundle(bs: seq<Bundle>, revision: nat, format: Option<Format>)
    requires forall j :: 0 <= j < |bs| ==> bs[j].revision != revision || (format.Some? && bs[j].format != format.value)
    ensures FirstBundle(bs, revision, format) == None
    decreases |bs|
  {
    if bs != [] {
      NoSuchBundle(bs[1..], revision, format);
    }
  }

  /** The three searches find exactly that bundle, and nothing only if the revision has none. */
  lemma BestIsSelected(bs: seq<Bundle>, revision: nat, k: nat)
    ensures Best(bs, revision, k) ==> SelectExportBundle(bs, revision) == Some(bs[k])
    ensures SelectExportBundle(bs, revision).None? <==> forall j :: 0 <= j < |bs| ==> bs[j].revision != revision
  {
    if Best(bs, revision, k) {
      if bs[k].format == PDF || bs[k].format == OTHER {
        NoSuchBundle(bs, revision, Some(ATTACHMENT_ZIP));
      }
      if bs[k].format == OTHER {
        NoSuchBundle(bs, revision, Some(PDF));
        FirstBundleIs(bs, revision, None, k);
      } else {
        FirstBundleIs(bs, revision, Some(bs[k].format), k);
      }
    }
    FoundBundle(bs, revision, None);
    FoundBundle(bs, revision, Some(ATTACHMENT_ZIP));
    FoundBundle(bs, revision, Some(PDF));
    if forall j :: 0 <= j < |bs| ==> bs[j].revision != revision {
      NoSuchBundle(bs, revision, None);
    }
  }

  lemma {:induction false} FoundBundle(bs: seq<Bundle>, revision: nat, format: Option<Format>)
    ensures FirstBundle(bs, revision, format).Some? ==>
      FirstBundle(bs, revision, format).value in bs && FirstBundle(bs, revision, format).value.revision == revision
    ensures format.None? && FirstBundle(bs, revision, format).None? ==> forall j :: 0 <= j < |bs| ==>
      bs[j].revision != revision
    decreases |bs|
  {
    if bs != [] {
      FoundBundle(bs[1..], revision, format);
      assert forall j :: 1 <= j < |bs| ==> bs[j] == bs[1..][j - 1];
    }
  }

  // ---------------------------------------------------------------------------------------
  // The draft
  // ---------------------------------------------------------------------------------------

  datatype Revision = Revision(id: nat, approved: bool)

  /** What is loaded with the package, and whether the cover message passes its check. */
  datatype Draft = Draft(active: Option<Revision>, bundles: seq<Bundle>, coverOk: bool, preparations: seq<Preparation>)

  predicate Prepared(d: Draft) {
    && d.active.Some? && d.active.value.approved
    && SelectExportBundle(d.bundles, d.active.value.id).Some?
    && d.coverOk
    && Complete(AllAddressees(d.preparations))
  }

  function BundleOf(d: Draft): Bundle
    requires Prepared(d)
  {
    SelectExportBundle(d.bundles, d.active.value.id).value
  }

  function RecipientsOf(d: Draft): seq<nat> {
    Keys(AllAddressees(d.preparations))
  }

  /** A prepared draft: who is in it, that they can be reached, and what they get. */
  lemma PreparedMeans(d: Draft)
    requires Prepared(d)
    ensures BundleOf(d) in d.bundles && BundleOf(d).revision == d.active.value.id
    ensures multiset(RecipientsOf(d)) == multiset(VerifiedIds(d.preparations)) && RecipientsOf(d) != []
    ensures AllReachable(d.preparations)
  {
    FoundBundle(d.bundles, d.active.value.id, None);
    FoundBundle(d.bundles, d.active.value.id, Some(ATTACHMENT_ZIP));
    FoundBundle(d.bundles, d.active.value.id, Some(PDF));
    EveryVerifiedIsIncluded(d.preparations);
    CompleteMeans(d.preparations);
  }

  /** All there must be, said of the rows: an approved revision with a bundle, and recipients that can be reached. */
  ghost predicate IsPrepared(d: Draft) {
    && d.active.Some? && d.active.value.approved && d.coverOk
    && (exists k :: 0 <= k < |d.bundles| && d.bundles[k].revision == d.active.value.id)
    && (exists i :: 0 <= i < |d.preparations| && d.preparations[i].verified && !d.preparations[i].copied)
    && (forall i :: 0 <= i < |d.preparations| && d.preparations[i].verified && !d.preparations[i].copied ==>
          CanBeReached(d.preparations[i]))
  }

  /** A name that is not blank, if any is given; some address; and the method selected, or else the one permitted. */
  ghost predicate CanBeReached(p: Preparation) {
    && (p.named.Some? ==> !Blank(p.named.value)) && (p.named.None? && p.role.Some? ==> !Blank(p.role.value))
    && (exists address :: address in {p.email, p.physical, p.platform} && address.Some? && address.value != [])
    && (if p.selected.Some? then p.selected.value != [] else p.permitted.Some? && p.permitted.value != [])
  }

  lemma ReachedMeans(p: Preparation)
    ensures Reachable(AddresseeOf(p)) <==> CanBeReached(p)
  {
    assert !Blank(Literal("Recipient")) by {
      assert Literal("Recipient")[0] == 0x52;
    }
    var r := AddresseeOf(p);
    if HasContact(r) {
      var address := if Given(r.email) then r.email else if Given(r.physical) then r.physical else r.platform;
      assert address in {p.email, p.physical, p.platform} && address.Some? && address.value != [];
    }
  }

  lemma PreparedIff(d: Draft)
    ensures Prepared(d) <==> IsPrepared(d)
  {
    CompleteMeans(d.preparations);
    forall i | 0 <= i < |d.preparations|
      ensures Reachable(AddresseeOf(d.preparations[i])) <==> CanBeReached(d.preparations[i])
    {
      ReachedMeans(d.preparations[i]);
    }
    if d.active.Some? {
      BestIsSelected(d.bundles, d.active.value.id, |d.bundles|);
    }
  }

  /** What is selected is the best bundle. */
  lemma SelectedIsBest(bs: seq<Bundle>, revision: nat) returns (k: nat)
    requires SelectExportBundle(bs, revision).Some?
    ensures Best(bs, revision, k) && SelectExportBundle(bs, revision) == Some(bs[k])
  {
    BestIsSelected(bs, revision, |bs|);
    k := BestExists(bs, revision);
    BestIsSelected(bs, revision, k);
  }

  lemma {:induction false} BestExists(bs: seq<Bundle>, revision: nat) returns (k: nat)
    requires exists j :: 0 <= j < |bs| && bs[j].revision == revision
    ensures Best(bs, revision, k)
    decreases |bs|
  {
    var n := |bs| - 1;
    var front := bs[..n];
    if exists j :: 0 <= j < n && front[j].revision == revision {
      k := BestExists(front, revision);
      if bs[n].revision == revision && Rank(bs[n].format) < Rank(bs[k].format) {
        k := n;
      }
    } else {
      k := n;
    }
  }

  /** The white space of ECMA-262, one by one. */
  function Spaces(): set<Unit> {
    {0x09, 0x0A, 0x0B, 0x0C, 0x0D, 0x20, 0xA0, 0x1680, 0x2000, 0x2001, 0x2002, 0x2003, 0x2004, 0x2005, 0x2006, 0x2007,
     0x2008, 0x2009, 0x200A, 0x2028, 0x2029, 0x202F, 0x205F, 0x3000, 0xFEFF}
  }

  lemma SpacesAre(c: Unit)
    ensures Space(c) <==> c in Spaces()
  {
  }
}
