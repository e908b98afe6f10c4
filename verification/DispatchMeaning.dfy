/**
 When the functions of apps/web/src/server/services/notice-delivery.ts go through and what they write,
 said of the rows alone: every status, box and date is named here, and the step machine is shown to
 agree.
 */
module DispatchMeaning {
  import opened Results
  import opened DispatchProtocol
  import P = DispatchPreparation
  import D = DispatchDomain

  ghost predicate InOpenProject(db: Db, pkg: nat) {
    pkg < |db.packages| && db.packages[pkg].archived == false
  }

  ghost predicate MayPrepare(db: Db, pkg: nat, channel: Channel, draft: P.Draft) {
    && InOpenProject(db, pkg)
    && db.packages[pkg].status in
       {APPROVED, EXPORTED, AUTHORIZATION_PENDING, AUTHORIZED_FOR_DISPATCH, DISPATCHED, DELIVERY_PENDING,
        DELIVERY_PARTIAL, DELIVERY_CONFIRMED, RECEIPT_UNCONFIRMED, RECEIPT_CONFIRMED, DELIVERY_FAILED}
    && channel in
       {MANUAL_COURIER, MANUAL_HAND_DELIVERY, MANUAL_REGISTERED_POST, MANUAL_EMAIL, MANUAL_EDMS, MANUAL_LETTER,
        CONTROLLED_EMAIL}
    && P.IsPrepared(draft)
  }

  lemma PrepareMeans(db: Db, pkg: nat, user: nat, channel: Channel, draft: P.Draft)
    ensures Commits(db, CreateSnapshot(pkg, user, channel, draft)) <==> MayPrepare(db, pkg, channel, draft)
  {
    P.PreparedIff(draft);
  }

  ghost predicate MayRequest(db: Db, pkg: nat, snapshot: nat) {
    InOpenProject(db, pkg) && snapshot < |db.snapshots| && db.snapshots[snapshot].package == pkg
  }

  /** Nobody grants what he has requested or prepared himself, where that is enforced. */
  ghost predicate IsSomebodyElse(db: Db, auth: nat, user: nat)
    requires auth < |db.authorizations|
  {
    var a := db.authorizations[auth];
    db.sodEnabled && a.package < |db.packages| && db.packages[a.package].sodEnforced ==>
      && user != a.requester
      && (a.snapshot < |db.snapshots| ==> user != db.snapshots[a.snapshot].creator)
  }

  ghost predicate MayAuthorize(db: Db, pkg: nat, user: nat, auth: nat, reviews: Reviews) {
    && InOpenProject(db, pkg) && auth < |db.authorizations| && db.authorizations[auth].package == pkg
    && db.authorizations[auth].status in {REQUESTED, UNDER_REVIEW}
    && IsSomebodyElse(db, auth, user)
    && reviews == Reviews(true, true, true, true, true, true)
  }

  ghost predicate MayReject(db: Db, pkg: nat, auth: nat) {
    && pkg < |db.packages| && auth < |db.authorizations| && db.authorizations[auth].package == pkg
    && db.authorizations[auth].status in {REQUESTED, UNDER_REVIEW}
  }

  ghost predicate MayRevoke(db: Db, pkg: nat, auth: nat) {
    && pkg < |db.packages| && auth < |db.authorizations| && db.authorizations[auth].package == pkg
    && db.authorizations[auth].status == AUTHORIZED
  }

  lemma DecisionsMean(db: Db, pkg: nat, user: nat, auth: nat, reviews: Reviews, expiresAt: Option<int>)
    ensures Commits(db, Authorize(pkg, user, auth, reviews, expiresAt)) <==> MayAuthorize(db, pkg, user, auth, reviews)
    ensures Commits(db, Reject(pkg, auth)) <==> MayReject(db, pkg, auth)
    ensures Commits(db, Revoke(pkg, auth)) <==> MayRevoke(db, pkg, auth)
  {
  }

  /** Granted, and not expired: the moment of expiry itself still counts. */
  ghost predicate MayUse(db: Db, pkg: nat, auth: nat, now: int) {
    && InOpenProject(db, pkg) && auth < |db.authorizations| && db.authorizations[auth].package == pkg
    && db.authorizations[auth].status == AUTHORIZED
    && !(db.authorizations[auth].expiresAt.Some? && now > db.authorizations[auth].expiresAt.value)
  }

  ghost predicate MaySend(db: Db, pkg: nat, auth: nat, now: int, configured: bool) {
    MayUse(db, pkg, auth, now) && db.authorizations[auth].channel == CONTROLLED_EMAIL && configured
  }

  ghost predicate MayRecordManual(db: Db, pkg: nat, auth: nat, now: int) {
    && MayUse(db, pkg, auth, now)
    && db.authorizations[auth].channel in
       {MANUAL_COURIER, MANUAL_HAND_DELIVERY, MANUAL_REGISTERED_POST, MANUAL_EMAIL, MANUAL_EDMS, MANUAL_LETTER}
  }

  lemma UsesMean(db: Db, pkg: nat, auth: nat, now: int, configured: bool, messageId: Option<nat>,
                 replied: seq<Reported>)
    requires Safe(db)
    ensures Commits(db, SendEmail(pkg, auth, now, configured, messageId, replied))
      <==> MaySend(db, pkg, auth, now, configured)
    ensures Commits(db, RecordManual(pkg, auth, now)) <==> MayRecordManual(db, pkg, auth, now)
  {
    if auth < |db.authorizations| {
      assert AuthorizationOk(db, db.authorizations[auth]);
    }
  }

  // ---------------------------------------------------------------------------------------
  // What is written
  // ---------------------------------------------------------------------------------------

  /** One package gets a status, and nothing else about any package changes. */
  ghost predicate OnlyStatus(before: seq<Package>, pkg: nat, status: PackageStatus, after: seq<Package>) {
    pkg < |before| && after == before[pkg := before[pkg].(status := status)]
  }

  /** The new snapshot: a bundle of the approved revision, and the verified recipients. */
  ghost predicate IsSnapshotOf(s: Snapshot, pkg: nat, user: nat, channel: Channel, draft: P.Draft) {
    && s.package == pkg && s.creator == user && s.channel == channel
    && draft.active == Some(P.Revision(s.revision, true))
    && (exists k: nat :: P.Best(draft.bundles, s.revision, k) && draft.bundles[k].id == s.bundle)
    && multiset(s.recipients) == multiset(P.VerifiedIds(draft.preparations))
  }

  lemma SnapshotMeans(pkg: nat, user: nat, channel: Channel, draft: P.Draft)
    requires P.Prepared(draft)
    ensures IsSnapshotOf(SnapshotOf(pkg, user, channel, draft), pkg, user, channel, draft)
  {
    P.PreparedMeans(draft);
    var k := P.SelectedIsBest(draft.bundles, draft.active.value.id);
  }

  /** Everything about the grant: who, with all boxes, and until when; a date that is not given changes nothing. */
  ghost predicate IsGrant(before: Authorization, user: nat, expiresAt: Option<int>, after: Authorization) {
    && after.package == before.package && after.snapshot == before.snapshot && after.requester == before.requester
    && after.channel == before.channel && after.status == AUTHORIZED && after.authorizer == Some(user)
    && after.reviews == Reviews(true, true, true, true, true, true)
    && (expiresAt.Some? ==> after.expiresAt == expiresAt) && (expiresAt.None? ==> after.expiresAt == before.expiresAt)
  }

  /** The attempt that uses an authorization. */
  ghost predicate IsAttemptUnder(t: Attempt, auth: nat, manual: bool, now: int, messageId: Option<nat>) {
    && t.authorization == auth && t.number == 1 && t.manual == manual && t.at == now && t.messageId == messageId
  }

  /** Dispatched by hand: everyone is confirmed by the user, and the evidence is awaited. */
  ghost predicate IsConfirmedByHand(t: Attempt, recipients: seq<nat>) {
    && t.status == AwaitingEvidence && |t.recipients| == |recipients|
    && forall i :: 0 <= i < |recipients| ==>
         t.recipients[i].preparation == recipients[i] && t.recipients[i].status == D.MANUALLY_CONFIRMED
  }

  /** The event went into attempt `k`, the first with that message, and its package shows it. */
  ghost predicate EventStored(before: Db, after: Db, message: nat, reported: seq<Reported>, k: nat) {
    && IsAttemptOf(before.attempts, message, k) && k < |after.attempts|
    && after.attempts == before.attempts[k := after.attempts[k]]
    && Updated(before.attempts[k].recipients, reported, after.attempts[k].recipients)
    && after.attempts[k].authorization < |after.authorizations|
    && var pkg := after.authorizations[after.attempts[k].authorization].package;
    && pkg < |after.packages| && OnlyStatus(before.packages, pkg, after.packages[pkg].status, after.packages)
    && PackageShows(after.attempts[k].recipients, after.packages[pkg].status)
  }

  lemma EventApplies(before: Db, message: nat, event: nat, reported: seq<Reported>, k: nat)
    requires event !in before.events && IsAttemptOf(before.attempts, message, k)
    ensures Next(before, Webhook(message, event, reported)) == ApplyEvent(before, k, event, reported)
  {
    FirstAttemptFinds(before.attempts, message, k);
  }

  lemma EventMeans(before: Db, message: nat, k: nat, event: nat, reported: seq<Reported>, after: Db)
    requires Safe(before) && IsAttemptOf(before.attempts, message, k) && after == ApplyEvent(before, k, event, reported)
    ensures EventStored(before, after, message, reported, k)
  {
    EventTables(before, k, event, reported, after);
    EventPackage(before, k, event, reported, after);
    EventUpdates(before.attempts[k].recipients, reported);
    StatusTellsOfRecipients(after.attempts[k].recipients,
      after.packages[before.authorizations[before.attempts[k].authorization].package].status);
  }

  lemma EventPackage(before: Db, k: nat, event: nat, reported: seq<Reported>, after: Db)
    requires Safe(before) && k < |before.attempts| && after == ApplyEvent(before, k, event, reported)
    ensures before.attempts[k].authorization < |before.authorizations|
    ensures var pkg := before.authorizations[before.attempts[k].authorization].package;
      pkg < |after.packages| && OnlyStatus(before.packages, pkg, after.packages[pkg].status, after.packages)
  {
    assert AttemptOk(before, before.attempts[k]);
    assert AuthorizationOk(before, before.authorizations[before.attempts[k].authorization]);
  }
}
