/**
 The service functions of apps/web/src/server/services/notice-delivery.ts, row by row, against the
 state machine of DispatchProtocol.  A function that throws leaves every table as it was.
 */
module DispatchService {
  import opened Results
  import opened DispatchProtocol
  import opened DispatchMeaning
  import D = DispatchDomain
  import P = DispatchPreparation

  method CreateRecipients(replied: seq<Reported>) returns (rows: seq<Recipient>)
    ensures rows == Created(replied)
  {
    rows := [];
    for i := 0 to |replied|
      invariant |rows| == i && forall k :: 0 <= k < i ==> rows[k] == Created(replied)[k]
    {
      rows := rows + [Recipient(replied[i].preparation, MapProviderStatus(replied[i].status))];
    }
  }

  method ConfirmRecipients(preparations: seq<nat>) returns (rows: seq<Recipient>)
    ensures rows == Confirmations(preparations)
  {
    rows := [];
    for i := 0 to |preparations|
      invariant |rows| == i && forall k :: 0 <= k < i ==> rows[k] == Confirmations(preparations)[k]
    {
      rows := rows + [Recipient(preparations[i], D.MANUALLY_CONFIRMED)];
    }
  }

  /** The recipients as loaded with the attempt are searched; the rows are updated one after the other. */
  method UpdateRecipients(loaded: seq<Recipient>, reported: seq<Reported>) returns (rows: seq<Recipient>)
    ensures rows == ApplyAll(loaded, reported)
  {
    rows := loaded;
    for i := 0 to |reported|
      invariant rows == ApplyAll(loaded, reported[..i])
    {
      assert reported[..i + 1][..i] == reported[..i];
      var found := FirstWith(loaded, reported[i].preparation, 0);
      if found.Some? {
        rows := rows[found.value := rows[found.value].(status := MapProviderStatus(reported[i].status))];
      }
    }
    assert reported[..|reported|] == reported;
  }

  class Service {
    const sodEnabled: bool
    var packages: seq<Package>
    var snapshots: seq<Snapshot>
    var authorizations: seq<Authorization>
    var attempts: seq<Attempt>
    var events: set<nat>

    constructor (sodEnabled: bool, packages: seq<Package>)
      ensures Tables() == Empty(sodEnabled, packages) && Safe(Tables())
    {
      this.sodEnabled := sodEnabled;
      this.packages := packages;
      snapshots, authorizations, attempts, events := [], [], [], {};
    }

    ghost function Tables(): Db
      reads this
    {
      Db(sodEnabled, packages, snapshots, authorizations, attempts, events)
    }

    method SetPackageStatus(pkg: nat, status: PackageStatus)
      requires pkg < |packages|
      modifies this`packages
      ensures Tables() == old(WithPackageStatus(Tables(), pkg, status))
    {
      packages := packages[pkg := packages[pkg].(status := status)];
    }

    /**
     The snapshot names a bundle of the approved revision and the verified recipients, each as often as
     it was prepared; there is one that is not just copied, and all such can be reached.
     */
    method CreateDispatchPackageSnapshot(pkg: nat, user: nat, channel: Channel, draft: P.Draft) returns (ok: bool)
      requires Safe(Tables())
      modifies this`packages, this`snapshots
      ensures Safe(Tables())
      ensures ok <==> old(MayPrepare(Tables(), pkg, channel, draft))
      ensures Tables() == old(Next(Tables(), CreateSnapshot(pkg, user, channel, draft)))
      ensures ok ==>
        && |snapshots| == old(|snapshots|) + 1 && snapshots[..old(|snapshots|)] == old(snapshots)
        && IsSnapshotOf(snapshots[old(|snapshots|)], pkg, user, channel, draft)
        && P.AllReachable(draft.preparations)
        && OnlyStatus(old(packages), pkg, AUTHORIZATION_PENDING, packages)
      ensures !ok ==> Tables() == old(Tables())
    {
      NextSafe(Tables(), CreateSnapshot(pkg, user, channel, draft));
      PrepareMeans(Tables(), pkg, user, channel, draft);
      ok := CreateSnapshotInTransaction(pkg, user, channel, draft);
      if ok {
        P.PreparedMeans(draft);
        SnapshotMeans(pkg, user, channel, draft);
      }
    }

    method CreateSnapshotInTransaction(pkg: nat, user: nat, channel: Channel, draft: P.Draft) returns (ok: bool)
      modifies this`packages, this`snapshots
      ensures ok <==> old(Commits(Tables(), CreateSnapshot(pkg, user, channel, draft)))
      ensures Tables() == old(Next(Tables(), CreateSnapshot(pkg, user, channel, draft)))
    {
      if pkg >= |packages| || packages[pkg].archived || !ReadyForPreparation(packages[pkg].status) {
        return false;
      }
      if draft.active.None? || !draft.active.value.approved || !Operational(channel) {
        return false;
      }
      var bundle := P.SelectExportBundle(draft.bundles, draft.active.value.id);
      if bundle.None? || !draft.coverOk {
        return false;
      }
      var required, copied := P.BuildRecipientSnapshots(draft.preparations);
      var checked := P.ValidateRecipientsForDispatch(required + copied);
      if checked.Fail? {
        return false;
      }
      snapshots := snapshots
        + [Snapshot(pkg, channel, user, draft.active.value.id, bundle.value.id, P.Keys(required + copied))];
      SetPackageStatus(pkg, AUTHORIZATION_PENDING);
      return true;
    }

    /** The new authorization is for a snapshot of the package; nothing is granted, nothing was sent under it. */
    method RequestDispatchAuthorization(pkg: nat, user: nat, snapshot: nat) returns (ok: bool)
      requires Safe(Tables())
      modifies this`authorizations
      ensures Safe(Tables())
      ensures ok <==> old(MayRequest(Tables(), pkg, snapshot))
      ensures Tables() == old(Next(Tables(), RequestAuthorization(pkg, user, snapshot)))
      ensures ok ==>
        && |authorizations| == old(|authorizations|) + 1
        && authorizations[..old(|authorizations|)] == old(authorizations)
        && var a := authorizations[old(|authorizations|)];
        && a.status == REQUESTED && a.requester == user && a.authorizer.None?
        && a.reviews == Reviews(false, false, false, false, false, false)
        && a.package == pkg && a.snapshot == snapshot && a.channel == snapshots[snapshot].channel && a.expiresAt.None?
        && AttemptsUnder(attempts, old(|authorizations|)) == 0
      ensures !ok ==> Tables() == old(Tables())
    {
      ghost var before := Tables();
      NextSafe(before, RequestAuthorization(pkg, user, snapshot));
      if pkg >= |packages| || packages[pkg].archived || snapshot >= |snapshots| || snapshots[snapshot].package != pkg {
        return false;
      }
      authorizations := authorizations
        + [Authorization(pkg, snapshot, user, snapshots[snapshot].channel, REQUESTED, None, Unanswered(), None)];
      assert Tables() == Next(before, RequestAuthorization(pkg, user, snapshot));
      UnusedHasNone(Tables(), |authorizations| - 1);
      return true;
    }

    /** What was requested is ready for use: reviewed in all points, by somebody who may, and unused. */
    method AuthorizeDispatch(pkg: nat, user: nat, auth: nat, reviews: Reviews,
                             expiresAt: Option<int>) returns (ok: bool)
      requires Safe(Tables())
      modifies this`packages, this`authorizations
      ensures Safe(Tables())
      ensures ok <==> old(MayAuthorize(Tables(), pkg, user, auth, reviews))
      ensures Tables() == old(Next(Tables(), Authorize(pkg, user, auth, reviews, expiresAt)))
      ensures ok ==>
        && ReadyForUse(Tables(), auth) && authorizations == old(authorizations)[auth := authorizations[auth]]
        && IsGrant(old(authorizations)[auth], user, expiresAt, authorizations[auth])
        && OnlyStatus(old(packages), pkg, AUTHORIZED_FOR_DISPATCH, packages)
      ensures !ok ==> Tables() == old(Tables())
    {
      ghost var before := Tables();
      NextSafe(before, Authorize(pkg, user, auth, reviews, expiresAt));
      DecisionsMean(before, pkg, user, auth, reviews, expiresAt);
      ok := AuthorizeInTransaction(pkg, user, auth, reviews, expiresAt);
      if ok {
        assert authorizations[auth].status == AUTHORIZED && authorizations[auth].authorizer == Some(user);
        AuthorizedIsReady(Tables(), auth);
      }
    }

    method AuthorizeInTransaction(pkg: nat, user: nat, auth: nat, reviews: Reviews,
                                  expiresAt: Option<int>) returns (ok: bool)
      modifies this`packages, this`authorizations
      ensures ok <==> old(Commits(Tables(), Authorize(pkg, user, auth, reviews, expiresAt)))
      ensures Tables() == old(Next(Tables(), Authorize(pkg, user, auth, reviews, expiresAt)))
    {
      if pkg >= |packages| || packages[pkg].archived || auth >= |authorizations|
        || authorizations[auth].package != pkg
      {
        return false;
      }
      var a := authorizations[auth];
      if a.status != REQUESTED && a.status != UNDER_REVIEW {
        return false;
      }
      if sodEnabled && packages[pkg].sodEnforced {
        if a.requester == user {
          return false;
        }
        if a.snapshot < |snapshots| && snapshots[a.snapshot].creator == user {
          return false;
        }
      }
      if !reviews.recipients || !reviews.method_ || !reviews.attachments || !reviews.deadline || !reviews.scope
        || !reviews.risk
      {
        return false;
      }
      authorizations := authorizations[auth := a.(status := AUTHORIZED, authorizer := Some(user),
        reviews := Reviews(true, true, true, true, true, true),
        expiresAt := if expiresAt.Some? then expiresAt else a.expiresAt)];
      SetPackageStatus(pkg, AUTHORIZED_FOR_DISPATCH);
      return true;
    }

    /** Nothing was sent under the authorization, and nothing will be: it stays as it is. */
    method RejectDispatchAuthorization(pkg: nat, auth: nat) returns (ok: bool)
      requires Safe(Tables())
      modifies this`packages, this`authorizations
      ensures Safe(Tables())
      ensures ok <==> old(MayReject(Tables(), pkg, auth))
      ensures Tables() == old(Next(Tables(), Reject(pkg, auth)))
      ensures ok ==>
        && Closed(Tables(), auth)
        && authorizations == old(authorizations)[auth := old(authorizations)[auth].(status := REJECTED)]
        && OnlyStatus(old(packages), pkg, AUTHORIZATION_PENDING, packages)
      ensures !ok ==> Tables() == old(Tables())
    {
      ghost var before := Tables();
      NextSafe(before, Reject(pkg, auth));
      if auth >= |authorizations| || authorizations[auth].package != pkg || pkg >= |packages| {
        return false;
      }
      if authorizations[auth].status != REQUESTED && authorizations[auth].status != UNDER_REVIEW {
        return false;
      }
      authorizations := authorizations[auth := authorizations[auth].(status := REJECTED)];
      SetPackageStatus(pkg, AUTHORIZATION_PENDING);
      assert Tables() == Next(before, Reject(pkg, auth));
      UnusedHasNone(Tables(), auth);
      return true;
    }

    method RevokeDispatchAuthorization(pkg: nat, auth: nat) returns (ok: bool)
      requires Safe(Tables())
      modifies this`packages, this`authorizations
      ensures Safe(Tables())
      ensures ok <==> old(MayRevoke(Tables(), pkg, auth))
      ensures Tables() == old(Next(Tables(), Revoke(pkg, auth)))
      ensures ok ==>
        && Closed(Tables(), auth)
        && authorizations == old(authorizations)[auth := old(authorizations)[auth].(status := REVOKED)]
        && OnlyStatus(old(packages), pkg, AUTHORIZATION_PENDING, packages)
      ensures !ok ==> Tables() == old(Tables())
    {
      ghost var before := Tables();
      NextSafe(before, Revoke(pkg, auth));
      if auth >= |authorizations| || authorizations[auth].package != pkg || pkg >= |packages| {
        return false;
      }
      if authorizations[auth].status != AUTHORIZED {
        return false;
      }
      authorizations := authorizations[auth := authorizations[auth].(status := REVOKED)];
      SetPackageStatus(pkg, AUTHORIZATION_PENDING);
      assert Tables() == Next(before, Revoke(pkg, auth));
      UnusedHasNone(Tables(), auth);
      return true;
    }

    /**
     The authorization was ready for use and not expired; now it has its one attempt, whose status is the
     aggregate of what the provider said of the recipients, and the package shows it.
     */
    method SendApprovedNoticeEmail(pkg: nat, auth: nat, now: int, configured: bool, messageId: Option<nat>,
                                   replied: seq<Reported>)
      returns (ok: bool)
      requires Safe(Tables())
      modifies this`packages, this`authorizations, this`attempts
      ensures Safe(Tables())
      ensures ok <==> old(MaySend(Tables(), pkg, auth, now, configured))
      ensures Tables() == old(Next(Tables(), SendEmail(pkg, auth, now, configured, messageId, replied)))
      ensures ok ==>
        && old(ReadyForUse(Tables(), auth)) && UsedNow(Tables(), auth)
        && authorizations == old(authorizations)[auth := old(authorizations)[auth].(status := USED)]
        && attempts[..|attempts| - 1] == old(attempts)
        && IsAttemptUnder(attempts[|attempts| - 1], auth, false, now, messageId)
        && StoredFrom(replied, attempts[|attempts| - 1].recipients) && Agrees(attempts[|attempts| - 1])
        && pkg < |packages| && OnlyStatus(old(packages), pkg, packages[pkg].status, packages)
        && PackageShows(attempts[|attempts| - 1].recipients, packages[pkg].status)
      ensures !ok ==> Tables() == old(Tables())
    {
      ghost var before := Tables();
      ghost var step := SendEmail(pkg, auth, now, configured, messageId, replied);
      NextSafe(before, step);
      UsesMean(before, pkg, auth, now, configured, messageId, replied);
      ok := SendInTransaction(pkg, auth, now, configured, messageId, replied);
      if ok {
        AuthorizedIsReady(before, auth);
        LastIsUsed(Tables(), auth);
        PackageAfterSending(before, step, Tables());
      }
    }

    method SendInTransaction(pkg: nat, auth: nat, now: int, configured: bool, messageId: Option<nat>,
                             replied: seq<Reported>)
      returns (ok: bool)
      modifies this`packages, this`authorizations, this`attempts
      ensures ok <==> old(Commits(Tables(), SendEmail(pkg, auth, now, configured, messageId, replied)))
      ensures Tables() == old(Next(Tables(), SendEmail(pkg, auth, now, configured, messageId, replied)))
    {
      if pkg >= |packages| || packages[pkg].archived || auth >= |authorizations|
        || authorizations[auth].package != pkg
      {
        return false;
      }
      var a := authorizations[auth];
      if !Dispatchable(a, now) || a.channel != CONTROLLED_EMAIL || !configured {
        return false;
      }
      var rows := CreateRecipients(replied);
      var status := D.Aggregate(Statuses(rows));
      WriteAttempt(pkg, auth, now, status, messageId, rows);
      return true;
    }

    /** The rows written around the call of the provider, with what it has answered. */
    method WriteAttempt(pkg: nat, auth: nat, now: int, status: D.AttemptStatus, messageId: Option<nat>,
                        rows: seq<Recipient>)
      requires pkg < |packages| && auth < |authorizations|
      modifies this`packages, this`authorizations, this`attempts
      ensures Tables() == old(WithPackageStatus(
        WithAttempt(Tables(), auth, false, now, Aggregated(status), messageId, rows), pkg, MapToPackageStatus(status)))
    {
      var attemptNumber := AttemptsUnder(attempts, auth) + 1;
      authorizations := authorizations[auth := authorizations[auth].(status := USED)];
      SetPackageStatus(pkg, DISPATCH_IN_PROGRESS);
      attempts := attempts + [Attempt(auth, attemptNumber, false, now, Aggregated(status), messageId, rows)];
      SetPackageStatus(pkg, MapToPackageStatus(status));
      assert packages == old(packages)[pkg := old(packages)[pkg].(status := MapToPackageStatus(status))];
    }

    /** The one attempt of an authorization that was ready for use, to exactly the recipients of its snapshot. */
    method RecordManualDispatch(pkg: nat, auth: nat, now: int) returns (ok: bool)
      requires Safe(Tables())
      modifies this`packages, this`authorizations, this`attempts
      ensures Safe(Tables())
      ensures ok <==> old(MayRecordManual(Tables(), pkg, auth, now))
      ensures Tables() == old(Next(Tables(), RecordManual(pkg, auth, now)))
      ensures ok ==>
        && old(ReadyForUse(Tables(), auth)) && UsedNow(Tables(), auth)
        && authorizations == old(authorizations)[auth := old(authorizations)[auth].(status := USED)]
        && attempts[..|attempts| - 1] == old(attempts)
        && IsAttemptUnder(attempts[|attempts| - 1], auth, true, now, None)
        && authorizations[auth].snapshot < |snapshots|
        && IsConfirmedByHand(attempts[|attempts| - 1], snapshots[authorizations[auth].snapshot].recipients)
        && OnlyStatus(old(packages), pkg, DISPATCHED, packages)
      ensures !ok ==> Tables() == old(Tables())
    {
      ghost var before := Tables();
      NextSafe(before, RecordManual(pkg, auth, now));
      UsesMean(before, pkg, auth, now, false, None, []);
      ok := RecordManualInTransaction(pkg, auth, now);
      if ok {
        AuthorizedIsReady(before, auth);
        LastIsUsed(Tables(), auth);
        assert AttemptOk(Tables(), attempts[|attempts| - 1]);
      }
    }

    method RecordManualInTransaction(pkg: nat, auth: nat, now: int) returns (ok: bool)
      modifies this`packages, this`authorizations, this`attempts
      ensures ok <==> old(Commits(Tables(), RecordManual(pkg, auth, now)))
      ensures Tables() == old(Next(Tables(), RecordManual(pkg, auth, now)))
    {
      if pkg >= |packages| || packages[pkg].archived || auth >= |authorizations|
        || authorizations[auth].package != pkg
      {
        return false;
      }
      var a := authorizations[auth];
      if !Dispatchable(a, now) || !IsManual(a.channel) || a.snapshot >= |snapshots| {
        return false;
      }
      var attemptNumber := AttemptsUnder(attempts, auth) + 1;
      var rows := ConfirmRecipients(snapshots[a.snapshot].recipients);
      authorizations := authorizations[auth := a.(status := USED)];
      attempts := attempts + [Attempt(auth, attemptNumber, true, now, AwaitingEvidence, None, rows)];
      SetPackageStatus(pkg, DISPATCHED);
      return true;
    }

    /**
     An event is recorded once: delivered again it changes nothing.  It keeps the attempts in agreement
     with their recipients, sends nothing, and uses no authorization.
     */
    method ProcessDeliveryWebhook(message: nat, event: nat, reported: seq<Reported>) returns (ok: bool, duplicate: bool)
      requires Safe(Tables())
      modifies this`packages, this`attempts, this`events
      ensures Safe(Tables())
      ensures ok <==> exists k :: 0 <= k < old(|attempts|) && old(attempts)[k].messageId == Some(message)
      ensures Tables() == old(Next(Tables(), Webhook(message, event, reported)))
      ensures duplicate <==> ok && event in old(events)
      ensures ok && !duplicate ==>
        && events == old(events) + {event}
        && exists k :: EventStored(old(Tables()), Tables(), message, reported, k)
      ensures duplicate || !ok ==> Tables() == old(Tables())
      ensures old(AllAgree(Tables())) ==> AllAgree(Tables())
      ensures |attempts| == old(|attempts|)
    {
      ghost var before := Tables();
      ghost var step := Webhook(message, event, reported);
      NextSafe(before, step);
      FirstAttemptIs(attempts, message, 0);
      if Commits(before, step) && AllAgree(before) {
        StepsAgree(before, step);
      }
      ok, duplicate := WebhookInTransaction(message, event, reported);
      if ok && !duplicate {
        ghost var k := FirstAttempt(before.attempts, message, 0).value;
        EventApplies(before, message, event, reported, k);
        EventMeans(before, message, k, event, reported, Tables());
      }
    }

    method WebhookInTransaction(message: nat, event: nat, reported: seq<Reported>) returns (ok: bool, duplicate: bool)
      modifies this`packages, this`attempts, this`events
      ensures ok <==> old(Commits(Tables(), Webhook(message, event, reported)))
      ensures Tables() == old(Next(Tables(), Webhook(message, event, reported)))
      ensures duplicate <==> ok && event in old(events)
      ensures events == old(events) + if ok then {event} else {}
      ensures |attempts| == old(|attempts|)
    {
      var found := FirstAttempt(attempts, message, 0);
      if found.None? {
        return false, false;
      }
      if event in events {
        return true, true;
      }
      var attempt := attempts[found.value];
      events := events + {event};
      var rows := UpdateRecipients(attempt.recipients, reported);
      var status := D.Aggregate(Statuses(rows));
      attempts := attempts[found.value := attempt.(recipients := rows, status := Aggregated(status))];
      if attempt.authorization < |authorizations| && authorizations[attempt.authorization].package < |packages| {
        SetPackageStatus(authorizations[attempt.authorization].package, MapToPackageStatus(status));
      }
      return true, false;
    }

    /** Only the recipient changes; whether its attempt still agrees depends on the others. */
    method RecordAcknowledgment(attempt: nat, of: nat, recipient: Option<nat>) returns (ok: bool)
      requires Safe(Tables())
      modifies this`attempts
      ensures Safe(Tables())
      ensures ok
        <==> && attempt < old(|attempts|) && of < old(|attempts|)
             && (recipient.Some? ==> recipient.value < old(|attempts[of].recipients|))
      ensures Tables() == old(Next(Tables(), Acknowledge(attempt, of, recipient)))
      ensures ok && recipient.Some? ==>
        && of < old(|attempts|) && recipient.value < |old(attempts)[of].recipients|
        && var t, i := old(attempts)[of], recipient.value;
        && attempts == old(attempts)[of := t.(recipients :=
             t.recipients[i := Recipient(t.recipients[i].preparation, D.ACKNOWLEDGED)])]
      ensures ok && recipient.Some? && old(AllAgree(Tables())) ==>
        && var ss := old(Statuses(attempts[of].recipients));
        && (AllAgree(Tables()) <==>
              attempts[of].manual || D.AcknowledgmentAgrees(ss[recipient.value], D.Others(ss, recipient.value)))
      ensures !ok || recipient.None? ==> Tables() == old(Tables())
    {
      ghost var before := Tables();
      NextSafe(before, Acknowledge(attempt, of, recipient));
      if AllAgree(before) && recipient.Some? && Commits(before, Acknowledge(attempt, of, recipient)) {
        AcknowledgmentAgrees(before, attempt, of, recipient.value);
      }
      ok := AcknowledgeInTransaction(attempt, of, recipient);
    }

    method AcknowledgeInTransaction(attempt: nat, of: nat, recipient: Option<nat>) returns (ok: bool)
      modifies this`attempts
      ensures ok <==> old(Commits(Tables(), Acknowledge(attempt, of, recipient)))
      ensures Tables() == old(Next(Tables(), Acknowledge(attempt, of, recipient)))
    {
      if attempt >= |attempts| || of >= |attempts|
        || (recipient.Some? && recipient.value >= |attempts[of].recipients|)
      {
        return false;
      }
      if recipient.Some? {
        var t := attempts[of];
        var row := t.recipients[recipient.value].(status := D.ACKNOWLEDGED);
        attempts := attempts[of := t.(recipients := t.recipients[recipient.value := row])];
      }
      return true;
    }
  }
}
