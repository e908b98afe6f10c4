/**
 The dispatch protocol of apps/web/src/server/services/notice-delivery.ts as a state machine: every
 service function is one transaction over the tables, which either commits or throws and changes
 nothing.  Rows are numbered by their position; provider replies and clocks are inputs.
 */
module DispatchProtocol {
  import opened Results
  import D = DispatchDomain
  import P = DispatchPreparation

  // ---------------------------------------------------------------------------------------
  // Tables
  // ---------------------------------------------------------------------------------------

  datatype PackageStatus = APPROVED | EXPORTED | AUTHORIZATION_PENDING | AUTHORIZED_FOR_DISPATCH | DISPATCHED
    | DELIVERY_PENDING | DELIVERY_PARTIAL | DELIVERY_CONFIRMED | RECEIPT_UNCONFIRMED | RECEIPT_CONFIRMED
    | DELIVERY_FAILED | DISPATCH_IN_PROGRESS | NOT_READY

  datatype Package = Package(status: PackageStatus, sodEnforced: bool, archived: bool)

  datatype Channel = MANUAL_COURIER | MANUAL_HAND_DELIVERY | MANUAL_REGISTERED_POST | MANUAL_EMAIL | MANUAL_EDMS
    | MANUAL_LETTER | CONTROLLED_EMAIL | FutureChannel | OtherChannel

  /** The name of the channel starts with `MANUAL_`. */
  predicate IsManual(c: Channel) {
    || c == MANUAL_COURIER || c == MANUAL_HAND_DELIVERY || c == MANUAL_REGISTERED_POST || c == MANUAL_EMAIL
    || c == MANUAL_EDMS || c == MANUAL_LETTER
  }

  predicate Operational(c: Channel) {
    c != FutureChannel && c != OtherChannel
  }

  /** What is operational is sent by hand or by the one automated provider. */
  lemma OperationalMeans(c: Channel)
    ensures Operational(c) <==> (IsManual(c) != (c == CONTROLLED_EMAIL))
  {
  }

  /** An approved revision with the bundle that goes out, and the preparations of those who get it. */
  datatype Snapshot = Snapshot(package: nat, channel: Channel, creator: nat, revision: nat, bundle: nat,
    recipients: seq<nat>)

  datatype AuthorizationStatus = REQUESTED | UNDER_REVIEW | AUTHORIZED | REJECTED | REVOKED | USED

  /** The six boxes that must be confirmed to authorize. */
  datatype Reviews = Reviews(recipients: bool, method_: bool, attachments: bool, deadline: bool, scope: bool,
    risk: bool)

  predicate AllReviewed(r: Reviews) {
    r.recipients && r.method_ && r.attachments && r.deadline && r.scope && r.risk
  }

  datatype Authorization = Authorization(package: nat, snapshot: nat, requester: nat, channel: Channel,
    status: AuthorizationStatus, authorizer: Option<nat>, reviews: Reviews, expiresAt: Option<int>)

  datatype Recipient = Recipient(preparation: nat, status: D.RecipientStatus)

  datatype SentStatus = Aggregated(status: D.AttemptStatus) | AwaitingEvidence

  datatype Attempt = Attempt(authorization: nat, number: nat, manual: bool, at: int, status: SentStatus,
    messageId: Option<nat>, recipients: seq<Recipient>)

  datatype Db = Db(sodEnabled: bool, packages: seq<Package>, snapshots: seq<Snapshot>,
    authorizations: seq<Authorization>, attempts: seq<Attempt>, events: set<nat>)

  // ---------------------------------------------------------------------------------------
  // Helpers of the service
  // ---------------------------------------------------------------------------------------

  datatype ProviderStatus = Known(status: D.RecipientStatus) | Unrecognized

  /** Each of the provider's eight kinds is stored as it is, everything else as unknown. */
  predicate StoredAs(reported: ProviderStatus, stored: D.RecipientStatus) {
    if reported.Known? && reported.status in
      {D.PENDING, D.SUBMITTED, D.SENT, D.DELIVERED, D.BOUNCED, D.REJECTED, D.FAILED, D.UNKNOWN}
    then stored == reported.status
    else stored == D.UNKNOWN
  }

  /** A provider cannot acknowledge or confirm: anything but its own kinds counts as unknown. */
  function MapProviderStatus(s: ProviderStatus): (r: D.RecipientStatus)
    ensures StoredAs(s, r) && r != D.ACKNOWLEDGED && r != D.MANUALLY_CONFIRMED
  {
    if s.Unrecognized? || s.status == D.ACKNOWLEDGED || s.status == D.MANUALLY_CONFIRMED then D.UNKNOWN else s.status
  }

  function MapToPackageStatus(s: D.AttemptStatus): PackageStatus {
    match s
    case AttemptDelivered => DELIVERY_CONFIRMED
    case AttemptPartiallyDelivered => DELIVERY_PARTIAL
    case AttemptFailed => DELIVERY_FAILED
    case _ => DISPATCHED
  }

  predicate ReadyForPreparation(s: PackageStatus) {
    s != DISPATCH_IN_PROGRESS && s != NOT_READY
  }

  function Statuses(rs: seq<Recipient>): seq<D.RecipientStatus> {
    seq(|rs|, i requires 0 <= i < |rs| => rs[i].status)
  }

  datatype Reported = Reported(preparation: nat, status: ProviderStatus)

  function Created(reported: seq<Reported>): seq<Recipient> {
    seq(|reported|, i requires 0 <= i < |reported| =>
      Recipient(reported[i].preparation, MapProviderStatus(reported[i].status)))
  }

  function FirstWith(rs: seq<Recipient>, preparation: nat, from: nat): Option<nat>
    requires from <= |rs|
    ensures FirstWith(rs, preparation, from).Some? ==> FirstWith(rs, preparation, from).value < |rs|
    decreases |rs| - from
  {
    if from == |rs| then None
    else if rs[from].preparation == preparation then Some(from)
    else FirstWith(rs, preparation, from + 1)
  }

  /** One reported status, for the first recipient with that preparation as the attempt was loaded. */
  function ApplyOne(loaded: seq<Recipient>, rs: seq<Recipient>, r: Reported): (after: seq<Recipient>)
    requires |rs| == |loaded|
    ensures |after| == |rs|
  {
    match FirstWith(loaded, r.preparation, 0)
    case None => rs
    case Some(i) => rs[i := rs[i].(status := MapProviderStatus(r.status))]
  }

  function ApplyAll(loaded: seq<Recipient>, reported: seq<Reported>): (after: seq<Recipient>)
    ensures |after| == |loaded|
    decreases |reported|
  {
    if reported == [] then loaded
    else ApplyOne(loaded, ApplyAll(loaded, reported[..|reported| - 1]), reported[|reported| - 1])
  }

  function FirstAttempt(attempts: seq<Attempt>, messageId: nat, from: nat): (r: Option<nat>)
    requires from <= |attempts|
    ensures r.Some? ==> r.value < |attempts| && attempts[r.value].messageId == Some(messageId)
    decreases |attempts| - from
  {
    if from == |attempts| then None
    else if attempts[from].messageId == Some(messageId) then Some(from)
    else FirstAttempt(attempts, messageId, from + 1)
  }

  /** The attempts made under an authorization. */
  function AttemptsUnder(attempts: seq<Attempt>, authorization: nat): nat
    decreases |attempts|
  {
    if attempts == [] then 0
    else
      var last, rest := attempts[|attempts| - 1], AttemptsUnder(attempts[..|attempts| - 1], authorization);
      rest + if last.authorization == authorization then 1 else 0
  }

  // ---------------------------------------------------------------------------------------
  // Steps
  // ---------------------------------------------------------------------------------------

  datatype Step =
    | CreateSnapshot(pkg: nat, user: nat, channel: Channel, draft: P.Draft)
    | RequestAuthorization(pkg: nat, user: nat, snapshot: nat)
    | Authorize(pkg: nat, user: nat, auth: nat, reviews: Reviews, expiresAt: Option<int>)
    | Reject(pkg: nat, auth: nat)
    | Revoke(pkg: nat, auth: nat)
    | SendEmail(pkg: nat, auth: nat, now: int, configured: bool, messageId: Option<nat>, replied: seq<Reported>)
    | RecordManual(pkg: nat, auth: nat, now: int)
    | Webhook(message: nat, event: nat, reported: seq<Reported>)
    | Acknowledge(attempt: nat, of: nat, recipient: Option<nat>)
    | OtherService(pkg: nat, status: PackageStatus)

  predicate OpenPackage(db: Db, pkg: nat) {
    pkg < |db.packages| && !db.packages[pkg].archived
  }

  predicate AuthorizationOf(db: Db, auth: nat, pkg: nat) {
    auth < |db.authorizations| && db.authorizations[auth].package == pkg && pkg < |db.packages|
  }

  predicate Pending(db: Db, auth: nat)
    requires auth < |db.authorizations|
  {
    db.authorizations[auth].status == REQUESTED || db.authorizations[auth].status == UNDER_REVIEW
  }

  /** `assertAuthorizationDispatchable`. */
  predicate Dispatchable(a: Authorization, now: int) {
    a.status == AUTHORIZED && (a.expiresAt.Some? ==> now <= a.expiresAt.value)
  }

  predicate SeparatedFrom(db: Db, a: Authorization, user: nat) {
    db.sodEnabled && a.package < |db.packages| && db.packages[a.package].sodEnforced ==>
      a.requester != user && (a.snapshot < |db.snapshots| ==> db.snapshots[a.snapshot].creator != user)
  }

  /** The guards of the service functions: whether the step commits. */
  predicate Commits(db: Db, step: Step) {
    match step
    case CreateSnapshot(pkg, user, channel, draft) =>
      OpenPackage(db, pkg) && ReadyForPreparation(db.packages[pkg].status) && Operational(channel) && P.Prepared(draft)
    case RequestAuthorization(pkg, user, snapshot) =>
      OpenPackage(db, pkg) && snapshot < |db.snapshots| && db.snapshots[snapshot].package == pkg
    case Authorize(pkg, user, auth, reviews, expiresAt) =>
      && OpenPackage(db, pkg) && AuthorizationOf(db, auth, pkg) && Pending(db, auth)
      && SeparatedFrom(db, db.authorizations[auth], user) && AllReviewed(reviews)
    case Reject(pkg, auth) => AuthorizationOf(db, auth, pkg) && Pending(db, auth)
    case Revoke(pkg, auth) => AuthorizationOf(db, auth, pkg) && db.authorizations[auth].status == AUTHORIZED
    case SendEmail(pkg, auth, now, configured, messageId, replied) =>
      && OpenPackage(db, pkg) && AuthorizationOf(db, auth, pkg) && Dispatchable(db.authorizations[auth], now)
      && db.authorizations[auth].channel == CONTROLLED_EMAIL && configured
    case RecordManual(pkg, auth, now) =>
      && OpenPackage(db, pkg) && AuthorizationOf(db, auth, pkg) && Dispatchable(db.authorizations[auth], now)
      && IsManual(db.authorizations[auth].channel) && db.authorizations[auth].snapshot < |db.snapshots|
    case Webhook(messageId, event, reported) => FirstAttempt(db.attempts, messageId, 0).Some?
    case Acknowledge(attempt, of, recipient) =>
      && attempt < |db.attempts| && of < |db.attempts|
      && (recipient.Some? ==> recipient.value < |db.attempts[of].recipients|)
    case OtherService(pkg, status) => pkg < |db.packages|
  }

  function WithPackageStatus(db: Db, pkg: nat, status: PackageStatus): Db
    requires pkg < |db.packages|
  {
    db.(packages := db.packages[pkg := db.packages[pkg].(status := status)])
  }

  function WithAuthorization(db: Db, auth: nat, a: Authorization): Db
    requires auth < |db.authorizations|
  {
    db.(authorizations := db.authorizations[auth := a])
  }

  /** A use of the authorization: a new attempt, numbered after those before it. */
  function WithAttempt(db: Db, auth: nat, manual: bool, now: int, status: SentStatus, messageId: Option<nat>,
                       recipients: seq<Recipient>): Db
    requires auth < |db.authorizations|
  {
    var attempt := Attempt(auth, AttemptsUnder(db.attempts, auth) + 1, manual, now, status, messageId, recipients);
    WithAuthorization(db, auth, db.authorizations[auth].(status := USED)).(attempts := db.attempts + [attempt])
  }

  function SnapshotOf(pkg: nat, user: nat, channel: Channel, draft: P.Draft): Snapshot
    requires P.Prepared(draft)
  {
    Snapshot(pkg, channel, user, draft.active.value.id, P.BundleOf(draft).id, P.RecipientsOf(draft))
  }

  function Unanswered(): Reviews {
    Reviews(false, false, false, false, false, false)
  }

  /** What a committed step changes. */
  function Effect(db: Db, step: Step): Db
    requires Commits(db, step)
  {
    match step
    case CreateSnapshot(pkg, user, channel, draft) =>
      WithPackageStatus(db, pkg, AUTHORIZATION_PENDING)
        .(snapshots := db.snapshots + [SnapshotOf(pkg, user, channel, draft)])
    case RequestAuthorization(pkg, user, snapshot) =>
      db.(authorizations := db.authorizations
        + [Authorization(pkg, snapshot, user, db.snapshots[snapshot].channel, REQUESTED, None, Unanswered(), None)])
    case Authorize(pkg, user, auth, reviews, expiresAt) =>
      var a := db.authorizations[auth];
      var updated := a.(status := AUTHORIZED, authorizer := Some(user),
        reviews := Reviews(true, true, true, true, true, true),
                        expiresAt := if expiresAt.Some? then expiresAt else a.expiresAt);
      WithPackageStatus(WithAuthorization(db, auth, updated), pkg, AUTHORIZED_FOR_DISPATCH)
    case Reject(pkg, auth) =>
      WithPackageStatus(WithAuthorization(db, auth, db.authorizations[auth].(status := REJECTED)), pkg,
        AUTHORIZATION_PENDING)
    case Revoke(pkg, auth) =>
      WithPackageStatus(WithAuthorization(db, auth, db.authorizations[auth].(status := REVOKED)), pkg,
        AUTHORIZATION_PENDING)
    case SendEmail(pkg, auth, now, configured, messageId, replied) =>
      var recipients := Created(replied);
      var status := D.Aggregate(Statuses(recipients));
      WithPackageStatus(WithAttempt(db, auth, false, now, Aggregated(status), messageId, recipients), pkg,
        MapToPackageStatus(status))
    case RecordManual(pkg, auth, now) =>
      var preparations := db.snapshots[db.authorizations[auth].snapshot].recipients;
      WithPackageStatus(WithAttempt(db, auth, true, now, AwaitingEvidence, None, Confirmations(preparations)), pkg,
        DISPATCHED)
    case Webhook(messageId, event, reported) =>
      if event in db.events then db else ApplyEvent(db, FirstAttempt(db.attempts, messageId, 0).value, event, reported)
    case Acknowledge(attempt, of, recipient) =>
      if recipient.None? then db
      else
        var t := db.attempts[of];
        db.(attempts := db.attempts[of := t.(recipients :=
          t.recipients[recipient.value := t.recipients[recipient.value].(status := D.ACKNOWLEDGED)])])
    case OtherService(pkg, status) => WithPackageStatus(db, pkg, status)
  }

  function Confirmations(preparations: seq<nat>): seq<Recipient> {
    seq(|preparations|, i requires 0 <= i < |preparations| => Recipient(preparations[i], D.MANUALLY_CONFIRMED))
  }

  function ApplyEvent(db: Db, k: nat, event: nat, reported: seq<Reported>): Db
    requires k < |db.attempts|
  {
    var t := db.attempts[k];
    var recipients := ApplyAll(t.recipients, reported);
    var status := D.Aggregate(Statuses(recipients));
    var updated := db.(attempts := db.attempts[k := t.(recipients := recipients, status := Aggregated(status))],
                       events := db.events + {event});
    if t.authorization < |db.authorizations| && db.authorizations[t.authorization].package < |db.packages| then
      WithPackageStatus(updated, db.authorizations[t.authorization].package, MapToPackageStatus(status))
    else updated
  }

  function Next(db: Db, step: Step): Db {
    if Commits(db, step) then Effect(db, step) else db
  }

  function Run(db: Db, steps: seq<Step>): Db
    decreases |steps|
  {
    if steps == [] then db else Next(Run(db, steps[..|steps| - 1]), steps[|steps| - 1])
  }

  function Empty(sodEnabled: bool, packages: seq<Package>): Db {
    Db(sodEnabled, packages, [], [], [], {})
  }

  // ---------------------------------------------------------------------------------------
  // Safety
  // ---------------------------------------------------------------------------------------

  predicate SnapshotOk(db: Db, s: Snapshot) {
    Operational(s.channel) && s.package < |db.packages| && s.recipients != []
  }

  predicate Granted(s: AuthorizationStatus) {
    s == AUTHORIZED || s == USED || s == REVOKED
  }

  /** An authorization goes back to a snapshot of its package, and was granted by the book. */
  predicate AuthorizationOk(db: Db, a: Authorization) {
    && a.snapshot < |db.snapshots| && a.package < |db.packages|
    && a.package == db.snapshots[a.snapshot].package && a.channel == db.snapshots[a.snapshot].channel
    && (Granted(a.status) ==> AllReviewed(a.reviews) && a.authorizer.Some? && SeparatedFrom(db, a, a.authorizer.value))
  }

  function Preparations(rs: seq<Recipient>): seq<nat> {
    seq(|rs|, i requires 0 <= i < |rs| => rs[i].preparation)
  }

  /**
   An attempt is the first and only use of its authorization, of the right kind and in time.  One
   made by hand went to exactly the recipients of the snapshot.
   */
  predicate AttemptOk(db: Db, t: Attempt) {
    && t.authorization < |db.authorizations| && t.number == 1
    && var a := db.authorizations[t.authorization];
    && a.status == USED
    && (if t.manual then IsManual(a.channel) && t.messageId.None? else a.channel == CONTROLLED_EMAIL)
    && (a.expiresAt.Some? ==> t.at <= a.expiresAt.value)
    && (t.manual ==> a.snapshot < |db.snapshots| && Preparations(t.recipients) == db.snapshots[a.snapshot].recipients)
  }

  predicate UsedOnce(db: Db, auth: nat)
    requires auth < |db.authorizations|
  {
    AttemptsUnder(db.attempts, auth) == if db.authorizations[auth].status == USED then 1 else 0
  }

  ghost predicate SnapshotsOk(db: Db) {
    forall i :: 0 <= i < |db.snapshots| ==> SnapshotOk(db, db.snapshots[i])
  }

  ghost predicate AuthorizationsOk(db: Db) {
    forall i :: 0 <= i < |db.authorizations| ==> AuthorizationOk(db, db.authorizations[i]) && UsedOnce(db, i)
  }

  ghost predicate AttemptsOk(db: Db) {
    forall i :: 0 <= i < |db.attempts| ==> AttemptOk(db, db.attempts[i])
  }

  ghost predicate Safe(db: Db) {
    SnapshotsOk(db) && AuthorizationsOk(db) && AttemptsOk(db)
  }

  /** Steps that leave snapshots, authorizations and the uses of attempts alone. */
  predicate SameRows(before: Db, after: Db) {
    && after.sodEnabled == before.sodEnabled && after.snapshots == before.snapshots
    && after.authorizations == before.authorizations
    && |after.packages| == |before.packages|
    && (forall i :: 0 <= i < |before.packages| ==> after.packages[i].sodEnforced == before.packages[i].sodEnforced)
    && |after.attempts| == |before.attempts|
    && (forall i :: 0 <= i < |before.attempts| ==> SameUse(before.attempts[i], after.attempts[i]))
  }

  predicate SameUse(t: Attempt, u: Attempt) {
    && u.authorization == t.authorization && u.number == t.number && u.manual == t.manual && u.at == t.at
    && u.messageId == t.messageId && Preparations(u.recipients) == Preparations(t.recipients)
  }

  lemma {:induction false} SameCounts(ts: seq<Attempt>, us: seq<Attempt>, auth: nat)
    requires |ts| == |us| && forall i :: 0 <= i < |ts| ==> us[i].authorization == ts[i].authorization
    ensures AttemptsUnder(ts, auth) == AttemptsUnder(us, auth)
    decreases |ts|
  {
    if ts != [] {
      SameCounts(ts[..|ts| - 1], us[..|us| - 1], auth);
    }
  }

  lemma SameRowsSafe(before: Db, after: Db)
    requires Safe(before) && SameRows(before, after)
    ensures Safe(after)
  {
    forall i | 0 <= i < |after.authorizations|
      ensures AuthorizationOk(after, after.authorizations[i]) && UsedOnce(after, i)
    {
      assert AuthorizationOk(before, before.authorizations[i]) && UsedOnce(before, i);
      SameCounts(before.attempts, after.attempts, i);
    }
    forall i | 0 <= i < |after.attempts|
      ensures AttemptOk(after, after.attempts[i])
    {
      assert AttemptOk(before, before.attempts[i]) && SameUse(before.attempts[i], after.attempts[i]);
    }
  }

  lemma PackageStatusSafe(db: Db, pkg: nat, status: PackageStatus)
    requires Safe(db) && pkg < |db.packages|
    ensures Safe(WithPackageStatus(db, pkg, status))
  {
    SameRowsSafe(db, WithPackageStatus(db, pkg, status));
  }

  /** Replacing one authorization, keeping what it refers to and without using it. */
  lemma AuthorizationSafe(db: Db, auth: nat, a: Authorization)
    requires Safe(db) && auth < |db.authorizations|
    requires AuthorizationOk(db, a) && (a.status == USED) == (db.authorizations[auth].status == USED)
    requires db.authorizations[auth].status != USED
    ensures Safe(WithAuthorization(db, auth, a))
  {
    var after := WithAuthorization(db, auth, a);
    forall i | 0 <= i < |after.authorizations|
      ensures AuthorizationOk(after, after.authorizations[i]) && UsedOnce(after, i)
    {
      assert AuthorizationOk(db, db.authorizations[i]) && UsedOnce(db, i);
    }
    forall i | 0 <= i < |after.attempts|
      ensures AttemptOk(after, after.attempts[i])
    {
      assert AttemptOk(db, db.attempts[i]);
    }
    forall i | 0 <= i < |after.snapshots|
      ensures SnapshotOk(after, after.snapshots[i])
    {
      assert SnapshotOk(db, db.snapshots[i]);
    }
  }

  lemma AttemptSafe(db: Db, auth: nat, manual: bool, now: int, status: SentStatus, messageId: Option<nat>,
                    recipients: seq<Recipient>, after: Db)
    requires Safe(db) && auth < |db.authorizations| && Dispatchable(db.authorizations[auth], now)
    requires
      if manual then IsManual(db.authorizations[auth].channel) && messageId.None?
      else db.authorizations[auth].channel == CONTROLLED_EMAIL
    requires manual ==> var k := db.authorizations[auth].snapshot;
      k < |db.snapshots| && Preparations(recipients) == db.snapshots[k].recipients
    requires after == WithAttempt(db, auth, manual, now, status, messageId, recipients)
    ensures Safe(after)
  {
    assert UsedOnce(db, auth);
    UseKeepsAuthorizations(db, auth, after);
    UseAddsAttempt(db, auth, after);
    forall i | 0 <= i < |after.snapshots|
      ensures SnapshotOk(after, after.snapshots[i])
    {
      assert SnapshotOk(db, db.snapshots[i]);
    }
  }

  /** The tables after a use of an authorization: it is used, and there is one attempt more. */
  predicate Uses(db: Db, auth: nat, after: Db) {
    && auth < |db.authorizations| && db.authorizations[auth].status == AUTHORIZED
    && after.sodEnabled == db.sodEnabled && after.packages == db.packages && after.snapshots == db.snapshots
    && after.authorizations == db.authorizations[auth := db.authorizations[auth].(status := USED)]
    && |after.attempts| == |db.attempts| + 1 && after.attempts[..|db.attempts|] == db.attempts
    && after.attempts[|db.attempts|].authorization == auth
  }

  lemma UseKeepsAuthorizations(db: Db, auth: nat, after: Db)
    requires AuthorizationsOk(db) && Uses(db, auth, after)
    ensures AuthorizationsOk(after)
  {
    forall i | 0 <= i < |after.authorizations|
      ensures AuthorizationOk(after, after.authorizations[i]) && UsedOnce(after, i)
    {
      assert AuthorizationOk(db, db.authorizations[i]) && UsedOnce(db, i);
    }
  }

  lemma UseAddsAttempt(db: Db, auth: nat, after: Db)
    requires AttemptsOk(db) && Uses(db, auth, after) && AttemptOk(after, after.attempts[|db.attempts|])
    ensures AttemptsOk(after)
  {
    forall i | 0 <= i < |after.attempts|
      ensures AttemptOk(after, after.attempts[i])
    {
      if i < |db.attempts| {
        assert after.attempts[i] == db.attempts[i] && AttemptOk(db, db.attempts[i]);
      }
    }
  }

  lemma SnapshotSafe(db: Db, s: Snapshot)
    requires Safe(db) && SnapshotOk(db, s)
    ensures Safe(db.(snapshots := db.snapshots + [s]))
  {
    var after := db.(snapshots := db.snapshots + [s]);
    forall i | 0 <= i < |after.snapshots|
      ensures SnapshotOk(after, after.snapshots[i])
    {
      assert i < |db.snapshots| ==> SnapshotOk(db, db.snapshots[i]);
    }
    forall i | 0 <= i < |after.authorizations|
      ensures AuthorizationOk(after, after.authorizations[i]) && UsedOnce(after, i)
    {
      assert AuthorizationOk(db, db.authorizations[i]) && UsedOnce(db, i);
    }
    forall i | 0 <= i < |after.attempts|
      ensures AttemptOk(after, after.attempts[i])
    {
      assert AttemptOk(db, db.attempts[i]);
    }
  }

  lemma {:induction false} NoneUnder(db: Db, ts: seq<Attempt>)
    requires forall i :: 0 <= i < |ts| ==> ts[i].authorization < |db.authorizations|
    ensures AttemptsUnder(ts, |db.authorizations|) == 0
    decreases |ts|
  {
    if ts != [] {
      NoneUnder(db, ts[..|ts| - 1]);
    }
  }

  lemma RequestSafe(db: Db, a: Authorization)
    requires Safe(db) && AuthorizationOk(db, a) && a.status == REQUESTED
    ensures Safe(db.(authorizations := db.authorizations + [a]))
  {
    var after := db.(authorizations := db.authorizations + [a]);
    forall i | 0 <= i < |db.attempts|
      ensures AttemptOk(after, after.attempts[i]) && db.attempts[i].authorization < |db.authorizations|
    {
      assert AttemptOk(db, db.attempts[i]);
    }
    NoneUnder(db, db.attempts);
    forall i | 0 <= i < |after.authorizations|
      ensures AuthorizationOk(after, after.authorizations[i]) && UsedOnce(after, i)
    {
      assert i < |db.authorizations| ==> AuthorizationOk(db, db.authorizations[i]) && UsedOnce(db, i);
    }
    forall i | 0 <= i < |after.snapshots|
      ensures SnapshotOk(after, after.snapshots[i])
    {
      assert SnapshotOk(db, db.snapshots[i]);
    }
  }

  /** Reported statuses change nothing else about the recipients. */
  lemma {:induction false} ApplyKeepsPreparations(loaded: seq<Recipient>, reported: seq<Reported>)
    ensures Preparations(ApplyAll(loaded, reported)) == Preparations(loaded)
    decreases |reported|
  {
    if reported != [] {
      var front := reported[..|reported| - 1];
      ApplyKeepsPreparations(loaded, front);
      SetStatusKeeps(ApplyAll(loaded, front), ApplyAll(loaded, reported));
    }
  }

  lemma SetStatusKeeps(rs: seq<Recipient>, ts: seq<Recipient>)
    requires |ts| == |rs| && forall i :: 0 <= i < |rs| ==> ts[i].preparation == rs[i].preparation
    ensures Preparations(ts) == Preparations(rs)
  {
  }

  lemma EventSafe(db: Db, k: nat, event: nat, reported: seq<Reported>)
    requires Safe(db) && k < |db.attempts|
    ensures Safe(ApplyEvent(db, k, event, reported))
  {
    var after := ApplyEvent(db, k, event, reported);
    ApplyKeepsPreparations(db.attempts[k].recipients, reported);
    forall i | 0 <= i < |db.attempts|
      ensures SameUse(db.attempts[i], after.attempts[i])
    {
    }
    SameRowsSafe(db, after);
  }

  lemma StepSafe(db: Db, step: Step)
    requires Safe(db) && Commits(db, step)
    ensures Safe(Effect(db, step))
  {
    match step
    case CreateSnapshot(pkg, user, channel, draft) => {
      PackageStatusSafe(db, pkg, AUTHORIZATION_PENDING);
      P.PreparedMeans(draft);
      SnapshotSafe(WithPackageStatus(db, pkg, AUTHORIZATION_PENDING), SnapshotOf(pkg, user, channel, draft));
    }
    case RequestAuthorization(pkg, user, snapshot) => {
      RequestSafe(db,
        Authorization(pkg, snapshot, user, db.snapshots[snapshot].channel, REQUESTED, None, Unanswered(), None));
    }
    case Authorize(pkg, user, auth, reviews, expiresAt) => GrantSafe(db, pkg, user, auth, reviews, expiresAt);
    case Reject(pkg, auth) => {
      assert AuthorizationOk(db, db.authorizations[auth]);
      AuthorizationSafe(db, auth, db.authorizations[auth].(status := REJECTED));
      PackageStatusSafe(WithAuthorization(db, auth, db.authorizations[auth].(status := REJECTED)), pkg,
        AUTHORIZATION_PENDING);
    }
    case Revoke(pkg, auth) => {
      assert AuthorizationOk(db, db.authorizations[auth]);
      AuthorizationSafe(db, auth, db.authorizations[auth].(status := REVOKED));
      PackageStatusSafe(WithAuthorization(db, auth, db.authorizations[auth].(status := REVOKED)), pkg,
        AUTHORIZATION_PENDING);
    }
    case SendEmail(pkg, auth, now, configured, messageId, replied) => {
      var status := D.Aggregate(Statuses(Created(replied)));
      var used := WithAttempt(db, auth, false, now, Aggregated(status), messageId, Created(replied));
      AttemptSafe(db, auth, false, now, Aggregated(status), messageId, Created(replied), used);
      PackageStatusSafe(used, pkg, MapToPackageStatus(status));
    }
    case RecordManual(pkg, auth, now) => {
      var preparations := db.snapshots[db.authorizations[auth].snapshot].recipients;
      var recipients := Confirmations(preparations);
      assert Preparations(recipients) == preparations;
      var used := WithAttempt(db, auth, true, now, AwaitingEvidence, None, recipients);
      AttemptSafe(db, auth, true, now, AwaitingEvidence, None, recipients, used);
      PackageStatusSafe(used, pkg, DISPATCHED);
    }
    case Webhook(messageId, event, reported) => {
      if event !in db.events {
        EventSafe(db, FirstAttempt(db.attempts, messageId, 0).value, event, reported);
      }
    }
    case Acknowledge(attempt, of, recipient) => AcknowledgeSafe(db, attempt, of, recipient);
    case OtherService(pkg, status) => PackageStatusSafe(db, pkg, status);
  }

  lemma AcknowledgeSafe(db: Db, attempt: nat, of: nat, recipient: Option<nat>)
    requires Safe(db) && Commits(db, Acknowledge(attempt, of, recipient))
    ensures Safe(Effect(db, Acknowledge(attempt, of, recipient)))
  {
    var after := Effect(db, Acknowledge(attempt, of, recipient));
    SetStatusKeeps(db.attempts[of].recipients, after.attempts[of].recipients);
    forall i | 0 <= i < |db.attempts|
      ensures SameUse(db.attempts[i], after.attempts[i])
    {
    }
    SameRowsSafe(db, after);
  }

  lemma GrantSafe(db: Db, pkg: nat, user: nat, auth: nat, reviews: Reviews, expiresAt: Option<int>)
    requires Safe(db) && Commits(db, Authorize(pkg, user, auth, reviews, expiresAt))
    ensures Safe(Effect(db, Authorize(pkg, user, auth, reviews, expiresAt)))
  {
    var a := db.authorizations[auth];
    assert AuthorizationOk(db, a);
    var updated := a.(status := AUTHORIZED, authorizer := Some(user),
      reviews := Reviews(true, true, true, true, true, true),
                      expiresAt := if expiresAt.Some? then expiresAt else a.expiresAt);
    AuthorizationSafe(db, auth, updated);
    PackageStatusSafe(WithAuthorization(db, auth, updated), pkg, AUTHORIZED_FOR_DISPATCH);
  }

  lemma NextSafe(db: Db, step: Step)
    requires Safe(db)
    ensures Safe(Next(db, step))
  {
    if Commits(db, step) {
      StepSafe(db, step);
    }
  }

  /** Over every run, in any interleaving, the tables stay safe. */
  lemma {:induction false} RunsAreSafe(sodEnabled: bool, packages: seq<Package>, steps: seq<Step>)
    ensures Safe(Run(Empty(sodEnabled, packages), steps))
    decreases |steps|
  {
    if steps != [] {
      var front, last := steps[..|steps| - 1], steps[|steps| - 1];
      RunsAreSafe(sodEnabled, packages, front);
      NextSafe(Run(Empty(sodEnabled, packages), front), last);
    }
  }

  /** What was prepared is never changed or dropped afterwards. */
  lemma {:induction false} SnapshotsStay(db: Db, steps: seq<Step>)
    ensures db.snapshots <= Run(db, steps).snapshots
    decreases |steps|
  {
    if steps != [] {
      SnapshotsStay(db, steps[..|steps| - 1]);
      RowsGrow(Run(db, steps[..|steps| - 1]), steps[|steps| - 1]);
    }
  }

  lemma RowsGrow(db: Db, step: Step)
    ensures db.snapshots <= Next(db, step).snapshots && db.events <= Next(db, step).events
  {
  }

  /** What that says of any attempt: reviewed, separated, operational, of the right kind, in time, the only one. */
  lemma EveryAttemptWasAuthorized(sodEnabled: bool, packages: seq<Package>, steps: seq<Step>, k: nat)
    requires k < |Run(Empty(sodEnabled, packages), steps).attempts|
    ensures var db := Run(Empty(sodEnabled, packages), steps);
      var t := db.attempts[k];
      && t.authorization < |db.authorizations|
      && var a := db.authorizations[t.authorization];
      && AttemptsUnder(db.attempts, t.authorization) == 1 && t.number == 1
      && AllReviewed(a.reviews) && a.authorizer.Some? && SeparatedFrom(db, a, a.authorizer.value)
      && Operational(a.channel) && (t.manual <==> IsManual(a.channel))
      && (a.expiresAt.Some? ==> t.at <= a.expiresAt.value)
      && (t.manual ==>
            && t.recipients != [] && a.snapshot < |db.snapshots|
            && Preparations(t.recipients) == db.snapshots[a.snapshot].recipients)
  {
    RunsAreSafe(sodEnabled, packages, steps);
    var db := Run(Empty(sodEnabled, packages), steps);
    assert AttemptOk(db, db.attempts[k]);
    var a := db.authorizations[db.attempts[k].authorization];
    assert AuthorizationOk(db, a) && UsedOnce(db, db.attempts[k].authorization);
    assert SnapshotOk(db, db.snapshots[a.snapshot]);
  }

  /** An authorization has one attempt, by e-mail or by hand, exactly if it is used, and none otherwise. */
  lemma OneAttemptExactlyIfUsed(sodEnabled: bool, packages: seq<Package>, steps: seq<Step>, auth: nat)
    requires auth < |Run(Empty(sodEnabled, packages), steps).authorizations|
    ensures var db := Run(Empty(sodEnabled, packages), steps);
      AttemptsUnder(db.attempts, auth) == if db.authorizations[auth].status == USED then 1 else 0
  {
    RunsAreSafe(sodEnabled, packages, steps);
    assert UsedOnce(Run(Empty(sodEnabled, packages), steps), auth);
  }

  /** It was granted by somebody else with all boxes confirmed, and has not been used. */
  ghost predicate ReadyForUse(db: Db, auth: nat) {
    && auth < |db.authorizations|
    && var a := db.authorizations[auth];
    && a.status == AUTHORIZED && AllReviewed(a.reviews) && a.authorizer.Some?
      && SeparatedFrom(db, a, a.authorizer.value)
    && AttemptsUnder(db.attempts, auth) == 0
  }

  /** It has its one attempt, the last of all, and can have no other. */
  ghost predicate UsedNow(db: Db, auth: nat) {
    && auth < |db.authorizations| && db.authorizations[auth].status == USED
    && AttemptsUnder(db.attempts, auth) == 1
    && db.attempts != [] && db.attempts[|db.attempts| - 1].authorization == auth
    && db.attempts[|db.attempts| - 1].number == 1
  }

  /** It is final without an attempt. */
  ghost predicate Closed(db: Db, auth: nat) {
    && auth < |db.authorizations| && Final(db.authorizations[auth].status)
    && AttemptsUnder(db.attempts, auth) == 0
  }

  lemma AuthorizedIsReady(db: Db, auth: nat)
    requires Safe(db) && auth < |db.authorizations| && db.authorizations[auth].status == AUTHORIZED
    ensures ReadyForUse(db, auth)
  {
    assert AuthorizationOk(db, db.authorizations[auth]) && UsedOnce(db, auth);
  }

  lemma UnusedHasNone(db: Db, auth: nat)
    requires Safe(db) && auth < |db.authorizations| && db.authorizations[auth].status != USED
    ensures AttemptsUnder(db.attempts, auth) == 0
  {
    assert UsedOnce(db, auth);
  }

  lemma LastIsUsed(db: Db, auth: nat)
    requires Safe(db) && db.attempts != [] && db.attempts[|db.attempts| - 1].authorization == auth
    ensures UsedNow(db, auth)
  {
    assert AttemptOk(db, db.attempts[|db.attempts| - 1]) && UsedOnce(db, auth);
  }

  // ---------------------------------------------------------------------------------------
  // Agreement of attempts and recipients
  // ---------------------------------------------------------------------------------------

  predicate Agrees(t: Attempt) {
    t.manual || t.status == Aggregated(D.Aggregate(Statuses(t.recipients)))
  }

  ghost predicate AllAgree(db: Db) {
    forall i :: 0 <= i < |db.attempts| ==> Agrees(db.attempts[i])
  }

  /** Every step but an acknowledgment keeps the status of each sent attempt the aggregate of its recipients. */
  lemma StepsAgree(db: Db, step: Step)
    requires Safe(db) && AllAgree(db) && Commits(db, step) && !step.Acknowledge?
    ensures AllAgree(Effect(db, step))
  {
    match step
    case Webhook(message, event, reported) => {
      if event !in db.events {
        EventAgrees(db, FirstAttempt(db.attempts, message, 0).value, event, reported);
      }
    }
    case _ =>
  }

  lemma EventAgrees(db: Db, k: nat, event: nat, reported: seq<Reported>)
    requires AllAgree(db) && k < |db.attempts|
    ensures AllAgree(ApplyEvent(db, k, event, reported))
  {
  }

  lemma {:induction false} RunsAgree(sodEnabled: bool, packages: seq<Package>, steps: seq<Step>)
    requires forall i :: 0 <= i < |steps| ==> !steps[i].Acknowledge?
    ensures AllAgree(Run(Empty(sodEnabled, packages), steps))
    decreases |steps|
  {
    if steps != [] {
      var front, last := steps[..|steps| - 1], steps[|steps| - 1];
      RunsAgree(sodEnabled, packages, front);
      RunsAreSafe(sodEnabled, packages, front);
      var db := Run(Empty(sodEnabled, packages), front);
      if Commits(db, last) {
        StepsAgree(db, last);
      }
    }
  }

  /** An acknowledgment keeps the agreement exactly if the others leave the aggregate where it was. */
  lemma AcknowledgmentAgrees(db: Db, attempt: nat, of: nat, i: nat)
    requires AllAgree(db) && Commits(db, Acknowledge(attempt, of, Some(i)))
    ensures var ss := Statuses(db.attempts[of].recipients);
      AllAgree(Effect(db, Acknowledge(attempt, of, Some(i)))) <==>
        db.attempts[of].manual || D.AcknowledgmentAgrees(ss[i], D.Others(ss, i))
  {
    var t := db.attempts[of];
    var after := Effect(db, Acknowledge(attempt, of, Some(i)));
    assert Agrees(t);
    assert Statuses(after.attempts[of].recipients) == Statuses(t.recipients)[i := D.ACKNOWLEDGED];
    D.AcknowledgmentKeepsAgreement(Statuses(t.recipients), i);
    assert forall j :: 0 <= j < |db.attempts| && j != of ==> after.attempts[j] == db.attempts[j];
    if Agrees(after.attempts[of]) {
      forall j | 0 <= j < |after.attempts| ensures Agrees(after.attempts[j]) {
        assert Agrees(db.attempts[j]);
      }
    }
  }

  // ---------------------------------------------------------------------------------------
  // What the package shows
  // ---------------------------------------------------------------------------------------

  /** Every recipient was delivered, and there are some. */
  predicate AllConfirmed(rs: seq<Recipient>) {
    rs != [] && forall i :: 0 <= i < |rs| ==> rs[i].status in {D.DELIVERED, D.ACKNOWLEDGED, D.MANUALLY_CONFIRMED}
  }

  predicate NoneReached(rs: seq<Recipient>) {
    forall i :: 0 <= i < |rs| ==> rs[i].status in {D.FAILED, D.BOUNCED, D.REJECTED}
  }

  predicate SomeReached(rs: seq<Recipient>) {
    exists i :: 0 <= i < |rs| && rs[i].status in {D.SENT, D.DELIVERED, D.ACKNOWLEDGED, D.MANUALLY_CONFIRMED}
  }

  predicate SomeMissing(rs: seq<Recipient>) {
    exists i :: 0 <= i < |rs| && rs[i].status in {D.FAILED, D.BOUNCED, D.REJECTED, D.PENDING, D.UNKNOWN}
  }

  /** Confirmed if all have it, failed if none can, partial if some have it and some do not, else dispatched. */
  predicate PackageShows(rs: seq<Recipient>, status: PackageStatus) {
    && (status == DELIVERY_CONFIRMED <==> AllConfirmed(rs))
    && (status == DELIVERY_FAILED <==> NoneReached(rs))
    && (status == DELIVERY_PARTIAL <==> SomeReached(rs) && SomeMissing(rs))
    && status in {DELIVERY_CONFIRMED, DELIVERY_FAILED, DELIVERY_PARTIAL, DISPATCHED}
  }

  lemma OccurringStatuses(rs: seq<Recipient>, kinds: set<D.RecipientStatus>)
    ensures (set s | s in Statuses(rs)) <= kinds <==> forall i :: 0 <= i < |rs| ==> rs[i].status in kinds
    ensures (set s | s in Statuses(rs)) * kinds != {} <==> exists i :: 0 <= i < |rs| && rs[i].status in kinds
  {
    var occurring := set s | s in Statuses(rs);
    forall i | 0 <= i < |rs|
      ensures rs[i].status in occurring
    {
      assert Statuses(rs)[i] == rs[i].status;
    }
    if occurring * kinds != {} {
      var s :| s in occurring && s in kinds;
    }
    if i :| 0 <= i < |rs| && rs[i].status in kinds {
      assert rs[i].status in occurring * kinds;
    }
  }

  lemma ShowsWell(rs: seq<Recipient>)
    ensures D.Aggregate(Statuses(rs)) == D.AttemptDelivered <==> AllConfirmed(rs)
  {
    D.LooksWell(Statuses(rs), set s | s in Statuses(rs));
    OccurringStatuses(rs, {D.DELIVERED, D.ACKNOWLEDGED, D.MANUALLY_CONFIRMED});
    assert rs != [] ==> Statuses(rs)[0] in set s | s in Statuses(rs);
  }

  lemma ShowsIll(rs: seq<Recipient>)
    ensures D.Aggregate(Statuses(rs)) == D.AttemptFailed <==> NoneReached(rs)
    ensures D.Aggregate(Statuses(rs)) == D.AttemptPartiallyDelivered <==> SomeReached(rs) && SomeMissing(rs)
  {
    D.LooksIll(Statuses(rs), set s | s in Statuses(rs));
    OccurringStatuses(rs, {D.FAILED, D.BOUNCED, D.REJECTED});
    OccurringStatuses(rs, {D.SENT, D.DELIVERED, D.ACKNOWLEDGED, D.MANUALLY_CONFIRMED});
    OccurringStatuses(rs, {D.FAILED, D.BOUNCED, D.REJECTED, D.PENDING, D.UNKNOWN});
  }

  lemma StatusTellsOfRecipients(rs: seq<Recipient>, status: PackageStatus)
    requires status == MapToPackageStatus(D.Aggregate(Statuses(rs)))
    ensures PackageShows(rs, status)
  {
    ShowsWell(rs);
    ShowsIll(rs);
  }

  /** The recipients are those of the replies, one for one, as the provider names them. */
  ghost predicate StoredFrom(replied: seq<Reported>, rs: seq<Recipient>) {
    && |rs| == |replied|
    && forall i :: 0 <= i < |rs| ==>
         rs[i].preparation == replied[i].preparation && StoredAs(replied[i].status, rs[i].status)
  }

  /** After an e-mail is sent its recipients are as replied, and its package shows them. */
  lemma PackageAfterSending(db: Db, step: Step, after: Db)
    requires step.SendEmail? && Commits(db, step) && after == Effect(db, step)
    ensures |after.attempts| == |db.attempts| + 1
    ensures StoredFrom(step.replied, after.attempts[|db.attempts|].recipients)
    ensures PackageShows(after.attempts[|db.attempts|].recipients, after.packages[step.pkg].status)
  {
    StatusTellsOfRecipients(after.attempts[|db.attempts|].recipients, after.packages[step.pkg].status);
  }

  // ---------------------------------------------------------------------------------------
  // What an event changes
  // ---------------------------------------------------------------------------------------

  /** What was reported last about a preparation. */
  function LastReport(reported: seq<Reported>, preparation: nat): Option<ProviderStatus>
    decreases |reported|
  {
    if reported == [] then None
    else
      var last := reported[|reported| - 1];
      if last.preparation == preparation then Some(last.status)
      else LastReport(reported[..|reported| - 1], preparation)
  }

  ghost predicate IsLastReport(reported: seq<Reported>, preparation: nat, k: nat) {
    && k < |reported| && reported[k].preparation == preparation
    && forall j :: k < j < |reported| ==> reported[j].preparation != preparation
  }

  lemma {:induction false} LastReportIs(reported: seq<Reported>, preparation: nat)
    ensures LastReport(reported, preparation).None?
      <==> forall j :: 0 <= j < |reported| ==> reported[j].preparation != preparation
    ensures forall k: nat :: IsLastReport(reported, preparation, k) ==>
      LastReport(reported, preparation) == Some(reported[k].status)
    decreases |reported|
  {
    if reported != [] {
      var front := reported[..|reported| - 1];
      LastReportIs(front, preparation);
      forall k: nat | IsLastReport(reported, preparation, k)
        ensures LastReport(reported, preparation) == Some(reported[k].status)
      {
        assert k < |front| ==> IsLastReport(front, preparation, k);
      }
    }
  }

  /** The recipient found for a preparation is the first one with it. */
  ghost predicate IsFirst(rs: seq<Recipient>, i: nat) {
    i < |rs| && forall j :: 0 <= j < i ==> rs[j].preparation != rs[i].preparation
  }

  /** The first recipient of a reported preparation gets the last report about it, all others stay. */
  ghost predicate UpdatedTo(loaded: seq<Recipient>, reported: seq<Reported>, i: nat, after: Recipient)
    requires i < |loaded|
  {
    var report := LastReport(reported, loaded[i].preparation);
    && after.preparation == loaded[i].preparation
    && if IsFirst(loaded, i) && report.Some? then StoredAs(report.value, after.status) else after == loaded[i]
  }

  ghost predicate Updated(loaded: seq<Recipient>, reported: seq<Reported>, after: seq<Recipient>) {
    |after| == |loaded| && forall i :: 0 <= i < |loaded| ==> UpdatedTo(loaded, reported, i, after[i])
  }

  /** The search finds the first recipient with a preparation, if there is one. */
  ghost predicate FoundFirst(rs: seq<Recipient>, preparation: nat, found: Option<nat>) {
    match found
    case None => forall j :: 0 <= j < |rs| ==> rs[j].preparation != preparation
    case Some(i) => IsFirst(rs, i) && rs[i].preparation == preparation
  }

  lemma {:induction false} FirstWithIs(rs: seq<Recipient>, preparation: nat, from: nat)
    requires from <= |rs| && forall j :: 0 <= j < from ==> rs[j].preparation != preparation
    ensures FoundFirst(rs, preparation, FirstWith(rs, preparation, from))
    decreases |rs| - from
  {
    if from < |rs| && rs[from].preparation != preparation {
      FirstWithIs(rs, preparation, from + 1);
    }
  }

  lemma {:induction false} EventUpdates(loaded: seq<Recipient>, reported: seq<Reported>)
    ensures Updated(loaded, reported, ApplyAll(loaded, reported))
    decreases |reported|
  {
    if reported != [] {
      var front, last := reported[..|reported| - 1], reported[|reported| - 1];
      EventUpdates(loaded, front);
      FirstWithIs(loaded, last.preparation, 0);
      forall i | 0 <= i < |loaded|
        ensures UpdatedTo(loaded, reported, i, ApplyAll(loaded, reported)[i])
      {
        OneMoreReport(loaded, reported, i, FirstWith(loaded, last.preparation, 0), ApplyAll(loaded, front)[i],
                      ApplyAll(loaded, reported)[i]);
      }
    } else {
      assert ApplyAll(loaded, reported) == loaded;
    }
  }

  lemma OneMoreReport(loaded: seq<Recipient>, reported: seq<Reported>, i: nat, found: Option<nat>, before: Recipient,
                      after: Recipient)
    requires reported != [] && i < |loaded| && UpdatedTo(loaded, reported[..|reported| - 1], i, before)
    requires FoundFirst(loaded, reported[|reported| - 1].preparation, found)
    requires after ==
      if found == Some(i) then before.(status := MapProviderStatus(reported[|reported| - 1].status)) else before
    ensures UpdatedTo(loaded, reported, i, after)
  {
    if found.Some? && found.value != i && IsFirst(loaded, i) {
      assert loaded[i].preparation != reported[|reported| - 1].preparation;
    }
  }

  /** The attempt with a message id: the first one. */
  ghost predicate IsAttemptOf(attempts: seq<Attempt>, messageId: nat, k: nat) {
    && k < |attempts| && attempts[k].messageId == Some(messageId)
    && forall j :: 0 <= j < k ==> attempts[j].messageId != Some(messageId)
  }

  lemma {:induction false} FirstAttemptIs(attempts: seq<Attempt>, messageId: nat, from: nat)
    requires from <= |attempts| && forall j :: 0 <= j < from ==> attempts[j].messageId != Some(messageId)
    ensures FirstAttempt(attempts, messageId, from).Some? ==>
      IsAttemptOf(attempts, messageId, FirstAttempt(attempts, messageId, from).value)
    ensures FirstAttempt(attempts, messageId, from).None?
      <==> forall j :: 0 <= j < |attempts| ==> attempts[j].messageId != Some(messageId)
    decreases |attempts| - from
  {
    if from < |attempts| && attempts[from].messageId != Some(messageId) {
      FirstAttemptIs(attempts, messageId, from + 1);
    }
  }

  lemma FirstAttemptFinds(attempts: seq<Attempt>, messageId: nat, k: nat)
    requires IsAttemptOf(attempts, messageId, k)
    ensures FirstAttempt(attempts, messageId, 0) == Some(k)
  {
    FirstAttemptIs(attempts, messageId, 0);
    var found := FirstAttempt(attempts, messageId, 0);
    assert found.Some? && !(k < found.value) && !(found.value < k);
  }

  lemma EventTables(db: Db, k: nat, event: nat, reported: seq<Reported>, after: Db)
    requires Safe(db) && k < |db.attempts| && after == ApplyEvent(db, k, event, reported)
    ensures after.attempts == db.attempts[k := after.attempts[k]] && after.authorizations == db.authorizations
    ensures after.attempts[k].authorization == db.attempts[k].authorization < |db.authorizations|
    ensures after.attempts[k].recipients == ApplyAll(db.attempts[k].recipients, reported)
    ensures var pkg := db.authorizations[db.attempts[k].authorization].package;
      && pkg < |after.packages|
      && after.packages[pkg].status == MapToPackageStatus(D.Aggregate(Statuses(after.attempts[k].recipients)))
  {
    assert AttemptOk(db, db.attempts[k]);
    assert AuthorizationOk(db, db.authorizations[db.attempts[k].authorization]);
  }

  /** After a new event the recipients of its attempt are as reported, and its package shows them. */
  lemma PackageAfterEvent(db: Db, step: Step, after: Db, k: nat)
    requires Safe(db) && step.Webhook? && step.event !in db.events && after == Next(db, step)
    requires IsAttemptOf(db.attempts, step.message, k)
    ensures k < |after.attempts| && after.attempts == db.attempts[k := after.attempts[k]]
    ensures Updated(db.attempts[k].recipients, step.reported, after.attempts[k].recipients)
    ensures after.attempts[k].authorization < |after.authorizations|
    ensures var pkg := after.authorizations[after.attempts[k].authorization].package;
      pkg < |after.packages| && PackageShows(after.attempts[k].recipients, after.packages[pkg].status)
  {
    FirstAttemptFinds(db.attempts, step.message, k);
    EventTables(db, k, step.event, step.reported, after);
    EventUpdates(db.attempts[k].recipients, step.reported);
    StatusTellsOfRecipients(after.attempts[k].recipients,
      after.packages[db.authorizations[db.attempts[k].authorization].package].status);
  }

  // ---------------------------------------------------------------------------------------
  // Redelivery and final states
  // ---------------------------------------------------------------------------------------

  lemma {:induction false} EventsStay(db: Db, steps: seq<Step>)
    ensures db.events <= Run(db, steps).events
    decreases |steps|
  {
    if steps != [] {
      EventsStay(db, steps[..|steps| - 1]);
      RowsGrow(Run(db, steps[..|steps| - 1]), steps[|steps| - 1]);
    }
  }

  /** However much happens in between, delivering a recorded event again changes nothing. */
  lemma RedeliveryChangesNothing(db: Db, event: nat, messageId: nat, reported: seq<Reported>, steps: seq<Step>,
                                 messageId': nat, reported': seq<Reported>)
    requires Commits(db, Webhook(messageId, event, reported))
    ensures var later := Run(Next(db, Webhook(messageId, event, reported)), steps);
      Next(later, Webhook(messageId', event, reported')) == later
  {
    EventsStay(Next(db, Webhook(messageId, event, reported)), steps);
  }

  predicate Final(s: AuthorizationStatus) {
    s == REJECTED || s == REVOKED || s == USED
  }

  /** Rejected, revoked and used authorizations stay exactly as they are. */
  lemma FinalStatesStay(db: Db, step: Step, auth: nat)
    requires auth < |db.authorizations| && Final(db.authorizations[auth].status)
    ensures auth < |Next(db, step).authorizations| && Next(db, step).authorizations[auth] == db.authorizations[auth]
  {
  }

  /** Under a rejected or revoked authorization nothing is ever sent. */
  lemma {:induction false} ClosedStaysClosed(db: Db, steps: seq<Step>, auth: nat)
    requires Safe(db) && Closed(db, auth)
    ensures Safe(Run(db, steps)) && Closed(Run(db, steps), auth)
    ensures Run(db, steps).authorizations[auth] == db.authorizations[auth]
    decreases |steps|
  {
    if steps != [] {
      var front, last := steps[..|steps| - 1], steps[|steps| - 1];
      ClosedStaysClosed(db, front, auth);
      var before := Run(db, front);
      NextSafe(before, last);
      FinalStatesStay(before, last, auth);
      assert UsedOnce(before, auth) && before.authorizations[auth].status != USED;
      UnusedHasNone(Next(before, last), auth);
    }
  }

  /** Who granted an authorization, and until when, is never changed afterwards. */
  lemma GrantsStay(db: Db, step: Step, auth: nat)
    requires auth < |db.authorizations| && Granted(db.authorizations[auth].status)
    ensures auth < |Next(db, step).authorizations|
    ensures var a, b := db.authorizations[auth], Next(db, step).authorizations[auth];
      b == a.(status := b.status) && Granted(b.status)
  {
    match step
    case Authorize(_, _, _, _, _) =>
    case Revoke(_, _) =>
    case SendEmail(_, _, _, _, _, _) =>
    case RecordManual(_, _, _) =>
    case _ =>
  }

  /** What was granted stays as it was over any run. */
  lemma {:induction false} GrantsStayInRuns(db: Db, steps: seq<Step>, auth: nat)
    requires auth < |db.authorizations| && Granted(db.authorizations[auth].status)
    ensures auth < |Run(db, steps).authorizations|
    ensures var a, b := db.authorizations[auth], Run(db, steps).authorizations[auth];
      b == a.(status := b.status) && Granted(b.status)
    decreases |steps|
  {
    if steps != [] {
      GrantsStayInRuns(db, steps[..|steps| - 1], auth);
      GrantsStay(Run(db, steps[..|steps| - 1]), steps[|steps| - 1], auth);
    }
  }

  /** Once it is authorized until `e`, nothing is ever sent under it after `e`, by e-mail or by hand. */
  lemma NothingAfterExpiry(db: Db, pkg: nat, user: nat, auth: nat, reviews: Reviews, e: int, granted: Db,
                           steps: seq<Step>, now: int)
    requires Commits(db, Authorize(pkg, user, auth, reviews, Some(e)))
    requires granted == Next(db, Authorize(pkg, user, auth, reviews, Some(e))) && now > e
    ensures forall other, configured, messageId, replied ::
      !Commits(Run(granted, steps), SendEmail(other, auth, now, configured, messageId, replied))
    ensures forall other :: !Commits(Run(granted, steps), RecordManual(other, auth, now))
  {
    assert granted.authorizations[auth].expiresAt == Some(e);
    GrantsStayInRuns(granted, steps, auth);
  }
}
