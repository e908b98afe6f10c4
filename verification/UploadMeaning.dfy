/**
 What the steps of UploadLifecycle do to the tables, row by row: who may take them, and what is
 different afterwards.
 */
module UploadMeaning {
  import opened Results
  import opened StatusTransitions
  import opened UploadLifecycle

  // ---------------------------------------------------------------------------------------
  // Counting rows
  // ---------------------------------------------------------------------------------------

  ghost predicate IsActive(status: SessionStatus) {
    || status == INITIATED || status == UPLOAD_AUTHORIZED
    || status == UPLOADED || status == VALIDATING
  }

  ghost function ActiveByUser(ss: seq<Session>, user: nat): set<nat> {
    set k: nat | k < |ss| && ss[k].user == user && IsActive(ss[k].status)
  }

  ghost function ActiveInProject(ss: seq<Session>, project: nat): set<nat> {
    set k: nat | k < |ss| && ss[k].project == project && IsActive(ss[k].status)
  }

  ghost function VersionsOf(vs: seq<Version>, document: nat): set<nat> {
    set i: nat | i < |vs| && vs[i].document == document
  }

  ghost function RunsFor(rs: seq<ProcessingRun>, version: nat): set<nat> {
    set i: nat | i < |rs| && rs[i].version == version
  }

  /** A status is active exactly if the table has a way out of it. */
  lemma ActiveCanMove(s: Session)
    ensures Active(s) <==> exists next :: CanMove(s.status, next)
    ensures Active(s) <==> IsActive(s.status)
  {
    if Active(s) {
      assert CanMove(s.status, SESSION_FAILED);
    }
  }

  lemma {:induction false} ActiveByUserIsSize(ss: seq<Session>, user: nat)
    ensures ActiveOfUser(ss, user) == |ActiveByUser(ss, user)|
    decreases |ss|
  {
    if ss != [] {
      var n: nat := |ss| - 1;
      ActiveByUserIsSize(ss[..n], user);
      ActiveCanMove(ss[n]);
      assert ActiveByUser(ss, user)
        == ActiveByUser(ss[..n], user) + if ss[n].user == user && Active(ss[n]) then {n} else {};
    }
  }

  lemma {:induction false} ActiveInProjectIsSize(ss: seq<Session>, project: nat)
    ensures ActiveOfProject(ss, project) == |ActiveInProject(ss, project)|
    decreases |ss|
  {
    if ss != [] {
      var n: nat := |ss| - 1;
      ActiveInProjectIsSize(ss[..n], project);
      ActiveCanMove(ss[n]);
      assert ActiveInProject(ss, project)
        == ActiveInProject(ss[..n], project) + if ss[n].project == project && Active(ss[n]) then {n} else {};
    }
  }

  lemma {:induction false} RunsOfIsSize(rs: seq<ProcessingRun>, version: nat)
    ensures RunsOf(rs, version) == |RunsFor(rs, version)|
    decreases |rs|
  {
    if rs != [] {
      var n: nat := |rs| - 1;
      RunsOfIsSize(rs[..n], version);
      assert RunsFor(rs, version) == RunsFor(rs[..n], version) + if rs[n].version == version then {n} else {};
    }
  }

  // ---------------------------------------------------------------------------------------
  // Starting an upload
  // ---------------------------------------------------------------------------------------

  /** An open project, within the rate, an allowed file of an allowed size, and room for one more. */
  ghost predicate MayStart(db: Db, user: nat, project: nat, size: nat, a: Admission) {
    && !a.projectArchived && a.withinRate && a.fileAllowed && size != 0 && size <= db.limits.maxBytes
    && |ActiveByUser(db.sessions, user)| < db.limits.perUser
    && |ActiveInProject(db.sessions, project)| < db.limits.perProject
  }

  lemma StartMeans(db: Db, step: Step)
    requires step.Initiate?
    ensures MayInitiate(db, step) <==> MayStart(db, step.user, step.project, step.declaredSize, step.admission)
  {
    ActiveByUserIsSize(db.sessions, step.user);
    ActiveInProjectIsSize(db.sessions, step.project);
  }

  ghost predicate HasKey(s: Session, user: nat, key: nat) {
    s.user == user && s.key == Some(key)
  }

  /** The user has a session with this key. */
  ghost predicate KeyIsTaken(db: Db, user: nat, key: Option<nat>) {
    key.Some? && exists k :: 0 <= k < |db.sessions| && HasKey(db.sessions[k], user, key.value)
  }

  /** It is open, and not yet over. */
  ghost predicate OpenUnderKey(db: Db, user: nat, key: Option<nat>, now: int) {
    && key.Some?
    && exists k :: 0 <= k < |db.sessions| && HasKey(db.sessions[k], user, key.value)
                   && db.sessions[k].status == UPLOAD_AUTHORIZED && now < db.sessions[k].expiresAt
  }

  lemma ReplayMeans(db: Db, step: Step)
    requires Safe(db) && step.Initiate?
    ensures Replays(db, step) <==> OpenUnderKey(db, step.user, step.key, step.now)
    ensures KeyIsTaken(db, step.user, step.key)
      <==> step.key.Some? && WithKey(db.sessions, step.user, step.key.value).Some?
  {
    if step.key.Some? {
      var found := WithKey(db.sessions, step.user, step.key.value);
      if found.Some? {
        var j := found.value;
        assert HasKey(db.sessions[j], step.user, step.key.value);
        forall k | 0 <= k < |db.sessions| && HasKey(db.sessions[k], step.user, step.key.value)
          ensures k == j
        {
          assert SameKey(db.sessions[k], db.sessions[j]) && SameKey(db.sessions[j], db.sessions[k]);
        }
      }
    }
  }

  /** Within the quota before, and within it afterwards. */
  lemma StartKeepsQuota(db: Db, step: Step)
    requires step.Initiate? && MayInitiate(db, step)
    ensures |ActiveByUser(Next(db, step).sessions, step.user)| <= db.limits.perUser
    ensures |ActiveInProject(Next(db, step).sessions, step.project)| <= db.limits.perProject
  {
    StepKeepsQuota(db, step, step.user, step.project);
    ActiveByUserIsSize(Next(db, step).sessions, step.user);
    ActiveInProjectIsSize(Next(db, step).sessions, step.project);
    SessionsStay(db, [step]);
    assert [step][..0] == [];
    assert Run(db, [step]) == Next(db, step);
  }

  /** What starting an upload leaves behind: nothing new, or one session, open for `ttl` seconds, and its document. */
  ghost predicate Started(db: Db, step: Step, after: Db)
    requires step.Initiate?
  {
    if MayStart(db, step.user, step.project, step.declaredSize, step.admission) && !KeyIsTaken(db, step.user, step.key)
    then
      && |after.sessions| == |db.sessions| + 1 && IsOpenedBy(after.sessions[|db.sessions|], step, |db.documents|)
      && after.documents == db.documents + [Document(step.project, UPLOADING, None)]
      && after == db.(sessions := db.sessions + [after.sessions[|db.sessions|]], documents := after.documents)
    else after == db
  }

  ghost predicate IsOpenedBy(s: Session, step: Step, document: nat)
    requires step.Initiate?
  {
    && s.user == step.user && s.project == step.project && s.key == step.key && s.document == document
    && s.expiresAt == step.now + 1000 * step.ttl
    && s.declaredSize == step.declaredSize && s.expectedDigest == step.expectedDigest
    && s.status == UPLOAD_AUTHORIZED && s.version == None
  }

  lemma StartingMeans(db: Db, step: Step)
    requires step.Initiate?
    ensures Started(db, step, Next(db, step))
  {
    StartMeans(db, step);
    if step.key.Some? {
      var found := WithKey(db.sessions, step.user, step.key.value);
      assert found.Some? ==> HasKey(db.sessions[found.value], step.user, step.key.value);
    }
  }

  /** No later step changes when a session expires. */
  lemma {:induction false} ExpiryStays(db: Db, steps: seq<Step>, k: nat)
    requires k < |db.sessions|
    ensures k < |Run(db, steps).sessions| && Run(db, steps).sessions[k].expiresAt == db.sessions[k].expiresAt
    decreases |steps|
  {
    if steps != [] {
      ExpiryStays(db, steps[..|steps| - 1], k);
    }
  }

  /** Whatever happens after its start, a session expires exactly if it is completed after its time while still open. */
  lemma ExpiresAfterItsTime(db: Db, step: Step, steps: seq<Step>, later: Db, c: Completion)
    requires step.Initiate? && |Next(db, step).sessions| > |db.sessions| && later == Run(Next(db, step), steps)
    ensures var k := |db.sessions|;
      && k < |later.sessions|
      && (Complete(later, k, c) == Moved([EXPIRED])
          <==> && c.now > step.now + 1000 * step.ttl
               && later.sessions[k].status in {INITIATED, UPLOAD_AUTHORIZED, UPLOADED})
  {
    StartingMeans(db, step);
    ExpiryStays(Next(db, step), steps, |db.sessions|);
    NoOtherExpiry(later, |db.sessions|, c);
  }

  lemma NoOtherExpiry(db: Db, k: nat, c: Completion)
    requires k < |db.sessions|
    ensures Complete(db, k, c) == Moved([EXPIRED]) <==> IsExpired(db.sessions[k], c)
  {
  }

  // ---------------------------------------------------------------------------------------
  // Completing an upload
  // ---------------------------------------------------------------------------------------

  ghost predicate IsExpired(s: Session, c: Completion) {
    c.now > s.expiresAt && (s.status == INITIATED || s.status == UPLOAD_AUTHORIZED || s.status == UPLOADED)
  }

  ghost predicate InTime(s: Session, c: Completion) {
    s.status == UPLOAD_AUTHORIZED && c.now <= s.expiresAt
  }

  ghost predicate IsMissing(s: Session, c: Completion) {
    InTime(s, c) && c.stored == None
  }

  ghost predicate HasOtherSize(s: Session, c: Completion) {
    InTime(s, c) && c.stored.Some? && c.stored.value != s.declaredSize
  }

  /** The object is there in full, and can be read. */
  ghost predicate IsThere(s: Session, c: Completion) {
    InTime(s, c) && c.stored == Some(s.declaredSize) && s.declaredSize != 0 && c.readable
  }

  /** A digest that was named is the one computed. */
  ghost predicate Agrees(named: Option<nat>, digest: nat) {
    named == None || named == Some(digest)
  }

  ghost predicate IsRejected(s: Session, c: Completion) {
    || HasOtherSize(s, c)
    || (IsThere(s, c) && !Agrees(s.expectedDigest, c.digest))
    || (IsThere(s, c) && Agrees(s.expectedDigest, c.digest) && Agrees(c.clientDigest, c.digest) && !c.magicOk)
  }

  ghost predicate IsInOrder(s: Session, c: Completion) {
    IsThere(s, c) && Agrees(s.expectedDigest, c.digest) && Agrees(c.clientDigest, c.digest) && c.magicOk
  }

  /** No accepted version of the project has this content. */
  ghost predicate IsNewContent(db: Db, project: nat, digest: nat) {
    forall v :: v in db.versions && v.project == project && v.digest == digest ==> !v.accepted
  }

  /** Only the client named another digest, or the content is there already and nothing was decided about it. */
  ghost predicate IsLeftValidating(db: Db, s: Session, c: Completion) {
    || (InTime(s, c) && c.stored == Some(0) && s.declaredSize == 0)
    || (IsThere(s, c) && Agrees(s.expectedDigest, c.digest) && !Agrees(c.clientDigest, c.digest))
    || (IsInOrder(s, c) && !IsNewContent(db, s.project, c.digest) && c.decision == Undecided)
  }

  ghost predicate MayAccept(db: Db, s: Session, c: Completion) {
    && IsInOrder(s, c)
    && (IsNewContent(db, s.project, c.digest) || c.decision == NewOccurrence || c.decision == NewVersion)
    && s.document < |db.documents|
    && (db.documents[s.document].status == UPLOADING || db.documents[s.document].status == RECEIVED)
  }

  ghost predicate IsAlreadyAccepted(s: Session) {
    s.status == ACCEPTED && s.version.Some?
  }

  /** When each answer is given. */
  ghost predicate Answers(db: Db, s: Session, c: Completion, answer: Answer) {
    && (answer.Replayed? <==> IsAlreadyAccepted(s))
    && (answer.Accepted? <==> MayAccept(db, s, c))
    && (answer == Moved([EXPIRED]) <==> IsExpired(s, c))
    && (answer == Moved([UPLOADED, VALIDATING, SESSION_FAILED]) <==> IsMissing(s, c))
    && (answer == Moved([UPLOADED, VALIDATING, SESSION_REJECTED]) <==> IsRejected(s, c))
    && (answer == Moved([UPLOADED, VALIDATING]) <==> IsLeftValidating(db, s, c))
    && (answer.Moved? ==> IsExpired(s, c) || IsMissing(s, c) || IsRejected(s, c) || IsLeftValidating(db, s, c))
  }

  lemma NewContentMeans(db: Db, project: nat, digest: nat)
    ensures IsNewContent(db, project, digest) <==> !IsDuplicate(db.versions, project, digest)
  {
    if v :| v in db.versions && v.project == project && v.digest == digest && v.accepted {
      var i :| 0 <= i < |db.versions| && db.versions[i] == v;
      assert Duplicates(db.versions[i], project, digest);
    }
    if i :| 0 <= i < |db.versions| && Duplicates(db.versions[i], project, digest) {
      assert db.versions[i] in db.versions;
    }
  }

  lemma AnswersMean(db: Db, k: nat, c: Completion)
    requires k < |db.sessions|
    ensures Answers(db, db.sessions[k], c, Complete(db, k, c))
  {
    var s := db.sessions[k];
    NewContentMeans(db, s.project, c.digest);
    Distinct();
  }

  lemma Distinct()
    ensures [UPLOADED, VALIDATING, SESSION_FAILED] != [UPLOADED, VALIDATING, SESSION_REJECTED]
    ensures [UPLOADED, VALIDATING] != [UPLOADED, VALIDATING, SESSION_REJECTED]
    ensures [UPLOADED, VALIDATING] != [UPLOADED, VALIDATING, SESSION_FAILED]
    ensures [EXPIRED] != [UPLOADED, VALIDATING]
    ensures [EXPIRED] != [UPLOADED, VALIDATING, SESSION_FAILED]
    ensures [EXPIRED] != [UPLOADED, VALIDATING, SESSION_REJECTED]
  {
    var a, b := [UPLOADED, VALIDATING, SESSION_FAILED], [UPLOADED, VALIDATING, SESSION_REJECTED];
    assert a[2] != b[2];
    assert |[EXPIRED]| == 1 && |[UPLOADED, VALIDATING]| == 2 && |a| == |b| == 3;
  }

  /** The session gets another status, and nothing else changes. */
  ghost predicate OnlyStatus(db: Db, k: nat, status: SessionStatus, after: Db)
    requires k < |db.sessions|
  {
    && |after.sessions| == |db.sessions|
    && after.sessions[k] == db.sessions[k].(status := status)
    && (forall j :: 0 <= j < |db.sessions| && j != k ==> after.sessions[j] == db.sessions[j])
    && after == db.(sessions := after.sessions)
  }

  /** The next number of a document: its versions are fewer by one, and none has it or a higher one. */
  ghost predicate IsNextNumber(db: Db, document: nat, number: nat) {
    && number == |VersionsOf(db.versions, document)| + 1
    && forall v :: v in db.versions && v.document == document ==> v.number < number
  }

  /** One new version, current for its document, which is in quarantine; its first run, and the event for that. */
  ghost predicate VersionAdded(db: Db, document: nat, digest: nat, after: Db)
    requires document < |db.documents|
  {
    var version := |db.versions|;
    && |after.versions| == version + 1 && after.versions[..version] == db.versions
    && IsNewVersion(db, document, digest, after.versions[version])
    && after.documents == db.documents[document := Document(db.documents[document].project, QUARANTINED, Some(version))]
    && after.runs == db.runs + [ProcessingRun(version, 1)]
    && after.outbox == db.outbox + [OutboxEvent(|db.runs|, version)]
    && after.limits == db.limits
  }

  ghost predicate IsNewVersion(db: Db, document: nat, digest: nat, v: Version)
    requires document < |db.documents|
  {
    && v.project == db.documents[document].project && v.document == document && v.digest == digest
    && IsNextNumber(db, document, v.number)
    && !v.accepted && !v.infected && v.processing == QUEUED
  }

  /** What completing a session leaves behind. */
  ghost predicate Completed(db: Db, k: nat, c: Completion, after: Db)
    requires k < |db.sessions|
  {
    var s := db.sessions[k];
    if MayAccept(db, s, c) then
      && VersionAdded(db, s.document, c.digest, after)
      && |after.sessions| == |db.sessions|
      && after.sessions[k] == s.(status := ACCEPTED, version := Some(|db.versions|))
      && forall j :: 0 <= j < |db.sessions| && j != k ==> after.sessions[j] == db.sessions[j]
    else if IsExpired(s, c) then OnlyStatus(db, k, EXPIRED, after)
    else if IsMissing(s, c) then OnlyStatus(db, k, SESSION_FAILED, after)
    else if IsRejected(s, c) then OnlyStatus(db, k, SESSION_REJECTED, after)
    else if IsLeftValidating(db, s, c) then OnlyStatus(db, k, VALIDATING, after)
    else after == db
  }

  // ---------------------------------------------------------------------------------------
  // Version numbers
  // ---------------------------------------------------------------------------------------

  /** The versions of each document are numbered 1, 2, 3 and so on. */
  ghost predicate VersionsNumbered(vs: seq<Version>) {
    forall i :: 0 <= i < |vs| ==> vs[i].number == |VersionsOf(vs[..i], vs[i].document)| + 1
  }

  lemma VersionsOfStep(vs: seq<Version>, v: Version, document: nat)
    ensures VersionsOf(vs + [v], document) == VersionsOf(vs, document) + if v.document == document then {|vs|} else {}
    ensures |VersionsOf(vs + [v], document)| == |VersionsOf(vs, document)| + if v.document == document then 1 else 0
  {
  }

  lemma {:induction false} HighestIsCount(vs: seq<Version>, document: nat)
    requires VersionsNumbered(vs)
    ensures MaxNumber(vs, document) == |VersionsOf(vs, document)|
    ensures forall v :: v in vs && v.document == document ==> v.number <= MaxNumber(vs, document)
    decreases |vs|
  {
    if vs != [] {
      var front, last := vs[..|vs| - 1], vs[|vs| - 1];
      assert vs == front + [last];
      NumberedInFront(vs, |vs| - 1);
      HighestIsCount(front, document);
      VersionsOfStep(front, last, document);
      assert last.number == |VersionsOf(front, last.document)| + 1;
    }
  }

  lemma NumberedInFront(vs: seq<Version>, n: nat)
    requires VersionsNumbered(vs) && n <= |vs|
    ensures VersionsNumbered(vs[..n])
  {
    forall i | 0 <= i < n
      ensures vs[..n][i].number == |VersionsOf(vs[..n][..i], vs[..n][i].document)| + 1
    {
      assert vs[..n][..i] == vs[..i];
    }
  }

  lemma NextNumberIs(db: Db, document: nat)
    requires VersionsNumbered(db.versions)
    ensures IsNextNumber(db, document, MaxNumber(db.versions, document) + 1)
  {
    HighestIsCount(db.versions, document);
  }

  lemma NumberedWithOneMore(vs: seq<Version>, v: Version)
    requires VersionsNumbered(vs) && v.number == |VersionsOf(vs, v.document)| + 1
    ensures VersionsNumbered(vs + [v])
  {
    var all := vs + [v];
    forall i | 0 <= i < |all|
      ensures all[i].number == |VersionsOf(all[..i], all[i].document)| + 1
    {
      if i < |vs| {
        assert all[..i] == vs[..i];
      } else {
        assert all[..i] == vs;
      }
    }
  }

  /** Numbers and documents of the versions are the same. */
  predicate SameNumbers(vs: seq<Version>, ww: seq<Version>) {
    && |vs| == |ww|
    && forall i :: 0 <= i < |vs| ==> vs[i].number == ww[i].number && vs[i].document == ww[i].document
  }

  lemma NumbersKept(vs: seq<Version>, ww: seq<Version>)
    requires VersionsNumbered(vs) && SameNumbers(vs, ww)
    ensures VersionsNumbered(ww)
  {
    forall i | 0 <= i < |ww|
      ensures ww[i].number == |VersionsOf(ww[..i], ww[i].document)| + 1
    {
      assert VersionsOf(ww[..i], ww[i].document) == VersionsOf(vs[..i], vs[i].document);
    }
  }

  lemma StepNumbers(db: Db, step: Step)
    requires VersionsNumbered(db.versions)
    ensures VersionsNumbered(Next(db, step).versions)
  {
    var after := Next(db, step);
    if |after.versions| > |db.versions| {
      var v := after.versions[|db.versions|];
      assert after.versions == db.versions + [v];
      HighestIsCount(db.versions, v.document);
      NumberedWithOneMore(db.versions, v);
    } else {
      NumbersKept(db.versions, after.versions);
    }
  }

  /** What holds in every reachable state. */
  ghost predicate Sound(db: Db) {
    Safe(db) && VersionsNumbered(db.versions)
  }

  lemma StepSound(db: Db, step: Step)
    requires Sound(db)
    ensures Sound(Next(db, step))
  {
    StepSafe(db, step);
    StepNumbers(db, step);
  }

  /** Over every run the versions of each document are numbered 1, 2, 3 and so on. */
  lemma {:induction false} RunsNumberVersions(limits: Limits, steps: seq<Step>)
    ensures VersionsNumbered(Run(Empty(limits), steps).versions)
    decreases |steps|
  {
    if steps != [] {
      RunsNumberVersions(limits, steps[..|steps| - 1]);
      StepNumbers(Run(Empty(limits), steps[..|steps| - 1]), steps[|steps| - 1]);
    }
  }

  lemma VersionAdding(db: Db, document: nat, digest: nat)
    requires document < |db.documents| && VersionsNumbered(db.versions)
    ensures VersionAdded(db, document, digest, WithRun(WithVersion(db, document, digest), |db.versions|, 1))
  {
    NextNumberIs(db, document);
  }

  lemma CompletingMeans(db: Db, k: nat, c: Completion)
    requires k < |db.sessions| && VersionsNumbered(db.versions)
    ensures Completed(db, k, c, Next(db, CompleteUpload(k, c)))
  {
    AnswersMean(db, k, c);
    var s := db.sessions[k];
    if MayAccept(db, s, c) {
      VersionAdding(db, s.document, c.digest);
    }
  }

  // ---------------------------------------------------------------------------------------
  // Retrying, archiving, cancelling, importing
  // ---------------------------------------------------------------------------------------

  /** Processing of the current version failed, wholly or in part; it is clean, and its document not settled. */
  ghost predicate CanRetry(db: Db, document: nat) {
    && document < |db.documents| && db.documents[document].current.Some?
    && db.documents[document].current.value < |db.versions|
    && var v := db.versions[db.documents[document].current.value];
    && !v.infected && (v.processing == PROCESSING_FAILED || v.processing == PARTIALLY_SUCCEEDED)
    && var status := db.documents[document].status;
    status == RECEIVED || status == QUARANTINED || status == PARTIALLY_PROCESSED || status == FAILED
  }

  /** The version is queued, its document in processing, and its next numbered run announced. */
  ghost predicate IsRetried(db: Db, document: nat, after: Db)
    requires CanRetry(db, document)
  {
    var v := db.documents[document].current.value;
    && after.versions == db.versions[v := db.versions[v].(processing := QUEUED)]
    && after.documents == db.documents[document := db.documents[document].(status := PROCESSING)]
    && after.runs == db.runs + [ProcessingRun(v, |RunsFor(db.runs, v)| + 1)]
    && after.outbox == db.outbox + [OutboxEvent(|db.runs|, v)]
    && after.sessions == db.sessions && after.limits == db.limits
  }

  lemma RetryingMeans(db: Db, document: nat)
    ensures MayRetry(db, document) <==> CanRetry(db, document)
    ensures if CanRetry(db, document) then IsRetried(db, document, Next(db, Retry(document)))
      else Next(db, Retry(document)) == db
  {
    if MayRetry(db, document) {
      RunsOfIsSize(db.runs, db.documents[document].current.value);
      RetriedRows(db, document, Next(db, Retry(document)));
    }
  }

  /** Statuses from which a document can be archived. */
  ghost predicate IsSettled(status: DocumentStatus) {
    || status == READY || status == PARTIALLY_PROCESSED || status == FAILED || status == REJECTED
    || status == SUPERSEDED
  }

  ghost predicate IsArchived(db: Db, document: nat, after: Db) {
    if document < |db.documents| && IsSettled(db.documents[document].status) then
      after == db.(documents := db.documents[document := db.documents[document].(status := ARCHIVED)])
    else after == db
  }

  ghost predicate IsCancelled(db: Db, k: nat, after: Db) {
    if k < |db.sessions| && (db.sessions[k].status == INITIATED || db.sessions[k].status == UPLOAD_AUTHORIZED) then
      OnlyStatus(db, k, CANCELLED, after)
    else after == db
  }

  lemma ArchivingMeans(db: Db, document: nat)
    ensures IsArchived(db, document, Next(db, Archive(document)))
  {
  }

  lemma CancellingMeans(db: Db, k: nat)
    ensures IsCancelled(db, k, Next(db, CancelUpload(k)))
  {
  }

  /** A new document of the project, with version 1. */
  ghost predicate IsImported(db: Db, project: nat, digest: nat, after: Db) {
    var document, version := |db.documents|, |db.versions|;
    && after.documents == db.documents + [Document(project, QUARANTINED, Some(version))]
    && after.versions == db.versions + [Version(project, document, 1, digest, false, false, QUEUED)]
    && after.runs == db.runs + [ProcessingRun(version, 1)]
    && after.outbox == db.outbox + [OutboxEvent(|db.runs|, version)]
    && after.sessions == db.sessions && after.limits == db.limits
  }

  lemma {:induction false} NoVersionYet(vs: seq<Version>, document: nat)
    requires forall i :: 0 <= i < |vs| ==> vs[i].document < document
    ensures MaxNumber(vs, document) == 0
    decreases |vs|
  {
    if vs != [] {
      NoVersionYet(vs[..|vs| - 1], document);
    }
  }

  lemma ImportingMeans(db: Db, project: nat, digest: nat)
    requires VersionsOk(db)
    ensures IsImported(db, project, digest, Next(db, Import(project, digest)))
  {
    NoVersionYet(db.versions, |db.documents|);
  }
}
