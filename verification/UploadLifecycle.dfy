/**
 Upload sessions, document versions, processing runs and their outbox events: documents.ts and
 queue/outbox.ts of apps/web/src/server, and the import of connectors.ts.  Every service function
 is one transaction; what storage answers, hashes and clocks are inputs.  Changes made by the
 processing worker are arbitrary steps.
 */
module UploadLifecycle {
  import opened Results
  import opened StatusTransitions

  datatype Session = Session(user: nat, project: nat, key: Option<nat>, document: nat, expiresAt: int,
    declaredSize: nat, expectedDigest: Option<nat>, status: SessionStatus, version: Option<nat>)

  datatype Document = Document(project: nat, status: DocumentStatus, current: Option<nat>)

  datatype Processing = QUEUED | RUNNING | SUCCEEDED | PARTIALLY_SUCCEEDED | PROCESSING_FAILED

  /** A version carries the project of its document, as the row does. */
  datatype Version = Version(project: nat, document: nat, number: nat, digest: nat, accepted: bool, infected: bool,
    processing: Processing)

  datatype ProcessingRun = ProcessingRun(version: nat, attempt: nat)

  datatype OutboxEvent = OutboxEvent(run: nat, version: nat)

  datatype Limits = Limits(perUser: nat, perProject: nat, maxBytes: nat)

  datatype Db = Db(limits: Limits, sessions: seq<Session>, documents: seq<Document>, versions: seq<Version>,
    runs: seq<ProcessingRun>, outbox: seq<OutboxEvent>)

  // ---------------------------------------------------------------------------------------
  // Queries
  // ---------------------------------------------------------------------------------------

  predicate Active(s: Session) {
    s.status in {INITIATED, UPLOAD_AUTHORIZED, UPLOADED, VALIDATING}
  }

  function ActiveOfUser(ss: seq<Session>, user: nat): nat
    decreases |ss|
  {
    if ss == [] then 0
    else ActiveOfUser(ss[..|ss| - 1], user) + if ss[|ss| - 1].user == user && Active(ss[|ss| - 1]) then 1 else 0
  }

  function ActiveOfProject(ss: seq<Session>, project: nat): nat
    decreases |ss|
  {
    if ss == [] then 0
    else
      var last, rest := ss[|ss| - 1], ActiveOfProject(ss[..|ss| - 1], project);
      rest + if last.project == project && Active(last) then 1 else 0
  }

  /** The session of a user with an idempotency key. */
  function WithKey(ss: seq<Session>, user: nat, key: nat): (r: Option<nat>)
    ensures r.Some? ==> r.value < |ss| && ss[r.value].user == user && ss[r.value].key == Some(key)
    ensures r.None? ==> forall i :: 0 <= i < |ss| ==> ss[i].user != user || ss[i].key != Some(key)
    decreases |ss|
  {
    if ss == [] then None
    else if ss[|ss| - 1].user == user && ss[|ss| - 1].key == Some(key) then Some(|ss| - 1)
    else WithKey(ss[..|ss| - 1], user, key)
  }

  predicate Duplicates(v: Version, project: nat, digest: nat) {
    v.project == project && v.digest == digest && v.accepted
  }

  /** The project already has an accepted version with this content. */
  predicate IsDuplicate(vs: seq<Version>, project: nat, digest: nat) {
    exists i :: 0 <= i < |vs| && Duplicates(vs[i], project, digest)
  }

  function MaxNumber(vs: seq<Version>, document: nat): nat
    decreases |vs|
  {
    if vs == [] then 0
    else
      var last, rest := vs[|vs| - 1], MaxNumber(vs[..|vs| - 1], document);
      if last.document == document && last.number > rest then last.number else rest
  }

  function RunsOf(rs: seq<ProcessingRun>, version: nat): nat
    decreases |rs|
  {
    if rs == [] then 0 else RunsOf(rs[..|rs| - 1], version) + if rs[|rs| - 1].version == version then 1 else 0
  }

  // ---------------------------------------------------------------------------------------
  // Completing an upload
  // ---------------------------------------------------------------------------------------

  datatype Decision = Undecided | Cancel | NewOccurrence | NewVersion

  /** What storage and the checks answer when a session is completed. */
  datatype Completion = Completion(now: int, stored: Option<nat>, readable: bool, digest: nat,
    clientDigest: Option<nat>, magicOk: bool, decision: Decision)

  /** A committed answer that creates nothing, a thrown error that rolls back, or an accepted upload. */
  datatype Answer = Replayed | RolledBack | Moved(statuses: seq<SessionStatus>) | Accepted(statuses: seq<SessionStatus>)

  /** The branches of the completion, with every status the transaction writes. */
  function Complete(db: Db, k: nat, c: Completion): Answer {
    if k >= |db.sessions| then RolledBack
    else
      var s := db.sessions[k];
      if s.status == ACCEPTED && s.version.Some? then Replayed
      else if s.expiresAt < c.now then if CanMove(s.status, EXPIRED) then Moved([EXPIRED]) else RolledBack
      else if s.status != UPLOAD_AUTHORIZED && s.status != UPLOADED then RolledBack
      else if !CanMove(s.status, UPLOADED) then RolledBack
      else if c.stored.None? then Moved([UPLOADED, VALIDATING, SESSION_FAILED])
      else if c.stored.value != s.declaredSize then Moved([UPLOADED, VALIDATING, SESSION_REJECTED])
      else if c.stored.value == 0 then Moved([UPLOADED, VALIDATING])
      else if !c.readable then RolledBack
      else Validate(db, s, c)
  }

  function Validate(db: Db, s: Session, c: Completion): Answer {
    if s.expectedDigest.Some? && s.expectedDigest.value != c.digest then Moved([UPLOADED, VALIDATING, SESSION_REJECTED])
    else if c.clientDigest.Some? && c.clientDigest.value != c.digest then Moved([UPLOADED, VALIDATING])
    else if !c.magicOk then Moved([UPLOADED, VALIDATING, SESSION_REJECTED])
    else if IsDuplicate(db.versions, s.project, c.digest) && c.decision == Cancel then
      if CanMove(VALIDATING, CANCELLED) then Moved([UPLOADED, VALIDATING, CANCELLED]) else RolledBack
    else if IsDuplicate(db.versions, s.project, c.digest) && c.decision == Undecided then Moved([UPLOADED, VALIDATING])
    else if s.document >= |db.documents| then RolledBack
    else if !CanMoveDocument(db.documents[s.document].status, QUARANTINED) then RolledBack
    else Accepted([UPLOADED, VALIDATING, ACCEPTED])
  }

  // ---------------------------------------------------------------------------------------
  // Steps
  // ---------------------------------------------------------------------------------------

  /** What comes before the transaction: project, rate limit, and the policy on file names and media types. */
  datatype Admission = Admission(projectArchived: bool, withinRate: bool, fileAllowed: bool)

  datatype Step =
    | Initiate(user: nat, project: nat, key: Option<nat>, declaredSize: nat, expectedDigest: Option<nat>, now: int,
        ttl: nat, admission: Admission)
    | CompleteUpload(session: nat, completion: Completion)
    | CancelUpload(session: nat)
    | Retry(document: nat)
    | Archive(document: nat)
    | Import(project: nat, digest: nat)
    | Worker(document: nat, documentStatus: DocumentStatus, version: nat, accepted: bool, infected: bool,
      processing: Processing)

  /** A queued run of a version, and the event that announces it. */
  function WithRun(db: Db, version: nat, attempt: nat): Db {
    db.(runs := db.runs + [ProcessingRun(version, attempt)], outbox := db.outbox + [OutboxEvent(|db.runs|, version)])
  }

  function WithVersion(db: Db, document: nat, digest: nat): Db
    requires document < |db.documents|
  {
    var d := db.documents[document];
    var v := Version(d.project, document, MaxNumber(db.versions, document) + 1, digest, false, false, QUEUED);
    db.(versions := db.versions + [v],
        documents := db.documents[document := d.(status := QUARANTINED, current := Some(|db.versions|))])
  }

  function WithStatus(db: Db, k: nat, status: SessionStatus): Db
    requires k < |db.sessions|
  {
    db.(sessions := db.sessions[k := db.sessions[k].(status := status)])
  }

  function Accept(db: Db, k: nat, digest: nat): Db
    requires k < |db.sessions| && db.sessions[k].document < |db.documents|
  {
    var s, version := db.sessions[k], |db.versions|;
    WithRun(WithVersion(db, s.document, digest), version, 1)
      .(sessions := db.sessions[k := s.(status := ACCEPTED, version := Some(version))])
  }

  predicate MayInitiate(db: Db, step: Step)
    requires step.Initiate?
  {
    && !step.admission.projectArchived && step.admission.withinRate && step.admission.fileAllowed
    && 0 < step.declaredSize <= db.limits.maxBytes
    && ActiveOfUser(db.sessions, step.user) < db.limits.perUser
    && ActiveOfProject(db.sessions, step.project) < db.limits.perProject
  }

  /** The session a repeated request gets back. */
  predicate Replays(db: Db, step: Step)
    requires step.Initiate?
  {
    && step.key.Some? && WithKey(db.sessions, step.user, step.key.value).Some?
    && var s := db.sessions[WithKey(db.sessions, step.user, step.key.value).value];
    s.status == UPLOAD_AUTHORIZED && s.expiresAt > step.now
  }

  function Next(db: Db, step: Step): Db {
    match step
    case Initiate(user, project, key, declaredSize, expectedDigest, now, ttl, admission) =>
      if !MayInitiate(db, step) || Replays(db, step) then db
      else if key.Some? && WithKey(db.sessions, user, key.value).Some? then db
      else
        var s := Session(user, project, key, |db.documents|, now + ttl * 1000, declaredSize, expectedDigest,
                         UPLOAD_AUTHORIZED, None);
        db.(sessions := db.sessions + [s], documents := db.documents + [Document(project, UPLOADING, None)])
    case CompleteUpload(k, c) =>
      (match Complete(db, k, c)
       case Replayed => db
       case RolledBack => db
       case Moved(statuses) =>
         if k < |db.sessions| && statuses != [] then WithStatus(db, k, statuses[|statuses| - 1]) else db
       case Accepted(_) =>
         if k < |db.sessions| && db.sessions[k].document < |db.documents| then Accept(db, k, c.digest) else db)
    case CancelUpload(k) =>
      if k < |db.sessions| && CanMove(db.sessions[k].status, CANCELLED) then WithStatus(db, k, CANCELLED) else db
    case Retry(document) => if MayRetry(db, document) then Retried(db, document) else db
    case Archive(document) =>
      if document < |db.documents| && CanMoveDocument(db.documents[document].status, ARCHIVED) then
        db.(documents := db.documents[document := db.documents[document].(status := ARCHIVED)])
      else db
    case Import(project, digest) =>
      var grown := db.(documents := db.documents + [Document(project, QUARANTINED, None)]);
      WithRun(WithVersion(grown, |db.documents|, digest), |db.versions|, 1)
    case Worker(document, documentStatus, version, accepted, infected, processing) =>
      if document < |db.documents| && version < |db.versions| then
        db.(documents := db.documents[document := db.documents[document].(status := documentStatus)],
            versions := db.versions[version := db.versions[version]
              .(accepted := accepted, infected := infected, processing := processing)])
      else db
  }

  predicate MayRetry(db: Db, document: nat) {
    && document < |db.documents| && db.documents[document].current.Some?
    && var v := db.documents[document].current.value;
    && v < |db.versions| && !db.versions[v].infected
    && (db.versions[v].processing == PROCESSING_FAILED || db.versions[v].processing == PARTIALLY_SUCCEEDED)
    && CanMoveDocument(db.documents[document].status, PROCESSING)
  }

  function Retried(db: Db, document: nat): Db
    requires MayRetry(db, document)
  {
    var v := db.documents[document].current.value;
    WithRun(db, v, RunsOf(db.runs, v) + 1)
      .(versions := db.versions[v := db.versions[v].(processing := QUEUED)],
        documents := db.documents[document := db.documents[document].(status := PROCESSING)])
  }

  lemma RetriedRows(db: Db, document: nat, next: Db)
    requires MayRetry(db, document) && next == Next(db, Retry(document))
    ensures var v := db.documents[document].current.value;
      && next.runs == db.runs + [ProcessingRun(v, RunsOf(db.runs, v) + 1)]
      && next.outbox == db.outbox + [OutboxEvent(|db.runs|, v)]
  {
  }

  function Run(db: Db, steps: seq<Step>): Db
    decreases |steps|
  {
    if steps == [] then db else Next(Run(db, steps[..|steps| - 1]), steps[|steps| - 1])
  }

  function Empty(limits: Limits): Db {
    Db(limits, [], [], [], [], [])
  }

  // ---------------------------------------------------------------------------------------
  // Moves of sessions and documents
  // ---------------------------------------------------------------------------------------

  /** The statuses a step writes to a session, in order. */
  function Written(db: Db, step: Step, k: nat): seq<SessionStatus>
    requires k < |db.sessions|
  {
    if step.CompleteUpload? && step.session == k then
      match Complete(db, k, step.completion)
      case Moved(statuses) => statuses
      case Accepted(statuses) => if db.sessions[k].document < |db.documents| then statuses else []
      case _ => []
    else if step.CancelUpload? && step.session == k && CanMove(db.sessions[k].status, CANCELLED) then [CANCELLED]
    else []
  }

  /** Every status written to a session follows an edge of the table, and the last one stays. */
  lemma SessionsFollowTheTable(db: Db, step: Step, k: nat)
    requires k < |db.sessions|
    ensures Path([db.sessions[k].status] + Written(db, step, k))
    ensures k < |Next(db, step).sessions|
    ensures Next(db, step).sessions[k].status == Last([db.sessions[k].status] + Written(db, step, k))
  {
  }

  /** Every status of a session over a whole run. */
  function History(db: Db, steps: seq<Step>, k: nat): seq<SessionStatus>
    requires k < |db.sessions|
    decreases |steps|
  {
    if steps == [] then [db.sessions[k].status]
    else
      var front, last := steps[..|steps| - 1], steps[|steps| - 1];
      var before := Run(db, front);
      History(db, front, k) + if k < |before.sessions| then Written(before, last, k) else []
  }

  lemma {:induction false} HistoryIsPath(db: Db, steps: seq<Step>, k: nat)
    requires k < |db.sessions|
    ensures k < |Run(db, steps).sessions|
    ensures var h := History(db, steps, k); h != [] && Path(h) && Last(h) == Run(db, steps).sessions[k].status
    decreases |steps|
  {
    if steps != [] {
      var front, last := steps[..|steps| - 1], steps[|steps| - 1];
      HistoryIsPath(db, front, k);
      var before, h := Run(db, front), History(db, front, k);
      SessionsFollowTheTable(before, last, k);
      var more := Written(before, last, k);
      PathsJoin(h, more);
    }
  }

  lemma PathsJoin(h: seq<SessionStatus>, more: seq<SessionStatus>)
    requires h != [] && Path(h) && Path([h[|h| - 1]] + more)
    ensures Path(h + more) && Last(h + more) == Last([h[|h| - 1]] + more)
  {
    var j, tail := h + more, [h[|h| - 1]] + more;
    forall i | 0 < i < |j|
      ensures CanMove(j[i - 1], j[i])
    {
      if i >= |h| {
        assert CanMove(tail[i - |h|], tail[i - |h| + 1]);
      }
    }
  }

  /** So over any run a session makes at most four moves, and terminal statuses are final. */
  lemma SessionsMoveAtMostFourTimes(db: Db, steps: seq<Step>, k: nat)
    requires k < |db.sessions|
    ensures |History(db, steps, k)| <= 5
    ensures Terminal(db.sessions[k].status) ==> History(db, steps, k) == [db.sessions[k].status]
  {
    HistoryIsPath(db, steps, k);
    AtMostFourMoves(History(db, steps, k));
    HistoryStarts(db, steps, k);
  }

  lemma {:induction false} HistoryStarts(db: Db, steps: seq<Step>, k: nat)
    requires k < |db.sessions|
    ensures History(db, steps, k) != [] && History(db, steps, k)[0] == db.sessions[k].status
    decreases |steps|
  {
    if steps != [] {
      HistoryStarts(db, steps[..|steps| - 1], k);
    }
  }

  /** The service moves documents along the table; only the worker is not bound by it. */
  lemma DocumentsFollowTheTable(db: Db, step: Step, d: nat)
    requires d < |db.documents| && !step.Worker?
    ensures d < |Next(db, step).documents|
    ensures var from, next := db.documents[d].status, Next(db, step).documents[d].status;
      from == next || CanMoveDocument(from, next)
  {
  }

  // ---------------------------------------------------------------------------------------
  // Safety
  // ---------------------------------------------------------------------------------------

  /** Each processing run has exactly one event, with its id and its version. */
  ghost predicate OneEventEach(db: Db) {
    && |db.outbox| == |db.runs|
    && forall i :: 0 <= i < |db.runs| ==>
      db.outbox[i] == OutboxEvent(i, db.runs[i].version) && db.runs[i].version < |db.versions|
  }

  /** The runs of each version are numbered 1, 2, 3 and so on. */
  ghost predicate RunsNumbered(rs: seq<ProcessingRun>) {
    forall i :: 0 <= i < |rs| ==> rs[i].attempt == RunsOf(rs[..i], rs[i].version) + 1
  }

  /**
   A session is accepted exactly if it names a version; that version is its own document's, and the
   document is in its project.  What it announces is not empty.
   */
  predicate SessionOk(db: Db, k: nat)
    requires k < |db.sessions|
  {
    var s := db.sessions[k];
    && (s.status == ACCEPTED <==> s.version.Some?)
    && s.document < |db.documents|
    && (s.version.Some? ==> s.version.value < |db.versions| && db.versions[s.version.value].document == s.document)
    && s.status !in {INITIATED, UPLOADED}
    && s.declaredSize > 0 && db.documents[s.document].project == s.project
  }

  predicate SameKey(s: Session, t: Session) {
    s.user == t.user && s.key.Some? && s.key == t.key
  }

  /** No two sessions share a version, a document, or an idempotency key of one user. */
  ghost predicate SessionsApart(db: Db) {
    && (forall i, j :: 0 <= i < j < |db.sessions| ==> db.sessions[i].document != db.sessions[j].document)
    && (forall i, j :: 0 <= i < j < |db.sessions| ==> !SameKey(db.sessions[i], db.sessions[j]))
  }

  predicate DocumentOk(db: Db, d: nat)
    requires d < |db.documents|
  {
    db.documents[d].current.Some? ==> db.documents[d].current.value < |db.versions|
  }

  /** Every version belongs to a document, and to its project. */
  ghost predicate VersionsOk(db: Db) {
    forall v :: 0 <= v < |db.versions| ==>
      db.versions[v].document < |db.documents|
        && db.documents[db.versions[v].document].project == db.versions[v].project
  }

  ghost predicate Safe(db: Db) {
    && OneEventEach(db) && RunsNumbered(db.runs) && SessionsApart(db)
    && (forall k :: 0 <= k < |db.sessions| ==> SessionOk(db, k))
    && (forall d :: 0 <= d < |db.documents| ==> DocumentOk(db, d))
    && VersionsOk(db)
  }

  lemma RunAdded(rs: seq<ProcessingRun>, version: nat, attempt: nat)
    requires RunsNumbered(rs) && attempt == RunsOf(rs, version) + 1
    ensures RunsNumbered(rs + [ProcessingRun(version, attempt)])
  {
    var after := rs + [ProcessingRun(version, attempt)];
    forall i | 0 <= i < |after|
      ensures after[i].attempt == RunsOf(after[..i], after[i].version) + 1
    {
      if i < |rs| {
        assert after[..i] == rs[..i];
      } else {
        assert after[..i] == rs;
      }
    }
  }

  lemma {:induction false} NoRunsYet(rs: seq<ProcessingRun>, version: nat)
    requires forall i :: 0 <= i < |rs| ==> rs[i].version < version
    ensures RunsOf(rs, version) == 0
    decreases |rs|
  {
    if rs != [] {
      NoRunsYet(rs[..|rs| - 1], version);
    }
  }

  /** A run for a version that has not had one: its first attempt. */
  lemma FirstRun(db: Db, grown: Db)
    requires OneEventEach(db) && RunsNumbered(db.runs)
    requires grown.runs == db.runs && grown.outbox == db.outbox && |grown.versions| == |db.versions| + 1
    ensures OneEventEach(WithRun(grown, |db.versions|, 1)) && RunsNumbered(WithRun(grown, |db.versions|, 1).runs)
  {
    NoRunsYet(db.runs, |db.versions|);
    RunAdded(db.runs, |db.versions|, 1);
  }

  lemma SessionsKept(db: Db, after: Db)
    requires Safe(db) && after.sessions == db.sessions && |after.documents| >= |db.documents|
    requires |after.versions| >= |db.versions|
    requires forall v :: 0 <= v < |db.versions| ==> after.versions[v].document == db.versions[v].document
    requires forall d :: 0 <= d < |db.documents| ==> after.documents[d].project == db.documents[d].project
    ensures forall k :: 0 <= k < |after.sessions| ==> SessionOk(after, k)
    ensures SessionsApart(after)
  {
    forall k | 0 <= k < |after.sessions|
      ensures SessionOk(after, k)
    {
      assert SessionOk(db, k);
    }
  }

  lemma InitiateSafe(db: Db, step: Step)
    requires Safe(db) && step.Initiate?
    ensures Safe(Next(db, step))
  {
    var after := Next(db, step);
    if after != db {
      forall k | 0 <= k < |after.sessions|
        ensures SessionOk(after, k)
      {
        assert k < |db.sessions| ==> SessionOk(db, k);
      }
      forall d | 0 <= d < |after.documents|
        ensures DocumentOk(after, d)
      {
        assert d < |db.documents| ==> DocumentOk(db, d);
      }
      forall i | 0 <= i < |db.sessions|
        ensures after.sessions[i].document != |db.documents|
      {
        assert SessionOk(db, i);
      }
    }
  }

  lemma MoveSafe(db: Db, k: nat, status: SessionStatus)
    requires Safe(db) && k < |db.sessions| && db.sessions[k].status != ACCEPTED
    requires status != ACCEPTED && status != INITIATED && status != UPLOADED
    ensures Safe(WithStatus(db, k, status))
  {
    var after := WithStatus(db, k, status);
    forall i | 0 <= i < |after.sessions|
      ensures SessionOk(after, i)
    {
      assert SessionOk(db, i);
    }
    forall d | 0 <= d < |after.documents|
      ensures DocumentOk(after, d)
    {
      assert DocumentOk(db, d);
    }
  }

  lemma VersionSafe(db: Db, document: nat, digest: nat)
    requires Safe(db) && document < |db.documents|
    ensures Safe(WithRun(WithVersion(db, document, digest), |db.versions|, 1))
  {
    var grown := WithVersion(db, document, digest);
    var after := WithRun(grown, |db.versions|, 1);
    FirstRun(db, grown);
    SessionsKept(db, after);
    forall d | 0 <= d < |after.documents|
      ensures DocumentOk(after, d)
    {
      assert DocumentOk(db, d);
    }
  }

  lemma AcceptSafe(db: Db, k: nat, digest: nat)
    requires Safe(db) && k < |db.sessions| && db.sessions[k].document < |db.documents|
    ensures Safe(Accept(db, k, digest))
  {
    var s := db.sessions[k];
    var mid, after := WithRun(WithVersion(db, s.document, digest), |db.versions|, 1), Accept(db, k, digest);
    VersionSafe(db, s.document, digest);
    forall i | 0 <= i < |after.sessions|
      ensures SessionOk(after, i)
    {
      assert SessionOk(mid, i);
    }
    forall d | 0 <= d < |after.documents|
      ensures DocumentOk(after, d)
    {
      assert DocumentOk(mid, d);
    }
  }

  lemma CompleteSafe(db: Db, k: nat, c: Completion)
    requires Safe(db)
    ensures Safe(Next(db, CompleteUpload(k, c)))
  {
    if k < |db.sessions| {
      assert SessionOk(db, k);
      match Complete(db, k, c)
      case Moved(statuses) => MoveSafe(db, k, statuses[|statuses| - 1]);
      case Accepted(_) => AcceptSafe(db, k, c.digest);
      case _ =>
    }
  }

  lemma EventAdded(db: Db, version: nat, attempt: nat, after: Db)
    requires OneEventEach(db) && version < |db.versions| == |after.versions|
    requires after.runs == db.runs + [ProcessingRun(version, attempt)]
    requires after.outbox == db.outbox + [OutboxEvent(|db.runs|, version)]
    ensures OneEventEach(after)
  {
  }

  lemma VersionsKept(db: Db, after: Db)
    requires VersionsOk(db) && |after.versions| == |db.versions| && |after.documents| == |db.documents|
    requires forall v :: 0 <= v < |db.versions| ==>
      after.versions[v].document == db.versions[v].document && after.versions[v].project == db.versions[v].project
    requires forall d :: 0 <= d < |db.documents| ==> after.documents[d].project == db.documents[d].project
    ensures VersionsOk(after)
  {
  }

  lemma RetrySafe(db: Db, document: nat)
    requires Safe(db) && MayRetry(db, document)
    ensures Safe(Retried(db, document))
  {
    var v, after := db.documents[document].current.value, Retried(db, document);
    RetriedRows(db, document, after);
    RunAdded(db.runs, v, RunsOf(db.runs, v) + 1);
    EventAdded(db, v, RunsOf(db.runs, v) + 1, after);
    SessionsKept(db, after);
    VersionsKept(db, after);
    forall d | 0 <= d < |after.documents|
      ensures DocumentOk(after, d)
    {
      assert DocumentOk(db, d);
    }
  }

  lemma ImportSafe(db: Db, project: nat, digest: nat)
    requires Safe(db)
    ensures Safe(Next(db, Import(project, digest)))
  {
    var grown := db.(documents := db.documents + [Document(project, QUARANTINED, None)]);
    SessionsKept(db, grown);
    assert VersionsOk(grown);
    forall d | 0 <= d < |grown.documents|
      ensures DocumentOk(grown, d)
    {
      assert d < |db.documents| ==> DocumentOk(db, d);
    }
    VersionSafe(grown, |db.documents|, digest);
  }

  lemma ElsewhereSafe(db: Db, step: Step)
    requires Safe(db) && (step.Archive? || step.Worker?)
    ensures Safe(Next(db, step))
  {
    var after := Next(db, step);
    SessionsKept(db, after);
    forall d | 0 <= d < |after.documents|
      ensures DocumentOk(after, d)
    {
      assert DocumentOk(db, d);
    }
  }

  lemma {:induction false} RunsAreSafe(limits: Limits, steps: seq<Step>)
    ensures Safe(Run(Empty(limits), steps))
    decreases |steps|
  {
    if steps != [] {
      var front, last := steps[..|steps| - 1], steps[|steps| - 1];
      RunsAreSafe(limits, front);
      StepSafe(Run(Empty(limits), front), last);
    }
  }

  lemma StepSafe(db: Db, step: Step)
    requires Safe(db)
    ensures Safe(Next(db, step))
  {
    match step
    case Initiate(_, _, _, _, _, _, _, _) => InitiateSafe(db, step);
    case CompleteUpload(k, c) => CompleteSafe(db, k, c);
    case CancelUpload(k) => {
      if k < |db.sessions| && CanMove(db.sessions[k].status, CANCELLED) {
        MoveSafe(db, k, CANCELLED);
      }
    }
    case Retry(document) => {
      if MayRetry(db, document) {
        RetrySafe(db, document);
      }
    }
    case Import(project, digest) => ImportSafe(db, project, digest);
    case _ => ElsewhereSafe(db, step);
  }

  /** In every reachable state: one event per run, with its id and version. */
  lemma EveryRunHasItsEvent(limits: Limits, steps: seq<Step>, i: nat)
    requires i < |Run(Empty(limits), steps).runs|
    ensures var db := Run(Empty(limits), steps);
      && (forall j :: 0 <= j < |db.outbox| ==> (db.outbox[j].run == i <==> j == i))
      && i < |db.outbox| && db.outbox[i].version == db.runs[i].version
  {
    RunsAreSafe(limits, steps);
  }

  /** In every reachable state a session is accepted exactly if it names a version, its own. */
  lemma AcceptedNamesItsVersion(limits: Limits, steps: seq<Step>, i: nat, j: nat)
    requires i < |Run(Empty(limits), steps).sessions| && j < |Run(Empty(limits), steps).sessions|
    ensures var db := Run(Empty(limits), steps);
      && (db.sessions[i].status == ACCEPTED <==> db.sessions[i].version.Some?)
      && (i != j && db.sessions[i].version.Some? ==> db.sessions[i].version != db.sessions[j].version)
  {
    RunsAreSafe(limits, steps);
    var db := Run(Empty(limits), steps);
    assert SessionOk(db, i) && SessionOk(db, j);
  }

  /** Completing an accepted session again creates nothing and changes nothing. */
  lemma CompletingAgainChangesNothing(db: Db, k: nat, c: Completion)
    requires Safe(db) && k < |db.sessions| && db.sessions[k].status == ACCEPTED
    ensures Complete(db, k, c) == Replayed && Next(db, CompleteUpload(k, c)) == db
  {
    assert SessionOk(db, k);
  }

  // ---------------------------------------------------------------------------------------
  // Sessions that are left validating
  // ---------------------------------------------------------------------------------------

  /** The stored object is what was announced, and all checks before the search for duplicates pass. */
  predicate PassesChecks(s: Session, c: Completion) {
    && s.status == UPLOAD_AUTHORIZED && c.now <= s.expiresAt
    && c.stored == Some(s.declaredSize) && s.declaredSize > 0 && c.readable
    && (s.expectedDigest.Some? ==> s.expectedDigest.value == c.digest)
    && (c.clientDigest.Some? ==> c.clientDigest.value == c.digest)
    && c.magicOk
  }

  /** Only a wrong client checksum stands in the way. */
  predicate OnlyClientDiffers(s: Session, c: Completion) {
    && s.status == UPLOAD_AUTHORIZED && c.now <= s.expiresAt && c.stored == Some(s.declaredSize) && c.readable
    && (s.expectedDigest.Some? ==> s.expectedDigest.value == c.digest)
    && c.clientDigest.Some? && c.clientDigest.value != c.digest
  }

  /** When completing leaves a session validating. */
  predicate LeavesValidating(db: Db, k: nat, c: Completion)
    requires k < |db.sessions|
  {
    var s := db.sessions[k];
    || OnlyClientDiffers(s, c)
    || (PassesChecks(s, c) && c.decision == Undecided && IsDuplicate(db.versions, s.project, c.digest))
  }

  /** An empty object is refused for its size: the test for zero bytes behind that is never reached. */
  lemma EmptyUploadsAreRejected(db: Db, k: nat, c: Completion)
    requires Safe(db) && k < |db.sessions| && c.stored == Some(0)
    ensures Complete(db, k, c) != Moved([UPLOADED, VALIDATING])
    ensures db.sessions[k].status == UPLOAD_AUTHORIZED && c.now <= db.sessions[k].expiresAt ==>
      Complete(db, k, c) == Moved([UPLOADED, VALIDATING, SESSION_REJECTED])
  {
    assert SessionOk(db, k);
    var path := [UPLOADED, VALIDATING, SESSION_REJECTED];
    assert |path| == 3;
  }

  lemma ValidatingArises(db: Db, k: nat, step: Step)
    requires Safe(db) && k < |db.sessions| && db.sessions[k].status != VALIDATING
    ensures k < |Next(db, step).sessions|
    ensures Next(db, step).sessions[k].status == VALIDATING <==>
      step.CompleteUpload? && step.session == k && LeavesValidating(db, k, step.completion)
  {
    assert SessionOk(db, k);
  }

  /** It stays so: no step of the service moves it, and it keeps counting as active. */
  lemma ValidatingStays(db: Db, step: Step, k: nat)
    requires k < |db.sessions| && db.sessions[k].status == VALIDATING
    ensures k < |Next(db, step).sessions| && Next(db, step).sessions[k] == db.sessions[k] && Active(db.sessions[k])
    ensures forall c :: Complete(db, k, c) == RolledBack
  {
  }

  lemma {:induction false} ValidatingForever(db: Db, steps: seq<Step>, k: nat)
    requires k < |db.sessions| && db.sessions[k].status == VALIDATING
    ensures k < |Run(db, steps).sessions| && Run(db, steps).sessions[k] == db.sessions[k]
    decreases |steps|
  {
    if steps != [] {
      ValidatingForever(db, steps[..|steps| - 1], k);
      ValidatingStays(Run(db, steps[..|steps| - 1]), steps[|steps| - 1], k);
    }
  }

  /**
   Cancelling a duplicate while completing it never succeeds: the table has no such edge, so the
   guard throws and the upload is neither cancelled nor accepted.
   */
  lemma CancellingDuplicatesFails(db: Db, k: nat, c: Completion)
    requires k < |db.sessions| && IsDuplicate(db.versions, db.sessions[k].project, c.digest) && c.decision == Cancel
    ensures !Complete(db, k, c).Accepted?
    ensures Complete(db, k, c).Moved? ==> CANCELLED !in Complete(db, k, c).statuses
    ensures PassesChecks(db.sessions[k], c) ==> Complete(db, k, c) == RolledBack
  {
  }

  /** The versions of one project. */
  function OfProject(vs: seq<Version>, project: nat): seq<Version>
    decreases |vs|
  {
    if vs == [] then []
    else OfProject(vs[..|vs| - 1], project) + if vs[|vs| - 1].project == project then [vs[|vs| - 1]] else []
  }

  /** A version of another project never counts as a duplicate. */
  lemma {:induction false} OtherProjectsDoNotCount(vs: seq<Version>, project: nat, digest: nat)
    ensures IsDuplicate(vs, project, digest) <==> IsDuplicate(OfProject(vs, project), project, digest)
    decreases |vs|
  {
    if vs != [] {
      var front, last := vs[..|vs| - 1], vs[|vs| - 1];
      OtherProjectsDoNotCount(front, project, digest);
      DuplicateInFront(front, last, project, digest);
      assert vs == front + [last];
      if last.project == project {
        DuplicateInFront(OfProject(front, project), last, project, digest);
      } else {
        assert OfProject(vs, project) == OfProject(front, project);
      }
    }
  }

  lemma DuplicateInFront(front: seq<Version>, last: Version, project: nat, digest: nat)
    ensures IsDuplicate(front + [last], project, digest) <==>
      IsDuplicate(front, project, digest) || Duplicates(last, project, digest)
  {
    var vs := front + [last];
    if IsDuplicate(front, project, digest) {
      var i :| 0 <= i < |front| && Duplicates(front[i], project, digest);
      assert Duplicates(vs[i], project, digest);
    }
    if Duplicates(last, project, digest) {
      assert Duplicates(vs[|front|], project, digest);
    }
  }

  /** So content that only other projects have accepted is accepted, whatever the decision. */
  lemma SameContentElsewhereIsAccepted(db: Db, k: nat, c: Completion)
    requires Safe(db) && k < |db.sessions| && PassesChecks(db.sessions[k], c)
    requires forall i :: 0 <= i < |db.versions| && db.versions[i].digest == c.digest && db.versions[i].accepted ==>
      db.versions[i].project != db.sessions[k].project
    requires db.sessions[k].document < |db.documents|
    requires CanMoveDocument(db.documents[db.sessions[k].document].status, QUARANTINED)
    ensures Complete(db, k, c).Accepted?
    ensures Next(db, CompleteUpload(k, c)).sessions[k].status == ACCEPTED
  {
    assert SessionOk(db, k);
  }

  function ValidatingOfUser(ss: seq<Session>, user: nat): nat
    decreases |ss|
  {
    if ss == [] then 0
    else
      var last, rest := ss[|ss| - 1], ValidatingOfUser(ss[..|ss| - 1], user);
      rest + if last.user == user && last.status == VALIDATING then 1 else 0
  }

  lemma {:induction false} ValidatingIsActive(ss: seq<Session>, user: nat)
    ensures ValidatingOfUser(ss, user) <= ActiveOfUser(ss, user)
    decreases |ss|
  {
    if ss != [] {
      ValidatingIsActive(ss[..|ss| - 1], user);
    }
  }

  lemma {:induction false} ValidatingGrows(ss: seq<Session>, tt: seq<Session>, user: nat)
    requires |ss| <= |tt| && forall i :: 0 <= i < |ss| && ss[i].status == VALIDATING ==> tt[i] == ss[i]
    ensures ValidatingOfUser(ss, user) <= ValidatingOfUser(tt, user)
    decreases |tt|
  {
    if |ss| < |tt| {
      ValidatingGrows(ss, tt[..|tt| - 1], user);
    } else if ss != [] {
      ValidatingGrows(ss[..|ss| - 1], tt[..|tt| - 1], user);
    }
  }

  /** A user with as many sessions left validating as the limit can never start an upload again. */
  lemma QuotaIsUsedUp(db: Db, steps: seq<Step>, step: Step)
    requires step.Initiate? && ValidatingOfUser(db.sessions, step.user) >= db.limits.perUser
    ensures Next(Run(db, steps), step) == Run(db, steps) && !MayInitiate(Run(db, steps), step)
  {
    var later := Run(db, steps);
    SessionsStay(db, steps);
    forall k | 0 <= k < |db.sessions| && db.sessions[k].status == VALIDATING
      ensures later.sessions[k] == db.sessions[k]
    {
      ValidatingForever(db, steps, k);
    }
    ValidatingGrows(db.sessions, later.sessions, step.user);
    ValidatingIsActive(later.sessions, step.user);
  }

  lemma {:induction false} SessionsStay(db: Db, steps: seq<Step>)
    ensures |Run(db, steps).sessions| >= |db.sessions| && Run(db, steps).limits == db.limits
    decreases |steps|
  {
    if steps != [] {
      SessionsStay(db, steps[..|steps| - 1]);
    }
  }

  // ---------------------------------------------------------------------------------------
  // Quotas
  // ---------------------------------------------------------------------------------------

  /** No session becomes active again, and none changes hands. */
  predicate NoneRevived(ss: seq<Session>, tt: seq<Session>) {
    && |ss| == |tt|
    && forall i :: 0 <= i < |ss| ==>
         tt[i].user == ss[i].user && tt[i].project == ss[i].project && (Active(tt[i]) ==> Active(ss[i]))
  }

  lemma {:induction false} ActiveShrinks(ss: seq<Session>, tt: seq<Session>, user: nat, project: nat)
    requires NoneRevived(ss, tt)
    ensures ActiveOfUser(tt, user) <= ActiveOfUser(ss, user)
    ensures ActiveOfProject(tt, project) <= ActiveOfProject(ss, project)
    decreases |ss|
  {
    if ss != [] {
      ActiveShrinks(ss[..|ss| - 1], tt[..|tt| - 1], user, project);
    }
  }

  lemma SessionAdded(ss: seq<Session>, s: Session, user: nat, project: nat)
    ensures ActiveOfUser(ss + [s], user) == ActiveOfUser(ss, user) + if s.user == user && Active(s) then 1 else 0
    ensures ActiveOfProject(ss + [s], project)
      == ActiveOfProject(ss, project) + if s.project == project && Active(s) then 1 else 0
  {
    assert (ss + [s])[..|ss|] == ss;
  }

  predicate WithinQuota(db: Db, user: nat, project: nat) {
    ActiveOfUser(db.sessions, user) <= db.limits.perUser
      && ActiveOfProject(db.sessions, project) <= db.limits.perProject
  }

  lemma StepKeepsQuota(db: Db, step: Step, user: nat, project: nat)
    requires WithinQuota(db, user, project)
    ensures WithinQuota(Next(db, step), user, project)
  {
    var after := Next(db, step);
    if step.Initiate? && after != db {
      SessionAdded(db.sessions, after.sessions[|db.sessions|], user, project);
    } else {
      ActiveShrinks(db.sessions, after.sessions, user, project);
    }
  }

  /** Over every run no user and no project has more active sessions than the limits allow. */
  lemma {:induction false} RunsKeepQuota(limits: Limits, steps: seq<Step>, user: nat, project: nat)
    ensures var ss := Run(Empty(limits), steps).sessions;
      && WithinQuota(Run(Empty(limits), steps), user, project)
      && ActiveOfUser(ss, user) <= limits.perUser && ActiveOfProject(ss, project) <= limits.perProject
    decreases |steps|
  {
    SessionsStay(Empty(limits), steps);
    if steps != [] {
      var front := steps[..|steps| - 1];
      RunsKeepQuota(limits, front, user, project);
      StepKeepsQuota(Run(Empty(limits), front), steps[|steps| - 1], user, project);
    }
  }

  // ---------------------------------------------------------------------------------------
  // A run that uses up a quota
  // ---------------------------------------------------------------------------------------

  /** User 0 announces one byte in project 0. */
  function OneByte(): Step {
    Initiate(0, 0, None, 1, None, 0, 60, Admission(false, true, true))
  }

  /** The byte is there, but the client names another checksum. */
  function WrongChecksum(): Completion {
    Completion(0, Some(1), true, 7, Some(8), true, Undecided)
  }

  /** `n` uploads of user 0, each completed with a wrong client checksum. */
  function WrongUploads(n: nat): seq<Step>
    decreases n
  {
    if n == 0 then [] else WrongUploads(n - 1) + [OneByte(), CompleteUpload(n - 1, WrongChecksum())]
  }

  lemma RunTwo(db: Db, steps: seq<Step>, a: Step, b: Step)
    ensures Run(db, steps + [a, b]) == Next(Next(Run(db, steps), a), b)
  {
    var all := steps + [a, b];
    assert all[..|all| - 1] == steps + [a];
    assert (steps + [a])[..|steps|] == steps;
  }

  /** Nothing but `n` sessions of user 0 in project 0, all left validating. */
  predicate AllValidating(db: Db, n: nat) {
    && |db.sessions| == n && |db.documents| == n && db.versions == []
    && (forall i :: 0 <= i < n ==> db.sessions[i].status == VALIDATING)
    && ValidatingOfUser(db.sessions, 0) == ActiveOfUser(db.sessions, 0) == ActiveOfProject(db.sessions, 0) == n
  }

  lemma OneMoreValidating(db: Db, n: nat, after: Db)
    requires AllValidating(db, n) && n < db.limits.perUser && n < db.limits.perProject && db.limits.maxBytes >= 1
    requires after == Next(Next(db, OneByte()), CompleteUpload(n, WrongChecksum()))
    ensures AllValidating(after, n + 1)
  {
    var begun := Next(db, OneByte());
    assert begun.sessions[n] == Session(0, 0, None, n, 60000, 1, None, UPLOAD_AUTHORIZED, None);
    assert OnlyClientDiffers(begun.sessions[n], WrongChecksum());
    assert Complete(begun, n, WrongChecksum()) == Moved([UPLOADED, VALIDATING]);
    var last := begun.sessions[n].(status := VALIDATING);
    assert after.sessions == db.sessions + [last];
    SessionAdded(db.sessions, last, 0, 0);
    assert after.sessions[..n] == db.sessions;
  }

  lemma WrongUploadsNext(limits: Limits, n: nat, before: Db, after: Db)
    requires before == Run(Empty(limits), WrongUploads(n)) && after == Run(Empty(limits), WrongUploads(n + 1))
    ensures after == Next(Next(before, OneByte()), CompleteUpload(n, WrongChecksum()))
  {
    RunTwo(Empty(limits), WrongUploads(n), OneByte(), CompleteUpload(n, WrongChecksum()));
  }

  lemma OneMoreUpload(limits: Limits, n: nat, before: Db, after: Db)
    requires before == Run(Empty(limits), WrongUploads(n)) && after == Run(Empty(limits), WrongUploads(n + 1))
    requires AllValidating(before, n) && before.limits == limits
    requires n < limits.perUser && n < limits.perProject && limits.maxBytes >= 1
    ensures AllValidating(after, n + 1) && after.limits == limits
  {
    WrongUploadsNext(limits, n, before, after);
    OneMoreValidating(before, n, after);
    SessionsStay(Empty(limits), WrongUploads(n + 1));
  }

  lemma NoUploadsYet(limits: Limits)
    ensures AllValidating(Run(Empty(limits), WrongUploads(0)), 0)
  {
  }

  /** From nothing, `n` wrong uploads leave `n` sessions validating. */
  lemma {:induction false} WrongUploadsStay(limits: Limits, n: nat)
    requires n <= limits.perUser && n <= limits.perProject && limits.maxBytes >= 1
    ensures AllValidating(Run(Empty(limits), WrongUploads(n)), n)
    ensures Run(Empty(limits), WrongUploads(n)).limits == limits
    decreases n
  {
    if n == 0 {
      NoUploadsYet(limits);
    } else {
      var m: nat := n - 1;
      WrongUploadsStay(limits, m);
      OneMoreUpload(limits, m, Run(Empty(limits), WrongUploads(m)), Run(Empty(limits), WrongUploads(n)));
    }
  }

  /** As many of them as a user may have, and no request of that user is ever admitted again. */
  lemma QuotaCanBeUsedUp(limits: Limits, steps: seq<Step>, step: Step, db: Db)
    requires limits.perUser <= limits.perProject && limits.maxBytes >= 1
    requires db == Run(Empty(limits), WrongUploads(limits.perUser)) && step.Initiate? && step.user == 0
    ensures |db.sessions| == limits.perUser
    ensures Next(Run(db, steps), step) == Run(db, steps) && !MayInitiate(Run(db, steps), step)
  {
    WrongUploadsStay(limits, limits.perUser);
    QuotaIsUsedUp(db, steps, step);
  }

  /** The byte is there and in order, with one and the same content each time. */
  function SameByte(decision: Decision): Completion {
    Completion(0, Some(1), true, 7, None, true, decision)
  }

  /** User 0 uploads a byte and completes it. */
  function FirstUpload(): seq<Step> {
    [OneByte(), CompleteUpload(0, SameByte(Undecided))]
  }

  /** The worker accepts it, and the user starts to upload the same again. */
  function SameAgain(): seq<Step> {
    FirstUpload() + [Worker(0, READY, 0, true, false, SUCCEEDED), OneByte()]
  }

  lemma FirstIsCompleted(limits: Limits)
    requires limits.perUser >= 1 && limits.perProject >= 1 && limits.maxBytes >= 1
    ensures var db := Run(Empty(limits), FirstUpload());
      && db.limits == limits && db.documents == [Document(0, QUARANTINED, Some(0))]
      && db.versions == [Version(0, 0, 1, 7, false, false, QUEUED)]
      && |db.sessions| == 1 && db.sessions[0].status == ACCEPTED
  {
    var db := Empty(limits);
    var begun := Next(db, OneByte());
    assert begun.sessions == [Session(0, 0, None, 0, 60000, 1, None, UPLOAD_AUTHORIZED, None)];
    assert begun.documents == [Document(0, UPLOADING, None)] && MaxNumber([], 0) == 0;
    assert Complete(begun, 0, SameByte(Undecided)) == Accepted([UPLOADED, VALIDATING, ACCEPTED]);
    RunTwo(db, [], OneByte(), CompleteUpload(0, SameByte(Undecided)));
    assert [] + FirstUpload() == FirstUpload();
  }

  lemma SessionOpens(db: Db)
    requires |db.sessions| == 1 && db.sessions[0].status == ACCEPTED
    requires db.limits.perUser >= 1 && db.limits.perProject >= 1 && db.limits.maxBytes >= 1
    ensures var s := Session(0, 0, None, |db.documents|, 60000, 1, None, UPLOAD_AUTHORIZED, None);
      && Next(db, OneByte()).sessions == db.sessions + [s] && Next(db, OneByte()).versions == db.versions
      && Next(db, OneByte()).documents == db.documents + [Document(0, UPLOADING, None)]
  {
    assert db.sessions[..0] == [];
    assert ActiveOfUser([], 0) == 0 && ActiveOfProject([], 0) == 0;
    assert ActiveOfUser(db.sessions, 0) == 0;
    assert ActiveOfProject(db.sessions, 0) == ActiveOfProject(db.sessions[..0], 0);
    assert MayInitiate(db, OneByte()) && !Replays(db, OneByte());
  }

  /**
   From nothing: that is a duplicate which passes all checks, and cancelling it fails.  The session is
   still open for the upload, and counts as active.
   */
  lemma CancellingSameAgain(limits: Limits, db: Db)
    requires limits.perUser >= 1 && limits.perProject >= 1 && limits.maxBytes >= 1
    requires db == Run(Empty(limits), SameAgain())
    ensures |db.sessions| == 2 && db.sessions[0].status == ACCEPTED && db.sessions[1].status == UPLOAD_AUTHORIZED
    ensures IsDuplicate(db.versions, 0, 7) && PassesChecks(db.sessions[1], SameByte(Cancel))
    ensures Complete(db, 1, SameByte(Cancel)) == RolledBack
    ensures Run(Empty(limits), SameAgain() + [CompleteUpload(1, SameByte(Cancel))]) == db
  {
    FirstIsCompleted(limits);
    RunTwo(Empty(limits), FirstUpload(), Worker(0, READY, 0, true, false, SUCCEEDED), OneByte());
    SessionOpens(Next(Run(Empty(limits), FirstUpload()), Worker(0, READY, 0, true, false, SUCCEEDED)));
    assert Duplicates(db.versions[0], 0, 7);
    CancellingDuplicatesFails(db, 1, SameByte(Cancel));
    assert (SameAgain() + [CompleteUpload(1, SameByte(Cancel))])[..4] == SameAgain();
  }

  /** Until the worker has accepted it, the same content is no duplicate, and is accepted a second time. */
  lemma NotYetADuplicate(limits: Limits, decision: Decision, db: Db)
    requires limits.perUser >= 1 && limits.perProject >= 1 && limits.maxBytes >= 1
    requires db == Next(Run(Empty(limits), FirstUpload()), OneByte())
    ensures !IsDuplicate(db.versions, 0, 7)
    ensures Complete(db, 1, SameByte(decision)).Accepted?
  {
    FirstIsCompleted(limits);
    SessionOpens(Run(Empty(limits), FirstUpload()));
  }
}
