/**
 The service functions of apps/web/src/server/services/documents.ts, row by row, against the state
 machine of UploadLifecycle.  A thrown error restores what the transaction had written.
 */
module UploadService {
  import opened Results
  import opened StatusTransitions
  import opened UploadLifecycle
  import opened UploadMeaning

  /** The statuses for which a cancellation is answered without doing anything. */
  predicate Over(s: SessionStatus) {
    s in {ACCEPTED, CANCELLED, EXPIRED, SESSION_REJECTED}
  }

  /** The statuses that an answer stands for. */
  function WrittenBy(answer: Answer): seq<SessionStatus> {
    match answer
    case Moved(statuses) => statuses
    case Accepted(statuses) => statuses
    case _ => []
  }

  class Service {
    const limits: Limits
    var sessions: seq<Session>
    var documents: seq<Document>
    var versions: seq<Version>
    var runs: seq<ProcessingRun>
    var outbox: seq<OutboxEvent>

    constructor (limits: Limits)
      ensures Tables() == Empty(limits) && Sound(Tables())
    {
      this.limits := limits;
      sessions, documents, versions, runs, outbox := [], [], [], [], [];
    }

    ghost function Tables(): Db
      reads this
    {
      Db(limits, sessions, documents, versions, runs, outbox)
    }

    method CountActive(user: nat, project: nat) returns (ofUser: nat, ofProject: nat)
      ensures ofUser == ActiveOfUser(sessions, user) && ofProject == ActiveOfProject(sessions, project)
    {
      ofUser, ofProject := 0, 0;
      for i := 0 to |sessions|
        invariant ofUser == ActiveOfUser(sessions[..i], user) && ofProject == ActiveOfProject(sessions[..i], project)
      {
        assert sessions[..i + 1][..i] == sessions[..i];
        var s := sessions[i];
        if Active(s) && s.user == user {
          ofUser := ofUser + 1;
        }
        if Active(s) && s.project == project {
          ofProject := ofProject + 1;
        }
      }
      assert sessions[..|sessions|] == sessions;
    }

    /**
     The session that the caller gets: a new one, or its own earlier one for the same key.  It is
     ready for the upload, and the user is within the quota.
     */
    method InitiateDocumentUpload(user: nat, project: nat, key: Option<nat>, declaredSize: nat,
                                  expectedDigest: Option<nat>, now: int, ttl: nat, admission: Admission)
      returns (session: Option<nat>)
      requires Sound(Tables())
      modifies this`sessions, this`documents
      ensures Sound(Tables())
      ensures Tables()
        == old(Next(Tables(), Initiate(user, project, key, declaredSize, expectedDigest, now, ttl, admission)))
      ensures session.Some? ==>
        && session.value < |sessions|
        && sessions[session.value].user == user && sessions[session.value].status == UPLOAD_AUTHORIZED
        && sessions[session.value].declaredSize > 0
        && (key.Some? ==> sessions[session.value].key == key)
      ensures Started(old(Tables()),
                      Initiate(user, project, key, declaredSize, expectedDigest, now, ttl, admission), Tables())
      ensures session.Some? ==>
        |ActiveByUser(sessions, user)| <= limits.perUser && |ActiveInProject(sessions, project)| <= limits.perProject
      ensures session.Some? <==>
        && MayStart(old(Tables()), user, project, declaredSize, admission)
        && (!KeyIsTaken(old(Tables()), user, key) || OpenUnderKey(old(Tables()), user, key, now))
      ensures session.Some? ==>
        if KeyIsTaken(old(Tables()), user, key) then sessions[session.value].expiresAt > now
        else session.value == old(|sessions|) && sessions[session.value].expiresAt == now + 1000 * ttl
    {
      ghost var step := Initiate(user, project, key, declaredSize, expectedDigest, now, ttl, admission);
      ghost var before := Tables();
      StepSound(before, step);
      StartMeans(before, step);
      StartingMeans(before, step);
      ReplayMeans(before, step);
      if MayInitiate(before, step) {
        StartKeepsQuota(before, step);
      }
      session := InitiateInTransaction(user, project, key, declaredSize, expectedDigest, now, ttl, admission);
      if session.Some? {
        assert SessionOk(Tables(), session.value);
        assert key.Some? ==> HasKey(sessions[session.value], user, key.value);
      }
    }

    method InitiateInTransaction(user: nat, project: nat, key: Option<nat>, declaredSize: nat,
                                 expectedDigest: Option<nat>, now: int, ttl: nat, admission: Admission)
      returns (session: Option<nat>)
      modifies this`sessions, this`documents
      ensures Tables()
        == old(Next(Tables(), Initiate(user, project, key, declaredSize, expectedDigest, now, ttl, admission)))
      ensures session.Some? ==>
        && session.value < |sessions|
        && sessions[session.value].user == user && sessions[session.value].status == UPLOAD_AUTHORIZED
        && (key.Some? ==> sessions[session.value].key == key)
        && (if key.Some? && old(WithKey(sessions, user, key.value)).Some? then
              old(WithKey(sessions, user, key.value)) == session
            else session.value == old(|sessions|))
      ensures var step := Initiate(user, project, key, declaredSize, expectedDigest, now, ttl, admission);
        session.Some? <==>
          && old(MayInitiate(Tables(), step))
          && (key.None? || old(WithKey(sessions, user, key.value)).None? || old(Replays(Tables(), step)))
    {
      if declaredSize == 0 || declaredSize > limits.maxBytes || !admission.fileAllowed {
        return None;
      }
      if admission.projectArchived || !admission.withinRate {
        return None;
      }
      var ofUser, ofProject := CountActive(user, project);
      if ofUser >= limits.perUser || ofProject >= limits.perProject {
        return None;
      }
      if key.Some? {
        var existing := WithKey(sessions, user, key.value);
        if existing.Some? {
          var s := sessions[existing.value];
          if s.status == UPLOAD_AUTHORIZED && s.expiresAt > now {
            return existing;
          }
          return None;
        }
      }
      var document := |documents|;
      documents := documents + [Document(project, UPLOADING, None)];
      sessions := sessions
        + [Session(user, project, key, document, now + ttl * 1000, declaredSize, expectedDigest,
                   UPLOAD_AUTHORIZED, None)];
      return Some(|sessions| - 1);
    }

    method SetStatus(k: nat, status: SessionStatus)
      requires k < |sessions|
      modifies this`sessions
      ensures sessions == old(WithStatus(Tables(), k, status)).sessions
    {
      sessions := sessions[k := sessions[k].(status := status)];
    }

    method WriteOutbox(run: nat, version: nat)
      modifies this`outbox
      ensures outbox == old(outbox) + [OutboxEvent(run, version)]
    {
      outbox := outbox + [OutboxEvent(run, version)];
    }

    method HighestNumber(document: nat) returns (n: nat)
      ensures n == MaxNumber(versions, document)
    {
      n := 0;
      for i := 0 to |versions|
        invariant n == MaxNumber(versions[..i], document)
      {
        assert versions[..i + 1][..i] == versions[..i];
        if versions[i].document == document && versions[i].number > n {
          n := versions[i].number;
        }
      }
      assert versions[..|versions|] == versions;
    }

    /** A version of a document in quarantine, its first run, and the event for it. */
    method CreateVersion(document: nat, digest: nat) returns (version: nat)
      requires document < |documents|
      modifies this`documents, this`versions, this`runs, this`outbox
      ensures version == old(|versions|)
      ensures Tables() == old(WithRun(WithVersion(Tables(), document, digest), |versions|, 1))
    {
      var highest := HighestNumber(document);
      version := |versions|;
      versions := versions
        + [Version(documents[document].project, document, highest + 1, digest, false, false, QUEUED)];
      documents := documents[document := documents[document].(status := QUARANTINED, current := Some(version))];
      var run := |runs|;
      runs := runs + [ProcessingRun(version, 1)];
      WriteOutbox(run, version);
    }

    /** An accepted version of the same project with the same content. */
    method FindDuplicate(project: nat, digest: nat) returns (found: bool)
      ensures found <==> IsDuplicate(versions, project, digest)
    {
      for i := 0 to |versions|
        invariant forall j :: 0 <= j < i ==> !Duplicates(versions[j], project, digest)
      {
        if versions[i].project == project && versions[i].digest == digest && versions[i].accepted {
          return true;
        }
      }
      return false;
    }

    /** The checks behind the size check, on a session that the transaction has set to validating. */
    method ValidateUpload(k: nat, c: Completion, before: seq<Session>) returns (answer: Answer)
      requires k < |before| && sessions == before[k := before[k].(status := VALIDATING)]
      modifies this
      ensures answer == old(Validate(Tables().(sessions := before), before[k], c))
      ensures Tables() == match answer
        case Replayed => old(Tables().(sessions := before))
        case RolledBack => old(Tables().(sessions := before))
        case Moved(statuses) => old(WithStatus(Tables().(sessions := before), k, statuses[|statuses| - 1]))
        case Accepted(_) => old(Accept(Tables().(sessions := before), k, c.digest))
    {
      var s := sessions[k];
      if s.expectedDigest.Some? && s.expectedDigest.value != c.digest {
        SetStatus(k, SESSION_REJECTED);
        return Moved([UPLOADED, VALIDATING, SESSION_REJECTED]);
      }
      if c.clientDigest.Some? && c.clientDigest.value != c.digest {
        return Moved([UPLOADED, VALIDATING]);
      }
      if !c.magicOk {
        SetStatus(k, SESSION_REJECTED);
        return Moved([UPLOADED, VALIDATING, SESSION_REJECTED]);
      }
      var duplicate := FindDuplicate(s.project, c.digest);
      if duplicate && c.decision == Cancel {
        // The table has no edge from VALIDATING to CANCELLED: the guard always throws here.
        sessions := before;
        return RolledBack;
      }
      if duplicate && c.decision == Undecided {
        return Moved([UPLOADED, VALIDATING]);
      }
      if s.document >= |documents| || !CanMoveDocument(documents[s.document].status, QUARANTINED) {
        sessions := before;
        return RolledBack;
      }
      var version := CreateVersion(s.document, c.digest);
      sessions := sessions[k := s.(status := ACCEPTED, version := Some(version))];
      return Accepted([UPLOADED, VALIDATING, ACCEPTED]);
    }

    /**
     Follows the table, and creates a version with one run and its event exactly if it accepts; every
     other answer creates nothing.
     */
    method CompleteDocumentUpload(k: nat, c: Completion) returns (answer: Answer)
      requires Sound(Tables())
      modifies this
      ensures Sound(Tables())
      ensures answer == old(Complete(Tables(), k, c))
      ensures Tables() == old(Next(Tables(), CompleteUpload(k, c)))
      ensures if k < old(|sessions|) then
          Answers(old(Tables()), old(sessions[k]), c, answer) && Completed(old(Tables()), k, c, Tables())
        else answer.RolledBack? && Tables() == old(Tables())
      ensures k < old(|sessions|) ==>
        && k < |sessions|
        && Path([old(sessions[k].status)] + WrittenBy(answer))
        && sessions[k].status == Last([old(sessions[k].status)] + WrittenBy(answer))
      ensures answer.Accepted? ==>
        && k < |sessions|
        && sessions[k].version == Some(old(|versions|)) && |versions| == old(|versions|) + 1
        && runs == old(runs) + [ProcessingRun(old(|versions|), 1)]
        && outbox == old(outbox) + [OutboxEvent(old(|runs|), old(|versions|))]
      ensures !answer.Accepted? ==> versions == old(versions) && runs == old(runs) && outbox == old(outbox)
      ensures answer.RolledBack? || answer.Replayed? ==> Tables() == old(Tables())
    {
      StepSound(Tables(), CompleteUpload(k, c));
      if k < |sessions| {
        assert SessionOk(Tables(), k);
        SessionsFollowTheTable(Tables(), CompleteUpload(k, c), k);
        AnswersMean(Tables(), k, c);
        CompletingMeans(Tables(), k, c);
      }
      answer := CompleteInTransaction(k, c);
    }

    method CompleteInTransaction(k: nat, c: Completion) returns (answer: Answer)
      modifies this
      ensures answer == old(Complete(Tables(), k, c))
      ensures Tables() == old(Next(Tables(), CompleteUpload(k, c)))
    {
      if k >= |sessions| {
        return RolledBack;
      }
      var before, s := sessions, sessions[k];
      if s.status == ACCEPTED && s.version.Some? {
        return Replayed;
      }
      if s.expiresAt < c.now {
        if !CanMove(s.status, EXPIRED) {
          return RolledBack;
        }
        SetStatus(k, EXPIRED);
        return Moved([EXPIRED]);
      }
      if (s.status != UPLOAD_AUTHORIZED && s.status != UPLOADED) || !CanMove(s.status, UPLOADED) {
        return RolledBack;
      }
      SetStatus(k, UPLOADED);
      SetStatus(k, VALIDATING);
      if c.stored.None? {
        SetStatus(k, SESSION_FAILED);
        return Moved([UPLOADED, VALIDATING, SESSION_FAILED]);
      }
      if c.stored.value != s.declaredSize {
        SetStatus(k, SESSION_REJECTED);
        return Moved([UPLOADED, VALIDATING, SESSION_REJECTED]);
      }
      if c.stored.value == 0 {
        return Moved([UPLOADED, VALIDATING]);
      }
      if !c.readable {
        sessions := before;
        return RolledBack;
      }
      answer := ValidateUpload(k, c, before);
    }

    /** Cancels along the table, and answers quietly for sessions that are over. */
    method CancelDocumentUpload(k: nat) returns (ok: bool)
      requires Sound(Tables())
      modifies this`sessions
      ensures Sound(Tables())
      ensures Tables() == old(Next(Tables(), CancelUpload(k)))
      ensures IsCancelled(old(Tables()), k, Tables())
      ensures ok <==>
        && k < |sessions|
        && var status := sessions[k].status;
        (status == ACCEPTED || status == CANCELLED || status == EXPIRED || status == SESSION_REJECTED)
    {
      StepSound(Tables(), CancelUpload(k));
      CancellingMeans(Tables(), k);
      if k >= |sessions| {
        return false;
      }
      if Over(sessions[k].status) {
        return true;
      }
      if !CanMove(sessions[k].status, CANCELLED) {
        return false;
      }
      SetStatus(k, CANCELLED);
      return true;
    }

    method CountRuns(version: nat) returns (n: nat)
      ensures n == RunsOf(runs, version)
    {
      n := 0;
      for i := 0 to |runs|
        invariant n == RunsOf(runs[..i], version)
      {
        assert runs[..i + 1][..i] == runs[..i];
        if runs[i].version == version {
          n := n + 1;
        }
      }
      assert runs[..|runs|] == runs;
    }

    /** A retry is the next numbered run of the current version, with an event of its own. */
    method RetryDocumentProcessing(document: nat) returns (ok: bool)
      requires Sound(Tables())
      modifies this
      ensures Sound(Tables())
      ensures ok <==> old(MayRetry(Tables(), document))
      ensures Tables() == old(Next(Tables(), Retry(document)))
      ensures ok <==> CanRetry(old(Tables()), document)
      ensures if ok then IsRetried(old(Tables()), document, Tables()) else Tables() == old(Tables())
    {
      StepSound(Tables(), Retry(document));
      RetryingMeans(Tables(), document);
      ok := RetryInTransaction(document);
    }

    method RetryInTransaction(document: nat) returns (ok: bool)
      modifies this
      ensures ok <==> old(MayRetry(Tables(), document))
      ensures Tables() == old(Next(Tables(), Retry(document)))
    {
      if document >= |documents| || documents[document].current.None? {
        return false;
      }
      var v := documents[document].current.value;
      if v >= |versions| || versions[v].infected {
        return false;
      }
      if versions[v].processing != PROCESSING_FAILED && versions[v].processing != PARTIALLY_SUCCEEDED {
        return false;
      }
      if !CanMoveDocument(documents[document].status, PROCESSING) {
        return false;
      }
      var prior := CountRuns(v);
      var run := |runs|;
      runs := runs + [ProcessingRun(v, prior + 1)];
      versions := versions[v := versions[v].(processing := QUEUED)];
      documents := documents[document := documents[document].(status := PROCESSING)];
      WriteOutbox(run, v);
      return true;
    }

    method ArchiveDocument(document: nat) returns (ok: bool)
      requires Sound(Tables())
      modifies this`documents
      ensures Sound(Tables())
      ensures Tables() == old(Next(Tables(), Archive(document)))
      ensures IsArchived(old(Tables()), document, Tables())
      ensures ok <==> document < |documents| && documents[document].status == ARCHIVED
    {
      StepSound(Tables(), Archive(document));
      ArchivingMeans(Tables(), document);
      if document >= |documents| {
        return false;
      }
      if documents[document].status == ARCHIVED {
        return true;
      }
      if !CanMoveDocument(documents[document].status, ARCHIVED) {
        return false;
      }
      documents := documents[document := documents[document].(status := ARCHIVED)];
      return true;
    }

    /** A record imported by a connector: a document in quarantine with one version, run and event. */
    method ImportRecordAsDocument(project: nat, digest: nat) returns (version: nat)
      requires Sound(Tables())
      modifies this
      ensures Sound(Tables())
      ensures Tables() == old(Next(Tables(), Import(project, digest)))
      ensures version == old(|versions|) && IsImported(old(Tables()), project, digest, Tables())
    {
      StepSound(Tables(), Import(project, digest));
      ImportingMeans(Tables(), project, digest);
      var document := |documents|;
      documents := documents + [Document(project, QUARANTINED, None)];
      version := CreateVersion(document, digest);
    }
  }
}
