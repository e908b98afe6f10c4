/** The two transition tables of apps/web/src/server/documents/status-transitions.ts. */
module StatusTransitions {

  datatype SessionStatus = INITIATED | UPLOAD_AUTHORIZED | UPLOADED | VALIDATING | ACCEPTED | SESSION_REJECTED | EXPIRED
    | CANCELLED | SESSION_FAILED

  datatype DocumentStatus = UPLOADING | RECEIVED | QUARANTINED | PROCESSING | READY | PARTIALLY_PROCESSED | FAILED
    | REJECTED | SUPERSEDED | ARCHIVED

  predicate CanMove(from: SessionStatus, next: SessionStatus) {
    match from
    case INITIATED => next in {UPLOAD_AUTHORIZED, CANCELLED, SESSION_FAILED, EXPIRED}
    case UPLOAD_AUTHORIZED => next in {UPLOADED, CANCELLED, SESSION_FAILED, EXPIRED}
    case UPLOADED => next in {VALIDATING, SESSION_FAILED, EXPIRED}
    case VALIDATING => next in {ACCEPTED, SESSION_REJECTED, SESSION_FAILED}
    case _ => false
  }

  predicate CanMoveDocument(from: DocumentStatus, next: DocumentStatus) {
    match from
    case UPLOADING => next in {RECEIVED, QUARANTINED, REJECTED, FAILED}
    case RECEIVED => next in {QUARANTINED, PROCESSING, REJECTED, FAILED}
    case QUARANTINED => next in {PROCESSING, REJECTED, FAILED}
    case PROCESSING => next in {READY, PARTIALLY_PROCESSED, FAILED}
    case READY => next in {SUPERSEDED, ARCHIVED}
    case PARTIALLY_PROCESSED => next in {READY, PROCESSING, FAILED, ARCHIVED}
    case FAILED => next in {PROCESSING, ARCHIVED, REJECTED}
    case REJECTED => next == ARCHIVED
    case SUPERSEDED => next == ARCHIVED
    case ARCHIVED => false
  }

  /** How far a session has come. */
  function Rank(s: SessionStatus): nat {
    match s
    case INITIATED => 0
    case UPLOAD_AUTHORIZED => 1
    case UPLOADED => 2
    case VALIDATING => 3
    case _ => 4
  }

  predicate Terminal(s: SessionStatus) {
    Rank(s) == 4
  }

  function Last(h: seq<SessionStatus>): SessionStatus
    requires h != []
  {
    h[|h| - 1]
  }

  /** The statuses of a session one after the other, each move an edge of the table. */
  predicate Path(ss: seq<SessionStatus>) {
    forall i :: 0 < i < |ss| ==> CanMove(ss[i - 1], ss[i])
  }

  lemma EdgesRise(a: SessionStatus, b: SessionStatus)
    requires CanMove(a, b)
    ensures Rank(a) < Rank(b) <= 4
  {
  }

  lemma {:induction false} PathsRise(ss: seq<SessionStatus>)
    requires Path(ss) && ss != []
    ensures Rank(ss[0]) + |ss| - 1 <= Rank(ss[|ss| - 1])
    decreases |ss|
  {
    if |ss| > 1 {
      var n := |ss| - 1;
      PathsRise(ss[..n]);
      EdgesRise(ss[n - 1], ss[n]);
    }
  }

  /** A session makes at most four moves, and none from a terminal status. */
  lemma AtMostFourMoves(ss: seq<SessionStatus>)
    requires Path(ss)
    ensures |ss| <= 5
    ensures forall i :: 0 <= i < |ss| && Terminal(ss[i]) ==> i == |ss| - 1
  {
    if ss != [] {
      PathsRise(ss);
      forall i | 0 <= i < |ss| - 1
        ensures !Terminal(ss[i])
      {
        assert CanMove(ss[i], ss[i + 1]);
      }
    }
  }

  /** A status is terminal exactly if no move leads out of it. */
  lemma TerminalMeans(s: SessionStatus)
    ensures Terminal(s) <==> forall next :: !CanMove(s, next)
  {
    if !Terminal(s) {
      assert CanMove(s, SESSION_FAILED);
    }
  }

  /** There is one way from the first status to acceptance, and it leaves nothing out. */
  lemma OneWayToAcceptance(ss: seq<SessionStatus>)
    requires ss != [] && ss[0] == INITIATED && ss[|ss| - 1] == ACCEPTED
    ensures Path(ss) <==> ss == [INITIATED, UPLOAD_AUTHORIZED, UPLOADED, VALIDATING, ACCEPTED]
  {
    if Path(ss) {
      AtMostFourMoves(ss);
      assert forall i :: 0 < i < |ss| ==> CanMove(ss[i - 1], ss[i]);
      assert |ss| > 1 && CanMove(ss[0], ss[1]) && !Terminal(ss[1]);
      assert |ss| > 2 && CanMove(ss[1], ss[2]) && !Terminal(ss[2]);
      assert |ss| > 3 && CanMove(ss[2], ss[3]) && !Terminal(ss[3]);
    }
  }

  /** From where each status of a document is entered; nothing leads back to UPLOADING. */
  lemma EnteredFrom(s: DocumentStatus)
    ensures !CanMoveDocument(s, UPLOADING)
    ensures CanMoveDocument(s, RECEIVED) <==> s == UPLOADING
    ensures CanMoveDocument(s, QUARANTINED) <==> s in {UPLOADING, RECEIVED}
    ensures CanMoveDocument(s, PROCESSING) <==> s in {RECEIVED, QUARANTINED, PARTIALLY_PROCESSED, FAILED}
    ensures CanMoveDocument(s, READY) <==> s in {PROCESSING, PARTIALLY_PROCESSED}
    ensures CanMoveDocument(s, PARTIALLY_PROCESSED) <==> s == PROCESSING
    ensures CanMoveDocument(s, FAILED) <==> s in {UPLOADING, RECEIVED, QUARANTINED, PROCESSING, PARTIALLY_PROCESSED}
    ensures CanMoveDocument(s, REJECTED) <==> s in {UPLOADING, RECEIVED, QUARANTINED, FAILED}
    ensures CanMoveDocument(s, SUPERSEDED) <==> s == READY
    ensures CanMoveDocument(s, ARCHIVED) <==> s in {READY, PARTIALLY_PROCESSED, FAILED, REJECTED, SUPERSEDED}
  {
  }

  /** A document is final exactly in ARCHIVED; every other status can still reach it. */
  lemma EveryDocumentCanBeArchived(s: DocumentStatus) returns (ss: seq<DocumentStatus>)
    ensures |ss| > 0 && ss[0] == s && ss[|ss| - 1] == ARCHIVED
    ensures forall i :: 0 < i < |ss| ==> CanMoveDocument(ss[i - 1], ss[i])
    ensures |ss| == 1 <==> s == ARCHIVED
  {
    ss := match s
      case ARCHIVED => [ARCHIVED]
      case READY | PARTIALLY_PROCESSED | FAILED | REJECTED | SUPERSEDED => [s, ARCHIVED]
      case _ => [s, FAILED, ARCHIVED];
  }
}
