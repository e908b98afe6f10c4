/**
 What the steps of DeadlineLifecycle do to the tables, row by row: who may take them, and what is
 different afterwards.
 */
module DeadlineMeaning {
  import opened Results
  import opened DeadlineLifecycle

  // ---------------------------------------------------------------------------------------
  // Versions
  // ---------------------------------------------------------------------------------------

  /** The calculations for an event and an assessment. */
  ghost function CalculationsFor(cs: seq<Calculation>, event: nat, assessment: nat): set<nat> {
    set i: nat | i < |cs| && cs[i].event == event && cs[i].assessment == assessment
  }

  /** The calculations for each event and assessment are numbered 1, 2, 3 and so on. */
  ghost predicate VersionsNumbered(cs: seq<Calculation>) {
    forall i :: 0 <= i < |cs| ==> cs[i].version == |CalculationsFor(cs[..i], cs[i].event, cs[i].assessment)| + 1
  }

  lemma OneCalculationMore(cs: seq<Calculation>, c: Calculation, event: nat, assessment: nat)
    ensures var mine := c.event == event && c.assessment == assessment;
      && CalculationsFor(cs + [c], event, assessment)
        == CalculationsFor(cs, event, assessment) + (if mine then {|cs|} else {})
      && |CalculationsFor(cs + [c], event, assessment)|
        == |CalculationsFor(cs, event, assessment)| + if mine then 1 else 0
  {
  }

  lemma NumberedInFront(cs: seq<Calculation>, n: nat)
    requires VersionsNumbered(cs) && n <= |cs|
    ensures VersionsNumbered(cs[..n])
  {
    forall i | 0 <= i < n
      ensures cs[..n][i].version == |CalculationsFor(cs[..n][..i], cs[..n][i].event, cs[..n][i].assessment)| + 1
    {
      assert cs[..n][..i] == cs[..i];
    }
  }

  lemma {:induction false} HighestIsCount(cs: seq<Calculation>, event: nat, assessment: nat)
    requires VersionsNumbered(cs)
    ensures MaxVersion(cs, event, assessment) == |CalculationsFor(cs, event, assessment)|
    decreases |cs|
  {
    if cs != [] {
      var front, last := cs[..|cs| - 1], cs[|cs| - 1];
      assert cs == front + [last];
      NumberedInFront(cs, |cs| - 1);
      HighestIsCount(front, event, assessment);
      OneCalculationMore(front, last, event, assessment);
      assert last.version == |CalculationsFor(front, last.event, last.assessment)| + 1;
    }
  }

  lemma NumberedWithOneMore(cs: seq<Calculation>, c: Calculation)
    requires VersionsNumbered(cs) && c.version == |CalculationsFor(cs, c.event, c.assessment)| + 1
    ensures VersionsNumbered(cs + [c])
  {
    var all := cs + [c];
    forall i | 0 <= i < |all|
      ensures all[i].version == |CalculationsFor(all[..i], all[i].event, all[i].assessment)| + 1
    {
      if i < |cs| {
        assert all[..i] == cs[..i];
      } else {
        assert all[..i] == cs;
      }
    }
  }

  predicate SameNumbers(cs: seq<Calculation>, ds: seq<Calculation>) {
    && |cs| == |ds|
    && forall i :: 0 <= i < |cs| ==>
         cs[i].version == ds[i].version && cs[i].event == ds[i].event && cs[i].assessment == ds[i].assessment
  }

  lemma NumbersKept(cs: seq<Calculation>, ds: seq<Calculation>)
    requires VersionsNumbered(cs) && SameNumbers(cs, ds)
    ensures VersionsNumbered(ds)
  {
    forall i | 0 <= i < |ds|
      ensures ds[i].version == |CalculationsFor(ds[..i], ds[i].event, ds[i].assessment)| + 1
    {
      assert CalculationsFor(ds[..i], ds[i].event, ds[i].assessment)
        == CalculationsFor(cs[..i], cs[i].event, cs[i].assessment);
    }
  }

  lemma StepNumbers(db: Db, step: Step)
    requires VersionsNumbered(db.calculations)
    ensures VersionsNumbered(Next(db, step).calculations)
  {
    var cs, after := db.calculations, Next(db, step).calculations;
    if |after| > |cs| {
      var c := after[|cs|];
      HighestIsCount(cs, c.event, c.assessment);
      NumberedWithOneMore(cs, c);
      NumbersKept(cs + [c], after);
    } else {
      NumbersKept(cs, after);
    }
  }

  /** Over every run the calculations for each event and assessment are numbered 1, 2, 3 and so on. */
  lemma {:induction false} RunsNumberVersions(segregation: bool, steps: seq<Step>)
    ensures VersionsNumbered(Run(Empty(segregation), steps).calculations)
    decreases |steps|
  {
    if steps != [] {
      RunsNumberVersions(segregation, steps[..|steps| - 1]);
      StepNumbers(Run(Empty(segregation), steps[..|steps| - 1]), steps[|steps| - 1]);
    }
  }

  /** What holds in every reachable state. */
  ghost predicate Sound(db: Db) {
    Safe(db) && VersionsNumbered(db.calculations)
  }

  lemma StepSound(db: Db, step: Step)
    requires Sound(db)
    ensures Sound(Next(db, step))
  {
    StepKeepsSafe(db, step);
    StepNumbers(db, step);
  }

  // ---------------------------------------------------------------------------------------
  // Calculating and verifying
  // ---------------------------------------------------------------------------------------

  /** The next version for its event and assessment, to be reviewed if it has a due time and blocked if not. */
  ghost predicate IsNewCalculation(cs: seq<Calculation>, event: nat, assessment: nat, user: nat, dueAt: Option<int>,
                                   supersedes: Option<nat>, c: Calculation) {
    && c.event == event && c.assessment == assessment && c.calculatedBy == user
    && c.dueAt == dueAt && c.supersedes == supersedes
    && c.version == |CalculationsFor(cs, event, assessment)| + 1
    && (dueAt.Some? ==> c.status == REVIEW_REQUIRED)
    && (dueAt == None ==> c.status == BLOCKED)
  }

  lemma NewCalculationMeans(cs: seq<Calculation>, event: nat, assessment: nat, user: nat, dueAt: Option<int>,
                            supersedes: Option<nat>)
    requires VersionsNumbered(cs)
    ensures IsNewCalculation(cs, event, assessment, user, dueAt, supersedes,
                             NewCalculation(cs, event, assessment, user, dueAt, supersedes))
  {
    HighestIsCount(cs, event, assessment);
  }

  /** There is one new calculation, which supersedes none. */
  ghost predicate IsCalculated(db: Db, event: nat, assessment: nat, user: nat, dueAt: Option<int>, after: Db) {
    && |after.calculations| == |db.calculations| + 1
    && IsNewCalculation(db.calculations, event, assessment, user, dueAt, None, after.calculations[|db.calculations|])
    && after == db.(calculations := db.calculations + [after.calculations[|db.calculations|]])
  }

  ghost predicate CanVerify(db: Db, k: nat, user: nat) {
    && k < |db.calculations|
    && (db.calculations[k].status == REVIEW_REQUIRED || db.calculations[k].status == CALCULATED)
    && !(db.segregation && db.calculations[k].calculatedBy == user)
  }

  /** A calculation gets another status, and nothing else changes. */
  ghost predicate OnlyStatus(cs: seq<Calculation>, k: nat, status: CalculationStatus, after: seq<Calculation>)
    requires k < |cs|
  {
    && |after| == |cs| && after[k] == cs[k].(status := status)
    && forall j :: 0 <= j < |cs| && j != k ==> after[j] == cs[j]
  }

  ghost predicate IsVerified(db: Db, k: nat, after: Db)
    requires k < |db.calculations|
  {
    && OnlyStatus(db.calculations, k, VERIFIED, after.calculations)
    && after == db.(calculations := after.calculations)
  }

  // ---------------------------------------------------------------------------------------
  // Tracking and recalculating
  // ---------------------------------------------------------------------------------------

  /** A deadline of the calculation that is neither superseded nor cancelled. */
  ghost predicate IsOpenFor(d: Deadline, k: nat) {
    d.calculation == k && !(d.status == SUPERSEDED || d.status == CANCELLED)
  }

  ghost predicate IsTracked(db: Db, k: nat) {
    exists d :: d in db.deadlines && IsOpenFor(d, k)
  }

  ghost predicate CanTrack(db: Db, k: nat) {
    k < |db.calculations| && db.calculations[k].status == VERIFIED && !IsTracked(db, k)
  }

  /** One more deadline, due when the calculation says. */
  ghost predicate TrackingAdded(db: Db, k: nat, after: Db)
    requires k < |db.calculations|
  {
    after == db.(deadlines := db.deadlines + [Deadline(k, UPCOMING, db.calculations[k].dueAt, None)])
  }

  ghost predicate CanRecalculate(db: Db, k: nat, inputsOk: bool) {
    && k < |db.calculations| && inputsOk
    && (db.calculations[k].status == VERIFIED || db.calculations[k].status == REVIEW_REQUIRED)
  }

  /** The calculation is superseded by a new one, and its open deadline by one for the new calculation. */
  ghost predicate IsRecalculated(db: Db, k: nat, user: nat, dueAt: Option<int>, after: Db)
    requires k < |db.calculations|
  {
    var n, prior := |db.calculations|, db.calculations[k];
    && |after.calculations| == n + 1
    && IsNewCalculation(db.calculations, prior.event, prior.assessment, user, dueAt, Some(k), after.calculations[n])
    && OnlyStatus(db.calculations, k, CALCULATION_SUPERSEDED, after.calculations[..n])
    && Renewed(db.deadlines, k, n, dueAt, after.deadlines)
    && after.segregation == db.segregation
  }

  ghost predicate Renewed(ds: seq<Deadline>, k: nat, n: nat, dueAt: Option<int>, after: seq<Deadline>) {
    && |after| == |ds| + (if exists d :: d in ds && IsOpenFor(d, k) then 1 else 0)
    && (forall j :: 0 <= j < |ds| ==> after[j] == Superseded(ds, k, j))
    && (|after| > |ds| ==> after[|ds|] == Deadline(n, UPCOMING, dueAt, None))
  }

  ghost function Superseded(ds: seq<Deadline>, k: nat, j: nat): Deadline
    requires j < |ds|
  {
    if IsOpenFor(ds[j], k) then Deadline(k, SUPERSEDED, ds[j].dueAt, Some(|ds|)) else ds[j]
  }

  lemma OpenMeans(ds: seq<Deadline>, k: nat)
    ensures LiveOn(ds, k) != [] <==> exists d :: d in ds && IsOpenFor(d, k)
  {
    var ks := LiveOn(ds, k);
    if ks != [] {
      assert Live(ds[ks[0]]) && ds[ks[0]] in ds;
    }
    if d :| d in ds && IsOpenFor(d, k) {
      var i :| 0 <= i < |ds| && ds[i] == d;
      LiveOnFinds(ds, k, i);
    }
  }

  lemma RenewedDeadlines(ds: seq<Deadline>, k: nat, n: nat, dueAt: Option<int>)
    requires OneLiveEach(ds)
    ensures Renewed(ds, k, n, dueAt, SupersedeAll(ds, LiveOn(ds, k), n, dueAt))
  {
    OpenMeans(ds, k);
    var after := SupersedeAll(ds, LiveOn(ds, k), n, dueAt);
    if LiveOn(ds, k) == [] {
      forall j | 0 <= j < |ds|
        ensures !IsOpenFor(ds[j], k)
      {
        assert ds[j] in ds;
      }
    } else {
      var tracked := TheTracked(ds, k, n, dueAt);
      forall j | 0 <= j < |ds| && IsOpenFor(ds[j], k)
        ensures j == tracked
      {
        assert Live(ds[j]) && Live(ds[tracked]);
      }
    }
  }

  lemma RecalculatingMeans(db: Db, step: Step, next: Db)
    requires step.Recalculate? && Commits(db, step) && next == Next(db, step)
    requires OneLiveEach(db.deadlines) && VersionsNumbered(db.calculations)
    ensures IsRecalculated(db, step.calculation, step.user, step.dueAt, next)
  {
    var k, cs := step.calculation, db.calculations;
    RecalculationTables(db, step, next);
    RenewedDeadlines(db.deadlines, k, |cs|, step.dueAt);
    NewCalculationMeans(cs, cs[k].event, cs[k].assessment, step.user, step.dueAt, Some(k));
  }

  /** When a step commits, and what it leaves behind then. */
  ghost predicate Done(db: Db, step: Step, after: Db) {
    match step
    case Calculate(event, assessment, user, inputsOk, dueAt) =>
      if inputsOk then IsCalculated(db, event, assessment, user, dueAt, after) else after == db
    case Verify(k, user) =>
      if CanVerify(db, k, user) then IsVerified(db, k, after) else after == db
    case Track(k) =>
      if CanTrack(db, k) then TrackingAdded(db, k, after) else after == db
    case Recalculate(k, user, inputsOk, dueAt) =>
      if CanRecalculate(db, k, inputsOk) then IsRecalculated(db, k, user, dueAt, after) else after == db
  }

  lemma CommitsMeans(db: Db, step: Step)
    ensures step.Calculate? ==> (Commits(db, step) <==> step.inputsOk)
    ensures step.Verify? ==> (Commits(db, step) <==> CanVerify(db, step.calculation, step.user))
    ensures step.Track? ==> (Commits(db, step) <==> CanTrack(db, step.calculation))
    ensures step.Recalculate? ==> (Commits(db, step) <==> CanRecalculate(db, step.calculation, step.inputsOk))
  {
    if step.Track? {
      OpenMeans(db.deadlines, step.calculation);
    }
  }

  /** Every step does what the rows of its operation say. */
  lemma StepMeans(db: Db, step: Step)
    requires Sound(db)
    ensures Done(db, step, Next(db, step))
  {
    CommitsMeans(db, step);
    if Commits(db, step) {
      match step
      case Calculate(event, assessment, user, _, dueAt) =>
        NewCalculationMeans(db.calculations, event, assessment, user, dueAt, None);
      case Recalculate(_, _, _, _) => RecalculatingMeans(db, step, Next(db, step));
      case _ =>
    }
  }
}
