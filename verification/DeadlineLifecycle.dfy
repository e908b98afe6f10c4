/**
 Calculations and tracked deadlines of apps/web/src/server/services/deadlines.ts as a state machine.
 Rows are numbered by their position.  What the deadline engine answers is an input of a step: the
 due time of the calculation, or none if it is blocked.
 */
module DeadlineLifecycle {
  import opened Results

  datatype CalculationStatus = BLOCKED | REVIEW_REQUIRED | CALCULATED | VERIFIED | CALCULATION_SUPERSEDED

  datatype Calculation = Calculation(event: nat, assessment: nat, version: nat, status: CalculationStatus,
    calculatedBy: nat, dueAt: Option<int>, supersedes: Option<nat>)

  datatype DeadlineStatus = UPCOMING | SUPERSEDED | CANCELLED

  datatype Deadline = Deadline(calculation: nat, status: DeadlineStatus, dueAt: Option<int>, supersededBy: Option<nat>)

  datatype Db = Db(segregation: bool, calculations: seq<Calculation>, deadlines: seq<Deadline>)

  predicate Live(d: Deadline) {
    d.status != SUPERSEDED && d.status != CANCELLED
  }

  /** The highest version for an event and an assessment, 0 if there is none. */
  function MaxVersion(cs: seq<Calculation>, event: nat, assessment: nat): nat
    decreases |cs|
  {
    if cs == [] then 0
    else
      var last, rest := cs[|cs| - 1], MaxVersion(cs[..|cs| - 1], event, assessment);
      if last.event == event && last.assessment == assessment && last.version > rest then last.version else rest
  }

  /** The live deadlines of a calculation, by position. */
  function LiveOn(ds: seq<Deadline>, calculation: nat): (ks: seq<nat>)
    ensures forall i :: 0 <= i < |ks| ==> ks[i] < |ds| && ds[ks[i]].calculation == calculation && Live(ds[ks[i]])
    decreases |ds|
  {
    if ds == [] then []
    else
      var last := ds[|ds| - 1];
      LiveOn(ds[..|ds| - 1], calculation) + if last.calculation == calculation && Live(last) then [|ds| - 1] else []
  }

  // ---------------------------------------------------------------------------------------
  // Steps
  // ---------------------------------------------------------------------------------------

  datatype Step =
    | Calculate(event: nat, assessment: nat, user: nat, inputsOk: bool, dueAt: Option<int>)
    | Verify(calculation: nat, user: nat)
    | Track(calculation: nat)
    | Recalculate(calculation: nat, user: nat, inputsOk: bool, dueAt: Option<int>)

  predicate Recalculable(s: CalculationStatus) {
    s == VERIFIED || s == REVIEW_REQUIRED
  }

  predicate Commits(db: Db, step: Step) {
    match step
    case Calculate(event, assessment, user, inputsOk, dueAt) => inputsOk
    case Verify(calculation, user) =>
      && calculation < |db.calculations|
      && (db.calculations[calculation].status == REVIEW_REQUIRED || db.calculations[calculation].status == CALCULATED)
      && (db.segregation ==> db.calculations[calculation].calculatedBy != user)
    case Track(calculation) =>
      && calculation < |db.calculations| && db.calculations[calculation].status == VERIFIED
      && LiveOn(db.deadlines, calculation) == []
    case Recalculate(calculation, user, inputsOk, dueAt) =>
      calculation < |db.calculations| && Recalculable(db.calculations[calculation].status) && inputsOk
  }

  function StatusOf(dueAt: Option<int>): CalculationStatus {
    if dueAt.None? then BLOCKED else REVIEW_REQUIRED
  }

  function NewCalculation(cs: seq<Calculation>, event: nat, assessment: nat, user: nat, dueAt: Option<int>,
                          supersedes: Option<nat>)
    : Calculation
  {
    Calculation(event, assessment, MaxVersion(cs, event, assessment) + 1, StatusOf(dueAt), user, dueAt, supersedes)
  }

  function WithStatus(cs: seq<Calculation>, k: nat, status: CalculationStatus): seq<Calculation>
    requires k < |cs|
  {
    cs[k := cs[k].(status := status)]
  }

  /** Deadline `k` is superseded by a new one on another calculation. */
  function SupersedeOne(ds: seq<Deadline>, k: nat, calculation: nat, dueAt: Option<int>): seq<Deadline>
    requires k < |ds|
  {
    ds[k := ds[k].(status := SUPERSEDED, supersededBy := Some(|ds|))] + [Deadline(calculation, UPCOMING, dueAt, None)]
  }

  function SupersedeAll(ds: seq<Deadline>, ks: seq<nat>, calculation: nat, dueAt: Option<int>): (after: seq<Deadline>)
    requires forall i :: 0 <= i < |ks| ==> ks[i] < |ds|
    ensures |after| == |ds| + |ks|
    decreases |ks|
  {
    if ks == [] then ds
    else SupersedeOne(SupersedeAll(ds, ks[..|ks| - 1], calculation, dueAt), ks[|ks| - 1], calculation, dueAt)
  }

  function Effect(db: Db, step: Step): Db
    requires Commits(db, step)
  {
    match step
    case Calculate(event, assessment, user, inputsOk, dueAt) =>
      db.(calculations := db.calculations + [NewCalculation(db.calculations, event, assessment, user, dueAt, None)])
    case Verify(calculation, user) => db.(calculations := WithStatus(db.calculations, calculation, VERIFIED))
    case Track(calculation) =>
      db.(deadlines := db.deadlines + [Deadline(calculation, UPCOMING, db.calculations[calculation].dueAt, None)])
    case Recalculate(calculation, user, inputsOk, dueAt) =>
      var prior := db.calculations[calculation];
      var renewed := NewCalculation(db.calculations, prior.event, prior.assessment, user, dueAt, Some(calculation));
      db.(calculations := WithStatus(db.calculations + [renewed], calculation, CALCULATION_SUPERSEDED),
          deadlines := SupersedeAll(db.deadlines, LiveOn(db.deadlines, calculation), |db.calculations|, dueAt))
  }

  function Next(db: Db, step: Step): Db {
    if Commits(db, step) then Effect(db, step) else db
  }

  function Run(db: Db, steps: seq<Step>): Db
    decreases |steps|
  {
    if steps == [] then db else Next(Run(db, steps[..|steps| - 1]), steps[|steps| - 1])
  }

  function Empty(segregation: bool): Db {
    Db(segregation, [], [])
  }

  // ---------------------------------------------------------------------------------------
  // Safety
  // ---------------------------------------------------------------------------------------

  /** Versions grow with time for each event and assessment. */
  ghost predicate VersionsGrow(cs: seq<Calculation>) {
    forall i, j :: 0 <= i < j < |cs| && cs[i].event == cs[j].event && cs[i].assessment == cs[j].assessment ==>
      cs[i].version < cs[j].version
  }

  /** What a calculation supersedes is an earlier one of the same event and assessment, and marked. */
  predicate SupersedesOk(cs: seq<Calculation>, i: nat)
    requires i < |cs|
  {
    cs[i].supersedes.Some? ==>
      var p := cs[i].supersedes.value;
      p < i && cs[p].event == cs[i].event && cs[p].assessment == cs[i].assessment
        && cs[p].status == CALCULATION_SUPERSEDED
  }

  ghost predicate DueUnlessBlocked(cs: seq<Calculation>) {
    forall i :: 0 <= i < |cs| ==> (cs[i].dueAt.None? <==> cs[i].status == BLOCKED)
  }

  ghost predicate SupersessionsOk(cs: seq<Calculation>) {
    forall i :: 0 <= i < |cs| ==> SupersedesOk(cs, i)
  }

  ghost predicate SupersededOnce(cs: seq<Calculation>) {
    forall i, j :: 0 <= i < j < |cs| && cs[i].supersedes.Some? ==> cs[i].supersedes != cs[j].supersedes
  }

  ghost predicate CalculationsOk(cs: seq<Calculation>) {
    VersionsGrow(cs) && DueUnlessBlocked(cs) && SupersessionsOk(cs) && SupersededOnce(cs)
  }

  /** A deadline is live or superseded by a later one; a live one is due when its calculation says. */
  predicate DeadlineOk(cs: seq<Calculation>, ds: seq<Deadline>, i: nat)
    requires i < |ds|
  {
    var d := ds[i];
    && d.calculation < |cs| && d.dueAt == cs[d.calculation].dueAt && d.status != CANCELLED
    && (Live(d) ==> cs[d.calculation].status != CALCULATION_SUPERSEDED && d.supersededBy.None?)
    && (!Live(d) ==> d.supersededBy.Some? && i < d.supersededBy.value < |ds|)
  }

  ghost predicate OneLiveEach(ds: seq<Deadline>) {
    forall i, j :: 0 <= i < j < |ds| && Live(ds[i]) && Live(ds[j]) ==> ds[i].calculation != ds[j].calculation
  }

  ghost predicate DeadlinesOk(cs: seq<Calculation>, ds: seq<Deadline>) {
    && (forall i :: 0 <= i < |ds| ==> DeadlineOk(cs, ds, i))
    && OneLiveEach(ds)
  }

  ghost predicate Safe(db: Db) {
    CalculationsOk(db.calculations) && DeadlinesOk(db.calculations, db.deadlines)
  }

  lemma {:induction false} MaxIsMax(cs: seq<Calculation>, event: nat, assessment: nat, i: nat)
    requires i < |cs| && cs[i].event == event && cs[i].assessment == assessment
    ensures cs[i].version <= MaxVersion(cs, event, assessment)
    decreases |cs|
  {
    if i < |cs| - 1 {
      MaxIsMax(cs[..|cs| - 1], event, assessment, i);
    }
  }

  lemma NewVersionGrows(cs: seq<Calculation>, c: Calculation)
    requires VersionsGrow(cs) && c.version == MaxVersion(cs, c.event, c.assessment) + 1
    ensures VersionsGrow(cs + [c])
  {
    var after := cs + [c];
    forall i, j | 0 <= i < j < |after| && after[i].event == after[j].event && after[i].assessment == after[j].assessment
      ensures after[i].version < after[j].version
    {
      if j == |cs| {
        MaxIsMax(cs, c.event, c.assessment, i);
      }
    }
  }

  lemma {:induction false} LiveOnFinds(ds: seq<Deadline>, calculation: nat, i: nat)
    requires i < |ds| && ds[i].calculation == calculation && Live(ds[i])
    ensures i in LiveOn(ds, calculation)
    decreases |ds|
  {
    if i < |ds| - 1 {
      LiveOnFinds(ds[..|ds| - 1], calculation, i);
    }
  }

  /** With one live deadline per calculation there is at most one to supersede. */
  lemma {:induction false} AtMostOne(ds: seq<Deadline>, calculation: nat)
    requires OneLiveEach(ds)
    ensures |LiveOn(ds, calculation)| <= 1
    decreases |ds|
  {
    if ds != [] {
      var front := ds[..|ds| - 1];
      AtMostOne(front, calculation);
      var ks := LiveOn(front, calculation);
      assert ks != [] ==> Live(ds[ks[0]]) && ds[ks[0]].calculation == calculation;
    }
  }

  /** Recalculating supersedes the one live deadline `k` of the calculation. */
  lemma TheTracked(ds: seq<Deadline>, p: nat, calculation: nat, dueAt: Option<int>) returns (k: nat)
    requires OneLiveEach(ds) && LiveOn(ds, p) != []
    ensures k < |ds| && Live(ds[k]) && ds[k].calculation == p
    ensures SupersedeAll(ds, LiveOn(ds, p), calculation, dueAt) == SupersedeOne(ds, k, calculation, dueAt)
  {
    AtMostOne(ds, p);
    var ks := LiveOn(ds, p);
    k := ks[0];
    assert ks[..|ks| - 1] == [];
    assert SupersedeAll(ds, ks[..|ks| - 1], calculation, dueAt) == ds;
  }

  /** What recalculating a tracked calculation leaves: its deadline `k` superseded by the last one. */
  lemma AfterRecalculation(db: Db, step: Step, next: Db) returns (k: nat)
    requires OneLiveEach(db.deadlines) && step.Recalculate? && Commits(db, step) && next == Next(db, step)
    requires LiveOn(db.deadlines, step.calculation) != []
    ensures k < |db.deadlines| && Live(db.deadlines[k]) && db.deadlines[k].calculation == step.calculation
    ensures next.deadlines == SupersedeOne(db.deadlines, k, |db.calculations|, step.dueAt)
    ensures |next.calculations| == |db.calculations| + 1
    ensures next.calculations[|db.calculations|].status == StatusOf(step.dueAt)
  {
    RecalculationTables(db, step, next);
    k := TheTracked(db.deadlines, step.calculation, |db.calculations|, step.dueAt);
  }

  lemma CalculateSafe(db: Db, step: Step)
    requires Safe(db) && Commits(db, step) && step.Calculate?
    ensures Safe(Effect(db, step))
  {
    var c := NewCalculation(db.calculations, step.event, step.assessment, step.user, step.dueAt, None);
    NewVersionGrows(db.calculations, c);
    var after := Effect(db, step);
    forall i | 0 <= i < |after.calculations|
      ensures SupersedesOk(after.calculations, i)
    {
      assert i < |db.calculations| ==> SupersedesOk(db.calculations, i);
    }
    forall i | 0 <= i < |after.deadlines|
      ensures DeadlineOk(after.calculations, after.deadlines, i)
    {
      assert DeadlineOk(db.calculations, db.deadlines, i);
    }
  }

  lemma VerifySafe(db: Db, step: Step)
    requires Safe(db) && Commits(db, step) && step.Verify?
    ensures Safe(Effect(db, step))
  {
    var after := Effect(db, step);
    forall i | 0 <= i < |after.calculations|
      ensures SupersedesOk(after.calculations, i)
    {
      assert SupersedesOk(db.calculations, i);
    }
    forall i | 0 <= i < |after.deadlines|
      ensures DeadlineOk(after.calculations, after.deadlines, i)
    {
      assert DeadlineOk(db.calculations, db.deadlines, i);
    }
  }

  lemma TrackedHasOne(db: Db, calculation: nat, next: Db)
    requires DueUnlessBlocked(db.calculations) && Commits(db, Track(calculation))
    requires next == Next(db, Track(calculation))
    ensures LiveOn(next.deadlines, calculation) == [|db.deadlines|]
    ensures next.deadlines[|db.deadlines|].dueAt.Some?
  {
    assert next.deadlines[..|db.deadlines|] == db.deadlines;
  }

  lemma TrackSafe(db: Db, step: Step)
    requires Safe(db) && Commits(db, step) && step.Track?
    ensures Safe(Effect(db, step))
  {
    var after := Effect(db, step);
    forall i | 0 <= i < |after.deadlines|
      ensures DeadlineOk(after.calculations, after.deadlines, i)
    {
      assert i < |db.deadlines| ==> DeadlineOk(db.calculations, db.deadlines, i);
    }
    forall i | 0 <= i < |db.deadlines| && Live(db.deadlines[i])
      ensures db.deadlines[i].calculation != step.calculation
    {
      if db.deadlines[i].calculation == step.calculation {
        LiveOnFinds(db.deadlines, step.calculation, i);
      }
    }
  }

  lemma RecalculatedCalculations(cs: seq<Calculation>, p: nat, c: Calculation, after: seq<Calculation>)
    requires CalculationsOk(cs) && p < |cs| && Recalculable(cs[p].status)
    requires c.event == cs[p].event && c.assessment == cs[p].assessment && c.supersedes == Some(p)
    requires c.version == MaxVersion(cs, c.event, c.assessment) + 1 && (c.dueAt.None? <==> c.status == BLOCKED)
    requires after == WithStatus(cs + [c], p, CALCULATION_SUPERSEDED)
    ensures CalculationsOk(after)
  {
    NewVersionGrows(cs, c);
    StatusAside(cs + [c], after);
    NewSupersession(cs, p, c, after);
    NewIsTheOnly(cs, p, c, after);
  }

  lemma NewSupersession(cs: seq<Calculation>, p: nat, c: Calculation, after: seq<Calculation>)
    requires SupersessionsOk(cs) && p < |cs|
    requires c.event == cs[p].event && c.assessment == cs[p].assessment && c.supersedes == Some(p)
    requires after == WithStatus(cs + [c], p, CALCULATION_SUPERSEDED)
    ensures SupersessionsOk(after)
  {
    forall i | 0 <= i < |after|
      ensures SupersedesOk(after, i)
    {
      assert i < |cs| ==> SupersedesOk(cs, i);
    }
  }

  lemma NewIsTheOnly(cs: seq<Calculation>, p: nat, c: Calculation, after: seq<Calculation>)
    requires SupersessionsOk(cs) && SupersededOnce(cs) && p < |cs| && cs[p].status != CALCULATION_SUPERSEDED
    requires c.supersedes == Some(p) && after == WithStatus(cs + [c], p, CALCULATION_SUPERSEDED)
    ensures SupersededOnce(after)
  {
    forall i | 0 <= i < |cs|
      ensures after[i].supersedes == cs[i].supersedes != Some(p)
    {
      assert SupersedesOk(cs, i);
    }
  }

  lemma StatusAside(cs: seq<Calculation>, ds: seq<Calculation>)
    requires VersionsGrow(cs) && |ds| == |cs|
    requires forall i :: 0 <= i < |cs| ==>
      ds[i].version == cs[i].version && ds[i].event == cs[i].event && ds[i].assessment == cs[i].assessment
    ensures VersionsGrow(ds)
  {
  }

  /** The deadline of the prior calculation, if any, goes on under the new one. */
  lemma SupersededDeadline(cs: seq<Calculation>, ds: seq<Deadline>, after: seq<Calculation>, k: nat, renewed: nat,
                           dueAt: Option<int>, es: seq<Deadline>)
    requires DeadlinesOk(cs, ds) && k < |ds| && Live(ds[k]) && renewed == |cs| && |after| == |cs| + 1
    requires forall i :: 0 <= i < |cs| ==> after[i].dueAt == cs[i].dueAt
    requires forall i :: 0 <= i < |cs| && i != ds[k].calculation ==> after[i].status == cs[i].status
    requires after[renewed].dueAt == dueAt && after[renewed].status != CALCULATION_SUPERSEDED
    requires es == SupersedeOne(ds, k, renewed, dueAt)
    ensures DeadlinesOk(after, es)
  {
    forall i | 0 <= i < |es|
      ensures DeadlineOk(after, es, i)
    {
      if i < |ds| {
        assert DeadlineOk(cs, ds, i);
        assert i != k && Live(ds[i]) ==> ds[i].calculation != ds[k].calculation;
      }
    }
    forall i | 0 <= i < |ds|
      ensures ds[i].calculation < renewed
    {
      assert DeadlineOk(cs, ds, i);
    }
  }

  /** Recalculating, table by table. */
  lemma RecalculationTables(db: Db, step: Step, next: Db)
    requires step.Recalculate? && Commits(db, step) && next == Effect(db, step)
    ensures var p, cs := step.calculation, db.calculations;
      var c := NewCalculation(cs, cs[p].event, cs[p].assessment, step.user, step.dueAt, Some(p));
      next.calculations == WithStatus(cs + [c], p, CALCULATION_SUPERSEDED)
    ensures next.deadlines
      == SupersedeAll(db.deadlines, LiveOn(db.deadlines, step.calculation), |db.calculations|, step.dueAt)
  {
  }

  lemma RecalculateDeadlines(cs: seq<Calculation>, ds: seq<Deadline>, p: nat, after: seq<Calculation>,
                             dueAt: Option<int>, es: seq<Deadline>)
    requires DeadlinesOk(cs, ds) && p < |cs| && |after| == |cs| + 1
    requires forall i :: 0 <= i < |cs| ==> after[i].dueAt == cs[i].dueAt && (i != p ==> after[i].status == cs[i].status)
    requires after[|cs|].dueAt == dueAt && after[|cs|].status != CALCULATION_SUPERSEDED
    requires es == SupersedeAll(ds, LiveOn(ds, p), |cs|, dueAt)
    ensures DeadlinesOk(after, es)
  {
    if LiveOn(ds, p) == [] {
      UntrackedDeadlines(cs, ds, p, after);
    } else {
      var k := TheTracked(ds, p, |cs|, dueAt);
      SupersededDeadline(cs, ds, after, k, |cs|, dueAt, es);
    }
  }

  lemma UntrackedDeadlines(cs: seq<Calculation>, ds: seq<Deadline>, p: nat, after: seq<Calculation>)
    requires DeadlinesOk(cs, ds) && p < |cs| && LiveOn(ds, p) == [] && |after| == |cs| + 1
    requires forall i :: 0 <= i < |cs| ==> after[i].dueAt == cs[i].dueAt && (i != p ==> after[i].status == cs[i].status)
    ensures DeadlinesOk(after, ds)
  {
    forall i | 0 <= i < |ds|
      ensures DeadlineOk(after, ds, i)
    {
      assert DeadlineOk(cs, ds, i);
      if Live(ds[i]) && ds[i].calculation == p {
        LiveOnFinds(ds, p, i);
      }
    }
  }

  lemma RecalculateSafe(db: Db, step: Step, next: Db)
    requires Safe(db) && Commits(db, step) && step.Recalculate? && next == Effect(db, step)
    ensures Safe(next)
  {
    var p, cs := step.calculation, db.calculations;
    var c := NewCalculation(cs, cs[p].event, cs[p].assessment, step.user, step.dueAt, Some(p));
    RecalculationTables(db, step, next);
    RecalculatedCalculations(cs, p, c, next.calculations);
    RecalculateDeadlines(cs, db.deadlines, p, next.calculations, step.dueAt, next.deadlines);
  }

  lemma StepKeepsSafe(db: Db, step: Step)
    requires Safe(db)
    ensures Safe(Next(db, step))
  {
    if Commits(db, step) {
      match step
      case Calculate(_, _, _, _, _) => CalculateSafe(db, step);
      case Verify(_, _) => VerifySafe(db, step);
      case Track(_) => TrackSafe(db, step);
      case Recalculate(_, _, _, _) => RecalculateSafe(db, step, Effect(db, step));
    }
  }

  /** Over every run: the tables stay safe. */
  lemma {:induction false} RunsAreSafe(segregation: bool, steps: seq<Step>)
    ensures Safe(Run(Empty(segregation), steps))
    decreases |steps|
  {
    if steps != [] {
      var front := steps[..|steps| - 1];
      RunsAreSafe(segregation, front);
      StepKeepsSafe(Run(Empty(segregation), front), steps[|steps| - 1]);
    }
  }

  /** Calculation `i` has a higher version than every other of its event and assessment before it. */
  ghost predicate Newest(cs: seq<Calculation>, i: nat) {
    && i < |cs|
    && forall j :: 0 <= j < i && cs[j].event == cs[i].event && cs[j].assessment == cs[i].assessment ==>
         cs[j].version < cs[i].version
  }

  lemma GrownIsNewest(cs: seq<Calculation>)
    requires cs != [] && VersionsGrow(cs)
    ensures Newest(cs, |cs| - 1)
  {
  }

  /** In particular: one live deadline per calculation at most, and none on a superseded calculation. */
  lemma LiveDeadlines(segregation: bool, steps: seq<Step>, i: nat, j: nat)
    requires var ds := Run(Empty(segregation), steps).deadlines; i < |ds| && j < |ds| && Live(ds[i]) && Live(ds[j])
    ensures var db := Run(Empty(segregation), steps);
      && (i != j ==> db.deadlines[i].calculation != db.deadlines[j].calculation)
      && db.deadlines[i].calculation < |db.calculations|
      && db.calculations[db.deadlines[i].calculation].status != CALCULATION_SUPERSEDED
      && db.deadlines[i].dueAt == db.calculations[db.deadlines[i].calculation].dueAt
  {
    RunsAreSafe(segregation, steps);
    var db := Run(Empty(segregation), steps);
    assert DeadlineOk(db.calculations, db.deadlines, i);
  }

  /** A calculation is superseded at most once, by a later version of the same event and assessment, and then marked. */
  lemma SupersessionIsOrderly(segregation: bool, steps: seq<Step>, i: nat, p: nat)
    requires i < |Run(Empty(segregation), steps).calculations|
    requires Run(Empty(segregation), steps).calculations[i].supersedes == Some(p)
    ensures var cs := Run(Empty(segregation), steps).calculations;
      && p < i && cs[p].event == cs[i].event && cs[p].assessment == cs[i].assessment
      && cs[p].version < cs[i].version && cs[p].status == CALCULATION_SUPERSEDED
      && forall j :: 0 <= j < |cs| && cs[j].supersedes == Some(p) ==> j == i
  {
    RunsAreSafe(segregation, steps);
    var cs := Run(Empty(segregation), steps).calculations;
    assert SupersedesOk(cs, i);
  }

  // ---------------------------------------------------------------------------------------
  // Chains
  // ---------------------------------------------------------------------------------------

  /** Following `supersededBy` to its end. */
  function Follow(ds: seq<Deadline>, i: nat): (k: nat)
    requires i < |ds|
    ensures k < |ds|
    decreases |ds| - i
  {
    match ds[i].supersededBy
    case None => i
    case Some(next) => if i < next < |ds| then Follow(ds, next) else i
  }

  lemma {:induction false} FollowEndsLive(cs: seq<Calculation>, ds: seq<Deadline>, i: nat)
    requires i < |ds| && forall k :: 0 <= k < |ds| ==> DeadlineOk(cs, ds, k)
    ensures Live(ds[Follow(ds, i)])
    decreases |ds| - i
  {
    assert DeadlineOk(cs, ds, i);
    if !Live(ds[i]) {
      FollowEndsLive(cs, ds, ds[i].supersededBy.value);
    }
  }

  /** From every deadline that was ever tracked the chain of successors ends at a live one. */
  lemma ChainsEndLive(segregation: bool, steps: seq<Step>, i: nat)
    requires i < |Run(Empty(segregation), steps).deadlines|
    ensures var ds := Run(Empty(segregation), steps).deadlines; Live(ds[Follow(ds, i)])
  {
    RunsAreSafe(segregation, steps);
    var db := Run(Empty(segregation), steps);
    FollowEndsLive(db.calculations, db.deadlines, i);
  }

  // ---------------------------------------------------------------------------------------
  // Conservation
  // ---------------------------------------------------------------------------------------

  function LiveCount(ds: seq<Deadline>): nat
    decreases |ds|
  {
    if ds == [] then 0 else LiveCount(ds[..|ds| - 1]) + if Live(ds[|ds| - 1]) then 1 else 0
  }

  lemma {:induction false} CountUpdate(ds: seq<Deadline>, k: nat, d: Deadline)
    requires k < |ds| && Live(ds[k]) && !Live(d)
    ensures LiveCount(ds[k := d]) + 1 == LiveCount(ds)
    decreases |ds|
  {
    var n := |ds| - 1;
    if k < n {
      assert ds[k := d][..n] == ds[..n][k := d];
      CountUpdate(ds[..n], k, d);
    } else {
      assert ds[k := d][..n] == ds[..n];
    }
  }

  lemma SupersedeKeepsCount(ds: seq<Deadline>, k: nat, calculation: nat, dueAt: Option<int>)
    requires k < |ds| && Live(ds[k])
    ensures LiveCount(SupersedeOne(ds, k, calculation, dueAt)) == LiveCount(ds)
  {
    var d := ds[k].(status := SUPERSEDED, supersededBy := Some(|ds|));
    CountUpdate(ds, k, d);
    assert SupersedeOne(ds, k, calculation, dueAt)[..|ds|] == ds[k := d];
  }

  /** Recalculating, verifying and calculating keep the number of live deadlines; tracking adds one. */
  lemma LiveDeadlinesAreConserved(db: Db, step: Step)
    requires Safe(db)
    ensures LiveCount(Next(db, step).deadlines)
      == LiveCount(db.deadlines) + if step.Track? && Commits(db, step) then 1 else 0
  {
    if Commits(db, step) {
      match step
      case Track(calculation) => assert Effect(db, step).deadlines[..|db.deadlines|] == db.deadlines;
      case Recalculate(calculation, _, _, dueAt) => {
        if LiveOn(db.deadlines, calculation) != [] {
          var k := TheTracked(db.deadlines, calculation, |db.calculations|, dueAt);
          SupersedeKeepsCount(db.deadlines, k, |db.calculations|, dueAt);
        }
      }
      case _ =>
    }
  }

  lemma {:induction false} NoneLive(ds: seq<Deadline>, calculation: nat)
    requires forall i :: 0 <= i < |ds| ==> !(Live(ds[i]) && ds[i].calculation == calculation)
    ensures LiveOn(ds, calculation) == []
    decreases |ds|
  {
    if ds != [] {
      NoneLive(ds[..|ds| - 1], calculation);
    }
  }

  lemma SupersededHandsOver(ds: seq<Deadline>, k: nat, p: nat, n: nat, dueAt: Option<int>, es: seq<Deadline>)
    requires OneLiveEach(ds) && k < |ds| && Live(ds[k]) && ds[k].calculation == p < n
    requires forall i :: 0 <= i < |ds| ==> ds[i].calculation < n
    requires es == SupersedeOne(ds, k, n, dueAt)
    ensures LiveOn(es, p) == [] && LiveOn(es, n) == [|ds|]
  {
    var front := ds[k := ds[k].(status := SUPERSEDED, supersededBy := Some(|ds|))];
    assert es[..|ds|] == front;
    NoneLive(front, p);
    NoneLive(front, n);
  }

  lemma OldCalculations(cs: seq<Calculation>, ds: seq<Deadline>)
    requires DeadlinesOk(cs, ds)
    ensures forall i :: 0 <= i < |ds| ==> ds[i].calculation < |cs|
  {
    forall i | 0 <= i < |ds|
      ensures ds[i].calculation < |cs|
    {
      assert DeadlineOk(cs, ds, i);
    }
  }

  /** Recalculating hands the live deadline over, if there is one. */
  lemma RecalculationHandsOver(db: Db, step: Step, next: Db)
    requires DeadlinesOk(db.calculations, db.deadlines) && step.Recalculate? && Commits(db, step)
    requires next == Next(db, step)
    ensures LiveOn(next.deadlines, step.calculation) == []
    ensures |LiveOn(next.deadlines, |db.calculations|)| == |LiveOn(db.deadlines, step.calculation)|
  {
    var p, n, ds := step.calculation, |db.calculations|, db.deadlines;
    OldCalculations(db.calculations, ds);
    if LiveOn(ds, p) == [] {
      RecalculationTables(db, step, next);
      NoneLive(ds, n);
    } else {
      var k := AfterRecalculation(db, step, next);
      AtMostOne(ds, p);
      SupersededHandsOver(ds, k, p, n, step.dueAt, next.deadlines);
    }
  }

  function TracksCommitted(db: Db, steps: seq<Step>): nat
    decreases |steps|
  {
    if steps == [] then 0
    else
      var front, last := steps[..|steps| - 1], steps[|steps| - 1];
      TracksCommitted(db, front) + if last.Track? && Commits(Run(db, front), last) then 1 else 0
  }

  /** No deadline is ever lost: there are as many live ones as were tracked. */
  lemma {:induction false} NoDeadlineIsLost(segregation: bool, steps: seq<Step>)
    ensures LiveCount(Run(Empty(segregation), steps).deadlines) == TracksCommitted(Empty(segregation), steps)
    decreases |steps|
  {
    if steps != [] {
      var front := steps[..|steps| - 1];
      NoDeadlineIsLost(segregation, front);
      RunsAreSafe(segregation, front);
      LiveDeadlinesAreConserved(Run(Empty(segregation), front), steps[|steps| - 1]);
    }
  }

  // ---------------------------------------------------------------------------------------
  // Blocked calculations
  // ---------------------------------------------------------------------------------------

  /** A live deadline on a blocked calculation, which has no due time. */
  ghost predicate Stuck(db: Db, i: nat) {
    && i < |db.deadlines| && Live(db.deadlines[i])
    && db.deadlines[i].calculation < |db.calculations| && db.calculations[db.deadlines[i].calculation].status == BLOCKED
  }

  lemma {:induction false} SupersedeAllKeeps(ds: seq<Deadline>, ks: seq<nat>, calculation: nat, dueAt: Option<int>,
                                             i: nat)
    requires forall j :: 0 <= j < |ks| ==> ks[j] < |ds|
    requires i < |ds| && i !in ks
    ensures SupersedeAll(ds, ks, calculation, dueAt)[i] == ds[i]
    decreases |ks|
  {
    if ks != [] {
      SupersedeAllKeeps(ds, ks[..|ks| - 1], calculation, dueAt, i);
    }
  }

  /** No step ever moves it again: it can neither be verified, nor recalculated, nor superseded. */
  lemma StuckForever(db: Db, step: Step, i: nat)
    requires Stuck(db, i)
    ensures Stuck(Next(db, step), i) && Next(db, step).deadlines[i] == db.deadlines[i]
  {
    if Commits(db, step) && step.Recalculate? {
      var ks := LiveOn(db.deadlines, step.calculation);
      assert i !in ks;
      SupersedeAllKeeps(db.deadlines, ks, |db.calculations|, step.dueAt, i);
    }
  }

  lemma {:induction false} StuckInEveryRun(db: Db, steps: seq<Step>, i: nat)
    requires Stuck(db, i)
    ensures Stuck(Run(db, steps), i) && Run(db, steps).deadlines[i] == db.deadlines[i]
    decreases |steps|
  {
    if steps != [] {
      StuckInEveryRun(db, steps[..|steps| - 1], i);
      StuckForever(Run(db, steps[..|steps| - 1]), steps[|steps| - 1], i);
    }
  }

  /** It arises only by recalculating a tracked calculation with a blocked result. */
  lemma StuckArises(db: Db, step: Step, i: nat)
    requires Safe(db) && Stuck(Next(db, step), i) && !Stuck(db, i)
    ensures Commits(db, step) && step.Recalculate? && step.dueAt.None? && LiveOn(db.deadlines, step.calculation) != []
  {
    assert i < |db.deadlines| ==> DeadlineOk(db.calculations, db.deadlines, i);
    if Commits(db, step) && step.Recalculate? {
      StuckByRecalculation(db, step, Next(db, step), i);
    }
  }

  /** What is live afterwards was left alone, or is on the new calculation. */
  lemma {:induction false} SupersedeAllAt(ds: seq<Deadline>, ks: seq<nat>, calculation: nat, dueAt: Option<int>, i: nat)
    requires forall j :: 0 <= j < |ks| ==> ks[j] < |ds|
    requires i < |ds| + |ks| && Live(SupersedeAll(ds, ks, calculation, dueAt)[i])
    ensures i < |ds| ==> SupersedeAll(ds, ks, calculation, dueAt)[i] == ds[i]
    ensures i >= |ds| ==> SupersedeAll(ds, ks, calculation, dueAt)[i].calculation == calculation
    decreases |ks|
  {
    if ks != [] && i < |ds| + |ks| - 1 {
      SupersedeAllAt(ds, ks[..|ks| - 1], calculation, dueAt, i);
    }
  }

  lemma StuckByRecalculation(db: Db, step: Step, next: Db, i: nat)
    requires DeadlinesOk(db.calculations, db.deadlines)
    requires Commits(db, step) && step.Recalculate? && next == Next(db, step)
    requires Stuck(next, i) && !Stuck(db, i)
    ensures step.dueAt.None? && LiveOn(db.deadlines, step.calculation) != []
  {
    var ks := LiveOn(db.deadlines, step.calculation);
    RecalculationTables(db, step, next);
    SupersedeAllAt(db.deadlines, ks, |db.calculations|, step.dueAt, i);
    if i < |db.deadlines| {
      OldCalculations(db.calculations, db.deadlines);
      assert Stuck(db, i);
    }
  }

  /** And there it always does. */
  lemma BlockedRecalculationSticks(db: Db, p: nat, user: nat, next: Db)
    requires Safe(db) && Commits(db, Recalculate(p, user, true, None)) && LiveOn(db.deadlines, p) != []
    requires next == Next(db, Recalculate(p, user, true, None))
    ensures Stuck(next, |db.deadlines|)
    ensures next.deadlines[|db.deadlines|] == Deadline(|db.calculations|, UPCOMING, None, None)
  {
    LastTakesOver(db, Recalculate(p, user, true, None), next);
  }

  lemma LastTakesOver(db: Db, step: Step, next: Db)
    requires OneLiveEach(db.deadlines) && step.Recalculate? && Commits(db, step) && next == Next(db, step)
    requires LiveOn(db.deadlines, step.calculation) != []
    ensures |next.deadlines| == |db.deadlines| + 1 && |next.calculations| == |db.calculations| + 1
    ensures next.deadlines[|db.deadlines|] == Deadline(|db.calculations|, UPCOMING, step.dueAt, None)
    ensures next.calculations[|db.calculations|].status == StatusOf(step.dueAt)
  {
    var k := AfterRecalculation(db, step, next);
  }

  /** The live deadlines without a due time are exactly those: one that is verified is not among them. */
  lemma StuckHasNoDueTime(db: Db, i: nat)
    requires Safe(db) && i < |db.deadlines| && Live(db.deadlines[i])
    ensures Stuck(db, i) <==> db.deadlines[i].dueAt.None?
  {
    assert DeadlineOk(db.calculations, db.deadlines, i);
  }

  ghost predicate LiveAreVerified(db: Db) {
    forall i :: 0 <= i < |db.deadlines| && Live(db.deadlines[i]) ==>
      && db.deadlines[i].calculation < |db.calculations|
      && db.calculations[db.deadlines[i].calculation].status == VERIFIED
  }

  /**
   Only a verified calculation can be tracked, but live deadlines do not stay on verified ones: that
   ends with the first recalculation of a tracked calculation, and with nothing else.
   */
  lemma OnlyRecalculationUnverifies(db: Db, step: Step)
    requires Safe(db) && LiveAreVerified(db)
    ensures LiveAreVerified(Next(db, step)) <==>
      !(step.Recalculate? && Commits(db, step) && LiveOn(db.deadlines, step.calculation) != [])
  {
    if Commits(db, step) {
      if step.Recalculate? {
        RecalculationUnverifies(db, step, Next(db, step));
      } else {
        OthersKeepVerified(db, step, Next(db, step));
      }
    }
  }

  lemma OthersKeepVerified(db: Db, step: Step, next: Db)
    requires LiveAreVerified(db) && Commits(db, step) && !step.Recalculate? && next == Next(db, step)
    ensures LiveAreVerified(next)
  {
    forall i | 0 <= i < |db.deadlines| && Live(db.deadlines[i])
      ensures next.deadlines[i] == db.deadlines[i]
      ensures db.deadlines[i].calculation < |next.calculations|
      ensures next.calculations[db.deadlines[i].calculation].status == VERIFIED
    {
    }
  }

  lemma RecalculationUnverifies(db: Db, step: Step, next: Db)
    requires OneLiveEach(db.deadlines) && LiveAreVerified(db)
    requires Commits(db, step) && step.Recalculate? && next == Next(db, step)
    ensures LiveAreVerified(next) <==> LiveOn(db.deadlines, step.calculation) == []
  {
    var p, ds := step.calculation, db.deadlines;
    if LiveOn(ds, p) == [] {
      RecalculationTables(db, step, next);
      forall i | 0 <= i < |ds| && Live(ds[i])
        ensures ds[i].calculation < |db.calculations| && ds[i].calculation != p
      {
        if ds[i].calculation == p {
          LiveOnFinds(ds, p, i);
        }
      }
    } else {
      var k := AfterRecalculation(db, step, next);
      var last := next.deadlines[|ds|];
      assert last == Deadline(|db.calculations|, UPCOMING, step.dueAt, None);
      assert Live(last) && next.calculations[last.calculation].status != VERIFIED;
    }
  }

  /** User 1 calculates, user 2 verifies, the deadline is tracked, and a recalculation is blocked. */
  function BlockedRun(): seq<Step> {
    [Calculate(0, 0, 1, true, Some(10)), Verify(0, 2), Track(0), Recalculate(0, 1, true, None)]
  }

  lemma RunOne(db: Db, steps: seq<Step>, step: Step)
    ensures Run(db, steps + [step]) == Next(Run(db, steps), step)
  {
    assert (steps + [step])[..|steps|] == steps;
  }

  lemma TrackedOnce(segregation: bool)
    ensures Run(Empty(segregation), BlockedRun()[..3])
      == Db(segregation, [Calculation(0, 0, 1, VERIFIED, 1, Some(10), None)], [Deadline(0, UPCOMING, Some(10), None)])
  {
    var db0, steps := Empty(segregation), BlockedRun();
    var db1 := Db(segregation, [Calculation(0, 0, 1, REVIEW_REQUIRED, 1, Some(10), None)], []);
    var db2 := Db(segregation, [Calculation(0, 0, 1, VERIFIED, 1, Some(10), None)], []);
    assert MaxVersion([], 0, 0) == 0;
    assert Next(db0, steps[0]) == db1 && Next(db1, steps[1]) == db2;
    assert LiveOn([], 0) == [];
    RunOne(db0, [], steps[0]);
    RunOne(db0, [steps[0]], steps[1]);
    RunOne(db0, [steps[0], steps[1]], steps[2]);
    assert [] + [steps[0]] == [steps[0]] && [steps[0]] + [steps[1]] == [steps[0], steps[1]];
    assert [steps[0], steps[1]] + [steps[2]] == steps[..3];
  }

  /** From nothing, with segregation of duties or without: deadline 1 is stuck, whatever follows. */
  lemma BlockedRunSticks(segregation: bool, later: seq<Step>)
    ensures var db := Run(Run(Empty(segregation), BlockedRun()), later);
      Stuck(db, 1) && db.deadlines[1] == Deadline(1, UPCOMING, None, None)
  {
    var steps := BlockedRun();
    TrackedOnce(segregation);
    RunsAreSafe(segregation, steps[..3]);
    var db := Run(Empty(segregation), steps[..3]);
    RunOne(Empty(segregation), steps[..3], steps[3]);
    assert steps[..3] + [steps[3]] == steps;
    LiveOnFinds(db.deadlines, 0, 0);
    BlockedRecalculationSticks(db, 0, 1, Next(db, steps[3]));
    StuckInEveryRun(Next(db, steps[3]), later, 1);
  }
}
