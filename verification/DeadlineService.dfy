/** The service functions of apps/web/src/server/services/deadlines.ts, row by row. */
module DeadlineService {
  import opened Results
  import opened DeadlineLifecycle
  import opened DeadlineMeaning

  class Service {
    const segregation: bool
    var calculations: seq<Calculation>
    var deadlines: seq<Deadline>

    constructor (segregation: bool)
      ensures Tables() == Empty(segregation) && Sound(Tables())
    {
      this.segregation := segregation;
      calculations, deadlines := [], [];
    }

    ghost function Tables(): Db
      reads this
    {
      Db(segregation, calculations, deadlines)
    }

    method HighestVersion(event: nat, assessment: nat) returns (v: nat)
      ensures v == MaxVersion(calculations, event, assessment)
    {
      v := 0;
      for i := 0 to |calculations|
        invariant v == MaxVersion(calculations[..i], event, assessment)
      {
        assert calculations[..i + 1][..i] == calculations[..i];
        var c := calculations[i];
        if c.event == event && c.assessment == assessment && c.version > v {
          v := c.version;
        }
      }
      assert calculations[..|calculations|] == calculations;
    }

    method CalculateInternal(event: nat, assessment: nat, user: nat, dueAt: Option<int>,
                             supersedes: Option<nat>) returns (id: nat)
      modifies this`calculations
      ensures id == old(|calculations|)
      ensures calculations
        == old(calculations) + [NewCalculation(old(calculations), event, assessment, user, dueAt, supersedes)]
    {
      var status := if dueAt.None? then BLOCKED else REVIEW_REQUIRED;
      var highest := HighestVersion(event, assessment);
      id := |calculations|;
      calculations := calculations + [Calculation(event, assessment, highest + 1, status, user, dueAt, supersedes)];
    }

    /** The new calculation has a version above all earlier ones for its event and assessment. */
    method CalculateEventDeadline(event: nat, assessment: nat, user: nat, inputsOk: bool,
                                  dueAt: Option<int>) returns (ok: bool)
      requires Sound(Tables())
      modifies this
      ensures Sound(Tables()) && ok == inputsOk
      ensures Tables() == old(Next(Tables(), Calculate(event, assessment, user, inputsOk, dueAt)))
      ensures if ok then IsCalculated(old(Tables()), event, assessment, user, dueAt, Tables())
        else Tables() == old(Tables())
      ensures ok ==> Newest(calculations, old(|calculations|))
    {
      ghost var step := Calculate(event, assessment, user, inputsOk, dueAt);
      StepSound(Tables(), step);
      StepMeans(Tables(), step);
      if !inputsOk {
        return false;
      }
      var id := CalculateInternal(event, assessment, user, dueAt, None);
      assert Tables() == old(Next(Tables(), step));
      GrownIsNewest(calculations);
      return true;
    }

    /** Only a calculation with a due time is verified, and where duties are separated, by somebody else. */
    method VerifyDeadlineCalculation(calculation: nat, user: nat) returns (ok: bool)
      requires Sound(Tables())
      modifies this
      ensures Sound(Tables())
      ensures Tables() == old(Next(Tables(), Verify(calculation, user)))
      ensures ok <==> CanVerify(old(Tables()), calculation, user)
      ensures if ok then IsVerified(old(Tables()), calculation, Tables()) else Tables() == old(Tables())
      ensures ok ==> calculations[calculation].dueAt.Some?
    {
      StepSound(Tables(), Verify(calculation, user));
      CommitsMeans(Tables(), Verify(calculation, user));
      if calculation >= |calculations| {
        return false;
      }
      var c := calculations[calculation];
      if c.status == VERIFIED || c.status == BLOCKED || (c.status != REVIEW_REQUIRED && c.status != CALCULATED) {
        return false;
      }
      if segregation && c.calculatedBy == user {
        return false;
      }
      calculations := calculations[calculation := c.(status := VERIFIED)];
      return true;
    }

    /** A calculation gets its one live deadline, with a due time; it can get no second one. */
    method CreateTrackedDeadline(calculation: nat) returns (ok: bool)
      requires Sound(Tables())
      modifies this`deadlines
      ensures Sound(Tables())
      ensures Tables() == old(Next(Tables(), Track(calculation)))
      ensures ok <==> CanTrack(old(Tables()), calculation)
      ensures if ok then TrackingAdded(old(Tables()), calculation, Tables()) else Tables() == old(Tables())
      ensures ok ==> old(LiveOn(deadlines, calculation)) == [] && LiveOn(deadlines, calculation) == [old(|deadlines|)]
      ensures ok ==> deadlines[old(|deadlines|)].dueAt.Some?
      ensures LiveCount(deadlines) == old(LiveCount(deadlines)) + if ok then 1 else 0
    {
      ghost var before := Tables();
      StepSound(before, Track(calculation));
      CommitsMeans(before, Track(calculation));
      LiveDeadlinesAreConserved(before, Track(calculation));
      ok := TrackInTransaction(calculation);
      if ok {
        TrackedHasOne(before, calculation, Tables());
      }
    }

    method TrackInTransaction(calculation: nat) returns (ok: bool)
      modifies this`deadlines
      ensures ok <==> old(Commits(Tables(), Track(calculation)))
      ensures Tables() == old(Next(Tables(), Track(calculation)))
    {
      if calculation >= |calculations| || calculations[calculation].status != VERIFIED {
        return false;
      }
      if LiveOn(deadlines, calculation) != [] {
        return false;
      }
      deadlines := deadlines + [Deadline(calculation, UPCOMING, calculations[calculation].dueAt, None)];
      return true;
    }

    /**
     The live deadline of the calculation, if it has one, goes over to the new calculation, whose
     version is above all earlier ones.  No live deadline is lost, and the old calculation keeps none.
     */
    method RecalculateDeadline(calculation: nat, user: nat, inputsOk: bool, dueAt: Option<int>) returns (ok: bool)
      requires Sound(Tables())
      modifies this
      ensures Sound(Tables())
      ensures Tables() == old(Next(Tables(), Recalculate(calculation, user, inputsOk, dueAt)))
      ensures ok <==> CanRecalculate(old(Tables()), calculation, inputsOk)
      ensures if ok then IsRecalculated(old(Tables()), calculation, user, dueAt, Tables())
        else Tables() == old(Tables())
      ensures LiveCount(deadlines) == old(LiveCount(deadlines))
      ensures ok ==>
        && Newest(calculations, old(|calculations|))
        && LiveOn(deadlines, calculation) == []
        && |LiveOn(deadlines, old(|calculations|))| == old(|LiveOn(deadlines, calculation)|)
    {
      ghost var before := Tables();
      ghost var step := Recalculate(calculation, user, inputsOk, dueAt);
      StepSound(before, step);
      StepMeans(before, step);
      CommitsMeans(before, step);
      LiveDeadlinesAreConserved(before, step);
      ok := RecalculateInTransaction(calculation, user, inputsOk, dueAt);
      if ok {
        GrownIsNewest(calculations);
        RecalculationHandsOver(before, step, Tables());
      }
    }

    method RecalculateInTransaction(calculation: nat, user: nat, inputsOk: bool, dueAt: Option<int>) returns (ok: bool)
      modifies this
      ensures ok <==> old(Commits(Tables(), Recalculate(calculation, user, inputsOk, dueAt)))
      ensures Tables() == old(Next(Tables(), Recalculate(calculation, user, inputsOk, dueAt)))
    {
      if calculation >= |calculations| || !Recalculable(calculations[calculation].status) || !inputsOk {
        return false;
      }
      var prior := calculations[calculation];
      var renewed := CalculateInternal(prior.event, prior.assessment, user, dueAt, Some(calculation));
      calculations := calculations[calculation := calculations[calculation].(status := CALCULATION_SUPERSEDED)];
      ghost var before := deadlines;
      var tracked := LiveOn(deadlines, calculation);
      for i := 0 to |tracked|
        invariant deadlines == SupersedeAll(before, tracked[..i], renewed, dueAt)
        invariant calculations == old(Next(Tables(), Recalculate(calculation, user, inputsOk, dueAt))).calculations
      {
        assert tracked[..i + 1][..i] == tracked[..i];
        var superseding := |deadlines|;
        var former := deadlines[tracked[i]];
        deadlines := deadlines[tracked[i] := former.(status := SUPERSEDED, supersededBy := Some(superseding))]
          + [Deadline(renewed, UPCOMING, dueAt, None)];
      }
      assert tracked[..|tracked|] == tracked;
      return true;
    }
  }
}
