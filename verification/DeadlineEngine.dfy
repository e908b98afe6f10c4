/**
 `calculateDeadline` of packages/contract-rules/src/deadline-engine.ts: validation, day arithmetic,
 adjustment, end-of-day convention, trace and internal milestones.  A moment is a local day number
 and a millisecond of the day; reading dates and adding months are inputs of the calculation.
 */
module DeadlineEngine {
  import opened Results
  import opened BusinessCalendar

  datatype Unit = CALENDAR_DAY | BUSINESS_DAY | WEEK | MONTH | IMMEDIATE | PROMPT | REASONABLE_TIME | CUSTOM
  datatype Counting = INCLUSIVE | EXCLUSIVE | UNSPECIFIED
  datatype TimeBar = EXPRESS_CONDITION_PRECEDENT | EXPRESS_TIME_BAR | PROCEDURAL_DEADLINE
    | RECOMMENDED_INTERNAL_DEADLINE | UNCERTAIN | NOT_A_TIME_BAR
  datatype StartConvention = EXCLUDE_TRIGGER_DAY | INCLUDE_TRIGGER_DAY
  datatype EndConvention = END_OF_DAY | START_OF_DAY | EXACT_TIMESTAMP
  datatype MonthRoll = SAME_DAY_OR_LAST | BLOCK_IF_AMBIGUOUS

  datatype Rule = Rule(
    unit: Unit,
    value: Option<int>,
    counting: Counting,
    start: StartConvention,
    end: EndConvention,
    adjustment: Adjustment,
    timeBar: TimeBar,
    ambiguityNotes: nat,
    humanApproved: bool,
    recipientsApproved: bool,
    monthRoll: MonthRoll)

  datatype Reason = NotApproved | AmbiguityUnresolved | TimeBarUncertain | RecipientsNotApproved | NotDefinitive
    | CustomUnit | CountingUnspecified | ValueMissing | ValueNegative | ImmediateNumeric
    | CalendarInvalid | TriggerInvalid | MonthEndNotApproved

  const MS_PER_DAY: nat := 86_400_000

  datatype Moment = Moment(day: int, ms: nat)

  predicate Valid(m: Moment) {
    m.ms < MS_PER_DAY
  }

  predicate Before(a: Moment, b: Moment) {
    a.day < b.day || (a.day == b.day && a.ms < b.ms)
  }

  predicate NotAfter(a: Moment, b: Moment) {
    !Before(b, a)
  }

  // ---------------------------------------------------------------------------------------
  // Validation
  // ---------------------------------------------------------------------------------------

  predicate NonNumeric(u: Unit) {
    u == IMMEDIATE || u == PROMPT || u == REASONABLE_TIME
  }

  /** The rule is approved and unambiguous. */
  predicate Settled(r: Rule) {
    && r.humanApproved && r.recipientsApproved && r.ambiguityNotes == 0
    && r.timeBar != UNCERTAIN && r.counting != UNSPECIFIED
  }

  /** What a rule must be like to be executable, by unit. */
  predicate Executable(r: Rule) {
    && Settled(r)
    && match r.unit
       case IMMEDIATE => r.value.None?
       case PROMPT | REASONABLE_TIME | CUSTOM => false
       case _ => r.value.Some? && r.value.value >= 0
  }

  /** The condition each reason stands for. */
  predicate Applies(r: Rule, reason: Reason) {
    match reason
    case NotApproved => !r.humanApproved
    case AmbiguityUnresolved => r.ambiguityNotes > 0
    case TimeBarUncertain => r.timeBar == UNCERTAIN
    case RecipientsNotApproved => !r.recipientsApproved
    case NotDefinitive => r.unit == PROMPT || r.unit == REASONABLE_TIME
    case CustomUnit => r.unit == CUSTOM
    case CountingUnspecified => r.counting == UNSPECIFIED
    case ValueMissing => !NonNumeric(r.unit) && r.value.None?
    case ValueNegative => !NonNumeric(r.unit) && r.value.Some? && r.value.value < 0
    case ImmediateNumeric => r.unit == IMMEDIATE && r.value.Some?
    case _ => false
  }

  lemma NoReasonApplies(r: Rule)
    ensures Executable(r) <==> forall reason :: !Applies(r, reason)
  {
    if forall reason :: !Applies(r, reason) {
      assert !Applies(r, NotApproved) && !Applies(r, AmbiguityUnresolved) && !Applies(r, TimeBarUncertain);
      assert !Applies(r, RecipientsNotApproved) && !Applies(r, NotDefinitive) && !Applies(r, CustomUnit);
      assert !Applies(r, CountingUnspecified) && !Applies(r, ValueMissing) && !Applies(r, ValueNegative);
      assert !Applies(r, ImmediateNumeric);
    }
  }

  method AddIf(reasons: seq<Reason>, applies: bool, reason: Reason) returns (more: seq<Reason>)
    ensures forall x :: x in more <==> x in reasons || (applies && x == reason)
  {
    more := if applies then reasons + [reason] else reasons;
  }

  predicate IsApprovalReason(reason: Reason) {
    reason in {NotApproved, AmbiguityUnresolved, TimeBarUncertain, RecipientsNotApproved}
  }

  method ApprovalReasons(r: Rule) returns (reasons: seq<Reason>)
    ensures forall x :: x in reasons <==> IsApprovalReason(x) && Applies(r, x)
  {
    reasons := AddIf([], !r.humanApproved, NotApproved);
    reasons := AddIf(reasons, r.ambiguityNotes > 0, AmbiguityUnresolved);
    reasons := AddIf(reasons, r.timeBar == UNCERTAIN, TimeBarUncertain);
    reasons := AddIf(reasons, !r.recipientsApproved, RecipientsNotApproved);
  }

  /** Exactly the reasons that apply are collected, and none does exactly for an executable rule. */
  method ValidateExecutableRule(r: Rule) returns (reasons: seq<Reason>)
    ensures reasons == [] <==> Executable(r)
    ensures forall x :: x in reasons <==> Applies(r, x)
  {
    NoReasonApplies(r);
    reasons := ApprovalReasons(r);
    reasons := AddIf(reasons, r.unit == PROMPT || r.unit == REASONABLE_TIME, NotDefinitive);
    reasons := AddIf(reasons, r.unit == CUSTOM, CustomUnit);
    reasons := AddIf(reasons, r.counting == UNSPECIFIED, CountingUnspecified);
    if !NonNumeric(r.unit) {
      if r.value.None? {
        reasons := reasons + [ValueMissing];
      } else if r.value.value < 0 {
        reasons := reasons + [ValueNegative];
      }
    } else if r.unit == IMMEDIATE && r.value.Some? {
      reasons := reasons + [ImmediateNumeric];
    }
    assert reasons != [] ==> reasons[0] in reasons;
  }

  // ---------------------------------------------------------------------------------------
  // The deadline as a function
  // ---------------------------------------------------------------------------------------

  function DaysToAdd(r: Rule, raw: nat): (days: nat)
    ensures days <= raw
  {
    if raw >= 1 && (r.start == INCLUDE_TRIGGER_DAY || r.counting == INCLUSIVE) then raw - 1 else raw
  }

  /** The day `n` months later, as the date library computes it. */
  type MonthStep = (int, nat) -> int

  /** The day on which the counting of days, weeks or months ends, before any adjustment. */
  function CountedDay(r: Rule, plusMonths: MonthStep, day: int, raw: nat): int {
    match r.unit
    case CALENDAR_DAY => day + DaysToAdd(r, raw)
    case WEEK => day + 7 * raw
    case MONTH => plusMonths(day, raw)
    case _ => day
  }

  /** The final day of the period of `raw` units that starts on `day`. */
  function FinalDay(r: Rule, c: Calendar, plusMonths: MonthStep, day: int, raw: nat): int {
    match r.unit
    case CALENDAR_DAY | WEEK | MONTH => Adjusted(c, CountedDay(r, plusMonths, day, raw), r.adjustment)
    case BUSINESS_DAY => Add(c, day, DaysToAdd(r, raw))
    case _ => day
  }

  function EndOfPeriod(e: EndConvention, day: int, ms: nat): Moment {
    match e
    case END_OF_DAY => Moment(day, MS_PER_DAY - 1)
    case START_OF_DAY => Moment(day, 0)
    case EXACT_TIMESTAMP => Moment(day, ms)
  }

  function RawDays(r: Rule): nat {
    if r.value.Some? && r.value.value >= 0 then r.value.value else 0
  }

  /** The contractual deadline of an executable rule. */
  function Deadline(r: Rule, c: Calendar, plusMonths: MonthStep, trigger: Moment): Moment {
    if r.unit == IMMEDIATE then trigger
    else EndOfPeriod(r.end, FinalDay(r, c, plusMonths, trigger.day, RawDays(r)), trigger.ms)
  }

  // ---------------------------------------------------------------------------------------
  // The deadline, said of clock and calendar alone
  // ---------------------------------------------------------------------------------------

  /** Moments are ordered as the milliseconds since the start of day 0. */
  lemma BeforeOnTheClock(a: Moment, b: Moment)
    requires Valid(a) && Valid(b)
    ensures Before(a, b) <==> 86_400_000 * a.day + a.ms < 86_400_000 * b.day + b.ms
  {
  }

  /** No moment of the day is earlier, or none is later. */
  ghost predicate IsFirstOfDay(m: Moment) {
    Valid(m) && forall x :: Valid(x) && x.day == m.day ==> NotAfter(m, x)
  }

  ghost predicate IsLastOfDay(m: Moment) {
    Valid(m) && forall x :: Valid(x) && x.day == m.day ==> NotAfter(x, m)
  }

  lemma DayBounds(m: Moment)
    ensures IsFirstOfDay(m) <==> m.ms == 0
    ensures IsLastOfDay(m) <==> m.ms == 86_399_999
  {
    assert Valid(Moment(m.day, 0)) && Valid(Moment(m.day, 86_399_999));
  }

  /** Value units on, one less if the trigger day counts; weeks and months take no notice of that. */
  ghost predicate IsCountedTo(r: Rule, plusMonths: MonthStep, from: int, base: int)
    requires r.value.Some? && r.value.value >= 0
  {
    var n: nat := r.value.value;
    match r.unit
    case CALENDAR_DAY => base == from + n - (if n > 0 && CountsTriggerDay(r) then 1 else 0)
    case WEEK => base == from + 7 * n
    case MONTH => base == plusMonths(from, n)
    case _ => base == from
  }

  predicate CountsTriggerDay(r: Rule) {
    r.start == INCLUDE_TRIGGER_DAY || r.counting == INCLUSIVE
  }

  /** The day on which the period of an executable rule ends. */
  ghost predicate IsFinalDay(r: Rule, c: Calendar, plusMonths: MonthStep, from: int, day: int)
    requires r.value.Some? && r.value.value >= 0
  {
    var n: nat := r.value.value;
    if r.unit == BUSINESS_DAY then
      IsNthBusinessDay(c, from, if n > 0 && CountsTriggerDay(r) then n - 1 else n, day)
    else
      exists base :: IsCountedTo(r, plusMonths, from, base) && IsMovedTo(c, base, day, r.adjustment)
  }

  /** The whole promise: on the final day, at its first or last moment or at the time of the trigger. */
  ghost predicate IsDeadline(r: Rule, c: Calendar, plusMonths: MonthStep, trigger: Moment, at: Moment) {
    if r.unit == IMMEDIATE then at == trigger
    else
      && r.value.Some? && r.value.value >= 0
      && IsFinalDay(r, c, plusMonths, trigger.day, at.day)
      && match r.end
         case START_OF_DAY => IsFirstOfDay(at)
         case END_OF_DAY => IsLastOfDay(at)
         case EXACT_TIMESTAMP => at.ms == trigger.ms
  }

  lemma FinalDayIs(r: Rule, c: Calendar, plusMonths: MonthStep, from: int)
    requires Executable(r) && r.unit != IMMEDIATE
    ensures IsFinalDay(r, c, plusMonths, from, FinalDay(r, c, plusMonths, from, RawDays(r)))
  {
    if r.unit == BUSINESS_DAY {
      AddIsNth(c, from, DaysToAdd(r, RawDays(r)));
    } else {
      var base := CountedDay(r, plusMonths, from, RawDays(r));
      AdjustedIsMoved(c, base, r.adjustment);
      assert IsCountedTo(r, plusMonths, from, base);
    }
  }

  lemma DeadlineIs(r: Rule, c: Calendar, plusMonths: MonthStep, trigger: Moment)
    requires Executable(r)
    ensures IsDeadline(r, c, plusMonths, trigger, Deadline(r, c, plusMonths, trigger))
  {
    if r.unit != IMMEDIATE {
      FinalDayIs(r, c, plusMonths, trigger.day);
      DayBounds(Deadline(r, c, plusMonths, trigger));
    }
  }

  /** Mending one flaw of a rule takes away the reason for it, and no other. */
  lemma MendingTakesItsReason(r: Rule, x: Reason)
    ensures Applies(r.(humanApproved := true), x) <==> Applies(r, x) && x != NotApproved
    ensures Applies(r.(ambiguityNotes := 0), x) <==> Applies(r, x) && x != AmbiguityUnresolved
    ensures Applies(r.(timeBar := NOT_A_TIME_BAR), x) <==> Applies(r, x) && x != TimeBarUncertain
    ensures Applies(r.(recipientsApproved := true), x) <==> Applies(r, x) && x != RecipientsNotApproved
    ensures Applies(r.(counting := EXCLUSIVE), x) <==> Applies(r, x) && x != CountingUnspecified
    ensures r.unit in {CALENDAR_DAY, BUSINESS_DAY, WEEK, MONTH} ==>
      (Applies(r.(value := Some(0)), x) <==> Applies(r, x) && x != ValueMissing && x != ValueNegative)
    ensures r.unit == IMMEDIATE ==> (Applies(r.(value := None), x) <==> Applies(r, x) && x != ImmediateNumeric)
    ensures r.unit in {PROMPT, REASONABLE_TIME} ==>
      (Applies(r.(unit := IMMEDIATE, value := None), x) <==> Applies(r, x) && x != NotDefinitive)
    ensures Applies(r.(unit := CALENDAR_DAY), x) ==> Applies(r.(unit := CUSTOM), x)
    ensures Applies(r.(unit := CUSTOM), x) <==> Applies(r.(unit := CALENDAR_DAY), x) || x == CustomUnit
  {
  }

  // ---------------------------------------------------------------------------------------
  // The calculation
  // ---------------------------------------------------------------------------------------

  datatype Operation = SELECT_TRIGGER_DATE | NORMALIZE_TIMEZONE | APPLY_START_DAY_RULE | ADD_CALENDAR_DAYS
    | ADD_BUSINESS_DAYS | ADD_WEEKS | ADD_MONTHS | APPLY_END_DAY_RULE | APPLY_WEEKEND_ADJUSTMENT
    | APPLY_INTERNAL_BUFFER | BLOCK_AMBIGUOUS_RULE | HANDLE_IMMEDIATE

  datatype TraceStep = TraceStep(sequence: nat, operation: Operation)

  datatype Milestone = Milestone(due: Moment, offsetDays: nat)

  datatype Calculation =
    | BLOCKED(reasons: seq<Reason>, trace: seq<TraceStep>)
    | CALCULATED(at: Moment, immediate: bool, trace: seq<TraceStep>, milestones: seq<Milestone>)

  function Push(trace: seq<TraceStep>, operation: Operation): seq<TraceStep> {
    trace + [TraceStep(|trace| + 1, operation)]
  }

  /** The steps are numbered 1, 2, 3 and so on. */
  predicate Numbered(trace: seq<TraceStep>) {
    forall i :: 0 <= i < |trace| ==> trace[i].sequence == i + 1
  }

  function Operations(trace: seq<TraceStep>): (ops: seq<Operation>)
    ensures |ops| == |trace|
  {
    seq(|trace|, i requires 0 <= i < |trace| => trace[i].operation)
  }

  lemma PushedOperation(trace: seq<TraceStep>, operation: Operation)
    ensures Operations(Push(trace, operation)) == Operations(trace) + [operation]
  {
  }

  ghost function Buffers(n: nat): (ops: seq<Operation>)
    ensures |ops| == n && forall i :: 0 <= i < n ==> ops[i] == APPLY_INTERNAL_BUFFER
    decreases n
  {
    if n == 0 then [] else Buffers(n - 1) + [APPLY_INTERNAL_BUFFER]
  }

  function DaysBefore(m: Moment, days: nat): Moment {
    m.(day := m.day - days)
  }

  /** The warnings that fall after the trigger, in the order of their offsets. */
  function Milestones(deadline: Moment, trigger: Moment, offsets: seq<nat>): seq<Milestone>
    decreases |offsets|
  {
    if offsets == [] then []
    else
      var earlier := Milestones(deadline, trigger, offsets[..|offsets| - 1]);
      var offset := offsets[|offsets| - 1];
      var due := DaysBefore(deadline, offset);
      if Before(trigger, due) then earlier + [Milestone(due, offset)] else earlier
  }

  method AddMilestones(deadline: Moment, trigger: Moment, offsets: seq<nat>, trace0: seq<TraceStep>)
    returns (milestones: seq<Milestone>, trace: seq<TraceStep>)
    requires Numbered(trace0)
    ensures milestones == Milestones(deadline, trigger, offsets)
    ensures Numbered(trace)
    ensures Operations(trace) == Operations(trace0) + Buffers(|milestones|)
  {
    milestones, trace := [], trace0;
    for i := 0 to |offsets|
      invariant milestones == Milestones(deadline, trigger, offsets[..i])
      invariant Numbered(trace)
      invariant Operations(trace) == Operations(trace0) + Buffers(|milestones|)
    {
      assert offsets[..i + 1][..i] == offsets[..i];
      var warnAt := DaysBefore(deadline, offsets[i]);
      if Before(trigger, warnAt) {
        PushedOperation(trace, APPLY_INTERNAL_BUFFER);
        milestones := milestones + [Milestone(warnAt, offsets[i])];
        trace := Push(trace, APPLY_INTERNAL_BUFFER);
      }
    }
    assert offsets[..|offsets|] == offsets;
  }

  /** One step for the counting, and one if the day was moved; business days are not moved. */
  ghost function PeriodOperations(unit: Unit, moved: bool): seq<Operation> {
    match unit
    case BUSINESS_DAY => [ADD_BUSINESS_DAYS]
    case CALENDAR_DAY => [ADD_CALENDAR_DAYS] + if moved then [APPLY_WEEKEND_ADJUSTMENT] else []
    case WEEK => [ADD_WEEKS] + if moved then [APPLY_WEEKEND_ADJUSTMENT] else []
    case _ => [ADD_MONTHS] + if moved then [APPLY_WEEKEND_ADJUSTMENT] else []
  }

  /** The steps up to the point where a calculation blocks or ends. */
  ghost function ExpectedOperations(r: Rule, readable: bool, from: int, plusMonths: MonthStep, result: Calculation)
    : seq<Operation>
    requires result.CALCULATED? && r.unit != IMMEDIATE ==> r.value.Some? && r.value.value >= 0
  {
    var begin := [SELECT_TRIGGER_DATE, NORMALIZE_TIMEZONE];
    if !readable then [BLOCK_AMBIGUOUS_RULE]
    else if r.unit == IMMEDIATE then begin + [HANDLE_IMMEDIATE]
    else if result.BLOCKED? then begin + [APPLY_START_DAY_RULE, BLOCK_AMBIGUOUS_RULE]
    else
      begin + [APPLY_START_DAY_RULE] + PeriodOperations(r.unit, !IsCountedTo(r, plusMonths, from, result.at.day))
      + [APPLY_END_DAY_RULE] + Buffers(|result.milestones|)
  }

  /** The day arithmetic of an executable rule that is not immediate. */
  method CountPeriod(r: Rule, c: Calendar, plusMonths: MonthStep, day: int, trace0: seq<TraceStep>)
    returns (cursor: int, trace: seq<TraceStep>)
    requires Numbered(trace0) && Executable(r) && r.unit != IMMEDIATE
    ensures cursor == FinalDay(r, c, plusMonths, day, RawDays(r))
    ensures IsFinalDay(r, c, plusMonths, day, cursor)
    ensures Numbered(trace)
    ensures Operations(trace)
      == Operations(trace0) + PeriodOperations(r.unit, !IsCountedTo(r, plusMonths, day, cursor))
  {
    FinalDayIs(r, c, plusMonths, day);
    cursor, trace := day, trace0;
    var rawDays: nat := r.value.value;
    var daysToAdd := rawDays;
    if r.start == INCLUDE_TRIGGER_DAY && rawDays >= 1 {
      daysToAdd := rawDays - 1;
    }
    if r.counting == INCLUSIVE && r.start == EXCLUDE_TRIGGER_DAY && rawDays >= 1 {
      daysToAdd := rawDays - 1;
    }
    if r.unit == CALENDAR_DAY {
      cursor := cursor + daysToAdd;
      trace := Push(trace, ADD_CALENDAR_DAYS);
    } else if r.unit == BUSINESS_DAY {
      cursor := AddBusinessDays(c, cursor, daysToAdd);
      trace := Push(trace, ADD_BUSINESS_DAYS);
    } else if r.unit == WEEK {
      cursor := cursor + 7 * rawDays;
      trace := Push(trace, ADD_WEEKS);
    } else {
      cursor := plusMonths(cursor, rawDays);
      trace := Push(trace, ADD_MONTHS);
    }
    if r.unit != BUSINESS_DAY {
      var beforeAdjust := cursor;
      cursor := AdjustNonWorking(c, cursor, r.adjustment);
      if beforeAdjust != cursor {
        trace := Push(trace, APPLY_WEEKEND_ADJUSTMENT);
      }
    }
  }

  predicate BlocksMonths(r: Rule) {
    r.unit == MONTH && r.monthRoll != SAME_DAY_OR_LAST
  }

  /** The deadline of a rule with a period, its milestones and the steps from the counting on. */
  method CalculatePeriod(r: Rule, c: Calendar, plusMonths: MonthStep, trigger: Moment, offsets: seq<nat>,
                         trace0: seq<TraceStep>)
    returns (result: Calculation)
    requires Numbered(trace0) && Executable(r) && r.unit != IMMEDIATE
    ensures result.CALCULATED? && !result.immediate && result.at == Deadline(r, c, plusMonths, trigger)
    ensures result.milestones == Milestones(result.at, trigger, offsets)
    ensures Numbered(result.trace)
    ensures Operations(result.trace)
      == Operations(trace0) + PeriodOperations(r.unit, !IsCountedTo(r, plusMonths, trigger.day, result.at.day))
         + [APPLY_END_DAY_RULE] + Buffers(|result.milestones|)
  {
    var day, trace := CountPeriod(r, c, plusMonths, trigger.day, trace0);
    var cursor := EndOfPeriod(r.end, day, trigger.ms);
    assert cursor.day == day;
    PushedOperation(trace, APPLY_END_DAY_RULE);
    trace := Push(trace, APPLY_END_DAY_RULE);
    var milestones;
    milestones, trace := AddMilestones(cursor, trigger, offsets, trace);
    return CALCULATED(cursor, false, trace, milestones);
  }

  /** The calculation of an executable rule from a trigger that can be read. */
  method CalculateReadable(r: Rule, c: Calendar, trigger: Moment, offsets: seq<nat>, plusMonths: MonthStep)
    returns (result: Calculation)
    requires Executable(r)
    ensures result.CALCULATED? <==> !BlocksMonths(r)
    ensures result.BLOCKED? ==> result.reasons == [MonthEndNotApproved]
    ensures result.CALCULATED? ==>
      && result.at == Deadline(r, c, plusMonths, trigger) && (result.immediate <==> r.unit == IMMEDIATE)
      && result.milestones == if r.unit == IMMEDIATE then [] else Milestones(result.at, trigger, offsets)
    ensures Numbered(result.trace)
    ensures Operations(result.trace) == ExpectedOperations(r, true, trigger.day, plusMonths, result)
  {
    var trace := Push(Push([], SELECT_TRIGGER_DATE), NORMALIZE_TIMEZONE);
    if r.unit == IMMEDIATE {
      return CALCULATED(trigger, true, Push(trace, HANDLE_IMMEDIATE), []);
    }
    trace := Push(trace, APPLY_START_DAY_RULE);
    if r.unit == MONTH && r.monthRoll != SAME_DAY_OR_LAST {
      return BLOCKED([MonthEndNotApproved], Push(trace, BLOCK_AMBIGUOUS_RULE));
    }
    result := CalculatePeriod(r, c, plusMonths, trigger, offsets, trace);
  }

  /**
   The whole calculation.  `calendarOk` says whether the time zone of the calendar is known, and
   `trigger` is the trigger read in that zone, if it can be read.
   */
  method CalculateDeadline(r: Rule, c: Calendar, calendarOk: bool, trigger: Option<Moment>, offsets: seq<nat>,
                           plusMonths: MonthStep)
    returns (result: Calculation)
    ensures result.CALCULATED?
      <==> && Executable(r) && calendarOk && trigger.Some?
           && (r.unit == MONTH ==> r.monthRoll == SAME_DAY_OR_LAST)
    ensures result.BLOCKED? ==> result.reasons != [] && forall x :: x in result.reasons <==>
      if !Executable(r) || !calendarOk then Applies(r, x) || (x == CalendarInvalid && !calendarOk)
      else if trigger.None? then x == TriggerInvalid
      else x == MonthEndNotApproved
    ensures result.CALCULATED? ==> IsDeadline(r, c, plusMonths, trigger.value, result.at)
    ensures result.CALCULATED? ==>
      && result.at == Deadline(r, c, plusMonths, trigger.value)
      && (result.immediate <==> r.unit == IMMEDIATE)
      && result.milestones == if r.unit == IMMEDIATE then [] else Milestones(result.at, trigger.value, offsets)
    ensures Numbered(result.trace)
    ensures
      var readable := Executable(r) && calendarOk && trigger.Some?;
      Operations(result.trace)
        == ExpectedOperations(r, readable, if readable then trigger.value.day else 0, plusMonths, result)
  {
    var trace: seq<TraceStep> := [];
    var reasons := ValidateExecutableRule(r);
    if reasons != [] || !calendarOk {
      return BLOCKED(if calendarOk then reasons else reasons + [CalendarInvalid], Push(trace, BLOCK_AMBIGUOUS_RULE));
    }
    if trigger.None? {
      return BLOCKED([TriggerInvalid], Push(trace, BLOCK_AMBIGUOUS_RULE));
    }
    DeadlineIs(r, c, plusMonths, trigger.value);
    result := CalculateReadable(r, c, trigger.value, offsets, plusMonths);
  }

  // ---------------------------------------------------------------------------------------
  // Milestones
  // ---------------------------------------------------------------------------------------

  /** Every milestone lies strictly between trigger and deadline, and every offset with room has one. */
  lemma {:induction false} MilestonesBetween(deadline: Moment, trigger: Moment, offsets: seq<nat>, m: Milestone)
    requires forall i :: 0 <= i < |offsets| ==> offsets[i] > 0
    ensures m in Milestones(deadline, trigger, offsets) <==>
      && m.offsetDays in offsets && m.due.day == deadline.day - m.offsetDays && m.due.ms == deadline.ms
      && Before(trigger, m.due)
    ensures m in Milestones(deadline, trigger, offsets) ==> Before(m.due, deadline)
    decreases |offsets|
  {
    if offsets != [] {
      var front := offsets[..|offsets| - 1];
      MilestonesBetween(deadline, trigger, front, m);
      assert offsets == front + [offsets[|offsets| - 1]];
    }
  }

  // ---------------------------------------------------------------------------------------
  // Monotonicity
  // ---------------------------------------------------------------------------------------

  /** More months, or a later start, never lead to an earlier day. */
  ghost predicate MonotoneMonths(plusMonths: MonthStep) {
    && (forall d, m, n :: m <= n ==> plusMonths(d, m) <= plusMonths(d, n))
    && (forall d, e, n :: d <= e ==> plusMonths(d, n) <= plusMonths(e, n))
  }

  function WithValue(r: Rule, n: nat): Rule {
    r.(value := Some(n as int))
  }

  lemma DurationMovesFinalDay(r: Rule, c: Calendar, plusMonths: MonthStep, day: int, m: nat, n: nat)
    requires m <= n && MonotoneMonths(plusMonths)
    ensures FinalDay(r, c, plusMonths, day, m) <= FinalDay(r, c, plusMonths, day, n)
  {
    match r.unit
    case CALENDAR_DAY => AdjustedMonotone(c, day + DaysToAdd(r, m), day + DaysToAdd(r, n), r.adjustment);
    case BUSINESS_DAY => AddMonotoneInDays(c, day, DaysToAdd(r, m), DaysToAdd(r, n));
    case WEEK => AdjustedMonotone(c, day + 7 * m, day + 7 * n, r.adjustment);
    case MONTH => AdjustedMonotone(c, plusMonths(day, m), plusMonths(day, n), r.adjustment);
    case _ =>
  }

  /** A longer period never gives an earlier deadline. */
  lemma LongerIsNotEarlier(r: Rule, c: Calendar, plusMonths: MonthStep, trigger: Moment, m: nat, n: nat)
    requires m <= n && MonotoneMonths(plusMonths)
    ensures NotAfter(Deadline(WithValue(r, m), c, plusMonths, trigger),
      Deadline(WithValue(r, n), c, plusMonths, trigger))
  {
    DurationMovesFinalDay(WithValue(r, m), c, plusMonths, trigger.day, m, n);
    assert FinalDay(WithValue(r, m), c, plusMonths, trigger.day, n)
      == FinalDay(WithValue(r, n), c, plusMonths, trigger.day, n);
  }

  lemma TriggerMovesFinalDay(r: Rule, c: Calendar, plusMonths: MonthStep, d: int, e: int, n: nat)
    requires d <= e && MonotoneMonths(plusMonths)
    ensures FinalDay(r, c, plusMonths, d, n) <= FinalDay(r, c, plusMonths, e, n)
  {
    match r.unit
    case CALENDAR_DAY => AdjustedMonotone(c, d + DaysToAdd(r, n), e + DaysToAdd(r, n), r.adjustment);
    case BUSINESS_DAY => AddMonotoneInStart(c, d, e, DaysToAdd(r, n));
    case WEEK => AdjustedMonotone(c, d + 7 * n, e + 7 * n, r.adjustment);
    case MONTH => AdjustedMonotone(c, plusMonths(d, n), plusMonths(e, n), r.adjustment);
    case _ =>
  }

  /** A later trigger never gives an earlier deadline day. */
  lemma LaterTriggerIsNotAnEarlierDay(r: Rule, c: Calendar, plusMonths: MonthStep, a: Moment, b: Moment)
    requires NotAfter(a, b) && MonotoneMonths(plusMonths)
    ensures Deadline(r, c, plusMonths, a).day <= Deadline(r, c, plusMonths, b).day
  {
    TriggerMovesFinalDay(r, c, plusMonths, a.day, b.day, RawDays(r));
  }

  /** A later trigger never gives an earlier moment. */
  ghost predicate MonotoneInTrigger(r: Rule, c: Calendar, plusMonths: MonthStep) {
    forall a, b :: Valid(a) && Valid(b) && NotAfter(a, b) ==>
      NotAfter(Deadline(r, c, plusMonths, a), Deadline(r, c, plusMonths, b))
  }

  /**
   The calendar makes one deadline day of two successive trigger days.  With business days: the second
   is skipped, and enough follow within the guard.  Otherwise: the days counted to are moved to one day.
   */
  ghost predicate Merges(r: Rule, c: Calendar, plusMonths: MonthStep, day: int) {
    var raw := RawDays(r);
    match r.unit
    case BUSINESS_DAY =>
      DaysToAdd(r, raw) > 0 && !BusinessDay(c, day + 1) && Count(c, day, ADD_GUARD) >= DaysToAdd(r, raw)
    case CALENDAR_DAY | WEEK | MONTH =>
      MovedTogether(c, CountedDay(r, plusMonths, day, raw), CountedDay(r, plusMonths, day + 1, raw), r.adjustment)
    case _ => false
  }

  lemma MergesToOneDay(r: Rule, c: Calendar, plusMonths: MonthStep, day: int)
    requires MonotoneMonths(plusMonths)
    ensures FinalDay(r, c, plusMonths, day, RawDays(r)) == FinalDay(r, c, plusMonths, day + 1, RawDays(r))
      <==> Merges(r, c, plusMonths, day)
  {
    var raw := RawDays(r);
    match r.unit
    case BUSINESS_DAY => AddCollapse(c, day, DaysToAdd(r, raw));
    case CALENDAR_DAY | WEEK | MONTH => {
      AdjustedTogether(c, CountedDay(r, plusMonths, day, raw), CountedDay(r, plusMonths, day + 1, raw), r.adjustment);
    }
    case _ =>
  }

  /**
   To the moment this is false of exact timestamps, where an afternoon and the next morning can
   be moved to the same day.  It holds exactly when the calendar merges no two successive trigger days.
   */
  lemma TriggerMonotone(r: Rule, c: Calendar, plusMonths: MonthStep)
    requires MonotoneMonths(plusMonths)
    ensures MonotoneInTrigger(r, c, plusMonths)
      <==> r.end != EXACT_TIMESTAMP || forall day :: !Merges(r, c, plusMonths, day)
  {
    if r.end != EXACT_TIMESTAMP || forall day :: !Merges(r, c, plusMonths, day) {
      forall a, b | Valid(a) && Valid(b) && NotAfter(a, b)
        ensures NotAfter(Deadline(r, c, plusMonths, a), Deadline(r, c, plusMonths, b))
      {
        TriggerMovesFinalDay(r, c, plusMonths, a.day, b.day, RawDays(r));
        if a.day < b.day && r.end == EXACT_TIMESTAMP {
          MergesToOneDay(r, c, plusMonths, a.day);
          TriggerMovesFinalDay(r, c, plusMonths, a.day, a.day + 1, RawDays(r));
          TriggerMovesFinalDay(r, c, plusMonths, a.day + 1, b.day, RawDays(r));
        }
      }
    } else {
      var day :| Merges(r, c, plusMonths, day);
      MergesToOneDay(r, c, plusMonths, day);
      var a, b := Moment(day, 1), Moment(day + 1, 0);
      assert NotAfter(a, b) && !NotAfter(Deadline(r, c, plusMonths, a), Deadline(r, c, plusMonths, b));
    }
  }

  /**
   For days and weeks moved off days that are no business days, with a calendar that the guard copes
   with, nothing short of every day being a business day is enough.
   */
  lemma MonotoneOnlyWithoutRest(r: Rule, c: Calendar, plusMonths: MonthStep)
    requires MonotoneMonths(plusMonths) && (r.unit == CALENDAR_DAY || r.unit == WEEK)
    requires r.end == EXACT_TIMESTAMP && r.adjustment != NONE && HasWorkingWeekday(c) && |c.holidays| <= 52
    ensures MonotoneInTrigger(r, c, plusMonths) <==> forall d :: BusinessDay(c, d)
  {
    TriggerMonotone(r, c, plusMonths);
    var shift := if r.unit == WEEK then 7 * RawDays(r) else DaysToAdd(r, RawDays(r));
    if d :| !BusinessDay(c, d) {
      var day := if r.adjustment == FORWARD then d - shift else d - shift - 1;
      var first, second := CountedDay(r, plusMonths, day, RawDays(r)), CountedDay(r, plusMonths, day + 1, RawDays(r));
      assert second == first + 1 && d == if r.adjustment == FORWARD then first else second;
      RestMerges(c, first, r.adjustment);
      assert Merges(r, c, plusMonths, day);
    } else {
      forall day
        ensures !Merges(r, c, plusMonths, day)
      {
        var first, second := CountedDay(r, plusMonths, day, RawDays(r)), CountedDay(r, plusMonths, day + 1, RawDays(r));
        assert second == first + 1 && BusinessDay(c, first) && BusinessDay(c, second);
      }
    }
  }

  lemma RestMerges(c: Calendar, d: int, adjustment: Adjustment)
    requires HasWorkingWeekday(c) && |c.holidays| <= 52 && adjustment != NONE
    requires !BusinessDay(c, if adjustment == FORWARD then d else d + 1)
    ensures MovedTogether(c, d, d + 1, adjustment)
  {
    var e := if adjustment == FORWARD then d else d + 1;
    AdjustGuardIsSafe(c, e, adjustment);
    var k := SeekIsNearest(c, e, Step(adjustment), ADJUST_GUARD);
    assert BusinessDay(c, After(e, Step(adjustment), k)) && k > 0;
  }

  function WeekendCalendar(): Calendar {
    Calendar({6, 7}, {}, {})
  }

  /** One calendar day, exact timestamp, moved forward to a working day. */
  function NextWorkingDayRule(): Rule {
    Rule(CALENDAR_DAY, Some(1), EXCLUSIVE, EXCLUDE_TRIGGER_DAY, EXACT_TIMESTAMP, FORWARD, PROCEDURAL_DEADLINE, 0,
         true, true, BLOCK_IF_AMBIGUOUS)
  }

  /**
   A concrete case: day 1 is a Friday.  Triggered on Friday at 15:00 the deadline is Monday at
   15:00; triggered on Saturday at 09:00, Monday at 09:00.
   */
  lemma LaterTriggerEarlierDeadline(plusMonths: MonthStep)
    ensures var a, b := Moment(1, 54_000_000), Moment(2, 32_400_000);
      && Weekday(1) == 5 && Executable(NextWorkingDayRule()) && Before(a, b)
      && Before(Deadline(NextWorkingDayRule(), WeekendCalendar(), plusMonths, b),
                Deadline(NextWorkingDayRule(), WeekendCalendar(), plusMonths, a))
  {
    var c := WeekendCalendar();
    assert Weekday(1) == 5 && Weekday(2) == 6 && Weekday(3) == 7 && Weekday(4) == 1;
    SeekAtMost(c, 2, 1, ADJUST_GUARD, 2);
    var k := SeekIsNearest(c, 2, 1, ADJUST_GUARD);
    assert BusinessDay(c, 4) && !BusinessDay(c, 3) && !BusinessDay(c, 2);
  }

  /** A calendar with fewer business days never gives an earlier deadline. */
  lemma FewerBusinessDaysAreNotEarlier(r: Rule, c: Calendar, e: Calendar, plusMonths: MonthStep, trigger: Moment)
    requires FewerBusinessDays(c, e)
    requires r.unit == BUSINESS_DAY || r.adjustment != BACKWARD
    ensures NotAfter(Deadline(r, e, plusMonths, trigger), Deadline(r, c, plusMonths, trigger))
  {
    var day, n := trigger.day, RawDays(r);
    match r.unit
    case CALENDAR_DAY => ForwardMonotoneInCalendar(c, e, day + DaysToAdd(r, n));
    case BUSINESS_DAY => AddMonotoneInCalendar(c, e, day, DaysToAdd(r, n));
    case WEEK => ForwardMonotoneInCalendar(c, e, day + 7 * n);
    case MONTH => ForwardMonotoneInCalendar(c, e, plusMonths(day, n));
    case _ =>
  }

  /** Moved backward it never gives a later one. */
  lemma FewerBusinessDaysAreNotLater(r: Rule, c: Calendar, e: Calendar, plusMonths: MonthStep, trigger: Moment)
    requires FewerBusinessDays(c, e)
    requires r.unit != BUSINESS_DAY && r.adjustment != FORWARD
    ensures NotAfter(Deadline(r, c, plusMonths, trigger), Deadline(r, e, plusMonths, trigger))
  {
    BackwardMonotoneInCalendar(c, e, CountedDay(r, plusMonths, trigger.day, RawDays(r)));
  }

  /** One business day, the trigger day included, to the end of that day. */
  function OneBusinessDayRule(adjustment: Adjustment): Rule {
    Rule(BUSINESS_DAY, Some(1), EXCLUSIVE, INCLUDE_TRIGGER_DAY, END_OF_DAY, adjustment, PROCEDURAL_DEADLINE, 0,
         true, true, BLOCK_IF_AMBIGUOUS)
  }

  /**
   A concrete case: day 2 is a Saturday.  One business day from it on is Monday, day 4, but the
   deadline is the end of that Saturday, whatever the rule says of days that are no business days.
   */
  lemma DeadlineOnASaturday(adjustment: Adjustment, plusMonths: MonthStep, ms: nat)
    ensures Executable(OneBusinessDayRule(adjustment))
    ensures Weekday(2) == 6 && !BusinessDay(WeekendCalendar(), 2) && Add(WeekendCalendar(), 1, 1) == 4
    ensures Deadline(OneBusinessDayRule(adjustment), WeekendCalendar(), plusMonths, Moment(2, ms))
      == Moment(2, MS_PER_DAY - 1)
  {
    var c := WeekendCalendar();
    assert Weekday(2) == 6 && Weekday(3) == 7 && Weekday(4) == 1;
    assert Add(c, 1, 1) == Advance(c, 4, 0, ADD_GUARD - 3);
  }
}
