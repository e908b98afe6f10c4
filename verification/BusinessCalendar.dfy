/**
 Business days and the two guarded calendar loops of packages/contract-rules/src/deadline-engine.ts.
 A day is a local day number, day 0 being Thursday 1 January 1970.
 */
module BusinessCalendar {

  /** Days of the week are numbered 1 (Monday) to 7 (Sunday). */
  datatype Calendar = Calendar(weekend: set<nat>, holidays: set<int>, special: set<int>)

  const ADD_GUARD: nat := 5000
  const ADJUST_GUARD: nat := 370

  function Weekday(d: int): (w: nat)
    ensures 1 <= w <= 7
  {
    (d + 3) % 7 + 1
  }

  /** A special working day wins over a weekend day, and that over a holiday. */
  predicate BusinessDay(c: Calendar, d: int) {
    d in c.special || (Weekday(d) !in c.weekend && d !in c.holidays)
  }

  /** The number of business days among the `k` days after `s`. */
  function Count(c: Calendar, s: int, k: nat): (n: nat)
    ensures n <= k
    decreases k, s
  {
    if k == 0 then 0 else (if BusinessDay(c, s + 1) then 1 else 0) + Count(c, s + 1, k - 1)
  }

  // ---------------------------------------------------------------------------------------
  // Adding business days
  // ---------------------------------------------------------------------------------------

  /** `n` business days after `s`, looking at no more than `guard` days. */
  function Advance(c: Calendar, s: int, n: nat, guard: nat): (r: int)
    ensures s <= r <= s + guard
    decreases guard, s
  {
    if n == 0 || guard == 0 then s
    else Advance(c, s + 1, if BusinessDay(c, s + 1) then n - 1 else n, guard - 1)
  }

  function Add(c: Calendar, s: int, n: nat): int {
    Advance(c, s, n, ADD_GUARD)
  }

  method AddBusinessDays(c: Calendar, start: int, days: nat) returns (cursor: int)
    ensures cursor == Add(c, start, days) && IsNthBusinessDay(c, start, days, cursor)
    ensures start <= cursor <= start + ADD_GUARD
    ensures Count(c, start, cursor - start) == days
      || (cursor == start + ADD_GUARD && Count(c, start, ADD_GUARD) < days)
    ensures forall k :: 0 <= k < cursor - start ==> Count(c, start, k) < days
  {
    cursor := start;
    var remaining := days;
    var guard: nat := 0;
    while remaining > 0 && guard < ADD_GUARD
      invariant 0 <= guard <= ADD_GUARD
      invariant Advance(c, start, days, ADD_GUARD) == Advance(c, cursor, remaining, ADD_GUARD - guard)
    {
      cursor := cursor + 1;
      if BusinessDay(c, cursor) {
        remaining := remaining - 1;
      }
      guard := guard + 1;
    }
    var k := AdvanceIsNth(c, start, days, ADD_GUARD);
    AddIsNth(c, start, days);
  }

  /** Closed form: `k` is the least number of days that hold `n` business days, or the guard. */
  lemma {:induction false} AdvanceIsNth(c: Calendar, s: int, n: nat, guard: nat) returns (k: nat)
    ensures Advance(c, s, n, guard) == s + k && k <= guard
    ensures Count(c, s, k) == n || (Count(c, s, k) < n && k == guard)
    ensures forall j :: 0 <= j < k ==> Count(c, s, j) < n
    decreases guard
  {
    if n == 0 || guard == 0 {
      k := 0;
    } else {
      var m := if BusinessDay(c, s + 1) then n - 1 else n;
      var k' := AdvanceIsNth(c, s + 1, m, guard - 1);
      k := k' + 1;
      forall j | 0 <= j < k
        ensures Count(c, s, j) < n
      {
        if j > 0 {
          assert Count(c, s + 1, j - 1) < m;
        }
      }
    }
  }

  lemma {:induction false} CountSplit(c: Calendar, s: int, j: nat, k: nat)
    ensures Count(c, s, j + k) == Count(c, s, j) + Count(c, s + j, k)
    decreases j
  {
    if j > 0 {
      CountSplit(c, s + 1, j - 1, k);
    }
  }

  /** Fewer days hold no more business days. */
  lemma CountWithin(c: Calendar, s: int, outer: nat, t: int, inner: nat)
    requires s <= t && t + inner <= s + outer
    ensures Count(c, t, inner) <= Count(c, s, outer)
  {
    CountSplit(c, s, t - s, outer - (t - s));
    CountSplit(c, t, inner, outer - (t - s) - inner);
  }

  /** The day is not later than any by which `n` business days have passed. */
  lemma AdvanceAtMost(c: Calendar, s: int, n: nat, guard: nat, k: nat)
    requires Count(c, s, k) >= n || k == guard
    ensures Advance(c, s, n, guard) <= s + k
  {
    var j := AdvanceIsNth(c, s, n, guard);
  }

  lemma {:induction false} AdvanceAtLeast(c: Calendar, s: int, n: nat, guard: nat, k: nat)
    requires k <= guard && forall j :: 0 <= j < k ==> Count(c, s, j) < n
    ensures Advance(c, s, n, guard) >= s + k
    decreases k
  {
    if k > 0 {
      assert Count(c, s, 0) == 0 < n;
      var next, m := s + 1, if BusinessDay(c, s + 1) then n - 1 else n;
      forall j | 0 <= j < k - 1
        ensures Count(c, next, j) < m
      {
        assert Count(c, s, j + 1) < n;
      }
      AdvanceAtLeast(c, next, m, guard - 1, k - 1);
    }
  }

  /** The closed form determines the day. */
  lemma AdvanceUnique(c: Calendar, s: int, n: nat, guard: nat, k: nat)
    requires k <= guard && (Count(c, s, k) == n || (Count(c, s, k) < n && k == guard))
    requires forall j :: 0 <= j < k ==> Count(c, s, j) < n
    ensures Advance(c, s, n, guard) == s + k
  {
    AdvanceAtMost(c, s, n, guard, k);
    AdvanceAtLeast(c, s, n, guard, k);
  }

  /** If `guard` days hold `n` business days, the guard does not matter: any larger one gives the same day. */
  lemma GuardDoesNotMatter(c: Calendar, s: int, n: nat, guard: nat, larger: nat) returns (k: nat)
    requires Count(c, s, guard) >= n && guard <= larger
    ensures Advance(c, s, n, larger) == Advance(c, s, n, guard) == s + k
    ensures k <= guard && Count(c, s, k) == n && forall j :: 0 <= j < k ==> Count(c, s, j) < n
  {
    k := AdvanceIsNth(c, s, n, guard);
    AdvanceUnique(c, s, n, larger, k);
  }

  /**
   Adding a and then b business days is adding a + b business days exactly when a or b is zero or
   the guard does not cut the addition of a + b short.
   */
  lemma AddTwice(c: Calendar, s: int, a: nat, b: nat)
    ensures Add(c, Add(c, s, a), b) == Add(c, s, a + b)
      <==> a == 0 || b == 0 || Count(c, s, ADD_GUARD) >= a + b
  {
    if Count(c, s, ADD_GUARD) >= a + b {
      AddTwiceUncut(c, s, a, b);
    } else if a > 0 && b > 0 {
      AddTwiceCut(c, s, a, b);
    }
  }

  /** When the guard cuts the addition of a + b short, going in two steps leads further. */
  lemma AddTwiceCut(c: Calendar, s: int, a: nat, b: nat)
    requires a > 0 && b > 0 && Count(c, s, ADD_GUARD) < a + b
    ensures Add(c, Add(c, s, a), b) > s + ADD_GUARD >= Add(c, s, a + b)
  {
    var j := AdvanceIsNth(c, s, a, ADD_GUARD);
    var k := AdvanceIsNth(c, s + j, b, ADD_GUARD);
    assert Count(c, s, 0) == 0 == Count(c, s + j, 0);
    if j + k <= ADD_GUARD {
      CountSplit(c, s, j, k);
      CountWithin(c, s, ADD_GUARD, s, j + k);
    }
  }

  lemma AddTwiceUncut(c: Calendar, s: int, a: nat, b: nat)
    requires Count(c, s, ADD_GUARD) >= a + b
    ensures Add(c, Add(c, s, a), b) == Add(c, s, a + b)
  {
    var k := GuardDoesNotMatter(c, s, a, ADD_GUARD, ADD_GUARD);
    var l := GuardDoesNotMatter(c, s, a + b, ADD_GUARD, ADD_GUARD);
    AdvanceAtMost(c, s, a, ADD_GUARD, l);
    CountSplit(c, s, k, l - k);
    var mid := s + k;
    forall j | 0 <= j < l - k
      ensures Count(c, mid, j) < b
    {
      assert Count(c, s, k + j) < a + b;
      CountSplit(c, s, k, j);
    }
    AdvanceUnique(c, mid, b, ADD_GUARD, l - k);
  }

  /**
   Taking one day off for an included trigger day means that the trigger day counts as the first
   business day.  As long as the guard does not cut, that is right exactly if it is one, and a business
   day early otherwise; once the guard cuts, the two results can also agree by chance, or the other way.
   */
  lemma IncludedTriggerDay(c: Calendar, day: int, n: nat)
    requires n > 0
    ensures Add(c, day, n - 1) == Add(c, day - 1, n) <==>
      if BusinessDay(c, day) then Count(c, day, ADD_GUARD - 1) >= n - 1
      else n > 1 && Count(c, day, ADD_GUARD - 1) == n - 1 && BusinessDay(c, day + (ADD_GUARD - 1))
    ensures Add(c, day, n - 1) <= Add(c, day - 1, n) <==> Count(c, day, ADD_GUARD - 1) >= n - 1
  {
    var last, m: nat := ADD_GUARD - 1, if BusinessDay(c, day) then n - 1 else n;
    assert Add(c, day - 1, n) == Advance(c, day, m, last);
    CountedFrom(c, day, n, m, last);
  }

  /** Counting `n - 1` days within the guard against counting `m` days with one day less. */
  lemma CountedFrom(c: Calendar, day: int, n: nat, m: nat, last: nat)
    requires n > 0 && last == ADD_GUARD - 1 && (m == n - 1 || m == n)
    ensures Add(c, day, n - 1) == Advance(c, day, m, last) <==>
      if m == n - 1 then Count(c, day, last) >= n - 1
      else n > 1 && Count(c, day, last) == n - 1 && BusinessDay(c, day + last)
    ensures Add(c, day, n - 1) <= Advance(c, day, m, last) <==> Count(c, day, last) >= n - 1
  {
    if Count(c, day, last) < n - 1 {
      CutAtGuard(c, day, n - 1, last);
      CutAtGuard(c, day, m, last);
    } else {
      var k := GuardDoesNotMatter(c, day, n - 1, last, ADD_GUARD);
      LaterByOne(c, day, n - 1, k, last);
    }
  }

  /** With too few business days the larger guard leads a day further. */
  lemma CutAtGuard(c: Calendar, s: int, n: nat, guard: nat)
    requires Count(c, s, guard) < n
    ensures Advance(c, s, n, guard) == s + guard && Advance(c, s, n, guard + 1) == s + guard + 1
  {
    var k := AdvanceIsNth(c, s, n, guard);
    var l := AdvanceIsNth(c, s, n, guard + 1);
    CountWithin(c, s, guard, s, k);
    if l <= guard {
      CountWithin(c, s, guard, s, l);
    }
  }

  /** One business day more leads further, unless the last day of the guard is already the `n`th. */
  lemma LaterByOne(c: Calendar, s: int, n: nat, k: nat, guard: nat)
    requires 0 < guard && k <= guard && Count(c, s, k) == n && forall j :: 0 <= j < k ==> Count(c, s, j) < n
    ensures s + k <= Advance(c, s, n + 1, guard)
    ensures s + k == Advance(c, s, n + 1, guard) <==> n > 0 && Count(c, s, guard) == n && BusinessDay(c, s + guard)
  {
    var l := AdvanceIsNth(c, s, n + 1, guard);
    CountSplit(c, s, guard - 1, 1);
    assert Count(c, s + (guard - 1), 1) == if BusinessDay(c, s + guard) then 1 else 0;
    if k < guard {
      CountWithin(c, s, guard - 1, s, k);
    }
  }

  // ---------------------------------------------------------------------------------------
  // How many business days there must be
  // ---------------------------------------------------------------------------------------

  /** Some day of the week is not a weekend day. */
  predicate HasWorkingWeekday(c: Calendar) {
    exists w :: 1 <= w <= 7 && w !in c.weekend
  }

  function HolidaysIn(c: Calendar, s: int, k: nat): set<int> {
    set d | d in c.holidays && s < d <= s + k
  }

  /** The day of weekday `w` among the seven days after `s`. */
  function DayOfWeek(s: int, w: nat): (d: int)
    requires 1 <= w <= 7
    ensures s < d <= s + 7 && Weekday(d) == w
  {
    s + 1 + (w - Weekday(s + 1)) % 7
  }

  lemma CountsADay(c: Calendar, s: int, k: nat, d: int)
    requires s < d <= s + k && BusinessDay(c, d)
    ensures Count(c, s, k) > 0
  {
    CountSplit(c, s, d - 1 - s, k - (d - 1 - s));
  }

  lemma HolidaysSplit(c: Calendar, s: int, j: nat, k: nat)
    ensures |HolidaysIn(c, s, j + k)| == |HolidaysIn(c, s, j)| + |HolidaysIn(c, s + j, k)|
  {
    var a, b := HolidaysIn(c, s, j), HolidaysIn(c, s + j, k);
    assert a !! b && HolidaysIn(c, s, j + k) == a + b;
  }

  /** Among 7 m days there is a business day or a holiday for each week. */
  lemma {:induction false} OnePerWeek(c: Calendar, s: int, m: nat)
    requires HasWorkingWeekday(c)
    ensures Count(c, s, 7 * m) + |HolidaysIn(c, s, 7 * m)| >= m
    decreases m
  {
    if m > 0 {
      var w :| 1 <= w <= 7 && w !in c.weekend;
      var d := DayOfWeek(s, w);
      if BusinessDay(c, d) {
        CountsADay(c, s, 7, d);
      } else {
        assert d in HolidaysIn(c, s, 7);
      }
      OnePerWeek(c, s + 7, m - 1);
      CountSplit(c, s, 7, 7 * (m - 1));
      HolidaysSplit(c, s, 7, 7 * (m - 1));
    }
  }

  lemma SubsetSize(a: set<int>, b: set<int>)
    requires a <= b
    ensures |a| <= |b|
  {
    assert b == a + (b - a);
  }

  lemma EnoughBusinessDays(c: Calendar, s: int, m: nat)
    requires HasWorkingWeekday(c)
    ensures Count(c, s, 7 * m) >= m - |c.holidays|
  {
    OnePerWeek(c, s, m);
    SubsetSize(HolidaysIn(c, s, 7 * m), c.holidays);
  }

  /**
   The guard of 5000 days never cuts an addition short as long as seven times the business days
   and the holidays together stay within it.
   */
  lemma AddGuardIsSafe(c: Calendar, s: int, n: nat)
    requires HasWorkingWeekday(c) && 7 * (n + |c.holidays|) <= ADD_GUARD
    ensures Count(c, s, Add(c, s, n) - s) == n
    ensures n > 0 ==> BusinessDay(c, Add(c, s, n))
  {
    var m := n + |c.holidays|;
    EnoughBusinessDays(c, s, m);
    CountWithin(c, s, ADD_GUARD, s, 7 * m);
    var k := GuardDoesNotMatter(c, s, n, ADD_GUARD, ADD_GUARD);
    if k > 0 {
      CountSplit(c, s, k - 1, 1);
      assert Count(c, s, k - 1) < n;
      assert Count(c, s + (k - 1), 1) == 1;
    }
  }

  // ---------------------------------------------------------------------------------------
  // Adjusting to a working day
  // ---------------------------------------------------------------------------------------

  datatype Adjustment = FORWARD | BACKWARD | NONE

  function Step(adjustment: Adjustment): int {
    if adjustment == FORWARD then 1 else -1
  }

  function Seek(c: Calendar, d: int, step: int, guard: nat): int
    decreases guard, d
  {
    if BusinessDay(c, d) || guard == 0 then d else Seek(c, d + step, step, guard - 1)
  }

  function Adjusted(c: Calendar, d: int, adjustment: Adjustment): int {
    if adjustment == NONE then d else Seek(c, d, Step(adjustment), ADJUST_GUARD)
  }

  method AdjustNonWorking(c: Calendar, day: int, adjustment: Adjustment) returns (cursor: int)
    ensures cursor == Adjusted(c, day, adjustment) && IsMovedTo(c, day, cursor, adjustment)
  {
    AdjustedIsMoved(c, day, adjustment);
    if adjustment == NONE {
      return day;
    }
    cursor := day;
    var guard: nat := 0;
    while !BusinessDay(c, cursor) && guard < ADJUST_GUARD
      invariant 0 <= guard <= ADJUST_GUARD
      invariant Seek(c, day, Step(adjustment), ADJUST_GUARD) == Seek(c, cursor, Step(adjustment), ADJUST_GUARD - guard)
    {
      cursor := if adjustment == FORWARD then cursor + 1 else cursor - 1;
      guard := guard + 1;
    }
  }

  /** `k` steps from `d` in a direction. */
  function After(d: int, step: int, k: int): int {
    if step == 1 then d + k else d - k
  }

  /** Closed form: the nearest business day in the direction, or exactly `guard` days away. */
  lemma {:induction false} SeekIsNearest(c: Calendar, d: int, step: int, guard: nat) returns (k: nat)
    requires step == 1 || step == -1
    ensures k <= guard && Seek(c, d, step, guard) == After(d, step, k)
    ensures BusinessDay(c, After(d, step, k)) || k == guard
    ensures forall j :: 0 <= j < k ==> !BusinessDay(c, After(d, step, j))
    decreases guard
  {
    if BusinessDay(c, d) || guard == 0 {
      k := 0;
    } else {
      var k' := SeekIsNearest(c, d + step, step, guard - 1);
      k := k' + 1;
      forall j | 0 <= j < k
        ensures !BusinessDay(c, After(d, step, j))
      {
        if j > 0 {
          assert After(d, step, j) == After(d + step, step, j - 1);
        }
      }
    }
  }

  lemma {:induction false} NoneCounted(c: Calendar, s: int, k: nat)
    requires forall d :: s < d <= s + k ==> !BusinessDay(c, d)
    ensures Count(c, s, k) == 0
    decreases k
  {
    if k > 0 {
      NoneCounted(c, s + 1, k - 1);
    }
  }

  /** With at most 52 holidays an adjusted day is always a business day: 371 days hold 53 of each weekday. */
  lemma AdjustGuardIsSafe(c: Calendar, d: int, adjustment: Adjustment)
    requires HasWorkingWeekday(c) && |c.holidays| <= 52 && adjustment != NONE
    ensures BusinessDay(c, Adjusted(c, d, adjustment))
  {
    var step := Step(adjustment);
    var k := SeekIsNearest(c, d, step, ADJUST_GUARD);
    if !BusinessDay(c, After(d, step, k)) {
      var s := if adjustment == FORWARD then d - 1 else d - 371;
      forall e | s < e <= s + 371
        ensures !BusinessDay(c, e)
      {
        var j := if adjustment == FORWARD then e - d else d - e;
        assert After(d, step, j) == e;
      }
      NoneCounted(c, s, 371);
      EnoughBusinessDays(c, s, 53);
    }
  }

  /** `n` days, one a week, the first being `d`. */
  function Weekly(d: int, n: nat): (s: set<int>)
    ensures forall e :: e in s <==> exists i :: 0 <= i < n && e == d + 7 * i
  {
    set i | 0 <= i < n :: d + 7 * i
  }

  lemma WeeklyNext(d: int, n: nat)
    ensures d + 7 * n !in Weekly(d, n) && Weekly(d, n + 1) == Weekly(d, n) + {d + 7 * n}
  {
    forall e | e in Weekly(d, n + 1)
      ensures e in Weekly(d, n) || e == d + 7 * n
    {
      var i :| 0 <= i < n + 1 && e == d + 7 * i;
      assert i < n ==> e in Weekly(d, n);
    }
  }

  lemma SizeNext(a: set<int>, x: int, b: set<int>)
    requires x !in a && b == a + {x}
    ensures |b| == |a| + 1
  {
  }

  lemma {:induction false} WeeklySize(d: int, n: nat)
    ensures |Weekly(d, n)| == n
    decreases n
  {
    if n > 0 {
      var m: nat := n - 1;
      WeeklySize(d, m);
      WeeklyNext(d, m);
      SizeNext(Weekly(d, m), d + 7 * m, Weekly(d, n));
    }
  }

  /** A calendar that works on one day of the week, except on the next 53 of them. */
  function SparseCalendar(d: int): Calendar {
    Calendar({1, 2, 3, 4, 5, 6, 7} - {Weekday(d)}, Weekly(d, 53), {})
  }

  /** One holiday more than 52 and the guard can end the search on a day that is no business day. */
  lemma AdjustGuardIsTight(d: int)
    ensures HasWorkingWeekday(SparseCalendar(d)) && |SparseCalendar(d).holidays| == 53
    ensures Adjusted(SparseCalendar(d), d, FORWARD) == d + 370
    ensures !BusinessDay(SparseCalendar(d), d + 370)
  {
    var c := SparseCalendar(d);
    WeeklySize(d, 53);
    assert Weekday(d) !in c.weekend;
    forall e | d <= e <= d + 370
      ensures !BusinessDay(c, e)
    {
      NoBusinessDay(d, e);
    }
    var k := SeekIsNearest(c, d, 1, ADJUST_GUARD);
  }

  lemma NoBusinessDay(d: int, e: int)
    requires d <= e <= d + 370
    ensures !BusinessDay(SparseCalendar(d), e)
  {
    if Weekday(e) == Weekday(d) {
      var i := (e - d) / 7;
      assert e == d + 7 * i;
      assert e in Weekly(d, 53);
    }
  }

  // ---------------------------------------------------------------------------------------
  // Monotonicity
  // ---------------------------------------------------------------------------------------

  lemma AddMonotoneInDays(c: Calendar, s: int, m: nat, n: nat)
    requires m <= n
    ensures Add(c, s, m) <= Add(c, s, n)
  {
    var k := AdvanceIsNth(c, s, n, ADD_GUARD);
    AdvanceAtMost(c, s, m, ADD_GUARD, k);
  }

  lemma AddMonotoneInStart(c: Calendar, s: int, t: int, n: nat)
    requires s <= t
    ensures Add(c, s, n) <= Add(c, t, n)
  {
    var k := AdvanceIsNth(c, t, n, ADD_GUARD);
    if k < ADD_GUARD {
      CountWithin(c, s, t + k - s, t, k);
      AdvanceAtMost(c, s, n, ADD_GUARD, t + k - s);
    }
  }

  /** Every business day of `c` is one of `e`. */
  ghost predicate FewerBusinessDays(c: Calendar, e: Calendar) {
    forall d :: BusinessDay(c, d) ==> BusinessDay(e, d)
  }

  lemma {:induction false} CountMonotone(c: Calendar, e: Calendar, s: int, k: nat)
    requires FewerBusinessDays(c, e)
    ensures Count(c, s, k) <= Count(e, s, k)
    decreases k
  {
    if k > 0 {
      CountMonotone(c, e, s + 1, k - 1);
    }
  }

  lemma AddMonotoneInCalendar(c: Calendar, e: Calendar, s: int, n: nat)
    requires FewerBusinessDays(c, e)
    ensures Add(e, s, n) <= Add(c, s, n)
  {
    var k := AdvanceIsNth(c, s, n, ADD_GUARD);
    CountMonotone(c, e, s, k);
    AdvanceAtMost(e, s, n, ADD_GUARD, k);
  }

  /** The search ends no further than any business day, and no further than its guard. */
  lemma {:induction false} SeekAtMost(c: Calendar, d: int, step: int, guard: nat, k: nat)
    requires step == 1 || step == -1
    requires k <= guard ==> k == guard || BusinessDay(c, After(d, step, k))
    ensures step == 1 ==> d <= Seek(c, d, step, guard) <= d + k
    ensures step == -1 ==> d - k <= Seek(c, d, step, guard) <= d
    decreases guard
  {
    if !BusinessDay(c, d) && guard > 0 {
      if k > 0 {
        assert After(d, step, k) == After(d + step, step, k - 1);
        SeekAtMost(c, d + step, step, guard - 1, k - 1);
      }
    }
  }

  lemma AdjustedMonotone(c: Calendar, d: int, e: int, adjustment: Adjustment)
    requires d <= e
    ensures Adjusted(c, d, adjustment) <= Adjusted(c, e, adjustment)
  {
    if adjustment == FORWARD {
      var l := SeekIsNearest(c, e, 1, ADJUST_GUARD);
      SeekAtMost(c, d, 1, ADJUST_GUARD, if l == ADJUST_GUARD then ADJUST_GUARD else e + l - d);
    } else if adjustment == BACKWARD {
      var k := SeekIsNearest(c, d, -1, ADJUST_GUARD);
      SeekAtMost(c, e, -1, ADJUST_GUARD, if k == ADJUST_GUARD then ADJUST_GUARD else e - (d - k));
    }
  }

  lemma ForwardMonotoneInCalendar(c: Calendar, e: Calendar, d: int)
    requires FewerBusinessDays(c, e)
    ensures Adjusted(e, d, FORWARD) <= Adjusted(c, d, FORWARD)
  {
    var k := SeekIsNearest(c, d, 1, ADJUST_GUARD);
    SeekAtMost(e, d, 1, ADJUST_GUARD, k);
  }

  lemma BackwardMonotoneInCalendar(c: Calendar, e: Calendar, d: int)
    requires FewerBusinessDays(c, e)
    ensures Adjusted(c, d, BACKWARD) <= Adjusted(e, d, BACKWARD)
  {
    var k := SeekIsNearest(c, d, -1, ADJUST_GUARD);
    SeekAtMost(e, d, -1, ADJUST_GUARD, k);
  }

  /** Two successive start days reach the same day exactly when the second is skipped and the guard does not cut. */
  lemma AddCollapse(c: Calendar, s: int, n: nat)
    ensures Add(c, s, n) == Add(c, s + 1, n) <==> n > 0 && !BusinessDay(c, s + 1) && Count(c, s, ADD_GUARD) >= n
  {
    AddMonotoneInStart(c, s, s + 1, n);
    if BusinessDay(c, s + 1) || n == 0 {
      NotCollapsed(c, s, n);
    } else if Count(c, s, ADD_GUARD) >= n {
      var k := GuardDoesNotMatter(c, s, n, ADD_GUARD, ADD_GUARD);
      assert Count(c, s, 0) == 0;
      AdvanceAtMost(c, s + 1, n, ADD_GUARD, k - 1);
    } else {
      AdvanceCut(c, s, n);
      var l := AdvanceIsNth(c, s + 1, n, ADD_GUARD);
      CountSplit(c, s, 1, ADD_GUARD - 1);
    }
  }

  lemma NotCollapsed(c: Calendar, s: int, n: nat)
    requires BusinessDay(c, s + 1) || n == 0
    ensures Add(c, s, n) != Add(c, s + 1, n)
  {
    var k := AdvanceIsNth(c, s, n, ADD_GUARD);
    var l := AdvanceIsNth(c, s + 1, n, ADD_GUARD);
    assert Count(c, s, 0) == 0;
    CountSplit(c, s, 1, l);
    assert Count(c, s, l + 1) == Count(c, s, 1) + Count(c, s + 1, l);
  }

  /** Too few business days within the guard: the result is the last day looked at. */
  lemma AdvanceCut(c: Calendar, s: int, n: nat)
    requires Count(c, s, ADD_GUARD) < n
    ensures Add(c, s, n) == s + ADD_GUARD
  {
    var k := AdvanceIsNth(c, s, n, ADD_GUARD);
    CountWithin(c, s, ADD_GUARD, s, k);
  }

  /**
   Of two days both are moved to the same day: there is no business day before the later one has
   been reached, and one after that within the guard.
   */
  ghost predicate MovedTogether(c: Calendar, d: int, e: int, adjustment: Adjustment) {
    || d == e
    || match adjustment
       case NONE => false
       case FORWARD => (forall x :: d <= x < e ==> !BusinessDay(c, x)) && BusinessDayIn(c, e, d + ADJUST_GUARD)
       case BACKWARD => (forall x :: d < x <= e ==> !BusinessDay(c, x)) && BusinessDayIn(c, e - ADJUST_GUARD, d)
  }

  ghost predicate BusinessDayIn(c: Calendar, from: int, last: int) {
    exists x :: from <= x <= last && BusinessDay(c, x)
  }

  lemma AdjustedTogether(c: Calendar, d: int, e: int, adjustment: Adjustment)
    requires d <= e
    ensures Adjusted(c, d, adjustment) == Adjusted(c, e, adjustment) <==> MovedTogether(c, d, e, adjustment)
  {
    if adjustment == FORWARD {
      ForwardTogether(c, d, e);
    } else if adjustment == BACKWARD {
      BackwardTogether(c, d, e);
    }
  }

  lemma ForwardTogether(c: Calendar, d: int, e: int)
    requires d <= e
    ensures Adjusted(c, d, FORWARD) == Adjusted(c, e, FORWARD) <==> MovedTogether(c, d, e, FORWARD)
  {
    var k := SeekIsNearest(c, d, 1, ADJUST_GUARD);
    var l := SeekIsNearest(c, e, 1, ADJUST_GUARD);
    if d < e && d + k == e + l {
      forall x | d <= x < e
        ensures !BusinessDay(c, x)
      {
        assert After(d, 1, x - d) == x;
      }
    } else if d < e && MovedTogether(c, d, e, FORWARD) {
      var x :| e <= x <= d + ADJUST_GUARD && BusinessDay(c, x);
      SeekAtMost(c, d, 1, ADJUST_GUARD, x - d);
      SeekAtMost(c, e, 1, ADJUST_GUARD, x - e);
      assert k < e - d ==> After(d, 1, k) < e;
      FoundIsBusinessDay(c, d, 1, k, x);
      SeekAtMost(c, e, 1, ADJUST_GUARD, d + k - e);
      AdjustedMonotone(c, d, e, FORWARD);
    }
  }

  /** If there is a business day within the guard then one is found. */
  lemma FoundIsBusinessDay(c: Calendar, d: int, step: int, k: nat, x: int)
    requires step == 1 || step == -1
    requires k <= ADJUST_GUARD && (BusinessDay(c, After(d, step, k)) || k == ADJUST_GUARD)
    requires forall j :: 0 <= j < k ==> !BusinessDay(c, After(d, step, j))
    requires BusinessDay(c, x) && (if step == 1 then 0 <= x - d <= ADJUST_GUARD else 0 <= d - x <= ADJUST_GUARD)
    ensures BusinessDay(c, After(d, step, k))
  {
    var j := if step == 1 then x - d else d - x;
    assert After(d, step, j) == x;
    assert !(j < k);
  }

  lemma BackwardTogether(c: Calendar, d: int, e: int)
    requires d <= e
    ensures Adjusted(c, d, BACKWARD) == Adjusted(c, e, BACKWARD) <==> MovedTogether(c, d, e, BACKWARD)
  {
    var k := SeekIsNearest(c, d, -1, ADJUST_GUARD);
    var l := SeekIsNearest(c, e, -1, ADJUST_GUARD);
    if d < e && d - k == e - l {
      forall x | d < x <= e
        ensures !BusinessDay(c, x)
      {
        assert After(e, -1, e - x) == x;
      }
    } else if d < e && MovedTogether(c, d, e, BACKWARD) {
      var x :| e - ADJUST_GUARD <= x <= d && BusinessDay(c, x);
      SeekAtMost(c, d, -1, ADJUST_GUARD, d - x);
      SeekAtMost(c, e, -1, ADJUST_GUARD, e - x);
      assert l < e - d ==> d < After(e, -1, l);
      FoundIsBusinessDay(c, e, -1, l, x);
      SeekAtMost(c, d, -1, ADJUST_GUARD, l - (e - d));
      AdjustedMonotone(c, d, e, BACKWARD);
    }
  }

  // ---------------------------------------------------------------------------------------
  // Said of days and sets of days alone
  // ---------------------------------------------------------------------------------------

  /** Day 0 was a Thursday, and the days of the week follow one another. */
  lemma WeekdayFollows(d: int)
    ensures Weekday(0) == 4 && Weekday(d + 1) == (if Weekday(d) == 7 then 1 else Weekday(d) + 1)
  {
  }

  /**
   What the three sets of a calendar do, one element at a time: a free calendar works every day; a
   weekend day and a holiday take their days away, unless those are special; a special day is added.
   */
  lemma CalendarSets(c: Calendar, d: int, e: int, w: nat)
    ensures BusinessDay(Calendar({}, {}, {}), d)
    ensures BusinessDay(c.(weekend := c.weekend + {w}), d)
      <==> BusinessDay(c, d) && (Weekday(d) != w || d in c.special)
    ensures BusinessDay(c.(holidays := c.holidays + {e}), d) <==> BusinessDay(c, d) && (d != e || d in c.special)
    ensures BusinessDay(c.(special := c.special + {e}), d) <==> BusinessDay(c, d) || d == e
  {
  }

  /** The business days after `from`, up to and including `at`. */
  ghost function BusinessDays(c: Calendar, from: int, at: int): set<int> {
    set d | from < d <= at && BusinessDay(c, d)
  }

  /** `at` is the `n`th business day after `from`, or 5000 days on if there are fewer. */
  ghost predicate IsNthBusinessDay(c: Calendar, from: int, n: nat, at: int) {
    || (n == 0 && at == from)
    || (n > 0 && from < at <= from + 5000 && |BusinessDays(c, from, at)| == n && BusinessDay(c, at))
    || (at == from + 5000 && |BusinessDays(c, from, at)| < n)
  }

  lemma {:induction false} CountIsSize(c: Calendar, s: int, k: nat)
    ensures |BusinessDays(c, s, s + k)| == Count(c, s, k)
    decreases k
  {
    if k > 0 {
      var all, later, first := BusinessDays(c, s, s + k), BusinessDays(c, s + 1, s + k), s + 1;
      CountIsSize(c, s + 1, k - 1);
      assert first !in later && all == if BusinessDay(c, first) then {first} + later else later;
    }
  }

  lemma AddIsNth(c: Calendar, s: int, n: nat)
    ensures IsNthBusinessDay(c, s, n, Add(c, s, n))
  {
    var k := AdvanceIsNth(c, s, n, ADD_GUARD);
    CountIsSize(c, s, k);
    if k > 0 {
      CountSplit(c, s, k - 1, 1);
      assert Count(c, s, k - 1) < n;
      assert Count(c, s + (k - 1), 1) == if BusinessDay(c, s + k) then 1 else 0;
    }
  }

  /** No business day is skipped on the way from `base` to `at`, where one is, or 370 days have gone by. */
  ghost predicate IsMovedTo(c: Calendar, base: int, at: int, adjustment: Adjustment) {
    match adjustment
    case NONE => at == base
    case FORWARD =>
      && base <= at <= base + 370 && (BusinessDay(c, at) || at == base + 370)
      && forall d :: base <= d < at ==> !BusinessDay(c, d)
    case BACKWARD =>
      && base - 370 <= at <= base && (BusinessDay(c, at) || at == base - 370)
      && forall d :: at < d <= base ==> !BusinessDay(c, d)
  }

  lemma AdjustedIsMoved(c: Calendar, base: int, adjustment: Adjustment)
    ensures IsMovedTo(c, base, Adjusted(c, base, adjustment), adjustment)
  {
    if adjustment == FORWARD {
      var k := SeekIsNearest(c, base, 1, ADJUST_GUARD);
      forall d | base <= d < base + k
        ensures !BusinessDay(c, d)
      {
        assert After(base, 1, d - base) == d;
      }
    } else if adjustment == BACKWARD {
      var k := SeekIsNearest(c, base, -1, ADJUST_GUARD);
      forall d | base - k < d <= base
        ensures !BusinessDay(c, d)
      {
        assert After(base, -1, base - d) == d;
      }
    }
  }
}
