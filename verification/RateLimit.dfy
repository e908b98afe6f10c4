/**
 The in-memory rate limiter of apps/web/src/server/auth/rate-limit.ts: fixed windows, start by the
 first call of a key.  Times are milliseconds; the clock is an input of every call.
 */
module RateLimit {
  import opened Results

  /** An open window: the calls it has seen, and when it ends. */
  datatype Bucket = Bucket(count: nat, resetAt: int)

  datatype Decision = Decision(allowed: bool, remaining: int, retryAfterSeconds: nat)

  function CeilSeconds(ms: int): int {
    (ms + 999) / 1000
  }

  function Max(a: int, b: int): int {
    if a < b then b else a
  }

  /** One call of one key: its new bucket and the decision. */
  function Hit(bucket: Option<Bucket>, limit: nat, windowSeconds: nat, now: int): (Bucket, Decision) {
    if bucket.None? || bucket.value.resetAt <= now then
      (Bucket(1, now + windowSeconds * 1000), Decision(true, limit - 1, windowSeconds))
    else
      var count := bucket.value.count + 1;
      (Bucket(count, bucket.value.resetAt),
       Decision(count <= limit, Max(0, limit - count), Max(1, CeilSeconds(bucket.value.resetAt - now))))
  }

  /** A key without an open window opens one, with this call as its first; otherwise its window sees one more call. */
  ghost predicate CountedIn(before: Option<Bucket>, windowSeconds: nat, now: int, after: Bucket) {
    if before.None? || now >= before.value.resetAt then after.count == 1 && after.resetAt == now + 1000 * windowSeconds
    else after.count == before.value.count + 1 && after.resetAt == before.value.resetAt
  }

  /**
   An open window allows its first `limit` calls.  It tells how many more it would allow, and the
   least number of whole seconds after which it is over.
   */
  ghost predicate Tells(after: Bucket, begins: bool, limit: nat, windowSeconds: nat, now: int, r: Decision) {
    && (r.allowed <==> begins || after.count <= limit)
    && r.remaining == (if r.allowed then limit - after.count else 0)
    && (begins ==> r.retryAfterSeconds == windowSeconds)
    && (!begins ==> now + 1000 * (r.retryAfterSeconds - 1) < after.resetAt <= now + 1000 * r.retryAfterSeconds)
  }

  lemma HitMeans(before: Option<Bucket>, limit: nat, windowSeconds: nat, now: int)
    ensures var (after, r) := Hit(before, limit, windowSeconds, now);
      && CountedIn(before, windowSeconds, now, after)
      && Tells(after, before.None? || now >= before.value.resetAt, limit, windowSeconds, now, r)
  {
  }

  function Lookup(buckets: map<string, Bucket>, key: string): Option<Bucket> {
    if key in buckets then Some(buckets[key]) else None
  }

  class Limiter {
    var buckets: map<string, Bucket>

    constructor ()
      ensures buckets == map[]
    {
      buckets := map[];
    }

    method LimitWithMemory(key: string, limit: nat, windowSeconds: nat, now: int) returns (r: Decision)
      modifies this
      ensures buckets == old(buckets)[key := Hit(Lookup(old(buckets), key), limit, windowSeconds, now).0]
      ensures r == Hit(Lookup(old(buckets), key), limit, windowSeconds, now).1
      ensures key in buckets && buckets == old(buckets)[key := buckets[key]]
      ensures CountedIn(Lookup(old(buckets), key), windowSeconds, now, buckets[key])
      ensures var begins := key !in old(buckets) || old(buckets)[key].resetAt <= now;
        Tells(buckets[key], begins, limit, windowSeconds, now, r)
    {
      HitMeans(Lookup(buckets, key), limit, windowSeconds, now);
      if key !in buckets || buckets[key].resetAt <= now {
        buckets := buckets[key := Bucket(1, now + windowSeconds * 1000)];
        return Decision(true, limit - 1, windowSeconds);
      }
      var current := buckets[key];
      current := current.(count := current.count + 1);
      buckets := buckets[key := current];
      var retryAfterSeconds := Max(1, CeilSeconds(current.resetAt - now));
      return Decision(current.count <= limit, Max(0, limit - current.count), retryAfterSeconds);
    }
  }

  // ---------------------------------------------------------------------------------------
  // Runs
  // ---------------------------------------------------------------------------------------

  datatype Call = Call(key: string, now: int)

  /** The table after a run of calls with one limit and one window length. */
  function After(calls: seq<Call>, limit: nat, windowSeconds: nat): map<string, Bucket>
    decreases |calls|
  {
    if calls == [] then map[]
    else
      var last := calls[|calls| - 1];
      var before := After(calls[..|calls| - 1], limit, windowSeconds);
      before[last.key := Hit(Lookup(before, last.key), limit, windowSeconds, last.now).0]
  }

  /** The times of the calls of one key. */
  function TimesOf(calls: seq<Call>, key: string): seq<int>
    decreases |calls|
  {
    if calls == [] then []
    else
      var last := calls[|calls| - 1];
      TimesOf(calls[..|calls| - 1], key) + if last.key == key then [last.now] else []
  }

  /** The bucket of a key after calls at the given times. */
  function BucketAfter(times: seq<int>, limit: nat, windowSeconds: nat): Option<Bucket>
    decreases |times|
  {
    if times == [] then None
    else Some(Hit(BucketAfter(times[..|times| - 1], limit, windowSeconds), limit, windowSeconds, times[|times| - 1]).0)
  }

  /** Keys do not interfere: the bucket of a key depends on the calls of that key alone. */
  lemma {:induction false} KeysAreIndependent(calls: seq<Call>, key: string, limit: nat, windowSeconds: nat)
    ensures Lookup(After(calls, limit, windowSeconds), key) == BucketAfter(TimesOf(calls, key), limit, windowSeconds)
    decreases |calls|
  {
    if calls != [] {
      var front, last := calls[..|calls| - 1], calls[|calls| - 1];
      KeysAreIndependent(front, key, limit, windowSeconds);
      if last.key == key {
        assert TimesOf(calls, key)[..|TimesOf(calls, key)| - 1] == TimesOf(front, key);
      } else {
        assert TimesOf(calls, key) == TimesOf(front, key);
      }
    }
  }

  /** Whether the last of these calls of a key is allowed. */
  predicate LastAllowed(times: seq<int>, limit: nat, windowSeconds: nat)
    requires times != []
  {
    Hit(BucketAfter(times[..|times| - 1], limit, windowSeconds), limit, windowSeconds, times[|times| - 1]).1.allowed
  }

  /** The interval of one window length that starts at `from`, with or without its end. */
  predicate Inside(time: int, from: int, windowSeconds: nat, closed: bool) {
    from <= time && (time < from + windowSeconds * 1000 || (closed && time == from + windowSeconds * 1000))
  }

  /** How many of the calls in the interval are allowed. */
  function Allowed(times: seq<int>, limit: nat, windowSeconds: nat, from: int, closed: bool): nat
    decreases |times|
  {
    if times == [] then 0
    else
      Allowed(times[..|times| - 1], limit, windowSeconds, from, closed)
      + if LastAllowed(times, limit, windowSeconds) && Inside(times[|times| - 1], from, windowSeconds, closed)
        then 1 else 0
  }

  predicate Ordered(times: seq<int>) {
    forall i :: 0 < i < |times| ==> times[i - 1] <= times[i]
  }

  function Min(a: int, b: int): int {
    if a < b then a else b
  }

  /** What is known of the allowed calls while the window `b` is the latest one. */
  predicate Bounded(b: Bucket, allowed: nat, limit: nat, windowSeconds: nat, from: int, closed: bool) {
    var start, length := b.resetAt - windowSeconds * 1000, windowSeconds * 1000;
    var mine := Min(b.count, limit);
    && b.count >= 1
    && if start < from then allowed <= mine - 1
       else if start == from then allowed <= mine
       else if start < from + length then allowed <= limit - 1 + mine
       else if closed && start == from + length then allowed <= limit + mine
       else allowed <= if closed then 2 * limit else 2 * limit - 1
  }

  lemma {:induction false} AllowedBounded(times: seq<int>, limit: nat, windowSeconds: nat, from: int, closed: bool)
    requires times != [] && Ordered(times) && limit >= 1 && windowSeconds >= 1
    ensures var b := BucketAfter(times, limit, windowSeconds);
      && b.Some? && b.value.resetAt - windowSeconds * 1000 <= times[|times| - 1]
      && Bounded(b.value, Allowed(times, limit, windowSeconds, from, closed), limit, windowSeconds, from, closed)
    ensures times[|times| - 1] < from ==> Allowed(times, limit, windowSeconds, from, closed) == 0
    decreases |times|
  {
    var front := times[..|times| - 1];
    if front != [] {
      AllowedBounded(front, limit, windowSeconds, from, closed);
    }
  }

  /**
   In any interval of one window length at most 2 * limit - 1 calls of a key are allowed, and at
   most 2 * limit if both its ends count.
   */
  lemma SlidingBound(times: seq<int>, limit: nat, windowSeconds: nat, from: int)
    requires Ordered(times) && limit >= 1 && windowSeconds >= 1
    ensures Allowed(times, limit, windowSeconds, from, false) <= 2 * limit - 1
    ensures Allowed(times, limit, windowSeconds, from, true) <= 2 * limit
  {
    if times != [] {
      AllowedBounded(times, limit, windowSeconds, from, false);
      AllowedBounded(times, limit, windowSeconds, from, true);
    }
  }

  /** In the window opened at `from`, the latest one, no more than `limit` calls are allowed. */
  lemma WindowBound(times: seq<int>, limit: nat, windowSeconds: nat, from: int)
    requires times != [] && Ordered(times) && limit >= 1 && windowSeconds >= 1
    requires BucketAfter(times, limit, windowSeconds).value.resetAt == from + windowSeconds * 1000
    ensures Allowed(times, limit, windowSeconds, from, false) <= limit
  {
    AllowedBounded(times, limit, windowSeconds, from, false);
  }

  /** The latest window has allowed as many calls as it has seen, up to the limit, and its last call was within it. */
  lemma {:induction false} AllowedByWindow(times: seq<int>, limit: nat, windowSeconds: nat, b: Bucket)
    requires Ordered(times) && limit >= 1 && windowSeconds >= 1 && BucketAfter(times, limit, windowSeconds) == Some(b)
    ensures times != [] && times[|times| - 1] < b.resetAt
    ensures Allowed(times, limit, windowSeconds, b.resetAt - 1000 * windowSeconds, false) == Min(b.count, limit)
    ensures b.resetAt - 1000 * windowSeconds <= times[|times| - 1]
    decreases |times|
  {
    var front, now := times[..|times| - 1], times[|times| - 1];
    var before := BucketAfter(front, limit, windowSeconds);
    if before.Some? {
      AllowedByWindow(front, limit, windowSeconds, before.value);
      if before.value.resetAt <= now {
        AllowedBounded(front, limit, windowSeconds, now, false);
      }
    }
  }

  /** So a call is denied exactly if the window that is open then has allowed `limit` calls already. */
  lemma DeniedWhenUsedUp(times: seq<int>, limit: nat, windowSeconds: nat)
    requires times != [] && Ordered(times) && limit >= 1 && windowSeconds >= 1
    ensures var front, now := times[..|times| - 1], times[|times| - 1];
      var open := BucketAfter(front, limit, windowSeconds);
      !LastAllowed(times, limit, windowSeconds) <==>
        && open.Some? && now < open.value.resetAt
        && Allowed(front, limit, windowSeconds, open.value.resetAt - 1000 * windowSeconds, false) == limit
  {
    var front := times[..|times| - 1];
    var open := BucketAfter(front, limit, windowSeconds);
    if open.Some? {
      AllowedByWindow(front, limit, windowSeconds, open.value);
    }
  }

  predicate OrderedCalls(calls: seq<Call>) {
    forall i, j :: 0 <= i <= j < |calls| ==> calls[i].now <= calls[j].now
  }

  lemma {:induction false} OrderedTimes(calls: seq<Call>, key: string)
    requires OrderedCalls(calls)
    ensures Ordered(TimesOf(calls, key))
    ensures forall i :: 0 <= i < |TimesOf(calls, key)| ==> TimesOf(calls, key)[i] <= calls[|calls| - 1].now
    decreases |calls|
  {
    if calls != [] {
      OrderedTimes(calls[..|calls| - 1], key);
    }
  }

  /** The bound for any run over any mix of keys. */
  lemma SlidingBoundOfRun(calls: seq<Call>, key: string, limit: nat, windowSeconds: nat, from: int)
    requires OrderedCalls(calls) && limit >= 1 && windowSeconds >= 1
    ensures Allowed(TimesOf(calls, key), limit, windowSeconds, from, false) <= 2 * limit - 1
    ensures Allowed(TimesOf(calls, key), limit, windowSeconds, from, true) <= 2 * limit
  {
    OrderedTimes(calls, key);
    SlidingBound(TimesOf(calls, key), limit, windowSeconds, from);
  }

  // ---------------------------------------------------------------------------------------
  // The bounds are attained
  // ---------------------------------------------------------------------------------------

  function Repeat(time: int, n: nat): (s: seq<int>)
    ensures |s| == n && forall i :: 0 <= i < n ==> s[i] == time
    decreases n
  {
    if n == 0 then [] else Repeat(time, n - 1) + [time]
  }

  /** One more call in an open window with room. */
  lemma CallInWindow(times: seq<int>, all: seq<int>, bucket: Bucket, time: int, limit: nat, windowSeconds: nat,
                     from: int, closed: bool)
    requires BucketAfter(times, limit, windowSeconds) == Some(bucket) && time < bucket.resetAt && all == times + [time]
    requires bucket.count < limit && Inside(time, from, windowSeconds, closed)
    ensures BucketAfter(all, limit, windowSeconds) == Some(Bucket(bucket.count + 1, bucket.resetAt))
    ensures Allowed(all, limit, windowSeconds, from, closed) == Allowed(times, limit, windowSeconds, from, closed) + 1
  {
    assert all[..|times|] == times;
  }

  /** `n` more calls at one instant of an open window: those up to the limit are allowed. */
  lemma {:induction false} CallsInWindow(times: seq<int>, all: seq<int>, bucket: Bucket, last: Bucket, time: int,
                                         n: nat, limit: nat, windowSeconds: nat, from: int, closed: bool)
    requires BucketAfter(times, limit, windowSeconds) == Some(bucket) && time < bucket.resetAt
    requires all == times + Repeat(time, n)
    requires last == Bucket(bucket.count + n, bucket.resetAt)
    requires last.count <= limit && Inside(time, from, windowSeconds, closed)
    ensures BucketAfter(all, limit, windowSeconds) == Some(last)
    ensures Allowed(all, limit, windowSeconds, from, closed) == Allowed(times, limit, windowSeconds, from, closed) + n
    decreases n
  {
    if n == 0 {
      assert all == times;
    } else {
      var before, prior := times + Repeat(time, n - 1), Bucket(last.count - 1, last.resetAt);
      CallsInWindow(times, before, bucket, prior, time, n - 1, limit, windowSeconds, from, closed);
      assert all == before + [time];
      CallInWindow(before, all, prior, time, limit, windowSeconds, from, closed);
    }
  }

  /** A call that opens a window. */
  lemma OpeningCall(times: seq<int>, all: seq<int>, time: int, limit: nat, windowSeconds: nat, from: int, closed: bool)
    requires times != [] ==> BucketAfter(times, limit, windowSeconds).value.resetAt <= time
    requires all == times + [time]
    ensures BucketAfter(all, limit, windowSeconds) == Some(Bucket(1, time + windowSeconds * 1000))
    ensures Allowed(all, limit, windowSeconds, from, closed)
      == Allowed(times, limit, windowSeconds, from, closed) + if Inside(time, from, windowSeconds, closed) then 1 else 0
  {
    assert all[..|times|] == times;
  }

  /** A window filled to the limit: one call opens it, the others come at one later instant. */
  function Filled(open: int, time: int, limit: nat): seq<int>
    requires limit >= 1
  {
    [open] + Repeat(time, limit - 1)
  }

  lemma OpenedThen(times: seq<int>, open: int, others: seq<int>)
    ensures times + ([open] + others) == times + [open] + others
  {
  }

  lemma FilledWindow(times: seq<int>, all: seq<int>, open: int, time: int, limit: nat, windowSeconds: nat, from: int,
                     closed: bool)
    requires limit >= 1 && open <= time < open + windowSeconds * 1000 && Inside(time, from, windowSeconds, closed)
    requires times != [] ==> BucketAfter(times, limit, windowSeconds).value.resetAt <= open
    requires all == times + Filled(open, time, limit)
    ensures BucketAfter(all, limit, windowSeconds) == Some(Bucket(limit, open + windowSeconds * 1000))
    ensures Allowed(all, limit, windowSeconds, from, closed)
      == Allowed(times, limit, windowSeconds, from, closed) + limit
        - if Inside(open, from, windowSeconds, closed) then 0 else 1
  {
    var begun, bucket := times + [open], Bucket(1, open + windowSeconds * 1000);
    OpeningCall(times, begun, open, limit, windowSeconds, from, closed);
    OpenedThen(times, open, Repeat(time, limit - 1));
    CallsInWindow(begun, all, bucket, bucket.(count := limit), time, limit - 1, limit, windowSeconds, from, closed);
  }

  /** Two windows filled to the limit, the second as soon as the first has ended. */
  function TwoWindows(time: int, limit: nat, end: int): seq<int>
    requires limit >= 1
  {
    Filled(0, time, limit) + Filled(end, end, limit)
  }

  lemma TwoWindowsOrdered(time: int, limit: nat, end: int)
    requires limit >= 1 && 0 <= time <= end
    ensures Ordered(TwoWindows(time, limit, end))
  {
  }

  /** The first window, filled from nothing. */
  lemma FirstWindow(time: int, limit: nat, windowSeconds: nat, closed: bool, first: seq<int>)
    requires limit >= 1 && windowSeconds >= 1 && 0 <= time <= 1 && first == Filled(0, time, limit)
    ensures BucketAfter(first, limit, windowSeconds) == Some(Bucket(limit, windowSeconds * 1000))
    ensures Allowed(first, limit, windowSeconds, time, closed) == limit - if time == 0 then 0 else 1
  {
    assert [] + first == first;
    FilledWindow([], first, 0, time, limit, windowSeconds, time, closed);
  }

  /** The second, as soon as the first has ended. */
  lemma SecondWindow(first: seq<int>, all: seq<int>, end: int, limit: nat, windowSeconds: nat, from: int, closed: bool)
    requires limit >= 1 && windowSeconds >= 1 && first != [] && all == first + Filled(end, end, limit)
    requires BucketAfter(first, limit, windowSeconds) == Some(Bucket(limit, end))
    requires Inside(end, from, windowSeconds, closed)
    ensures Allowed(all, limit, windowSeconds, from, closed)
      == Allowed(first, limit, windowSeconds, from, closed) + limit
  {
    FilledWindow(first, all, end, end, limit, windowSeconds, from, closed);
  }

  lemma TwoWindowsFilled(time: int, limit: nat, windowSeconds: nat, closed: bool, all: seq<int>)
    requires limit >= 1 && windowSeconds >= 1 && 0 <= time <= 1
    requires Inside(windowSeconds * 1000, time, windowSeconds, closed)
    requires all == TwoWindows(time, limit, windowSeconds * 1000)
    ensures Ordered(all)
    ensures Allowed(all, limit, windowSeconds, time, closed) == 2 * limit - if time == 0 then 0 else 1
  {
    var end, first := windowSeconds * 1000, Filled(0, time, limit);
    TwoWindowsOrdered(time, limit, end);
    FirstWindow(time, limit, windowSeconds, closed, first);
    SecondWindow(first, all, end, limit, windowSeconds, time, closed);
  }

  /** One call, limit - 1 calls a millisecond later, and limit calls as soon as the window has ended. */
  lemma BoundIsAttained(limit: nat, windowSeconds: nat)
    requires limit >= 1 && windowSeconds >= 1
    ensures Ordered(TwoWindows(1, limit, windowSeconds * 1000))
    ensures Allowed(TwoWindows(1, limit, windowSeconds * 1000), limit, windowSeconds, 1, false) == 2 * limit - 1
  {
    TwoWindowsFilled(1, limit, windowSeconds, false, TwoWindows(1, limit, windowSeconds * 1000));
  }

  /** With both ends: limit calls at an instant, and limit calls one window length later. */
  lemma ClosedBoundIsAttained(limit: nat, windowSeconds: nat)
    requires limit >= 1 && windowSeconds >= 1
    ensures Ordered(TwoWindows(0, limit, windowSeconds * 1000))
    ensures Allowed(TwoWindows(0, limit, windowSeconds * 1000), limit, windowSeconds, 0, true) == 2 * limit
  {
    TwoWindowsFilled(0, limit, windowSeconds, true, TwoWindows(0, limit, windowSeconds * 1000));
  }

  // ---------------------------------------------------------------------------------------
  // What a decision tells the caller
  // ---------------------------------------------------------------------------------------

  /** A denied caller who waits as told, while no one else uses the key, is allowed. */
  lemma RetryAfterIsEnough(bucket: Option<Bucket>, limit: nat, windowSeconds: nat, now: int, later: int)
    requires !Hit(bucket, limit, windowSeconds, now).1.allowed
    requires later >= now + 1000 * Hit(bucket, limit, windowSeconds, now).1.retryAfterSeconds
    ensures Hit(Some(Hit(bucket, limit, windowSeconds, now).0), limit, windowSeconds, later).1.allowed
  {
    var wait := bucket.value.resetAt - now;
    assert 1000 * CeilSeconds(wait) >= wait;
  }

  /** One second less is too early, unless the wait is the minimum of one second. */
  lemma RetryAfterIsNeeded(bucket: Option<Bucket>, limit: nat, windowSeconds: nat, now: int, later: int)
    requires !Hit(bucket, limit, windowSeconds, now).1.allowed
    requires now <= later <= now + 1000 * (Hit(bucket, limit, windowSeconds, now).1.retryAfterSeconds - 1)
    ensures !Hit(Some(Hit(bucket, limit, windowSeconds, now).0), limit, windowSeconds, later).1.allowed
  {
    var wait := bucket.value.resetAt - now;
    assert 1000 * (CeilSeconds(wait) - 1) < wait;
  }

  /** `n` calls of a key at one instant, one after the other. */
  function HitTimes(bucket: Bucket, limit: nat, windowSeconds: nat, now: int, n: nat): Bucket
    decreases n
  {
    if n == 0 then bucket
    else Hit(Some(HitTimes(bucket, limit, windowSeconds, now, n - 1)), limit, windowSeconds, now).0
  }

  lemma {:induction false} HitsAddUp(bucket: Bucket, limit: nat, windowSeconds: nat, now: int, n: nat)
    requires now < bucket.resetAt
    ensures HitTimes(bucket, limit, windowSeconds, now, n) == Bucket(bucket.count + n, bucket.resetAt)
    decreases n
  {
    if n > 0 {
      HitsAddUp(bucket, limit, windowSeconds, now, n - 1);
    }
  }

  /** Within the window exactly the announced number of further calls is allowed. */
  lemma RemainingIsExact(bucket: Option<Bucket>, limit: nat, windowSeconds: nat, now: int, n: nat)
    requires windowSeconds >= 1 && limit >= 1
    ensures var (b, d) := Hit(bucket, limit, windowSeconds, now);
      Hit(Some(HitTimes(b, limit, windowSeconds, now, n)), limit, windowSeconds, now).1.allowed <==> n < d.remaining
  {
    HitsAddUp(Hit(bucket, limit, windowSeconds, now).0, limit, windowSeconds, now, n);
  }
}
