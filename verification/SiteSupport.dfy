/** The three nested quotas of guest support questions. */
module SiteSupport {
  import opened Numbers

  const WINDOW_MAX := 10
  const WINDOW_MS := 600000
  const BLOCK_MS := 600000
  const DAILY_MAX := 30
  const LIFETIME_MAX := 100
  const DAY_MS := 86400000

  datatype Counts = Counts(windowStart: int, windowCount: int, blockUntil: int, dayStart: int, dayCount: int,
                           lifetime: int)

  datatype Decision = Accepted | Gated | WindowBlocked(retryAfter: int) | DailyBlocked(retryAfter: int)

  function UtcDayStart(now: int): int {
    now - now % DAY_MS
  }

  function Empty(now: int): Counts {
    Counts(now, 0, 0, UtcDayStart(now), 0, 0)
  }

  function RolledWindow(q: Counts, now: int): Counts {
    if now - q.windowStart < WINDOW_MS then q else q.(windowStart := now, windowCount := 0, blockUntil := 0)
  }

  function RolledDay(q: Counts, now: int): Counts {
    if q.dayStart == UtcDayStart(now) then q else q.(dayStart := UtcDayStart(now), dayCount := 0)
  }

  /** What one post does to the counts, and the decision. */
  function Posted(q: Counts, now: int): (Counts, Decision) {
    if q.lifetime >= LIFETIME_MAX then (q, Gated)
    else if q.blockUntil > now then (q, WindowBlocked(SecondsUntil(q.blockUntil, now)))
    else
      var r := RolledDay(RolledWindow(q, now), now);
      if r.dayCount >= DAILY_MAX then (r, DailyBlocked(SecondsUntil(UtcDayStart(now) + DAY_MS, now)))
      else if r.windowCount + 1 > WINDOW_MAX then
        (r.(windowCount := r.windowCount + 1, blockUntil := now + BLOCK_MS),
         WindowBlocked(SecondsUntil(now + BLOCK_MS, now)))
      else (r.(windowCount := r.windowCount + 1, dayCount := r.dayCount + 1, lifetime := r.lifetime + 1), Accepted)
  }

  class Quota {
    var windowStart: int
    var windowCount: int
    var blockUntil: int
    var dayStart: int
    var dayCount: int
    var lifetime: int

    function Now(): Counts
      reads this
    {
      Counts(windowStart, windowCount, blockUntil, dayStart, dayCount, lifetime)
    }

    constructor (now: int)
      ensures Now() == Empty(now)
    {
      windowStart, windowCount, blockUntil := now, 0, 0;
      dayStart, dayCount, lifetime := UtcDayStart(now), 0, 0;
    }

    method RollWindow(now: int)
      modifies this
      ensures Now() == RolledWindow(old(Now()), now)
    {
      if now - windowStart < WINDOW_MS {
        return;
      }
      windowStart := now;
      windowCount := 0;
      blockUntil := 0;
    }

    method RollDay(now: int)
      modifies this
      ensures Now() == RolledDay(old(Now()), now)
    {
      var start := UtcDayStart(now);
      if dayStart == start {
        return;
      }
      dayStart := start;
      dayCount := 0;
    }

    method Track(now: int) returns (d: Decision)
      modifies this
      ensures (Now(), d) == Posted(old(Now()), now)
    {
      if lifetime >= LIFETIME_MAX {
        return Gated;
      }
      if blockUntil > now {
        return WindowBlocked(SecondsUntil(blockUntil, now));
      }
      RollWindow(now);
      RollDay(now);
      if dayCount >= DAILY_MAX {
        return DailyBlocked(SecondsUntil(UtcDayStart(now) + DAY_MS, now));
      }
      windowCount := windowCount + 1;
      if windowCount > WINDOW_MAX {
        blockUntil := now + BLOCK_MS;
        return WindowBlocked(SecondsUntil(blockUntil, now));
      }
      dayCount := dayCount + 1;
      lifetime := lifetime + 1;
      d := Accepted;
    }

    /** One address posts at the given times; `accepted` are those at which the workflow ran. */
    method TrackAll(times: seq<int>) returns (accepted: seq<int>)
      modifies this
      ensures Now() == AfterPosts(old(Now()), times) && accepted == AcceptedTimes(old(Now()), times)
    {
      accepted := [];
      for k := 0 to |times|
        invariant Now() == AfterPosts(old(Now()), times[..k]) && accepted == AcceptedTimes(old(Now()), times[..k])
      {
        assert times[..k + 1][..k] == times[..k];
        var d := Track(times[k]);
        if d == Accepted {
          accepted := accepted + [times[k]];
        }
      }
      assert times[..|times|] == times;
    }
  }

  // Runs

  function AfterPosts(q: Counts, times: seq<int>): Counts {
    if times == [] then q else Posted(AfterPosts(q, times[..|times| - 1]), times[|times| - 1]).0
  }

  function AcceptedTimes(q: Counts, times: seq<int>): seq<int> {
    if times == [] then []
    else
      var before, last := times[..|times| - 1], times[|times| - 1];
      AcceptedTimes(q, before) + if Posted(AfterPosts(q, before), last).1 == Accepted then [last] else []
  }

  predicate Ordered(times: seq<int>) {
    forall j, k | 0 <= j < k < |times| :: times[j] <= times[k]
  }

  /** How many of the times lie in `lo <= t < hi`. */
  function CountIn(times: seq<int>, lo: int, hi: int): nat {
    if times == [] then 0
    else CountIn(times[..|times| - 1], lo, hi) + if lo <= times[|times| - 1] < hi then 1 else 0
  }

  /** What holds of the counts and the accepted times after posts up to time `t`. */
  ghost predicate Tracks(q: Counts, accepted: seq<int>, t: int) {
    && 0 <= t && q.windowStart <= t && q.dayStart <= t && q.dayStart % DAY_MS == 0
    && 0 <= q.windowCount && q.lifetime == |accepted| && 0 <= q.dayCount <= DAILY_MAX
    && (q.blockUntil == 0 || q.windowStart + WINDOW_MS <= q.blockUntil <= t + BLOCK_MS)
    && (q.windowCount <= WINDOW_MAX || q.blockUntil > 0)
    && (forall a <- accepted :: a <= t && a < q.windowStart + WINDOW_MS && a < q.dayStart + DAY_MS)
    && CountIn(accepted, q.windowStart, q.windowStart + WINDOW_MS) == Min(q.windowCount, WINDOW_MAX)
    && (forall lo | lo >= q.windowStart - WINDOW_MS :: CountIn(accepted, lo, q.windowStart) <= WINDOW_MAX)
    && CountIn(accepted, q.dayStart, q.dayStart + DAY_MS) == q.dayCount
    && WithinQuotas(accepted)
  }

  function OnDay(times: seq<int>, day: int): nat {
    CountIn(times, day - day % 86400000, day - day % 86400000 + 86400000)
  }

  function InTenMinutes(times: seq<int>, lo: int): nat {
    CountIn(times, lo, lo + 600000)
  }

  /** The limits on accepted posts. */
  ghost predicate WithinQuotas(accepted: seq<int>) {
    && |accepted| <= 100
    && (forall day :: OnDay(accepted, day) <= 30)
    && (forall lo :: InTenMinutes(accepted, lo) <= 20)
  }

  lemma {:induction false} CountSplits(times: seq<int>, lo: int, mid: int, hi: int)
    requires lo <= mid <= hi
    ensures CountIn(times, lo, hi) == CountIn(times, lo, mid) + CountIn(times, mid, hi)
  {
    if times != [] {
      CountSplits(times[..|times| - 1], lo, mid, hi);
    }
  }

  lemma {:induction false} CountGrows(times: seq<int>, lo: int, hi: int, lo': int, hi': int)
    requires lo' <= lo && hi <= hi'
    ensures CountIn(times, lo, hi) <= CountIn(times, lo', hi')
  {
    if times != [] {
      CountGrows(times[..|times| - 1], lo, hi, lo', hi');
    }
  }

  lemma {:induction false} NoneFrom(times: seq<int>, lo: int, hi: int)
    requires forall a <- times :: a < lo
    ensures CountIn(times, lo, hi) == 0
  {
    if times != [] {
      var before := times[..|times| - 1];
      assert times[|times| - 1] in times;
      assert forall a <- before :: a in times;
      NoneFrom(before, lo, hi);
    }
  }

  lemma CountMore(times: seq<int>, t: int, lo: int, hi: int)
    ensures CountIn(times + [t], lo, hi) == CountIn(times, lo, hi) + if lo <= t < hi then 1 else 0
  {
    assert (times + [t])[..|times|] == times;
  }

  /** Where all times lie below `end`, a count up to any later point is one up to `end`. */
  lemma CountUpTo(times: seq<int>, from: int, end: int, lo: int, hi: int)
    requires (forall a <- times :: a < end) && from <= lo
    ensures CountIn(times, lo, hi) <= CountIn(times, from, end)
  {
    if hi <= end {
      CountGrows(times, lo, hi, from, end);
    } else {
      NoneFrom(times, end, hi);
      if lo <= end {
        CountSplits(times, lo, end, hi);
        CountGrows(times, lo, end, from, end);
      } else {
        CountGrows(times, lo, hi, end, hi);
      }
    }
  }

  lemma {:induction false} WindowRolls(q: Counts, accepted: seq<int>, now: int)
    requires Tracks(q, accepted, now)
    ensures Tracks(RolledWindow(q, now), accepted, now)
  {
    if now - q.windowStart >= WINDOW_MS {
      NoneFrom(accepted, now, now + WINDOW_MS);
      forall lo | lo >= now - WINDOW_MS ensures CountIn(accepted, lo, now) <= WINDOW_MAX {
        CountUpTo(accepted, q.windowStart, q.windowStart + WINDOW_MS, lo, now);
      }
    }
  }

  lemma {:induction false} DayRolls(q: Counts, accepted: seq<int>, now: int)
    requires Tracks(q, accepted, now)
    ensures Tracks(RolledDay(q, now), accepted, now) && RolledDay(q, now).dayStart == UtcDayStart(now)
  {
    if q.dayStart != UtcDayStart(now) {
      LaterDay(q.dayStart, now);
      NoneFrom(accepted, UtcDayStart(now), UtcDayStart(now) + DAY_MS);
    }
  }

  lemma LaterDay(day: int, now: int)
    requires day % DAY_MS == 0 && day <= now && day != UtcDayStart(now)
    ensures day + DAY_MS <= UtcDayStart(now) && UtcDayStart(now) % DAY_MS == 0
  {
  }

  lemma SameDay(day: int, now: int)
    requires UtcDayStart(day) <= now < UtcDayStart(day) + DAY_MS
    ensures UtcDayStart(day) == UtcDayStart(now)
  {
  }

  /** The interval that contains a new post holds at most two windows' worth. */
  lemma {:induction false} IntervalStaysWithin(q: Counts, accepted: seq<int>, now: int, lo: int)
    requires Tracks(q, accepted, now) && now < q.windowStart + WINDOW_MS && q.windowCount < WINDOW_MAX
    ensures InTenMinutes(accepted + [now], lo) <= 2 * WINDOW_MAX
  {
    var end := q.windowStart + WINDOW_MS;
    CountMore(accepted, now, lo, lo + WINDOW_MS);
    assert InTenMinutes(accepted, lo) <= 2 * WINDOW_MAX;
    if lo <= now < lo + WINDOW_MS {
      if lo <= q.windowStart {
        CountSplits(accepted, lo, q.windowStart, lo + WINDOW_MS);
        CountUpTo(accepted, q.windowStart, end, q.windowStart, lo + WINDOW_MS);
      } else {
        CountUpTo(accepted, q.windowStart, end, lo, lo + WINDOW_MS);
      }
    }
  }

  lemma {:induction false} AcceptStaysWithin(q: Counts, accepted: seq<int>, now: int)
    requires Tracks(q, accepted, now) && now < q.windowStart + WINDOW_MS && q.dayStart == UtcDayStart(now)
    requires q.windowCount < WINDOW_MAX && q.dayCount < DAILY_MAX && q.lifetime < LIFETIME_MAX
    ensures WithinQuotas(accepted + [now])
  {
    forall day ensures OnDay(accepted + [now], day) <= DAILY_MAX {
      CountMore(accepted, now, UtcDayStart(day), UtcDayStart(day) + DAY_MS);
      assert OnDay(accepted, day) <= DAILY_MAX;
      if UtcDayStart(day) <= now < UtcDayStart(day) + DAY_MS {
        SameDay(day, now);
      }
    }
    forall lo ensures InTenMinutes(accepted + [now], lo) <= 2 * WINDOW_MAX {
      IntervalStaysWithin(q, accepted, now, lo);
    }
  }

  lemma {:induction false} AcceptTracks(q: Counts, accepted: seq<int>, now: int)
    requires Tracks(q, accepted, now) && now < q.windowStart + WINDOW_MS && q.dayStart == UtcDayStart(now)
    requires q.windowCount < WINDOW_MAX && q.dayCount < DAILY_MAX && q.lifetime < LIFETIME_MAX
    ensures Tracks(q.(windowCount := q.windowCount + 1, dayCount := q.dayCount + 1, lifetime := q.lifetime + 1),
                   accepted + [now], now)
  {
    AcceptStaysWithin(q, accepted, now);
    CountMore(accepted, now, q.windowStart, q.windowStart + WINDOW_MS);
    CountMore(accepted, now, q.dayStart, q.dayStart + DAY_MS);
    forall lo | lo >= q.windowStart - WINDOW_MS ensures CountIn(accepted + [now], lo, q.windowStart) <= WINDOW_MAX {
      CountMore(accepted, now, lo, q.windowStart);
    }
  }

  function Ran(d: Decision, now: int): seq<int> {
    if d == Accepted then [now] else []
  }

  lemma {:induction false} PostTracks(q: Counts, accepted: seq<int>, t: int, now: int)
    requires Tracks(q, accepted, t) && t <= now
    ensures Tracks(Posted(q, now).0, accepted + Ran(Posted(q, now).1, now), now)
  {
    assert Tracks(q, accepted, now);
    assert accepted + [] == accepted;
    if q.lifetime < LIFETIME_MAX && q.blockUntil <= now {
      WindowRolls(q, accepted, now);
      var r := RolledWindow(q, now);
      DayRolls(r, accepted, now);
      var s := RolledDay(r, now);
      if s.dayCount < DAILY_MAX && s.windowCount < WINDOW_MAX {
        AcceptTracks(s, accepted, now);
      }
    }
  }

  lemma RetryIsBounded(until: int, now: int, seconds: int)
    requires until <= now + 1000 * seconds && seconds >= 1
    ensures 1 <= SecondsUntil(until, now) <= seconds
  {
  }

  lemma WaitsBriefly(q: Counts, accepted: seq<int>, t: int, now: int)
    requires Tracks(q, accepted, t) && t <= now
    ensures Waits(Posted(q, now).1)
  {
    RetryIsBounded(now + BLOCK_MS, now, 600);
    RetryIsBounded(UtcDayStart(now) + DAY_MS, now, 86400);
    if q.blockUntil > now {
      RetryIsBounded(q.blockUntil, now, 600);
    }
  }

  /** How long a blocked caller is told to wait: ten minutes, or until the end of the day, at most. */
  predicate Waits(d: Decision) {
    match d
    case WindowBlocked(retryAfter) => 1 <= retryAfter <= 600
    case DailyBlocked(retryAfter) => 1 <= retryAfter <= 86400
    case _ => true
  }

  lemma {:induction false} EmptyTracks(now: int)
    requires 0 <= now
    ensures Tracks(Empty(now), [], now)
  {
    assert forall day :: OnDay([], day) == 0;
    assert forall lo :: InTenMinutes([], lo) == 0;
  }

  lemma {:induction false} RunTracks(start: int, times: seq<int>)
    requires 0 <= start && Ordered([start] + times)
    ensures Tracks(AfterPosts(Empty(start), times), AcceptedTimes(Empty(start), times),
                   if times == [] then start else times[|times| - 1])
  {
    if times == [] {
      EmptyTracks(start);
    } else {
      var before, last := times[..|times| - 1], times[|times| - 1];
      assert [start] + before == ([start] + times)[..|times|];
      RunTracks(start, before);
      var t := if before == [] then start else before[|before| - 1];
      assert t == ([start] + times)[|times| - 1] && last == ([start] + times)[|times|];
      PostTracks(AfterPosts(Empty(start), before), AcceptedTimes(Empty(start), before), t, last);
    }
  }

  /** Over every run of one address: the lifetime count is the number of accepted posts, which never exceeds 100, nor 30
      a day, nor 20 in any ten minutes. */
  lemma {:induction false} QuotasHold(start: int, times: seq<int>)
    requires 0 <= start && Ordered([start] + times)
    ensures AfterPosts(Empty(start), times).lifetime == |AcceptedTimes(Empty(start), times)|
    ensures WithinQuotas(AcceptedTimes(Empty(start), times))
  {
    RunTracks(start, times);
  }

  /** When a window block is over, the next post opens a fresh window: it is accepted unless the day or the lifetime is
      spent. */
  lemma {:induction false} BlockOpensWindow(start: int, times: seq<int>, now: int)
    requires 0 <= start && Ordered([start] + times + [now])
    requires 0 < AfterPosts(Empty(start), times).blockUntil <= now
    ensures var q := AfterPosts(Empty(start), times);
            var (after, d) := Posted(q, now);
            && !d.WindowBlocked?
            && (d == Accepted ==> after.windowStart == now && after.windowCount == 1 && after.blockUntil == 0)
            && (d == Accepted <==> q.lifetime < LIFETIME_MAX && RolledDay(q, now).dayCount < DAILY_MAX)
  {
    assert [start] + times == ([start] + times + [now])[..|times| + 1];
    RunTracks(start, times);
  }

  /** In every run a blocked caller is told to wait at most ten minutes, or until the day ends. */
  lemma {:induction false} RunsWaitBriefly(start: int, times: seq<int>, now: int)
    requires 0 <= start && Ordered([start] + times + [now])
    ensures Waits(Posted(AfterPosts(Empty(start), times), now).1)
  {
    var all := [start] + times + [now];
    assert [start] + times == all[..|times| + 1];
    RunTracks(start, times);
    var t := if times == [] then start else times[|times| - 1];
    assert t == all[|times|] && now == all[|times| + 1];
    WaitsBriefly(AfterPosts(Empty(start), times), AcceptedTimes(Empty(start), times), t, now);
  }
}
