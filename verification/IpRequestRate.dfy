/** What the request counter enforces over whole runs, and when it lets slow callers pass. */
module IpRequestRate {
  import opened Results
  import opened Sequences
  import opened Numbers
  import opened IpRateLimit
  import opened IpRateLimitTheorems

  // Fast callers

  /** The times of the requests that were allowed. */
  function AllowedTimes(events: seq<Event>, verdicts: seq<Verdict>): seq<int>
    requires |verdicts| == |events|
  {
    if events == [] then []
    else
      (if events[0].op.TrackOp? && verdicts[0] == Allowed then [events[0].now] else [])
      + AllowedTimes(events[1..], verdicts[1..])
  }

  lemma {:induction false} RunLength(auth: AuthLimits, plain: Option<Record>, events: seq<Event>)
    ensures |PlainRun(auth, plain, events)| == |events|
    decreases |events|
  {
    if events != [] {
      RunLength(auth, PlainStep(auth, plain, events[0]).0, events[1..]);
    }
  }

  /** The time of a request that is allowed. */
  function Passed(auth: AuthLimits, plain: Option<Record>, e: Event): seq<int> {
    if e.op.TrackOp? && PlainStep(auth, plain, e).1 == Allowed then [e.now] else []
  }

  /** The times at which one plain record allows requests. */
  function PlainTimes(auth: AuthLimits, plain: Option<Record>, events: seq<Event>): seq<int>
    decreases |events|
  {
    if events == [] then []
    else Passed(auth, plain, events[0]) + PlainTimes(auth, PlainStep(auth, plain, events[0]).0, events[1..])
  }

  lemma {:induction false} PlainTimesAreAllowed(auth: AuthLimits, plain: Option<Record>, events: seq<Event>)
    ensures |PlainRun(auth, plain, events)| == |events|
    ensures AllowedTimes(events, PlainRun(auth, plain, events)) == PlainTimes(auth, plain, events)
    decreases |events|
  {
    RunLength(auth, plain, events);
    if events != [] {
      var (after, verdict) := PlainStep(auth, plain, events[0]);
      PlainTimesAreAllowed(auth, after, events[1..]);
      assert PlainRun(auth, plain, events)[1..] == PlainRun(auth, after, events[1..]);
    }
  }

  /** Of the times at most a minute apart, none is `n` places behind another: no minute holds more than `n`. */
  predicate AtMost(times: seq<int>, n: int) {
    forall i, j | 0 <= i <= j < |times| && times[j] - times[i] <= REQUEST_WINDOW_MS :: j - i < n
  }

  function Failures(events: seq<Event>): nat {
    if events == [] then 0 else (if events[0].op.FailOp? then 1 else 0) + Failures(events[1..])
  }

  predicate LimitWithin(e: Event, low: int, high: int) {
    e.op.TrackOp? ==> low <= e.op.limit <= high
  }

  /** All requests come with limits between `low` and `high`. */
  predicate LimitsWithin(events: seq<Event>, low: int, high: int) {
    forall k | 0 <= k < |events| :: LimitWithin(events[k], low, high)
  }

  /** How the allowed requests fall into windows: the last `current` ones into the window that starts at `start`, the
      `previous` ones before them into the window before it. */
  datatype Windows = Windows(start: int, current: nat, previous: nat)

  ghost predicate Split(allowed: seq<int>, w: Windows, cap: nat, t: int) {
    && w.current <= cap && w.previous <= cap && w.current + w.previous <= |allowed| && w.start <= t
    && (forall i | 0 <= i < |allowed| :: allowed[i] <= t)
    && (forall i | 0 <= i < |allowed| - w.current :: allowed[i] <= w.start)
    && (forall i | 0 <= i < |allowed| - w.current - w.previous :: Past(allowed[i], w.start))
  }

  /** More than a window before. */
  predicate Past(a: int, t: int) {
    a + REQUEST_WINDOW_MS < t
  }

  ghost predicate AllPast(allowed: seq<int>, t: int) {
    forall i | 0 <= i < |allowed| :: Past(allowed[i], t)
  }

  /** The record counts the requests of the current window, and a block or its absence means that they are past. */
  ghost predicate Counts(plain: Option<Record>, allowed: seq<int>, w: Windows, t: int) {
    match plain
    case None => AllPast(allowed, t)
    case Some(r) =>
      if r.blockUntil > 0 then AllPast(allowed, r.blockUntil)
      else w.current <= OrZero(r.requestCount) && (r.windowStart.Some? ==> r.windowStart.value == w.start)
  }

  /** No check can drop a block, and nothing is healed, as long as at most `failures` failures follow. */
  predicate Steady(auth: AuthLimits, plain: Option<Record>, failures: nat, t: int) {
    failures <= auth.max * 4
    && (plain.Some? ==>
          var r := plain.value;
          && 0 <= r.blockUntil <= t + MAX_BLOCK_MS && 0 <= r.failCount && r.failCount + failures <= auth.max * 4
          && (r.failCount >= auth.max ==> r.blockUntil > 0)
          && (r.blockUntil > 0 ==> r.failCount >= auth.max || OrZero(r.requestCount) > REQUEST_LIMIT_MAX))
  }

  ghost predicate Rated(auth: AuthLimits, plain: Option<Record>, allowed: seq<int>, w: Windows, failures: nat, cap: nat,
                        t: int) {
    Split(allowed, w, cap, t) && Counts(plain, allowed, w, t) && Steady(auth, plain, failures, t)
  }

  lemma HealRates(auth: AuthLimits, plain: Option<Record>, allowed: seq<int>, w: Windows, failures: nat, cap: nat,
                  t: int, now: int)
    requires Rated(auth, plain, allowed, w, failures, cap, t) && t <= now
    ensures Rated(auth, HealOption(auth, plain, now), allowed, w, failures, cap, now)
    ensures HealOption(auth, plain, now).Some? ==> !Expired(HealOption(auth, plain, now).value, now)
  {
  }

  lemma TrackRates(auth: AuthLimits, found: Option<Record>, allowed: seq<int>, w: Windows, failures: nat, cap: nat,
                   now: int, limit: int) returns (w': Windows)
    requires Rated(auth, found, allowed, w, failures, cap, now) && (found.Some? ==> !Expired(found.value, now))
    requires auth.max >= 1 && REQUEST_LIMIT_MAX <= limit <= cap && now > 0
    ensures var (kept, verdict) := TrackRecord(found, now, limit);
            Rated(auth, if kept.Some? then kept else found, if verdict == Allowed then allowed + [now] else allowed,
                  w', failures, cap, now)
  {
    w' := w;
    if found.None? {
      w' := Windows(now, 1, 0);
    } else if !Blocked(found.value, now) {
      var windowStart := found.value.windowStart;
      if windowStart.Some? && now - windowStart.value > REQUEST_WINDOW_MS {
        w' := Windows(now, 1, w.current);
      } else if OrZero(found.value.requestCount) < limit {
        w' := w.(current := w.current + 1);
      }
    }
  }

  lemma FailRates(auth: AuthLimits, found: Option<Record>, allowed: seq<int>, w: Windows, failures: nat, cap: nat,
                  now: int)
    returns (w': Windows)
    requires Rated(auth, found, allowed, w, failures, cap, now) && (found.Some? ==> !Expired(found.value, now))
    requires failures > 0 && now > 0
    ensures Rated(auth, Some(FailRecord(auth, found, now)), allowed, w', failures - 1, cap, now)
  {
    w' := if found.None? then Windows(now, 0, 0) else w;
  }

  lemma StepRates(auth: AuthLimits, plain: Option<Record>, allowed: seq<int>, w: Windows, failures: nat, cap: nat,
                  t: int, e: Event) returns (w': Windows)
    requires auth.max >= 1 && Rated(auth, plain, allowed, w, failures, cap, t) && 0 < t <= e.now
    requires LimitWithin(e, REQUEST_LIMIT_MAX, cap) && (e.op.FailOp? ==> failures > 0)
    ensures Rated(auth, PlainStep(auth, plain, e).0, allowed + Passed(auth, plain, e), w',
                  if e.op.FailOp? then failures - 1 else failures, cap, e.now)
  {
    HealRates(auth, plain, allowed, w, failures, cap, t, e.now);
    var found := HealOption(auth, plain, e.now);
    match e.op
    case TrackOp(limit) => w' := TrackRates(auth, found, allowed, w, failures, cap, e.now, limit);
    case FailOp => w' := FailRates(auth, found, allowed, w, failures, cap, e.now);
    case CheckOp(_) => w' := w;
  }

  lemma AllowedKeepsRate(allowed: seq<int>, w: Windows, cap: nat, now: int)
    requires AtMost(allowed, 2 * cap) && Split(allowed + [now], w, cap, now) && cap > 0
    ensures AtMost(allowed + [now], 2 * cap)
  {
    var longer := allowed + [now];
    forall i, j | 0 <= i <= j < |longer| && longer[j] - longer[i] <= REQUEST_WINDOW_MS ensures j - i < 2 * cap {
      if j < |allowed| {
        assert longer[i] == allowed[i] && longer[j] == allowed[j];
      } else if i < |longer| - w.current - w.previous {
        assert Past(longer[i], w.start);
      }
    }
  }

  /** The run behind the first event. */
  lemma TailOf(events: seq<Event>, t: int, low: int, high: int)
    requires events != [] && Ordered(events, t) && LimitsWithin(events, low, high)
    ensures t <= events[0].now <= events[0].later && Ordered(events[1..], events[0].later)
    ensures LimitWithin(events[0], low, high) && LimitsWithin(events[1..], low, high)
    ensures Failures(events) == Failures(events[1..]) + if events[0].op.FailOp? then 1 else 0
  {
    forall k | 0 <= k < |events[1..]| ensures LimitWithin(events[1..][k], low, high) {
      assert events[1..][k] == events[k + 1];
    }
  }

  lemma {:induction false} RunRates(auth: AuthLimits, plain: Option<Record>, allowed: seq<int>, w: Windows, cap: nat,
                                    t: int, events: seq<Event>)
    requires auth.max >= 1 && 0 < t && Ordered(events, t) && LimitsWithin(events, REQUEST_LIMIT_MAX, cap) && cap > 0
    requires Rated(auth, plain, allowed, w, Failures(events), cap, t) && AtMost(allowed, 2 * cap)
    ensures AtMost(allowed + PlainTimes(auth, plain, events), 2 * cap)
    decreases |events|
  {
    if events == [] {
      assert allowed + [] == allowed;
    } else {
      var e, rest, passed := events[0], events[1..], Passed(auth, plain, events[0]);
      var after := PlainStep(auth, plain, e).0;
      TailOf(events, t, REQUEST_LIMIT_MAX, cap);
      var w' := StepRates(auth, plain, allowed, w, Failures(events), cap, t, e);
      RatedLater(auth, after, allowed + passed, w', Failures(rest), cap, e.now, e.later);
      if passed == [] {
        assert allowed + [] == allowed;
      } else {
        AllowedKeepsRate(allowed, w', cap, e.now);
      }
      RunRates(auth, after, allowed + passed, w', cap, e.later, rest);
      Regroup(allowed, passed, PlainTimes(auth, after, rest));
    }
  }

  lemma RatedLater(auth: AuthLimits, plain: Option<Record>, allowed: seq<int>, w: Windows, failures: nat, cap: nat,
                   t: int, later: int)
    requires Rated(auth, plain, allowed, w, failures, cap, t) && t <= later
    ensures Rated(auth, plain, allowed, w, failures, cap, later)
  {
  }

  /** In every run with limits from 600 to `cap` and no more failures than healing tolerates, no minute holds more than
      twice `cap` allowed requests. */
  lemma {:induction false} RequestRateHolds(auth: AuthLimits, events: seq<Event>, start: int, cap: nat)
    requires auth.max >= 1 && start > 0 && Ordered(events, start) && Failures(events) <= auth.max * 4
    requires LimitsWithin(events, REQUEST_LIMIT_MAX, cap) && cap > 0
    ensures |CachedRun(auth, Slot(None, None), events)| == |events|
    ensures AtMost(AllowedTimes(events, CachedRun(auth, Slot(None, None), events)), 2 * cap)
  {
    CacheIsInvisible(auth, events, start);
    PlainTimesAreAllowed(auth, None, events);
    RunRates(auth, None, [], Windows(start, 0, 0), cap, start, events);
    assert [] + PlainTimes(auth, None, events) == PlainTimes(auth, None, events);
  }

  /** Requests at one time that stay within window and limit, before `behind`. */
  lemma {:induction false} TracksPass(auth: AuthLimits, r: Record, n: nat, now: int, limit: nat, behind: seq<Event>)
    returns (events: seq<Event>)
    requires auth.max >= 1 && r.failCount == 0 && r.blockUntil == 0 && r.windowStart.Some? && r.requestCount.Some?
    requires 0 <= now - r.windowStart.value <= REQUEST_WINDOW_MS && r.requestCount.value + n <= limit
    requires now > 0 && Ordered(behind, now) && LimitsWithin(behind, limit, limit)
    ensures Ordered(events, now) && LimitsWithin(events, limit, limit) && Failures(events) == Failures(behind)
    ensures PlainTimes(auth, Some(r), events) == seq(n, _ => now) + PlainTimes(auth, Some(Counted(r, n, now)), behind)
    decreases n
  {
    if n == 0 {
      events := behind;
      NothingPassed(PlainTimes(auth, Some(r), behind));
    } else {
      var track := Event(TrackOp(limit), now, now);
      var others := TracksPass(auth, Counted(r, 1, now), n - 1, now, limit, behind);
      events := [track] + others;
      EventFirst(track, others, now, limit);
      TrackCounts(auth, r, track);
      OnePassed(auth, Some(r), track, others);
      OneMore(n, now, PlainTimes(auth, Some(Counted(r, n, now)), behind));
    }
  }

  function Counted(r: Record, n: nat, now: int): Record
    requires r.requestCount.Some?
  {
    if n == 0 then r else r.(requestCount := Some(r.requestCount.value + n), lastAttempt := now)
  }

  lemma TrackCounts(auth: AuthLimits, r: Record, e: Event)
    requires r.failCount == 0 && r.blockUntil == 0 && r.windowStart.Some? && r.requestCount.Some? && e.op.TrackOp?
    requires e.now - r.windowStart.value <= REQUEST_WINDOW_MS && r.requestCount.value < e.op.limit && e.now > 0
    ensures PlainStep(auth, Some(r), e) == (Some(Counted(r, 1, e.now)), Allowed)
  {
  }

  lemma OnePassed(auth: AuthLimits, plain: Option<Record>, e: Event, behind: seq<Event>)
    requires e.op.TrackOp? && PlainStep(auth, plain, e).1 == Allowed
    ensures PlainTimes(auth, plain, [e] + behind) == [e.now] + PlainTimes(auth, PlainStep(auth, plain, e).0, behind)
  {
    assert ([e] + behind)[1..] == behind;
  }

  lemma OneMore(n: nat, now: int, times: seq<int>)
    requires n > 0
    ensures [now] + (seq(n - 1, _ => now) + times) == seq(n, _ => now) + times
  {
    assert [now] + seq(n - 1, _ => now) == seq(n, _ => now);
  }

  lemma NothingPassed(times: seq<int>)
    ensures [] + times == times && seq(0, _ => 0) == []
  {
  }

  function InWindow(n: nat, now: int): Record {
    Record(0, 0, now, Some(now), Some(n))
  }

  /** No record, or one without failures and block whose window is over. */
  predicate OpensWindow(plain: Option<Record>, now: int) {
    plain.Some? ==>
      && plain.value.failCount == 0 && plain.value.blockUntil == 0 && plain.value.windowStart.Some?
      && Past(plain.value.windowStart.value, now)
  }

  lemma TrackOpens(auth: AuthLimits, plain: Option<Record>, e: Event)
    requires e.op.TrackOp? && e.op.limit >= 1 && e.now > 0 && OpensWindow(plain, e.now)
    ensures PlainStep(auth, plain, e) == (Some(InWindow(1, e.now)), Allowed)
  {
  }

  /** Requests at one time that open a window, on an empty counter or behind the window before it. */
  lemma {:induction false} WindowOpens(auth: AuthLimits, plain: Option<Record>, n: nat, now: int, limit: nat,
                                       behind: seq<Event>) returns (events: seq<Event>)
    requires auth.max >= 1 && now > 0 && 1 <= n <= limit && Ordered(behind, now) && LimitsWithin(behind, limit, limit)
    requires OpensWindow(plain, now)
    ensures Ordered(events, now) && LimitsWithin(events, limit, limit) && Failures(events) == Failures(behind)
    ensures PlainTimes(auth, plain, events) == seq(n, _ => now) + PlainTimes(auth, Some(InWindow(n, now)), behind)
  {
    var track := Event(TrackOp(limit), now, now);
    var others := TracksPass(auth, InWindow(1, now), n - 1, now, limit, behind);
    events := [track] + others;
    EventFirst(track, others, now, limit);
    TrackOpens(auth, plain, track);
    OnePassed(auth, plain, track, others);
    assert Counted(InWindow(1, now), n - 1, now) == InWindow(n, now);
    OneMore(n, now, PlainTimes(auth, Some(InWindow(n, now)), behind));
  }

  lemma NotPassed(auth: AuthLimits, plain: Option<Record>, e: Event, behind: seq<Event>)
    requires Passed(auth, plain, e) == []
    ensures PlainTimes(auth, plain, [e] + behind) == PlainTimes(auth, PlainStep(auth, plain, e).0, behind)
  {
    assert ([e] + behind)[1..] == behind;
    NothingPassed(PlainTimes(auth, PlainStep(auth, plain, e).0, behind));
  }

  /** One request too many for a small limit, and the check that drops its block. */
  lemma {:induction false} FloodIsForgotten(auth: AuthLimits, now: int, limit: nat, behind: seq<Event>)
    returns (events: seq<Event>)
    requires auth.max >= 1 && now > 0 && limit < REQUEST_LIMIT_MAX
    requires Ordered(behind, now) && LimitsWithin(behind, limit, limit)
    ensures Ordered(events, now) && LimitsWithin(events, limit, limit) && Failures(events) == Failures(behind)
    ensures PlainTimes(auth, Some(InWindow(limit, now)), events) == PlainTimes(auth, None, behind)
  {
    var track, check := Event(TrackOp(limit), now, now), Event(CheckOp(false), now, now);
    var r := Some(InWindow(limit, now));
    var blocked := PlainStep(auth, r, track).0;
    events := [track] + ([check] + behind);
    EventFirst(check, behind, now, limit);
    EventFirst(track, [check] + behind, now, limit);
    NotPassed(auth, r, track, [check] + behind);
    NotPassed(auth, blocked, check, behind);
  }

  /** A record that has `failures` failures at time `now`, and is blocked if these are enough. */
  predicate Failing(auth: AuthLimits, r: Record, failures: nat, now: int) {
    && r.failCount == failures && OrZero(r.requestCount) <= REQUEST_LIMIT_MAX
    && (if failures >= auth.max then now < r.blockUntil <= now + MAX_BLOCK_MS else r.blockUntil == 0)
  }

  /** More failures than healing tolerates, and the check that then drops their block. */
  lemma {:induction false} FailuresAreForgotten(auth: AuthLimits, r: Record, failures: nat, now: int, limit: nat,
                                                behind: seq<Event>) returns (events: seq<Event>)
    requires auth.max >= 1 && now > 0 && failures <= auth.max * 4 + 1 && Failing(auth, r, failures, now)
    requires Ordered(behind, now) && LimitsWithin(behind, limit, limit)
    ensures Ordered(events, now) && LimitsWithin(events, limit, limit)
    ensures Failures(events) == auth.max * 4 + 1 - failures + Failures(behind)
    ensures PlainTimes(auth, Some(r), events) == PlainTimes(auth, None, behind)
    decreases auth.max * 4 + 1 - failures
  {
    if failures == auth.max * 4 + 1 {
      var check := Event(CheckOp(false), now, now);
      events := [check] + behind;
      EventFirst(check, behind, now, limit);
      NotPassed(auth, Some(r), check, behind);
    } else {
      var fail := Event(FailOp, now, now);
      var after := PlainStep(auth, Some(r), fail).0.value;
      var others := FailuresAreForgotten(auth, after, failures + 1, now, limit, behind);
      events := [fail] + others;
      EventFirst(fail, others, now, limit);
      NotPassed(auth, Some(r), fail, others);
    }
  }

  lemma EventFirst(e: Event, behind: seq<Event>, t: int, limit: int)
    requires e.now == t && e.later == t && Ordered(behind, t) && LimitsWithin(behind, limit, limit)
    requires LimitWithin(e, limit, limit)
    ensures ([e] + behind)[0] == e && ([e] + behind)[1..] == behind
    ensures Ordered([e] + behind, t) && LimitsWithin([e] + behind, limit, limit)
    ensures Failures([e] + behind) == Failures(behind) + if e.op.FailOp? then 1 else 0
  {
    forall k | 0 <= k < |[e] + behind| ensures LimitWithin(([e] + behind)[k], limit, limit) {
      if k > 0 {
        assert LimitWithin(behind[k - 1], limit, limit);
      }
    }
  }

  /** A run with one limit and a bound on its failures. */
  ghost predicate SteadyRun(events: seq<Event>, start: int, limit: int, failures: nat) {
    Ordered(events, start) && Failures(events) <= failures && LimitsWithin(events, limit, limit)
  }

  ghost predicate KeepsRate(auth: AuthLimits, events: seq<Event>, n: int) {
    var verdicts := CachedRun(auth, Slot(None, None), events);
    |verdicts| == |events| && AtMost(AllowedTimes(events, verdicts), n)
  }

  /** In all such runs no minute holds more than twice the limit, exactly if the limit is at least 600 and the failures
      are at most four times the authentication limit: otherwise a check can drop a block that is still on. */
  lemma {:induction false} RateHoldsIff(auth: AuthLimits, start: int, limit: nat, failures: nat)
    requires auth.max >= 1 && start > 0 && limit > 0
    ensures (forall events | SteadyRun(events, start, limit, failures) :: KeepsRate(auth, events, 2 * limit))
            <==> limit >= REQUEST_LIMIT_MAX && failures <= auth.max * 4
  {
    if limit < REQUEST_LIMIT_MAX {
      var events := ThreeBursts(auth, start, limit);
      assert SteadyRun(events, start, limit, failures) && !KeepsRate(auth, events, 2 * limit);
    } else if failures > auth.max * 4 {
      var events := ForgottenFailures(auth, start, limit);
      assert SteadyRun(events, start, limit, failures) && !KeepsRate(auth, events, 2 * limit);
    } else {
      forall events | SteadyRun(events, start, limit, failures) ensures KeepsRate(auth, events, 2 * limit) {
        forall k | 0 <= k < |events| ensures LimitWithin(events[k], REQUEST_LIMIT_MAX, limit) {
          assert LimitWithin(events[k], limit, limit);
        }
        RequestRateHolds(auth, events, start, limit);
      }
    }
  }

  lemma TooClose(auth: AuthLimits, events: seq<Event>, start: int, i: nat, n: nat)
    requires auth.max >= 1 && start > 0 && Ordered(events, start) && i + n < |PlainTimes(auth, None, events)|
    requires var times := PlainTimes(auth, None, events); times[i + n] - times[i] <= REQUEST_WINDOW_MS
    ensures !KeepsRate(auth, events, n)
  {
    CacheIsInvisible(auth, events, start);
    PlainTimesAreAllowed(auth, None, events);
  }

  lemma {:induction false} ThreeBursts(auth: AuthLimits, start: int, limit: nat) returns (events: seq<Event>)
    requires auth.max >= 1 && start > 0 && 0 < limit < REQUEST_LIMIT_MAX
    ensures SteadyRun(events, start, limit, 0) && !KeepsRate(auth, events, 2 * limit)
  {
    var third := WindowOpens(auth, None, limit, start, limit, []);
    var block2 := FloodIsForgotten(auth, start, limit, third);
    var second := WindowOpens(auth, None, limit, start, limit, block2);
    var block1 := FloodIsForgotten(auth, start, limit, second);
    events := WindowOpens(auth, None, limit, start, limit, block1);
    var burst := seq(limit, _ => start);
    var rest := PlainTimes(auth, Some(InWindow(limit, start)), []);
    assert PlainTimes(auth, None, events) == burst + (burst + (burst + rest));
    assert (burst + (burst + (burst + rest)))[2 * limit] == start;
    TooClose(auth, events, start, 0, 2 * limit);
  }

  /** A window that fills up at its end, the next one with failures enough to be forgotten, and a third one. */
  lemma {:induction false} ForgottenFailures(auth: AuthLimits, start: int, limit: nat) returns (events: seq<Event>)
    requires auth.max >= 1 && start > 0 && limit >= REQUEST_LIMIT_MAX
    ensures SteadyRun(events, start, limit, auth.max * 4 + 1) && !KeepsRate(auth, events, 2 * limit)
  {
    var end := start + REQUEST_WINDOW_MS;
    var third := WindowOpens(auth, None, limit, end + 1, limit, []);
    var fails := FailuresAreForgotten(auth, InWindow(REQUEST_LIMIT_MAX, end + 1), 0, end + 1, limit, third);
    var full := InWindow(1, start).(requestCount := Some(limit), lastAttempt := end);
    var second := WindowOpens(auth, Some(full), REQUEST_LIMIT_MAX, end + 1, limit, fails);
    OrderedEarlier(second, end, end + 1);
    var filled := TracksPass(auth, InWindow(1, start), limit - 1, end, limit, second);
    OrderedEarlier(filled, start, end);
    events := WindowOpens(auth, None, 1, start, limit, filled);
    var late := seq(REQUEST_LIMIT_MAX, _ => end + 1);
    var rest := PlainTimes(auth, Some(InWindow(limit, end + 1)), []);
    var times := seq(1, _ => start)
                 + (seq(limit - 1, _ => end) + (late + (seq(limit, _ => end + 1) + rest)));
    assert PlainTimes(auth, None, events) == times;
    assert times[1] == end && times[1 + 2 * limit] == end + 1;
    TooClose(auth, events, start, 1, 2 * limit);
  }

  lemma OrderedEarlier(events: seq<Event>, earlier: int, t: int)
    requires Ordered(events, t) && earlier <= t
    ensures Ordered(events, earlier)
  {
  }

  // Slow callers

  predicate AllAllowed(verdicts: seq<Verdict>) {
    forall k | 0 <= k < |verdicts| :: verdicts[k] == Allowed
  }

  /** Requests more than a window apart from each other and from `t`. */
  predicate Spaced(events: seq<Event>, limit: int, t: int) {
    events == []
    || (events[0].op == TrackOp(limit) && Past(t, events[0].now) && Spaced(events[1..], limit, events[0].now))
  }

  /** A record that lets slow callers pass: one whose block ends in time, or that is not blocked and has a window. */
  predicate LetsSlowPass(plain: Option<Record>, t: int) {
    match plain
    case None => true
    case Some(r) => if r.blockUntil > 0 then r.blockUntil <= t + REQUEST_WINDOW_MS + 1 else r.windowStart.Some?
  }

  predicate WindowBy(plain: Option<Record>, t: int) {
    plain.Some? && plain.value.windowStart.Some? ==> plain.value.windowStart.value <= t
  }

  lemma {:induction false} SlowPass(auth: AuthLimits, plain: Option<Record>, events: seq<Event>, limit: int, t: int)
    requires limit >= 1 && t >= 0 && WindowBy(plain, t) && LetsSlowPass(plain, t) && Spaced(events, limit, t)
    ensures AllAllowed(PlainRun(auth, plain, events))
    decreases |events|
  {
    if events != [] {
      var e := events[0];
      var (after, verdict) := PlainStep(auth, plain, e);
      assert verdict == Allowed && WindowBy(after, e.now) && LetsSlowPass(after, e.now);
      SlowPass(auth, after, events[1..], limit, e.now);
    }
  }

  /** Without a window requests are counted without end, however far apart they come. */
  lemma {:induction false} WindowlessNeverRolls(auth: AuthLimits, r: Record, limit: int, t: int)
    returns (events: seq<Event>)
    requires t >= 0 && r.windowStart.None? && r.blockUntil <= 0
    ensures Ordered(events, t) && Spaced(events, limit, t) && !AllAllowed(PlainRun(auth, Some(r), events))
    decreases limit - OrZero(r.requestCount)
  {
    var now := t + REQUEST_WINDOW_MS + 1;
    var e := Event(TrackOp(limit), now, now);
    var (after, verdict) := PlainStep(auth, Some(r), e);
    var others := [];
    if OrZero(r.requestCount) < limit {
      others := WindowlessNeverRolls(auth, after.value, limit, now);
    }
    events := [e] + others;
    FirstVerdict(auth, Some(r), e, others);
  }

  lemma FirstVerdict(auth: AuthLimits, plain: Option<Record>, e: Event, others: seq<Event>)
    ensures ([e] + others)[0] == e && ([e] + others)[1..] == others
    ensures var (after, verdict) := PlainStep(auth, plain, e);
            AllAllowed(PlainRun(auth, plain, [e] + others))
            <==> verdict == Allowed && AllAllowed(PlainRun(auth, after, others))
  {
    var (after, verdict) := PlainStep(auth, plain, e);
    var rest, all := PlainRun(auth, after, others), PlainRun(auth, plain, [e] + others);
    assert all == [verdict] + rest;
    assert all[0] == verdict;
    forall k | 0 <= k < |rest| ensures all[k + 1] == rest[k] {
    }
    if AllAllowed(all) {
      forall k | 0 <= k < |rest| ensures rest[k] == Allowed {
        assert all[k + 1] == Allowed;
      }
    }
  }

  lemma {:induction false} LongBlockRejects(auth: AuthLimits, r: Record, limit: int, t: int)
    returns (events: seq<Event>)
    requires t >= 0 && r.blockUntil > t + REQUEST_WINDOW_MS + 1
    ensures Ordered(events, t) && Spaced(events, limit, t) && !AllAllowed(PlainRun(auth, Some(r), events))
  {
    var now := Max(t + REQUEST_WINDOW_MS + 1, r.blockUntil - MAX_BLOCK_MS);
    events := [Event(TrackOp(limit), now, now)] + [];
    FirstVerdict(auth, Some(r), Event(TrackOp(limit), now, now), []);
  }

  /** Callers that stay more than a window apart always pass, exactly if the record has a window or a block that is over
      before the first of them can come. */
  lemma {:induction false} SlowCallersPassIff(auth: AuthLimits, plain: Option<Record>, limit: int, t: int)
    requires limit >= 1 && t >= 0 && WindowBy(plain, t)
    ensures (forall events | Ordered(events, t) && Spaced(events, limit, t) ::
               AllAllowed(PlainRun(auth, plain, events)))
            <==> LetsSlowPass(plain, t)
  {
    if LetsSlowPass(plain, t) {
      forall events | Ordered(events, t) && Spaced(events, limit, t) ensures AllAllowed(PlainRun(auth, plain, events)) {
        SlowPass(auth, plain, events, limit, t);
      }
    } else if plain.value.blockUntil > 0 {
      var events := LongBlockRejects(auth, plain.value, limit, t);
    } else {
      var events := WindowlessNeverRolls(auth, plain.value, limit, t);
    }
  }

  /** The cached counter lets every slow caller pass after its first event, exactly if that was not an authentication
      failure: a failure creates a record that is blocked or has no window. */
  lemma {:induction false} FirstEventDecides(auth: AuthLimits, first: Op, limit: int, t: int)
    requires auth.max >= 1 && limit >= 1 && t > 0 && (first.TrackOp? ==> first.limit >= 1)
    ensures (forall events | Ordered(events, t) && Spaced(events, limit, t) ::
               AllAllowed(CachedRun(auth, Slot(None, None), [Event(first, t, t)] + events)))
            <==> !first.FailOp?
  {
    var e := Event(first, t, t);
    var (after, verdict) := PlainStep(auth, None, e);
    SlowCallersPassIff(auth, after, limit, t);
    assert LetsSlowPass(after, t) <==> !first.FailOp?;
    forall events | Ordered(events, t) && Spaced(events, limit, t)
      ensures AllAllowed(CachedRun(auth, Slot(None, None), [e] + events)) <==> AllAllowed(PlainRun(auth, after, events))
    {
      FirstVerdict(auth, None, e, events);
      CacheIsInvisible(auth, [e] + events, t);
    }
  }
}
