/** When the request counter blocks, and until when, over runs of events. */
module IpBlocks {
  import opened Results
  import opened IpRateLimit
  import opened IpRateLimitTheorems
  import opened IpRequestRate

  // Runs in two parts

  function PlainAfter(auth: AuthLimits, plain: Option<Record>, events: seq<Event>): Option<Record>
    decreases |events|
  {
    if events == [] then plain else PlainAfter(auth, PlainStep(auth, plain, events[0]).0, events[1..])
  }

  lemma {:induction false} PlainRunJoins(auth: AuthLimits, plain: Option<Record>, a: seq<Event>, b: seq<Event>)
    ensures PlainRun(auth, plain, a + b) == PlainRun(auth, plain, a) + PlainRun(auth, PlainAfter(auth, plain, a), b)
    decreases |a|
  {
    if a == [] {
      assert a + b == b;
    } else {
      var (after, verdict) := PlainStep(auth, plain, a[0]);
      assert (a + b)[0] == a[0] && (a + b)[1..] == a[1..] + b;
      PlainRunJoins(auth, after, a[1..], b);
    }
  }

  lemma {:induction false} PlainAfterJoins(auth: AuthLimits, plain: Option<Record>, events: seq<Event>)
    requires events != []
    ensures var front := events[..|events| - 1];
            PlainAfter(auth, plain, events) == PlainStep(auth, PlainAfter(auth, plain, front), events[|events| - 1]).0
    decreases |events|
  {
    if |events| == 1 {
      assert events[1..] == [] && events[..0] == [];
    } else {
      PlainAfterJoins(auth, PlainStep(auth, plain, events[0]).0, events[1..]);
      assert events[1..][..|events| - 2] == events[..|events| - 1][1..];
    }
  }

  // Authentication failures

  lemma {:induction false} FailuresMore(events: seq<Event>)
    requires events != []
    ensures Failures(events)
            == Failures(events[..|events| - 1]) + if events[|events| - 1].op.FailOp? then 1 else 0
  {
    if |events| > 1 {
      FailuresMore(events[1..]);
      assert events[1..][..|events| - 2] == events[..|events| - 1][1..];
    }
  }

  function RequestCount(events: seq<Event>): nat {
    if events == [] then 0
    else RequestCount(events[..|events| - 1]) + if events[|events| - 1].op.TrackOp? then 1 else 0
  }

  function LastFailure(events: seq<Event>): int {
    if events == [] then 0
    else if events[|events| - 1].op.FailOp? then events[|events| - 1].now
    else LastFailure(events[..|events| - 1])
  }

  /** How long `n` failures block: the window of the authentication module, or 5, 10 or 15 minutes if that is longer,
      but 15 minutes at most. */
  function BlockLength(auth: AuthLimits, n: nat): int {
    var escalated := if n >= 12 then 900000 else if n >= 8 then 600000 else 300000;
    var longer := if auth.window > escalated then auth.window else escalated;
    if longer > 900000 then 900000 else longer
  }

  /** Events in order, with at most 600 requests of limits of at least 600, no more failures than healing tolerates, and
      none that comes so late that the block of the failures before it can be over. */
  ghost predicate Gathered(auth: AuthLimits, events: seq<Event>, start: int) {
    && (forall k | 0 <= k < |events| :: Follows(auth, events, k, start))
    && RequestCount(events) <= 600 && Failures(events) <= auth.max * 4
  }

  predicate Follows(auth: AuthLimits, events: seq<Event>, k: nat, start: int)
    requires k < |events|
  {
    var e := events[k];
    && (if k == 0 then start else events[k - 1].later) <= e.now <= e.later
    && (e.op.TrackOp? ==> e.op.limit >= 600)
    && (Failures(events[..k]) >= auth.max ==> e.now < LastFailure(events[..k]) + 300000)
  }

  /** The record counts the failures, and is blocked since the last one if they are enough. */
  ghost predicate Remembers(auth: AuthLimits, plain: Option<Record>, events: seq<Event>) {
    match plain
    case None => Failures(events) == 0
    case Some(r) =>
      && r.failCount == Failures(events) && OrZero(r.requestCount) <= RequestCount(events)
      && r.blockUntil == if Failures(events) >= auth.max
                         then LastFailure(events) + BlockLength(auth, Failures(events)) else 0
  }

  lemma {:induction false} LastFailureBefore(auth: AuthLimits, events: seq<Event>, start: int)
    requires Gathered(auth, events, start) && 0 <= start
    ensures 0 <= LastFailure(events) && (events == [] ==> LastFailure(events) <= start)
    ensures Failures(events) > 0 ==> start <= LastFailure(events)
    ensures events != [] ==> var e := events[|events| - 1]; LastFailure(events) <= e.now <= e.later && start <= e.now
  {
    if events != [] {
      GatheredFront(auth, events, start);
      LastFailureBefore(auth, events[..|events| - 1], start);
      FailuresMore(events);
      assert Follows(auth, events, |events| - 1, start);
    }
  }

  lemma GatheredFront(auth: AuthLimits, events: seq<Event>, start: int)
    requires events != [] && Gathered(auth, events, start)
    ensures Gathered(auth, events[..|events| - 1], start)
  {
    var front := events[..|events| - 1];
    FailuresMore(events);
    forall k | 0 <= k < |front| ensures Follows(auth, front, k, start) {
      assert front[..k] == events[..k];
      assert Follows(auth, events, k, start);
    }
  }

  lemma {:induction false} RunRemembers(auth: AuthLimits, events: seq<Event>, start: int)
    requires auth.max >= 1 && start > 0 && Gathered(auth, events, start)
    ensures Remembers(auth, PlainAfter(auth, None, events), events)
  {
    if events != [] {
      var front, e := events[..|events| - 1], events[|events| - 1];
      GatheredFront(auth, events, start);
      FailuresMore(events);
      RunRemembers(auth, front, start);
      LastFailureBefore(auth, front, start);
      LastFailureBefore(auth, events, start);
      PlainAfterJoins(auth, None, events);
      assert Follows(auth, events, |front|, start);
      StepRemembers(auth, PlainAfter(auth, None, front), front, e, events);
    }
  }

  lemma StepRemembers(auth: AuthLimits, plain: Option<Record>, front: seq<Event>, e: Event, events: seq<Event>)
    requires auth.max >= 1 && events == front + [e] && Remembers(auth, plain, front) && e.now > 0
    requires 0 <= LastFailure(front) <= e.now && Failures(events) <= auth.max * 4 && RequestCount(events) <= 600
    requires (e.op.TrackOp? ==> e.op.limit >= 600)
    requires Failures(front) >= auth.max ==> e.now < LastFailure(front) + 300000
    ensures Remembers(auth, PlainStep(auth, plain, e).0, events)
  {
    assert events[..|events| - 1] == front;
    FailuresMore(events);
  }

  /** A record with a block that no check drops. */
  predicate StaysBlocked(auth: AuthLimits, r: Record, t: int) {
    && 0 <= r.failCount <= auth.max * 4 && t < r.blockUntil <= t + 900000
    && (r.failCount >= auth.max || OrZero(r.requestCount) > 600)
  }

  /** A rejection for `left` milliseconds, in seconds rounded up. */
  predicate RejectedFor(v: Verdict, left: int) {
    v.Rejected? && 1000 * (v.retryAfter - 1) < left <= 1000 * v.retryAfter
  }

  /** The verdict on an event during a block: a login passes unless the block is one of failures. */
  predicate StoppedBy(failures: bool, e: Event, end: int, v: Verdict) {
    if e.op == CheckOp(true) && !failures then v == Allowed else RejectedFor(v, end - e.now)
  }

  lemma BlockedStep(auth: AuthLimits, r: Record, e: Event, t: int)
    requires auth.max >= 1 && 0 < t <= e.now < r.blockUntil && StaysBlocked(auth, r, t) && !e.op.FailOp?
    ensures PlainStep(auth, Some(r), e).0 == Some(r)
    ensures StoppedBy(r.failCount >= auth.max, e, r.blockUntil, PlainStep(auth, Some(r), e).1)
  {
  }

  lemma {:induction false} BlockedRun(auth: AuthLimits, r: Record, rest: seq<Event>, t: int, k: nat)
    requires auth.max >= 1 && t > 0 && StaysBlocked(auth, r, t) && Ordered(rest, t) && k < |rest|
    requires forall j | 0 <= j < |rest| :: !rest[j].op.FailOp?
    requires forall j | 0 <= j < k :: rest[j].now < r.blockUntil
    ensures |PlainRun(auth, Some(r), rest)| == |rest|
    ensures rest[k].now < r.blockUntil ==>
              StoppedBy(r.failCount >= auth.max, rest[k], r.blockUntil, PlainRun(auth, Some(r), rest)[k])
    ensures rest[k].now >= r.blockUntil && (rest[k].op.TrackOp? ==> rest[k].op.limit >= 1) ==>
              PlainRun(auth, Some(r), rest)[k] == Allowed
    decreases |rest|
  {
    RunLength(auth, Some(r), rest);
    if k > 0 {
      BlockedStep(auth, r, rest[0], t);
      OrderedLater(rest, t, k);
      if rest[0].later < r.blockUntil {
        BlockedRun(auth, r, rest[1..], rest[0].later, k - 1);
      } else {
        assert rest[1..][0].now >= r.blockUntil;
        assert k == 1;
        RunLength(auth, Some(r), rest[1..]);
      }
    } else if rest[0].now < r.blockUntil {
      BlockedStep(auth, r, rest[0], t);
    }
  }

  lemma {:induction false} OrderedLater(rest: seq<Event>, t: int, k: nat)
    requires Ordered(rest, t) && k < |rest|
    ensures t <= rest[k].now && (k > 0 ==> rest[0].later <= rest[k].now)
  {
    if k > 0 {
      OrderedLater(rest[1..], rest[0].later, k - 1);
    }
  }

  /** Verdict `k` of the events behind the first `n`: stopped before `end`, and let through if it is the first one that
      comes at `end` or later. */
  predicate BlocksUntil(failures: bool, verdicts: seq<Verdict>, n: nat, rest: seq<Event>, end: int, k: nat)
    requires |verdicts| == n + |rest| && k < |rest|
  {
    var first := forall j | 0 <= j < k :: rest[j].now < end;
    && (rest[k].now < end ==> StoppedBy(failures, rest[k], end, verdicts[n + k]))
    && (first && rest[k].now >= end && (rest[k].op.TrackOp? ==> rest[k].op.limit >= 1) ==> verdicts[n + k] == Allowed)
  }

  lemma {:induction false} RestIsBlocked(auth: AuthLimits, events: seq<Event>, rest: seq<Event>, start: int, t: int,
                                         r: Record, k: nat)
    requires auth.max >= 1 && start > 0 && events != [] && 0 < t <= events[|events| - 1].later
    requires PlainAfter(auth, None, events) == Some(r) && StaysBlocked(auth, r, t)
    requires Ordered(events + rest, start) && k < |rest| && forall j | 0 <= j < |rest| :: !rest[j].op.FailOp?
    ensures |CachedRun(auth, Slot(None, None), events + rest)| == |events| + |rest|
    ensures BlocksUntil(r.failCount >= auth.max, CachedRun(auth, Slot(None, None), events + rest), |events|, rest,
                        r.blockUntil, k)
  {
    OrderedTail(events, rest, start);
    OrderedFrom(rest, events[|events| - 1].later, t);
    CacheIsInvisible(auth, events + rest, start);
    PlainRunJoins(auth, None, events, rest);
    RunLength(auth, None, events);
    RunLength(auth, Some(r), rest);
    EarlierBefore(rest, t, k);
    if forall j | 0 <= j < k :: rest[j].now < r.blockUntil {
      BlockedRun(auth, r, rest, t, k);
    }
  }

  /** After enough failures every check on either path and every request is rejected until the block ends. */
  lemma {:induction false} FailuresBlock(auth: AuthLimits, events: seq<Event>, rest: seq<Event>, start: int, k: nat)
    requires auth.max >= 1 && start > 0 && Gathered(auth, events, start) && Failures(events) >= auth.max
    requires Ordered(events + rest, start) && k < |rest| && forall j | 0 <= j < |rest| :: !rest[j].op.FailOp?
    ensures |CachedRun(auth, Slot(None, None), events + rest)| == |events| + |rest|
    ensures BlocksUntil(true, CachedRun(auth, Slot(None, None), events + rest), |events|, rest,
                        LastFailure(events) + BlockLength(auth, Failures(events)), k)
  {
    RunRemembers(auth, events, start);
    LastFailureBefore(auth, events, start);
    RestIsBlocked(auth, events, rest, start, LastFailure(events), PlainAfter(auth, None, events).value, k);
  }

  lemma {:induction false} OrderedTail(events: seq<Event>, rest: seq<Event>, start: int)
    requires Ordered(events + rest, start)
    ensures Ordered(rest, if events == [] then start else events[|events| - 1].later)
    decreases |events|
  {
    if events == [] {
      assert events + rest == rest;
    } else {
      assert (events + rest)[0] == events[0] && (events + rest)[1..] == events[1..] + rest;
      OrderedTail(events[1..], rest, events[0].later);
    }
  }

  lemma OrderedFrom(rest: seq<Event>, t: int, earlier: int)
    requires Ordered(rest, t) && earlier <= t
    ensures Ordered(rest, earlier)
  {
  }

  lemma {:induction false} EarlierBefore(rest: seq<Event>, t: int, k: nat)
    requires Ordered(rest, t) && k < |rest|
    ensures forall j | 0 <= j <= k :: t <= rest[j].now <= rest[k].now
  {
    if k > 0 {
      EarlierBefore(rest[1..], rest[0].later, k - 1);
      forall j | 0 <= j <= k ensures t <= rest[j].now <= rest[k].now {
        if j > 0 {
          assert rest[j] == rest[1..][j - 1];
        } else {
          assert rest[0].now <= rest[0].later <= rest[1..][0].now;
        }
      }
    }
  }

  // Logins

  predicate FewFailures(plain: Option<Record>, n: nat) {
    plain.Some? ==> plain.value.failCount <= n
  }

  lemma {:induction false} LoginRun(auth: AuthLimits, plain: Option<Record>, events: seq<Event>, n: nat, k: nat)
    requires auth.max >= 1 && FewFailures(plain, n) && k < |events| && events[k].op == CheckOp(true)
    ensures |PlainRun(auth, plain, events)| == |events|
    ensures n + Failures(events[..k]) < auth.max ==> PlainRun(auth, plain, events)[k] == Allowed
    decreases |events|
  {
    RunLength(auth, plain, events);
    if k > 0 {
      assert events[..k][1..] == events[1..][..k - 1];
      var more := if events[0].op.FailOp? then n + 1 else n;
      LoginRun(auth, PlainStep(auth, plain, events[0]).0, events[1..], more, k - 1);
    }
  }

  /** As long as there were fewer failures than the limit, no check on a login path is rejected, whatever the
      requests. */
  lemma {:induction false} LoginNeedsFailures(auth: AuthLimits, events: seq<Event>, start: int, k: nat)
    requires auth.max >= 1 && start > 0 && Ordered(events, start) && k < |events| && events[k].op == CheckOp(true)
    ensures |CachedRun(auth, Slot(None, None), events)| == |events|
    ensures Failures(events[..k]) < auth.max ==> CachedRun(auth, Slot(None, None), events)[k] == Allowed
  {
    CacheIsInvisible(auth, events, start);
    LoginRun(auth, None, events, 0, k);
  }

  // Floods

  /** Requests with one limit in one window, one more than the limit. */
  predicate IsFlood(events: seq<Event>, limit: nat, start: int) {
    && |events| == limit + 1 && Ordered(events, start)
    && (forall k | 0 <= k < |events| :: events[k].op == TrackOp(limit) && events[k].now <= events[0].now + 60000)
  }

  /** The record in the middle of a flood. */
  predicate Floods(plain: Option<Record>, first: int, n: nat) {
    if n == 0 then plain.None?
    else
      && plain.Some? && plain.value.failCount == 0 && plain.value.blockUntil == 0
      && plain.value.windowStart == Some(first) && plain.value.requestCount == Some(n)
  }

  lemma {:induction false} FloodRun(auth: AuthLimits, plain: Option<Record>, events: seq<Event>, limit: nat, first: int,
                                    n: nat, t: int)
    requires auth.max >= 1 && 0 < t && limit >= 1 && Floods(plain, first, n)
    requires n + |events| == limit + 1 && events != [] && Ordered(events, t) && (n == 0 ==> first == events[0].now)
    requires forall k | 0 <= k < |events| :: events[k].op == TrackOp(limit) && events[k].now <= first + 60000
    ensures |PlainRun(auth, plain, events)| == |events|
    ensures forall k | 0 <= k < |events| - 1 :: PlainRun(auth, plain, events)[k] == Allowed
    ensures var last := events[|events| - 1].now;
            && PlainRun(auth, plain, events)[|events| - 1] == Rejected(300)
            && PlainAfter(auth, plain, events).Some?
            && PlainAfter(auth, plain, events).value.blockUntil == last + 300000
            && PlainAfter(auth, plain, events).value.failCount == 0
            && PlainAfter(auth, plain, events).value.requestCount == Some(limit + 1)
    decreases |events|
  {
    var (after, verdict) := PlainStep(auth, plain, events[0]);
    if |events| == 1 {
      assert events[1..] == [];
    } else {
      assert events[1..][|events| - 2] == events[|events| - 1];
      FloodRun(auth, after, events[1..], limit, first, n + 1, events[0].later);
      var verdicts := PlainRun(auth, plain, events);
      assert verdicts[1..] == PlainRun(auth, after, events[1..]);
      forall k | 0 <= k < |events| - 1 ensures verdicts[k] == Allowed {
        assert k > 0 ==> verdicts[k] == verdicts[1..][k - 1];
      }
    }
  }

  /** Up to the limit the requests of a window pass; the one after it is rejected for five minutes, and with it, for a
      limit of at least 600, every request and every check but those on a login path. */
  lemma {:induction false} FloodBlocks(auth: AuthLimits, events: seq<Event>, rest: seq<Event>, limit: nat, start: int,
                                       k: nat)
    requires auth.max >= 1 && start > 0 && limit >= 1 && IsFlood(events, limit, start)
    requires Ordered(events + rest, start) && k < |rest| && forall j | 0 <= j < |rest| :: !rest[j].op.FailOp?
    ensures var verdicts := CachedRun(auth, Slot(None, None), events + rest);
            && |verdicts| == |events| + |rest|
            && (forall j | 0 <= j < limit :: verdicts[j] == Allowed) && verdicts[limit] == Rejected(300)
            && (limit >= 600 ==> BlocksUntil(false, verdicts, |events|, rest, events[limit].now + 300000, k))
  {
    FloodRun(auth, None, events, limit, events[0].now, 0, start);
    EarlierBefore(events, start, limit);
    CacheIsInvisible(auth, events + rest, start);
    PlainRunJoins(auth, None, events, rest);
    RunLength(auth, PlainAfter(auth, None, events), rest);
    if limit >= 600 {
      LaterIsLater(events, start);
      RestIsBlocked(auth, events, rest, start, events[limit].now, PlainAfter(auth, None, events).value, k);
    }
  }

  lemma {:induction false} LaterIsLater(events: seq<Event>, t: int)
    requires Ordered(events, t) && events != []
    ensures events[|events| - 1].now <= events[|events| - 1].later
  {
    if |events| > 1 {
      LaterIsLater(events[1..], events[0].later);
    }
  }
}
