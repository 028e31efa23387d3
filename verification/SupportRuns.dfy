/** When a support question is accepted, and how long blocks last, over runs of posts. */
module SupportRuns {
  import opened Numbers
  import opened SiteSupport

  /** The decision on a post at time `now` after the posts at the given times. */
  function DecisionAt(start: int, times: seq<int>, now: int): Decision {
    Posted(AfterPosts(Empty(start), times), now).1
  }

  /** A post in the last ten minutes was blocked for its window. */
  ghost predicate RecentlyBlocked(start: int, times: seq<int>, now: int) {
    exists k | 0 <= k < |times| :: BlockedRecently(start, times, k, now)
  }

  predicate BlockedRecently(start: int, times: seq<int>, k: nat, now: int)
    requires k < |times|
  {
    now - 600000 < times[k] && DecisionAt(start, times[..k], times[k]).WindowBlocked?
  }

  /** A wait of `left` milliseconds in seconds, rounded up. */
  predicate InSeconds(seconds: int, left: int) {
    1000 * (seconds - 1) < left <= 1000 * seconds
  }

  /** A block was set by a post that was blocked ten minutes before its end. */
  lemma {:induction false} BlockHasPost(start: int, times: seq<int>) returns (k: nat)
    requires 0 <= start && Ordered([start] + times) && AfterPosts(Empty(start), times).blockUntil > 0
    ensures k < |times| && times[k] + 600000 == AfterPosts(Empty(start), times).blockUntil
    ensures DecisionAt(start, times[..k], times[k]).WindowBlocked?
  {
    var before, last := times[..|times| - 1], times[|times| - 1];
    assert [start] + before == ([start] + times)[..|times|];
    if AfterPosts(Empty(start), times).blockUntil == AfterPosts(Empty(start), before).blockUntil {
      k := BlockHasPost(start, before);
      assert before[..k] == times[..k];
    } else {
      k := |times| - 1;
    }
  }

  /** A post in ten minutes without a block: the page replies if 100 were accepted before; it is blocked for the day if
      30 were accepted that day; it is accepted if fewer than 10 were accepted in the last ten minutes; and otherwise it
      may be blocked for its window, for ten minutes. */
  ghost predicate Decides(accepted: seq<int>, now: int, d: Decision) {
    if |accepted| >= 100 then d == Gated
    else if OnDay(accepted, now) >= 30 then d.DailyBlocked? && InSeconds(d.retryAfter, 86400000 - now % 86400000)
    else if CountIn(accepted, now - 599999, now + 1) < 10 then d == Accepted
    else d == Accepted || d == WindowBlocked(600)
  }

  lemma {:induction false} PostsAreDecided(start: int, times: seq<int>, now: int)
    requires 0 <= start && Ordered([start] + times + [now]) && !RecentlyBlocked(start, times, now)
    ensures Decides(AcceptedTimes(Empty(start), times), now, DecisionAt(start, times, now))
  {
    var q, accepted := AfterPosts(Empty(start), times), AcceptedTimes(Empty(start), times);
    var all := [start] + times + [now];
    assert [start] + times == all[..|times| + 1];
    RunTracks(start, times);
    var t := if times == [] then start else times[|times| - 1];
    assert t == all[|times|] && now == all[|times| + 1];
    if q.blockUntil > now {
      var k := BlockHasPost(start, times);
      assert BlockedRecently(start, times, k, now);
    }
    OpenPost(q, accepted, t, now);
  }

  /** The decision on a post that meets no block. */
  lemma {:induction false} OpenPost(q: Counts, accepted: seq<int>, t: int, now: int)
    requires Tracks(q, accepted, t) && t <= now && q.blockUntil <= now
    ensures Decides(accepted, now, Posted(q, now).1)
  {
    TracksLater(q, accepted, t, now);
    if q.lifetime < 100 {
      WindowRolls(q, accepted, now);
      DayRolls(RolledWindow(q, now), accepted, now);
      var r := RolledDay(RolledWindow(q, now), now);
      CountUpTo(accepted, r.windowStart, r.windowStart + 600000, r.windowStart, r.windowStart + 600000);
      WindowIsRecent(r, accepted, now);
    }
  }

  lemma TracksLater(q: Counts, accepted: seq<int>, t: int, now: int)
    requires Tracks(q, accepted, t) && t <= now
    ensures Tracks(q, accepted, now)
  {
  }

  /** What the current window counts was accepted in the last ten minutes. */
  lemma {:induction false} WindowIsRecent(r: Counts, accepted: seq<int>, now: int)
    requires Tracks(r, accepted, now) && now < r.windowStart + 600000
    ensures Min(r.windowCount, 10) <= CountIn(accepted, now - 599999, now + 1)
  {
    NoneFrom(accepted, now + 1, r.windowStart + 600000);
    CountSplits(accepted, r.windowStart, now + 1, r.windowStart + 600000);
    CountGrows(accepted, r.windowStart, now + 1, now - 599999, now + 1);
  }

  /** The posts behind a block of a window, at their times: all are blocked until ten minutes after it, with the seconds
      left, and none is blocked for its window when it comes first after that. */
  lemma {:induction false} BlockLasts(start: int, times: seq<int>, blocked: int, rest: seq<int>, now: int)
    requires 0 <= start && Ordered([start] + times + [blocked] + rest + [now])
    requires !RecentlyBlocked(start, times, blocked) && DecisionAt(start, times, blocked).WindowBlocked?
    requires forall k | 0 <= k < |rest| :: rest[k] < blocked + 600000
    ensures now < blocked + 600000 ==>
              var d := DecisionAt(start, times + [blocked] + rest, now);
              d.WindowBlocked? && InSeconds(d.retryAfter, blocked + 600000 - now)
    ensures now >= blocked + 600000 ==> !DecisionAt(start, times + [blocked] + rest, now).WindowBlocked?
  {
    var all := [start] + times + [blocked] + rest + [now];
    var q := AfterPosts(Empty(start), times);
    assert [start] + times == all[..|times| + 1];
    RunTracks(start, times);
    assert all[0] == start && all[|times|] == (if times == [] then start else times[|times| - 1]);
    assert all[|times| + 1] == blocked;
    if q.blockUntil > blocked {
      var k := BlockHasPost(start, times);
      assert BlockedRecently(start, times, k, blocked);
    }
    StaysBlocked(q, blocked, rest, start, times);
  }

  lemma {:induction false} StaysBlocked(q: Counts, blocked: int, rest: seq<int>, start: int, times: seq<int>)
    requires q == AfterPosts(Empty(start), times) && q.blockUntil <= blocked && Posted(q, blocked).1.WindowBlocked?
    requires q.windowStart <= blocked
    requires forall k | 0 <= k < |rest| :: rest[k] < blocked + 600000
    ensures AfterPosts(Empty(start), times + [blocked] + rest) == Posted(q, blocked).0
    ensures Posted(q, blocked).0.blockUntil == blocked + 600000 && Posted(q, blocked).0.lifetime < 100
    ensures Posted(q, blocked).0.windowStart <= blocked
  {
    var all := times + [blocked] + rest;
    if rest == [] {
      assert all[..|all| - 1] == times;
    } else {
      StaysBlocked(q, blocked, rest[..|rest| - 1], start, times);
      assert all[..|all| - 1] == times + [blocked] + rest[..|rest| - 1];
    }
  }
}
